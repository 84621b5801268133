/** Repeating cases that are answered the same way on every draw changes nothing the adopt gate decides. */
module AdoptRepeats {
  import opened Common
  import opened SignTest
  import opened AdoptGate

  /** The draw numbers expand_cases gives `r` repeats of a case. */
  function DrawNumbers(r: nat): set<nat> { if r == 1 then {0} else Numbers(r) }

  function Numbers(n: nat): set<nat> { if n == 0 then {} else Numbers(n - 1) + {n} }

  function Ids(bases: set<string>, r: nat): set<CaseId> {
    set b, d | b in bases && d in DrawNumbers(r) :: CaseId(b, d)
  }

  function Count(rows: seq<Row>, name: string, base: string): nat {
    if rows == [] then 0
    else
      var n := |rows| - 1;
      Count(rows[..n], name, base) + (if rows[n].candidate == name && rows[n].id.base == base then 1 else 0)
  }

  /** `rows` hold exactly `r` draws of each case of `answers` for this candidate, each answered as `answers` says. */
  predicate Drawn(rows: seq<Row>, name: string, answers: map<string, bool>, r: nat) {
    && Verdicts(rows, name).Keys == Ids(answers.Keys, r)
    && Consistent(rows, name, answers)
    && forall b <- answers :: Count(rows, name, b) == r
  }

  predicate Consistent(rows: seq<Row>, name: string, answers: map<string, bool>) {
    forall i :: 0 <= i < |rows| && rows[i].candidate == name ==>
      rows[i].id.base in answers && rows[i].passed == answers[rows[i].id.base]
  }

  // ---- counting ids ----

  lemma {:induction false} NumbersCount(n: nat)
    ensures |Numbers(n)| == n
    ensures forall d <- Numbers(n) :: d <= n
  {
    if n > 0 {
      NumbersCount(n - 1);
      assert n !in Numbers(n - 1);
    }
  }

  lemma DrawNumbersCount(r: nat)
    ensures |DrawNumbers(r)| == r
  {
    NumbersCount(r);
  }

  lemma Distribute(x: int, y: int, r: int)
    ensures (x + y) * r == x * r + y * r
  {
  }

  lemma {:induction false} OneBase(b: string, ds: set<nat>)
    ensures |set d | d in ds :: CaseId(b, d)| == |ds|
  {
    var all := set d | d in ds :: CaseId(b, d);
    if ds != {} {
      var x := Pick(ds);
      var rest := set d | d in ds - {x} :: CaseId(b, d);
      OneBase(b, ds - {x});
      assert all == rest + {CaseId(b, x)};
      assert CaseId(b, x) !in rest;
    } else {
      assert all == {};
    }
  }

  lemma IdsSplit(bases: set<string>, b: string, r: nat)
    requires b in bases
    ensures var one := set d | d in DrawNumbers(r) :: CaseId(b, d);
            Ids(bases, r) == Ids(bases - {b}, r) + one && Ids(bases - {b}, r) !! one
  {
    hide DrawNumbers;
  }

  lemma {:induction false} IdsCount(bases: set<string>, r: nat)
    ensures |Ids(bases, r)| == |bases| * r
  {
    if bases == {} {
      assert Ids(bases, r) == {};
    } else {
      var b := Pick(bases);
      OneBase(b, DrawNumbers(r));
      DrawNumbersCount(r);
      IdsCount(bases - {b}, r);
      IdsSplit(bases, b, r);
      Distribute(|bases| - 1, 1, r);
      hide Ids, DrawNumbers;
    }
  }

  // ---- the paired cell ----

  lemma {:induction false} VerdictsAreAnswers(rows: seq<Row>, name: string, answers: map<string, bool>)
    requires Consistent(rows, name, answers)
    ensures forall id <- Verdicts(rows, name) :: id.base in answers && Verdicts(rows, name)[id] == answers[id.base]
  {
    if rows != [] {
      VerdictsAreAnswers(rows[..|rows| - 1], name, answers);
    }
  }

  function Times(c: Cell, r: nat): Cell { Cell(c.lost * r, c.gained * r, c.same * r) }

  /** Verdicts on every draw of some cases that answer as the case does. */
  ghost predicate Follows(v: map<CaseId, bool>, answers: map<string, bool>, r: nat) {
    v.Keys == Ids(answers.Keys, r) && forall id <- v :: id.base in answers && v[id] == answers[id.base]
  }

  lemma DrawnFollows(rows: seq<Row>, name: string, answers: map<string, bool>, r: nat)
    requires Drawn(rows, name, answers, r)
    ensures Follows(Verdicts(rows, name), answers, r)
  {
    VerdictsAreAnswers(rows, name, answers);
    hide Verdicts, Consistent, Ids, Count;
  }

  lemma SelectedScale(vi: map<CaseId, bool>, vc: map<CaseId, bool>, mine: map<string, bool>, theirs: map<string, bool>,
                      r: nat, sel: (bool, bool) -> bool)
    requires Follows(vi, mine, r) && Follows(vc, theirs, r)
    ensures (set k | k in vi.Keys * vc.Keys && sel(vi[k], vc[k]))
         == Ids((set b | b in mine.Keys * theirs.Keys && sel(mine[b], theirs[b])), r)
  {
    hide DrawNumbers;
  }

  lemma CountScales(rows: seq<Row>, i: string, c: string, mine: map<string, bool>, theirs: map<string, bool>, r: nat,
                    sel: (bool, bool) -> bool)
    requires Drawn(rows, i, mine, r) && Drawn(rows, c, theirs, r)
    ensures CountWhere(Verdicts(rows, i), Verdicts(rows, c), sel) == CountWhere(mine, theirs, sel) * r
  {
    DrawnFollows(rows, i, mine, r);
    DrawnFollows(rows, c, theirs, r);
    hide Verdicts, Drawn, Follows, Ids;
    SelectedScale(Verdicts(rows, i), Verdicts(rows, c), mine, theirs, r, sel);
    IdsCount((set b | b in mine.Keys * theirs.Keys && sel(mine[b], theirs[b])), r);
  }

  lemma CellScales(rows: seq<Row>, i: string, c: string, mine: map<string, bool>, theirs: map<string, bool>, r: nat)
    requires Drawn(rows, i, mine, r) && Drawn(rows, c, theirs, r)
    ensures HeadToHead(rows, i, c) == Times(CellOf(mine, theirs), r)
  {
    CountScales(rows, i, c, mine, theirs, r, IsLost);
    CountScales(rows, i, c, mine, theirs, r, IsGained);
    CountScales(rows, i, c, mine, theirs, r, IsSame);
  }

  // ---- the groups rows_icc forms ----

  function Lookup(groups: seq<(string, Draws)>, base: string): Draws {
    if groups == [] then [] else if groups[0].0 == base then groups[0].1 else Lookup(groups[1..], base)
  }

  predicate Keyed(groups: seq<(string, Draws)>) {
    forall i, j :: 0 <= i < j < |groups| ==> groups[i].0 != groups[j].0
  }

  function Keys(groups: seq<(string, Draws)>): set<string> { set g | g in groups :: g.0 }

  lemma {:induction false} AddDrawLooksUp(groups: seq<(string, Draws)>, base: string, passed: bool, k: string)
    ensures Lookup(AddDraw(groups, base, passed), k) == Lookup(groups, k) + (if k == base then [passed] else [])
  {
    if groups != [] && groups[0].0 != base {
      AddDrawLooksUp(groups[1..], base, passed, k);
    }
  }

  lemma {:induction false} AddDrawKeys(groups: seq<(string, Draws)>, base: string, passed: bool)
    ensures Keys(AddDraw(groups, base, passed)) == Keys(groups) + {base}
  {
    var out := AddDraw(groups, base, passed);
    KeysSplit(out);
    if groups != [] {
      KeysSplit(groups);
      if groups[0].0 != base {
        AddDrawKeys(groups[1..], base, passed);
      }
    }
  }

  lemma {:induction false} AddDrawKeyed(groups: seq<(string, Draws)>, base: string, passed: bool)
    requires Keyed(groups)
    ensures Keyed(AddDraw(groups, base, passed))
  {
    var out := AddDraw(groups, base, passed);
    if groups != [] && groups[0].0 != base {
      var rest := AddDraw(groups[1..], base, passed);
      AddDrawKeyed(groups[1..], base, passed);
      AddDrawKeys(groups[1..], base, passed);
      forall j | 0 <= j < |rest|
        ensures rest[j].0 != groups[0].0
      {
        assert rest[j].0 in Keys(rest);
        if g :| g in groups[1..] && g.0 == rest[j].0 {
          assert exists i :: 0 < i < |groups| && groups[i] == g;
        }
      }
    }
  }

  lemma KeysSplit(groups: seq<(string, Draws)>)
    requires groups != []
    ensures Keys(groups) == {groups[0].0} + Keys(groups[1..])
  {
    assert forall g :: g in groups <==> g == groups[0] || g in groups[1..];
  }

  lemma {:induction false} LookupFinds(groups: seq<(string, Draws)>, i: nat)
    requires Keyed(groups) && i < |groups|
    ensures Lookup(groups, groups[i].0) == groups[i].1
  {
    if i > 0 {
      LookupFinds(groups[1..], i - 1);
    }
  }

  predicate Constant(g: Draws) { forall i :: 0 <= i < |g| ==> g[i] == g[0] }

  /** A candidate's groups have distinct cases, each with as many draws as it has rows. */
  lemma {:induction false} GroupsCount(rows: seq<Row>, name: string, b: string)
    ensures Keyed(Groups(rows, name)) && |Lookup(Groups(rows, name), b)| == Count(rows, name, b)
    ensures forall k <- Keys(Groups(rows, name)) ::
              exists j :: 0 <= j < |rows| && rows[j].candidate == name && rows[j].id.base == k
  {
    if rows != [] {
      var n := |rows| - 1;
      GroupsCount(rows[..n], name, b);
      if rows[n].candidate == name {
        AddDrawLooksUp(Groups(rows[..n], name), rows[n].id.base, rows[n].passed, b);
        AddDrawKeys(Groups(rows[..n], name), rows[n].id.base, rows[n].passed);
        AddDrawKeyed(Groups(rows[..n], name), rows[n].id.base, rows[n].passed);
      }
      forall k <- Keys(Groups(rows, name))
        ensures exists j :: 0 <= j < |rows| && rows[j].candidate == name && rows[j].id.base == k
      {
        if k in Keys(Groups(rows[..n], name)) {
          var j :| 0 <= j < n && rows[..n][j].candidate == name && rows[..n][j].id.base == k;
          assert rows[j].candidate == name && rows[j].id.base == k;
        } else {
          assert rows[n].candidate == name && rows[n].id.base == k;
        }
      }
    }
  }

  lemma {:induction false} GroupsHoldTheDraws(rows: seq<Row>, name: string, answers: map<string, bool>, b: string)
    requires Consistent(rows, name, answers)
    ensures var g := Groups(rows, name);
            && Keyed(g) && Keys(g) <= answers.Keys
            && |Lookup(g, b)| == Count(rows, name, b)
            && (b in answers ==> forall i :: 0 <= i < |Lookup(g, b)| ==> Lookup(g, b)[i] == answers[b])
  {
    GroupsCount(rows, name, b);
    if rows != [] {
      var n := |rows| - 1;
      GroupsHoldTheDraws(rows[..n], name, answers, b);
      if rows[n].candidate == name {
        AddDrawLooksUp(Groups(rows[..n], name), rows[n].id.base, rows[n].passed, b);
        AddDrawKeys(Groups(rows[..n], name), rows[n].id.base, rows[n].passed);
      }
    }
  }

  /** Every group is `r` equal draws. */
  predicate Uniform(groups: seq<Draws>, r: nat) {
    forall g <- groups :: |g| == r && Constant(g)
  }

  lemma {:induction false} DrawsOfMembers(groups: seq<(string, Draws)>)
    ensures |DrawsOf(groups)| == |groups|
    ensures forall i :: 0 <= i < |groups| ==> DrawsOf(groups)[i] == groups[i].1
  {
    if groups != [] {
      DrawsOfMembers(groups[1..]);
    }
  }

  lemma GroupsAreUniform(rows: seq<Row>, name: string, answers: map<string, bool>, r: nat)
    requires Drawn(rows, name, answers, r)
    ensures Uniform(DrawsOf(Groups(rows, name)), r)
  {
    var g := Groups(rows, name);
    DrawsOfMembers(g);
    forall i | 0 <= i < |g|
      ensures |g[i].1| == r && Constant(g[i].1)
    {
      GroupsHoldTheDraws(rows, name, answers, g[i].0);
      assert g[i].0 in Keys(g);
      LookupFinds(g, i);
    }
  }

  // ---- the correlation of equal draws ----

  lemma {:induction false} ConstantSums(g: Draws, b: bool)
    requires forall i :: 0 <= i < |g| ==> g[i] == b
    ensures Total(g) == |g| as real * Score(b)
    ensures Spread(g, Score(b)) == 0.0
  {
    if g != [] {
      ConstantSums(g[1..], b);
    }
  }

  lemma ConstantSpread(g: Draws)
    requires g != [] && Constant(g)
    ensures Spread(g, Mean(g)) == 0.0
  {
    ConstantSums(g, g[0]);
    var n := |g| as real;
    assert n * Score(g[0]) / n == Score(g[0]);
  }

  lemma {:induction false} NoSpreadWithin(groups: seq<Draws>, r: nat)
    requires r > 0 && Uniform(groups, r)
    ensures Within(groups) == 0.0 && CountDraws(groups) == |groups| * r
  {
    hide Mean, Spread, Constant;
    if groups != [] {
      assert groups[0] in groups;
      ConstantSpread(groups[0]);
      NoSpreadWithin(groups[1..], r);
      Distribute(|groups| - 1, 1, r);
    }
  }

  lemma {:induction false} UniformAnova(cands: seq<seq<Draws>>, r: nat)
    requires r > 0 && forall c <- cands :: Uniform(c, r)
    ensures var a := Accumulate(cands); a.ssw == 0.0 && a.draws == a.groups * r
  {
    hide Mean, Between, Within, Flatten, CountDraws, Uniform;
    if cands != [] {
      assert cands[0] in cands;
      UniformAnova(cands[1..], r);
      NoSpreadWithin(cands[0], r);
      Distribute(Accumulate(cands[1..]).groups, |cands[0]|, r);
    }
  }

  lemma NoSpreadMeansFullRho(a: Anova)
    requires a.ssw == 0.0
    ensures RhoOf(a).GetOr(DEFAULT_RHO) == 1.0
  {
    if !(a.dfb <= 0 || a.dfw <= 0 || a.groups == 0) {
      var msb, msw := a.ssb / a.dfb as real, a.ssw / a.dfw as real;
      assert msw == 0.0;
      assert (a.draws as real / a.groups as real - 1.0) * msw == 0.0;
      assert msb != 0.0 ==> (msb - msw) / msb == 1.0;
    }
  }

  lemma EvenMean(draws: nat, groups: nat, r: nat)
    requires groups > 0 && draws == groups * r
    ensures draws as real / groups as real == r as real
  {
    assert draws as real == r as real * groups as real;
  }

  /** Equal draws correlate fully, or show no variance and are assumed to. */
  lemma EqualDrawsCorrelate(cands: seq<seq<Draws>>, r: nat)
    requires r > 0 && forall c <- cands :: Uniform(c, r)
    ensures Icc(cands).GetOr(DEFAULT_RHO) == 1.0
    ensures MeanDraws(cands) == if Accumulate(cands).groups == 0 then 1.0 else r as real
  {
    UniformAnova(cands, r);
    hide Accumulate, RhoOf, Uniform;
    var a := Accumulate(cands);
    NoSpreadMeansFullRho(a);
    if a.groups > 0 {
      EvenMean(a.draws, a.groups, r);
    }
  }

  // ---- the theorem ----

  lemma ShrinkUndoesRepeats(cell: Cell, r: nat)
    requires r > 0
    ensures Shrink(Times(cell, r), r as real) == Shrunk(cell.gained, cell.lost)
  {
    WholeQuotient(cell.gained, r);
    WholeQuotient(cell.lost, r);
  }

  lemma WholeQuotient(n: nat, r: nat)
    requires r > 0
    ensures (n * r) as real / r as real == n as real
    ensures Floor((n * r) as real / r as real) == n && Ceil((n * r) as real / r as real) == n
  {
    assert (n * r) as real == n as real * r as real;
  }

  lemma RepeatsShrinkToOneDraw(rows: seq<Row>, i: string, c: string, mine: map<string, bool>,
                               theirs: map<string, bool>, r: nat)
    requires r > 0 && Drawn(rows, i, mine, r) && Drawn(rows, c, theirs, r)
    ensures var once := CellOf(mine, theirs);
            Shrink(HeadToHead(rows, i, c), Deff(rows, i, c)) == Shrunk(once.gained, once.lost)
  {
    var once := CellOf(mine, theirs);
    var cands := ByCandidate(rows, i, c);
    GroupsAreUniform(rows, i, mine, r);
    GroupsAreUniform(rows, c, theirs, r);
    EqualDrawsCorrelate(cands, r);
    CellScales(rows, i, c, mine, theirs, r);
    if Accumulate(cands).groups == 0 {
      NoGroupsNoCell(rows, i, c, mine, theirs, r);
      assert Deff(rows, i, c) == 1.0;
    } else {
      assert Deff(rows, i, c) == r as real;
      ShrinkUndoesRepeats(once, r);
    }
  }

  lemma NoGroupsNoCell(rows: seq<Row>, i: string, c: string, mine: map<string, bool>, theirs: map<string, bool>, r: nat)
    requires r > 0 && Drawn(rows, i, mine, r) && Drawn(rows, c, theirs, r)
    requires Accumulate(ByCandidate(rows, i, c)).groups == 0
    ensures CellOf(mine, theirs) == Cell(0, 0, 0)
  {
    var g := Groups(rows, i);
    DrawsOfMembers(g);
    assert ByCandidate(rows, i, c)[0] == DrawsOf(g);
    assert g == [];
    forall b | b in mine
      ensures false
    {
      GroupsHoldTheDraws(rows, i, mine, b);
    }
    assert mine.Keys * theirs.Keys == {};
  }

  /**
   * When every case is answered the same way on all `r` draws, the shrunk counts, p and verdict are those of a
   * single draw.
   */
  lemma RepeatInvariance(rows: seq<Row>, once: seq<Row>, i: string, c: string, mine: map<string, bool>,
                         theirs: map<string, bool>, r: nat, better: bool, plan: Option<bool>)
    requires r > 0 && rows != [] && once != []
    requires Drawn(rows, i, mine, r) && Drawn(rows, c, theirs, r)
    requires Drawn(once, i, mine, 1) && Drawn(once, c, theirs, 1)
    ensures Shrink(HeadToHead(rows, i, c), Deff(rows, i, c)) == Shrink(HeadToHead(once, i, c), Deff(once, i, c))
    ensures PairedP(rows, i, c) == PairedP(once, i, c)
    ensures Decide(better, rows, i, c, plan) == Decide(better, once, i, c, plan)
  {
    hide Drawn, Deff, Verdicts, CellOf, P;
    RepeatsShrinkToOneDraw(rows, i, c, mine, theirs, r);
    RepeatsShrinkToOneDraw(once, i, c, mine, theirs, 1);
    CellScales(rows, i, c, mine, theirs, r);
    CellScales(once, i, c, mine, theirs, 1);
    SameSigns(CellOf(mine, theirs), r);
    SameSigns(CellOf(mine, theirs), 1);
  }

  lemma SameSigns(cell: Cell, r: nat)
    requires r > 0
    ensures Times(cell, r).lost > Times(cell, r).gained <==> cell.lost > cell.gained
    ensures Times(cell, r).lost + Times(cell, r).gained == 0 && Times(cell, r).same == 0
       <==> cell.lost + cell.gained == 0 && cell.same == 0
  {
    MulPositive(cell.lost, cell.gained, r);
    MulPositive(cell.lost, 0, r);
    MulPositive(cell.gained, 0, r);
    MulPositive(cell.same, 0, r);
  }

  lemma MulPositive(x: nat, y: nat, r: nat)
    requires r > 0
    ensures x * r > y * r <==> x > y
  {
    if x > y {
      assert x * r == y * r + (x - y) * r;
    } else {
      assert y * r == x * r + (y - x) * r;
    }
  }

  /** Two cases gained against one lost, the same way on every draw, is never adopted at any repeat. */
  lemma TwoAgainstOneIsNeverAdopted(rows: seq<Row>, i: string, c: string, mine: map<string, bool>,
                                    theirs: map<string, bool>, r: nat, better: bool, plan: Option<bool>)
    requires r > 0 && Drawn(rows, i, mine, r) && Drawn(rows, c, theirs, r)
    requires CellOf(mine, theirs).gained == 2 && CellOf(mine, theirs).lost == 1
    ensures Decide(better, rows, i, c, plan) != Adopted
  {
    RepeatsShrinkToOneDraw(rows, i, c, mine, theirs, r);
    PIsOneExactly(2, 1);
  }
}

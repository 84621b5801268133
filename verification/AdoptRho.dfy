/**
 * harness/power.py's icc and rows_icc read off the rows: the sums of squares about case and candidate means, the
 * degrees of freedom, and the one equation the within-case correlation solves.
 */
module AdoptRho {
  import opened Common
  import opened SignTest
  import opened AdoptGate
  import opened AdoptRepeats
  import opened AdoptFlips

  // ---- sums over a candidate's rows ----

  /** What is taken of one draw: its case and whether it passed. */
  type Term = (string, bool) -> real

  /** The sum of a term over a candidate's rows. */
  function SumOver(rows: seq<Row>, name: string, f: Term): real {
    if rows == [] then 0.0
    else
      var n := |rows| - 1;
      SumOver(rows[..n], name, f)
      + (if rows[n].candidate == name then f(rows[n].id.base, rows[n].passed) else 0.0)
  }

  function One(): Term { (_, _) => 1.0 }

  function Scores(): Term { (_, passed) => Score(passed) }

  /** One draw of the case `base`. */
  function OneOf(base: string): Term { (b, _) => if b == base then 1.0 else 0.0 }

  function ScoresOf(base: string): Term { (b, passed) => if b == base then Score(passed) else 0.0 }

  function Ratio(sum: real, count: real): real { if count == 0.0 then 0.0 else sum / count }

  /** The share of a case's draws, and of all of a candidate's draws, that passed. */
  function CaseMean(rows: seq<Row>, name: string, base: string): real {
    Ratio(SumOver(rows, name, ScoresOf(base)), SumOver(rows, name, OneOf(base)))
  }

  function NameMean(rows: seq<Row>, name: string): real {
    Ratio(SumOver(rows, name, Scores()), SumOver(rows, name, One()))
  }

  function Square(x: real): (s: real)
    ensures s >= 0.0
  {
    x * x
  }

  function FromCase(rows: seq<Row>, name: string): Term {
    (b, passed) => Square(Score(passed) - CaseMean(rows, name, b))
  }

  function CaseFromName(rows: seq<Row>, name: string): Term {
    (b, _) => Square(CaseMean(rows, name, b) - NameMean(rows, name))
  }

  function FromName(rows: seq<Row>, name: string): Term {
    (_, passed) => Square(Score(passed) - NameMean(rows, name))
  }

  /** The squares within cases, between cases, and about the candidate's own mean, one of each for every row. */
  function WithinCases(rows: seq<Row>, name: string): real { SumOver(rows, name, FromCase(rows, name)) }

  function BetweenCases(rows: seq<Row>, name: string): real { SumOver(rows, name, CaseFromName(rows, name)) }

  function AllSquares(rows: seq<Row>, name: string): real { SumOver(rows, name, FromName(rows, name)) }

  /** The cases a candidate has rows of. */
  function CasesOf(rows: seq<Row>, name: string): set<string> {
    set row | row in rows && row.candidate == name :: row.id.base
  }

  function RowsOf(rows: seq<Row>, name: string): nat {
    if rows == [] then 0
    else var n := |rows| - 1; RowsOf(rows[..n], name) + (if rows[n].candidate == name then 1 else 0)
  }

  // ---- the same sums over the groups rows_icc forms ----

  function SumDraws(g: Draws, base: string, f: Term): real {
    if g == [] then 0.0 else f(base, g[0]) + SumDraws(g[1..], base, f)
  }

  function SumGroups(groups: seq<(string, Draws)>, f: Term): real {
    if groups == [] then 0.0 else SumDraws(groups[0].1, groups[0].0, f) + SumGroups(groups[1..], f)
  }

  lemma {:induction false} OneDrawMore(g: Draws, passed: bool, base: string, f: Term)
    ensures SumDraws(g + [passed], base, f) == SumDraws(g, base, f) + f(base, passed)
  {
    if g == [] {
      assert [] + [passed] == [passed];
    } else {
      OneDrawMore(g[1..], passed, base, f);
      assert (g + [passed])[1..] == g[1..] + [passed];
    }
  }

  lemma {:induction false} AddDrawSums(groups: seq<(string, Draws)>, base: string, passed: bool, f: Term)
    ensures SumGroups(AddDraw(groups, base, passed), f) == SumGroups(groups, f) + f(base, passed)
  {
    if groups == [] {
      OneDrawMore([], passed, base, f);
      assert [] + [passed] == [passed];
    } else if groups[0].0 == base {
      OneDrawMore(groups[0].1, passed, base, f);
    } else {
      AddDrawSums(groups[1..], base, passed, f);
    }
  }

  /** Grouping loses no draw and moves none to another case. */
  lemma {:induction false} GroupsSum(rows: seq<Row>, name: string, f: Term)
    ensures SumOver(rows, name, f) == SumGroups(Groups(rows, name), f)
  {
    if rows != [] {
      var n := |rows| - 1;
      GroupsSum(rows[..n], name, f);
      AddDrawSums(Groups(rows[..n], name), rows[n].id.base, rows[n].passed, f);
    }
  }

  lemma {:induction false} GroupSums(g: Draws, base: string, b: string)
    ensures SumDraws(g, base, One()) == |g| as real && SumDraws(g, base, Scores()) == Total(g)
    ensures SumDraws(g, base, OneOf(b)) == if b == base then |g| as real else 0.0
    ensures SumDraws(g, base, ScoresOf(b)) == if b == base then Total(g) else 0.0
  {
    if g != [] {
      GroupSums(g[1..], base, b);
    }
  }

  lemma {:induction false} OtherGroups(groups: seq<(string, Draws)>, b: string)
    requires forall g <- groups :: g.0 != b
    ensures SumGroups(groups, OneOf(b)) == 0.0 && SumGroups(groups, ScoresOf(b)) == 0.0
  {
    if groups != [] {
      assert groups[0] in groups && forall g <- groups[1..] :: g in groups;
      OtherGroups(groups[1..], b);
      GroupSums(groups[0].1, groups[0].0, b);
    }
  }

  lemma {:induction false} OneGroup(groups: seq<(string, Draws)>, k: nat)
    requires Keyed(groups) && k < |groups|
    ensures SumGroups(groups, OneOf(groups[k].0)) == |groups[k].1| as real
    ensures SumGroups(groups, ScoresOf(groups[k].0)) == Total(groups[k].1)
  {
    GroupSums(groups[0].1, groups[0].0, groups[k].0);
    if k == 0 {
      OtherGroups(groups[1..], groups[0].0);
    } else {
      OneGroup(groups[1..], k - 1);
    }
  }

  /** A group's mean is its case's. */
  ghost predicate MeansAre(groups: seq<(string, Draws)>, rows: seq<Row>, name: string) {
    forall g <- groups :: g.1 != [] && Mean(g.1) == CaseMean(rows, name, g.0)
  }

  lemma TailMeans(groups: seq<(string, Draws)>, rows: seq<Row>, name: string)
    requires groups != [] && MeansAre(groups, rows, name)
    ensures MeansAre(groups[1..], rows, name)
    ensures groups[0].1 != [] && Mean(groups[0].1) == CaseMean(rows, name, groups[0].0)
  {
    hide Mean, CaseMean;
    assert groups[0] in groups && forall g <- groups[1..] :: g in groups;
  }

  lemma GroupMeans(rows: seq<Row>, name: string)
    ensures MeansAre(Groups(rows, name), rows, name)
  {
    var groups := Groups(rows, name);
    GroupsCount(rows, name, "");
    NoGroupIsEmpty(rows, name);
    forall k | 0 <= k < |groups|
      ensures Mean(groups[k].1) == CaseMean(rows, name, groups[k].0)
    {
      OneGroup(groups, k);
      GroupsSum(rows, name, OneOf(groups[k].0));
      GroupsSum(rows, name, ScoresOf(groups[k].0));
    }
  }

  lemma {:induction false} NoGroupIsEmpty(rows: seq<Row>, name: string)
    ensures forall g <- Groups(rows, name) :: g.1 != []
  {
    if rows != [] {
      var n := |rows| - 1;
      NoGroupIsEmpty(rows[..n], name);
      AddDrawIsFull(Groups(rows[..n], name), rows[n].id.base, rows[n].passed);
    }
  }

  lemma {:induction false} AddDrawIsFull(groups: seq<(string, Draws)>, base: string, passed: bool)
    requires forall g <- groups :: g.1 != []
    ensures forall g <- AddDraw(groups, base, passed) :: g.1 != []
  {
    if groups != [] && groups[0].0 != base {
      AddDrawIsFull(groups[1..], base, passed);
    }
  }

  // ---- the sums icc forms ----

  lemma {:induction false} SpreadIs(g: Draws, base: string, rows: seq<Row>, name: string)
    ensures SumDraws(g, base, FromCase(rows, name)) == Spread(g, CaseMean(rows, name, base))
    ensures SumDraws(g, base, FromName(rows, name)) == Spread(g, NameMean(rows, name))
    ensures SumDraws(g, base, CaseFromName(rows, name))
         == |g| as real * Square(CaseMean(rows, name, base) - NameMean(rows, name))
  {
    hide CaseMean, NameMean;
    if g != [] {
      SpreadIs(g[1..], base, rows, name);
      var d := Square(CaseMean(rows, name, base) - NameMean(rows, name));
      assert |g| as real == |g[1..]| as real + 1.0;
      assert |g| as real * d == |g[1..]| as real * d + d;
    }
  }

  /** A group's own squares, at the means taken of it. */
  lemma GroupSquares(g: (string, Draws), rows: seq<Row>, name: string)
    requires g.1 != [] && Mean(g.1) == CaseMean(rows, name, g.0)
    ensures SumDraws(g.1, g.0, FromCase(rows, name)) == Spread(g.1, Mean(g.1))
    ensures SumDraws(g.1, g.0, CaseFromName(rows, name))
         == |g.1| as real * Square(Mean(g.1) - NameMean(rows, name))
  {
    hide CaseMean, NameMean, Mean, Spread, SumDraws, FromCase, CaseFromName, Square;
    SpreadIs(g.1, g.0, rows, name);
  }

  lemma NextSquares(groups: seq<(string, Draws)>, centre: real)
    requires groups != []
    ensures var g := groups[0].1;
            && Within(DrawsOf(groups)) == Spread(g, Mean(g)) + Within(DrawsOf(groups[1..]))
            && Between(DrawsOf(groups), centre)
               == |g| as real * Square(Mean(g) - centre) + Between(DrawsOf(groups[1..]), centre)
  {
    hide Mean, Spread;
    assert DrawsOf(groups)[1..] == DrawsOf(groups[1..]);
  }

  lemma {:induction false} SquaresAre(groups: seq<(string, Draws)>, rows: seq<Row>, name: string)
    requires MeansAre(groups, rows, name)
    ensures Within(DrawsOf(groups)) == SumGroups(groups, FromCase(rows, name))
    ensures Between(DrawsOf(groups), NameMean(rows, name)) == SumGroups(groups, CaseFromName(rows, name))
  {
    hide CaseMean, NameMean, Mean, SumDraws, FromCase, CaseFromName, Spread, Square, MeansAre;
    if groups != [] {
      TailMeans(groups, rows, name);
      SquaresAre(groups[1..], rows, name);
      GroupSquares(groups[0], rows, name);
      NextSquares(groups, NameMean(rows, name));
      hide Within, Between, DrawsOf;
    }
  }

  lemma {:induction false} CountsAre(groups: seq<(string, Draws)>)
    ensures |DrawsOf(groups)| == |groups| && |Flatten(DrawsOf(groups))| == CountDraws(DrawsOf(groups))
    ensures CountDraws(DrawsOf(groups)) as real == SumGroups(groups, One())
    ensures Total(Flatten(DrawsOf(groups))) == SumGroups(groups, Scores())
  {
    if groups != [] {
      CountsAre(groups[1..]);
      GroupSums(groups[0].1, groups[0].0, "");
      TotalConcat(groups[0].1, Flatten(DrawsOf(groups[1..])));
      assert DrawsOf(groups)[1..] == DrawsOf(groups[1..]);
    }
  }

  lemma {:induction false} RowsAreOnes(rows: seq<Row>, name: string)
    ensures SumOver(rows, name, One()) == RowsOf(rows, name) as real
  {
    if rows != [] {
      RowsAreOnes(rows[..|rows| - 1], name);
    }
  }

  /** As many groups as cases. */
  lemma {:induction false} GroupPerCase(rows: seq<Row>, name: string)
    ensures Keys(Groups(rows, name)) == CasesOf(rows, name)
  {
    if rows != [] {
      var n := |rows| - 1;
      GroupPerCase(rows[..n], name);
      assert rows == rows[..n] + [rows[n]];
      CasesNext(rows[..n], rows[n], name);
      AddDrawKeys(Groups(rows[..n], name), rows[n].id.base, rows[n].passed);
    }
  }

  lemma CasesNext(rows: seq<Row>, row: Row, name: string)
    ensures CasesOf(rows + [row], name)
         == CasesOf(rows, name) + (if row.candidate == name then {row.id.base} else {})
  {
    assert forall r :: r in rows + [row] <==> r in rows || r == row;
  }

  lemma {:induction false} KeysCount(groups: seq<(string, Draws)>)
    requires Keyed(groups)
    ensures |Keys(groups)| == |groups|
  {
    if groups != [] {
      KeysSplit(groups);
      KeysCount(groups[1..]);
      assert groups[0].0 !in Keys(groups[1..]);
    }
  }

  /** One candidate's part of the sums, by its rows. */
  lemma OneCandidate(rows: seq<Row>, name: string)
    ensures var c := DrawsOf(Groups(rows, name));
            && |c| == |CasesOf(rows, name)| && CountDraws(c) == RowsOf(rows, name)
            && (c == [] <==> CasesOf(rows, name) == {})
            && Within(c) == WithinCases(rows, name)
            && Between(c, Mean(Flatten(c))) == BetweenCases(rows, name)
            && |c| <= CountDraws(c)
  {
    var groups := Groups(rows, name);
    var c := DrawsOf(groups);
    GroupsCount(rows, name, "");
    GroupPerCase(rows, name);
    KeysCount(groups);
    CountsAre(groups);
    GroupMeans(rows, name);
    RowsAreOnes(rows, name);
    GroupsSum(rows, name, One());
    GroupsSum(rows, name, Scores());
    FlatMean(Flatten(c), SumOver(rows, name, Scores()), SumOver(rows, name, One()));
    SquaresAre(groups, rows, name);
    GroupsSum(rows, name, FromCase(rows, name));
    GroupsSum(rows, name, CaseFromName(rows, name));
    DrawsAreMany(groups);
    NoGroupIsEmpty(rows, name);
  }

  lemma FlatMean(g: Draws, sum: real, count: real)
    requires Total(g) == sum && |g| as real == count
    ensures Mean(g) == Ratio(sum, count)
  {
  }

  lemma {:induction false} DrawsAreMany(groups: seq<(string, Draws)>)
    ensures (forall g <- groups :: g.1 != []) ==> |DrawsOf(groups)| <= CountDraws(DrawsOf(groups))
  {
    if groups != [] {
      assert groups[0] in groups && forall g <- groups[1..] :: g in groups;
      DrawsAreMany(groups[1..]);
      assert DrawsOf(groups)[1..] == DrawsOf(groups[1..]);
    }
  }

  /** Of two candidates, or of one that is both. */
  function Both(i: string, c: string, x: real, y: real): real { if i == c then x else x + y }

  function BothCount(i: string, c: string, x: nat, y: nat): nat { if i == c then x else x + y }

  function Present(rows: seq<Row>, name: string): nat { if CasesOf(rows, name) == {} then 0 else 1 }

  /** What icc accumulates, by the rows: every sum, and each degree of freedom as what it counts. */
  lemma AnovaIs(rows: seq<Row>, i: string, c: string)
    ensures var a := Accumulate(ByCandidate(rows, i, c));
            && a.ssw == Both(i, c, WithinCases(rows, i), WithinCases(rows, c))
            && a.ssb == Both(i, c, BetweenCases(rows, i), BetweenCases(rows, c))
            && a.draws == BothCount(i, c, RowsOf(rows, i), RowsOf(rows, c))
            && a.groups == BothCount(i, c, |CasesOf(rows, i)|, |CasesOf(rows, c)|)
            && a.dfw == a.draws - a.groups >= 0
            && a.dfb == a.groups - BothCount(i, c, Present(rows, i), Present(rows, c))
  {
    OneCandidate(rows, i);
    OneCandidate(rows, c);
    Accumulated(DrawsOf(Groups(rows, i)), DrawsOf(Groups(rows, c)));
    hide Between, Within, CountDraws, Mean, Flatten, DrawsOf, Groups, CasesOf, WithinCases, BetweenCases, RowsOf;
    hide Accumulate;
    var x, y := DrawsOf(Groups(rows, i)), DrawsOf(Groups(rows, c));
    assert ByCandidate(rows, i, c) == if i == c then [x] else [x] + [y];
  }

  lemma Accumulated(x: seq<Draws>, y: seq<Draws>)
    ensures Accumulate([x]) == Part(x)
    ensures Accumulate([x] + [y]) == Anova(Part(x).ssb + Part(y).ssb, Part(x).ssw + Part(y).ssw,
                                           Part(x).dfb + Part(y).dfb, Part(x).dfw + Part(y).dfw,
                                           Part(x).groups + Part(y).groups, Part(x).draws + Part(y).draws)
  {
    hide Between, Within, CountDraws, Mean, Flatten;
    NoGroups();
    assert [x][1..] == [] && ([x] + [y])[1..] == [y] && [y][1..] == [];
  }

  lemma NoGroups()
    ensures Within([]) == 0.0 && Between([], Mean(Flatten([]))) == 0.0 && CountDraws([]) == 0
  {
  }

  /** One candidate's sums. */
  function Part(c: seq<Draws>): Anova {
    Anova(Between(c, Mean(Flatten(c))), Within(c), if c == [] then 0 else |c| - 1, CountDraws(c) - |c|, |c|,
          CountDraws(c))
  }

  // ---- the two parts make the whole ----

  /** `s` squares about a of n scores summing to `total`, taken about b instead. */
  function Moved(s: real, total: real, n: real, a: real, b: real): real {
    s + 2.0 * (a - b) * (total - n * a) + n * Square(a - b)
  }

  lemma MoveOne(s: real, total: real, n: real, y: real, a: real, b: real)
    ensures Square(y - b) + Moved(s, total, n, a, b) == Moved(Square(y - a) + s, y + total, n + 1.0, a, b)
  {
    var d, u := a - b, total - n * a;
    assert y + total - (n + 1.0) * a == u + (y - a);
    assert 2.0 * d * (u + (y - a)) == 2.0 * d * u + 2.0 * d * (y - a);
    assert (n + 1.0) * Square(d) == n * Square(d) + Square(d);
    assert y - b == (y - a) + d;
    SquareOfSum(y - a, d);
  }

  lemma SquareOfSum(x: real, d: real)
    ensures Square(x + d) == Square(x) + 2.0 * d * x + Square(d)
  {
  }

  lemma NextSpread(g: Draws, centre: real)
    requires g != []
    ensures Spread(g, centre) == Square(Score(g[0]) - centre) + Spread(g[1..], centre)
    ensures Total(g) == Score(g[0]) + Total(g[1..]) && |g| as real == |g[1..]| as real + 1.0
  {
  }

  lemma {:induction false} SpreadMoves(g: Draws, a: real, b: real)
    ensures Spread(g, b) == Moved(Spread(g, a), Total(g), |g| as real, a, b)
  {
    if g != [] {
      SpreadMoves(g[1..], a, b);
      NextSpread(g, a);
      NextSpread(g, b);
      hide Spread, Total, Square, Score, Moved;
      MoveOne(Spread(g[1..], a), Total(g[1..]), |g[1..]| as real, Score(g[0]), a, b);
    }
  }

  lemma SpreadAboutMean(g: Draws, b: real)
    requires g != []
    ensures Spread(g, b) == Spread(g, Mean(g)) + |g| as real * Square(Mean(g) - b)
  {
    hide *;
    TotalOfMean(g);
    SpreadMoves(g, Mean(g), b);
    MovedFromMean(Spread(g, Mean(g)), Total(g), |g| as real, Mean(g), b);
  }

  lemma TotalOfMean(g: Draws)
    requires g != []
    ensures |g| as real * Mean(g) == Total(g)
  {
    hide Total;
    assert Mean(g) * |g| as real == Total(g);
  }

  lemma MovedFromMean(s: real, total: real, n: real, a: real, b: real)
    requires n * a == total
    ensures Moved(s, total, n, a, b) == s + n * Square(a - b)
  {
    assert 2.0 * (a - b) * (total - n * a) == 0.0;
  }

  lemma {:induction false} GroupsAddUp(groups: seq<(string, Draws)>, rows: seq<Row>, name: string)
    requires MeansAre(groups, rows, name)
    ensures SumGroups(groups, CaseFromName(rows, name)) + SumGroups(groups, FromCase(rows, name))
         == SumGroups(groups, FromName(rows, name))
  {
    hide CaseMean, NameMean, Mean, SumDraws, FromCase, CaseFromName, FromName, Spread, Square, MeansAre;
    if groups != [] {
      TailMeans(groups, rows, name);
      GroupsAddUp(groups[1..], rows, name);
      GroupSquares(groups[0], rows, name);
      SpreadIs(groups[0].1, groups[0].0, rows, name);
      SpreadAboutMean(groups[0].1, NameMean(rows, name));
    }
  }

  /** The squares between and within cases are together those about the candidate's own mean. */
  lemma PartsMakeTheWhole(rows: seq<Row>, name: string)
    ensures BetweenCases(rows, name) + WithinCases(rows, name) == AllSquares(rows, name)
    ensures BetweenCases(rows, name) >= 0.0 && WithinCases(rows, name) >= 0.0
  {
    TermsAreSquares(rows, name);
    hide *;
    NeverNegative(rows, name, FromCase(rows, name));
    NeverNegative(rows, name, CaseFromName(rows, name));
    GroupMeans(rows, name);
    GroupsAddUp(Groups(rows, name), rows, name);
    GroupsSum(rows, name, FromCase(rows, name));
    GroupsSum(rows, name, CaseFromName(rows, name));
    GroupsSum(rows, name, FromName(rows, name));
    SquaresOf(rows, name);
  }

  lemma TermsAreSquares(rows: seq<Row>, name: string)
    ensures forall b, passed :: FromCase(rows, name)(b, passed) >= 0.0
    ensures forall b, passed :: CaseFromName(rows, name)(b, passed) >= 0.0
  {
    hide CaseMean, NameMean;
    forall b: string, passed: bool
      ensures FromCase(rows, name)(b, passed) >= 0.0 && CaseFromName(rows, name)(b, passed) >= 0.0
    {
      assert FromCase(rows, name)(b, passed) == Square(Score(passed) - CaseMean(rows, name, b));
      assert CaseFromName(rows, name)(b, passed) == Square(CaseMean(rows, name, b) - NameMean(rows, name));
    }
  }

  lemma SquaresOf(rows: seq<Row>, name: string)
    ensures WithinCases(rows, name) == SumOver(rows, name, FromCase(rows, name))
    ensures BetweenCases(rows, name) == SumOver(rows, name, CaseFromName(rows, name))
    ensures AllSquares(rows, name) == SumOver(rows, name, FromName(rows, name))
  {
  }

  lemma {:induction false} NeverNegative(rows: seq<Row>, name: string, f: Term)
    requires forall b, passed :: f(b, passed) >= 0.0
    ensures SumOver(rows, name, f) >= 0.0
  {
    if rows != [] {
      NeverNegative(rows[..|rows| - 1], name, f);
    }
  }

  // ---- the equation the estimate solves ----

  /** The mean squares between and within cases, and the mean number of draws of a case, of the accumulated sums. */
  function Msb(a: Anova): real
    requires a.dfb > 0
  {
    a.ssb / a.dfb as real
  }

  function Msw(a: Anova): real
    requires a.dfw > 0
  {
    a.ssw / a.dfw as real
  }

  function PerCase(a: Anova): real { if a.groups == 0 then 1.0 else a.draws as real / a.groups as real }

  /** Sums as icc can accumulate them. */
  predicate Counted(a: Anova) {
    a.ssb >= 0.0 && a.ssw >= 0.0 && a.dfw == a.draws - a.groups >= 0 && (a.dfb > 0 ==> a.groups > 0)
  }

  lemma AboveOne(a: Anova)
    requires Counted(a) && a.dfb > 0 && a.dfw > 0
    ensures PerCase(a) > 1.0
    ensures Msb(a) >= 0.0 && Msw(a) >= 0.0
    ensures Msb(a) == 0.0 <==> a.ssb == 0.0
    ensures Msw(a) == 0.0 <==> a.ssw == 0.0
  {
    FractionLeq(a.draws as real, a.groups as real, 1.0, 1.0);
    QuotientSign(a.ssb, a.dfb as real);
    QuotientSign(a.ssw, a.dfw as real);
  }

  lemma QuotientSign(x: real, n: real)
    requires x >= 0.0 && n > 0.0
    ensures x / n >= 0.0 && (x / n == 0.0 <==> x == 0.0)
  {
    assert x / n * n == x;
  }

  /** x over b + e * w, clamped, as the one number that balances the two mean squares. */
  lemma Balances(b: real, w: real, e: real)
    requires b >= 0.0 && w >= 0.0 && e > 0.0 && b + e * w != 0.0
    ensures var rho := Clamp((b - w) / (b + e * w));
            && 0.0 <= rho <= 1.0
            && (rho == 0.0 <==> b <= w)
            && (b >= w ==> b * (1.0 - rho) == w * (1.0 + e * rho))
  {
    var d := b + e * w;
    assert e * w >= 0.0;
    var q := (b - w) / d;
    assert q * d == b - w;
    assert q <= 1.0 by {
      assert q > 1.0 ==> q * d > d;
    }
    assert q < 0.0 <==> b < w by {
      assert q < 0.0 ==> q * d < 0.0;
      assert q >= 0.0 ==> q * d >= 0.0;
    }
    assert b == w ==> q * d == 0.0;
    if b >= w {
      assert q * (b + e * w) == q * b + e * (w * q);
      assert b * (1.0 - q) == b - q * b;
      assert w * (1.0 + e * q) == w + e * (w * q);
    }
  }

  lemma RhoBalances(a: Anova)
    requires Counted(a)
    ensures RhoOf(a) == None <==> a.dfb <= 0 || a.dfw <= 0 || (a.ssb == 0.0 && a.ssw == 0.0)
    ensures RhoOf(a).Some? ==>
              var rho := RhoOf(a).value;
              && 0.0 <= rho <= 1.0
              && (rho == 0.0 <==> Msb(a) <= Msw(a))
              && (Msb(a) >= Msw(a) ==> Msb(a) * (1.0 - rho) == Msw(a) * (1.0 + (PerCase(a) - 1.0) * rho))
  {
    if a.dfb > 0 && a.dfw > 0 {
      AboveOne(a);
      var b, w, e := Msb(a), Msw(a), PerCase(a) - 1.0;
      assert b + e * w == 0.0 <==> b == 0.0 && w == 0.0 by {
        assert e * w >= 0.0 && (e * w == 0.0 <==> w == 0.0);
      }
      if b + e * w != 0.0 {
        Balances(b, w, e);
      }
    }
  }

  /**
   * The within-case correlation of two candidates' rows: none exactly when no case was drawn twice, no two cases of
   * one candidate can be compared, or nothing varies; 0 exactly when cases differ no more than their draws; and above
   * that the share of variance between cases at which the mean squares come out as they did.
   */
  lemma RhoIsTheEstimate(rows: seq<Row>, i: string, c: string)
    ensures var (a, rho) := (Accumulate(ByCandidate(rows, i, c)), Icc(ByCandidate(rows, i, c)));
            && Counted(a)
            && a.ssb + a.ssw == Both(i, c, AllSquares(rows, i), AllSquares(rows, c))
            && (rho == None <==> a.dfb <= 0 || a.dfw <= 0 || a.ssb + a.ssw == 0.0)
            && (rho.Some? ==>
                  && 0.0 <= rho.value <= 1.0
                  && (rho.value == 0.0 <==> Msb(a) <= Msw(a))
                  && (Msb(a) >= Msw(a) ==>
                        Msb(a) * (1.0 - rho.value) == Msw(a) * (1.0 + (PerCase(a) - 1.0) * rho.value)))
  {
    AnovaIs(rows, i, c);
    PartsMakeTheWhole(rows, i);
    PartsMakeTheWhole(rows, c);
    hide RhoOf, Accumulate, ByCandidate, WithinCases, BetweenCases, AllSquares, RowsOf, CasesOf, Clamp;
    RhoBalances(Accumulate(ByCandidate(rows, i, c)));
  }

  /** The design effect grows from 1 by the correlation for each draw of a case after its first. */
  lemma DeffIs(rows: seq<Row>, i: string, c: string)
    ensures var (a, rho) := (Accumulate(ByCandidate(rows, i, c)), Icc(ByCandidate(rows, i, c)));
            Deff(rows, i, c) == 1.0 + (PerCase(a) - 1.0) * (if rho.Some? then rho.value else 1.0)
  {
    RhoIsTheEstimate(rows, i, c);
    var a := Accumulate(ByCandidate(rows, i, c));
    hide RhoOf, Accumulate, ByCandidate, AllSquares, Msb, Msw;
    if a.groups > 0 {
      FractionLeq(1.0, 1.0, a.draws as real, a.groups as real);
    }
  }

  // ---- four cases drawn three times ----

  /** Three draws of a case, the first `passes` of them passed. */
  function Three(passes: nat): (g: Draws)
    ensures |g| == 3
  {
    [passes >= 1, passes >= 2, passes >= 3]
  }

  function ThreeRows(name: string, base: string, passes: nat): seq<Row> {
    [Row(name, CaseId(base, 1), passes >= 1), Row(name, CaseId(base, 2), passes >= 2),
     Row(name, CaseId(base, 3), passes >= 3)]
  }

  /** Every candidate's draws of the cases k, l, m and n. */
  function FourCases(name: string, k: nat, l: nat, m: nat, n: nat): seq<Row> {
    ThreeRows(name, "k", k) + ThreeRows(name, "l", l) + ThreeRows(name, "m", m) + ThreeRows(name, "n", n)
  }

  function FourGroups(k: nat, l: nat, m: nat, n: nat): seq<(string, Draws)> {
    [("k", Three(k)), ("l", Three(l)), ("m", Three(m)), ("n", Three(n))]
  }

  function ThreeIds(base: string): set<CaseId> { {CaseId(base, 1), CaseId(base, 2), CaseId(base, 3)} }

  const TWELVE: set<CaseId> := ThreeIds("k") + ThreeIds("l") + ThreeIds("m") + ThreeIds("n")

  predicate PassedOf(id: CaseId, k: nat, l: nat, m: nat, n: nat) {
    id.draw <= if id.base == "k" then k else if id.base == "l" then l else if id.base == "m" then m else n
  }

  /** The incumbent passes none, none, one and two of its draws, the challenger all twelve. */
  function TwelveDraws(): seq<Row> { FourCases("i", 0, 0, 1, 2) + FourCases("c", 3, 3, 3, 3) }

  function ThreeMore(v: map<CaseId, bool>, base: string, passes: nat): map<CaseId, bool> {
    v[CaseId(base, 1) := passes >= 1][CaseId(base, 2) := passes >= 2][CaseId(base, 3) := passes >= 3]
  }

  lemma ThreeVerdicts(rows: seq<Row>, name: string, base: string, passes: nat, who: string)
    ensures Verdicts(rows + ThreeRows(name, base, passes), who)
         == if who == name then ThreeMore(Verdicts(rows, who), base, passes) else Verdicts(rows, who)
  {
    hide Verdicts;
    var more := ThreeRows(name, base, passes);
    var one, two := rows + [more[0]], rows + [more[0]] + [more[1]];
    assert rows + more == two + [more[2]];
    NextVerdict(rows, more[0], who);
    NextVerdict(one, more[1], who);
    NextVerdict(two, more[2], who);
  }

  lemma ThreeGroups(rows: seq<Row>, name: string, base: string, passes: nat, who: string)
    requires forall g <- Groups(rows, who) :: g.0 != base
    ensures Groups(rows + ThreeRows(name, base, passes), who)
         == if who == name then Groups(rows, who) + [(base, Three(passes))] else Groups(rows, who)
  {
    var more := ThreeRows(name, base, passes);
    var one, two := rows + [more[0]], rows + [more[0]] + [more[1]];
    assert rows + more == two + [more[2]];
    hide Groups, AddDraw;
    NextGroup(rows, more[0], who);
    NextGroup(one, more[1], who);
    NextGroup(two, more[2], who);
    if who == name {
      AddDrawThrice(Groups(rows, who), base, passes);
    }
  }

  lemma AddDrawThrice(groups: seq<(string, Draws)>, base: string, passes: nat)
    requires forall g <- groups :: g.0 != base
    ensures AddDraw(AddDraw(AddDraw(groups, base, passes >= 1), base, passes >= 2), base, passes >= 3)
         == groups + [(base, Three(passes))]
  {
    hide AddDraw;
    AddDrawToLast(groups, base, [], passes >= 1);
    AddDrawToLast(groups, base, [passes >= 1], passes >= 2);
    AddDrawToLast(groups, base, [passes >= 1, passes >= 2], passes >= 3);
    assert [passes >= 1] + [passes >= 2] == [passes >= 1, passes >= 2];
    assert [passes >= 1, passes >= 2] + [passes >= 3] == Three(passes);
  }

  function PassedMap(k: nat, l: nat, m: nat, n: nat): map<CaseId, bool> {
    map id | id in TWELVE :: PassedOf(id, k, l, m, n)
  }

  lemma FourVerdicts(rows: seq<Row>, name: string, k: nat, l: nat, m: nat, n: nat, who: string)
    requires who == name ==> Verdicts(rows, who) == map[]
    ensures Verdicts(rows + FourCases(name, k, l, m, n), who)
         == if who == name then PassedMap(k, l, m, n) else Verdicts(rows, who)
  {
    hide Verdicts, ThreeRows, ThreeMore, PassedMap;
    var one := rows + ThreeRows(name, "k", k);
    var two := one + ThreeRows(name, "l", l);
    var three := two + ThreeRows(name, "m", m);
    ThreeVerdicts(rows, name, "k", k, who);
    ThreeVerdicts(one, name, "l", l, who);
    ThreeVerdicts(two, name, "m", m, who);
    ThreeVerdicts(three, name, "n", n, who);
    assert rows + FourCases(name, k, l, m, n) == three + ThreeRows(name, "n", n);
    TwelveVerdicts(k, l, m, n);
  }

  lemma FourGroupsAre(rows: seq<Row>, name: string, k: nat, l: nat, m: nat, n: nat)
    requires Groups(rows, name) == []
    ensures Groups(rows + FourCases(name, k, l, m, n), name) == FourGroups(k, l, m, n)
  {
    hide *;
    var one := rows + ThreeRows(name, "k", k);
    var two := one + ThreeRows(name, "l", l);
    var three := two + ThreeRows(name, "m", m);
    NextThree(rows, name, "k", k, {});
    NextThree(one, name, "l", l, {"k"});
    NextThree(two, name, "m", m, {"k", "l"});
    NextThree(three, name, "n", n, {"k", "l", "m"});
    Letters();
    FourRows(rows, name, k, l, m, n);
    FourInOrder(k, l, m, n);
  }

  lemma NextThree(rows: seq<Row>, name: string, base: string, passes: nat, seen: set<string>)
    requires base !in seen && forall g <- Groups(rows, name) :: g.0 in seen
    ensures var all := rows + ThreeRows(name, base, passes);
            && Groups(all, name) == Groups(rows, name) + [(base, Three(passes))]
            && forall g <- Groups(all, name) :: g.0 in seen + {base}
  {
    hide Groups, ThreeRows, Three;
    ThreeGroups(rows, name, base, passes, name);
  }

  lemma FourRows(rows: seq<Row>, name: string, k: nat, l: nat, m: nat, n: nat)
    ensures rows + FourCases(name, k, l, m, n)
         == rows + ThreeRows(name, "k", k) + ThreeRows(name, "l", l) + ThreeRows(name, "m", m)
            + ThreeRows(name, "n", n)
  {
    hide ThreeRows;
  }

  lemma FourInOrder(k: nat, l: nat, m: nat, n: nat)
    ensures [] + [("k", Three(k))] + [("l", Three(l))] + [("m", Three(m))] + [("n", Three(n))]
         == FourGroups(k, l, m, n)
    ensures {"k"} == {} + {"k"} && {"k", "l"} == {"k"} + {"l"} && {"k", "l", "m"} == {"k", "l"} + {"m"}
  {
  }

  lemma {:induction false} OthersGroups(rows: seq<Row>, more: seq<Row>, who: string)
    requires forall row <- more :: row.candidate != who
    ensures Groups(rows + more, who) == Groups(rows, who)
  {
    if more == [] {
      assert rows + more == rows;
    } else {
      var n := |more| - 1;
      assert more[n] in more && forall row <- more[..n] :: row in more;
      OthersGroups(rows, more[..n], who);
      assert rows + more == (rows + more[..n]) + [more[n]];
      NextGroup(rows + more[..n], more[n], who);
    }
  }

  lemma Letters()
    ensures "k" != "l" && "k" != "m" && "k" != "n" && "l" != "m" && "l" != "n" && "m" != "n" && "i" != "c"
  {
    assert "k"[0] == 'k' && "l"[0] == 'l' && "m"[0] == 'm' && "n"[0] == 'n' && "i"[0] == 'i' && "c"[0] == 'c';
  }

  lemma TwelveVerdicts(k: nat, l: nat, m: nat, n: nat)
    ensures ThreeMore(ThreeMore(ThreeMore(ThreeMore(map[], "k", k), "l", l), "m", m), "n", n) == PassedMap(k, l, m, n)
  {
    hide ThreeMore, PassedOf, ThreeIds;
    var one := ThreeMore(map[], "k", k);
    var two := ThreeMore(one, "l", l);
    var three := ThreeMore(two, "m", m);
    var four := ThreeMore(three, "n", n);
    ThreeMoreAre(map[], "k", k);
    ThreeMoreAre(one, "l", l);
    ThreeMoreAre(two, "m", m);
    ThreeMoreAre(three, "n", n);
    assert four.Keys == TWELVE;
    forall id <- TWELVE
      ensures four[id] == PassedOf(id, k, l, m, n)
    {
      PassedIn(id, k, l, m, n);
    }
  }

  lemma PassedIn(id: CaseId, k: nat, l: nat, m: nat, n: nat)
    ensures id in ThreeIds("k") ==> (PassedOf(id, k, l, m, n) <==> id.draw <= k) && id !in ThreeIds("l")
                                    && id !in ThreeIds("m") && id !in ThreeIds("n")
    ensures id in ThreeIds("l") ==> (PassedOf(id, k, l, m, n) <==> id.draw <= l) && id !in ThreeIds("m")
                                    && id !in ThreeIds("n")
    ensures id in ThreeIds("m") ==> (PassedOf(id, k, l, m, n) <==> id.draw <= m) && id !in ThreeIds("n")
    ensures id in ThreeIds("n") ==> (PassedOf(id, k, l, m, n) <==> id.draw <= n)
  {
    Letters();
  }

  lemma ThreeMoreAre(v: map<CaseId, bool>, base: string, passes: nat)
    ensures var w := ThreeMore(v, base, passes);
            && w.Keys == v.Keys + ThreeIds(base)
            && forall id <- w :: w[id] == if id in ThreeIds(base) then id.draw <= passes else v[id]
    ensures forall id <- ThreeIds(base) :: id.base == base
  {
  }

  lemma TwelveDrawsAre()
    ensures var rows := TwelveDraws();
            && Verdicts(rows, "i") == PassedMap(0, 0, 1, 2) && Verdicts(rows, "c") == PassedMap(3, 3, 3, 3)
            && Groups(rows, "i") == FourGroups(0, 0, 1, 2) && Groups(rows, "c") == FourGroups(3, 3, 3, 3)
  {
    var mine, theirs := FourCases("i", 0, 0, 1, 2), FourCases("c", 3, 3, 3, 3);
    Letters();
    assert [] + mine == mine;
    NamedAlike("i", 0, 0, 1, 2);
    NamedAlike("c", 3, 3, 3, 3);
    hide FourCases, Verdicts, Groups, PassedMap, FourGroups;
    NothingOf("i");
    NothingOf("c");
    FourVerdicts([], "i", 0, 0, 1, 2, "i");
    FourVerdicts([], "i", 0, 0, 1, 2, "c");
    FourVerdicts(mine, "c", 3, 3, 3, 3, "i");
    FourVerdicts(mine, "c", 3, 3, 3, 3, "c");
    FourGroupsAre([], "i", 0, 0, 1, 2);
    OthersGroups([], mine, "c");
    OthersGroups(mine, theirs, "i");
    FourGroupsAre(mine, "c", 3, 3, 3, 3);
  }

  lemma NamedAlike(name: string, k: nat, l: nat, m: nat, n: nat)
    ensures forall row <- FourCases(name, k, l, m, n) :: row.candidate == name
  {
  }

  lemma NothingOf(name: string)
    ensures Verdicts([], name) == map[] && Groups([], name) == []
  {
  }

  lemma TwelveIds()
    ensures |TWELVE| == 12
  {
    Letters();
    ThreeEach("k");
    ThreeEach("l");
    ThreeEach("m");
    ThreeEach("n");
    assert ThreeIds("k") !! ThreeIds("l") && (ThreeIds("k") + ThreeIds("l")) !! ThreeIds("m");
    assert (ThreeIds("k") + ThreeIds("l") + ThreeIds("m")) !! ThreeIds("n");
    hide ThreeIds;
  }

  lemma ThreeEach(base: string)
    ensures |ThreeIds(base)| == 3
  {
  }

  /** The draws the incumbent passed. */
  const FEW: set<CaseId> := {CaseId("m", 1), CaseId("n", 1), CaseId("n", 2)}

  lemma PassedAre()
    ensures var (mine, theirs) := (PassedMap(0, 0, 1, 2), PassedMap(3, 3, 3, 3));
            && mine.Keys == TWELVE && theirs.Keys == TWELVE
            && (forall id <- TWELVE :: theirs[id])
            && (forall id <- TWELVE :: mine[id] <==> id in FEW)
  {
    Letters();
    TwelveAre();
    forall id: CaseId | id in TWELVE
      ensures PassedOf(id, 3, 3, 3, 3) && (PassedOf(id, 0, 0, 1, 2) <==> id in FEW)
    {
      hide TWELVE;
    }
    hide PassedOf, TWELVE, FEW;
  }

  lemma TwelveAre()
    ensures forall id <- TWELVE :: id.base in {"k", "l", "m", "n"} && 1 <= id.draw <= 3
  {
  }

  lemma FewAre()
    ensures FEW <= TWELVE && |FEW| == 3
  {
    Letters();
  }

  lemma NineGained()
    ensures HeadToHead(TwelveDraws(), "i", "c") == Cell(0, 9, 3)
  {
    hide *;
    TwelveDrawsAre();
    TwelveIds();
    PassedAre();
    FewAre();
    NineOf(PassedMap(0, 0, 1, 2), PassedMap(3, 3, 3, 3), TWELVE, FEW);
    HeadToHeadIs(TwelveDraws(), "i", "c");
  }

  lemma NineOf(mine: map<CaseId, bool>, theirs: map<CaseId, bool>, all: set<CaseId>, few: set<CaseId>)
    requires mine.Keys == all && theirs.Keys == all && few <= all && |all| == 12 && |few| == 3
    requires forall id <- all :: theirs[id]
    requires forall id <- all :: mine[id] <==> id in few
    ensures CellOf(mine, theirs) == Cell(0, 9, 3)
  {
    assert Selected(mine, theirs, IsLost) == {};
    assert Selected(mine, theirs, IsGained) == all - few;
    assert Selected(mine, theirs, IsSame) == few;
    Selects(mine, theirs, IsLost);
    Selects(mine, theirs, IsGained);
    Selects(mine, theirs, IsSame);
  }

  lemma ThreeSums(passes: nat, centre: real)
    requires passes <= 3
    ensures var (g, p) := (Three(passes), passes as real);
            && Total(g) == p && Mean(g) == p / 3.0
            && Spread(g, centre) == p * Square(1.0 - centre) + (3.0 - p) * Square(centre)
  {
    var g := Three(passes);
    var h := [passes >= 2, passes >= 3];
    assert g[1..] == h && h[1..] == [passes >= 3] && [passes >= 3][1..] == [];
    NextSpread(g, centre);
    NextSpread(h, centre);
    NextSpread([passes >= 3], centre);
    assert Square(0.0 - centre) == Square(centre);
  }

  /** Three draws of each case, by how many of them passed. */
  function Threes(passes: seq<nat>): (c: seq<Draws>)
    ensures |c| == |passes|
  {
    if passes == [] then [] else [Three(passes[0])] + Threes(passes[1..])
  }

  lemma DrawsOfFour(k: nat, l: nat, m: nat, n: nat)
    ensures DrawsOf(FourGroups(k, l, m, n)) == Threes([k, l, m, n])
  {
    hide Three;
    DrawsOfMembers(FourGroups(k, l, m, n));
    var three, two := [l, m, n], [m, n];
    assert [k, l, m, n][1..] == three && three[1..] == two && two[1..] == [n] && [n][1..] == [];
    assert Threes([n]) == [Three(n)];
    assert Threes(two) == [Three(m), Three(n)];
    assert Threes(three) == [Three(l), Three(m), Three(n)];
    assert Threes([k, l, m, n]) == [Three(k), Three(l), Three(m), Three(n)];
  }

  function SumOf(passes: seq<nat>, f: nat -> real): real {
    if passes == [] then 0.0 else f(passes[0]) + SumOf(passes[1..], f)
  }

  lemma SumOfFour(k: nat, l: nat, m: nat, n: nat, f: nat -> real)
    ensures SumOf([k, l, m, n], f) == f(k) + f(l) + f(m) + f(n)
  {
    var three, two := [l, m, n], [m, n];
    assert [k, l, m, n][1..] == three && three[1..] == two && two[1..] == [n] && [n][1..] == [];
    assert SumOf([n], f) == f(n) + SumOf([], f);
    assert SumOf(two, f) == f(m) + f(n);
    assert SumOf(three, f) == f(l) + f(m) + f(n);
  }

  function ThreeWithin(): nat -> real { passes => passes as real * (3.0 - passes as real) / 3.0 }

  function ThreeBetween(centre: real): nat -> real { passes => 3.0 * Square(passes as real / 3.0 - centre) }

  function ThreeTotal(): nat -> real { passes => passes as real }

  lemma {:induction false} ThreesSum(passes: seq<nat>, centre: real)
    requires forall p <- passes :: p <= 3
    ensures var c := Threes(passes);
            && CountDraws(c) == |Flatten(c)| == 3 * |passes| && Total(Flatten(c)) == SumOf(passes, ThreeTotal())
            && Within(c) == SumOf(passes, ThreeWithin()) && Between(c, centre) == SumOf(passes, ThreeBetween(centre))
  {
    hide Three, ThreeWithin, ThreeBetween, ThreeTotal, Mean, Spread, Square;
    if passes != [] {
      assert passes[0] in passes && forall p <- passes[1..] :: p in passes;
      ThreesSum(passes[1..], centre);
      ThreePart(passes[0], centre);
      NextThrees(Threes(passes), centre);
      assert Threes(passes)[1..] == Threes(passes[1..]);
      hide Within, Between, CountDraws, Flatten, Total;
    }
  }

  lemma NextThrees(c: seq<Draws>, centre: real)
    requires c != [] && |c[0]| == 3
    ensures Within(c) == Spread(c[0], Mean(c[0])) + Within(c[1..])
    ensures Between(c, centre) == 3.0 * Square(Mean(c[0]) - centre) + Between(c[1..], centre)
    ensures CountDraws(c) == 3 + CountDraws(c[1..])
    ensures |Flatten(c)| == 3 + |Flatten(c[1..])| && Total(Flatten(c)) == Total(c[0]) + Total(Flatten(c[1..]))
  {
    hide Mean, Spread;
    TotalConcat(c[0], Flatten(c[1..]));
  }

  lemma ThreePart(passes: nat, centre: real)
    requires passes <= 3
    ensures var g := Three(passes);
            && Total(g) == ThreeTotal()(passes) && Spread(g, Mean(g)) == ThreeWithin()(passes)
            && 3.0 * Square(Mean(g) - centre) == ThreeBetween(centre)(passes)
  {
    ThreeSums(passes, passes as real / 3.0);
  }

  lemma FourSums(k: nat, l: nat, m: nat, n: nat, centre: real)
    requires k <= 3 && l <= 3 && m <= 3 && n <= 3
    requires centre * 12.0 == k as real + l as real + m as real + n as real
    ensures var (c, b) := (Threes([k, l, m, n]), ThreeBetween(centre));
            && Mean(Flatten(c)) == centre && CountDraws(c) == 12
            && Within(c) == ThreeWithin()(k) + ThreeWithin()(l) + ThreeWithin()(m) + ThreeWithin()(n)
            && Between(c, centre) == b(k) + b(l) + b(m) + b(n)
  {
    ThreesSum([k, l, m, n], centre);
    SumOfFour(k, l, m, n, ThreeTotal());
    SumOfFour(k, l, m, n, ThreeWithin());
    SumOfFour(k, l, m, n, ThreeBetween(centre));
    assert |[k, l, m, n]| == 4;
    var flat := Flatten(Threes([k, l, m, n]));
    hide Mean, ThreeWithin, ThreeBetween, Threes, Flatten, SumOf;
    assert ThreeTotal()(k) == k as real && ThreeTotal()(l) == l as real && ThreeTotal()(m) == m as real;
    assert Total(flat) == centre * 12.0;
    TwelveMean(flat, centre);
  }

  lemma TwelveMean(g: Draws, centre: real)
    ensures |g| == 12 && Total(g) == centre * 12.0 ==> Mean(g) == centre
  {
  }

  lemma TwelveParts()
    ensures ThreeWithin()(0) == 0.0 == ThreeWithin()(3) && ThreeWithin()(1) == 2.0 / 3.0 == ThreeWithin()(2)
    ensures var b := ThreeBetween(0.25); b(0) == 9.0 / 48.0 && b(1) == 1.0 / 48.0 && b(2) == 25.0 / 48.0
    ensures ThreeBetween(1.0)(3) == 0.0
  {
    assert 0 as real == 0.0 && 1 as real == 1.0 && 2 as real == 2.0 && 3 as real == 3.0;
    var b := ThreeBetween(0.25);
    assert b(0) == 3.0 * Square(0.0 / 3.0 - 0.25) && b(1) == 3.0 * Square(1.0 / 3.0 - 0.25);
    assert b(2) == 3.0 * Square(2.0 / 3.0 - 0.25);
    assert ThreeBetween(1.0)(3) == 3.0 * Square(3.0 / 3.0 - 1.0);
  }

  lemma TwelveSums()
    ensures Accumulate(ByCandidate(TwelveDraws(), "i", "c")) == Anova(11.0 / 12.0, 4.0 / 3.0, 6, 16, 8, 24)
  {
    Letters();
    hide *;
    TwelveDrawsAre();
    DrawsOfFour(0, 0, 1, 2);
    DrawsOfFour(3, 3, 3, 3);
    FourSums(0, 0, 1, 2, 0.25);
    FourSums(3, 3, 3, 3, 1.0);
    TwelveParts();
    var x, y := Threes([0, 0, 1, 2]), Threes([3, 3, 3, 3]);
    assert |x| == 4 && |y| == 4;
    Accumulated(x, y);
    TwoNames(TwelveDraws(), "i", "c");
    PartIs(x);
    PartIs(y);
  }

  lemma TwoNames(rows: seq<Row>, i: string, c: string)
    requires i != c
    ensures ByCandidate(rows, i, c) == [DrawsOf(Groups(rows, i))] + [DrawsOf(Groups(rows, c))]
  {
  }

  lemma PartIs(c: seq<Draws>)
    requires c != []
    ensures Part(c) == Anova(Between(c, Mean(Flatten(c))), Within(c), |c| - 1, CountDraws(c) - |c|, |c|, CountDraws(c))
  {
  }

  /** Eleven twelfths between cases and four thirds within, over 6 and 16: a correlation of 5/23. */
  lemma TwelveRho()
    ensures var cands := ByCandidate(TwelveDraws(), "i", "c");
            Icc(cands) == Some(5.0 / 23.0) && MeanDraws(cands) == 3.0
  {
    TwelveSums();
    hide Accumulate, ByCandidate, TwelveDraws;
  }

  /**
   * Nine gained and none lost over four cases drawn three times: the counts shrink by 33/23 to six and none, which is
   * significant at 1/32, and adopted once the metric gate says better.
   */
  lemma TwelveDrawsAreAdopted(plan: Option<bool>)
    ensures var rows := TwelveDraws();
            && HeadToHead(rows, "i", "c") == Cell(0, 9, 3) && Deff(rows, "i", "c") == 33.0 / 23.0
            && Shrink(HeadToHead(rows, "i", "c"), Deff(rows, "i", "c")) == Shrunk(6, 0)
            && PairedP(rows, "i", "c") == 0.03125
            && Decide(true, rows, "i", "c", plan) == Adopted
  {
    NineGained();
    TwelveRho();
    SixToNothing();
    hide P, HeadToHead, Icc, MeanDraws;
    assert TwelveDraws() != [];
    hide TwelveDraws;
    var q := 9.0 / (33.0 / 23.0);
    assert q * (33.0 / 23.0) == 9.0 && 6.0 < q < 7.0;
    assert 0.0 / (33.0 / 23.0) == 0.0;
  }
}

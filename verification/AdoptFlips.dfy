/**
 * Turning lost cells into gained ones, over rows: the design effect is estimated again from the rows as they then
 * are, so what more evidence for the challenger does to an adoption depends on whether cases are repeated.
 */
module AdoptFlips {
  import opened Common
  import opened SignTest
  import opened AdoptGate
  import opened AdoptRepeats

  /** The cells the incumbent passes and the challenger fails. */
  function LostIds(rows: seq<Row>, i: string, c: string): set<CaseId> {
    var mine, theirs := Verdicts(rows, i), Verdicts(rows, c);
    set k | k in mine.Keys * theirs.Keys && IsLost(mine[k], theirs[k])
  }

  function FlippedRow(row: Row, i: string, c: string, ids: set<CaseId>): Row {
    if row.id !in ids then row
    else if row.candidate == i then row.(passed := false)
    else if row.candidate == c then row.(passed := true)
    else row
  }

  /** The rows with those cells failed by the incumbent and passed by the challenger. */
  function FlippedRows(rows: seq<Row>, i: string, c: string, ids: set<CaseId>): (out: seq<Row>)
    ensures |out| == |rows|
    ensures forall j :: 0 <= j < |rows| ==> out[j] == FlippedRow(rows[j], i, c, ids)
  {
    if rows == [] then []
    else var n := |rows| - 1; FlippedRows(rows[..n], i, c, ids) + [FlippedRow(rows[n], i, c, ids)]
  }

  function Set(verdicts: map<CaseId, bool>, ids: set<CaseId>, passed: bool): map<CaseId, bool> {
    map k | k in verdicts :: if k in ids then passed else verdicts[k]
  }

  lemma NextFlipped(rows: seq<Row>, i: string, c: string, ids: set<CaseId>)
    requires rows != []
    ensures var n := |rows| - 1;
            FlippedRows(rows, i, c, ids) == FlippedRows(rows[..n], i, c, ids) + [FlippedRow(rows[n], i, c, ids)]
  {
    hide FlippedRow;
  }

  lemma NextVerdict(rows: seq<Row>, row: Row, name: string)
    ensures Verdicts(rows + [row], name)
         == if row.candidate == name then Verdicts(rows, name)[row.id := row.passed] else Verdicts(rows, name)
  {
    assert (rows + [row])[..|rows|] == rows;
  }

  lemma NextSet(verdicts: map<CaseId, bool>, ids: set<CaseId>, passed: bool, id: CaseId, was: bool)
    ensures Set(verdicts[id := was], ids, passed) == Set(verdicts, ids, passed)[id := if id in ids then passed else was]
  {
  }

  lemma {:induction false} FlippedVerdicts(rows: seq<Row>, i: string, c: string, ids: set<CaseId>)
    requires i != c
    ensures Verdicts(FlippedRows(rows, i, c, ids), i) == Set(Verdicts(rows, i), ids, false)
    ensures Verdicts(FlippedRows(rows, i, c, ids), c) == Set(Verdicts(rows, c), ids, true)
  {
    if rows != [] {
      var n := |rows| - 1;
      var (row, before) := (rows[n], FlippedRows(rows[..n], i, c, ids));
      assert rows == rows[..n] + [row];
      FlippedVerdicts(rows[..n], i, c, ids);
      NextFlipped(rows, i, c, ids);
      NextVerdict(rows[..n], row, i);
      NextVerdict(rows[..n], row, c);
      NextVerdict(before, FlippedRow(row, i, c, ids), i);
      NextVerdict(before, FlippedRow(row, i, c, ids), c);
      NextSet(Verdicts(rows[..n], i), ids, false, row.id, row.passed);
      NextSet(Verdicts(rows[..n], c), ids, true, row.id, row.passed);
      hide Verdicts, FlippedRows, Set;
    }
  }

  lemma FlippedCell(rows: seq<Row>, i: string, c: string, ids: set<CaseId>)
    requires i != c && ids <= LostIds(rows, i, c)
    ensures |ids| <= HeadToHead(rows, i, c).lost
    ensures HeadToHead(FlippedRows(rows, i, c, ids), i, c) == Flipped(HeadToHead(rows, i, c), |ids|)
  {
    FlippedVerdicts(rows, i, c, ids);
    hide Verdicts, FlippedRows;
    var mine, theirs := Verdicts(rows, i), Verdicts(rows, c);
    var after := HeadToHead(FlippedRows(rows, i, c, ids), i, c);
    CellOfSet(mine, theirs, ids);
  }

  predicate AreLost(mine: map<CaseId, bool>, theirs: map<CaseId, bool>, ids: set<CaseId>) {
    forall k <- ids :: k in mine && k in theirs && mine[k] && !theirs[k]
  }

  lemma SetLoses(mine: map<CaseId, bool>, theirs: map<CaseId, bool>, ids: set<CaseId>)
    requires AreLost(mine, theirs, ids)
    ensures ids <= Selected(mine, theirs, IsLost)
    ensures Selected(Set(mine, ids, false), Set(theirs, ids, true), IsLost) == Selected(mine, theirs, IsLost) - ids
  {
  }

  lemma SetGains(mine: map<CaseId, bool>, theirs: map<CaseId, bool>, ids: set<CaseId>)
    requires AreLost(mine, theirs, ids)
    ensures Selected(mine, theirs, IsGained) !! ids
    ensures Selected(Set(mine, ids, false), Set(theirs, ids, true), IsGained) == Selected(mine, theirs, IsGained) + ids
  {
  }

  lemma SetSame(mine: map<CaseId, bool>, theirs: map<CaseId, bool>, ids: set<CaseId>)
    requires AreLost(mine, theirs, ids)
    ensures Selected(Set(mine, ids, false), Set(theirs, ids, true), IsSame) == Selected(mine, theirs, IsSame)
  {
  }

  lemma CellOfSet(mine: map<CaseId, bool>, theirs: map<CaseId, bool>, ids: set<CaseId>)
    requires AreLost(mine, theirs, ids)
    ensures |ids| <= CellOf(mine, theirs).lost
    ensures CellOf(Set(mine, ids, false), Set(theirs, ids, true)) == Flipped(CellOf(mine, theirs), |ids|)
  {
    var m, t := Set(mine, ids, false), Set(theirs, ids, true);
    hide Selected, Set, CountWhere, AreLost, IsLost, IsGained, IsSame;
    Selects(mine, theirs, IsLost);
    Selects(mine, theirs, IsGained);
    Selects(mine, theirs, IsSame);
    Selects(m, t, IsLost);
    Selects(m, t, IsGained);
    Selects(m, t, IsSame);
    SetLoses(mine, theirs, ids);
    SetGains(mine, theirs, ids);
    SetSame(mine, theirs, ids);
    Subsets(Selected(mine, theirs, IsLost), ids);
  }

  function Selected<K>(mine: map<K, bool>, theirs: map<K, bool>, sel: (bool, bool) -> bool): set<K> {
    set k | k in mine.Keys * theirs.Keys && sel(mine[k], theirs[k])
  }

  lemma Selects<K>(mine: map<K, bool>, theirs: map<K, bool>, sel: (bool, bool) -> bool)
    ensures CountWhere(mine, theirs, sel) == |Selected(mine, theirs, sel)|
  {
  }

  lemma Subsets<T>(s: set<T>, part: set<T>)
    requires part <= s
    ensures |part| <= |s| && |s - part| == |s| - |part|
  {
    assert s == part + (s - part);
  }

  lemma {:induction false} SubsetOfSize<T>(s: set<T>, k: nat) returns (part: set<T>)
    requires k <= |s|
    ensures part <= s && |part| == k
  {
    if k == 0 {
      part := {};
    } else {
      var x := Pick(s);
      part := SubsetOfSize(s - {x}, k - 1);
      part := part + {x};
    }
  }

  // ---- no case drawn twice ----

  /** No case of the candidate has two rows. */
  predicate DrawnOnce(rows: seq<Row>, name: string) {
    forall j :: 0 <= j < |rows| && rows[j].candidate == name ==> Count(rows, name, rows[j].id.base) == 1
  }

  lemma OnceIsUniform(rows: seq<Row>, name: string)
    requires DrawnOnce(rows, name)
    ensures Uniform(DrawsOf(Groups(rows, name)), 1)
  {
    var g := Groups(rows, name);
    DrawsOfMembers(g);
    hide Groups, DrawsOf, Count;
    forall k | 0 <= k < |g|
      ensures |g[k].1| == 1
    {
      GroupsCount(rows, name, g[k].0);
      assert g[k].0 in Keys(g);
      LookupFinds(g, k);
    }
  }

  /** Without repeats nothing is divided. */
  lemma OnceIsNotShrunk(rows: seq<Row>, i: string, c: string)
    requires DrawnOnce(rows, i) && DrawnOnce(rows, c)
    ensures Deff(rows, i, c) == 1.0
  {
    OnceIsUniform(rows, i);
    OnceIsUniform(rows, c);
    hide Groups, DrawsOf, DrawnOnce, Accumulate, Icc, Uniform;
    EqualDrawsCorrelate(ByCandidate(rows, i, c), 1);
  }

  lemma {:induction false} FlippedCount(rows: seq<Row>, i: string, c: string, ids: set<CaseId>, name: string, b: string)
    ensures Count(FlippedRows(rows, i, c, ids), name, b) == Count(rows, name, b)
  {
    if rows != [] {
      var n := |rows| - 1;
      FlippedCount(rows[..n], i, c, ids, name, b);
      var out := FlippedRows(rows, i, c, ids);
      assert out[..n] == FlippedRows(rows[..n], i, c, ids);
    }
  }

  lemma FlippedOnce(rows: seq<Row>, i: string, c: string, ids: set<CaseId>, name: string)
    requires DrawnOnce(rows, name)
    ensures DrawnOnce(FlippedRows(rows, i, c, ids), name)
  {
    var out := FlippedRows(rows, i, c, ids);
    hide FlippedRows, Count;
    forall j | 0 <= j < |out| && out[j].candidate == name
      ensures Count(out, name, out[j].id.base) == 1
    {
      FlippedCount(rows, i, c, ids, name, out[j].id.base);
      assert rows[j].candidate == name;
    }
  }

  /** An adoption pairs two candidates. */
  lemma AdoptedAreTwo(rows: seq<Row>, i: string, c: string)
    requires Gates(true, rows, i, c) == Adopted
    ensures i != c && CellP(HeadToHead(rows, i, c), Deff(rows, i, c)) <= ALPHA
  {
    if i == c {
      var v := Verdicts(rows, i);
      hide Verdicts, P, Deff;
      assert (set k | k in v.Keys * v.Keys && IsLost(v[k], v[k])) == {};
      assert (set k | k in v.Keys * v.Keys && IsGained(v[k], v[k])) == {};
      EvenCountsAreNot(HeadToHead(rows, i, c), Deff(rows, i, c));
    }
  }

  lemma GatesOfOnce(rows: seq<Row>, i: string, c: string, ids: set<CaseId>)
    requires DrawnOnce(rows, i) && DrawnOnce(rows, c) && Gates(true, rows, i, c) == Adopted
    requires ids <= LostIds(rows, i, c)
    ensures |ids| <= HeadToHead(rows, i, c).lost
    ensures Gates(true, FlippedRows(rows, i, c, ids), i, c) == Adopted
            <==> CellP(Flipped(HeadToHead(rows, i, c), |ids|), 1.0) <= ALPHA
  {
    AdoptedAreTwo(rows, i, c);
    FlippedCell(rows, i, c, ids);
    FlippedOnce(rows, i, c, ids, i);
    FlippedOnce(rows, i, c, ids, c);
    OnceIsNotShrunk(FlippedRows(rows, i, c, ids), i, c);
    hide HeadToHead, FlippedRows, DrawnOnce, Deff, CellP, LostIds;
  }

  /**
   * Where no case is drawn twice: however many lost cells of an adoption are turned into gained ones, it stands
   * exactly when more was gained than lost.
   */
  lemma UnrepeatedFlipsNeverRetractExactly(rows: seq<Row>, i: string, c: string)
    requires DrawnOnce(rows, i) && DrawnOnce(rows, c) && Gates(true, rows, i, c) == Adopted
    ensures (forall ids :: ids <= LostIds(rows, i, c) ==> Gates(true, FlippedRows(rows, i, c, ids), i, c) == Adopted)
            <==> HeadToHead(rows, i, c).gained > HeadToHead(rows, i, c).lost
  {
    var cell := HeadToHead(rows, i, c);
    AdoptedAreTwo(rows, i, c);
    OnceIsNotShrunk(rows, i, c);
    FlipsNeverRetractExactly(cell, 1.0);
    LostAreCounted(rows, i, c);
    hide *;
    if cell.gained > cell.lost {
      forall ids | ids <= LostIds(rows, i, c)
        ensures Gates(true, FlippedRows(rows, i, c, ids), i, c) == Adopted
      {
        GatesOfOnce(rows, i, c, ids);
      }
    } else {
      var k: nat :| k <= cell.lost && CellP(Flipped(cell, k), 1.0) > ALPHA;
      var ids := SubsetOfSize(LostIds(rows, i, c), k);
      GatesOfOnce(rows, i, c, ids);
    }
  }

  lemma LostAreCounted(rows: seq<Row>, i: string, c: string)
    ensures |LostIds(rows, i, c)| == HeadToHead(rows, i, c).lost
  {
    var mine, theirs := Verdicts(rows, i), Verdicts(rows, c);
    Selects(mine, theirs, IsLost);
    hide Verdicts;
    assert LostIds(rows, i, c) == Selected(mine, theirs, IsLost);
  }

  // ---- cases drawn more than once ----

  /** The candidate has `r` draws of each of some cases, numbered as expand_cases numbers them. */
  predicate Sits(rows: seq<Row>, name: string, bases: set<string>, r: nat) {
    && Verdicts(rows, name).Keys == Ids(bases, r)
    && (forall j :: 0 <= j < |rows| && rows[j].candidate == name ==> rows[j].id.base in bases)
    && (forall b <- bases :: Count(rows, name, b) == r)
  }

  /** An adoption on more gained than lost, over cases drawn `r` times each. */
  ghost predicate Wins(rows: seq<Row>, i: string, c: string, r: nat) {
    && (exists bases :: Sits(rows, i, bases, r)) && (exists bases :: Sits(rows, c, bases, r))
    && Gates(true, rows, i, c) == Adopted
    && HeadToHead(rows, i, c).gained > HeadToHead(rows, i, c).lost
  }

  ghost predicate FlipsAreSafe(r: nat) {
    forall rows, i, c, ids :: Wins(rows, i, c, r) && ids <= LostIds(rows, i, c) ==>
      Gates(true, FlippedRows(rows, i, c, ids), i, c) == Adopted
  }

  // The input that fails: five cases. The incumbent fails every draw but one, the challenger passes every draw but
  // that one, so the draws of the fifth case disagree and the correlation comes out as nothing.

  const BASES := ["1", "2", "3", "4", "5"]
  const ODD := CaseId("5", 1)

  predicate Answer(name: string, id: CaseId) { (name == "c") != (id == ODD) }

  /** The first `n` draws of a case. */
  function BaseRows(name: string, base: string, n: nat): (rows: seq<Row>)
    ensures |rows| == n
    ensures forall j :: 0 <= j < n ==> rows[j] == Row(name, CaseId(base, j + 1), Answer(name, CaseId(base, j + 1)))
  {
    if n == 0 then []
    else BaseRows(name, base, n - 1) + [Row(name, CaseId(base, n), Answer(name, CaseId(base, n)))]
  }

  /** `r` draws of each of the first `k` cases. */
  function NameRows(name: string, k: nat, r: nat): seq<Row>
    requires k <= 5
  {
    if k == 0 then [] else NameRows(name, k - 1, r) + BaseRows(name, BASES[k - 1], r)
  }

  function OddRows(r: nat): seq<Row> { NameRows("i", 5, r) + NameRows("c", 5, r) }

  // ---- what each candidate's rows hold ----

  /** A map of verdicts is right about some ids: those of the first draws of some cases. */
  ghost predicate Holds(v: map<CaseId, bool>, name: string, ids: set<CaseId>) {
    v.Keys == ids && forall k <- v :: v[k] == Answer(name, k)
  }

  function FirstIds(base: string, n: nat): set<CaseId> { set d | d in Numbers(n) :: CaseId(base, d) }

  lemma {:induction false} BaseVerdicts(rows: seq<Row>, name: string, base: string, n: nat, ids: set<CaseId>)
    requires Holds(Verdicts(rows, name), name, ids)
    ensures Holds(Verdicts(rows + BaseRows(name, base, n), name), name, ids + FirstIds(base, n))
  {
    hide Verdicts, Answer;
    if n == 0 {
      assert rows + BaseRows(name, base, 0) == rows;
      assert ids + FirstIds(base, 0) == ids;
    } else {
      BaseVerdicts(rows, name, base, n - 1, ids);
      var row := Row(name, CaseId(base, n), Answer(name, CaseId(base, n)));
      assert rows + BaseRows(name, base, n) == (rows + BaseRows(name, base, n - 1)) + [row];
      NextVerdict(rows + BaseRows(name, base, n - 1), row, name);
      assert FirstIds(base, n) == FirstIds(base, n - 1) + {CaseId(base, n)};
    }
  }

  /** Rows of another candidate change nothing of this one's. */
  lemma {:induction false} OthersRows(rows: seq<Row>, more: seq<Row>, name: string, b: string)
    requires forall row <- more :: row.candidate != name
    ensures Verdicts(rows + more, name) == Verdicts(rows, name)
    ensures Groups(rows + more, name) == Groups(rows, name)
    ensures Count(rows + more, name, b) == Count(rows, name, b)
  {
    if more == [] {
      assert rows + more == rows;
    } else {
      var n := |more| - 1;
      assert forall row <- more[..n] :: row in more;
      assert more[n] in more;
      OthersRows(rows, more[..n], name, b);
      assert (rows + more)[..|rows| + n] == rows + more[..n];
    }
  }

  lemma {:induction false} NameRowsAre(name: string, k: nat, r: nat)
    requires k <= 5
    ensures forall row <- NameRows(name, k, r) ::
              row.candidate == name && row.id.base in BASES[..k] && row.passed == Answer(name, row.id)
  {
    hide Answer;
    if k > 0 {
      NameRowsAre(name, k - 1, r);
      var more := BaseRows(name, BASES[k - 1], r);
      forall row <- NameRows(name, k, r)
        ensures row.candidate == name && row.id.base in BASES[..k] && row.passed == Answer(name, row.id)
      {
        if row in NameRows(name, k - 1, r) {
          assert BASES[..k] == BASES[..k - 1] + [BASES[k - 1]];
        } else {
          var j :| 0 <= j < |more| && more[j] == row;
        }
      }
    }
  }

  function BaseSet(k: nat): set<string>
    requires k <= 5
  {
    set b | b in BASES[..k]
  }

  function NumberedIds(bases: set<string>, n: nat): set<CaseId> {
    set b, d | b in bases && d in Numbers(n) :: CaseId(b, d)
  }

  lemma OneBaseMore(k: nat, r: nat)
    requires 1 <= k <= 5
    ensures NumberedIds(BaseSet(k), r) == NumberedIds(BaseSet(k - 1), r) + FirstIds(BASES[k - 1], r)
  {
    assert BASES[..k] == BASES[..k - 1] + [BASES[k - 1]];
    assert BaseSet(k) == BaseSet(k - 1) + {BASES[k - 1]};
    hide BaseSet, Numbers;
  }

  lemma NoBases(rows: seq<Row>, name: string, r: nat)
    ensures rows + NameRows(name, 0, r) == rows && NumberedIds(BaseSet(0), r) == {}
  {
  }

  lemma NameRowsNext(rows: seq<Row>, name: string, k: nat, r: nat)
    requires 1 <= k <= 5
    ensures rows + NameRows(name, k, r) == (rows + NameRows(name, k - 1, r)) + BaseRows(name, BASES[k - 1], r)
  {
    hide BaseRows;
  }

  lemma {:induction false} NameVerdicts(rows: seq<Row>, name: string, k: nat, r: nat)
    requires k <= 5 && Verdicts(rows, name) == map[]
    ensures Holds(Verdicts(rows + NameRows(name, k, r), name), name, NumberedIds(BaseSet(k), r))
  {
    if k == 0 {
      NoBases(rows, name, r);
      hide Verdicts, Answer, NumberedIds, BaseSet;
    } else {
      hide *;
      NameVerdicts(rows, name, k - 1, r);
      NameRowsNext(rows, name, k, r);
      OneBaseMore(k, r);
      BaseVerdicts(rows + NameRows(name, k - 1, r), name, BASES[k - 1], r, NumberedIds(BaseSet(k - 1), r));
    }
  }

  lemma NextCount(rows: seq<Row>, row: Row, name: string, b: string)
    ensures Count(rows + [row], name, b)
         == Count(rows, name, b) + (if row.candidate == name && row.id.base == b then 1 else 0)
  {
    assert (rows + [row])[..|rows|] == rows;
  }

  lemma {:induction false} BaseCount(rows: seq<Row>, name: string, base: string, n: nat, b: string)
    ensures Count(rows + BaseRows(name, base, n), name, b) == Count(rows, name, b) + if b == base then n else 0
  {
    hide Count, Answer;
    if n == 0 {
      assert rows + BaseRows(name, base, 0) == rows;
    } else {
      BaseCount(rows, name, base, n - 1, b);
      var row := Row(name, CaseId(base, n), Answer(name, CaseId(base, n)));
      assert rows + BaseRows(name, base, n) == (rows + BaseRows(name, base, n - 1)) + [row];
      NextCount(rows + BaseRows(name, base, n - 1), row, name, b);
    }
  }

  lemma {:induction false} NameCount(rows: seq<Row>, name: string, k: nat, r: nat, b: string)
    requires k <= 5 && Count(rows, name, b) == 0
    ensures Count(rows + NameRows(name, k, r), name, b) == if b in BaseSet(k) then r else 0
  {
    hide Count;
    if k == 0 {
      assert rows + NameRows(name, 0, r) == rows;
    } else {
      NameCount(rows, name, k - 1, r, b);
      var before := rows + NameRows(name, k - 1, r);
      BaseCount(before, name, BASES[k - 1], r, b);
      assert rows + NameRows(name, k, r) == before + BaseRows(name, BASES[k - 1], r);
      assert BASES[..k] == BASES[..k - 1] + [BASES[k - 1]];
      assert BASES[k - 1] !in BASES[..k - 1];
    }
  }

  // ---- the groups and their correlation ----

  function Spell(name: string, base: string, n: nat): (g: Draws)
    ensures |g| == n && forall j :: 0 <= j < n ==> g[j] == Answer(name, CaseId(base, j + 1))
  {
    if n == 0 then [] else Spell(name, base, n - 1) + [Answer(name, CaseId(base, n))]
  }

  lemma {:induction false} AddDrawToLast(groups: seq<(string, Draws)>, base: string, draws: Draws, passed: bool)
    requires forall g <- groups :: g.0 != base
    ensures AddDraw(groups, base, passed) == groups + [(base, [passed])]
    ensures AddDraw(groups + [(base, draws)], base, passed) == groups + [(base, draws + [passed])]
  {
    if groups != [] {
      assert groups[0] in groups && forall g <- groups[1..] :: g in groups;
      AddDrawToLast(groups[1..], base, draws, passed);
      assert (groups + [(base, draws)])[1..] == groups[1..] + [(base, draws)];
    }
  }

  lemma NextGroup(rows: seq<Row>, row: Row, name: string)
    ensures Groups(rows + [row], name)
         == if row.candidate == name then AddDraw(Groups(rows, name), row.id.base, row.passed) else Groups(rows, name)
  {
    assert (rows + [row])[..|rows|] == rows;
  }

  lemma {:induction false} BaseGroups(rows: seq<Row>, name: string, base: string, n: nat)
    requires n > 0 && forall g <- Groups(rows, name) :: g.0 != base
    ensures Groups(rows + BaseRows(name, base, n), name) == Groups(rows, name) + [(base, Spell(name, base, n))]
  {
    hide Groups, AddDraw, Answer;
    var passed := Answer(name, CaseId(base, n));
    var before := rows + BaseRows(name, base, n - 1);
    assert rows + BaseRows(name, base, n) == before + [Row(name, CaseId(base, n), passed)];
    NextGroup(before, Row(name, CaseId(base, n), passed), name);
    AddDrawToLast(Groups(rows, name), base, Spell(name, base, n - 1), passed);
    if n == 1 {
      assert before == rows;
      assert Spell(name, base, 1) == [passed];
    } else {
      BaseGroups(rows, name, base, n - 1);
    }
  }

  function GroupList(name: string, k: nat, r: nat): (groups: seq<(string, Draws)>)
    requires k <= 5
    ensures |groups| == k
    ensures forall j :: 0 <= j < k ==> groups[j] == (BASES[j], Spell(name, BASES[j], r))
  {
    if k == 0 then [] else GroupList(name, k - 1, r) + [(BASES[k - 1], Spell(name, BASES[k - 1], r))]
  }

  lemma {:induction false} NameGroups(rows: seq<Row>, name: string, k: nat, r: nat)
    requires k <= 5 && r > 0 && Groups(rows, name) == []
    ensures Groups(rows + NameRows(name, k, r), name) == GroupList(name, k, r)
  {
    hide Groups, Spell;
    if k == 0 {
      assert rows + NameRows(name, 0, r) == rows;
    } else {
      NameGroups(rows, name, k - 1, r);
      var before := rows + NameRows(name, k - 1, r);
      assert rows + NameRows(name, k, r) == before + BaseRows(name, BASES[k - 1], r);
      BaseGroups(before, name, BASES[k - 1], r);
    }
  }

  lemma {:induction false} ConstantSpreadAt(g: Draws, b: bool, centre: real)
    requires forall i :: 0 <= i < |g| ==> g[i] == b
    ensures Total(g) == |g| as real * Score(b)
    ensures Spread(g, centre) == |g| as real * ((Score(b) - centre) * (Score(b) - centre))
  {
    if g != [] {
      ConstantSpreadAt(g[1..], b, centre);
    }
  }

  lemma {:induction false} TotalConcat(a: Draws, b: Draws)
    ensures Total(a + b) == Total(a) + Total(b)
  {
    if a == [] {
      assert a + b == b;
    } else {
      assert (a + b)[1..] == a[1..] + b;
      TotalConcat(a[1..], b);
    }
  }

  /** One draw apart from the others. */
  predicate OneApart(g: Draws, r: nat, b: bool) {
    |g| == r && r > 0 && g[0] == !b && forall j :: 1 <= j < r ==> g[j] == b
  }

  lemma OneApartSums(g: Draws, r: nat, b: bool, centre: real)
    requires OneApart(g, r, b)
    ensures Total(g) == Score(!b) + (r - 1) as real * Score(b)
    ensures Spread(g, centre) == (Score(!b) - centre) * (Score(!b) - centre)
                                 + (r - 1) as real * ((Score(b) - centre) * (Score(b) - centre))
  {
    ConstantSpreadAt(g[1..], b, centre);
  }

  /** The draws of a candidate: four cases answered `b` throughout, and one with a draw apart. */
  ghost predicate FourAndOne(c: seq<Draws>, r: nat, b: bool) {
    && |c| == 5 && OneApart(c[4], r, b)
    && (forall k :: 0 <= k < 4 ==> |c[k]| == r && forall j :: 0 <= j < r ==> c[k][j] == b)
  }

  lemma NextTotal(c: seq<Draws>)
    ensures c != [] ==> Total(Flatten(c)) == Total(c[0]) + Total(Flatten(c[1..]))
    ensures c != [] ==> |Flatten(c)| == |c[0]| + |Flatten(c[1..])|
    ensures c == [] ==> Total(Flatten(c)) == 0.0 && |Flatten(c)| == 0
  {
    if c != [] {
      TotalConcat(c[0], Flatten(c[1..]));
    }
  }

  lemma FiveTotals(c: seq<Draws>)
    requires |c| == 5
    ensures Total(Flatten(c)) == Total(c[0]) + Total(c[1]) + Total(c[2]) + Total(c[3]) + Total(c[4])
    ensures |Flatten(c)| == |c[0]| + |c[1]| + |c[2]| + |c[3]| + |c[4]|
  {
    hide *;
    NextTotal(c);
    NextTotal(c[1..]);
    assert c[1..][1..] == c[2..];
    NextTotal(c[2..]);
    assert c[2..][1..] == c[3..];
    NextTotal(c[3..]);
    assert c[3..][1..] == c[4..];
    NextTotal(c[4..]);
    assert c[4..][1..] == c[5..] == [];
    NextTotal(c[5..]);
  }

  function Share(g: Draws, centre: real): real {
    var d := Mean(g) - centre;
    |g| as real * (d * d)
  }

  lemma NextSums(c: seq<Draws>, centre: real)
    ensures c != [] ==> CountDraws(c) == |c[0]| + CountDraws(c[1..])
    ensures c != [] ==> Within(c) == Spread(c[0], Mean(c[0])) + Within(c[1..])
    ensures c != [] ==> Between(c, centre) == Share(c[0], centre) + Between(c[1..], centre)
    ensures c == [] ==> CountDraws(c) == 0 && Within(c) == 0.0 && Between(c, centre) == 0.0
  {
    hide Spread, Mean;
  }

  lemma FiveSums(c: seq<Draws>, centre: real)
    requires |c| == 5
    ensures CountDraws(c) == |c[0]| + |c[1]| + |c[2]| + |c[3]| + |c[4]|
    ensures Within(c) == Spread(c[0], Mean(c[0])) + Spread(c[1], Mean(c[1])) + Spread(c[2], Mean(c[2]))
                         + Spread(c[3], Mean(c[3])) + Spread(c[4], Mean(c[4]))
    ensures Between(c, centre) == Share(c[0], centre) + Share(c[1], centre) + Share(c[2], centre)
                                  + Share(c[3], centre) + Share(c[4], centre)
  {
    hide *;
    NextSums(c, centre);
    NextSums(c[1..], centre);
    assert c[1..][1..] == c[2..];
    NextSums(c[2..], centre);
    assert c[2..][1..] == c[3..];
    NextSums(c[3..], centre);
    assert c[3..][1..] == c[4..];
    NextSums(c[4..], centre);
    assert c[4..][1..] == c[5..] == [];
    NextSums(c[5..], centre);
  }

  lemma InverseSums(n: real, q: real)
    requires n * q == 1.0
    ensures (1.0 - q) * (1.0 - q) + (n - 1.0) * (q * q) == 1.0 - q
    ensures n * ((q / 5.0) * (q / 5.0)) == q / 25.0
    ensures n * ((4.0 * q / 5.0) * (4.0 * q / 5.0)) == 16.0 * q / 25.0
  {
    assert n * (q * q) == (n * q) * q == q;
    assert n * ((q / 5.0) * (q / 5.0)) == n * (q * q) / 25.0;
    assert n * ((4.0 * q / 5.0) * (4.0 * q / 5.0)) == 16.0 * (n * (q * q)) / 25.0;
  }

  lemma MeanIs(g: Draws, total: real, mean: real)
    requires g != [] && Total(g) == total && total == mean * |g| as real
    ensures Mean(g) == mean
  {
    hide Total;
    assert |g| as real > 0.0;
    assert mean * |g| as real / |g| as real == mean;
  }

  lemma ShareOfGap(g: Draws, centre: real, gap: real)
    requires Mean(g) - centre == gap || centre - Mean(g) == gap
    ensures Share(g, centre) == |g| as real * (gap * gap)
  {
    hide Mean;
    var d := Mean(g) - centre;
    assert d * d == gap * gap;
  }

  lemma ConstantPart(g: Draws, r: nat, b: bool, centre: real, gap: real)
    requires r > 0 && |g| == r && (forall j :: 0 <= j < r ==> g[j] == b)
    requires Score(b) - centre == gap || centre - Score(b) == gap
    ensures Total(g) == r as real * Score(b) && Mean(g) == Score(b)
    ensures Spread(g, Mean(g)) == 0.0 && Share(g, centre) == r as real * (gap * gap)
  {
    ConstantSpreadAt(g, b, Score(b));
    MeanIs(g, r as real * Score(b), Score(b));
    hide Mean, Spread, Total, Score;
    ShareOfGap(g, centre, gap);
  }

  lemma ApartPart(g: Draws, r: nat, b: bool, q: real)
    requires OneApart(g, r, b) && r as real * q == 1.0
    ensures Total(g) == (if b then r as real - 1.0 else 1.0)
    ensures Mean(g) == (if b then 1.0 - q else q)
    ensures Spread(g, Mean(g)) == 1.0 - q
  {
    var n := r as real;
    var mean := if b then 1.0 - q else q;
    OneApartSums(g, r, b, mean);
    assert (r - 1) as real == n - 1.0;
    hide Spread, Total;
    assert (if b then n - 1.0 else 1.0) == mean * n;
    MeanIs(g, if b then n - 1.0 else 1.0, mean);
    InverseSums(n, q);
  }

  lemma ApartShare(g: Draws, r: nat, b: bool, q: real, centre: real)
    requires OneApart(g, r, b) && r as real * q == 1.0 && centre == (if b then 1.0 - q / 5.0 else q / 5.0)
    ensures Total(g) == (if b then r as real - 1.0 else 1.0)
    ensures Spread(g, Mean(g)) == 1.0 - q && Share(g, centre) == 16.0 * q / 25.0
  {
    ApartPart(g, r, b, q);
    hide Mean, Spread, Total, Share;
    ShareOfGap(g, centre, 4.0 * q / 5.0);
    InverseSums(r as real, q);
  }

  lemma FourShare(g: Draws, r: nat, b: bool, q: real, centre: real)
    requires r > 0 && |g| == r && (forall j :: 0 <= j < r ==> g[j] == b)
    requires r as real * q == 1.0 && centre == (if b then 1.0 - q / 5.0 else q / 5.0)
    ensures Total(g) == r as real * Score(b) && Spread(g, Mean(g)) == 0.0 && Share(g, centre) == q / 25.0
  {
    ConstantPart(g, r, b, centre, q / 5.0);
    hide Mean, Spread, Total, Share;
    InverseSums(r as real, q);
  }

  /** The sums such draws add to the analysis of variance. */
  lemma FourAndOneSums(c: seq<Draws>, r: nat, b: bool, q: real)
    requires FourAndOne(c, r, b) && r as real * q == 1.0
    ensures Between(c, Mean(Flatten(c))) == 4.0 * q / 5.0
    ensures Within(c) == 1.0 - q && CountDraws(c) == 5 * r
  {
    var n := r as real;
    var centre := if b then 1.0 - q / 5.0 else q / 5.0;
    FourShare(c[0], r, b, q, centre);
    FourShare(c[1], r, b, q, centre);
    FourShare(c[2], r, b, q, centre);
    FourShare(c[3], r, b, q, centre);
    ApartShare(c[4], r, b, q, centre);
    FiveTotals(c);
    FiveSums(c, centre);
    hide Mean, Spread, Total, Between, Within, CountDraws, Flatten, OneApart, Share;
    var total := Total(Flatten(c));
    assert total == if b then 5.0 * n - 1.0 else 1.0;
    assert centre * (5.0 * n) == total by {
      assert q / 5.0 * (5.0 * n) == n * q;
    }
    MeanIs(Flatten(c), total, centre);
  }

  lemma TwoCandidates(x: seq<Draws>, y: seq<Draws>)
    requires x != [] && y != []
    ensures Accumulate([x, y])
         == Anova(Between(y, Mean(Flatten(y))) + Between(x, Mean(Flatten(x))), Within(y) + Within(x), |y| - 1 + |x| - 1,
                  CountDraws(y) - |y| + CountDraws(x) - |x|, |y| + |x|, CountDraws(y) + CountDraws(x))
  {
    hide Between, Within, CountDraws, Flatten, Mean;
    assert [y][1..] == [] && Accumulate([]) == Anova(0.0, 0.0, 0, 0, 0, 0);
    assert Accumulate([y])
        == Anova(Between(y, Mean(Flatten(y))), Within(y), |y| - 1, CountDraws(y) - |y|, |y|, CountDraws(y));
    assert [x, y][1..] == [y];
  }

  /** Equal mean squares between and within mean no correlation. */
  lemma EqualSquares(a: Anova, m: real)
    requires a.dfb > 0 && a.dfw > 0 && a.draws >= a.groups > 0 && m > 0.0
    requires a.ssb == m * a.dfb as real && a.ssw == m * a.dfw as real
    ensures RhoOf(a) == Some(0.0)
  {
    Cancel(m, a.dfb as real);
    Cancel(m, a.dfw as real);
    var msb, msw := a.ssb / a.dfb as real, a.ssw / a.dfw as real;
    assert msb == m && msw == m;
    AtLeastOne(a.draws, a.groups);
    var extra := a.draws as real / a.groups as real - 1.0;
    assert extra * m >= 0.0;
    var denom := msb + extra * msw;
    assert denom > 0.0;
    assert (msb - msw) / denom == 0.0;
  }

  lemma AtLeastOne(x: nat, y: nat)
    requires x >= y > 0
    ensures x as real / y as real >= 1.0
  {
    FractionLeq(y as real, y as real, x as real, y as real);
  }

  lemma Cancel(x: real, y: real)
    requires y > 0.0
    ensures x * y / y == x
  {
  }

  /** Between cases and within them the draws vary alike, so nothing correlates. */
  lemma OddRho(x: seq<Draws>, y: seq<Draws>, r: nat)
    requires r >= 2 && FourAndOne(x, r, false) && FourAndOne(y, r, true)
    ensures Icc([x, y]) == Some(0.0)
  {
    var n := r as real;
    var q := 1.0 / n;
    assert n * q == 1.0 && q > 0.0;
    FourAndOneSums(x, r, false, q);
    FourAndOneSums(y, r, true, q);
    TwoCandidates(x, y);
    hide Accumulate, RhoOf, FourAndOne, Between, Within, CountDraws, Flatten, Mean;
    var a := Accumulate([x, y]);
    assert a.ssb == (q / 5.0) * 8.0;
    assert a.dfw as real == 10.0 * (n - 1.0);
    assert a.ssw == (q / 5.0) * (10.0 * (n - 1.0)) by {
      assert q * (n - 1.0) == 1.0 - q;
    }
    EqualSquares(a, q / 5.0);
  }

  // ---- the input, put together ----

  /** What a candidate's rows hold once they follow the rows of others. */
  lemma NameAlone(rows: seq<Row>, name: string, r: nat, b: string)
    requires r > 0 && forall row <- rows :: row.candidate != name
    ensures var all := rows + NameRows(name, 5, r);
            && Groups(all, name) == GroupList(name, 5, r)
            && Count(all, name, b) == (if b in BaseSet(5) then r else 0)
            && Holds(Verdicts(all, name), name, NumberedIds(BaseSet(5), r))
  {
    hide *;
    NothingHeld(name);
    OthersRows([], rows, name, b);
    assert [] + rows == rows;
    assert Count([], name, b) == 0;
    NameGroups(rows, name, 5, r);
    NameVerdicts(rows, name, 5, r);
    NameCount(rows, name, 5, r, b);
  }

  lemma OddGroups(name: string, r: nat, b: string)
    requires r > 0 && name in {"i", "c"}
    ensures Groups(OddRows(r), name) == GroupList(name, 5, r)
    ensures Count(OddRows(r), name, b) == if b in BaseSet(5) then r else 0
    ensures Holds(Verdicts(OddRows(r), name), name, NumberedIds(BaseSet(5), r))
  {
    var mine, theirs := NameRows("i", 5, r), NameRows("c", 5, r);
    assert OddRows(r) == mine + theirs;
    NameRowsAre("i", 5, r);
    NameRowsAre("c", 5, r);
    hide *;
    assert "i"[0] != "c"[0];
    if name == "i" {
      NameAlone([], "i", r, b);
      assert [] + mine == mine;
      OthersRows(mine, theirs, "i", b);
    } else {
      NameAlone(mine, "c", r, b);
    }
  }

  lemma NothingHeld(name: string)
    ensures Groups([], name) == [] && Verdicts([], name) == map[] && forall b :: Count([], name, b) == 0
  {
  }

  lemma OddDraws(name: string, r: nat)
    requires r > 0 && name in {"i", "c"}
    ensures FourAndOne(DrawsOf(GroupList(name, 5, r)), r, name == "c")
  {
    var g := GroupList(name, 5, r);
    DrawsOfMembers(g);
    hide DrawsOf, GroupList;
    assert BASES[0] != "5" && BASES[1] != "5" && BASES[2] != "5" && BASES[3] != "5" && BASES[4] == "5";
  }

  lemma ByTwo(rows: seq<Row>, i: string, c: string)
    requires i != c
    ensures ByCandidate(rows, i, c) == [DrawsOf(Groups(rows, i)), DrawsOf(Groups(rows, c))]
  {
    hide DrawsOf, Groups;
  }

  lemma DeffOfNone(rows: seq<Row>, i: string, c: string)
    requires Icc(ByCandidate(rows, i, c)) == Some(0.0)
    ensures Deff(rows, i, c) == 1.0
  {
    hide Icc, ByCandidate, MeanDraws;
  }

  lemma OddDeff(r: nat)
    requires r >= 2
    ensures Deff(OddRows(r), "i", "c") == 1.0
  {
    assert "i"[0] != "c"[0];
    hide *;
    OddGroups("i", r, "");
    OddGroups("c", r, "");
    OddDraws("i", r);
    OddDraws("c", r);
    OddRho(DrawsOf(GroupList("i", 5, r)), DrawsOf(GroupList("c", 5, r)), r);
    ByTwo(OddRows(r), "i", "c");
    DeffOfNone(OddRows(r), "i", "c");
  }

  /** The bases are five, so a candidate has five times `r` ids; one is lost and the rest are gained. */
  lemma OddCell(r: nat)
    requires r >= 2
    ensures LostIds(OddRows(r), "i", "c") == {ODD}
    ensures HeadToHead(OddRows(r), "i", "c") == Cell(1, 5 * r - 1, 0)
  {
    OddGroups("i", r, "");
    OddGroups("c", r, "");
    var mine, theirs := Verdicts(OddRows(r), "i"), Verdicts(OddRows(r), "c");
    var ids := NumberedIds(BaseSet(5), r);
    FiveBases();
    NumberedAreIds(BaseSet(5), r);
    IdsCount(BaseSet(5), r);
    OneIsNumbered(r);
    assert "i"[0] != "c"[0];
    assert ODD in ids;
    hide *;
    LostAreSelected(OddRows(r), "i", "c");
    HeldAnswers(mine, theirs, ids);
    AllButOne(mine, theirs, ids, ODD);
    assert CellOf(mine, theirs) == Cell(1, 5 * r - 1, 0);
    HeadToHeadIs(OddRows(r), "i", "c");
  }

  lemma HeadToHeadIs(rows: seq<Row>, i: string, c: string)
    ensures HeadToHead(rows, i, c) == CellOf(Verdicts(rows, i), Verdicts(rows, c))
  {
  }

  lemma HeldAnswers(mine: map<CaseId, bool>, theirs: map<CaseId, bool>, ids: set<CaseId>)
    requires Holds(mine, "i", ids) && Holds(theirs, "c", ids)
    ensures mine.Keys == ids && theirs.Keys == ids
    ensures forall k <- ids :: mine[k] == (k == ODD) && theirs[k] == (k != ODD)
  {
    assert "i"[0] != "c"[0];
  }

  lemma LostAreSelected(rows: seq<Row>, i: string, c: string)
    ensures LostIds(rows, i, c) == Selected(Verdicts(rows, i), Verdicts(rows, c), IsLost)
  {
    hide Verdicts;
  }

  /** One id lost and every other gained. */
  lemma AllButOne(mine: map<CaseId, bool>, theirs: map<CaseId, bool>, ids: set<CaseId>, one: CaseId)
    requires mine.Keys == ids && theirs.Keys == ids && one in ids
    requires forall k <- ids :: mine[k] == (k == one) && theirs[k] == (k != one)
    ensures Selected(mine, theirs, IsLost) == {one}
    ensures CellOf(mine, theirs) == Cell(1, |ids| - 1, 0)
  {
    assert Selected(mine, theirs, IsLost) == {one};
    assert Selected(mine, theirs, IsGained) == ids - {one};
    assert Selected(mine, theirs, IsSame) == {};
    hide Selected, CountWhere, IsLost, IsGained, IsSame;
    Selects(mine, theirs, IsLost);
    Selects(mine, theirs, IsGained);
    Selects(mine, theirs, IsSame);
  }

  lemma FiveBases()
    ensures BaseSet(5) == {"1", "2", "3", "4", "5"} && |BaseSet(5)| == 5
  {
    assert BASES[..5] == BASES;
    assert BaseSet(5) == {"1", "2", "3", "4", "5"};
  }

  lemma NumberedAreIds(bases: set<string>, r: nat)
    requires r != 1
    ensures NumberedIds(bases, r) == Ids(bases, r)
  {
  }

  lemma {:induction false} OneIsNumbered(r: nat)
    requires r >= 1
    ensures 1 in Numbers(r)
  {
    if r > 1 {
      OneIsNumbered(r - 1);
    }
  }

  /** Five draws gained against one lost, from ten on, is significant. */
  lemma OddIsSignificant(r: nat)
    requires r >= 2
    ensures P(5 * r - 1, 1) <= ALPHA
  {
    hide P;
    PMonotone(9, 1, 5 * r - 1, 1);
    NineToOne();
  }

  lemma TenTosses()
    ensures Pow2(10) == 1024
  {
    assert Pow2(5) == 32;
  }

  lemma DoubledEleven()
    ensures Doubled(11, 1024) == 22.0 / 1024.0
  {
  }

  lemma NineToOne()
    ensures P(9, 1) == 22.0 / 1024.0
  {
    PIs(9, 1);
    TailOne(10);
    TenTosses();
    DoubledEleven();
    assert Min(9, 1) == 1;
    hide *;
  }

  lemma FiveToNothing()
    ensures P(5, 0) == 0.0625
  {
    TailOne(5);
    assert Pow2(5) == 32;
  }

  // ---- the theorem ----

  lemma OddSits(name: string, r: nat)
    requires r >= 2 && name in {"i", "c"}
    ensures Sits(OddRows(r), name, BaseSet(5), r)
  {
    var rows := OddRows(r);
    OddGroups(name, r, "");
    NumberedAreIds(BaseSet(5), r);
    OddRowsAre(r);
    forall b <- BaseSet(5)
      ensures Count(rows, name, b) == r
    {
      OddGroups(name, r, b);
    }
  }

  lemma OddRowsAre(r: nat)
    ensures forall row <- OddRows(r) :: row.candidate in {"i", "c"} && row.id.base in BaseSet(5)
                                        && row.passed == Answer(row.candidate, row.id)
  {
    NameRowsAre("i", 5, r);
    NameRowsAre("c", 5, r);
    hide NameRows, Answer;
    assert BASES[..5] == BASES;
  }

  lemma OddWins(r: nat)
    requires r >= 2
    ensures Wins(OddRows(r), "i", "c", r)
  {
    OddSits("i", r);
    OddSits("c", r);
    OddDeff(r);
    OddCell(r);
    OddIsSignificant(r);
    hide Sits, OddRows, P, HeadToHead, Deff;
    assert OddRows(r) != [] by {
      if OddRows(r) == [] {
        NoCellOfNothing();
        assert false;
      }
    }
  }

  lemma NoCellOfNothing()
    ensures HeadToHead([], "i", "c") == Cell(0, 0, 0)
  {
  }

  function AllAnswer(b: bool): map<string, bool> { map k | k in BaseSet(5) :: b }

  lemma TurnedVerdicts(name: string, r: nat)
    requires r >= 2 && name in {"i", "c"}
    ensures Verdicts(FlippedRows(OddRows(r), "i", "c", {ODD}), name).Keys == Ids(BaseSet(5), r)
    ensures forall b <- BaseSet(5) :: Count(FlippedRows(OddRows(r), "i", "c", {ODD}), name, b) == r
  {
    assert "i"[0] != "c"[0];
    OddSits(name, r);
    FlippedVerdicts(OddRows(r), "i", "c", {ODD});
    hide Verdicts, OddRows, Count, Ids, BaseSet, FlippedRows;
    forall b <- BaseSet(5)
      ensures Count(FlippedRows(OddRows(r), "i", "c", {ODD}), name, b) == r
    {
      FlippedCount(OddRows(r), "i", "c", {ODD}, name, b);
    }
  }

  lemma TurnedAnswers(name: string, r: nat)
    requires r >= 2 && name in {"i", "c"}
    ensures Consistent(FlippedRows(OddRows(r), "i", "c", {ODD}), name, AllAnswer(name == "c"))
  {
    var rows := OddRows(r);
    var out := FlippedRows(rows, "i", "c", {ODD});
    assert "i"[0] != "c"[0];
    OddSits(name, r);
    OddRowsAre(r);
    assert AllAnswer(name == "c").Keys == BaseSet(5);
    hide Verdicts, OddRows, Count, Ids, BaseSet, FlippedRows;
    forall j | 0 <= j < |out| && out[j].candidate == name
      ensures out[j].id.base in BaseSet(5) && out[j].passed == (name == "c")
    {
      assert rows[j] in rows && out[j] == FlippedRow(rows[j], "i", "c", {ODD});
    }
  }

  lemma DrawnIs(rows: seq<Row>, name: string, answers: map<string, bool>, r: nat)
    requires Verdicts(rows, name).Keys == Ids(answers.Keys, r) && Consistent(rows, name, answers)
    requires forall b <- answers.Keys :: Count(rows, name, b) == r
    ensures Drawn(rows, name, answers, r)
  {
    hide Verdicts, Ids, Consistent, Count;
  }

  lemma AllAnswerKeys(b: bool)
    ensures AllAnswer(b).Keys == BaseSet(5)
  {
    hide BaseSet;
  }

  /** Once the odd draw is turned, every case is answered alike on all its draws. */
  lemma TurnedIsDrawn(name: string, r: nat)
    requires r >= 2 && name in {"i", "c"}
    ensures Drawn(FlippedRows(OddRows(r), "i", "c", {ODD}), name, AllAnswer(name == "c"), r)
  {
    hide *;
    TurnedVerdicts(name, r);
    TurnedAnswers(name, r);
    AllAnswerKeys(name == "c");
    DrawnIs(FlippedRows(OddRows(r), "i", "c", {ODD}), name, AllAnswer(name == "c"), r);
  }

  /** Then rho is one again, ten or more gained count as five, and five to nothing is not significant. */
  lemma TurnedIsRefused(r: nat)
    requires r >= 2
    ensures Gates(true, FlippedRows(OddRows(r), "i", "c", {ODD}), "i", "c") != Adopted
  {
    var out := FlippedRows(OddRows(r), "i", "c", {ODD});
    TurnedIsDrawn("i", r);
    TurnedIsDrawn("c", r);
    assert "i"[0] != "c"[0];
    FiveBases();
    var none, every := AllAnswer(false), AllAnswer(true);
    FiveToNothing();
    FiveGained(none, every);
    hide FlippedRows, Drawn, OddRows, HeadToHead, Deff, P, AllAnswer, CellOf;
    RepeatsShrinkToOneDraw(out, "i", "c", none, every, r);
  }

  lemma FiveGained(none: map<string, bool>, every: map<string, bool>)
    requires none == AllAnswer(false) && every == AllAnswer(true)
    ensures CellOf(none, every) == Cell(0, 5, 0)
  {
    FiveBases();
    hide BaseSet;
    assert Selected(none, every, IsLost) == {};
    assert Selected(none, every, IsGained) == BaseSet(5);
    assert Selected(none, every, IsSame) == {};
    hide Selected, CountWhere, AllAnswer;
    Selects(none, every, IsLost);
    Selects(none, every, IsGained);
    Selects(none, every, IsSame);
  }

  lemma WonOnceStands(rows: seq<Row>, i: string, c: string, ids: set<CaseId>)
    requires Wins(rows, i, c, 1) && ids <= LostIds(rows, i, c)
    ensures Gates(true, FlippedRows(rows, i, c, ids), i, c) == Adopted
  {
    SitsOnce(rows, i);
    SitsOnce(rows, c);
    hide DrawnOnce, Gates, FlippedRows, LostIds, HeadToHead, Sits;
    UnrepeatedFlipsNeverRetractExactly(rows, i, c);
  }

  /**
   * Turning losses into gains never retracts an adoption made on more gained than lost, whatever the rows, exactly
   * when cases are drawn once: at every number of repeats there are rows where one such turn does.
   */
  lemma FlipsAreSafeExactlyUnrepeated(r: nat)
    requires r >= 1
    ensures FlipsAreSafe(r) <==> r == 1
  {
    if r == 1 {
      hide Wins, FlippedRows, LostIds, Gates;
      forall rows, i, c, ids | Wins(rows, i, c, r) && ids <= LostIds(rows, i, c)
        ensures Gates(true, FlippedRows(rows, i, c, ids), i, c) == Adopted
      {
        WonOnceStands(rows, i, c, ids);
      }
    } else {
      OddWins(r);
      OddCell(r);
      TurnedIsRefused(r);
      hide Wins, OddRows, FlippedRows, LostIds, Gates;
      var (rows, ids) := (OddRows(r), {ODD});
      assert Wins(rows, "i", "c", r) && ids <= LostIds(rows, "i", "c");
      assert Gates(true, FlippedRows(rows, "i", "c", ids), "i", "c") != Adopted;
    }
  }

  lemma SitsOnce(rows: seq<Row>, name: string)
    requires exists bases :: Sits(rows, name, bases, 1)
    ensures DrawnOnce(rows, name)
  {
    hide Verdicts, Ids, Count;
  }
}

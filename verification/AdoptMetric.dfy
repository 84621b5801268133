/**
 * The metric gate over rows: harness/winners.py ranks summaries by their rounded pass rate first. Whether an adoption
 * can rest on more lost than gained then depends on which cases the two candidates sat, and on the rounding.
 */
module AdoptMetric {
  import opened Common
  import opened SignTest
  import opened AdoptGate
  import opened AdoptRepeats
  import opened AdoptFlips
  import SignScale

  // ---- the pass rate of a summary ----

  function TotalRows(rows: seq<Row>, name: string): nat {
    if rows == [] then 0
    else var n := |rows| - 1; TotalRows(rows[..n], name) + (if rows[n].candidate == name then 1 else 0)
  }

  function PassedRows(rows: seq<Row>, name: string): (p: nat)
    ensures p <= TotalRows(rows, name)
  {
    if rows == [] then 0
    else
      var n := |rows| - 1;
      PassedRows(rows[..n], name) + (if rows[n].candidate == name && rows[n].passed then 1 else 0)
  }

  /** round(x, 3), in thousandths. */
  type Rounding = real -> int

  /** A nearest one, whichever way ties go. */
  ghost predicate Nearest(round: Rounding) {
    forall x: real :: IsNearest(x, round(x))
  }

  predicate IsNearest(x: real, m: int) { -0.5 <= 1000.0 * x - m as real <= 0.5 }

  function PassShare(passed: nat, total: nat): real
    requires total > 0
  {
    passed as real / total as real
  }

  function RateOf(rows: seq<Row>, name: string, round: Rounding): int {
    var n := TotalRows(rows, name);
    if n == 0 then 0 else round(PassShare(PassedRows(rows, name), n))
  }

  /** order_key(challenger) > order_key(incumbent); `ahead` is the answer of what comes after the rate. */
  predicate Better(rows: seq<Row>, i: string, c: string, round: Rounding, ahead: bool) {
    var (mine, theirs) := (RateOf(rows, i, round), RateOf(rows, c, round));
    theirs > mine || (theirs == mine && ahead)
  }

  /** Both gates, the summaries being those of the rows that are paired. */
  function BothGates(rows: seq<Row>, i: string, c: string, round: Rounding, ahead: bool): Verdict {
    Gates(Better(rows, i, c, round, ahead), rows, i, c)
  }

  lemma SharesInOrder(p: nat, q: nat, n: nat, round: Rounding)
    requires n > 0 && p <= q && Nearest(round)
    ensures round(PassShare(p, n)) <= round(PassShare(q, n))
  {
    var (x, y) := (PassShare(p, n), PassShare(q, n));
    assert IsNearest(x, round(x)) && IsNearest(y, round(y));
    FractionLeq(p as real, n as real, q as real, n as real);
    MulIsMonotone(p as real, q as real, n as real);
    if p == q {
      assert x == y;
    } else {
      FractionLeq(q as real, n as real, p as real, n as real);
      MulIsMonotone(q as real, p as real, n as real);
      assert x < y;
    }
  }

  // ---- rows that sit each id once ----

  predicate Once(rows: seq<Row>, name: string) {
    forall j, k :: 0 <= j < k < |rows| && rows[j].candidate == name && rows[k].candidate == name
      ==> rows[j].id != rows[k].id
  }

  /** The candidate has one row for each of these ids and no other. */
  predicate Sat(rows: seq<Row>, name: string, ids: set<CaseId>) {
    Verdicts(rows, name).Keys == ids && Once(rows, name)
  }

  function Passes(verdicts: map<CaseId, bool>): set<CaseId> { set k | k in verdicts && verdicts[k] }

  lemma {:induction false} VerdictHasRow(rows: seq<Row>, name: string, id: CaseId)
    requires id in Verdicts(rows, name)
    ensures exists j :: 0 <= j < |rows| && rows[j].candidate == name && rows[j].id == id
  {
    var n := |rows| - 1;
    if rows[n].candidate != name || rows[n].id != id {
      VerdictHasRow(rows[..n], name, id);
      var j :| 0 <= j < n && rows[..n][j].candidate == name && rows[..n][j].id == id;
      assert rows[j].id == id;
    }
  }

  lemma FreshId(rows: seq<Row>, name: string)
    requires rows != [] && Once(rows, name) && rows[|rows| - 1].candidate == name
    ensures rows[|rows| - 1].id !in Verdicts(rows[..|rows| - 1], name)
  {
    var n := |rows| - 1;
    if rows[n].id in Verdicts(rows[..n], name) {
      VerdictHasRow(rows[..n], name, rows[n].id);
    }
  }

  lemma OneMoreKey(before: map<CaseId, bool>, id: CaseId, passed: bool)
    requires id !in before
    ensures |before[id := passed]| == |before| + 1
  {
    assert before[id := passed].Keys == before.Keys + {id};
    assert |before.Keys + {id}| == |before.Keys| + 1;
  }

  lemma OneMorePass(before: map<CaseId, bool>, id: CaseId, passed: bool)
    requires id !in before
    ensures |before[id := passed]| == |before| + 1
    ensures |Passes(before[id := passed])| == |Passes(before)| + (if passed then 1 else 0)
  {
    OneMoreKey(before, id, passed);
    assert Passes(before[id := passed]) == Passes(before) + (if passed then {id} else {});
  }

  lemma OneMoreWithBase(before: map<CaseId, bool>, id: CaseId, passed: bool, base: string)
    requires id !in before
    ensures |WithBase(before[id := passed], base)| == |WithBase(before, base)| + (if id.base == base then 1 else 0)
  {
    assert WithBase(before[id := passed], base) == WithBase(before, base) + (if id.base == base then {id} else {});
  }

  /** A summary then counts the ids and those passed. */
  lemma {:induction false} SummaryCounts(rows: seq<Row>, name: string)
    requires Once(rows, name)
    ensures TotalRows(rows, name) == |Verdicts(rows, name)|
    ensures PassedRows(rows, name) == |Passes(Verdicts(rows, name))|
  {
    if rows == [] {
      assert Passes(map[]) == {};
    } else {
      var n := |rows| - 1;
      var row := rows[n];
      SummaryCounts(rows[..n], name);
      assert rows == rows[..n] + [row];
      NextVerdict(rows[..n], row, name);
      var before := Verdicts(rows[..n], name);
      hide Verdicts, Once, Passes, WithBase;
      if row.candidate == name {
        FreshId(rows, name);
        OneMorePass(before, row.id, row.passed);
      }
    }
  }

  function WithBase(verdicts: map<CaseId, bool>, base: string): set<CaseId> {
    set k | k in verdicts && k.base == base
  }

  lemma {:induction false} BaseCounts(rows: seq<Row>, name: string, base: string)
    requires Once(rows, name)
    ensures Count(rows, name, base) == |WithBase(Verdicts(rows, name), base)|
  {
    if rows == [] {
      assert WithBase(map[], base) == {};
    } else {
      var n := |rows| - 1;
      var row := rows[n];
      BaseCounts(rows[..n], name, base);
      assert rows == rows[..n] + [row];
      NextVerdict(rows[..n], row, name);
      var before := Verdicts(rows[..n], name);
      hide Verdicts, Once, Passes, WithBase;
      if row.candidate == name {
        FreshId(rows, name);
        OneMoreWithBase(before, row.id, row.passed, base);
      }
    }
  }

  /** No case is repeated. */
  predicate Unrepeated(ids: set<CaseId>) {
    forall j, k :: j in ids && k in ids && j.base == k.base ==> j == k
  }

  lemma UnrepeatedIsDrawnOnce(rows: seq<Row>, name: string, ids: set<CaseId>)
    requires Sat(rows, name, ids) && Unrepeated(ids)
    ensures DrawnOnce(rows, name)
  {
    var v := Verdicts(rows, name);
    forall j | 0 <= j < |rows| && rows[j].candidate == name
      ensures Count(rows, name, rows[j].id.base) == 1
    {
      BaseCounts(rows, name, rows[j].id.base);
      RowHasVerdict(rows, name, j);
      hide Verdicts, Once, Count;
      assert WithBase(v, rows[j].id.base) == {rows[j].id};
    }
  }

  lemma {:induction false} RowHasVerdict(rows: seq<Row>, name: string, j: nat)
    requires j < |rows| && rows[j].candidate == name
    ensures rows[j].id in Verdicts(rows, name)
  {
    var n := |rows| - 1;
    if j < n {
      RowHasVerdict(rows[..n], name, j);
      assert rows[..n][j] == rows[j];
    }
  }

  // ---- how the passes fall over shared and other ids ----

  function BothPass(mine: map<CaseId, bool>, theirs: map<CaseId, bool>): set<CaseId> {
    Passes(mine) * Passes(theirs)
  }

  lemma Halves<T>(s: set<T>, part: set<T>)
    requires part <= s
    ensures |s| == |part| + |s - part| && |part| <= |s|
  {
    Subsets(s, part);
  }

  lemma TwoParts<T>(s: set<T>, a: set<T>, b: set<T>)
    requires a <= s && b <= s && a !! b
    ensures |a| + |b| <= |s| && (s == a + b ==> |s| == |a| + |b|)
  {
    Halves(s, a + b);
    Halves(a + b, a);
    assert a + b - a == b;
  }

  lemma Covered<T>(s: set<T>, a: set<T>, b: set<T>, c: set<T>)
    requires s <= a + b + c
    ensures |s| <= |a| + |b| + |c|
  {
    Halves(a + b + c, s);
    Halves(a + b + c, a + b);
    Halves(c, a + b + c - (a + b));
    Halves(a + b, a);
    Halves(b, a + b - a);
  }

  /** The ids the one passes are those both pass, those lost, and its own. */
  lemma MinePass(mine: map<CaseId, bool>, theirs: map<CaseId, bool>)
    ensures |BothPass(mine, theirs)| + CellOf(mine, theirs).lost <= |Passes(mine)|
  {
    Selects(mine, theirs, IsLost);
    TwoParts(Passes(mine), BothPass(mine, theirs), Selected(mine, theirs, IsLost));
  }

  /** Those the other passes are those both pass, those gained, and its own. */
  lemma TheirsPass(mine: map<CaseId, bool>, theirs: map<CaseId, bool>)
    ensures |Passes(theirs)| <= |BothPass(mine, theirs)| + CellOf(mine, theirs).gained + |theirs.Keys - mine.Keys|
  {
    var (both, gained) := (BothPass(mine, theirs), Selected(mine, theirs, IsGained));
    Selects(mine, theirs, IsGained);
    forall k | k in Passes(theirs)
      ensures k in both || k in gained || k in theirs.Keys - mine.Keys
    {
    }
    Covered(Passes(theirs), both, gained, theirs.Keys - mine.Keys);
  }

  lemma SharedHold(mine: map<CaseId, bool>, theirs: map<CaseId, bool>)
    ensures |BothPass(mine, theirs)| + CellOf(mine, theirs).gained + CellOf(mine, theirs).lost
         <= |mine.Keys * theirs.Keys|
  {
    var both := BothPass(mine, theirs);
    var (lost, gained) := (Selected(mine, theirs, IsLost), Selected(mine, theirs, IsGained));
    Selects(mine, theirs, IsLost);
    Selects(mine, theirs, IsGained);
    TwoParts(both + gained, both, gained);
    TwoParts(mine.Keys * theirs.Keys, both + gained, lost);
  }

  // ---- how far apart a significant reversed count is ----

  /** Five more on one side than on the other is not enough. */
  lemma FiveApartIsNot(g: nat, l: nat)
    requires g <= l <= g + 5
    ensures P(g, l) > ALPHA
  {
    PIsOneExactly(g, l);
    PMonotone(l, g, g + 5, g);
    FiveToNothing();
    SignScale.MorePairs(5, 0, g);
    SignScale.ChanceIsP(5, 0, g + 5, g);
  }

  lemma ShrunkSixApart(cell: Cell, deff: real)
    requires deff >= 1.0 && CellP(cell, deff) <= ALPHA && cell.gained <= cell.lost
    ensures Shrink(cell, deff).lost >= Shrink(cell, deff).gained + 6
  {
    var s := Shrink(cell, deff);
    ShrinkingKeepsTheOrder(cell, deff);
    hide Shrink, P;
    if s.lost <= s.gained + 5 {
      FiveApartIsNot(s.gained, s.lost);
    }
  }

  /** After shrinking the two counts can be nearly two further apart than before. */
  lemma ReversedByFive(cell: Cell, deff: real)
    requires deff >= 1.0 && CellP(cell, deff) <= ALPHA && cell.gained <= cell.lost
    ensures cell.lost >= cell.gained + 5 && (deff == 1.0 ==> cell.lost >= cell.gained + 6)
  {
    ShrunkSixApart(cell, deff);
    hide P, CellP;
    if deff > 1.0 {
      var (g, l) := (cell.gained as real / deff, cell.lost as real / deff);
      assert g * deff == cell.gained as real && l * deff == cell.lost as real;
      assert l - g > 4.0;
      FourTimesOver(g, l, deff);
    }
  }

  lemma FourTimesOver(g: real, l: real, deff: real)
    requires deff > 1.0 && l - g > 4.0
    ensures l * deff - g * deff > 4.0
  {
    assert (l - g) * deff > 4.0 * deff;
  }

  // ---- when an adoption can rest on more lost than gained ----

  /** With `x` shared cases both pass, `k` more passed by the incumbent alone and all the challenger's own passed. */
  predicate Reaches(shared: nat, mine: nat, theirs: nat, k: nat, x: nat, round: Rounding) {
    && x + k <= shared && shared + mine > 0 && shared + theirs > 0
    && round(PassShare(x + theirs, shared + theirs)) >= round(PassShare(k + x, shared + mine))
  }

  /** Some such count ranks the challenger no lower. */
  predicate HasRoom(ids: set<CaseId>, others: set<CaseId>, k: nat, round: Rounding) {
    exists x: nat :: x <= |ids * others| && Reaches(|ids * others|, |ids - others|, |others - ids|, k, x, round)
  }

  lemma SizesAdd<T>(a: set<T>, b: set<T>)
    ensures |a| == |a * b| + |a - b| && |b| == |a * b| + |b - a|
  {
    Halves(a, a * b);
    Halves(b, a * b);
    assert a - (a * b) == a - b && b - (a * b) == b - a;
  }

  /** An adoption passes the paired test and ranks the challenger no lower. */
  lemma AdoptedMeans(rows: seq<Row>, i: string, c: string, round: Rounding, ahead: bool)
    requires BothGates(rows, i, c, round, ahead) == Adopted
    ensures RateOf(rows, i, round) <= RateOf(rows, c, round)
    ensures CellP(HeadToHead(rows, i, c), Deff(rows, i, c)) <= ALPHA
  {
    hide RateOf, CellP, HeadToHead, Deff;
  }

  lemma RatesAre(rows: seq<Row>, name: string, ids: set<CaseId>, round: Rounding)
    requires Sat(rows, name, ids) && ids != {}
    ensures |ids| > 0 && |Passes(Verdicts(rows, name))| <= |ids|
    ensures RateOf(rows, name, round) == round(PassShare(|Passes(Verdicts(rows, name))|, |ids|))
  {
    SummaryCounts(rows, name);
    hide Verdicts, TotalRows, PassedRows, Once;
    var v := Verdicts(rows, name);
    assert |v| == |v.Keys|;
    Halves(ids, Passes(v));
    SomeMembers(ids);
  }

  lemma SomeMembers<T>(s: set<T>)
    ensures s != {} <==> |s| > 0
  {
  }

  /** An adoption on as many lost as gained or more needs room for five, or for six where nothing is shrunk. */
  lemma ReversalsNeedRoom(rows: seq<Row>, i: string, c: string, ids: set<CaseId>, others: set<CaseId>,
                          round: Rounding, ahead: bool)
    requires Nearest(round) && Sat(rows, i, ids) && Sat(rows, c, others)
    requires BothGates(rows, i, c, round, ahead) == Adopted
    requires HeadToHead(rows, i, c).gained <= HeadToHead(rows, i, c).lost
    ensures HasRoom(ids, others, 5, round)
    ensures Deff(rows, i, c) == 1.0 ==> HasRoom(ids, others, 6, round)
  {
    AdoptedMeans(rows, i, c, round, ahead);
    ReversedByFive(HeadToHead(rows, i, c), Deff(rows, i, c));
    hide BothGates, CellP, Deff, Nearest, P;
    RoomOf(rows, i, c, ids, others, round, 5);
    if Deff(rows, i, c) == 1.0 {
      RoomOf(rows, i, c, ids, others, round, 6);
    }
  }

  lemma RoomOf(rows: seq<Row>, i: string, c: string, ids: set<CaseId>, others: set<CaseId>, round: Rounding, k: nat)
    requires Nearest(round) && Sat(rows, i, ids) && Sat(rows, c, others) && k > 0
    requires RateOf(rows, i, round) <= RateOf(rows, c, round)
    requires HeadToHead(rows, i, c).lost >= HeadToHead(rows, i, c).gained + k
    ensures HasRoom(ids, others, k, round)
  {
    var (mine, theirs) := (Verdicts(rows, i), Verdicts(rows, c));
    var (both, cell) := (|BothPass(mine, theirs)|, CellOf(mine, theirs));
    MinePass(mine, theirs);
    TheirsPass(mine, theirs);
    SharedHold(mine, theirs);
    SizesAdd(ids, others);
    SomeMembers(ids);
    SomeMembers(others);
    RatesAre(rows, i, ids, round);
    RatesAre(rows, c, others, round);
    hide Verdicts, Once, RateOf, Nearest, CellOf, BothPass, Passes;
    var x := both + cell.gained;
    SharesInOrder(k + x, |Passes(mine)|, |ids|, round);
    SharesInOrder(|Passes(theirs)|, x + |others - ids|, |others|, round);
    assert Reaches(|ids * others|, |ids - others|, |others - ids|, k, x, round);
  }

  // ---- rows with given ids and answers ----

  /** One row for each id, passed if it is among `passing`. */
  function RowsFor(name: string, ids: seq<CaseId>, passing: set<CaseId>): (rows: seq<Row>)
    ensures |rows| == |ids|
    ensures forall j :: 0 <= j < |ids| ==> rows[j] == Row(name, ids[j], ids[j] in passing)
  {
    if ids == [] then []
    else var n := |ids| - 1; RowsFor(name, ids[..n], passing) + [Row(name, ids[n], ids[n] in passing)]
  }

  function Answered(ids: set<CaseId>, passing: set<CaseId>): map<CaseId, bool> { map k | k in ids :: k in passing }

  function Members(ids: seq<CaseId>): set<CaseId> { set k | k in ids }

  lemma OneIdMore(ids: seq<CaseId>, passing: set<CaseId>)
    requires ids != []
    ensures var n := |ids| - 1;
            Answered(Members(ids), passing) == Answered(Members(ids[..n]), passing)[ids[n] := ids[n] in passing]
  {
    var n := |ids| - 1;
    assert Members(ids) == Members(ids[..n]) + {ids[n]} by {
      assert forall k :: k in ids <==> k in ids[..n] || k == ids[n];
    }
    hide Members;
  }

  lemma OneRowMore(name: string, ids: seq<CaseId>, passing: set<CaseId>)
    requires ids != []
    ensures var n := |ids| - 1;
            RowsFor(name, ids, passing) == RowsFor(name, ids[..n], passing) + [Row(name, ids[n], ids[n] in passing)]
  {
  }

  lemma MergeThenSet(v: map<CaseId, bool>, a: map<CaseId, bool>, k: CaseId, b: bool)
    ensures v + a[k := b] == (v + a)[k := b]
  {
  }

  lemma {:induction false} RowsForAre(rows: seq<Row>, name: string, ids: seq<CaseId>, passing: set<CaseId>)
    ensures Verdicts(rows + RowsFor(name, ids, passing), name)
         == Verdicts(rows, name) + Answered(Members(ids), passing)
  {
    if ids == [] {
      assert rows + RowsFor(name, ids, passing) == rows;
      assert Answered(Members(ids), passing) == map[];
    } else {
      var n := |ids| - 1;
      var (row, before) := (Row(name, ids[n], ids[n] in passing), RowsFor(name, ids[..n], passing));
      RowsForAre(rows, name, ids[..n], passing);
      OneRowMore(name, ids, passing);
      OneIdMore(ids, passing);
      NextVerdict(rows + before, row, name);
      MergeThenSet(Verdicts(rows, name), Answered(Members(ids[..n]), passing), ids[n], ids[n] in passing);
      hide *;
      assert rows + RowsFor(name, ids, passing) == (rows + before) + [row];
    }
  }

  /** The rows of two candidates, one after the other. */
  function Pair(i: string, c: string, xs: seq<CaseId>, ys: seq<CaseId>, mine: set<CaseId>, theirs: set<CaseId>)
    : seq<Row>
  {
    RowsFor(i, xs, mine) + RowsFor(c, ys, theirs)
  }

  lemma MergeNothing(a: map<CaseId, bool>)
    ensures map[] + a == a
  {
  }

  lemma AloneIs(name: string, ids: seq<CaseId>, passing: set<CaseId>)
    ensures Verdicts(RowsFor(name, ids, passing), name) == Answered(Members(ids), passing)
  {
    hide *;
    EmptyVerdicts(name);
    RowsForAre([], name, ids, passing);
    MergeNothing(Answered(Members(ids), passing));
    assert [] + RowsFor(name, ids, passing) == RowsFor(name, ids, passing);
  }

  /** One candidate's rows say nothing of another. */
  lemma OthersSay(rows: seq<Row>, name: string, other: string, ids: seq<CaseId>, passing: set<CaseId>)
    requires name != other
    ensures Verdicts(rows + RowsFor(other, ids, passing), name) == Verdicts(rows, name)
  {
    var more := RowsFor(other, ids, passing);
    assert forall row <- more :: row.candidate == other;
    OthersRows(rows, more, name, "");
    hide *;
  }

  lemma NothingOf(name: string, other: string, ids: seq<CaseId>, passing: set<CaseId>)
    requires name != other
    ensures Verdicts(RowsFor(other, ids, passing), name) == map[]
  {
    hide *;
    OthersSay([], name, other, ids, passing);
    EmptyVerdicts(name);
    assert [] + RowsFor(other, ids, passing) == RowsFor(other, ids, passing);
  }

  lemma PairVerdicts(i: string, c: string, xs: seq<CaseId>, ys: seq<CaseId>, mine: set<CaseId>, theirs: set<CaseId>)
    requires i != c
    ensures Verdicts(Pair(i, c, xs, ys, mine, theirs), i) == Answered(Members(xs), mine)
    ensures Verdicts(Pair(i, c, xs, ys, mine, theirs), c) == Answered(Members(ys), theirs)
  {
    hide Verdicts, RowsFor, Answered, Members;
    var first := RowsFor(i, xs, mine);
    AloneIs(i, xs, mine);
    OthersSay(first, i, c, ys, theirs);
    NothingOf(c, i, xs, mine);
    RowsForAre(first, c, ys, theirs);
    MergeNothing(Answered(Members(ys), theirs));
  }

  lemma KeysAnswered(ids: set<CaseId>, passing: set<CaseId>)
    ensures Answered(ids, passing).Keys == ids
  {
  }

  lemma PairIs(i: string, c: string, xs: seq<CaseId>, ys: seq<CaseId>, mine: set<CaseId>, theirs: set<CaseId>)
    requires i != c && Distinct(xs) && Distinct(ys)
    ensures var rows := Pair(i, c, xs, ys, mine, theirs);
            && Sat(rows, i, Members(xs)) && Sat(rows, c, Members(ys))
            && Verdicts(rows, i) == Answered(Members(xs), mine) && Verdicts(rows, c) == Answered(Members(ys), theirs)
  {
    PairVerdicts(i, c, xs, ys, mine, theirs);
    PairOnce(i, c, xs, ys, mine, theirs);
    KeysAnswered(Members(xs), mine);
    KeysAnswered(Members(ys), theirs);
    hide Verdicts, Pair, Answered, Members, Once;
  }

  lemma EmptyVerdicts(name: string)
    ensures Verdicts([], name) == map[]
  {
  }

  lemma PairOnce(i: string, c: string, xs: seq<CaseId>, ys: seq<CaseId>, mine: set<CaseId>, theirs: set<CaseId>)
    requires i != c && Distinct(xs) && Distinct(ys)
    ensures Once(Pair(i, c, xs, ys, mine, theirs), i) && Once(Pair(i, c, xs, ys, mine, theirs), c)
  {
    hide RowsFor;
  }

  // ---- six lost and none gained, the challenger ranked no lower ----

  /** What the incumbent passes and what the challenger passes. */
  predicate SixLost(ids: set<CaseId>, others: set<CaseId>, lost: set<CaseId>, both: set<CaseId>) {
    lost <= ids * others && both <= ids * others && lost !! both && |lost| == 6
  }

  lemma SixLostCell(ids: set<CaseId>, others: set<CaseId>, lost: set<CaseId>, both: set<CaseId>)
    requires SixLost(ids, others, lost, both)
    ensures var cell := CellOf(Answered(ids, lost + both), Answered(others, both + (others - ids)));
            cell.lost == 6 && cell.gained == 0
    ensures Passes(Answered(ids, lost + both)) == lost + both
    ensures Passes(Answered(others, both + (others - ids))) == both + (others - ids)
  {
    var (mine, theirs) := (Answered(ids, lost + both), Answered(others, both + (others - ids)));
    Selects(mine, theirs, IsLost);
    Selects(mine, theirs, IsGained);
    assert Selected(mine, theirs, IsLost) == lost;
    assert Selected(mine, theirs, IsGained) == {};
  }

  /** The numbers those ids are passed in. */
  lemma SixLostRates(rows: seq<Row>, i: string, c: string, ids: set<CaseId>, others: set<CaseId>, lost: set<CaseId>,
                     both: set<CaseId>, round: Rounding)
    requires SixLost(ids, others, lost, both) && Sat(rows, i, ids) && Sat(rows, c, others)
    requires Passes(Verdicts(rows, i)) == lost + both && Passes(Verdicts(rows, c)) == both + (others - ids)
    requires Reaches(|ids * others|, |ids - others|, |others - ids|, 6, |both|, round)
    ensures RateOf(rows, i, round) <= RateOf(rows, c, round)
    ensures |ids| > 0 && RateOf(rows, i, round) == round(PassShare(6 + |both|, |ids|))
    ensures |others| > 0 && RateOf(rows, c, round) == round(PassShare(|both| + |others - ids|, |others|))
  {
    SizesAdd(ids, others);
    SomeMembers(ids);
    SomeMembers(others);
    hide Verdicts, Passes, Sat, RateOf;
    RatesAre(rows, i, ids, round);
    RatesAre(rows, c, others, round);
    TwoParts(lost + both, lost, both);
    TwoParts(both + (others - ids), both, others - ids);
  }

  lemma UnshrunkPair(rows: seq<Row>, i: string, c: string, ids: set<CaseId>, others: set<CaseId>)
    requires Sat(rows, i, ids) && Sat(rows, c, others) && Unrepeated(ids) && Unrepeated(others)
    ensures Deff(rows, i, c) == 1.0
  {
    UnrepeatedIsDrawnOnce(rows, i, ids);
    UnrepeatedIsDrawnOnce(rows, c, others);
    OnceIsNotShrunk(rows, i, c);
    hide *;
  }

  lemma SixLostIsAdopted(i: string, c: string, xs: seq<CaseId>, ys: seq<CaseId>, lost: set<CaseId>, both: set<CaseId>,
                         round: Rounding)
    requires i != c && Distinct(xs) && Distinct(ys) && Unrepeated(Members(xs)) && Unrepeated(Members(ys))
    requires SixLost(Members(xs), Members(ys), lost, both)
    requires var (ids, others) := (Members(xs), Members(ys));
             Reaches(|ids * others|, |ids - others|, |others - ids|, 6, |both|, round)
    ensures var rows := Pair(i, c, xs, ys, lost + both, both + (Members(ys) - Members(xs)));
            && Sat(rows, i, Members(xs)) && Sat(rows, c, Members(ys))
            && BothGates(rows, i, c, round, true) == Adopted
            && HeadToHead(rows, i, c).lost == 6 && HeadToHead(rows, i, c).gained == 0
            && (var (ids, others) := (Members(xs), Members(ys));
                && |ids| > 0 && RateOf(rows, i, round) == round(PassShare(6 + |both|, |ids|))
                && |others| > 0 && RateOf(rows, c, round) == round(PassShare(|both| + |others - ids|, |others|)))
  {
    hide *;
    var (ids, others) := (Members(xs), Members(ys));
    var rows := Pair(i, c, xs, ys, lost + both, both + (others - ids));
    PairIs(i, c, xs, ys, lost + both, both + (others - ids));
    SixLostCell(ids, others, lost, both);
    SixLostRates(rows, i, c, ids, others, lost, both, round);
    UnshrunkPair(rows, i, c, ids, others);
    HeadToHeadIs(rows, i, c);
    SixIsSignificant();
    NoRowsNoCell(i, c);
    AdoptedAt(rows, i, c, round);
  }

  lemma SixIsSignificant()
    ensures P(0, 6) <= ALPHA
  {
    SixToNothing();
    hide P;
  }

  lemma NoRowsNoCell(i: string, c: string)
    ensures HeadToHead([], i, c).lost == 0
  {
    var none: map<CaseId, bool> := map[];
    Selects(none, none, IsLost);
    assert Selected(none, none, IsLost) == {};
  }

  lemma AdoptedAt(rows: seq<Row>, i: string, c: string, round: Rounding)
    requires RateOf(rows, i, round) <= RateOf(rows, c, round) && Deff(rows, i, c) == 1.0
    requires HeadToHead([], i, c).lost == 0
    requires HeadToHead(rows, i, c).lost == 6 && HeadToHead(rows, i, c).gained == 0 && P(0, 6) <= ALPHA
    ensures BothGates(rows, i, c, round, true) == Adopted
  {
    hide RateOf, Deff, P, HeadToHead;
  }

  // ---- exactly when no adoption rests on a reversed count ----

  /** Whatever is answered, every adoption over these ids rests on more gained than lost. */
  ghost predicate NeverReverses(ids: set<CaseId>, others: set<CaseId>, round: Rounding) {
    forall rows, i, c, ahead ::
      Sat(rows, i, ids) && Sat(rows, c, others) && BothGates(rows, i, c, round, ahead) == Adopted
      ==> HeadToHead(rows, i, c).gained > HeadToHead(rows, i, c).lost
  }

  /** Where no case is repeated, that is so exactly when the ids leave no room for six lost to none. */
  lemma NeverReversesExactly(ids: set<CaseId>, others: set<CaseId>, round: Rounding)
    requires Nearest(round) && Unrepeated(ids) && Unrepeated(others)
    ensures NeverReverses(ids, others, round) <==> !HasRoom(ids, others, 6, round)
  {
    hide Sat, BothGates, HeadToHead, Unrepeated, Nearest, Deff;
    if HasRoom(ids, others, 6, round) {
      var rows, i, c := ReversedOver(ids, others, round);
    } else {
      forall rows, i, c, ahead |
        Sat(rows, i, ids) && Sat(rows, c, others) && BothGates(rows, i, c, round, ahead) == Adopted
        ensures HeadToHead(rows, i, c).gained > HeadToHead(rows, i, c).lost
      {
        UnshrunkPair(rows, i, c, ids, others);
        if HeadToHead(rows, i, c).gained <= HeadToHead(rows, i, c).lost {
          ReversalsNeedRoom(rows, i, c, ids, others, round, ahead);
          assert false;
        }
      }
    }
  }

  lemma ReversedOver(ids: set<CaseId>, others: set<CaseId>, round: Rounding)
    returns (rows: seq<Row>, i: string, c: string)
    requires Unrepeated(ids) && Unrepeated(others) && HasRoom(ids, others, 6, round)
    ensures Sat(rows, i, ids) && Sat(rows, c, others) && BothGates(rows, i, c, round, true) == Adopted
    ensures HeadToHead(rows, i, c).lost == 6 && HeadToHead(rows, i, c).gained == 0
  {
    var x: nat :| x <= |ids * others| && Reaches(|ids * others|, |ids - others|, |others - ids|, 6, x, round);
    var lost := SubsetOfSize(ids * others, 6);
    Halves(ids * others, lost);
    var both := SubsetOfSize(ids * others - lost, x);
    var xs := Listed(ids);
    var ys := Listed(others);
    assert Members(xs) == ids && Members(ys) == others;
    i, c := "i", "c";
    assert "i"[0] != "c"[0];
    hide Unrepeated, Reaches, Sat, BothGates, HeadToHead, Pair, HasRoom, Members;
    SixLostIsAdopted(i, c, xs, ys, lost, both, round);
    rows := Pair(i, c, xs, ys, lost + both, both + (others - ids));
  }

  /** Over the same ids, repeated or not, six lost to none cannot tie in thousandths below 6000, nor five below 5000. */
  lemma NoRoomUnder(n: nat, k: nat, x: nat, round: Rounding)
    requires Nearest(round) && 0 < n < 1000 * k
    ensures !Reaches(n, 0, 0, k, x, round)
  {
    var (a, b) := (PassShare(x, n), PassShare(k + x, n));
    assert IsNearest(a, round(a)) && IsNearest(b, round(b));
    assert a * n as real == x as real && b * n as real == (k + x) as real;
    assert (b - a) * n as real == k as real;
    FarApart(b - a, n as real, k as real);
  }

  lemma FarApart(gap: real, n: real, k: real)
    requires gap * n == k && 0.0 < n < 1000.0 * k
    ensures 1000.0 * gap > 1.0
  {
    assert 1000.0 * (gap * n) == (1000.0 * gap) * n;
    MulIsMonotone(1000.0 * gap, 1.0, n);
  }

  lemma FewerPassesLowerTheRate(p: nat, q: nat, n: nat, round: Rounding)
    requires Nearest(round) && p < q && 0 < n < 1000
    ensures round(PassShare(p, n)) < round(PassShare(q, n))
  {
    var (a, b) := (PassShare(p, n), PassShare(q, n));
    assert IsNearest(a, round(a)) && IsNearest(b, round(b));
    assert a * n as real == p as real && b * n as real == q as real;
    assert (b - a) * n as real == (q - p) as real;
    FarApart(b - a, n as real, (q - p) as real);
  }

  /**
   * Where both sat the same cases, fewer than a thousand of them, the metric gate asks for more passes, and what comes
   * after the rate decides exactly where there are as many.
   */
  lemma RanksByPasses(rows: seq<Row>, i: string, c: string, ids: set<CaseId>, round: Rounding, ahead: bool)
    requires Nearest(round) && Sat(rows, i, ids) && Sat(rows, c, ids) && 0 < |ids| < 1000
    ensures var (mine, theirs) := (|Passes(Verdicts(rows, i))|, |Passes(Verdicts(rows, c))|);
            Better(rows, i, c, round, ahead) <==> theirs > mine || (theirs == mine && ahead)
  {
    RatesAre(rows, i, ids, round);
    RatesAre(rows, c, ids, round);
    hide Sat, RateOf, Nearest, PassShare, Passes, Verdicts;
    var (mine, theirs) := (|Passes(Verdicts(rows, i))|, |Passes(Verdicts(rows, c))|);
    if mine < theirs {
      FewerPassesLowerTheRate(mine, theirs, |ids|, round);
    } else if theirs < mine {
      FewerPassesLowerTheRate(theirs, mine, |ids|, round);
    }
  }

  /** So over the same ids, however repeated, no adoption under 5000 of them rests on a reversed count. */
  lemma SameIdsNeverReverse(rows: seq<Row>, i: string, c: string, ids: set<CaseId>, round: Rounding, ahead: bool)
    requires Nearest(round) && Sat(rows, i, ids) && Sat(rows, c, ids) && |ids| < 5000
    requires BothGates(rows, i, c, round, ahead) == Adopted
    ensures HeadToHead(rows, i, c).gained > HeadToHead(rows, i, c).lost
  {
    hide Sat, BothGates, HeadToHead, Nearest, Deff, Reaches;
    if HeadToHead(rows, i, c).gained <= HeadToHead(rows, i, c).lost {
      ReversalsNeedRoom(rows, i, c, ids, ids, round, ahead);
      NoRoomOverSame(ids, 5, round);
      assert false;
    }
  }

  lemma NoRoomOverSame(ids: set<CaseId>, k: nat, round: Rounding)
    requires Nearest(round) && |ids| < 1000 * k
    ensures !HasRoom(ids, ids, k, round)
  {
    assert ids * ids == ids && ids - ids == {};
    hide Nearest, IsNearest;
    forall x: nat
      ensures !Reaches(|ids|, 0, 0, k, x, round)
    {
      if |ids| > 0 {
        NoRoomUnder(|ids|, k, x, round);
      }
    }
  }

  lemma InTheFirstCell(a: real, y: real, m: real)
    requires a * m == y && m > 0.0 && m < 2000.0 * y < 3.0 * m
    ensures 0.5 < 1000.0 * a < 1.5
  {
    assert (1000.0 * a) * m == 1000.0 * (a * m);
    MulIsMonotone(1000.0 * a, 0.5, m);
    MulIsMonotone(1.5, 1000.0 * a, m);
  }

  lemma RoundsToOne(x: nat, n: nat, round: Rounding)
    requires Nearest(round) && n < 2000 * x < 3 * n
    ensures round(PassShare(x, n)) == 1
  {
    var a := PassShare(x, n);
    assert IsNearest(a, round(a));
    assert a * n as real == x as real;
    assert (2000 * x) as real == 2000.0 * x as real && (3 * n) as real == 3.0 * n as real;
    InTheFirstCell(a, x as real, n as real);
  }

  lemma TiedReaches(n: nat, x: nat, round: Rounding)
    requires 0 < n && 6 + x <= n && round(PassShare(6 + x, n)) == round(PassShare(x, n))
    ensures Reaches(n, 0, 0, 6, x, round)
  {
    hide PassShare;
  }

  lemma RoomAt(ids: set<CaseId>, x: nat, round: Rounding)
    requires Reaches(|ids|, 0, 0, 6, x, round)
    ensures HasRoom(ids, ids, 6, round)
  {
    assert ids * ids == ids && ids - ids == {};
    assert Reaches(|ids * ids|, |ids - ids|, |ids - ids|, 6, x, round);
  }

  /** Over more than 7000 of the same ids two rates six apart can round to one, whichever way ties go. */
  lemma RoomOverSame(ids: set<CaseId>, round: Rounding)
    requires Nearest(round) && |ids| > 7000
    ensures HasRoom(ids, ids, 6, round)
  {
    var n := |ids|;
    var x := n / 2000 + 1;
    assert n < 2000 * x <= n + 2000;
    RoundsToOne(x, n, round);
    RoundsToOne(6 + x, n, round);
    hide *;
    TiedReaches(n, x, round);
    RoomAt(ids, x, round);
  }

  /** Unrepeated, over the same ids: never under 6000 of them, and sometimes over more than 7000. */
  lemma SameIdsBounds(ids: set<CaseId>, round: Rounding)
    requires Nearest(round) && Unrepeated(ids)
    ensures |ids| < 6000 ==> NeverReverses(ids, ids, round)
    ensures |ids| > 7000 ==> !NeverReverses(ids, ids, round)
  {
    NeverReversesExactly(ids, ids, round);
    hide Unrepeated, NeverReverses, HasRoom, Nearest;
    if |ids| < 6000 {
      NoRoomOverSame(ids, 6, round);
    } else if |ids| > 7000 {
      RoomOverSame(ids, round);
    }
  }

  // ---- the input that fails: six shared cases, fourteen more for the one and ten more for the other ----

  /** Cases with different names. */
  function CaseAt(k: nat): CaseId { CaseId(seq(k, _ => '1'), 0) }

  function CaseList(low: nat, n: nat): (ids: seq<CaseId>)
    ensures |ids| == n && forall j :: 0 <= j < n ==> ids[j] == CaseAt(low + j)
  {
    seq(n, j requires 0 <= j < n => CaseAt(low + j))
  }

  lemma CasesDiffer(j: nat, k: nat)
    requires CaseAt(j).base == CaseAt(k).base
    ensures j == k
  {
    assert |CaseAt(j).base| == j && |CaseAt(k).base| == k;
  }

  /** Six cases passed by the incumbent alone and ten of its own by the challenger; both fail the rest. */
  function ReversedRows(): seq<Row> {
    Pair("i", "c", CaseList(0, 20), CaseList(0, 6) + CaseList(20, 10), Members(CaseList(0, 6)),
         Members(CaseList(20, 10)))
  }

  lemma ListsAreCases(low: nat, n: nat)
    ensures forall j: nat :: CaseAt(j) in CaseList(low, n) <==> low <= j < low + n
    ensures forall id <- CaseList(low, n) :: exists j: nat :: low <= j < low + n && id == CaseAt(j)
    ensures Distinct(CaseList(low, n))
  {
    var ids := CaseList(low, n);
    hide CaseAt, CaseList;
    forall j: nat
      ensures CaseAt(j) in ids <==> low <= j < low + n
    {
      if low <= j < low + n {
        assert ids[j - low] == CaseAt(j);
      }
      if CaseAt(j) in ids {
        var k :| 0 <= k < n && ids[k] == CaseAt(j);
        CasesDiffer(j, low + k);
      }
    }
    forall a, b | 0 <= a < b < n
      ensures ids[a] != ids[b]
    {
      if ids[a] == ids[b] {
        CasesDiffer(low + a, low + b);
      }
    }
  }

  lemma MembersCount(ids: seq<CaseId>)
    requires Distinct(ids)
    ensures |Members(ids)| == |ids|
  {
    if ids == [] {
      assert Members(ids) == {};
    } else {
      var n := |ids| - 1;
      MembersCount(ids[..n]);
      assert Members(ids) == Members(ids[..n]) + {ids[n]} by {
        assert forall k :: k in ids <==> k in ids[..n] || k == ids[n];
      }
      assert ids[n] !in Members(ids[..n]);
    }
  }

  function Range(low: nat, n: nat): set<CaseId> { Members(CaseList(low, n)) }

  lemma RangeIs(low: nat, n: nat)
    ensures |Range(low, n)| == n
    ensures forall j: nat :: CaseAt(j) in Range(low, n) <==> low <= j < low + n
    ensures forall id <- Range(low, n) :: exists j: nat :: low <= j < low + n && id == CaseAt(j)
  {
    ListsAreCases(low, n);
    MembersCount(CaseList(low, n));
    hide CaseAt, CaseList;
  }

  lemma RangesMeet(a: nat, n: nat, b: nat, m: nat)
    requires a + n <= b
    ensures Range(a, n) !! Range(b, m)
  {
    RangeIs(a, n);
    RangeIs(b, m);
    hide Range, CaseAt;
  }

  lemma RangesJoin(a: nat, n: nat, m: nat)
    ensures Range(a, n + m) == Range(a, n) + Range(a + n, m)
  {
    hide CaseAt;
    assert CaseList(a, n + m) == CaseList(a, n) + CaseList(a + n, m);
    JoinedIds(CaseList(a, n), CaseList(a + n, m));
    hide *;
  }

  /** What the two sat: six shared, fourteen and ten not. */
  lemma ReversedIds()
    ensures var (ids, others) := (Members(CaseList(0, 20)), Members(CaseList(0, 6) + CaseList(20, 10)));
            && ids * others == Range(0, 6) && ids - others == Range(6, 14) && others - ids == Range(20, 10)
    ensures Distinct(CaseList(0, 20)) && Distinct(CaseList(0, 6) + CaseList(20, 10))
  {
    ListsAreCases(0, 20);
    ListsAreCases(0, 6);
    ListsAreCases(20, 10);
    RangesMeet(0, 20, 20, 10);
    RangesMeet(0, 6, 6, 14);
    RangesMeet(0, 6, 20, 10);
    RangesMeet(6, 14, 20, 10);
    RangesJoin(0, 6, 14);
    JoinedIds(CaseList(0, 6), CaseList(20, 10));
    hide CaseAt, CaseList, Members;
  }

  lemma JoinedIds(xs: seq<CaseId>, ys: seq<CaseId>)
    ensures Members(xs + ys) == Members(xs) + Members(ys)
    ensures Distinct(xs) && Distinct(ys) && Members(xs) !! Members(ys) ==> Distinct(xs + ys)
  {
    if Distinct(xs) && Distinct(ys) && Members(xs) !! Members(ys) {
      forall a, b | 0 <= a < b < |xs + ys|
        ensures (xs + ys)[a] != (xs + ys)[b]
      {
        if a < |xs| <= b {
          assert xs[a] in Members(xs) && ys[b - |xs|] in Members(ys);
        }
      }
    }
  }

  ghost predicate AreCases(ids: set<CaseId>) { forall id <- ids :: IsCase(id) }

  ghost predicate IsCase(id: CaseId) { exists j: nat :: id == CaseAt(j) }

  lemma CasesAreUnrepeated(ids: set<CaseId>)
    requires AreCases(ids)
    ensures Unrepeated(ids)
  {
    forall a, b | a in ids && b in ids && a.base == b.base
      ensures a == b
    {
      assert IsCase(a) && IsCase(b);
      var j: nat :| a == CaseAt(j);
      var k: nat :| b == CaseAt(k);
      CasesDiffer(j, k);
    }
  }

  lemma RangeAreCases(low: nat, n: nat)
    ensures AreCases(Range(low, n))
  {
    RangeIs(low, n);
    hide Range, CaseAt;
  }

  lemma ReversedSizes()
    ensures var (ids, others) := (Members(CaseList(0, 20)), Members(CaseList(0, 6) + CaseList(20, 10)));
            && |ids| == 20 && |others| == 16 && Unrepeated(ids) && Unrepeated(others)
  {
    RangeIs(0, 20);
    RangeIs(0, 6);
    RangeIs(20, 10);
    RangeAreCases(0, 20);
    RangeAreCases(0, 6);
    RangeAreCases(20, 10);
    JoinedIds(CaseList(0, 6), CaseList(20, 10));
    RangesMeet(0, 6, 20, 10);
    assert Members(CaseList(0, 20)) == Range(0, 20);
    assert Members(CaseList(0, 6) + CaseList(20, 10)) == Range(0, 6) + Range(20, 10);
    hide CaseAt, CaseList, Members, Range, Unrepeated, IsCase;
    TwoParts(Range(0, 6) + Range(20, 10), Range(0, 6), Range(20, 10));
    CasesAreUnrepeated(Range(0, 20));
    CasesAreUnrepeated(Range(0, 6) + Range(20, 10));
  }

  lemma RoundedShare(x: nat, n: nat, m: int, round: Rounding)
    requires Nearest(round) && n > 0 && 1000 * x == m * n
    ensures round(PassShare(x, n)) == m
  {
    var a := PassShare(x, n);
    assert IsNearest(a, round(a));
    assert a * n as real == x as real;
    assert (1000 * x) as real == 1000.0 * x as real && (m * n) as real == m as real * n as real;
    assert (1000.0 * a) * n as real == 1000.0 * (a * n as real);
    MulIsMonotone(1000.0 * a, m as real, n as real);
    MulIsMonotone(m as real, 1000.0 * a, n as real);
  }

  /**
   * Where the two sat different cases an adoption can rest on a reversed count: 0.3 against 0.625 passed, and of the
   * six cases both sat none gained and all six lost.
   */
  lemma ReversedRowsAreAdopted(round: Rounding, ahead: bool)
    requires Nearest(round)
    ensures var rows := ReversedRows();
            && RateOf(rows, "i", round) == 300 && RateOf(rows, "c", round) == 625
            && BothGates(rows, "i", "c", round, ahead) == Adopted
            && HeadToHead(rows, "i", "c").lost == 6 && HeadToHead(rows, "i", "c").gained == 0
  {
    hide *;
    TwoNames();
    ReversedIds();
    ReversedSizes();
    RangeIs(0, 6);
    RangeIs(6, 14);
    RangeIs(20, 10);
    RoundedShare(6, 20, 300, round);
    RoundedShare(10, 16, 625, round);
    ReversedPair();
    ReversedReach(round);
    SixLostIsAdopted("i", "c", CaseList(0, 20), CaseList(0, 6) + CaseList(20, 10), Range(0, 6), {}, round);
    StrictlyBetter(ReversedRows(), "i", "c", round, ahead);
  }

  lemma ReversedPair()
    ensures var (xs, ys) := (CaseList(0, 20), CaseList(0, 6) + CaseList(20, 10));
            && SixLost(Members(xs), Members(ys), Range(0, 6), {})
            && ReversedRows() == Pair("i", "c", xs, ys, Range(0, 6) + {}, {} + (Members(ys) - Members(xs)))
  {
    ReversedIds();
    RangeIs(0, 6);
    ReversedRowsIs();
    hide CaseList, Members, Range, Pair, ReversedRows;
    NothingMore(Range(0, 6));
    NothingMore(Range(20, 10));
  }

  lemma ReversedRowsIs()
    ensures ReversedRows()
         == Pair("i", "c", CaseList(0, 20), CaseList(0, 6) + CaseList(20, 10), Range(0, 6), Range(20, 10))
  {
    hide Pair, Members, CaseList;
  }

  lemma NothingMore<T>(s: set<T>)
    ensures s + {} == s && {} + s == s
  {
  }

  lemma TwoNames()
    ensures "i" != "c"
  {
    assert "i"[0] != "c"[0];
  }

  lemma ReversedReach(round: Rounding)
    requires round(PassShare(6, 20)) == 300 && round(PassShare(10, 16)) == 625
    ensures Reaches(6, 14, 10, 6, 0, round)
  {
  }

  lemma StrictlyBetter(rows: seq<Row>, i: string, c: string, round: Rounding, ahead: bool)
    requires RateOf(rows, i, round) < RateOf(rows, c, round)
    ensures BothGates(rows, i, c, round, ahead) == BothGates(rows, i, c, round, true)
  {
    hide RateOf;
  }

  // ---- turned losses and repeated draws move the rates as they should ----

  lemma {:induction false} TurnedPasses(rows: seq<Row>, i: string, c: string, ids: set<CaseId>)
    requires i != c
    ensures var out := FlippedRows(rows, i, c, ids);
            && TotalRows(out, i) == TotalRows(rows, i) && TotalRows(out, c) == TotalRows(rows, c)
            && PassedRows(out, i) <= PassedRows(rows, i) && PassedRows(out, c) >= PassedRows(rows, c)
  {
    if rows != [] {
      var n := |rows| - 1;
      TurnedPasses(rows[..n], i, c, ids);
      var out := FlippedRows(rows, i, c, ids);
      assert out[..n] == FlippedRows(rows[..n], i, c, ids);
    }
  }

  /** Turning lost cells into gained ones never takes the metric gate's answer back. */
  lemma TurningKeepsTheMetricGate(rows: seq<Row>, i: string, c: string, ids: set<CaseId>, round: Rounding, ahead: bool)
    requires Nearest(round) && i != c && Better(rows, i, c, round, ahead)
    ensures Better(FlippedRows(rows, i, c, ids), i, c, round, ahead)
  {
    TurnedPasses(rows, i, c, ids);
    var out := FlippedRows(rows, i, c, ids);
    hide Nearest, TotalRows, PassedRows, FlippedRows, PassShare;
    if TotalRows(rows, i) > 0 {
      SharesInOrder(PassedRows(out, i), PassedRows(rows, i), TotalRows(rows, i), round);
    }
    if TotalRows(rows, c) > 0 {
      SharesInOrder(PassedRows(rows, c), PassedRows(out, c), TotalRows(rows, c), round);
    }
  }

  /** The candidate's rows of these cases. */
  function RowsIn(rows: seq<Row>, name: string, bases: set<string>): nat {
    if rows == [] then 0
    else
      var n := |rows| - 1;
      RowsIn(rows[..n], name, bases) + (if rows[n].candidate == name && rows[n].id.base in bases then 1 else 0)
  }

  lemma {:induction false} OneCaseMore(rows: seq<Row>, name: string, bases: set<string>, b: string)
    requires b !in bases
    ensures RowsIn(rows, name, bases + {b}) == RowsIn(rows, name, bases) + Count(rows, name, b)
  {
    if rows != [] {
      OneCaseMore(rows[..|rows| - 1], name, bases, b);
    }
  }

  lemma {:induction false} NoCases(rows: seq<Row>, name: string)
    ensures RowsIn(rows, name, {}) == 0
  {
    if rows != [] {
      NoCases(rows[..|rows| - 1], name);
    }
  }

  lemma {:induction false} DrawsOfCases(rows: seq<Row>, name: string, bases: set<string>, r: nat)
    requires forall b <- bases :: Count(rows, name, b) == r
    ensures RowsIn(rows, name, bases) == |bases| * r
    decreases bases
  {
    if bases == {} {
      NoCases(rows, name);
    } else {
      var b := Pick(bases);
      DrawsOfCases(rows, name, bases - {b}, r);
      OneCaseMore(rows, name, bases - {b}, b);
      assert bases - {b} + {b} == bases;
      Distribute(|bases| - 1, 1, r);
    }
  }

  function Passing(answers: map<string, bool>): set<string> { set b | b in answers && answers[b] }

  lemma {:induction false} AnsweredRows(rows: seq<Row>, name: string, answers: map<string, bool>)
    requires Consistent(rows, name, answers)
    ensures TotalRows(rows, name) == RowsIn(rows, name, answers.Keys)
    ensures PassedRows(rows, name) == RowsIn(rows, name, Passing(answers))
  {
    if rows != [] {
      AnsweredRows(rows[..|rows| - 1], name, answers);
    }
  }

  lemma SharesScale(p: nat, n: nat, r: nat)
    requires n > 0 && r > 0
    ensures n * r > 0 && PassShare(p * r, n * r) == PassShare(p, n)
  {
    assert n * r > 0 by {
      MulPositive(n, 0, r);
    }
    Products(p, r);
    Products(n, r);
    SignScale.Quotient(p as real * r as real, PassShare(p, n), n as real * r as real);
  }

  function RateOfAnswers(answers: map<string, bool>, round: Rounding): int {
    if |answers.Keys| == 0 then 0 else round(PassShare(|Passing(answers)|, |answers.Keys|))
  }

  /** Equal draws leave the pass rate where one draw has it. */
  lemma RepeatsKeepTheRate(rows: seq<Row>, name: string, answers: map<string, bool>, r: nat, round: Rounding)
    requires r > 0 && Drawn(rows, name, answers, r)
    ensures RateOf(rows, name, round) == RateOfAnswers(answers, round)
  {
    AnsweredRows(rows, name, answers);
    DrawsOfCases(rows, name, answers.Keys, r);
    DrawsOfCases(rows, name, Passing(answers), r);
    hide Verdicts, Consistent, PassShare, Count;
    if |answers.Keys| > 0 {
      SharesScale(|Passing(answers)|, |answers.Keys|, r);
    }
  }

  /** So both gates, and the verdict, are those of a single draw. */
  lemma RepeatsKeepTheVerdict(rows: seq<Row>, once: seq<Row>, i: string, c: string, mine: map<string, bool>,
                              theirs: map<string, bool>, r: nat, round: Rounding, ahead: bool, plan: Option<bool>)
    requires r > 0 && rows != [] && once != []
    requires Drawn(rows, i, mine, r) && Drawn(rows, c, theirs, r)
    requires Drawn(once, i, mine, 1) && Drawn(once, c, theirs, 1)
    ensures Better(rows, i, c, round, ahead) == Better(once, i, c, round, ahead)
    ensures Decide(Better(rows, i, c, round, ahead), rows, i, c, plan)
         == Decide(Better(once, i, c, round, ahead), once, i, c, plan)
  {
    RepeatsKeepTheRate(rows, i, mine, r, round);
    RepeatsKeepTheRate(rows, c, theirs, r, round);
    RepeatsKeepTheRate(once, i, mine, 1, round);
    RepeatsKeepTheRate(once, c, theirs, 1, round);
    hide Drawn, RateOf, Decide, RateOfAnswers;
    RepeatInvariance(rows, once, i, c, mine, theirs, r, Better(rows, i, c, round, ahead), plan);
  }
}

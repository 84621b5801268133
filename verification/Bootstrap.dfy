/** evals/compare.py: the paired bootstrap over shared cases, for any sequence of draws. */
module Bootstrap {
  import opened Common
  import opened Text

  // ---- the paired numbers ----

  /** A row's case and the metrics it carries. */
  datatype Row = Row(candidate: string, caseId: string, metrics: map<string, real>)
  type Cell = (real, real)
  type Table = map<string, map<string, Cell>>

  /** A metric that is a ratio of two counts: where its numerator and denominator are kept. */
  const RATIOS: map<string, (string, string)> := map["wer" := ("wer_errors", "wer_words")]

  function NumeratorOf(metric: string): string { if metric in RATIOS then RATIOS[metric].0 else metric }

  function CellOf(metric: string, m: map<string, real>): Cell
    requires NumeratorOf(metric) in m
  {
    (m[NumeratorOf(metric)],
     if metric in RATIOS && RATIOS[metric].1 in m then m[RATIOS[metric].1] else 1.0)
  }

  function Entered(table: Table, r: Row, metric: string): Table {
    if NumeratorOf(metric) !in r.metrics then table
    else
      var had: map<string, Cell> := if r.candidate in table then table[r.candidate] else map[];
      table[r.candidate := had[r.caseId := CellOf(metric, r.metrics)]]
  }

  function TableOf(rows: seq<Row>, metric: string): Table {
    if rows == [] then map[] else Entered(TableOf(rows[..|rows| - 1], metric), rows[|rows| - 1], metric)
  }

  /** The cases every candidate has a number for. */
  function Shared(table: Table): set<string> {
    set n, c | n in table && c in table[n] && (forall m <- table :: c in table[m]) :: c
  }

  /** What each candidate scored on each case, and the shared cases in order. */
  method Paired(rows: seq<Row>, metric: string) returns (table: Table, shared: seq<string>)
    ensures table == TableOf(rows, metric) && shared == SortedNames(Shared(table))
    ensures forall c :: c in shared <==> table != map[] && forall name <- table :: c in table[name]
    ensures forall i, j :: 0 <= i < j < |shared| ==> Leq(shared[i], shared[j]) && shared[i] != shared[j]
  {
    table := map[];
    var i := 0;
    while i < |rows|
      invariant 0 <= i <= |rows| && table == TableOf(rows[..i], metric)
    {
      assert rows[..i + 1][..i] == rows[..i];
      table := Entered(table, rows[i], metric);
      i := i + 1;
    }
    assert rows[..i] == rows;
    shared := SortedNames(Shared(table));
    SortedNamesOrdered(Shared(table));
    SharedAre(table);
  }

  lemma SharedAre(table: Table)
    ensures forall c :: c in Shared(table) <==> table != map[] && forall name <- table :: c in table[name]
  {
    if table != map[] {
      var name := Pick(table.Keys);
      assert name in table;
    }
  }

  /** The last row of a candidate and a case that carries the metric. */
  predicate LastSays(rows: seq<Row>, metric: string, name: string, c: string, i: nat) {
    && i < |rows| && Says(rows[i], metric, name, c)
    && forall j :: i < j < |rows| ==> !Says(rows[j], metric, name, c)
  }

  predicate Says(r: Row, metric: string, name: string, c: string) {
    r.candidate == name && r.caseId == c && NumeratorOf(metric) in r.metrics
  }

  lemma EnteredIs(table: Table, r: Row, metric: string, name: string, c: string)
    ensures var after := Entered(table, r, metric);
            if Says(r, metric, name, c) then
              name in after && c in after[name] && after[name][c] == CellOf(metric, r.metrics)
            else
              (name in after && c in after[name] <==> name in table && c in table[name])
              && (name in table && c in table[name] ==> after[name][c] == table[name][c])
  {
    hide CellOf;
  }

  lemma LastOfMore(rows: seq<Row>, metric: string, name: string, c: string, i: nat)
    requires rows != []
    ensures var n := |rows| - 1;
            LastSays(rows, metric, name, c, i) <==>
              if Says(rows[n], metric, name, c) then i == n else LastSays(rows[..n], metric, name, c, i)
  {
    hide NumeratorOf;
  }

  /** Each number is that of the candidate's last row for the case, and there is one if and only if some row has it. */
  lemma {:induction false} TableIsTheLastRows(rows: seq<Row>, metric: string, name: string, c: string)
    ensures var table := TableOf(rows, metric);
            && (name in table && c in table[name] <==> exists i: nat :: LastSays(rows, metric, name, c, i))
            && (forall i: nat :: LastSays(rows, metric, name, c, i) ==>
                  name in table && c in table[name] && table[name][c] == CellOf(metric, rows[i].metrics))
  {
    if rows != [] {
      var n := |rows| - 1;
      TableIsTheLastRows(rows[..n], metric, name, c);
      EnteredIs(TableOf(rows[..n], metric), rows[n], metric, name, c);
      forall i: nat
        ensures LastSays(rows, metric, name, c, i) <==>
                  if Says(rows[n], metric, name, c) then i == n else LastSays(rows[..n], metric, name, c, i)
        ensures LastSays(rows[..n], metric, name, c, i) ==> i < n
      {
        LastOfMore(rows, metric, name, c, i);
      }
      hide Entered, Says, NumeratorOf, CellOf;
      if Says(rows[n], metric, name, c) {
        assert LastSays(rows, metric, name, c, n);
      }
    }
  }

  // ---- corpus rates ----

  predicate Scored(table: Table, name: string, cases: seq<string>) {
    name in table && forall c <- cases :: c in table[name]
  }

  function Numerators(table: Table, name: string, cases: seq<string>): real
    requires Scored(table, name, cases)
  {
    if cases == [] then 0.0 else table[name][cases[0]].0 + Numerators(table, name, cases[1..])
  }

  function Denominators(table: Table, name: string, cases: seq<string>): real
    requires Scored(table, name, cases)
  {
    if cases == [] then 0.0 else table[name][cases[0]].1 + Denominators(table, name, cases[1..])
  }

  /** The sum of the numerators over the sum of the denominators. */
  function Rate(table: Table, name: string, cases: seq<string>): real
    requires Scored(table, name, cases)
  {
    if Denominators(table, name, cases) != 0.0 then Numerators(table, name, cases) / Denominators(table, name, cases)
    else 0.0
  }

  function Gap(table: Table, name: string, baseline: string, cases: seq<string>): real
    requires Scored(table, name, cases) && Scored(table, baseline, cases)
  {
    Rate(table, name, cases) - Rate(table, baseline, cases)
  }

  lemma LastIsSaid(rows: seq<Row>, metric: string, name: string, c: string, i: nat)
    requires LastSays(rows, metric, name, c, i)
    ensures i < |rows| && Says(rows[i], metric, name, c)
  {
    hide Says;
  }

  /** A cell, of the row that counts: word errors over the words spoken, one if not told; any other metric over one. */
  lemma CellsAre(rows: seq<Row>, metric: string, name: string, c: string, i: nat)
    requires LastSays(rows, metric, name, c, i)
    ensures var table: Table := TableOf(rows, metric);
            var m: map<string, real> := rows[i].metrics;
            && name in table && c in table[name]
            && (metric == "wer" ==>
                  && "wer_errors" in m
                  && table[name][c] == (m["wer_errors"], if "wer_words" in m then m["wer_words"] else 1.0))
            && (metric != "wer" ==> metric in m && table[name][c] == (m[metric], 1.0))
  {
    TableIsTheLastRows(rows, metric, name, c);
    hide TableOf, LastSays;
    LastIsSaid(rows, metric, name, c, i);
  }

  lemma {:induction false} OnesCount(table: Table, name: string, cases: seq<string>)
    requires Scored(table, name, cases) && forall c <- cases :: table[name][c].1 == 1.0
    ensures Denominators(table, name, cases) == |cases| as real
  {
    if cases != [] {
      assert cases[0] in cases && forall c <- cases[1..] :: c in cases;
      OnesCount(table, name, cases[1..]);
    }
  }

  /** A rate is the one number the pooled denominators scale to the pooled numerators; over ones it is the mean. */
  lemma RateIsPooled(table: Table, name: string, cases: seq<string>)
    requires Scored(table, name, cases)
    ensures Denominators(table, name, cases) != 0.0 ==>
              Rate(table, name, cases) * Denominators(table, name, cases) == Numerators(table, name, cases)
    ensures Denominators(table, name, cases) == 0.0 ==> Rate(table, name, cases) == 0.0
    ensures (forall c <- cases :: table[name][c].1 == 1.0) ==>
              Rate(table, name, cases) * |cases| as real == Numerators(table, name, cases)
  {
    if forall c <- cases :: table[name][c].1 == 1.0 {
      OnesCount(table, name, cases);
      assert cases == [] ==> Numerators(table, name, cases) == 0.0;
    }
  }

  // ---- the interval ----

  /** One resample: a position in the case list for each case. */
  type Draw = seq<nat>

  predicate DrawOf(d: Draw, n: nat) { |d| == n && forall i <- d :: i < n }

  function Sampled(cases: seq<string>, d: Draw): (s: seq<string>)
    requires forall i <- d :: i < |cases|
    ensures |s| == |d| && forall c <- s :: c in cases
  {
    if d == [] then []
    else
      assert d[0] in d && forall i <- d[1..] :: i in d;
      [cases[d[0]]] + Sampled(cases, d[1..])
  }

  /** Two scored candidates, some shared cases, some resamples of them and a confidence level. */
  datatype Setting = Setting(table: Table, cases: seq<string>, name: string, baseline: string, draws: seq<Draw>,
                             confidence: real)
  {
    ghost predicate Valid() {
      && cases != [] && Scored(table, name, cases) && Scored(table, baseline, cases)
      && draws != [] && (forall d <- draws :: DrawOf(d, |cases|))
      && 0.0 <= confidence <= 1.0
    }

    ghost predicate Fits(d: Draw) { Valid() && DrawOf(d, |cases|) }

    function GapOf(d: Draw): real
      requires Fits(d)
    {
      Gap(table, name, baseline, Sampled(cases, d))
    }

    /** The difference on the cases themselves. */
    function Point(): real
      requires Valid()
    {
      Gap(table, name, baseline, cases)
    }

    function Gaps(n: nat): (gaps: seq<real>)
      requires Valid() && n <= |draws|
      ensures |gaps| == n && forall i :: 0 <= i < n ==> gaps[i] == GapOf(draws[i])
    {
      if n == 0 then [] else Gaps(n - 1) + [GapOf(draws[n - 1])]
    }

    function TailShare(): real { (1.0 - confidence) / 2.0 }

    function LowAt(): (k: int)
      requires Valid()
      ensures 0 <= k < |draws|
    {
      LowIndex(TailShare(), |draws|)
    }

    function HighAt(): (k: int)
      requires Valid()
      ensures LowAt() <= k < |draws|
    {
      HighIndex(TailShare(), |draws|)
    }
  }

  lemma TailOrder(tail: real, x: real)
    requires 0.0 <= tail <= 0.5 && x >= 0.0
    ensures 0.0 <= tail * x <= (1.0 - tail) * x
    ensures tail * x <= 0.5 * x
    ensures (1.0 - tail) * x == x - tail * x
  {
  }

  lemma FloorMonotone(a: real, b: real)
    requires a <= b
    ensures a.Floor <= b.Floor
  {
  }

  /** int(tail * resamples). */
  function LowIndex(tail: real, n: nat): (k: int)
    requires 0.0 <= tail <= 0.5 && n >= 1
    ensures 0 <= k < n
  {
    var x := n as real;
    TailOrder(tail, x);
    (tail * x).Floor
  }

  /** min(int((1 - tail) * resamples), resamples - 1). */
  function HighIndex(tail: real, n: nat): (k: int)
    requires 0.0 <= tail <= 0.5 && n >= 1
    ensures LowIndex(tail, n) <= k < n
  {
    var x := n as real;
    TailOrder(tail, x);
    FloorMonotone(tail * x, (1.0 - tail) * x);
    Min(((1.0 - tail) * x).Floor, n - 1)
  }

  predicate AtMost(a: real, b: real) { a <= b }

  datatype Interval = Interval(difference: real, low: real, high: real) {
    predicate Separable() { low > 0.0 || high < 0.0 }
  }

  function IntervalOf(s: Setting): Interval
    requires s.Valid()
  {
    var sorted := SortBy(s.Gaps(|s.draws|), AtMost);
    Interval(s.Point(), sorted[s.LowAt()], sorted[s.HighAt()])
  }

  /** Difference in corpus rate, with a bootstrap confidence interval. */
  method FindInterval(s: Setting) returns (found: Interval)
    requires s.Valid()
    ensures found == IntervalOf(s)
  {
    var diffs: seq<real> := [];
    var i := 0;
    while i < |s.draws|
      invariant 0 <= i <= |s.draws| && diffs == s.Gaps(i)
    {
      assert s.draws[i] in s.draws;
      var sample := Sampled(s.cases, s.draws[i]);
      var gap := Rate(s.table, s.name, sample) - Rate(s.table, s.baseline, sample);
      diffs := diffs + [gap];
      i := i + 1;
    }
    var sorted := SortBy(diffs, AtMost);
    found := Interval(s.Point(), sorted[s.LowAt()], sorted[s.HighAt()]);
  }

  datatype Way = Lower | Higher | Neutral
  datatype Verdict = NotSeparable | NotRanked | Worse | Better

  /** Which way a separable difference points, in the metric's own direction. */
  function VerdictOf(row: Interval, way: Way): Verdict {
    if !row.Separable() then NotSeparable
    else if way == Neutral then NotRanked
    else if (row.difference > 0.0) == (way == Lower) then Worse else Better
  }

  // ---- whatever was drawn ----

  /** The difference of some draw. */
  ghost predicate Drawn(s: Setting, gap: real)
    requires s.Valid()
  {
    exists d <- s.draws :: gap == s.GapOf(d)
  }

  lemma GapsAreDrawn(s: Setting, k: nat)
    requires s.Valid() && k < |s.draws|
    ensures Drawn(s, s.Gaps(|s.draws|)[k])
  {
    assert s.draws[k] in s.draws;
  }

  lemma SortedGaps(s: Setting)
    requires s.Valid()
    ensures var sorted := SortBy(s.Gaps(|s.draws|), AtMost);
            Ordered(sorted, AtMost) && forall i :: 0 <= i < |sorted| ==> Drawn(s, sorted[i])
  {
    var gaps := s.Gaps(|s.draws|);
    var sorted := SortBy(gaps, AtMost);
    SortByOrdered(gaps, AtMost);
    SortByMembers(gaps, AtMost);
    hide *;
    forall i | 0 <= i < |sorted|
      ensures Drawn(s, sorted[i])
    {
      assert sorted[i] in gaps;
      var k :| 0 <= k < |gaps| && gaps[k] == sorted[i];
      GapsAreDrawn(s, k);
    }
  }

  lemma IntervalIs(s: Setting)
    requires s.Valid()
    ensures var (found, sorted) := (IntervalOf(s), SortBy(s.Gaps(|s.draws|), AtMost));
            && found.difference == s.Point() && |sorted| == |s.draws|
            && found.low == sorted[s.LowAt()] && found.high == sorted[s.HighAt()]
  {
  }

  lemma EndsInOrder(sorted: seq<real>, i: nat, j: nat)
    requires Ordered(sorted, AtMost) && i <= j < |sorted|
    ensures sorted[i] <= sorted[j]
  {
    assert i < j ==> AtMost(sorted[i], sorted[j]);
  }

  /** The interval is never upside down, and both its ends are differences that were drawn. */
  lemma IntervalIsOrdered(s: Setting)
    requires s.Valid()
    ensures var found := IntervalOf(s);
            found.low <= found.high && Drawn(s, found.low) && Drawn(s, found.high)
  {
    hide *;
    SortedGaps(s);
    IntervalIs(s);
    EndsInOrder(SortBy(s.Gaps(|s.draws|), AtMost), s.LowAt(), s.HighAt());
  }

  // ---- a candidate that errs at least as much on every case ----

  predicate ErrsAsMuch(table: Table, name: string, baseline: string, cases: seq<string>)
    requires Scored(table, name, cases) && Scored(table, baseline, cases)
  {
    forall c <- cases ::
      table[name][c].1 == table[baseline][c].1 >= 0.0 && table[name][c].0 >= table[baseline][c].0
  }

  predicate ErrsMore(table: Table, name: string, baseline: string, cases: seq<string>)
    requires Scored(table, name, cases) && Scored(table, baseline, cases)
  {
    forall c <- cases ::
      table[name][c].1 == table[baseline][c].1 > 0.0 && table[name][c].0 > table[baseline][c].0
  }

  lemma {:induction false} SumsAreDominated(table: Table, name: string, baseline: string, cases: seq<string>)
    requires Scored(table, name, cases) && Scored(table, baseline, cases) && ErrsAsMuch(table, name, baseline, cases)
    ensures Denominators(table, name, cases) == Denominators(table, baseline, cases) >= 0.0
    ensures Numerators(table, name, cases) >= Numerators(table, baseline, cases)
    ensures (exists c <- cases :: table[name][c].0 > table[baseline][c].0) ==>
              Numerators(table, name, cases) > Numerators(table, baseline, cases)
    ensures (forall c <- cases :: table[name][c].0 == table[baseline][c].0) ==>
              Numerators(table, name, cases) == Numerators(table, baseline, cases)
    ensures (exists c <- cases :: table[name][c].1 > 0.0) ==> Denominators(table, name, cases) > 0.0
    ensures (forall c <- cases :: table[name][c].1 == 0.0) ==> Denominators(table, name, cases) == 0.0
  {
    if cases != [] {
      assert cases[0] in cases && forall c <- cases[1..] :: c in cases;
      assert forall c <- cases :: c == cases[0] || c in cases[1..];
      SumsAreDominated(table, name, baseline, cases[1..]);
    }
  }

  lemma Divided(x: real, y: real, d: real)
    requires d > 0.0
    ensures x >= y ==> x / d >= y / d
    ensures x > y ==> x / d > y / d
  {
  }

  /** No gap is below zero; none is above it unless some case errs more and some case has a denominator. */
  lemma GapOfDominated(table: Table, name: string, baseline: string, cases: seq<string>)
    requires Scored(table, name, cases) && Scored(table, baseline, cases) && ErrsAsMuch(table, name, baseline, cases)
    ensures Gap(table, name, baseline, cases) >= 0.0
    ensures Gap(table, name, baseline, cases) > 0.0 <==>
              && (exists c <- cases :: table[name][c].0 > table[baseline][c].0)
              && (exists c <- cases :: table[name][c].1 > 0.0)
  {
    SumsAreDominated(table, name, baseline, cases);
    var (x, y) := (Numerators(table, name, cases), Numerators(table, baseline, cases));
    var d := Denominators(table, name, cases);
    if d > 0.0 {
      Divided(x, y, d);
    }
  }

  /** Errors as many on every case with the same denominators: every interval is at or above zero. */
  lemma DominatedGaps(s: Setting, d: Draw)
    requires s.Fits(d) && ErrsAsMuch(s.table, s.name, s.baseline, s.cases)
    ensures s.GapOf(d) >= 0.0
    ensures s.GapOf(d) > 0.0 ==> s.Point() > 0.0
    ensures ErrsMore(s.table, s.name, s.baseline, s.cases) ==> s.GapOf(d) > 0.0
  {
    var sample := Sampled(s.cases, d);
    GapOfDominated(s.table, s.name, s.baseline, sample);
    GapOfDominated(s.table, s.name, s.baseline, s.cases);
    hide Gap;
    if ErrsMore(s.table, s.name, s.baseline, s.cases) {
      assert sample[0] in sample;
    }
  }

  /** So on a lower-is-better metric it is never found better, and on a higher-is-better one never worse. */
  lemma DominatedIsNeverBetter(s: Setting)
    requires s.Valid() && ErrsAsMuch(s.table, s.name, s.baseline, s.cases)
    ensures VerdictOf(IntervalOf(s), Lower) != Better
    ensures VerdictOf(IntervalOf(s), Higher) != Worse
  {
    IntervalIsOrdered(s);
    var found := IntervalOf(s);
    hide IntervalOf, ErrsAsMuch, Setting.GapOf, Setting.Point, Scored;
    var l :| l in s.draws && found.low == s.GapOf(l);
    var h :| h in s.draws && found.high == s.GapOf(h);
    DominatedGaps(s, l);
    DominatedGaps(s, h);
    PointIs(s);
    hide *;
    AboveZero(found);
  }

  lemma AboveZero(found: Interval)
    requires 0.0 <= found.low <= found.high && (found.low > 0.0 ==> found.difference > 0.0)
    ensures VerdictOf(found, Lower) != Better && VerdictOf(found, Higher) != Worse
    ensures found.low > 0.0 ==> VerdictOf(found, Lower) == Worse
  {
  }

  lemma PointIs(s: Setting)
    requires s.Valid()
    ensures IntervalOf(s).difference == s.Point()
  {
  }

  /** Errors more on every case, with positive denominators: always separable, and worse. */
  lemma StrictlyDominatedIsWorse(s: Setting)
    requires s.Valid() && ErrsMore(s.table, s.name, s.baseline, s.cases)
    ensures VerdictOf(IntervalOf(s), Lower) == Worse
  {
    IntervalIsOrdered(s);
    var found := IntervalOf(s);
    assert ErrsAsMuch(s.table, s.name, s.baseline, s.cases);
    hide IntervalOf, ErrsAsMuch, ErrsMore, Setting.GapOf, Setting.Point;
    var l :| l in s.draws && found.low == s.GapOf(l);
    DominatedGaps(s, l);
    PointIs(s);
    hide *;
    AboveZero(found);
  }

  // ---- swapping the candidate and the baseline ----

  function Swapped(s: Setting): Setting { s.(name := s.baseline, baseline := s.name) }

  /** Every element negated, in reverse, so that an ordered sequence stays ordered. */
  function Mirrored(xs: seq<real>): (ys: seq<real>)
    ensures |ys| == |xs| && forall i :: 0 <= i < |xs| ==> ys[i] == -xs[|xs| - 1 - i]
  {
    if xs == [] then [] else Mirrored(xs[1..]) + [-xs[0]]
  }

  /** How many times a value occurs. */
  ghost function Times(xs: seq<real>, v: real): nat { multiset(xs)[v] }

  lemma TimesOfCons(x: real, xs: seq<real>, v: real)
    ensures Times([x] + xs, v) == Times(xs, v) + (if x == v then 1 else 0)
    ensures Times(xs + [x], v) == Times(xs, v) + (if x == v then 1 else 0)
  {
  }

  lemma TimesOfHead(xs: seq<real>, v: real)
    requires xs != []
    ensures Times(xs, v) == Times(xs[1..], v) + (if xs[0] == v then 1 else 0)
  {
    hide Times;
    assert xs == [xs[0]] + xs[1..];
    TimesOfCons(xs[0], xs[1..], v);
  }

  lemma TimesOfMember(xs: seq<real>, v: real)
    ensures Times(xs, v) > 0 <==> v in xs
  {
    assert v in xs <==> v in multiset(xs);
  }

  lemma TimesOfNone(v: real)
    ensures Times([], v) == 0
  {
  }

  lemma TimesOfSorted(xs: seq<real>, v: real)
    ensures Times(SortBy(xs, AtMost), v) == Times(xs, v)
  {
  }

  lemma MirroredStep(xs: seq<real>)
    requires xs != []
    ensures Mirrored(xs) == Mirrored(xs[1..]) + [-xs[0]]
  {
  }

  lemma {:induction false} MirroredTimes(xs: seq<real>, v: real)
    ensures Times(Mirrored(xs), v) == Times(xs, -v)
  {
    hide *;
    if xs == [] {
      assert Mirrored(xs) == [];
      TimesOfNone(v);
      TimesOfNone(-v);
    } else {
      MirroredTimes(xs[1..], v);
      MirroredStep(xs);
      TimesOfHead(xs, -v);
      TimesOfCons(-xs[0], Mirrored(xs[1..]), v);
    }
  }

  lemma {:induction false} NegatedTimes(xs: seq<real>, ys: seq<real>, v: real)
    requires |ys| == |xs| && forall i :: 0 <= i < |xs| ==> ys[i] == -xs[i]
    ensures Times(ys, v) == Times(xs, -v)
  {
    hide *;
    if xs == [] {
      TimesOfNone(v);
      TimesOfNone(-v);
    } else {
      NegatedTimes(xs[1..], ys[1..], v);
      TimesOfHead(xs, -v);
      TimesOfHead(ys, v);
    }
  }

  lemma HeadIsLeast(xs: seq<real>, v: real)
    requires Ordered(xs, AtMost) && v in xs
    ensures xs[0] <= v && Ordered(xs[1..], AtMost)
  {
    var i :| 0 <= i < |xs| && xs[i] == v;
    assert i > 0 ==> AtMost(xs[0], xs[i]);
  }

  /** An ordered list is told by how often each value occurs in it. */
  lemma {:induction false} OneOrder(xs: seq<real>, ys: seq<real>)
    requires Ordered(xs, AtMost) && Ordered(ys, AtMost) && |xs| == |ys|
    requires forall v :: Times(xs, v) == Times(ys, v)
    ensures xs == ys
  {
    hide *;
    if xs != [] {
      TimesOfMember(xs, ys[0]);
      TimesOfMember(ys, ys[0]);
      TimesOfMember(xs, xs[0]);
      TimesOfMember(ys, xs[0]);
      HeadIsLeast(xs, ys[0]);
      HeadIsLeast(ys, xs[0]);
      forall v
        ensures Times(xs[1..], v) == Times(ys[1..], v)
      {
        TimesOfHead(xs, v);
        TimesOfHead(ys, v);
      }
      OneOrder(xs[1..], ys[1..]);
      assert xs == [xs[0]] + xs[1..] && ys == [ys[0]] + ys[1..];
    }
  }

  lemma MirroredIsOrdered(xs: seq<real>)
    requires Ordered(xs, AtMost)
    ensures Ordered(Mirrored(xs), AtMost)
  {
    forall i, j | 0 <= i < j < |xs|
      ensures AtMost(Mirrored(xs)[i], Mirrored(xs)[j])
    {
      assert AtMost(xs[|xs| - 1 - j], xs[|xs| - 1 - i]);
    }
  }

  /** Sorting the negations gives the mirror of the sorted list. */
  lemma NegatedSorts(xs: seq<real>, ys: seq<real>)
    requires |ys| == |xs| && forall i :: 0 <= i < |xs| ==> ys[i] == -xs[i]
    ensures SortBy(ys, AtMost) == Mirrored(SortBy(xs, AtMost))
  {
    assert TotalPreorder(AtMost);
    hide *;
    var (sorted, theirs) := (SortBy(xs, AtMost), SortBy(ys, AtMost));
    SortByOrdered(xs, AtMost);
    SortByOrdered(ys, AtMost);
    MirroredIsOrdered(sorted);
    forall v
      ensures Times(theirs, v) == Times(Mirrored(sorted), v)
    {
      TimesOfSorted(xs, -v);
      TimesOfSorted(ys, v);
      NegatedTimes(xs, ys, v);
      MirroredTimes(sorted, v);
    }
    OneOrder(theirs, Mirrored(sorted));
  }

  /** With the same draws, every difference is negated. */
  lemma SwappedNegates(s: Setting)
    requires s.Valid()
    ensures var (t, n) := (Swapped(s), |s.draws|);
            && t.Valid() && |t.draws| == n && t.Point() == -s.Point()
            && t.LowAt() == s.LowAt() && t.HighAt() == s.HighAt()
            && (forall i :: 0 <= i < n ==> t.Gaps(n)[i] == -s.Gaps(n)[i])
  {
    hide LowIndex, HighIndex, Rate, Sampled, Setting.Gaps;
  }

  lemma FloorOfTheRest(n: nat, x: real)
    ensures (n as real - x).Floor == if x.Floor as real == x then n - x.Floor else n - 1 - x.Floor
  {
  }

  lemma IndicesAre(tail: real, n: nat)
    requires 0.0 <= tail <= 0.5 && n >= 1
    ensures var x := tail * n as real;
            LowIndex(tail, n) == x.Floor && HighIndex(tail, n) == Min((n as real - x).Floor, n - 1)
            && 0.0 <= x
  {
    TailOrder(tail, n as real);
  }

  /** The two ends are as far from the ends of the sorted list, unless the tail is a whole number of resamples. */
  lemma EndsMirrorExactly(tail: real, n: nat)
    requires 0.0 <= tail <= 0.5 && n >= 1
    ensures var x := tail * n as real;
            LowIndex(tail, n) + HighIndex(tail, n) == n - 1 <==> x == 0.0 || x.Floor as real != x
  {
    IndicesAre(tail, n);
    hide LowIndex, HighIndex;
    var x := tail * n as real;
    FloorOfTheRest(n, x);
    FloorMonotone(0.0, x);
  }

  /** Where they are, naming the other candidate the baseline turns the interval round, and no verdict is lost. */
  lemma SwappingTurnsTheIntervalRound(s: Setting)
    requires s.Valid() && s.LowAt() + s.HighAt() == |s.draws| - 1
    ensures Swapped(s).Valid()
    ensures IntervalOf(Swapped(s)) == var found := IntervalOf(s); Interval(-found.difference, -found.high, -found.low)
  {
    hide *;
    SwappedNegates(s);
    var n := |s.draws|;
    NegatedSorts(s.Gaps(n), Swapped(s).Gaps(n));
    IntervalIs(s);
    IntervalIs(Swapped(s));
  }

  /** Naming the other candidate the baseline gives the mirror of the interval. */
  ghost predicate TurnsRound(s: Setting)
    requires s.Valid()
  {
    && Swapped(s).Valid()
    && var found := IntervalOf(s);
       IntervalOf(Swapped(s)) == Interval(-found.difference, -found.high, -found.low)
  }

  /** It does on all data with so many draws at this confidence. */
  ghost predicate AlwaysTurnsRound(n: nat, confidence: real) {
    forall s: Setting :: s.Valid() && |s.draws| == n && s.confidence == confidence ==> TurnsRound(s)
  }

  /** One case both get right and one only the baseline does; the first `zeros` draws take the one, others the other. */
  function RightThenWrong(n: nat, zeros: nat, confidence: real): Setting {
    Setting(map["a" := map["p" := (0.0, 1.0), "q" := (1.0, 1.0)], "b" := map["p" := (0.0, 1.0), "q" := (0.0, 1.0)]],
            ["p", "q"], "a", "b", seq(n, i => if i < zeros then [0, 0] else [1, 1]), confidence)
  }

  lemma TheyAreScored(n: nat, zeros: nat, confidence: real)
    requires n >= 1 && 0.0 <= confidence <= 1.0
    ensures RightThenWrong(n, zeros, confidence).Valid()
  {
    var s := RightThenWrong(n, zeros, confidence);
    assert s.draws[0] in s.draws;
    assert "a"[0] != "b"[0] && "p"[0] != "q"[0];
    forall d <- s.draws
      ensures DrawOf(d, 2)
    {
    }
  }

  lemma TwiceTheSame(s: Setting, k: nat)
    requires s == RightThenWrong(|s.draws|, k, s.confidence) && s.Valid()
    ensures s.GapOf([0, 0]) == 0.0 && s.GapOf([1, 1]) == 1.0
  {
    assert "a"[0] != "b"[0] && "p"[0] != "q"[0];
    assert Sampled(s.cases, [0, 0]) == ["p", "p"] && Sampled(s.cases, [1, 1]) == ["q", "q"];
    RateOfTwo(s.table, "a", "p");
    RateOfTwo(s.table, "a", "q");
    RateOfTwo(s.table, "b", "p");
    RateOfTwo(s.table, "b", "q");
    hide Rate;
  }

  lemma RateOfTwo(table: Table, name: string, c: string)
    requires name in table && c in table[name] && table[name][c].1 == 1.0
    ensures Rate(table, name, [c, c]) == table[name][c].0
  {
    var cs := [c, c];
    assert cs[1..] == [c] && [c][1..] == [];
    assert Denominators(table, name, [c]) == 1.0 + Denominators(table, name, []);
    assert Numerators(table, name, [c]) == table[name][c].0 + Numerators(table, name, []);
    assert Denominators(table, name, cs) == 2.0 && Numerators(table, name, cs) == 2.0 * table[name][c].0;
  }

  lemma SortedStays(xs: seq<real>)
    requires Ordered(xs, AtMost)
    ensures SortBy(xs, AtMost) == xs
  {
    assert TotalPreorder(AtMost);
    SortByOrdered(xs, AtMost);
    hide *;
    forall v
      ensures Times(SortBy(xs, AtMost), v) == Times(xs, v)
    {
      TimesOfSorted(xs, v);
    }
    OneOrder(SortBy(xs, AtMost), xs);
  }

  lemma ItsGaps(s: Setting, zeros: nat)
    requires s == RightThenWrong(|s.draws|, zeros, s.confidence) && s.Valid()
    ensures SortBy(s.Gaps(|s.draws|), AtMost) == seq(|s.draws|, i => if i < zeros then 0.0 else 1.0)
  {
    var gaps := s.Gaps(|s.draws|);
    TwiceTheSame(s, zeros);
    assert gaps == seq(|s.draws|, i => if i < zeros then 0.0 else 1.0) by {
      forall i | 0 <= i < |gaps|
        ensures gaps[i] == if i < zeros then 0.0 else 1.0
      {
        assert s.draws[i] == if i < zeros then [0, 0] else [1, 1];
        hide Setting.GapOf;
      }
    }
    hide Setting.Gaps;
    SortedStays(gaps);
  }

  /** Where the upper end is one place too near the top, that data's interval does not turn round. */
  lemma OneEndOff(s: Setting)
    requires s.Valid() && s == RightThenWrong(|s.draws|, s.HighAt(), s.confidence)
    requires s.LowAt() + s.HighAt() == |s.draws| && s.LowAt() >= 1
    ensures !TurnsRound(s)
  {
    var (n, low, high) := (|s.draws|, s.LowAt(), s.HighAt());
    ItsGaps(s, high);
    SwappedNegates(s);
    NegatedSorts(s.Gaps(n), Swapped(s).Gaps(n));
    IntervalIs(s);
    IntervalIs(Swapped(s));
    hide *;
    var sorted := seq(n, i => if i < high then 0.0 else 1.0);
    assert IntervalOf(s).high == sorted[high] == 1.0;
    assert IntervalOf(Swapped(s)).low == Mirrored(sorted)[low] == -sorted[n - 1 - low] == 0.0;
    NotRound(s);
  }

  lemma NotRound(s: Setting)
    requires s.Valid() && Swapped(s).Valid() && IntervalOf(Swapped(s)).low != -IntervalOf(s).high
    ensures !TurnsRound(s)
  {
    hide IntervalOf, Swapped, Setting.Valid;
  }

  lemma LopsidedDoesNotTurn(n: nat, confidence: real)
    requires n >= 1 && 0.0 <= confidence <= 1.0
    requires var tail := (1.0 - confidence) / 2.0; LowIndex(tail, n) + HighIndex(tail, n) == n && LowIndex(tail, n) >= 1
    ensures !AlwaysTurnsRound(n, confidence)
  {
    var tail := (1.0 - confidence) / 2.0;
    var s := RightThenWrong(n, HighIndex(tail, n), confidence);
    TheyAreScored(n, HighIndex(tail, n), confidence);
    assert |s.draws| == n && s.confidence == confidence;
    assert s.LowAt() == LowIndex(tail, n) && s.HighAt() == HighIndex(tail, n);
    hide LowIndex, HighIndex, TurnsRound, Setting.Valid, Setting.LowAt, Setting.HighAt;
    OneEndOff(s);
  }

  /** Swapping mirrors the interval for every table and all draws exactly where the ends are mirrored. */
  lemma SwappingMirrorsExactly(n: nat, confidence: real)
    requires n >= 1 && 0.0 <= confidence <= 1.0
    ensures AlwaysTurnsRound(n, confidence) <==>
              var tail := (1.0 - confidence) / 2.0; LowIndex(tail, n) + HighIndex(tail, n) == n - 1
  {
    var tail := (1.0 - confidence) / 2.0;
    if LowIndex(tail, n) + HighIndex(tail, n) == n - 1 {
      forall s: Setting | s.Valid() && |s.draws| == n && s.confidence == confidence
        ensures TurnsRound(s)
      {
        assert s.LowAt() + s.HighAt() == |s.draws| - 1;
        hide IntervalOf, Setting.Valid;
        SwappingTurnsTheIntervalRound(s);
      }
    } else {
      EndsMirrorExactly(tail, n);
      IndicesAre(tail, n);
      hide LowIndex, HighIndex, AlwaysTurnsRound;
      FloorOfTheRest(n, tail * n as real);
      LopsidedDoesNotTurn(n, confidence);
    }
  }

  /** At the default 3000 resamples and 95 % they are not: 75 differences lie below the interval and 74 above. */
  lemma TheDefaultIsLopsided()
    ensures var tail := (1.0 - 0.95) / 2.0; LowIndex(tail, 3000) == 75 && HighIndex(tail, 3000) == 3000 - 75
  {
  }
}

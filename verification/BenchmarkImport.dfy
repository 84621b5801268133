/** evals/benchmark_import.py: a dataset read a page at a time, and cases selected from it without reading it all. */
module BenchmarkImport {
  import opened Common
  import opened Text

  const PAGE := 100
  const GROUP := 4
  const PAGE_CHARS := 1500

  // ---- the rows of a dataset ----

  datatype Page<R> = Page(total: nat, rows: seq<(nat, R)>)

  /** Rows `from` up to `to` with their positions. */
  function Numbered<R>(data: seq<R>, from: nat, end: nat): (rows: seq<(nat, R)>)
    requires end <= |data|
    ensures |rows| == if from <= end then end - from else 0
    ensures forall i :: 0 <= i < |rows| ==> rows[i] == (from + i, data[from + i])
    decreases |data| - from
  {
    if from >= end then [] else [(from, data[from])] + Numbered(data, from + 1, end)
  }

  /** An API that answers every request with the dataset's size and the rows asked for. */
  ghost predicate Faithful<R(!new)>(get: (nat, nat) -> Page<R>, data: seq<R>) {
    forall offset: nat, length: nat ::
      get(offset, length) == Page(|data|, Numbered(data, offset, Min(offset + length, |data|)))
  }

  /** The row a loop holds when it has been through `read` of them. */
  function RowAt<R>(data: seq<R>, read: nat): Option<(nat, R)> {
    if read < |data| then Some((read, data[read])) else None
  }

  lemma RowAtIs<R>(data: seq<R>, read: nat)
    ensures RowAt(data, read).Some? <==> read < |data|
    ensures read < |data| ==> RowAt(data, read).value == (read, data[read])
  {
  }

  /** _each_row, suspended between two rows. */
  class Cursor<R(!new)> {
    const get: (nat, nat) -> Page<R>
    ghost const data: seq<R>
    var offset: nat
    var total: Option<nat>
    var page: seq<(nat, R)>
    var at: nat

    constructor (get: (nat, nat) -> Page<R>, ghost data: seq<R>)
      requires Faithful(get, data)
      ensures Valid() && Given() == 0 && this.data == data
    {
      this.get, this.data := get, data;
      offset, total, page, at := 0, None, [], 0;
    }

    ghost predicate Valid()
      reads this
    {
      && Faithful(get, data) && offset % PAGE == 0 && at <= |page|
      && (total == None <==> offset == 0)
      && (offset == 0 ==> page == [])
      && (offset > 0 ==> total == Some(|data|) && page == Numbered(data, offset - PAGE, Min(offset, |data|)))
      && Given() <= |data|
      && (offset > 0 && page == [] ==> Given() == |data|)
    }

    /** How many rows have been yielded. */
    ghost function Given(): int
      reads this
    {
      if offset == 0 then 0 else offset - PAGE + at
    }

    /** The next row of the dataset, in order, or none when every row has been given; a page is asked for once. */
    method Next() returns (r: Option<(nat, R)>)
      requires Valid()
      modifies this
      ensures Valid()
      ensures var g := old(Given());
              if g < |data| then r == Some((g, data[g])) && Given() == g + 1 else r == None && Given() == g
      ensures offset == old(offset) || (offset == old(offset) + PAGE && old(Given()) == old(offset))
    {
      if at < |page| {
        r := Some(page[at]);
        at := at + 1;
        return;
      }
      if total.Some? && offset >= total.value {
        return None;
      }
      var got := get(offset, PAGE);
      if got.rows == [] {
        return None;
      }
      total, page, at := Some(got.total), got.rows, 1;
      offset := offset + PAGE;
      r := Some(page[0]);
    }

    /** A loop over the rows holds row number `read`, or none is left. */
    ghost predicate Holds(read: nat, row: Option<(nat, R)>)
      reads this
    {
      && Valid() && read <= |data|
      && row == RowAt(data, read)
      && Given() == if read < |data| then read + 1 else read
    }

    method First() returns (row: Option<(nat, R)>)
      requires Valid() && Given() == 0
      modifies this
      ensures Holds(0, row)
    {
      row := Next();
    }

    method Following(ghost read: nat, row: Option<(nat, R)>) returns (next: Option<(nat, R)>)
      requires Holds(read, row) && row.Some?
      modifies this
      ensures Holds(read + 1, next)
    {
      next := Next();
    }

    lemma WhatIsHeld(read: nat, row: Option<(nat, R)>)
      requires Holds(read, row)
      ensures read <= |data| && row == RowAt(data, read)
    {
    }
  }

  /** Every (row_idx, row) in dataset order. */
  method EachRow<R(!new)>(get: (nat, nat) -> Page<R>, ghost data: seq<R>) returns (out: seq<(nat, R)>)
    requires Faithful(get, data)
    ensures out == Numbered(data, 0, |data|)
  {
    var rows := new Cursor(get, data);
    out := [];
    var next := rows.First();
    rows.WhatIsHeld(0, next);
    hide Cursor.Holds, Faithful;
    while next.Some?
      invariant fresh(rows) && rows.data == data && rows.Holds(|out|, next)
      invariant |out| <= |data| && next == if |out| < |data| then Some((|out|, data[|out|])) else None
      invariant forall i :: 0 <= i < |out| ==> out[i] == (i, data[i])
      decreases |data| - |out|
    {
      ghost var read := |out|;
      out := out + [next.value];
      next := rows.Following(read, next);
      rows.WhatIsHeld(read + 1, next);
    }
  }

  // ---- labelled pages ----

  type Row = map<string, string>

  /** What an importer reads of a row, and what makes it positive. */
  datatype Importer = Importer(text: string, mark: string, positive: string)
  datatype Labelled = Labelled(item: nat, text: string, positive: bool)

  /** One labelled item short enough to read beside the others; a missing label reads as Python's None does. */
  function LabelledPage(imp: Importer, item: nat, row: Row): Option<Labelled> {
    var text := Strip(if imp.text in row then row[imp.text] else "");
    if text == "" || |text| > PAGE_CHARS then None
    else
      var said := if imp.mark in row then row[imp.mark] else "None";
      Some(Labelled(item, text, Lower(Strip(said)) == imp.positive))
  }

  /** The labelled pages of one side among the first `n` rows, in dataset order. */
  function Side(imp: Importer, data: seq<Row>, n: nat, positive: bool): (pages: seq<Labelled>)
    requires n <= |data|
    ensures |pages| <= n
  {
    if n == 0 then []
    else
      var before := Side(imp, data, n - 1, positive);
      var one := LabelledPage(imp, n - 1, data[n - 1]);
      if one.Some? && one.value.positive == positive then before + [one.value] else before
  }

  /** A decide case: its pages in the order shown, each with its answer. */
  type Case = seq<Labelled>

  predicate ByDigest(digest: nat -> string, a: Labelled, b: Labelled) { Leq(digest(a.item), digest(b.item)) }

  function DigestOrder(digest: nat -> string): (Labelled, Labelled) -> bool {
    (a: Labelled, b: Labelled) => ByDigest(digest, a, b)
  }

  function Shuffled(pages: seq<Labelled>, digest: nat -> string): Case { SortBy(pages, DigestOrder(digest)) }

  /** The pages of one side that `n` cases take. */
  function Need(n: int): (k: int)
    ensures k == n + n
  {
    n * (GROUP / 2)
  }

  /** How many cases `k` pages of one side make. */
  function Enough(k: nat): (n: nat)
    ensures Need(n) <= k < Need(n + 1)
  {
    k / (GROUP / 2)
  }

  /** The i-th half group of a side. */
  function HalfGroup(side: seq<Labelled>, i: nat): (half: seq<Labelled>)
    requires Need(i + 1) <= |side|
    ensures |half| == 2 && half[0] == side[i + i] && half[1] == side[i + i + 1]
  {
    side[Need(i)..Need(i + 1)]
  }

  /** The i-th case: the i-th half group of each side, shuffled together. */
  function CaseOf(trues: seq<Labelled>, falses: seq<Labelled>, i: nat, digest: nat -> string): Case
    requires Need(i + 1) <= |trues| && Need(i + 1) <= |falses|
  {
    Shuffled(HalfGroup(trues, i) + HalfGroup(falses, i), digest)
  }

  /** How many cases to make of so many pages of each side. */
  function GroupsOf(n: int, trues: nat, falses: nat): (groups: int)
    ensures groups <= n && Need(groups) <= trues && Need(groups) <= falses
  {
    Min(n, Min(Enough(trues), Enough(falses)))
  }

  function Cases(trues: seq<Labelled>, falses: seq<Labelled>, groups: int, digest: nat -> string): seq<Case>
    requires Need(groups) <= |trues| && Need(groups) <= |falses|
  {
    if groups <= 0 then []
    else Cases(trues, falses, groups - 1, digest) + [CaseOf(trues, falses, groups - 1, digest)]
  }

  lemma {:induction false} CasesAre(trues: seq<Labelled>, falses: seq<Labelled>, groups: int, digest: nat -> string)
    requires Need(groups) <= |trues| && Need(groups) <= |falses|
    ensures |Cases(trues, falses, groups, digest)| == Max(groups, 0)
    ensures forall i :: 0 <= i < groups ==> Cases(trues, falses, groups, digest)[i] == CaseOf(trues, falses, i, digest)
    decreases groups
  {
    hide CaseOf;
    if groups > 0 {
      CasesAre(trues, falses, groups - 1, digest);
    }
  }

  /** The simple selection: label the whole dataset, then group. */
  function Selected(imp: Importer, n: int, data: seq<Row>, digest: nat -> string): seq<Case> {
    var (trues, falses) := (Side(imp, data, |data|, true), Side(imp, data, |data|, false));
    Cases(trues, falses, GroupsOf(n, |trues|, |falses|), digest)
  }

  /** A pool holds the first pages of its side, and no more than it has room for. */
  ghost predicate Pooled(pool: seq<Labelled>, side: seq<Labelled>, room: int) {
    pool == side[..Min(|side|, Max(room, 0))]
  }

  /** A side after one more row. */
  function Extended(side: seq<Labelled>, one: Option<Labelled>, positive: bool): seq<Labelled> {
    if one.Some? && one.value.positive == positive then side + [one.value] else side
  }

  function Offered(pool: seq<Labelled>, one: Option<Labelled>, positive: bool, room: int): seq<Labelled> {
    if one.Some? && one.value.positive == positive && |pool| < room then pool + [one.value] else pool
  }

  lemma PoolGrows(pool: seq<Labelled>, side: seq<Labelled>, room: int, one: Option<Labelled>, positive: bool)
    requires Pooled(pool, side, room)
    ensures Pooled(Offered(pool, one, positive, room),
                   Extended(side, one, positive), room)
  {
  }

  /** Both pools after so many rows. */
  ghost predicate Pools(imp: Importer, n: int, data: seq<Row>, read: nat, trues: seq<Labelled>, falses: seq<Labelled>) {
    && read <= |data|
    && Pooled(trues, Side(imp, data, read, true), Need(n))
    && Pooled(falses, Side(imp, data, read, false), Need(n))
  }

  lemma PoolsBegin(imp: Importer, n: int, data: seq<Row>)
    ensures Pools(imp, n, data, 0, [], [])
  {
    hide Need;
  }

  lemma PoolsNext(imp: Importer, n: int, data: seq<Row>, read: nat, trues: seq<Labelled>, falses: seq<Labelled>)
    requires read < |data| && Pools(imp, n, data, read, trues, falses)
    ensures var one := LabelledPage(imp, read, data[read]);
            Pools(imp, n, data, read + 1, Offered(trues, one, true, Need(n)), Offered(falses, one, false, Need(n)))
  {
    hide Side, LabelledPage, Offered, Extended, Pooled, Need;
    var one := LabelledPage(imp, read, data[read]);
    SideNext(imp, data, read, true);
    SideNext(imp, data, read, false);
    PoolGrows(trues, Side(imp, data, read, true), Need(n), one, true);
    PoolGrows(falses, Side(imp, data, read, false), Need(n), one, false);
  }

  lemma {:induction false} SideIsAPrefix(imp: Importer, data: seq<Row>, n: nat, m: nat, positive: bool)
    requires n <= m <= |data|
    ensures Side(imp, data, n, positive) <= Side(imp, data, m, positive)
    decreases m
  {
    hide LabelledPage;
    if n < m {
      SideIsAPrefix(imp, data, n, m - 1, positive);
    }
  }

  lemma SideNext(imp: Importer, data: seq<Row>, n: nat, positive: bool)
    requires n < |data|
    ensures var one := LabelledPage(imp, n, data[n]);
            Side(imp, data, n + 1, positive) == Extended(Side(imp, data, n, positive), one, positive)
  {
    hide LabelledPage;
  }

  lemma SameGroups(n: int, t: nat, f: nat, allTrue: nat, allFalse: nat)
    requires t <= allTrue && f <= allFalse && (t == allTrue || t >= Need(n)) && (f == allFalse || f >= Need(n))
    ensures GroupsOf(n, t, f) == GroupsOf(n, allTrue, allFalse) || (n <= 0 && GroupsOf(n, allTrue, allFalse) <= 0)
  {
  }

  lemma NoCases(trues: seq<Labelled>, falses: seq<Labelled>, groups: int, digest: nat -> string)
    requires Need(groups) <= |trues| && Need(groups) <= |falses| && groups <= 0
    ensures Cases(trues, falses, groups, digest) == []
  {
  }

  lemma SamePrefixSameCases(trues: seq<Labelled>, falses: seq<Labelled>, allTrue: seq<Labelled>,
                            allFalse: seq<Labelled>, groups: int, digest: nat -> string)
    requires trues <= allTrue && falses <= allFalse
    requires Need(groups) <= |trues| && Need(groups) <= |falses|
    ensures Cases(trues, falses, groups, digest) == Cases(allTrue, allFalse, groups, digest)
  {
    CasesAre(trues, falses, groups, digest);
    CasesAre(allTrue, allFalse, groups, digest);
    hide Cases, CaseOf;
    forall i | 0 <= i < groups
      ensures CaseOf(trues, falses, i, digest) == CaseOf(allTrue, allFalse, i, digest)
    {
      SameCase(trues, falses, allTrue, allFalse, i, digest);
    }
  }

  lemma SameCase(trues: seq<Labelled>, falses: seq<Labelled>, allTrue: seq<Labelled>, allFalse: seq<Labelled>,
                 i: nat, digest: nat -> string)
    requires trues <= allTrue && falses <= allFalse
    requires Need(i + 1) <= |trues| && Need(i + 1) <= |falses|
    ensures CaseOf(trues, falses, i, digest) == CaseOf(allTrue, allFalse, i, digest)
  {
    hide Shuffled, Need, HalfGroup;
    assert HalfGroup(trues, i) == HalfGroup(allTrue, i);
    assert HalfGroup(falses, i) == HalfGroup(allFalse, i);
  }

  lemma PoolIsPrefix(pool: seq<Labelled>, side: seq<Labelled>, all: seq<Labelled>, room: int)
    requires Pooled(pool, side, room) && side <= all
    ensures pool <= all && (side == all ==> |pool| == |all| || |pool| >= room)
  {
  }

  /** Enough of both sides, or all of them: the pools make the cases the whole sides would. */
  lemma PoolsAreEnough(imp: Importer, n: int, data: seq<Row>, digest: nat -> string, read: nat,
                       trues: seq<Labelled>, falses: seq<Labelled>)
    requires Pools(imp, n, data, read, trues, falses)
    requires read == |data| || (|trues| >= Need(n) && |falses| >= Need(n))
    ensures Cases(trues, falses, GroupsOf(n, |trues|, |falses|), digest) == Selected(imp, n, data, digest)
  {
    var (allTrue, allFalse) := (Side(imp, data, |data|, true), Side(imp, data, |data|, false));
    SideIsAPrefix(imp, data, read, |data|, true);
    SideIsAPrefix(imp, data, read, |data|, false);
    PoolIsPrefix(trues, Side(imp, data, read, true), allTrue, Need(n));
    PoolIsPrefix(falses, Side(imp, data, read, false), allFalse, Need(n));
    hide Side, Need, Cases, GroupsOf, Pooled;
    SameGroups(n, |trues|, |falses|, |allTrue|, |allFalse|);
    var groups := GroupsOf(n, |trues|, |falses|);
    SamePrefixSameCases(trues, falses, allTrue, allFalse, groups, digest);
    if n <= 0 {
      NoCases(allTrue, allFalse, groups, digest);
      if GroupsOf(n, |allTrue|, |allFalse|) <= 0 {
        NoCases(allTrue, allFalse, GroupsOf(n, |allTrue|, |allFalse|), digest);
      }
    }
  }

  /** Items in dataset order into bounded pools, stopping when both are full. */
  method SelectLabelled(imp: Importer, n: int, get: (nat, nat) -> Page<Row>, digest: nat -> string,
                        ghost data: seq<Row>)
    returns (cases: seq<Case>)
    requires Faithful(get, data)
    ensures cases == Selected(imp, n, data, digest)
  {
    var rows := new Cursor(get, data);
    var trues: seq<Labelled>, falses: seq<Labelled> := [], [];
    var room := Need(n);
    ghost var read := 0;
    var next := rows.First();
    rows.WhatIsHeld(0, next);
    RowAtIs(data, 0);
    PoolsBegin(imp, n, data);
    hide *;
    while next.Some?
      invariant fresh(rows) && rows.data == data && rows.Holds(read, next)
      invariant read <= |data| && next == if read < |data| then Some((read, data[read])) else None
      invariant Pools(imp, n, data, read, trues, falses)
      decreases |data| - read
    {
      var one := LabelledPage(imp, next.value.0, next.value.1);
      PoolsNext(imp, n, data, read, trues, falses);
      trues, falses := Offered(trues, one, true, room), Offered(falses, one, false, room);
      read := read + 1;
      if Min(|trues|, |falses|) >= room {
        break;
      }
      next := rows.Following(read - 1, next);
      rows.WhatIsHeld(read, next);
      RowAtIs(data, read);
    }
    PoolsAreEnough(imp, n, data, digest, read, trues, falses);
    var groups := GroupsOf(n, |trues|, |falses|);
    cases := Cases(trues, falses, groups, digest);
  }

  // ---- what a labelled case is ----

  /** A page of the dataset with the answer published for it. */
  predicate Published(imp: Importer, data: seq<Row>, p: Labelled) {
    p.item < |data| && LabelledPage(imp, p.item, data[p.item]) == Some(p)
  }

  /** The pages of one side, in dataset order. */
  ghost predicate IsSide(imp: Importer, data: seq<Row>, n: nat, positive: bool, side: seq<Labelled>) {
    && (forall k :: 0 <= k < |side| ==>
          side[k].positive == positive && side[k].item < n && Published(imp, data, side[k]))
    && (forall j, k :: 0 <= j < k < |side| ==> side[j].item < side[k].item)
  }

  lemma PageIsPublished(imp: Importer, data: seq<Row>, item: nat)
    requires item < |data|
    ensures var one := LabelledPage(imp, item, data[item]);
            one.Some? ==> one.value.item == item && Published(imp, data, one.value)
  {
  }

  lemma OneMorePage(imp: Importer, data: seq<Row>, n: nat, positive: bool, side: seq<Labelled>, one: Option<Labelled>)
    requires IsSide(imp, data, n, positive, side)
    requires one.Some? ==> one.value.item == n && Published(imp, data, one.value)
    ensures IsSide(imp, data, n + 1, positive, Extended(side, one, positive))
  {
    hide Published;
  }

  lemma NoPagesYet(imp: Importer, data: seq<Row>, positive: bool)
    ensures IsSide(imp, data, 0, positive, Side(imp, data, 0, positive))
  {
  }

  lemma {:induction false} SideIs(imp: Importer, data: seq<Row>, n: nat, positive: bool)
    requires n <= |data|
    ensures IsSide(imp, data, n, positive, Side(imp, data, n, positive))
  {
    hide *;
    if n == 0 {
      NoPagesYet(imp, data, positive);
    } else {
      SideIs(imp, data, n - 1, positive);
      PageIsPublished(imp, data, n - 1);
      SideNext(imp, data, n - 1, positive);
      OneMorePage(imp, data, n - 1, positive, Side(imp, data, n - 1, positive), LabelledPage(imp, n - 1, data[n - 1]));
    }
  }

  lemma SelectedAt(imp: Importer, n: int, data: seq<Row>, digest: nat -> string, i: nat)
    requires i < |Selected(imp, n, data, digest)|
    ensures var (trues, falses) := (Side(imp, data, |data|, true), Side(imp, data, |data|, false));
            && i + i + 1 < |trues| && i + i + 1 < |falses|
            && Selected(imp, n, data, digest)[i] == CaseOf(trues, falses, i, digest)
  {
    var (trues, falses) := (Side(imp, data, |data|, true), Side(imp, data, |data|, false));
    CasesAre(trues, falses, GroupsOf(n, |trues|, |falses|), digest);
    hide Side, Cases, CaseOf, GroupsOf;
  }

  lemma CaseHolds(trues: seq<Labelled>, falses: seq<Labelled>, i: nat, digest: nat -> string)
    requires i + i + 1 < |trues| && i + i + 1 < |falses|
    ensures multiset(CaseOf(trues, falses, i, digest))
         == multiset{trues[i + i], trues[i + i + 1], falses[i + i], falses[i + i + 1]}
  {
    hide SortBy;
    var (a, b) := (HalfGroup(trues, i), HalfGroup(falses, i));
    assert a + b == [trues[i + i], trues[i + i + 1], falses[i + i], falses[i + i + 1]];
  }

  /** The four pages of a case: the next two of each side. */
  lemma CaseIsHalfAndHalf(imp: Importer, n: int, data: seq<Row>, digest: nat -> string, i: nat)
    requires i < |Selected(imp, n, data, digest)|
    ensures var (trues, falses) := (Side(imp, data, |data|, true), Side(imp, data, |data|, false));
            && i + i + 1 < |trues| && i + i + 1 < |falses|
            && multiset(Selected(imp, n, data, digest)[i])
               == multiset{trues[i + i], trues[i + i + 1], falses[i + i], falses[i + i + 1]}
            && trues[i + i].positive && trues[i + i + 1].positive
            && !falses[i + i].positive && !falses[i + i + 1].positive
  {
    SelectedAt(imp, n, data, digest, i);
    var (trues, falses) := (Side(imp, data, |data|, true), Side(imp, data, |data|, false));
    CaseHolds(trues, falses, i, digest);
    SideIs(imp, data, |data|, true);
    SideIs(imp, data, |data|, false);
    hide Selected, Side, CaseOf, Published;
  }

  lemma MembersOfFour(c: Case, a: Labelled, b: Labelled, x: Labelled, y: Labelled)
    requires multiset(c) == multiset{a, b, x, y}
    ensures |c| == 4 && forall p :: p in c <==> p == a || p == b || p == x || p == y
  {
    assert |c| == |multiset(c)|;
    forall p
      ensures p in c <==> p == a || p == b || p == x || p == y
    {
      assert p in c <==> p in multiset(c);
    }
  }

  /** The same, without the order: which pages a case holds. */
  predicate InGroup(trues: seq<Labelled>, falses: seq<Labelled>, i: nat, p: Labelled)
    requires i + i + 1 < |trues| && i + i + 1 < |falses|
  {
    p == trues[i + i] || p == trues[i + i + 1] || p == falses[i + i] || p == falses[i + i + 1]
  }

  lemma CasePages(imp: Importer, n: int, data: seq<Row>, digest: nat -> string, i: nat)
    requires i < |Selected(imp, n, data, digest)|
    ensures var (trues, falses) := (Side(imp, data, |data|, true), Side(imp, data, |data|, false));
            && i + i + 1 < |trues| && i + i + 1 < |falses|
            && |Selected(imp, n, data, digest)[i]| == GROUP
            && (forall p :: p in Selected(imp, n, data, digest)[i] <==> InGroup(trues, falses, i, p))
  {
    CaseIsHalfAndHalf(imp, n, data, digest, i);
    hide Selected, Side;
    var (trues, falses) := (Side(imp, data, |data|, true), Side(imp, data, |data|, false));
    MembersOfFour(Selected(imp, n, data, digest)[i], trues[i + i], trues[i + i + 1], falses[i + i], falses[i + i + 1]);
  }

  /** Every case that its two sides have pages for, up to the number asked for. */
  lemma SelectedAreAllThatFit(imp: Importer, n: int, data: seq<Row>, digest: nat -> string)
    ensures var (trues, falses) := (Side(imp, data, |data|, true), Side(imp, data, |data|, false));
            var k := |Selected(imp, n, data, digest)|;
            && 2 * k <= |trues| && 2 * k <= |falses| && k <= Max(n, 0)
            && (k < n ==> 2 * (k + 1) > |trues| || 2 * (k + 1) > |falses|)
  {
    var (trues, falses) := (Side(imp, data, |data|, true), Side(imp, data, |data|, false));
    hide Side, CaseOf;
    var groups := GroupsOf(n, |trues|, |falses|);
    CasesAre(trues, falses, Max(groups, 0), digest);
  }

  lemma DigestsAreOrdered(pages: seq<Labelled>, digest: nat -> string)
    ensures forall a, b :: 0 <= a < b < |pages| ==>
              Leq(digest(Shuffled(pages, digest)[a].item), digest(Shuffled(pages, digest)[b].item))
  {
    forall a: Labelled, b: Labelled
      ensures DigestOrder(digest)(a, b) || DigestOrder(digest)(b, a)
    {
      LeqTotal(digest(a.item), digest(b.item));
    }
    forall a: Labelled, b: Labelled, c: Labelled | DigestOrder(digest)(a, b) && DigestOrder(digest)(b, c)
      ensures DigestOrder(digest)(a, c)
    {
      LeqTransitive(digest(a.item), digest(b.item), digest(c.item));
    }
    SortByOrdered(pages, DigestOrder(digest));
    var out := Shuffled(pages, digest);
    assert |out| == |multiset(out)| == |pages|;
    hide Leq, SortBy;
    forall a, b | 0 <= a < b < |pages|
      ensures Leq(digest(out[a].item), digest(out[b].item))
    {
      assert DigestOrder(digest)(out[a], out[b]);
    }
  }

  /** A case shows its pages in the order of their digests. */
  lemma CaseIsInDigestOrder(imp: Importer, n: int, data: seq<Row>, digest: nat -> string, i: nat)
    requires i < |Selected(imp, n, data, digest)|
    ensures var c := Selected(imp, n, data, digest)[i];
            forall a, b :: 0 <= a < b < |c| ==> Leq(digest(c[a].item), digest(c[b].item))
  {
    SelectedAt(imp, n, data, digest, i);
    var (trues, falses) := (Side(imp, data, |data|, true), Side(imp, data, |data|, false));
    var pages := HalfGroup(trues, i) + HalfGroup(falses, i);
    hide Selected, Side;
    DigestsAreOrdered(pages, digest);
    var c := CaseOf(trues, falses, i, digest);
    assert c == Shuffled(pages, digest);
    assert |c| == |multiset(c)| == |pages|;
    hide Shuffled, CaseOf;
  }

  /**
   * A row is a page if its text, without the white space about it, has some characters and at most 1500. Its answer
   * is yes if its label, likewise and in any letter case, is the one that stands for yes; no label reads as none.
   */
  lemma PageIs(imp: Importer, item: nat, row: Row, l: string, text: string, r: string, m: string, said: string,
               s: string)
    requires imp.text in row && row[imp.text] == l + text + r && AllSpace(l) && AllSpace(r) && Stripped(text)
    requires imp.mark in row ==> row[imp.mark] == m + said + s && AllSpace(m) && AllSpace(s) && Stripped(said)
    ensures var page := LabelledPage(imp, item, row);
            && (page.None? <==> text == "" || |text| > 1500)
            && (page.Some? ==>
                  && page.value.item == item && page.value.text == text
                  && (imp.mark in row ==> (page.value.positive <==> Lower(said) == imp.positive))
                  && (imp.mark !in row ==> (page.value.positive <==> imp.positive == "none")))
  {
    StripPads(l, text, r);
    if imp.mark in row {
      StripPads(m, said, s);
    }
    StripOfStripped("None");
    var none := "None";
    assert Lower(none) == "none" by {
      assert none[1..] == "one" && "one"[1..] == "ne" && "ne"[1..] == "e" && "e"[1..] == "";
      assert Lower("e") == ['e'] + Lower("");
      assert Lower("ne") == ['n'] + Lower("e");
      assert Lower("one") == ['o'] + Lower("ne");
    }
    hide Strip, Lower;
  }

  lemma NoTextIsNoPage(imp: Importer, item: nat, row: Row)
    requires imp.text !in row
    ensures LabelledPage(imp, item, row) == None
  {
    StripOfStripped("");
  }

  /** Giving one answer for every page passes the case. */
  predicate PassedByAlways(c: Case, answer: bool) { forall p <- c :: p.positive == answer }

  /** Half its answers are yes and half no, each as published, so no constant answer passes it. */
  lemma NoConstantAnswerPasses(imp: Importer, n: int, data: seq<Row>, digest: nat -> string, i: nat)
    requires i < |Selected(imp, n, data, digest)|
    ensures var c := Selected(imp, n, data, digest)[i];
            && |c| == GROUP
            && (forall p <- c :: Published(imp, data, p))
            && !PassedByAlways(c, true) && !PassedByAlways(c, false)
  {
    CasePages(imp, n, data, digest, i);
    SideIs(imp, data, |data|, true);
    SideIs(imp, data, |data|, false);
    var (trues, falses) := (Side(imp, data, |data|, true), Side(imp, data, |data|, false));
    hide Side, Selected, Published, IsSide, InGroup;
    var c := Selected(imp, n, data, digest)[i];
    GroupIsPublished(imp, data, trues, falses, i);
    assert trues[i + i] in c && falses[i + i] in c;
  }

  lemma GroupIsPublished(imp: Importer, data: seq<Row>, trues: seq<Labelled>, falses: seq<Labelled>, i: nat)
    requires IsSide(imp, data, |data|, true, trues) && IsSide(imp, data, |data|, false, falses)
    requires i + i + 1 < |trues| && i + i + 1 < |falses|
    ensures forall p :: InGroup(trues, falses, i, p) ==> Published(imp, data, p)
    ensures InGroup(trues, falses, i, trues[i + i]) && trues[i + i].positive
    ensures InGroup(trues, falses, i, falses[i + i]) && !falses[i + i].positive
  {
    hide Published;
  }

  lemma TwiceIsTwice(c: Case, j: nat, k: nat)
    requires j < k < |c| && c[j] == c[k]
    ensures multiset(c)[c[j]] >= 2
  {
    assert c == c[..k] + c[k..];
    assert c[j] in c[..k] && c[k] in c[k..];
  }

  lemma FourApart(c: Case, a: Labelled, b: Labelled, x: Labelled, y: Labelled)
    requires multiset(c) == multiset{a, b, x, y} && a != b && a != x && a != y && b != x && b != y && x != y
    ensures Distinct(c)
  {
    forall j, k | 0 <= j < k < |c|
      ensures c[j] != c[k]
    {
      if c[j] == c[k] {
        TwiceIsTwice(c, j, k);
        assert false;
      }
    }
  }

  /** A page is told by its item. */
  lemma ItemIsThePage(imp: Importer, data: seq<Row>, p: Labelled, q: Labelled)
    requires Published(imp, data, p) && Published(imp, data, q)
    ensures p.item == q.item <==> p == q
  {
  }

  lemma GroupsApart(imp: Importer, data: seq<Row>, trues: seq<Labelled>, falses: seq<Labelled>, i: nat, j: nat,
                    p: Labelled, q: Labelled)
    requires IsSide(imp, data, |data|, true, trues) && IsSide(imp, data, |data|, false, falses) && i < j
    requires j + j + 1 < |trues| && j + j + 1 < |falses|
    requires InGroup(trues, falses, i, p) && InGroup(trues, falses, j, q)
    ensures p.item != q.item
  {
    if p.positive != q.positive {
      assert Published(imp, data, p) && Published(imp, data, q) by {
        hide Published;
      }
      ItemIsThePage(imp, data, p, q);
    }
    hide Published;
  }

  /** No item is used in two cases. */
  lemma NoPageIsUsedTwice(imp: Importer, n: int, data: seq<Row>, digest: nat -> string, i: nat, j: nat,
                          p: Labelled, q: Labelled)
    requires i < j < |Selected(imp, n, data, digest)|
    requires p in Selected(imp, n, data, digest)[i] && q in Selected(imp, n, data, digest)[j]
    ensures p.item != q.item
  {
    hide *;
    CasePages(imp, n, data, digest, i);
    CasePages(imp, n, data, digest, j);
    SideIs(imp, data, |data|, true);
    SideIs(imp, data, |data|, false);
    GroupsApart(imp, data, Side(imp, data, |data|, true), Side(imp, data, |data|, false), i, j, p, q);
  }

  /** Nor twice in one. */
  lemma PagesOfACaseDiffer(imp: Importer, n: int, data: seq<Row>, digest: nat -> string, i: nat)
    requires i < |Selected(imp, n, data, digest)|
    ensures Distinct(Selected(imp, n, data, digest)[i])
  {
    CaseIsHalfAndHalf(imp, n, data, digest, i);
    SideIs(imp, data, |data|, true);
    SideIs(imp, data, |data|, false);
    hide Side, Selected, Published, Distinct;
    var (trues, falses) := (Side(imp, data, |data|, true), Side(imp, data, |data|, false));
    FourApart(Selected(imp, n, data, digest)[i], trues[i + i], trues[i + i + 1], falses[i + i], falses[i + i + 1]);
  }

  // ---- self-invoking items ----

  /** The first `n` rows' cases, of those whose reference passes. */
  function Converted<C>(data: seq<Row>, n: nat, convert: (nat, Row) -> Option<C>): (made: seq<C>)
    requires n <= |data|
    ensures |made| <= n
  {
    if n == 0 then []
    else
      var before := Converted(data, n - 1, convert);
      var one := convert(n - 1, data[n - 1]);
      if one.Some? then before + [one.value] else before
  }

  lemma {:induction false} ConvertedIsAPrefix<C>(data: seq<Row>, n: nat, m: nat, convert: (nat, Row) -> Option<C>)
    requires n <= m <= |data|
    ensures Converted(data, n, convert) <= Converted(data, m, convert)
    decreases m
  {
    if n < m {
      ConvertedIsAPrefix(data, n, m - 1, convert);
    }
  }

  lemma NothingConverted<C>(data: seq<Row>, convert: (nat, Row) -> Option<C>)
    ensures Converted(data, 0, convert) == []
  {
  }

  lemma ConvertedNext<C>(data: seq<Row>, n: nat, convert: (nat, Row) -> Option<C>)
    requires n < |data|
    ensures var one := convert(n, data[n]);
            Converted(data, n + 1, convert) == Converted(data, n, convert) + if one.Some? then [one.value] else []
  {
  }

  /** Enough were picked, or there were no more to convert. */
  lemma PickedIsFirst<C>(n: int, data: seq<Row>, read: nat, convert: (nat, Row) -> Option<C>, picked: seq<C>)
    requires read <= |data| && picked == Converted(data, read, convert)
    requires |picked| == Max(n, 1) || (read == |data| && |picked| < Max(n, 1))
    ensures var all := Converted(data, |data|, convert); picked == all[..Min(|all|, Max(n, 1))]
  {
    ConvertedIsAPrefix(data, read, |data|, convert);
    hide Converted;
  }

  /** Items in dataset order until `n` have passed; the count is looked at after one is taken, never before. */
  method SelectSelfInvoking<C>(n: int, get: (nat, nat) -> Page<Row>, convert: (nat, Row) -> Option<C>,
                               ghost data: seq<Row>)
    returns (picked: seq<C>)
    requires Faithful(get, data)
    ensures var all := Converted(data, |data|, convert); picked == all[..Min(|all|, Max(n, 1))]
  {
    var rows := new Cursor(get, data);
    picked := [];
    ghost var read := 0;
    var next := rows.First();
    rows.WhatIsHeld(0, next);
    NothingConverted(data, convert);
    RowAtIs(data, 0);
    hide *;
    while next.Some?
      invariant fresh(rows) && rows.data == data && rows.Holds(read, next)
      invariant read <= |data| && next == RowAt(data, read)
      invariant picked == Converted(data, read, convert) && |picked| < Max(n, 1)
      decreases |data| - read
    {
      RowAtIs(data, read);
      var made := convert(next.value.0, next.value.1);
      ConvertedNext(data, read, convert);
      read := read + 1;
      if made.Some? {
        picked := picked + [made.value];
        if |picked| >= n {
          break;
        }
      }
      next := rows.Following(read - 1, next);
      rows.WhatIsHeld(read, next);
    }
    RowAtIs(data, read);
    PickedIsFirst(n, data, read, convert, picked);
  }

  /** That is the first `n` of the whole scan exactly when one is asked for or none passes. */
  lemma FirstNExactly<C>(n: nat, data: seq<Row>, convert: (nat, Row) -> Option<C>)
    ensures var all := Converted(data, |data|, convert);
            all[..Min(|all|, Max(n, 1))] == all[..Min(|all|, n)] <==> n >= 1 || all == []
  {
    var all := Converted(data, |data|, convert);
    assert |all[..Min(|all|, Max(n, 1))]| == Min(|all|, Max(n, 1));
    hide Converted;
  }
}

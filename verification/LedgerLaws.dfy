/** The table and the disk agree after record_unrecorded, and recording again changes nothing. */
module LedgerLaws {
  import opened Common
  import opened Text
  import opened Ledger

  /** Rows keep their place, path and machine, and a removed row is never touched again. */
  predicate Extends(rows: seq<Row>, after: seq<Row>) {
    && |rows| <= |after|
    && forall i :: 0 <= i < |rows| ==>
         && after[i].path == rows[i].path && after[i].machine == rows[i].machine && after[i].origin == rows[i].origin
         && (rows[i].removed.Some? ==> after[i] == rows[i])
  }

  /** start() reuses the newest live row of its kind and path, and appends exactly when there is none. */
  lemma {:induction false} LatestIsNewest(rows: seq<Row>, m: nat, kind: Kind, p: Path)
    ensures var got := LatestAt(rows, m, kind, p);
            forall i :: 0 <= i < |rows| && IsLive(rows[i], m) && rows[i].kind == kind && rows[i].path == p ==>
              got.Some? && i <= got.value
  {
    if rows != [] {
      LatestIsNewest(rows[..|rows| - 1], m, kind, p);
    }
  }

  lemma {:induction false} StampedIs(rows: seq<Row>, m: nat, p: Path, how: Removal)
    ensures forall i :: 0 <= i < |rows| ==>
              Stamped(rows, m, p, how)[i] == if IsLive(rows[i], m) && rows[i].path == p
                                             then rows[i].(removed := Some(how), complete := false) else rows[i]
  {
    if rows != [] {
      StampedIs(rows[1..], m, p, how);
    }
  }

  /** After removed(p) the live rows are the old ones at every other path, unchanged and in place. */
  lemma RemovedIs(rows: seq<Row>, m: nat, g: Gone, how: Removal, w: World)
    ensures var after := Removed(rows, m, g, how, w);
            && Extends(rows, after)
            && (forall i :: 0 <= i < |after| && IsLive(after[i], m) ==>
                  i < |rows| && after[i] == rows[i] && rows[i].path != g.path)
            && (forall i :: 0 <= i < |rows| && rows[i].path != g.path ==> after[i] == rows[i])
  {
    StampedIs(rows, m, g.path, how);
  }

  /** `after` has exactly the live rows of `rows` at the paths `gone` does not name. */
  predicate Without(rows: seq<Row>, after: seq<Row>, m: nat, gone: set<Path>) {
    && Extends(rows, after)
    && (forall i :: 0 <= i < |after| && IsLive(after[i], m) ==>
          i < |rows| && after[i] == rows[i] && rows[i].path !in gone)
    && (forall i :: 0 <= i < |rows| && rows[i].path !in gone ==> after[i] == rows[i])
  }

  function PathsOf(rows: seq<Row>): set<Path> { set r | r in rows :: r.path }

  lemma {:induction false} RemoveGoneIs(rows: seq<Row>, m: nat, gone: seq<Row>, how: Removal, w: World)
    ensures Without(rows, RemoveGone(rows, m, gone, how, w), m, PathsOf(gone))
    decreases gone
  {
    if gone != [] {
      var g := Gone(gone[0].path, "", gone[0].kind, 0, "");
      var next := Removed(rows, m, g, how, w);
      RemovedIs(rows, m, g, how, w);
      RemoveGoneIs(next, m, gone[1..], how, w);
      assert gone == [gone[0]] + gone[1..];
      assert PathsOf(gone) == {gone[0].path} + PathsOf(gone[1..]) by {
        assert gone[0] in gone;
        assert forall r :: r in gone <==> r == gone[0] || r in gone[1..];
      }
    }
  }

  /** `after` has the live rows of `rows`, at their paths and origins, and live rows at exactly `paths` more. */
  predicate With(rows: seq<Row>, after: seq<Row>, m: nat, paths: set<Path>) {
    && Extends(rows, after)
    && (forall i :: 0 <= i < |rows| && IsLive(rows[i], m) ==> IsLive(after[i], m))
    && (forall i :: 0 <= i < |after| && IsLive(after[i], m) ==>
          (i < |rows| && IsLive(rows[i], m)) || after[i].path in paths)
    && (forall p <- paths :: LiveAt(after, m, p))
  }

  lemma RecordedIs(rows: seq<Row>, m: nat, kind: Kind, p: Path, repo: string, origin: string, source: string, w: World)
    ensures With(rows, Recorded(rows, m, kind, p, repo, origin, source, w), m, {p})
  {
    var after := Recorded(rows, m, kind, p, repo, origin, source, w);
    var (_, i) := Started(rows, m, kind, p, repo, origin, w);
    assert IsLive(after[i], m) && after[i].path == p;
    assert after[i] in after;
  }

  lemma WithTrans(a: seq<Row>, b: seq<Row>, c: seq<Row>, m: nat, p: set<Path>, q: set<Path>)
    requires With(a, b, m, p) && With(b, c, m, q)
    ensures With(a, c, m, p + q)
  {
    forall x | x in p
      ensures LiveAt(c, m, x)
    {
      var r :| r in b && IsLive(r, m) && r.path == x;
      var i :| 0 <= i < |b| && b[i] == r;
      assert c[i] in c && IsLive(c[i], m);
    }
  }

  function ItemPaths(items: seq<Item>): set<Path> { set x | x in items :: x.1 }

  lemma NextItem(rows: seq<Row>, m: nat, items: seq<Item>, origin: string, w: World)
    requires items != []
    ensures var next := RecordItem(rows, m, items[0], origin, w);
            && With(rows, next, m, {items[0].1})
            && RecordItems(rows, m, items, origin, w) == RecordItems(next, m, items[1..], origin, w)
  {
    var (repo, target) := w.ggufRepo(rows, items[0].1);
    RecordedIs(rows, m, HUB, items[0].1, w.hubRepo(items[0].1), origin, "", w);
    RecordedIs(rows, m, GGUF, items[0].1, repo, if target != "" then LINK else origin, target, w);
    hide With, Recorded;
  }

  lemma ItemPathsNext(items: seq<Item>)
    requires items != []
    ensures ItemPaths(items) == {items[0].1} + ItemPaths(items[1..])
  {
    assert items[0] in items;
    assert forall x :: x in items <==> x == items[0] || x in items[1..];
  }

  lemma {:induction false} RecordItemsIs(rows: seq<Row>, m: nat, items: seq<Item>, origin: string, w: World)
    ensures With(rows, RecordItems(rows, m, items, origin, w), m, ItemPaths(items))
    decreases items
  {
    if items != [] {
      var next := RecordItem(rows, m, items[0], origin, w);
      hide *;
      NextItem(rows, m, items, origin, w);
      ItemPathsNext(items);
      RecordItemsIs(next, m, items[1..], origin, w);
      WithTrans(rows, next, RecordItems(rows, m, items, origin, w), m, {items[0].1}, ItemPaths(items[1..]));
    }
  }

  // ---- drift, read pointwise ----

  lemma {:induction false} GoneRowsAre(rows: seq<Row>, m: nat, t: Tree)
    ensures forall r :: r in GoneRows(rows, m, t) <==> r in rows && IsGone(r, m, t)
  {
    if rows != [] {
      var n := |rows| - 1;
      GoneRowsAre(rows[..n], m, t);
      assert rows == rows[..n] + [rows[n]];
    }
  }

  lemma {:induction false} UnknownAre(items: seq<Item>, rows: seq<Row>, m: nat)
    ensures forall x :: x in UnknownOf(items, rows, m) <==> x in items && !LiveAt(rows, m, x.1)
  {
    if items != [] {
      UnknownAre(items[1..], rows, m);
      assert forall x :: x in items <==> x == items[0] || x in items[1..];
    }
  }

  /** No drift: every live row but a partial's has its path, and every scanned path has a live row. */
  lemma NoDriftMeans(rows: seq<Row>, m: nat, t: Tree)
    ensures NoDrift(rows, m, t) <==>
            && (forall r <- rows :: !IsGone(r, m, t))
            && (forall x <- Scan(t) :: LiveAt(rows, m, x.1))
    ensures NoDrift(rows, m, t) ==>
              forall r <- rows | IsLive(r, m) && r.origin != "partial" && r.path.Elsewhere? ::
                r.path.text in t.elsewhere
  {
    GoneRowsAre(rows, m, t);
    UnknownAre(Scan(t), rows, m);
    EmptyIsNone(GoneRows(rows, m, t));
    EmptyIsNone(Unrecorded(rows, m, t));
  }

  lemma {:induction false} HubItemsAre(names: seq<string>)
    ensures forall x :: x in HubItems(names) <==> x.0 == HUB && x.1.HubPath? && x.1.name in names
  {
    if names != [] {
      HubItemsAre(names[1..]);
      assert forall n :: n in names <==> n == names[0] || n in names[1..];
    }
  }

  lemma {:induction false} FileItemsAre(names: seq<string>)
    ensures forall x :: x in FileItems(names) <==> x.0 == GGUF && x.1.GgufPath? && x.1.name in names
  {
    if names != [] {
      FileItemsAre(names[1..]);
      assert forall n :: n in names <==> n == names[0] || n in names[1..];
    }
  }

  /** Some stem and .gguf, in whatever letter case. */
  ghost predicate SpellsGguf(name: string) { exists stem: string :: Lower(name) == stem + ".gguf" }

  ghost predicate SpellsModel(name: string) { exists repo: string :: name == "models--" + repo }

  lemma NamesAre(t: Tree)
    ensures forall n: string :: IsGgufName(n) <==> SpellsGguf(n)
    ensures forall n :: IsModelDir(t, n) <==> n in t.hub && t.hub[n] == HubDir && SpellsModel(n)
  {
    forall n: string
      ensures IsGgufName(n) <==> SpellsGguf(n)
    {
      EndsWithExactly(Lower(n), ".gguf");
    }
    forall n | n in t.hub && StartsWith(n, "models--")
      ensures SpellsModel(n)
    {
      assert n == "models--" + n[8..];
    }
  }

  /**
   * The scan lists each real directory of the hub that is called models-- and a repo, and each name in the GGUF
   * directory that ends in .gguf in whatever case, and only those.
   */
  lemma ScanIs(t: Tree)
    ensures forall x :: x in Scan(t) <==>
              || (x.0 == HUB && x.1.HubPath? && x.1.name in t.hub && t.hub[x.1.name] == HubDir
                  && SpellsModel(x.1.name))
              || (x.0 == GGUF && x.1.GgufPath? && x.1.name in t.gguf && SpellsGguf(x.1.name))
    ensures forall x <- Scan(t) :: Lexists(t, x.1)
  {
    HubItemsAre(SortedNames(ModelDirs(t)));
    FileItemsAre(SortedNames(GgufNames(t)));
    NamesAre(t);
    hide IsGgufName, SpellsGguf, SpellsModel;
  }

  // ---- the theorem ----

  lemma SettledLiveRows(rows: seq<Row>, m: nat, t: Tree, origin: string, w: World)
    ensures var after := Settled(rows, m, t, origin, w);
            && Extends(rows, after)
            && (forall i :: 0 <= i < |after| && IsLive(after[i], m) ==>
                  || (i < |rows| && IsLive(rows[i], m) && !IsGone(rows[i], m, t))
                  || after[i].path in ItemPaths(Unrecorded(rows, m, t)))
            && (forall p :: LiveAt(rows, m, p) && p !in PathsOf(GoneRows(rows, m, t)) ==> LiveAt(after, m, p))
            && (forall p <- ItemPaths(Unrecorded(rows, m, t)) :: LiveAt(after, m, p))
  {
    var how := Removal(w.now, "absent at " + origin, None);
    var gone, items := GoneRows(rows, m, t), Unrecorded(rows, m, t);
    var kept := RemoveGone(rows, m, gone, how, w);
    var after := RecordItems(kept, m, items, origin, w);
    RemoveGoneIs(rows, m, gone, how, w);
    RecordItemsIs(kept, m, items, origin, w);
    GoneRowsAre(rows, m, t);
    hide RemoveGone, RecordItems, GoneRows, Lexists, Unrecorded;
    forall i | 0 <= i < |rows| && IsGone(rows[i], m, t)
      ensures rows[i].path in PathsOf(gone)
    {
      assert rows[i] in gone;
    }
    forall p | LiveAt(rows, m, p) && p !in PathsOf(gone)
      ensures LiveAt(after, m, p)
    {
      var r :| r in rows && IsLive(r, m) && r.path == p;
      var i :| 0 <= i < |rows| && rows[i] == r;
      assert kept[i] == r && IsLive(after[i], m) && after[i] in after;
    }
  }

  /** After record_unrecorded neither side drifts, and rows removed earlier are as they were. */
  lemma RecordingClearsDrift(rows: seq<Row>, m: nat, t: Tree, origin: string, w: World)
    ensures NoDrift(Settled(rows, m, t, origin, w), m, t)
    ensures Extends(rows, Settled(rows, m, t, origin, w))
  {
    var after := Settled(rows, m, t, origin, w);
    SettledLiveRows(rows, m, t, origin, w);
    ScanIs(t);
    GoneRowsAre(rows, m, t);
    UnknownAre(Scan(t), rows, m);
    NoDriftMeans(after, m, t);
    var gone, items := GoneRows(rows, m, t), Unrecorded(rows, m, t);
    assert forall x <- items :: Lexists(t, x.1);
    assert forall r <- gone :: !Lexists(t, r.path);
    hide Settled, Scan, GoneRows, UnknownOf, Lexists, Unrecorded, NoDrift;
    forall r <- after
      ensures !IsGone(r, m, t)
    {
      var i :| 0 <= i < |after| && after[i] == r;
      if IsLive(r, m) && r.path !in ItemPaths(items) {
        assert IsLive(rows[i], m) && !IsGone(rows[i], m, t) && after[i].origin == rows[i].origin;
      }
    }
    forall x <- Scan(t)
      ensures LiveAt(after, m, x.1)
    {
      if !LiveAt(rows, m, x.1) {
        assert x in items;
      }
    }
  }

  /** A second call writes nothing. */
  lemma RecordingAgainWritesNothing(rows: seq<Row>, m: nat, t: Tree, origin: string, w: World, again: World)
    ensures var after := Settled(rows, m, t, origin, w);
            Settled(after, m, t, origin, again) == after
  {
    RecordingClearsDrift(rows, m, t, origin, w);
  }

  // ---- what a recorded row says ----

  /** The row's own measurements are of what is at its path now, and it is complete exactly if that loads. */
  predicate Measured(r: Row, w: World) {
    r.bytes == w.size(r.path) && r.complete == w.loadable(r.path) && r.finished == Some(w.now)
  }

  /** finish() measures the row's path, marks it complete only if it loads and nothing failed, and no other row. */
  lemma FinishMeasures(rows: seq<Row>, i: nat, failed: bool, w: World)
    requires i < |rows|
    ensures var after := Finished(rows, i, failed, w);
            && |after| == |rows| && (forall j :: 0 <= j < |rows| && j != i ==> after[j] == rows[j])
            && after[i].path == rows[i].path && after[i].repo == rows[i].repo && IsSame(after[i], rows[i])
            && (failed ==> !after[i].complete) && (!failed ==> Measured(after[i], w))
            && after[i].bytes == w.size(rows[i].path) && after[i].finished == Some(w.now)
  {
  }

  /** What only the first writing of a row sets, and its removal. */
  predicate IsSame(r: Row, was: Row) {
    && r.kind == was.kind && r.path == was.path && r.origin == was.origin && r.machine == was.machine
    && r.proposal == was.proposal && r.removed == was.removed
  }

  /** A download is in flight, and not complete, from start() until finish(). */
  lemma StartIsInFlight(rows: seq<Row>, m: nat, kind: Kind, p: Path, repo: string, origin: string, w: World)
    ensures var (begun, i) := Started(rows, m, kind, p, repo, origin, w);
            && i < |begun| && IsLive(begun[i], m) && begun[i].kind == kind && begun[i].path == p
            && begun[i].started == Some(w.now) && begun[i].finished == None && !begun[i].complete
            && (forall j :: 0 <= j < |rows| && j != i ==> begun[j] == rows[j])
            && (i < |rows| ==> |begun| == |rows| && IsSame(begun[i], rows[i]) && begun[i].repo == rows[i].repo)
            && (i >= |rows| ==>
                  && i == |rows| && |begun| == |rows| + 1 && begun[i].repo == repo
                  && begun[i].origin == origin && begun[i].proposal == w.proposal(repo))
  {
  }

  /**
   * record() leaves one row of the path measured, with its source, the repo it had or else the one given, and every
   * other row as it was. The row is the newest live one of its kind there; a new row only if there was none.
   */
  lemma RecordMeasures(rows: seq<Row>, m: nat, kind: Kind, p: Path, repo: string, origin: string, source: string,
                       w: World) returns (i: nat)
    ensures var after := Recorded(rows, m, kind, p, repo, origin, source, w);
            && i < |after| && IsLive(after[i], m) && after[i].kind == kind && after[i].path == p
            && Measured(after[i], w) && after[i].started == Some(w.now) && after[i].source == source
            && (forall j :: 0 <= j < |rows| && j != i ==> after[j] == rows[j])
            && (i < |rows| ==>
                  && |after| == |rows| && IsLive(rows[i], m) && IsSame(after[i], rows[i])
                  && after[i].repo == if rows[i].repo != "" then rows[i].repo else repo)
            && (i >= |rows| ==>
                  && |after| == |rows| + 1 && after[i].repo == repo && after[i].origin == origin
                  && after[i].proposal == w.proposal(repo))
    ensures i < |rows| <==>
              exists j :: 0 <= j < |rows| && IsLive(rows[j], m) && rows[j].kind == kind && rows[j].path == p
    ensures forall j :: i < j < |rows| ==> !(IsLive(rows[j], m) && rows[j].kind == kind && rows[j].path == p)
  {
    LatestIsNewest(rows, m, kind, p);
    i := Started(rows, m, kind, p, repo, origin, w).1;
  }

  predicate PathsDiffer(items: seq<Item>) {
    forall i, j :: 0 <= i < j < |items| ==> items[i].1 != items[j].1
  }

  lemma {:induction false} RecordItemsMeasure(rows: seq<Row>, m: nat, items: seq<Item>, origin: string, w: World)
    requires PathsDiffer(items)
    ensures var after := RecordItems(rows, m, items, origin, w);
            && (forall j :: 0 <= j < |rows| && rows[j].path !in ItemPaths(items) ==>
                  j < |after| && after[j] == rows[j])
            && (forall x <- items :: HasMeasured(after, m, x, w))
    decreases items
  {
    if items != [] {
      var (x, rest) := (items[0], items[1..]);
      var next := RecordItem(rows, m, x, origin, w);
      var i := ItemMeasures(rows, m, x, origin, w);
      NextItem(rows, m, items, origin, w);
      ItemPathsNext(items);
      RecordItemsMeasure(next, m, rest, origin, w);
      hide RecordItem, RecordItems, With, Measured, IsLive;
      var after := RecordItems(rows, m, items, origin, w);
      assert x.1 !in ItemPaths(rest) by {
        assert forall y <- rest :: exists k :: 0 < k < |items| && items[k] == y;
      }
      assert after[i] == next[i] && after[i] in after;
      assert forall y <- items :: y == x || y in rest;
    }
  }

  /** A live row of the item, measured. */
  predicate HasMeasured(rows: seq<Row>, m: nat, x: Item, w: World) {
    exists r <- rows :: IsLive(r, m) && r.kind == x.0 && r.path == x.1 && Measured(r, w)
  }

  lemma ItemMeasures(rows: seq<Row>, m: nat, x: Item, origin: string, w: World) returns (i: nat)
    ensures var next := RecordItem(rows, m, x, origin, w);
            && i < |next| && IsLive(next[i], m) && next[i].kind == x.0 && next[i].path == x.1 && Measured(next[i], w)
            && |rows| <= |next| && (forall j :: 0 <= j < |rows| && rows[j].path != x.1 ==> next[j] == rows[j])
  {
    hide Recorded, Measured;
    if x.0 == HUB {
      i := RecordMeasures(rows, m, HUB, x.1, w.hubRepo(x.1), origin, "", w);
    } else {
      var (repo, target) := w.ggufRepo(rows, x.1);
      i := RecordMeasures(rows, m, GGUF, x.1, repo, if target != "" then LINK else origin, target, w);
    }
  }

  /** The scan lists no path twice. */
  lemma ScanIsDistinct(t: Tree)
    ensures PathsDiffer(Scan(t))
  {
    var dirs, names := SortedNames(ModelDirs(t)), SortedNames(GgufNames(t));
    HubItemsInOrder(dirs);
    FileItemsInOrder(names);
    hide HubItems, FileItems, SortedNames, ModelDirs, GgufNames;
    var items := HubItems(dirs) + FileItems(names);
    assert items == Scan(t);
    forall i, j | 0 <= i < j < |items|
      ensures items[i].1 != items[j].1
    {
      if i >= |dirs| {
        assert items[i].1 == GgufPath(names[i - |dirs|]) && items[j].1 == GgufPath(names[j - |dirs|]);
      } else if j < |dirs| {
        assert items[i].1 == HubPath(dirs[i]) && items[j].1 == HubPath(dirs[j]);
      } else {
        assert items[i].1 == HubPath(dirs[i]) && items[j].1 == GgufPath(names[j - |dirs|]);
      }
    }
  }

  lemma {:induction false} HubItemsInOrder(names: seq<string>)
    ensures |HubItems(names)| == |names| && forall i :: 0 <= i < |names| ==> HubItems(names)[i].1 == HubPath(names[i])
  {
    if names != [] {
      HubItemsInOrder(names[1..]);
    }
  }

  lemma {:induction false} FileItemsInOrder(names: seq<string>)
    ensures |FileItems(names)| == |names|
    ensures forall i :: 0 <= i < |names| ==> FileItems(names)[i].1 == GgufPath(names[i])
  {
    if names != [] {
      FileItemsInOrder(names[1..]);
    }
  }

  lemma OneMoreDistinct(x: Item, rest: seq<Item>)
    requires PathsDiffer(rest) && forall y <- rest :: y.1 != x.1
    ensures PathsDiffer([x] + rest)
  {
  }

  lemma {:induction false} UnknownStaysDistinct(items: seq<Item>, rows: seq<Row>, m: nat)
    requires PathsDiffer(items)
    ensures PathsDiffer(UnknownOf(items, rows, m))
  {
    if items != [] {
      var rest := UnknownOf(items[1..], rows, m);
      UnknownStaysDistinct(items[1..], rows, m);
      UnknownAre(items[1..], rows, m);
      hide LiveAt;
      forall y <- rest
        ensures y.1 != items[0].1
      {
        var k :| 0 <= k < |items[1..]| && items[1..][k] == y;
        assert items[k + 1] == y;
      }
      hide PathsDiffer;
      OneMoreDistinct(items[0], rest);
      assert UnknownOf(items, rows, m) == if LiveAt(rows, m, items[0].1) then rest else [items[0]] + rest;
    }
  }

  /** After record_unrecorded every path that had no row has one, measured there: complete exactly if it loads. */
  lemma RecordingMeasures(rows: seq<Row>, m: nat, t: Tree, origin: string, w: World)
    ensures forall x <- Scan(t) :: LiveAt(rows, m, x.1) || HasMeasured(Settled(rows, m, t, origin, w), m, x, w)
  {
    var how := Removal(w.now, "absent at " + origin, None);
    var kept := RemoveGone(rows, m, GoneRows(rows, m, t), how, w);
    ScanIsDistinct(t);
    UnknownStaysDistinct(Scan(t), rows, m);
    UnknownAre(Scan(t), rows, m);
    var items := Unrecorded(rows, m, t);
    assert items == UnknownOf(Scan(t), rows, m);
    RecordItemsMeasure(kept, m, items, origin, w);
    hide RecordItems, RemoveGone, Scan, UnknownOf, LiveAt, HasMeasured;
  }
}

/** Deletion fails closed, spares what is kept, and leaves the table agreeing with the disk. */
module DiskLaws {
  import opened Common
  import opened Text
  import opened Ledger
  import opened LedgerLaws
  import opened Disk

  // ---- keepers: every use protects its weights, its lane, or everything ----

  /** An entry a spec's weights match: by repo whatever its case, or by a GGUF stem. */
  predicate Matches(e: Entry, w: Weights) {
    (e.repo != "" && exists r <- w.0 :: Lower(r) == Lower(e.repo)) || Stems(e) * w.1 != {}
  }

  /** An entry of a lane, or of a lane that is not known. */
  predicate OfLane(e: Entry, lane: string, verdicts: Verdicts) {
    Canonical(lane) in LanesSeen(e, verdicts) || "" in LanesSeen(e, verdicts)
  }

  /** A use that names weights keeps every entry they match. */
  lemma NamedWeightsAreKept(u: Use, src: Sources, tables: Tables, verdicts: Verdicts, e: Entry)
    requires u in Uses(src) && Matches(e, Resolve(u.spec, src, tables))
    ensures IsKept(e, KeepOf(src, tables), verdicts)
  {
    hide Resolve, Uses, Lower, LaneKept, Stems;
    var w := Resolve(u.spec, src, tables);
    var k := KeepOf(src, tables);
    assert forall r <- w.0 :: Lower(r) in k.repos;
    assert forall s <- w.1 :: s in k.stems;
    if Stems(e) * w.1 != {} {
      var s := Pick(Stems(e) * w.1);
      assert s in Stems(e) * k.stems;
      assert Stems(e) * k.stems != {};
      assert IsKept(e, k, verdicts);
    } else {
      var r :| r in w.0 && Lower(r) == Lower(e.repo);
      assert Lower(e.repo) in k.repos;
      assert e.repo != "";
      assert IsKept(e, k, verdicts);
    }
  }

  /** A use that names none, though its engine loads some, keeps its lane and every entry of no known lane. */
  lemma UnnamedWinnerKeepsItsLane(u: Use, src: Sources, tables: Tables, verdicts: Verdicts, e: Entry)
    requires u in Uses(src) && NamesNoWeights(u, src, tables) && u.lane != "" && OfLane(e, u.lane, verdicts)
    ensures IsKept(e, KeepOf(src, tables), verdicts)
  {
    hide Resolve, Uses, NamesNoWeights, Canonical, LanesSeen, Stems, Lower, KeptRepos, KeptStems;
    var k := KeepOf(src, tables);
    assert Canonical(u.lane) in k.lanes;
    if "" !in LanesSeen(e, verdicts) {
      assert Canonical(u.lane) in LanesSeen(e, verdicts) * k.lanes;
    }
    assert LaneKept(e, k, verdicts);
  }

  /** An alias that names none leaves the keepers unknown, which stops every deletion. */
  lemma UnnamedAliasStopsDeletion(u: Use, src: Sources, tables: Tables)
    requires u in Uses(src) && NamesNoWeights(u, src, tables) && u.lane == ""
    ensures KeepersUnknown(src, tables)
  {
    hide Uses, NamesNoWeights;
  }

  lemma ToolingIsProtected(repo: string, src: Sources, tables: Tables, verdicts: Verdicts, e: Entry)
    requires repo in tables.tooling && e.repo != "" && Lower(e.repo) == Lower(repo)
    ensures IsKept(e, KeepOf(src, tables), verdicts)
  {
    assert Lower(repo) in KeepOf(src, tables).repos;
  }

  /** Why an entry is kept, whatever kept it. */
  ghost predicate Wanted(e: Entry, src: Sources, tables: Tables, verdicts: Verdicts) {
    || (exists u <- Uses(src) :: Matches(e, Resolve(u.spec, src, tables)))
    || (exists u <- Uses(src) :: NamesNoWeights(u, src, tables) && u.lane != "" && OfLane(e, u.lane, verdicts))
    || (exists r <- tables.tooling :: e.repo != "" && Lower(e.repo) == Lower(r))
  }

  /** The keepers keep what some use matches, what a winner without weights has the lane of, and tooling: no more. */
  lemma KeptExactly(src: Sources, tables: Tables, verdicts: Verdicts, e: Entry)
    ensures IsKept(e, KeepOf(src, tables), verdicts) <==> Wanted(e, src, tables, verdicts)
  {
    var k := KeepOf(src, tables);
    hide Resolve, Uses, NamesNoWeights, Canonical, LanesSeen, Stems, Lower;
    if IsKept(e, k, verdicts) {
      if e.repo != "" && Lower(e.repo) in k.repos {
        RepoIsWanted(src, tables, verdicts, e);
      } else if Stems(e) * k.stems != {} {
        var s := Pick(Stems(e) * k.stems);
        var u :| u in Uses(src) && s in Resolve(u.spec, src, tables).1;
        assert s in Stems(e) * Resolve(u.spec, src, tables).1;
        assert Matches(e, Resolve(u.spec, src, tables));
      } else {
        LaneIsWanted(src, tables, verdicts, e);
      }
    }
    if u :| u in Uses(src) && Matches(e, Resolve(u.spec, src, tables)) {
      NamedWeightsAreKept(u, src, tables, verdicts, e);
    } else if u :| u in Uses(src) && NamesNoWeights(u, src, tables) && u.lane != "" && OfLane(e, u.lane, verdicts) {
      UnnamedWinnerKeepsItsLane(u, src, tables, verdicts, e);
    } else if r :| r in tables.tooling && e.repo != "" && Lower(e.repo) == Lower(r) {
      ToolingIsProtected(r, src, tables, verdicts, e);
    }
  }

  lemma RepoIsWanted(src: Sources, tables: Tables, verdicts: Verdicts, e: Entry)
    requires e.repo != "" && Lower(e.repo) in KeepOf(src, tables).repos
    ensures Wanted(e, src, tables, verdicts)
  {
    hide Resolve, Uses, NamesNoWeights, OfLane, Stems, Lower;
    if r :| r in tables.tooling && Lower(e.repo) == Lower(r) {
    } else {
      var u, r :| u in Uses(src) && r in Resolve(u.spec, src, tables).0 && Lower(r) == Lower(e.repo);
      assert Matches(e, Resolve(u.spec, src, tables));
    }
  }

  lemma LaneIsWanted(src: Sources, tables: Tables, verdicts: Verdicts, e: Entry)
    requires LaneKept(e, KeepOf(src, tables), verdicts)
    ensures Wanted(e, src, tables, verdicts)
  {
    hide Resolve, Uses, NamesNoWeights, Canonical, LanesSeen, Matches, Lower;
    var seen, lanes := LanesSeen(e, verdicts), KeepOf(src, tables).lanes;
    var lane := Pick(if "" in seen then lanes else seen * lanes);
    var u :| u in Uses(src) && NamesNoWeights(u, src, tables) && u.lane != "" && Canonical(u.lane) == lane;
    assert OfLane(e, u.lane, verdicts);
  }

  // ---- the entries of a scan ----

  lemma LiveStep(rows: seq<Row>, m: nat, p: Path)
    requires rows != []
    ensures var n := |rows| - 1;
            LiveAt(rows, m, p) <==> (IsLive(rows[n], m) && rows[n].path == p) || LiveAt(rows[..n], m, p)
  {
    var n := |rows| - 1;
    assert rows[n] in rows && forall r :: r in rows <==> r == rows[n] || r in rows[..n];
    hide IsLive;
  }

  lemma NewestStays(rows: seq<Row>, m: nat, p: Path, i: nat)
    requires rows != [] && !(IsLive(rows[|rows| - 1], m) && rows[|rows| - 1].path == p)
    requires IsNewestAt(rows[..|rows| - 1], m, p, i)
    ensures IsNewestAt(rows, m, p, i) && rows[..|rows| - 1][i] == rows[i]
  {
    hide IsLive;
  }

  /** The row an entry is named by is the newest live one of its path; there is none exactly when none is live. */
  lemma {:induction false} RowForIsNewest(rows: seq<Row>, m: nat, p: Path)
    ensures RowFor(rows, m, p) == None <==> !LiveAt(rows, m, p)
    ensures RowFor(rows, m, p).Some? ==>
              exists i :: 0 <= i < |rows| && IsNewestAt(rows, m, p, i) && RowFor(rows, m, p) == Some(rows[i])
  {
    if rows != [] {
      var n := |rows| - 1;
      LiveStep(rows, m, p);
      RowForIsNewest(rows[..n], m, p);
      if IsLive(rows[n], m) && rows[n].path == p {
        assert IsNewestAt(rows, m, p, n);
      } else if RowFor(rows[..n], m, p).Some? {
        hide LiveAt, IsLive;
        var i :| 0 <= i < n && IsNewestAt(rows[..n], m, p, i) && RowFor(rows[..n], m, p) == Some(rows[..n][i]);
        NewestStays(rows, m, p, i);
      }
    }
  }

  predicate IsNewestAt(rows: seq<Row>, m: nat, p: Path, i: nat) {
    && i < |rows| && IsLive(rows[i], m) && rows[i].path == p
    && forall j :: i < j < |rows| ==> !(IsLive(rows[j], m) && rows[j].path == p)
  }

  /** An entry is named by its path's row and carries the proposals of that row and of its links' rows. */
  predicate Tells(e: Entry, rows: seq<Row>, m: nat) {
    var row := RowFor(rows, m, e.path);
    && (e.unrecorded <==> row == None)
    && e.repo == (if row.Some? then row.value.repo else "")
    && e.proposals == ProposalOf(row) + LinkProposals(rows, m, e.links)
  }

  function LinkProposals(rows: seq<Row>, m: nat, links: seq<string>): set<int> {
    set l, p | l in links && p in ProposalOf(RowFor(rows, m, GgufPath(l))) :: p
  }

  lemma {:induction false} HubEntryTells(t: Tree, rows: seq<Row>, m: nat, dir: string, names: seq<string>)
    ensures HubEntry(t, rows, m, dir, names).path == HubPath(dir)
    ensures Tells(HubEntry(t, rows, m, dir, names), rows, m)
  {
    hide RowFor, OwnedBy;
    if names == [] {
      assert LinkProposals(rows, m, []) == {};
    } else {
      var n := |names| - 1;
      HubEntryTells(t, rows, m, dir, names[..n]);
      var links := HubEntry(t, rows, m, dir, names[..n]).links;
      assert LinkProposals(rows, m, links + [names[n]])
          == LinkProposals(rows, m, links) + ProposalOf(RowFor(rows, m, GgufPath(names[n])));
    }
  }

  lemma EntriesTell(t: Tree, rows: seq<Row>, m: nat, e: Entry)
    requires e in Entries(t, rows, m)
    ensures Tells(e, rows, m)
  {
    var dirs, names := SortedNames(ModelDirs(t)), SortedNames(GgufNames(t));
    GgufEntriesAre(t, rows, m, names);
    hide RowFor, Owned, HubEntry, GgufEntries, SortedNames;
    if e in HubEntries(t, rows, m, dirs, names) {
      var i :| 0 <= i < |dirs| && e == HubEntry(t, rows, m, dirs[i], names);
      HubEntryTells(t, rows, m, dirs[i], names);
    } else {
      assert e in GgufEntries(t, rows, m, names);
      assert e == Bare(e.path, RowFor(rows, m, e.path)) && LinkProposals(rows, m, []) == {};
    }
  }

  lemma {:induction false} HubEntryIs(t: Tree, rows: seq<Row>, m: nat, dir: string, names: seq<string>)
    ensures var e := HubEntry(t, rows, m, dir, names);
            && e.path == HubPath(dir)
            && (forall l :: l in e.links <==> l in names && OwnedBy(t, l, dir))
            && (e.unrecorded <==> RowFor(rows, m, HubPath(dir)) == None)
  {
    if names != [] {
      var n := |names| - 1;
      HubEntryIs(t, rows, m, dir, names[..n]);
      assert forall l :: l in names <==> l in names[..n] || l == names[n];
    }
  }

  lemma {:induction false} GgufEntriesAre(t: Tree, rows: seq<Row>, m: nat, names: seq<string>)
    ensures forall e :: e in GgufEntries(t, rows, m, names) <==>
              e.path.GgufPath? && e.path.name in names && !Owned(t, e.path.name)
              && e == Bare(e.path, RowFor(rows, m, e.path))
  {
    if names != [] {
      var n := |names| - 1;
      GgufEntriesAre(t, rows, m, names[..n]);
      assert forall l :: l in names <==> l in names[..n] || l == names[n];
    }
  }

  /** What a scanned entry is, before and after it is classified. */
  ghost predicate Scanned(e: Entry, t: Tree) {
    match e.path
    case HubPath(dir) =>
      IsModelDir(t, dir) && forall l :: l in e.links <==> l in t.gguf && IsGgufName(l) && OwnedBy(t, l, dir)
    case GgufPath(name) => name in t.gguf && IsGgufName(name) && !Owned(t, name) && e.links == []
    case _ => false
  }

  lemma EntriesAreScanned(t: Tree, rows: seq<Row>, m: nat, e: Entry)
    requires e in Entries(t, rows, m)
    ensures Scanned(e, t)
  {
    var dirs, names := SortedNames(ModelDirs(t)), SortedNames(GgufNames(t));
    GgufEntriesAre(t, rows, m, names);
    if e in HubEntries(t, rows, m, dirs, names) {
      var i :| 0 <= i < |dirs| && e == HubEntry(t, rows, m, dirs[i], names);
      HubEntryIs(t, rows, m, dirs[i], names);
      assert dirs[i] in ModelDirs(t);
      forall l
        ensures l in e.links <==> l in t.gguf && IsGgufName(l) && OwnedBy(t, l, dirs[i])
      {
        assert l in names <==> l in GgufNames(t);
      }
    } else {
      assert e in GgufEntries(t, rows, m, names);
      assert e.path.name in GgufNames(t);
    }
  }

  /** Entries have distinct paths. */
  lemma EntryPathsDiffer(t: Tree, rows: seq<Row>, m: nat, a: Entry, b: Entry)
    requires a in Entries(t, rows, m) && b in Entries(t, rows, m) && a.path == b.path
    ensures a == b
  {
    var dirs, names := SortedNames(ModelDirs(t)), SortedNames(GgufNames(t));
    GgufEntriesAre(t, rows, m, names);
    if a.path.HubPath? {
      assert a !in GgufEntries(t, rows, m, names) && b !in GgufEntries(t, rows, m, names);
      var i :| 0 <= i < |dirs| && a == HubEntry(t, rows, m, dirs[i], names);
      var j :| 0 <= j < |dirs| && b == HubEntry(t, rows, m, dirs[j], names);
      HubEntryIs(t, rows, m, dirs[i], names);
      HubEntryIs(t, rows, m, dirs[j], names);
    } else {
      forall i | 0 <= i < |dirs|
        ensures HubEntry(t, rows, m, dirs[i], names).path.HubPath?
      {
        HubEntryIs(t, rows, m, dirs[i], names);
      }
      assert a in GgufEntries(t, rows, m, names) && b in GgufEntries(t, rows, m, names);
    }
  }

  lemma ClassifiedComesFrom(es: seq<Entry>, k: Keep, verdicts: Verdicts, e: Entry) returns (bare: Entry)
    requires e in ClassifyAll(es, k, verdicts)
    ensures bare in es && e == Classified(bare, k, verdicts)
  {
    var i :| 0 <= i < |es| && ClassifyAll(es, k, verdicts)[i] == e;
    bare := es[i];
  }

  lemma ClassifyingKeepsScanned(bare: Entry, k: Keep, verdicts: Verdicts, t: Tree)
    ensures var e := Classified(bare, k, verdicts);
            e.path == bare.path && e.links == bare.links && e.repo == bare.repo && (Scanned(e, t) <==> Scanned(bare, t))
  {
    hide IsKept, LatestOf, IsModelDir, IsGgufName, Owned, OwnedBy;
  }

  lemma ItsEntriesAreClassified(t: Tree, rows: seq<Row>, m: nat, src: Sources, tables: Tables, verdicts: Verdicts)
    ensures TakeInventory(t, rows, m, src, tables, verdicts).entries
         == ClassifyAll(Entries(t, rows, m), KeepOf(src, tables), verdicts)
  {
    hide Entries, KeepOf, KeepersUnknown, ClassifyAll;
  }

  /** The entries of an inventory are those of a scan. */
  lemma InventoryIsScanned(t: Tree, rows: seq<Row>, m: nat, src: Sources, tables: Tables, verdicts: Verdicts)
    ensures forall e <- TakeInventory(t, rows, m, src, tables, verdicts).entries :: Scanned(e, t)
  {
    ItsEntriesAreClassified(t, rows, m, src, tables, verdicts);
    hide *;
    forall e <- TakeInventory(t, rows, m, src, tables, verdicts).entries
      ensures Scanned(e, t)
    {
      var bare := ClassifiedComesFrom(Entries(t, rows, m), KeepOf(src, tables), verdicts, e);
      EntriesAreScanned(t, rows, m, bare);
      ClassifyingKeepsScanned(bare, KeepOf(src, tables), verdicts, t);
    }
  }

  /** No two of them have one path. */
  lemma InventoryPathsDiffer(t: Tree, rows: seq<Row>, m: nat, src: Sources, tables: Tables, verdicts: Verdicts,
                             a: Entry, b: Entry)
    requires var es := TakeInventory(t, rows, m, src, tables, verdicts).entries;
             a in es && b in es && a.path == b.path
    ensures a == b
  {
    ItsEntriesAreClassified(t, rows, m, src, tables, verdicts);
    hide *;
    var k := KeepOf(src, tables);
    var x := ClassifiedComesFrom(Entries(t, rows, m), k, verdicts, a);
    var y := ClassifiedComesFrom(Entries(t, rows, m), k, verdicts, b);
    ClassifyingKeepsScanned(x, k, verdicts, t);
    ClassifyingKeepsScanned(y, k, verdicts, t);
    EntryPathsDiffer(t, rows, m, x, y);
  }

  // ---- what a removal takes ----

  /** The disk shrinks: nothing appears, and what stays is as it was. */
  predicate Shrinks(t: Tree, after: Tree) {
    && after.hub.Keys <= t.hub.Keys && (forall n <- after.hub :: after.hub[n] == t.hub[n])
    && after.gguf.Keys <= t.gguf.Keys && (forall n <- after.gguf :: after.gguf[n] == t.gguf[n])
    && after.inside <= t.inside && after.elsewhere == t.elsewhere
    && (forall x :: x in t.inside && x.0 in after.hub ==> x in after.inside)
  }

  /** Every path one planned entry can take with it. */
  predicate Takes(t: Tree, e: Entry, p: Path) {
    || p == e.path
    || (e.path.HubPath? && p.Within? && p.dir == e.path.name)
    || (e.path.HubPath? && p.GgufPath? && p.name in e.links)
    || (e.path.GgufPath? && p.GgufPath? && p.name in LinksTo(t, e.path.name))
  }

  lemma RemoveHubTakes(t0: Tree, t: Tree, e: Entry)
    requires Shrinks(t0, t) && e.path.HubPath?
    ensures var after := RemoveEntry(t, e).0;
            && Shrinks(t0, after) && Shrinks(t, after)
            && (forall p :: Lexists(t, p) && !Lexists(after, p) ==> Takes(t0, e, p))
  {
    hide LinksTo;
  }

  lemma LinksWereThere(t0: Tree, t: Tree, name: string)
    requires Shrinks(t0, t)
    ensures LinksTo(t, name) <= LinksTo(t0, name)
  {
  }

  lemma RemoveGgufTakes(t0: Tree, t: Tree, e: Entry)
    requires Shrinks(t0, t) && e.path.GgufPath?
    ensures var after := RemoveEntry(t, e).0;
            && Shrinks(t0, after) && Shrinks(t, after)
            && (forall p :: Lexists(t, p) && !Lexists(after, p) ==> Takes(t0, e, p))
  {
    LinksWereThere(t0, t, e.path.name);
    hide LinksTo, StillLinks;
  }

  lemma RemoveEntryTakes(t0: Tree, t: Tree, e: Entry)
    requires Shrinks(t0, t)
    ensures var (after, done) := RemoveEntry(t, e);
            && Shrinks(t0, after) && Shrinks(t, after)
            && (forall p :: Lexists(t, p) && !Lexists(after, p) ==> Takes(t0, e, p))
  {
    if e.path.HubPath? {
      RemoveHubTakes(t0, t, e);
    } else if e.path.GgufPath? {
      RemoveGgufTakes(t0, t, e);
    }
    hide Lexists, Takes, LinksTo, StillLinks;
  }

  lemma {:induction false} RemoveAllTakes(t0: Tree, t: Tree, plan: seq<Entry>)
    requires Shrinks(t0, t)
    ensures var (after, log) := RemoveAll(t, plan);
            && Shrinks(t0, after)
            && (forall p :: Lexists(t, p) && !Lexists(after, p) ==> exists e :: e in plan && Takes(t0, e, p))
    decreases plan
  {
    if plan != [] {
      var (next, done) := RemoveEntry(t, plan[0]);
      RemoveEntryTakes(t0, t, plan[0]);
      RemoveAllTakes(t0, next, plan[1..]);
      hide RemoveEntry, Shrinks, Takes, Lexists;
      var after := RemoveAll(t, plan).0;
      forall p | Lexists(t, p) && !Lexists(after, p)
        ensures exists e :: e in plan && Takes(t0, e, p)
      {
        if Lexists(next, p) {
          var e :| e in plan[1..] && Takes(t0, e, p);
          assert e in plan;
        } else {
          assert plan[0] in plan;
        }
      }
    }
  }

  lemma {:induction false} PlanIs(entries: seq<Entry>, now: real, wanted: Group)
    ensures forall e :: e in Plan(entries, now, wanted) <==> e in entries && SafeToDelete(e, now, wanted)
  {
    if entries != [] {
      PlanIs(entries[1..], now, wanted);
      assert forall e :: e in entries <==> e == entries[0] || e in entries[1..];
    }
  }

  /** It is a link to a planned file of its own directory: unlinking a real GGUF file also unlinks the links to it. */
  predicate LinksToPlanned(t: Tree, plan: seq<Entry>, x: Entry) {
    x.path.GgufPath? && exists e <- plan :: e.path.GgufPath? && x.path.name in LinksTo(t, e.path.name)
  }

  lemma ScannedIsThere(t: Tree, x: Entry)
    requires Scanned(x, t)
    ensures Lexists(t, x.path) && forall l <- x.links :: Lexists(t, GgufPath(l))
  {
  }

  /** Removing another entry takes this one's path only by unlinking a link to it. */
  lemma TakenByAnother(t: Tree, e: Entry, x: Entry)
    requires Scanned(e, t) && Scanned(x, t) && e.path != x.path && Takes(t, e, x.path)
    ensures e.path.GgufPath? && x.path.GgufPath? && x.path.name in LinksTo(t, e.path.name)
  {
    hide IsModelDir, IsGgufName, LinksTo;
  }

  /** Removing another entry never takes a link attached to this one. */
  lemma AttachedStays(t: Tree, e: Entry, x: Entry, l: string)
    requires Scanned(e, t) && Scanned(x, t) && e.path != x.path && l in x.links
    ensures !Takes(t, e, GgufPath(l))
  {
    hide IsModelDir, IsGgufName;
    assert x.path.HubPath? && OwnedBy(t, l, x.path.name);
  }

  /** Whatever safe_to_delete refuses is still there after a deletion, and so are the links attached to it. */
  lemma RefusedIsSpared(t: Tree, rows: seq<Row>, m: nat, src: Sources, tables: Tables, verdicts: Verdicts,
                        now: real, wanted: Group, x: Entry)
    requires var inv := TakeInventory(t, rows, m, src, tables, verdicts);
             x in inv.entries && !SafeToDelete(x, now, wanted) && !LinksToPlanned(t, Plan(inv.entries, now, wanted), x)
    ensures var inv := TakeInventory(t, rows, m, src, tables, verdicts);
            var after := RemoveAll(t, Plan(inv.entries, now, wanted)).0;
            && Lexists(after, x.path)
            && forall l <- x.links :: Lexists(after, GgufPath(l))
  {
    var inv := TakeInventory(t, rows, m, src, tables, verdicts);
    var plan := Plan(inv.entries, now, wanted);
    InventoryIsScanned(t, rows, m, src, tables, verdicts);
    PlanIs(inv.entries, now, wanted);
    assert Shrinks(t, t);
    RemoveAllTakes(t, t, plan);
    ScannedIsThere(t, x);
    hide TakeInventory, Plan, RemoveAll, SafeToDelete, Scanned, Takes, Lexists, Shrinks, LinksTo;
    forall e <- plan
      ensures !Takes(t, e, x.path) && forall l <- x.links :: !Takes(t, e, GgufPath(l))
    {
      if e.path == x.path {
        InventoryPathsDiffer(t, rows, m, src, tables, verdicts, e, x);
        assert false;
      } else {
        if Takes(t, e, x.path) {
          TakenByAnother(t, e, x);
          assert false;
        }
        forall l <- x.links
          ensures !Takes(t, e, GgufPath(l))
        {
          AttachedStays(t, e, x, l);
        }
      }
    }
  }

  /** A link of the GGUF directory to another of its names leads to a real file: no chains, no linked directory. */
  predicate LinksAreSimple(t: Tree) {
    forall l, n :: l in t.gguf && t.gguf[l] == Link(ToGguf(n)) && n in t.gguf ==> t.gguf[n].File?
  }

  /** A planned file takes every link to it. */
  lemma {:induction false} LinkGoesWithItsFile(t: Tree, plan: seq<Entry>, n: string, l: string)
    requires exists e <- plan :: e.path == GgufPath(n)
    requires l in t.gguf ==> l in LinksTo(t, n)
    requires n in t.gguf ==> t.gguf[n].File?
    ensures l !in RemoveAll(t, plan).0.gguf
    decreases plan
  {
    var next := RemoveEntry(t, plan[0]).0;
    assert Shrinks(t, t) && Shrinks(next, next);
    RemoveEntryTakes(t, t, plan[0]);
    if plan[0].path == GgufPath(n) {
      RemoveAllTakes(next, next, plan[1..]);
      assert l !in next.gguf;
    } else {
      assert plan == [plan[0]] + plan[1..];
      LinkGoesWithItsFile(next, plan[1..], n, l);
    }
  }

  /** Where links are not chained, a refused entry survives exactly when it is no link to a planned file. */
  lemma RefusedSurvivesExactly(t: Tree, rows: seq<Row>, m: nat, src: Sources, tables: Tables, verdicts: Verdicts,
                               now: real, wanted: Group, x: Entry)
    requires x in TakeInventory(t, rows, m, src, tables, verdicts).entries && !SafeToDelete(x, now, wanted)
    requires LinksAreSimple(t)
    ensures var plan := Plan(TakeInventory(t, rows, m, src, tables, verdicts).entries, now, wanted);
            Lexists(RemoveAll(t, plan).0, x.path) <==> !LinksToPlanned(t, plan, x)
  {
    var entries := TakeInventory(t, rows, m, src, tables, verdicts).entries;
    var plan := Plan(entries, now, wanted);
    if LinksToPlanned(t, plan, x) {
      InventoryIsScanned(t, rows, m, src, tables, verdicts);
      PlanIs(entries, now, wanted);
      hide TakeInventory, Plan, RemoveAll, SafeToDelete, IsGgufName, IsModelDir, Owned, OwnedBy;
      var e :| e in plan && e.path.GgufPath? && x.path.name in LinksTo(t, e.path.name);
      assert Scanned(e, t);
      LinkGoesWithItsFile(t, plan, e.path.name, x.path.name);
    } else {
      RefusedIsSpared(t, rows, m, src, tables, verdicts, now, wanted, x);
    }
  }

  /** The verdict an entry is judged by is the one with the greatest id among its proposals'. */
  lemma {:induction false} JudgedByTheNewest(pids: seq<int>, verdicts: Verdicts)
    ensures var got := LatestOf(pids, verdicts);
            && (got == None <==> forall p <- pids :: p !in verdicts)
            && (got.Some? ==> (exists p <- pids :: p in verdicts && verdicts[p] == got.value)
                              && (forall p <- pids :: p in verdicts ==> verdicts[p].id <= got.value.id))
  {
    if pids != [] {
      JudgedByTheNewest(pids[1..], verdicts);
      assert forall p :: p in pids <==> p == pids[0] || p in pids[1..];
    }
  }

  /** The rejections an entry can have been given after its weights were fetched. */
  predicate Rejects(v: Verdict) { v.outcome in REJECTIONS && v.tier in FETCHED_TIERS }

  /** What each kind of deletion may take, in terms of the row, the keepers and the newest verdict alone. */
  lemma DeletableExactly(e: Entry, k: Keep, verdicts: Verdicts, now: real)
    requires e.path.HubPath? || e.path.GgufPath?
    ensures var last := LatestOf(Sorted(e.proposals), verdicts);
            var free := !IsKept(e, k, verdicts) && !e.unrecorded;
            && (SafeToDelete(Classified(e, k, verdicts), now, REJECTED)
                <==> free && last.Some? && Rejects(last.value) && now - last.value.decidedAt >= GRACE)
            && (SafeToDelete(Classified(e, k, verdicts), now, UNKNOWN)
                <==> free && (last.Some? ==> last.value.outcome != MEASURED && last.value.outcome !in WAITING
                                             && !Rejects(last.value)))
            && (forall other :: other !in {REJECTED, UNKNOWN} ==> !SafeToDelete(Classified(e, k, verdicts), now, other))
  {
    hide IsKept, LatestOf;
  }

  /** The group an entry is reported in, and when and by which verdict it was decided: the newest of its proposals'. */
  lemma GroupExactly(e: Entry, k: Keep, verdicts: Verdicts)
    ensures var (c, last) := (Classified(e, k, verdicts), LatestOf(Sorted(e.proposals), verdicts));
            var judged := !IsKept(e, k, verdicts) && !e.unrecorded && last.Some?;
            && (c.group == KEEP <==> IsKept(e, k, verdicts) || (judged && last.value.outcome == "measured"))
            && (c.group == QUEUED <==> judged && last.value.outcome in {"queued", "screened"})
            && (c.group == REJECTED <==>
                  judged && last.value.outcome in {"broken", "declined"}
                  && last.value.tier in {"fetch", "screen", "measure", "adopt"})
            && (last.Some? ==> c.decidedAt == last.value.decidedAt && c.verdict == Some(last.value.id))
            && (last.None? ==> c.decidedAt == e.decidedAt && c.verdict == e.verdict)
            && c.path == e.path && c.repo == e.repo && c.links == e.links && c.proposals == e.proposals
            && (c.unrecorded <==> e.unrecorded)
  {
    hide IsKept, LatestOf;
    OutcomesDiffer();
  }

  lemma OutcomesDiffer()
    ensures "measured" !in {"queued", "screened", "broken", "declined"}
    ensures {"queued", "screened"} !! {"broken", "declined"}
  {
    assert "measured"[0] == 'm' && "queued"[0] == 'q' && "screened"[0] == 's' && "broken"[0] == 'b';
    assert "declined"[0] == 'd';
  }

  /** Rejected less than a day ago. */
  predicate Recent(e: Entry, now: real) { e.group == REJECTED && now - e.decidedAt < GRACE }

  /** Why an entry is refused: it is kept, it is unrecorded, or its rejection is under a day old. */
  lemma RefusedAre(e: Entry, k: Keep, verdicts: Verdicts, now: real, wanted: Group)
    requires var c := Classified(e, k, verdicts);
             IsKept(e, k, verdicts) || e.unrecorded || Recent(c, now)
    ensures !SafeToDelete(Classified(e, k, verdicts), now, wanted)
  {
    hide IsKept, LatestOf;
  }

  /**
   * End to end: whatever the tree, the table and the verdicts are, an entry that any alias, default, adoption or
   * tooling repo matches, or whose lane some unnamed winner keeps, survives a deletion; so does an unrecorded entry,
   * and so does a rejection under a day old.
   */
  lemma KeptEntriesSurvive(t: Tree, rows: seq<Row>, m: nat, src: Sources, tables: Tables, verdicts: Verdicts,
                           now: real, wanted: Group, bare: Entry)
    requires bare in Entries(t, rows, m)
    requires || (exists u <- Uses(src) :: Matches(bare, Resolve(u.spec, src, tables)))
             || (exists u <- Uses(src) ::
                   NamesNoWeights(u, src, tables) && u.lane != "" && OfLane(bare, u.lane, verdicts))
             || (exists r <- tables.tooling :: bare.repo != "" && Lower(bare.repo) == Lower(r))
             || bare.unrecorded
             || Recent(Classified(bare, KeepOf(src, tables), verdicts), now)
    requires !LinksToPlanned(t, Plan(TakeInventory(t, rows, m, src, tables, verdicts).entries, now, wanted), bare)
    ensures var inv := TakeInventory(t, rows, m, src, tables, verdicts);
            var after := RemoveAll(t, Plan(inv.entries, now, wanted)).0;
            Lexists(after, bare.path) && forall l <- bare.links :: Lexists(after, GgufPath(l))
  {
    hide *;
    var k := KeepOf(src, tables);
    if u :| u in Uses(src) && Matches(bare, Resolve(u.spec, src, tables)) {
      NamedWeightsAreKept(u, src, tables, verdicts, bare);
    } else if u :| u in Uses(src) && NamesNoWeights(u, src, tables) && u.lane != "" && OfLane(bare, u.lane, verdicts) {
      UnnamedWinnerKeepsItsLane(u, src, tables, verdicts, bare);
    } else if r :| r in tables.tooling && bare.repo != "" && Lower(bare.repo) == Lower(r) {
      ToolingIsProtected(r, src, tables, verdicts, bare);
    }
    var x := Classified(bare, k, verdicts);
    var es := Entries(t, rows, m);
    var i :| 0 <= i < |es| && es[i] == bare;
    assert ClassifyAll(es, k, verdicts)[i] == x;
    ItsEntriesAreClassified(t, rows, m, src, tables, verdicts);
    RefusedAre(bare, k, verdicts, now, wanted);
    ClassifyingKeepsScanned(bare, k, verdicts, t);
    SamePathSameLink(t, Plan(TakeInventory(t, rows, m, src, tables, verdicts).entries, now, wanted), bare, x);
    RefusedIsSpared(t, rows, m, src, tables, verdicts, now, wanted, x);
  }

  lemma SamePathSameLink(t: Tree, plan: seq<Entry>, a: Entry, b: Entry)
    requires a.path == b.path
    ensures LinksToPlanned(t, plan, a) <==> LinksToPlanned(t, plan, b)
  {
  }

  // ---- drift after a deletion ----

  /** The paths a successful removal stamps: its own and the links that went with it. */
  function StampedPaths(d: Done): set<Path> {
    if d.ok then {d.entry.path} + LinkPaths(d.links) else {}
  }

  function LinkPaths(links: seq<string>): set<Path> { set l | l in links :: GgufPath(l) }

  function AllStamped(log: seq<Done>): set<Path> {
    if log == [] then {} else StampedPaths(log[0]) + AllStamped(log[1..])
  }

  lemma WithoutTrans(a: seq<Row>, b: seq<Row>, c: seq<Row>, m: nat, p: set<Path>, q: set<Path>)
    requires Without(a, b, m, p) && Without(b, c, m, q)
    ensures Without(a, c, m, p + q)
  {
  }

  lemma RemovedIsWithout(rows: seq<Row>, m: nat, g: Gone, how: Removal, w: World)
    ensures Without(rows, Removed(rows, m, g, how, w), m, {g.path})
  {
    RemovedIs(rows, m, g, how, w);
    hide Removed;
  }

  lemma {:induction false} StampLinksIs(rows: seq<Row>, m: nat, d: Done, links: seq<string>, how: Removal, w: World)
    ensures Without(rows, StampLinks(rows, m, d, links, how, w), m, LinkPaths(links))
    decreases links
  {
    if links != [] {
      var p := GgufPath(links[0]);
      var g := Gone(p, d.entry.repo, KindOf(p), 0, "");
      var next := Removed(rows, m, g, how, w);
      RemovedIsWithout(rows, m, g, how, w);
      StampLinksIs(next, m, d, links[1..], how, w);
      assert StampLinks(rows, m, d, links, how, w) == StampLinks(next, m, d, links[1..], how, w);
      assert LinkPaths(links) == {p} + LinkPaths(links[1..]) by {
        assert forall l :: l in links <==> l == links[0] || l in links[1..];
      }
      hide *;
      WithoutTrans(rows, next, StampLinks(next, m, d, links[1..], how, w), m, {p}, LinkPaths(links[1..]));
    }
  }

  /** A link that had no live row is stamped as a removed GGUF file of the deleted entry's repo, found by the scan. */
  lemma UnrecordedLinkIsStamped(rows: seq<Row>, m: nat, d: Done, l: string, how: Removal, w: World)
    requires !LiveAt(rows, m, GgufPath(l)) && SpellsGguf(l)
    ensures StampLinks(rows, m, d, [l], how, w)
         == rows + [Row(d.entry.repo, GGUF, GgufPath(l), "scan", m, w.proposal(d.entry.repo), None, None, false, 0, "",
                        Some(how))]
  {
    NamesAre(Tree(map[], map[], {}, {}));
    hide SpellsGguf, LiveAt;
    assert KindOf(GgufPath(l)) == GGUF;
    hide KindOf;
    assert [l][1..] == [];
  }

  lemma StampOneIs(rows: seq<Row>, m: nat, d: Done, source: string, w: World)
    ensures Without(rows, StampOne(rows, m, d, source, w), m, StampedPaths(d))
  {
    hide Removed, StampLinks, Without, Extends, KindOf, LinkPaths;
    if d.ok {
      var how := Removal(w.now, source, d.entry.verdict);
      var p := d.entry.path;
      var g := Gone(p, d.entry.repo, KindOf(p), w.size(p), "");
      var next := Removed(rows, m, g, how, w);
      RemovedIsWithout(rows, m, g, how, w);
      StampLinksIs(next, m, d, d.links, how, w);
      WithoutTrans(rows, next, StampLinks(next, m, d, d.links, how, w), m, {p}, LinkPaths(d.links));
    } else {
      NothingWithout(rows, m);
    }
  }

  lemma NothingWithout(rows: seq<Row>, m: nat)
    ensures Without(rows, rows, m, {})
  {
  }

  /** After delete's record, the live rows are the old ones at every path that was not stamped. */
  lemma {:induction false} StampAllIs(rows: seq<Row>, m: nat, log: seq<Done>, source: string, w: World)
    ensures Without(rows, StampAll(rows, m, log, source, w), m, AllStamped(log))
    decreases log
  {
    hide StampOne, Without, StampedPaths;
    if log == [] {
      NothingWithout(rows, m);
    } else {
      var next := StampOne(rows, m, log[0], source, w);
      StampOneIs(rows, m, log[0], source, w);
      StampAllIs(next, m, log[1..], source, w);
      WithoutTrans(rows, next, StampAll(next, m, log[1..], source, w), m, StampedPaths(log[0]), AllStamped(log[1..]));
    }
  }

  /** A removal that fails takes nothing: only a real file has links that lead to it. */
  predicate Ready(t: Tree, e: Entry) {
    e.path.GgufPath? ==> LinksTo(t, e.path.name) == {} || (e.path.name in t.gguf && t.gguf[e.path.name].File?)
  }

  lemma ReadyStays(t: Tree, d: Entry, e: Entry)
    requires Ready(t, e)
    ensures Ready(RemoveEntry(t, d).0, e)
  {
    hide StillLinks;
    var next := RemoveEntry(t, d).0;
    StillLinksAreLinks(t, d.links);
    if e.path.GgufPath? {
      var n := e.path.name;
      assert LinksTo(next, n) <= LinksTo(t, n);
      if n in t.gguf && t.gguf[n].File? && n !in next.gguf {
        assert d.path == GgufPath(n);
        assert LinksTo(next, n) == {};
      }
    }
  }

  lemma StillLinksAreLinks(t: Tree, links: seq<string>)
    ensures forall l <- StillLinks(t, links) :: l in t.gguf && t.gguf[l].Link?
  {
  }

  /** What one removal takes it stamps, but for what lay inside a hub directory; what it stamps it took. */
  lemma RemovalStampsWhatItTakes(t: Tree, e: Entry)
    requires Ready(t, e)
    ensures var (next, d) := RemoveEntry(t, e);
            && (forall p :: Lexists(t, p) && !Lexists(next, p) ==>
                  p in StampedPaths(d) || (p.Within? && e.path == HubPath(p.dir)))
            && (forall p <- StampedPaths(d) :: !Lexists(next, p))
            && (forall p <- StampedPaths(d) :: !p.Within?)
  {
    hide StillLinks, LinksTo;
    StillLinksAreLinks(t, e.links);
  }

  /** The same over a whole plan. */
  lemma {:induction false} DeletionStampsWhatItTakes(t: Tree, plan: seq<Entry>)
    requires forall e <- plan :: Ready(t, e)
    ensures var (after, log) := RemoveAll(t, plan);
            && (forall p :: Lexists(t, p) && !Lexists(after, p) ==>
                  p in AllStamped(log) || (p.Within? && exists e <- plan :: e.path == HubPath(p.dir)))
            && (forall p <- AllStamped(log) :: !Lexists(after, p) && !p.Within?)
    decreases plan
  {
    if plan != [] {
      var (next, d) := RemoveEntry(t, plan[0]);
      var (after, rest) := RemoveAll(next, plan[1..]);
      assert RemoveAll(t, plan) == (after, [d] + rest);
      assert ([d] + rest)[1..] == rest;
      RemovalStampsWhatItTakes(t, plan[0]);
      forall e <- plan[1..]
        ensures Ready(next, e)
      {
        ReadyStays(t, plan[0], e);
      }
      DeletionStampsWhatItTakes(next, plan[1..]);
      assert Shrinks(next, next);
      RemoveAllTakes(next, next, plan[1..]);
      ShrinksKeepsGone(next, after);
      hide RemoveEntry, RemoveAll, Lexists, StampedPaths, Ready, Shrinks;
      assert plan == [plan[0]] + plan[1..];
    }
  }

  lemma ShrinksKeepsGone(t: Tree, after: Tree)
    requires Shrinks(t, after)
    ensures forall p :: Lexists(after, p) ==> Lexists(t, p)
  {
  }

  /** A planned hub directory is gone at the end. */
  lemma {:induction false} PlannedHubGoes(t: Tree, plan: seq<Entry>, dir: string)
    requires exists e <- plan :: e.path == HubPath(dir)
    requires dir in t.hub ==> t.hub[dir] == HubDir
    ensures dir !in RemoveAll(t, plan).0.hub
    decreases plan
  {
    var next := RemoveEntry(t, plan[0]).0;
    assert Shrinks(t, t) && Shrinks(next, next);
    RemoveEntryTakes(t, t, plan[0]);
    if plan[0].path == HubPath(dir) {
      RemoveAllTakes(next, next, plan[1..]);
      assert dir !in next.hub;
    } else {
      assert plan == [plan[0]] + plan[1..];
      PlannedHubGoes(next, plan[1..], dir);
    }
  }

  /** Some live row that is not a partial's names a path inside a planned hub directory. */
  ghost predicate RowInside(rows: seq<Row>, m: nat, plan: seq<Entry>) {
    exists r <- rows :: IsLive(r, m) && r.origin != PARTIAL && r.path.Within? && HubPath(r.path.dir) in PlanPaths(plan)
  }

  function PlanPaths(plan: seq<Entry>): set<Path> { set e | e in plan :: e.path }

  lemma PlannedInsideGoes(t: Tree, plan: seq<Entry>)
    requires forall e <- plan :: Scanned(e, t)
    ensures forall p: Path :: p.Within? && HubPath(p.dir) in PlanPaths(plan) ==> !Lexists(RemoveAll(t, plan).0, p)
  {
    forall p: Path | p.Within? && HubPath(p.dir) in PlanPaths(plan)
      ensures !Lexists(RemoveAll(t, plan).0, p)
    {
      hide RemoveAll, IsGgufName, OwnedBy, Owned;
      var e :| e in plan && e.path == HubPath(p.dir);
      PlannedHubGoes(t, plan, p.dir);
    }
  }

  lemma InsideIsPlanned(plan: seq<Entry>)
    ensures forall p: Path ::
              p.Within? && (exists e <- plan :: e.path == HubPath(p.dir)) ==> HubPath(p.dir) in PlanPaths(plan)
  {
  }

  /** The rows that drift after a deletion are those of paths inside a removed hub directory. */
  lemma GoneAfterDeletion(rows: seq<Row>, stamped: seq<Row>, m: nat, t: Tree, after: Tree, plan: seq<Entry>,
                          gone: set<Path>)
    requires Without(rows, stamped, m, gone) && forall r <- rows :: !IsGone(r, m, t)
    requires forall p :: Lexists(t, p) && !Lexists(after, p) ==>
               p in gone || (p.Within? && HubPath(p.dir) in PlanPaths(plan))
    requires forall p <- gone :: !p.Within?
    requires forall p: Path :: p.Within? && HubPath(p.dir) in PlanPaths(plan) ==> !Lexists(after, p)
    ensures RowInside(rows, m, plan) <==> exists r <- stamped :: IsGone(r, m, after)
  {
    hide Lexists, PlanPaths;
    if r :| r in rows && IsLive(r, m) && r.origin != PARTIAL && r.path.Within?
            && HubPath(r.path.dir) in PlanPaths(plan) {
      var i :| 0 <= i < |rows| && rows[i] == r;
      assert stamped[i] == r && stamped[i] in stamped;
      assert IsGone(stamped[i], m, after);
    }
    if r :| r in stamped && IsGone(r, m, after) {
      var i :| 0 <= i < |stamped| && stamped[i] == r;
      assert rows[i] == r && r in rows && Lexists(t, r.path);
    }
  }

  /** Every path still scanned keeps its row. */
  lemma StillRecorded(rows: seq<Row>, stamped: seq<Row>, m: nat, t: Tree, after: Tree, gone: set<Path>)
    requires Without(rows, stamped, m, gone) && forall x <- Scan(t) :: LiveAt(rows, m, x.1)
    requires Shrinks(t, after) && forall p <- gone :: !Lexists(after, p)
    ensures forall x <- Scan(after) :: LiveAt(stamped, m, x.1)
  {
    ScanIs(t);
    ScanIs(after);
    forall x <- Scan(after)
      ensures LiveAt(stamped, m, x.1)
    {
      assert x in Scan(t);
      hide Scan, Lexists, Shrinks, IsModelDir, IsGgufName;
      var r :| r in rows && IsLive(r, m) && r.path == x.1;
      var i :| 0 <= i < |rows| && rows[i] == r;
      assert stamped[i] == r && stamped[i] in stamped;
    }
  }

  lemma PlanIsReady(t: Tree, rows: seq<Row>, m: nat, src: Sources, tables: Tables, verdicts: Verdicts, now: real,
                    wanted: Group)
    requires LinksAreSimple(t)
    ensures forall e <- Plan(TakeInventory(t, rows, m, src, tables, verdicts).entries, now, wanted) ::
              Ready(t, e) && Scanned(e, t)
  {
    var entries := TakeInventory(t, rows, m, src, tables, verdicts).entries;
    InventoryIsScanned(t, rows, m, src, tables, verdicts);
    PlanIs(entries, now, wanted);
    hide TakeInventory, Plan, SafeToDelete, Ready, Scanned, LinksAreSimple;
    forall e <- Plan(entries, now, wanted)
      ensures Ready(t, e) && Scanned(e, t)
    {
      ScannedIsReady(t, e);
    }
  }

  lemma ShrinksItself(t: Tree)
    ensures Shrinks(t, t)
  {
  }

  /** From no drift, a deletion leaves drift exactly when a live row names a path inside a hub directory it removed. */
  lemma DeletionDriftsExactly(t: Tree, rows: seq<Row>, m: nat, src: Sources, tables: Tables, verdicts: Verdicts,
                              now: real, wanted: Group, source: string, w: World)
    requires NoDrift(rows, m, t) && LinksAreSimple(t)
    ensures var plan := Plan(TakeInventory(t, rows, m, src, tables, verdicts).entries, now, wanted);
            var (after, log) := RemoveAll(t, plan);
            NoDrift(StampAll(rows, m, log, source, w), m, after) <==> !RowInside(rows, m, plan)
  {
    var plan := Plan(TakeInventory(t, rows, m, src, tables, verdicts).entries, now, wanted);
    PlanIsReady(t, rows, m, src, tables, verdicts, now, wanted);
    hide *;
    var (after, log) := RemoveAll(t, plan);
    var stamped := StampAll(rows, m, log, source, w);
    DeletionStampsWhatItTakes(t, plan);
    StampAllIs(rows, m, log, source, w);
    ShrinksItself(t);
    RemoveAllTakes(t, t, plan);
    PlannedInsideGoes(t, plan);
    InsideIsPlanned(plan);
    NoDriftMeans(rows, m, t);
    NoDriftMeans(stamped, m, after);
    GoneAfterDeletion(rows, stamped, m, t, after, plan, AllStamped(log));
    StillRecorded(rows, stamped, m, t, after, AllStamped(log));
  }

  lemma ScannedIsReady(t: Tree, e: Entry)
    requires Scanned(e, t) && LinksAreSimple(t)
    ensures Ready(t, e)
  {
    hide IsModelDir, IsGgufName, Owned, OwnedBy;
  }
}

/**
 * The deletion side's keepers read with everywhere(), end to end: whether the weights a machine serves by adoption
 * survive a deletion. Also the input on which a deletion leaves drift behind.
 */
module AdoptedKeepers {
  import opened Common
  import opened Text
  import opened Ledger
  import LedgerLaws
  import opened Disk
  import opened DiskLaws
  import A = AdoptStore

  /** Everything a deletion reads. */
  datatype Deletion = Deletion(tree: Tree, rows: seq<Row>, machine: nat, src: Sources, tables: Tables,
                               verdicts: Verdicts, now: real, wanted: Group)

  function InventoryOf(d: Deletion): Inventory { TakeInventory(d.tree, d.rows, d.machine, d.src, d.tables, d.verdicts) }

  function Planned(d: Deletion): seq<Entry> {
    if InventoryOf(d).problems then [] else Plan(InventoryOf(d).entries, d.now, d.wanted)
  }

  /** The tree a deletion leaves. */
  function After(d: Deletion): Tree { RemoveAll(d.tree, Planned(d)).0 }

  /** What WeightsDisk.Delete leaves is that tree. */
  method DeleteServed(d: Deletion, disk: WeightsDisk, table: Table, source: string, w: World)
    returns (log: Option<seq<Done>>)
    requires disk.tree == d.tree
    modifies disk, table
    ensures disk.tree == After(d)
  {
    hide TakeInventory, RemoveAll, Plan;
    log := disk.Delete(InventoryOf(d), d.now, d.wanted, table, source, w);
    NothingPlanned(d.tree);
  }

  lemma NothingPlanned(t: Tree)
    ensures RemoveAll(t, []).0 == t
  {
  }

  /** An entry of the weights machine `m` serves `lane` with, the keepers being read from these adoptions. */
  ghost predicate IsServedWeights(rows: seq<A.Row>, fit: A.Fit, m: nat, d: Deletion, lane: string, e: Entry) {
    && d.src.adopted == A.Everywhere(rows, fit)
    && lane in A.Current(rows, fit, [m])
    && e in Entries(d.tree, d.rows, d.machine)
    && Matches(e, Resolve(A.Current(rows, fit, [m])[lane].spec, d.src, d.tables))
  }

  /** Adoptions on any machine are kept: what everywhere() covers, no deletion takes. */
  lemma CoveredWeightsSurvive(rows: seq<A.Row>, fit: A.Fit, m: nat, d: Deletion, lane: string, e: Entry)
    requires A.Covers(rows, fit, m) && IsServedWeights(rows, fit, m, d, lane, e)
    requires !LinksToPlanned(d.tree, Planned(d), e)
    ensures Lexists(After(d), e.path)
  {
    var spec := A.Current(rows, fit, [m])[lane].spec;
    hide A.Current, A.Everywhere, Resolve, Matches, Entries, TakeInventory, RemoveAll, Plan, Scanned, Lexists;
    assert A.IsNamed(d.src.adopted, lane, spec);
    assert Use(spec, lane) in AdoptedUses(d.src);
    assert Use(spec, lane) in Uses(d.src);
    hide Uses;
    if InventoryOf(d).problems {
      NothingPlanned(d.tree);
      EntriesAreScanned(d.tree, d.rows, d.machine, e);
      ScannedIsThere(d.tree, e);
    } else {
      KeptEntriesSurvive(d.tree, d.rows, d.machine, d.src, d.tables, d.verdicts, d.now, d.wanted, e);
    }
  }

  // ---- one hub directory, rejected two days ago ----

  const DIR := "models--small"

  function OneHub(): Tree { Tree(map[DIR := HubDir], map[], {(DIR, "blob")}, {}) }

  function HubRow(on: nat): Row { Row(A.SMALL, HUB, HubPath(DIR), SCAN, on, Some(7), None, None, true, 0, "", None) }

  function HubEntryOf(): Entry { Entry(HubPath(DIR), A.SMALL, [], {7}, false, UNKNOWN, 0.0, None) }

  const DECLINED: Verdicts := map[7 := Verdict("image", "declined", "fetch", 0.0, 1)]

  /** A deletion of rejections on machine `on`, with these rows and adoptions. */
  function Rejecting(on: nat, rows: seq<Row>, adopted: map<string, set<string>>): Deletion {
    Deletion(OneHub(), rows, on, Sources(map["g" := ({"g"}, {})], 0, map[], adopted, (s: string) => ({}, {})),
             Tables(map[], map[], {}, {}), DECLINED, 2.0 * GRACE, REJECTED)
  }

  lemma OneName(x: string)
    ensures SortedNames({x}) == [x] && SortedNames({}) == []
  {
    var m := First({x});
    assert m == x;
    assert {x} - {m} == {};
  }

  lemma OneEntry(on: nat, rows: seq<Row>)
    requires RowFor(rows, on, HubPath(DIR)) == Some(HubRow(on))
    ensures Entries(OneHub(), rows, on) == [HubEntryOf()]
  {
    var t := OneHub();
    assert ModelDirs(t) == {DIR} by {
      assert "models--" <= DIR;
      assert IsModelDir(t, DIR);
    }
    assert GgufNames(t) == {};
    OneName(DIR);
    hide RowFor, SortedNames, ModelDirs, GgufNames;
    assert HubEntries(t, rows, on, [DIR], []) == [HubEntryOf()];
    assert GgufEntries(t, rows, on, []) == [];
  }

  /** Spelled as the candidates keep it: trimmed and in lower case. */
  predicate Plain(s: string) { Stripped(s) && Lower(s) == s }

  lemma SmallIsPlain()
    ensures Plain(A.SMALL)
  {
    LowerOfLower(A.SMALL);
    hide Lower;
  }

  lemma LargeIsPlain()
    ensures Plain(A.LARGE)
  {
    LowerOfLower(A.LARGE);
    hide Lower;
  }

  lemma AliasIsPlain()
    ensures Plain("g")
  {
    LowerOfLower("g");
    hide Lower;
  }

  lemma TheyDiffer()
    ensures A.SMALL != A.LARGE && A.SMALL != "g" && A.LARGE != "g"
  {
    assert A.SMALL[2] != A.LARGE[2] && A.SMALL[0] != "g"[0] && A.LARGE[0] != "g"[0];
  }

  /** A repo id with no engine before it. */
  predicate BareRepo(s: string) { ':' !in s && ',' !in s && '@' !in s && '/' in s }

  lemma Uncut(s: string)
    requires BareRepo(s)
    ensures Before(s, ',') == s && Before(s, '@') == s && !StartsWith(s, "llamacpp:")
  {
    hide Before;
    assert "llamacpp:"[8] == ':';
  }

  /** It is its own weights. */
  lemma RepoSpec(s: string, src: Sources, tables: Tables)
    requires Plain(s) && BareRepo(s) && s !in src.aliases && src.stored(s) == ({}, {})
    requires tables.engineRepos == map[] && tables.mfluxRepos == map[]
    ensures Resolve(s, src, tables) == ({s}, {})
  {
    StripOfStripped(s);
    Uncut(s);
    hide Strip, Lower, Before, After, StartsWith;
    assert src.stored(s).0 + {} + {s} == {s};
  }

  lemma AliasSpec(d: Deletion)
    requires d == Rejecting(d.machine, d.rows, d.src.adopted)
    ensures Resolve("g", d.src, d.tables) == ({"g"}, {})
  {
    StripOfStripped("g");
    hide Strip, Lower;
  }

  /** Nothing else is adopted but the large model. */
  predicate NothingButLarge(adopted: map<string, set<string>>) { forall lane <- adopted :: adopted[lane] <= {A.LARGE} }

  /** A use whose weights are other repos than this one. */
  predicate KeepsOthers(u: Use, src: Sources, tables: Tables, repo: string) {
    var w := Resolve(u.spec, src, tables);
    w.0 != {} && w.1 == {} && forall r <- w.0 :: Lower(r) != Lower(repo)
  }

  /** An entry of a repo no use and no tooling names is not kept. */
  lemma OthersAreKept(src: Sources, tables: Tables, verdicts: Verdicts, e: Entry)
    requires forall u <- Uses(src) :: KeepsOthers(u, src, tables, e.repo)
    requires src.aliasProblems == 0 && src.aliases != map[] && tables.tooling == {}
    ensures !KeepersUnknown(src, tables) && !IsKept(e, KeepOf(src, tables), verdicts)
  {
    hide Resolve, Uses, Lower, Canonical, Strip, Stems, LanesSeen;
    assert forall u <- Uses(src) :: !NamesNoWeights(u, src, tables);
    NothingUnnamed(src, tables);
    assert Lower(e.repo) !in KeptRepos(Uses(src), src, tables);
    assert KeptStems(Uses(src), src, tables) == {};
  }

  lemma NothingUnnamed(src: Sources, tables: Tables)
    requires forall u <- Uses(src) :: !NamesNoWeights(u, src, tables)
    ensures KeptLanes(Uses(src), src, tables) == {} && !AnyUnnamed(Uses(src), src, tables)
  {
    hide NamesNoWeights, Uses, Canonical;
  }

  lemma OneRepo(u: Use, src: Sources, tables: Tables, r: string, repo: string)
    requires Resolve(u.spec, src, tables) == ({r}, {}) && Plain(r) && Plain(repo) && r != repo
    ensures KeepsOthers(u, src, tables, repo)
  {
    hide Resolve, Lower, Stripped;
    assert r in {r};
  }

  lemma UsesAreTwo(d: Deletion, u: Use)
    requires d == Rejecting(d.machine, d.rows, d.src.adopted) && NothingButLarge(d.src.adopted) && u in Uses(d.src)
    ensures u.spec == "g" || u.spec == A.LARGE
  {
  }

  lemma SmallIsNotKept(d: Deletion)
    requires d == Rejecting(d.machine, d.rows, d.src.adopted) && NothingButLarge(d.src.adopted)
    ensures !KeepersUnknown(d.src, d.tables)
    ensures !IsKept(HubEntryOf(), KeepOf(d.src, d.tables), d.verdicts)
  {
    TheyDiffer();
    SmallIsPlain();
    LargeIsPlain();
    AliasIsPlain();
    AliasSpec(d);
    RepoSpec(A.LARGE, d.src, d.tables);
    forall u <- Uses(d.src)
      ensures KeepsOthers(u, d.src, d.tables, A.SMALL)
    {
      UsesAreTwo(d, u);
      hide *;
      if u.spec == "g" {
        OneRepo(u, d.src, d.tables, "g", A.SMALL);
      } else {
        OneRepo(u, d.src, d.tables, A.LARGE, A.SMALL);
      }
    }
    hide Uses, KeepsOthers, KeepOf, KeepersUnknown, Resolve, IsKept, Plain, NothingButLarge;
    OthersAreKept(d.src, d.tables, d.verdicts, HubEntryOf());
  }

  lemma ItIsTaken(t: Tree, c: Entry)
    requires t == OneHub() && c.path == HubPath(DIR)
    ensures !Lexists(RemoveAll(t, [c]).0, HubPath(DIR))
  {
    assert [c][1..] == [];
  }

  lemma ItIsPlanned(es: seq<Entry>, e: Entry, k: Keep, verdicts: Verdicts, now: real)
    requires es == [e] && SafeToDelete(Classified(e, k, verdicts), now, REJECTED)
    ensures Plan(ClassifyAll(es, k, verdicts), now, REJECTED) == [Classified(e, k, verdicts)]
  {
    hide SafeToDelete, Classified;
    var c := Classified(e, k, verdicts);
    assert ClassifyAll(es, k, verdicts) == [c];
    assert [c][1..] == [];
  }

  lemma ItsVerdict()
    ensures LatestOf(Sorted({7}), DECLINED) == Some(DECLINED[7]) && Rejects(DECLINED[7])
  {
    JudgedByTheNewest(Sorted({7}), DECLINED);
    hide LatestOf;
  }

  /** The deletion then takes the small model's directory. */
  lemma RejectingTakesIt(d: Deletion)
    requires d == Rejecting(d.machine, d.rows, d.src.adopted) && NothingButLarge(d.src.adopted)
    requires RowFor(d.rows, d.machine, HubPath(DIR)) == Some(HubRow(d.machine))
    ensures Entries(d.tree, d.rows, d.machine) == [HubEntryOf()]
    ensures |Planned(d)| == 1 && Planned(d)[0].path == HubPath(DIR) && !Lexists(After(d), HubPath(DIR))
  {
    OneEntry(d.machine, d.rows);
    SmallIsNotKept(d);
    var (e, k) := (HubEntryOf(), KeepOf(d.src, d.tables));
    ItsVerdict();
    hide Entries, KeepOf, KeepersUnknown, IsKept, Classified, LatestOf, Rejects, SafeToDelete, Plan, ClassifyAll,
         RemoveAll;
    DeletableExactly(e, k, d.verdicts, d.now);
    ItIsPlanned(Entries(d.tree, d.rows, d.machine), e, k, d.verdicts, d.now);
    ClassifyingKeepsScanned(e, k, d.verdicts, d.tree);
    ItIsTaken(d.tree, Classified(e, k, d.verdicts));
  }

  // ---- what is deleted where everywhere() does not look ----

  lemma SmallIsItsWeights(d: Deletion)
    requires d == Rejecting(d.machine, [HubRow(d.machine)], d.src.adopted)
    ensures HubEntryOf() in Entries(d.tree, d.rows, d.machine)
    ensures Matches(HubEntryOf(), Resolve(A.SMALL, d.src, d.tables))
  {
    SmallIsPlain();
    TheyDiffer();
    RepoSpec(A.SMALL, d.src, d.tables);
    SmallMatches(Resolve(A.SMALL, d.src, d.tables));
    ItsRow(d.machine);
    OneEntry(d.machine, [HubRow(d.machine)]);
    hide Plain, Resolve, Matches, RowFor, Entries;
  }

  lemma ItsRow(on: nat)
    ensures RowFor([HubRow(on)], on, HubPath(DIR)) == Some(HubRow(on))
    ensures RowFor([HubRow(on), BlobRow(on)], on, HubPath(DIR)) == Some(HubRow(on))
  {
    assert [HubRow(on), BlobRow(on)][..1] == [HubRow(on)];
  }

  lemma SmallIsTaken(d: Deletion)
    requires d == Rejecting(d.machine, [HubRow(d.machine)], d.src.adopted)
    requires d.src.adopted == map["image" := {A.LARGE}]
    ensures !LinksToPlanned(d.tree, Planned(d), HubEntryOf()) && !Lexists(After(d), HubEntryOf().path)
  {
    assert NothingButLarge(d.src.adopted);
    ItsRow(d.machine);
    hide NothingButLarge, Planned, After, RowFor, Entries;
    RejectingTakesIt(d);
  }

  /**
   * With a small and then a large model adopted for all machines on each of `machines`, and the large one not fitting
   * on `m`, the weights `m` serves are deleted, from its own disk or from another's.
   */
  lemma ServedWeightsAreDeleted(machines: seq<Option<nat>>, m: nat, on: nat) returns (d: Deletion)
    requires machines != [] && Some(m) !in machines
    ensures d.machine == on
    ensures IsServedWeights(A.SmallThenLarge(machines), A.FitsButOn(m), m, d, "image", HubEntryOf())
    ensures !LinksToPlanned(d.tree, Planned(d), HubEntryOf()) && !Lexists(After(d), HubEntryOf().path)
  {
    d := Rejecting(on, [HubRow(on)], A.Everywhere(A.SmallThenLarge(machines), A.FitsButOn(m)));
    A.OnlyLargeIsNamed(machines, m);
    A.SmallIsServed(machines, m);
    hide A.Everywhere, A.Current, A.SmallThenLarge, A.FitsButOn, Resolve, Matches, Entries, LinksToPlanned, After,
         Planned;
    SmallIsItsWeights(d);
    SmallIsTaken(d);
  }

  lemma SmallMatches(w: Weights)
    requires w == ({A.SMALL}, {})
    ensures Matches(HubEntryOf(), w)
  {
    hide Lower;
    assert A.SMALL in w.0;
  }

  /** No deletion on machine `on` takes weights machine `m` serves, but for a link to a file it takes. */
  ghost predicate SparesServed(machines: set<Option<nat>>, m: nat, on: nat) {
    forall rows, fit: A.Fit, d, lane, e ::
      A.Machines(rows) == machines && IsServedWeights(rows, fit, m, d, lane, e) && d.machine == on
      ==> LinksToPlanned(d.tree, Planned(d), e) || Lexists(After(d), e.path)
  }

  /** On any machine, `m` itself included, that is so exactly when adoptions are recorded on `m` or on none. */
  lemma SparesServedExactly(machines: set<Option<nat>>, m: nat, on: nat)
    ensures SparesServed(machines, m, on) <==> Some(m) in machines || machines == {}
  {
    hide IsServedWeights, LinksToPlanned, After, Planned, A.Covers;
    if Some(m) in machines || machines == {} {
      A.EverywhereCoversExactly(machines, m);
      forall rows, fit: A.Fit, d, lane, e | A.Machines(rows) == machines && IsServedWeights(rows, fit, m, d, lane, e)
        ensures LinksToPlanned(d.tree, Planned(d), e) || Lexists(After(d), e.path)
      {
        if !LinksToPlanned(d.tree, Planned(d), e) {
          CoveredWeightsSurvive(rows, fit, m, d, lane, e);
        }
      }
    } else {
      var xs := Listed(machines);
      EmptyIsNone(xs);
      A.MachinesOfBoth(xs);
      assert A.Machines(A.SmallThenLarge(xs)) == machines;
      var d := ServedWeightsAreDeleted(xs, m, on);
    }
  }

  // ---- drift ----

  function BlobRow(on: nat): Row { HubRow(on).(path := Within(DIR, "blob")) }

  lemma OneHubAgrees(on: nat)
    ensures NoDrift([HubRow(on), BlobRow(on)], on, OneHub())
  {
    var (rows, t) := ([HubRow(on), BlobRow(on)], OneHub());
    LedgerLaws.NoDriftMeans(rows, on, t);
    LedgerLaws.ScanIs(t);
    hide NoDrift, Scan;
    assert rows[0] in rows;
    assert forall r <- rows :: r == HubRow(on) || r == BlobRow(on);
    forall x <- Scan(t)
      ensures LiveAt(rows, on, x.1)
    {
      assert x.1 == HubPath(DIR);
    }
  }

  lemma PlannedIs(d: Deletion)
    requires !KeepersUnknown(d.src, d.tables)
    ensures Planned(d)
         == Plan(TakeInventory(d.tree, d.rows, d.machine, d.src, d.tables, d.verdicts).entries, d.now, d.wanted)
    ensures After(d) == RemoveAll(d.tree, Planned(d)).0
  {
  }

  lemma RowsInside(on: nat, plan: seq<Entry>)
    requires |plan| == 1 && plan[0].path == HubPath(DIR)
    ensures RowInside([HubRow(on), BlobRow(on)], on, plan)
  {
    var rows := [HubRow(on), BlobRow(on)];
    assert plan[0] in plan && HubPath(DIR) in PlanPaths(plan);
    assert rows[1] in rows && rows[1].path == Within(DIR, "blob");
  }

  /** A live row of a path inside the directory: the table agrees with the disk before the deletion and not after. */
  lemma DriftIsLeft(on: nat, source: string, w: World)
    ensures var rows := [HubRow(on), BlobRow(on)];
            var d := Rejecting(on, rows, map[]);
            NoDrift(rows, on, d.tree)
            && !NoDrift(StampAll(rows, on, RemoveAll(d.tree, Planned(d)).1, source, w), on, After(d))
  {
    var rows := [HubRow(on), BlobRow(on)];
    var d := Rejecting(on, rows, map[]);
    OneHubAgrees(on);
    ItsRow(on);
    assert LinksAreSimple(d.tree);
    RejectingTakesIt(d);
    SmallIsNotKept(d);
    hide *;
    RowsInside(on, Planned(d));
    PlannedIs(d);
    DeletionDriftsExactly(d.tree, rows, on, d.src, d.tables, d.verdicts, d.now, d.wanted, source, w);
  }
}

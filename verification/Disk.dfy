/**
 * harness/disk.py: what uses the weights on disk, what each entry of the two
 * directories is, and what a deletion removes and stamps.
 */
module Disk {
  import opened Common
  import opened Text
  import opened Ledger

  // ---- keepers ----

  /** The module's tables: engine and mflux preset repos, tooling repos, engines that load no weights. */
  datatype Tables = Tables(engineRepos: map<string, set<string>>, mfluxRepos: map<string, string>,
                           tooling: set<string>, weightless: set<string>)

  type Weights = (set<string>, set<string>)

  /** The gateway's aliases, the typed defaults, every machine's adoptions, and the rows a candidate owns. */
  datatype Sources = Sources(aliases: map<string, Weights>, aliasProblems: nat, typed: map<string, string>,
                             adopted: map<string, set<string>>, stored: string -> Weights)

  function Stem(filename: string): string {
    var name := Lower(filename);
    if EndsWith(name, ".gguf") then name[..|name| - 5] else name
  }

  function Canonical(lane: string): string {
    var got := Lower(Strip(lane));
    if got == "text" then "code" else if got == "all" then "" else got
  }

  /** The repos and GGUF stems an engine spec or alias loads. */
  function Resolve(spec: string, src: Sources, tables: Tables): Weights {
    var s := Strip(spec);
    if s in src.aliases then src.aliases[s]
    else
      var bare := Lower(Before(Before(s, ','), '@'));
      var head := Before(Before(bare, ':'), '/');
      if StartsWith(bare, "llamacpp:") then ({}, {Stem(After(bare, ':'))})
      else if bare in tables.engineRepos then (tables.engineRepos[bare], {})
      else if head in tables.engineRepos then (tables.engineRepos[head], {})
      else
        var (repos, stems) := src.stored(s);
        var preset := After(bare, ':');
        (repos
         + (if head == "mflux" && preset in tables.mfluxRepos then {tables.mfluxRepos[preset]} else {})
         + (if ':' !in s && ',' !in s && '/' in s then {s} else {}),
         stems)
  }

  /** A spec of a lane that must be kept; an alias has no lane. */
  datatype Use = Use(spec: string, lane: string)

  function Uses(src: Sources): set<Use> {
    AliasUses(src) + TypedUses(src) + AdoptedUses(src)
  }

  function AliasUses(src: Sources): set<Use> { set n | n in src.aliases :: Use(n, "") }

  function TypedUses(src: Sources): set<Use> { set l | l in src.typed :: Use(src.typed[l], l) }

  function AdoptedUses(src: Sources): set<Use> { set l, s | l in src.adopted && s in src.adopted[l] :: Use(s, l) }

  /** It resolves to nothing and its engine is not one that loads nothing. */
  predicate NamesNoWeights(u: Use, src: Sources, tables: Tables) {
    Resolve(u.spec, src, tables) == ({}, {}) && Strip(Before(u.spec, ':')) !in tables.weightless
  }

  function KeptRepos(uses: set<Use>, src: Sources, tables: Tables): set<string> {
    set u, r | u in uses && r in Resolve(u.spec, src, tables).0 :: Lower(r)
  }

  function KeptStems(uses: set<Use>, src: Sources, tables: Tables): set<string> {
    set u, s | u in uses && s in Resolve(u.spec, src, tables).1 :: s
  }

  function KeptLanes(uses: set<Use>, src: Sources, tables: Tables): set<string> {
    set u | u in uses && NamesNoWeights(u, src, tables) && u.lane != "" :: Canonical(u.lane)
  }

  predicate AnyUnnamed(uses: set<Use>, src: Sources, tables: Tables) {
    exists u <- uses :: NamesNoWeights(u, src, tables) && u.lane == ""
  }

  /** Everything that must never be deleted. */
  class Keepers {
    var repos: set<string>
    var stems: set<string>
    var lanes: set<string>
    var problems: nat

    constructor ()
      ensures repos == {} && stems == {} && lanes == {} && problems == 0
    {
      repos, stems, lanes, problems := {}, {}, {}, 0;
    }

    method Add(u: Use, src: Sources, tables: Tables)
      modifies this
      ensures repos == old(repos) + KeptRepos({u}, src, tables)
      ensures stems == old(stems) + KeptStems({u}, src, tables)
      ensures lanes == old(lanes) + KeptLanes({u}, src, tables)
      ensures problems == old(problems) + if AnyUnnamed({u}, src, tables) then 1 else 0
    {
      var (r, s) := Resolve(u.spec, src, tables);
      KeptByOne(u, src, tables);
      hide Resolve, KeptRepos, KeptStems, KeptLanes, Canonical, Lower;
      repos := repos + (set x | x in r :: Lower(x));
      stems := stems + s;
      if r != {} || s != {} || Strip(Before(u.spec, ':')) in tables.weightless {
        return;
      }
      if u.lane != "" {
        lanes := lanes + {Canonical(u.lane)};
      } else {
        problems := problems + 1;
      }
    }

    method AddAll(uses: set<Use>, src: Sources, tables: Tables)
      modifies this
      ensures repos == old(repos) + KeptRepos(uses, src, tables)
      ensures stems == old(stems) + KeptStems(uses, src, tables)
      ensures lanes == old(lanes) + KeptLanes(uses, src, tables)
      ensures problems > 0 <==> old(problems) > 0 || AnyUnnamed(uses, src, tables)
    {
      NothingKept(src, tables);
      hide Resolve, NamesNoWeights, KeptRepos, KeptStems, KeptLanes, AnyUnnamed;
      var todo := uses;
      ghost var done: set<Use> := {};
      while todo != {}
        invariant uses == done + todo
        invariant repos == old(repos) + KeptRepos(done, src, tables)
        invariant stems == old(stems) + KeptStems(done, src, tables)
        invariant lanes == old(lanes) + KeptLanes(done, src, tables)
        invariant problems > 0 <==> old(problems) > 0 || AnyUnnamed(done, src, tables)
        decreases todo
      {
        var u :| u in todo;
        Add(u, src, tables);
        KeptGrows(done, u, src, tables);
        done := done + {u};
        todo := todo - {u};
      }
      assert done == uses;
    }

    method Collect(src: Sources, tables: Tables)
      requires repos == {} && stems == {} && lanes == {} && problems == 0
      modifies this
      ensures repos == KeptRepos(Uses(src), src, tables) + (set t | t in tables.tooling :: Lower(t))
      ensures stems == KeptStems(Uses(src), src, tables)
      ensures lanes == KeptLanes(Uses(src), src, tables)
      ensures problems > 0 <==> src.aliasProblems > 0 || src.aliases == map[] || AnyUnnamed(Uses(src), src, tables)
    {
      hide Resolve, NamesNoWeights, KeptRepos, KeptStems, KeptLanes, AnyUnnamed, AliasUses, TypedUses, AdoptedUses;
      problems := src.aliasProblems;
      if src.aliases == map[] {
        problems := problems + 1;
      }
      AddAll(AliasUses(src), src, tables);
      AddAll(TypedUses(src), src, tables);
      AddAll(AdoptedUses(src), src, tables);
      KeptUnion(AliasUses(src), TypedUses(src), src, tables);
      KeptUnion(AliasUses(src) + TypedUses(src), AdoptedUses(src), src, tables);
      repos := repos + (set t | t in tables.tooling :: Lower(t));
    }
  }

  lemma KeptByOne(u: Use, src: Sources, tables: Tables)
    ensures KeptRepos({u}, src, tables) == set x | x in Resolve(u.spec, src, tables).0 :: Lower(x)
    ensures KeptStems({u}, src, tables) == Resolve(u.spec, src, tables).1
    ensures KeptLanes({u}, src, tables)
         == if NamesNoWeights(u, src, tables) && u.lane != "" then {Canonical(u.lane)} else {}
  {
    hide Resolve, NamesNoWeights, Canonical, Lower;
  }

  lemma KeptUnion(a: set<Use>, b: set<Use>, src: Sources, tables: Tables)
    ensures KeptRepos(a + b, src, tables) == KeptRepos(a, src, tables) + KeptRepos(b, src, tables)
    ensures KeptStems(a + b, src, tables) == KeptStems(a, src, tables) + KeptStems(b, src, tables)
    ensures KeptLanes(a + b, src, tables) == KeptLanes(a, src, tables) + KeptLanes(b, src, tables)
    ensures AnyUnnamed(a + b, src, tables) <==> AnyUnnamed(a, src, tables) || AnyUnnamed(b, src, tables)
  {
    hide Resolve, NamesNoWeights, Canonical, Lower;
  }

  lemma NothingKept(src: Sources, tables: Tables)
    ensures KeptRepos({}, src, tables) == {} && KeptStems({}, src, tables) == {} && KeptLanes({}, src, tables) == {}
    ensures !AnyUnnamed({}, src, tables)
  {
  }

  lemma KeptGrows(done: set<Use>, u: Use, src: Sources, tables: Tables)
    ensures KeptRepos(done + {u}, src, tables) == KeptRepos(done, src, tables) + KeptRepos({u}, src, tables)
    ensures KeptStems(done + {u}, src, tables) == KeptStems(done, src, tables) + KeptStems({u}, src, tables)
    ensures KeptLanes(done + {u}, src, tables) == KeptLanes(done, src, tables) + KeptLanes({u}, src, tables)
    ensures AnyUnnamed(done + {u}, src, tables) <==> AnyUnnamed(done, src, tables) || AnyUnnamed({u}, src, tables)
  {
    KeptUnion(done, {u}, src, tables);
  }

  /** What a Keepers object holds, as a value. */
  datatype Keep = Keep(repos: set<string>, stems: set<string>, lanes: set<string>)

  function KeepOf(src: Sources, tables: Tables): Keep {
    Keep(KeptRepos(Uses(src), src, tables) + (set t | t in tables.tooling :: Lower(t)),
         KeptStems(Uses(src), src, tables), KeptLanes(Uses(src), src, tables))
  }

  predicate KeepersUnknown(src: Sources, tables: Tables) {
    src.aliasProblems > 0 || src.aliases == map[] || AnyUnnamed(Uses(src), src, tables)
  }

  // ---- entries ----

  datatype Group = KEEP | QUEUED | REJECTED | UNKNOWN

  datatype Entry = Entry(path: Path, repo: string, links: seq<string>, proposals: set<int>, unrecorded: bool,
                         group: Group, decidedAt: real, verdict: Option<nat>)

  /** The newest live row of a path, as _rows keys them. */
  function RowFor(rows: seq<Row>, m: nat, p: Path): Option<Row> {
    if rows == [] then None
    else
      var n := |rows| - 1;
      if IsLive(rows[n], m) && rows[n].path == p then Some(rows[n]) else RowFor(rows[..n], m, p)
  }

  function ProposalOf(row: Option<Row>): set<int> {
    if row.Some? && row.value.proposal.Some? then {row.value.proposal.value} else {}
  }

  function Bare(p: Path, row: Option<Row>): Entry {
    Entry(p, if row.Some? then row.value.repo else "", [], ProposalOf(row), row == None, UNKNOWN, 0.0, None)
  }

  /** A symlink of the GGUF directory into a scanned hub directory belongs to that directory's entry. */
  predicate Owned(t: Tree, name: string) {
    name in t.gguf && t.gguf[name].Link? && t.gguf[name].target.ToHub? && IsModelDir(t, t.gguf[name].target.top)
  }

  predicate OwnedBy(t: Tree, name: string, dir: string) { Owned(t, name) && t.gguf[name].target.top == dir }

  /** A hub directory's entry once the links among `names` are attached to it. */
  function HubEntry(t: Tree, rows: seq<Row>, m: nat, dir: string, names: seq<string>): Entry {
    if names == [] then Bare(HubPath(dir), RowFor(rows, m, HubPath(dir)))
    else
      var n := |names| - 1;
      var e := HubEntry(t, rows, m, dir, names[..n]);
      if OwnedBy(t, names[n], dir) then
        e.(links := e.links + [names[n]],
           proposals := e.proposals + ProposalOf(RowFor(rows, m, GgufPath(names[n]))))
      else e
  }

  function HubEntries(t: Tree, rows: seq<Row>, m: nat, dirs: seq<string>, names: seq<string>): (es: seq<Entry>)
    ensures |es| == |dirs|
    ensures forall i :: 0 <= i < |dirs| ==> es[i] == HubEntry(t, rows, m, dirs[i], names)
  {
    if dirs == [] then [] else [HubEntry(t, rows, m, dirs[0], names)] + HubEntries(t, rows, m, dirs[1..], names)
  }

  function GgufEntries(t: Tree, rows: seq<Row>, m: nat, names: seq<string>): seq<Entry> {
    if names == [] then []
    else
      var n := |names| - 1;
      GgufEntries(t, rows, m, names[..n])
      + (if Owned(t, names[n]) then [] else [Bare(GgufPath(names[n]), RowFor(rows, m, GgufPath(names[n])))])
  }

  function Entries(t: Tree, rows: seq<Row>, m: nat): seq<Entry> {
    var dirs, names := SortedNames(ModelDirs(t)), SortedNames(GgufNames(t));
    HubEntries(t, rows, m, dirs, names) + GgufEntries(t, rows, m, names)
  }

  function Stems(e: Entry): set<string> {
    (set l | l in e.links :: Stem(l)) + (if e.path.GgufPath? then {Stem(e.path.name)} else {})
  }

  // ---- classification ----

  /** A proposal's state and the verdict that set it. */
  datatype Verdict = Verdict(lane: string, outcome: string, tier: string, decidedAt: real, id: nat)
  type Verdicts = map<int, Verdict>

  const MEASURED := "measured"
  const WAITING := {"queued", "screened"}
  const REJECTIONS := {"broken", "declined"}
  const FETCHED_TIERS := {"fetch", "screen", "measure", "adopt"}
  const GRACE: real := 86400.0

  function LatestOf(pids: seq<int>, verdicts: Verdicts): Option<Verdict> {
    if pids == [] then None
    else
      var rest := LatestOf(pids[1..], verdicts);
      if pids[0] in verdicts && (rest == None || verdicts[pids[0]].id >= rest.value.id) then Some(verdicts[pids[0]])
      else rest
  }

  function LanesSeen(e: Entry, verdicts: Verdicts): set<string> {
    if e.proposals == {} then {""}
    else set p | p in e.proposals :: Canonical(if p in verdicts then verdicts[p].lane else "")
  }

  /** A lane fallback keeps this entry; a lane that cannot be read counts as every lane. */
  predicate LaneKept(e: Entry, k: Keep, verdicts: Verdicts) {
    var seen := LanesSeen(e, verdicts);
    k.lanes != {} && (seen * k.lanes != {} || "" in seen)
  }

  predicate IsKept(e: Entry, k: Keep, verdicts: Verdicts) {
    || (e.repo != "" && Lower(e.repo) in k.repos)
    || Stems(e) * k.stems != {}
    || LaneKept(e, k, verdicts)
  }

  function Classified(e: Entry, k: Keep, verdicts: Verdicts): Entry {
    var last := LatestOf(Sorted(e.proposals), verdicts);
    var told := if last.Some? then e.(decidedAt := last.value.decidedAt, verdict := Some(last.value.id)) else e;
    told.(group :=
      if IsKept(e, k, verdicts) then KEEP
      else if e.unrecorded then UNKNOWN
      else if last == None then UNKNOWN
      else if last.value.outcome == MEASURED then KEEP
      else if last.value.outcome in WAITING then QUEUED
      else if last.value.outcome in REJECTIONS && last.value.tier in FETCHED_TIERS then REJECTED
      else UNKNOWN)
  }

  datatype Inventory = Inventory(entries: seq<Entry>, problems: bool)

  function ClassifyAll(es: seq<Entry>, k: Keep, verdicts: Verdicts): (out: seq<Entry>)
    ensures |out| == |es|
    ensures forall i :: 0 <= i < |es| ==> out[i] == Classified(es[i], k, verdicts)
  {
    if es == [] then [] else [Classified(es[0], k, verdicts)] + ClassifyAll(es[1..], k, verdicts)
  }

  function TakeInventory(t: Tree, rows: seq<Row>, m: nat, src: Sources, tables: Tables, verdicts: Verdicts): Inventory {
    Inventory(ClassifyAll(Entries(t, rows, m), KeepOf(src, tables), verdicts), KeepersUnknown(src, tables))
  }

  // ---- what may go ----

  /** safe_to_delete; both roots hold the entry by the way it is named. */
  predicate SafeToDelete(e: Entry, now: real, wanted: Group) {
    && e.group != KEEP && !e.unrecorded
    && e.group == wanted && wanted in {REJECTED, UNKNOWN}
    && !(e.group == REJECTED && now - e.decidedAt < GRACE)
    && (e.path.HubPath? || e.path.GgufPath?)
  }

  function Plan(entries: seq<Entry>, now: real, wanted: Group): seq<Entry> {
    if entries == [] then []
    else (if SafeToDelete(entries[0], now, wanted) then [entries[0]] else []) + Plan(entries[1..], now, wanted)
  }

  // ---- removal ----

  /** The links of the GGUF directory that lead to one of its names. */
  function LinksTo(t: Tree, name: string): set<string> {
    set l | l in t.gguf && t.gguf[l] == Link(ToGguf(name))
  }

  function Members(names: seq<string>): set<string> { set n | n in names }

  function WithoutLinks(t: Tree, links: set<string>): Tree { t.(gguf := t.gguf - links) }

  function Outside(inside: set<(string, string)>, dir: string): set<(string, string)> {
    set x | x in inside && x.0 != dir
  }

  function StillLinks(t: Tree, links: seq<string>): set<string> {
    set l | l in links && l in t.gguf && t.gguf[l].Link?
  }

  /** What one removal did: its path, the links that went with it, and whether it succeeded. */
  datatype Done = Done(entry: Entry, links: seq<string>, ok: bool)

  function RemoveEntry(t: Tree, e: Entry): (Tree, Done) {
    match e.path
    case HubPath(dir) =>
      if dir !in t.hub || t.hub[dir] != HubDir then (t, Done(e, [], false))
      else
        var links := StillLinks(t, e.links);
        (WithoutLinks(t, links).(hub := t.hub - {dir}, inside := Outside(t.inside, dir)),
         Done(e, SortedNames(links), true))
    case GgufPath(name) =>
      if name in t.gguf && t.gguf[name].Link? then (WithoutLinks(t, {name}), Done(e, [], true))
      else
        var links := LinksTo(t, name);
        if name in t.gguf && t.gguf[name].File? then
          (WithoutLinks(t, links + {name}), Done(e, SortedNames(links), true))
        else (WithoutLinks(t, links), Done(e, SortedNames(links), false))
    case _ => (t, Done(e, [], false))
  }

  function RemoveAll(t: Tree, plan: seq<Entry>): (Tree, seq<Done>)
    decreases plan
  {
    if plan == [] then (t, [])
    else
      var (next, done) := RemoveEntry(t, plan[0]);
      var (end, rest) := RemoveAll(next, plan[1..]);
      (end, [done] + rest)
  }

  function KindOf(p: Path): Kind {
    if p.GgufPath? && EndsWith(Lower(p.name), ".gguf") then GGUF else HUB
  }

  function StampLinks(rows: seq<Row>, m: nat, d: Done, links: seq<string>, how: Removal, w: World): seq<Row>
    decreases links
  {
    if links == [] then rows
    else
      var p := GgufPath(links[0]);
      StampLinks(Removed(rows, m, Gone(p, d.entry.repo, KindOf(p), 0, ""), how, w), m, d, links[1..], how, w)
  }

  function StampOne(rows: seq<Row>, m: nat, d: Done, source: string, w: World): seq<Row> {
    var how := Removal(w.now, source, d.entry.verdict);
    var p := d.entry.path;
    if !d.ok then rows
    else StampLinks(Removed(rows, m, Gone(p, d.entry.repo, KindOf(p), w.size(p), ""), how, w), m, d, d.links, how, w)
  }

  function StampAll(rows: seq<Row>, m: nat, log: seq<Done>, source: string, w: World): seq<Row>
    decreases log
  {
    if log == [] then rows else StampAll(StampOne(rows, m, log[0], source, w), m, log[1..], source, w)
  }

  class WeightsDisk {
    var tree: Tree

    constructor (tree: Tree)
      ensures this.tree == tree
    {
      this.tree := tree;
    }

    /** Unlink names of the GGUF directory one at a time. */
    method Unlink(names: seq<string>)
      modifies this
      ensures tree == WithoutLinks(old(tree), Members(names))
    {
      var i := 0;
      while i < |names|
        invariant 0 <= i <= |names|
        invariant tree == WithoutLinks(old(tree), Members(names[..i]))
      {
        assert names[..i + 1] == names[..i] + [names[i]];
        assert Members(names[..i + 1]) == Members(names[..i]) + {names[i]};
        tree := tree.(gguf := tree.gguf - {names[i]});
        assert tree.gguf == old(tree).gguf - Members(names[..i + 1]);
        i := i + 1;
      }
      assert names[..i] == names;
    }

    method Remove(e: Entry) returns (done: Done)
      modifies this
      ensures (tree, done) == RemoveEntry(old(tree), e)
    {
      if e.path.HubPath? {
        var dir := e.path.name;
        if dir !in tree.hub || tree.hub[dir] != HubDir {
          return Done(e, [], false);
        }
        var links := SortedNames(StillLinks(tree, e.links));
        Unlink(links);
        assert Members(links) == StillLinks(old(tree), e.links);
        tree := tree.(hub := tree.hub - {dir}, inside := Outside(tree.inside, dir));
        return Done(e, links, true);
      }
      if !e.path.GgufPath? {
        return Done(e, [], false);
      }
      var name := e.path.name;
      if name in tree.gguf && tree.gguf[name].Link? {
        Unlink([name]);
        assert Members([name]) == {name};
        return Done(e, [], true);
      }
      var links := SortedNames(LinksTo(tree, name));
      Unlink(links);
      assert Members(links) == LinksTo(old(tree), name);
      if name !in tree.gguf || !tree.gguf[name].File? {
        return Done(e, links, false);
      }
      Unlink([name]);
      assert Members([name]) == {name};
      assert old(tree).gguf - LinksTo(old(tree), name) - {name} == old(tree).gguf - (LinksTo(old(tree), name) + {name});
      return Done(e, links, true);
    }

    /** Remove what safe_to_delete allows and stamp it; refuse everything if keepers are unknown. */
    method Delete(inv: Inventory, now: real, wanted: Group, table: Table, source: string, w: World)
      returns (log: Option<seq<Done>>)
      modifies this, table
      ensures inv.problems ==> log == None && tree == old(tree) && table.rows == old(table.rows)
      ensures !inv.problems ==>
                && log.Some?
                && (tree, log.value) == RemoveAll(old(tree), Plan(inv.entries, now, wanted))
                && table.rows == StampAll(old(table.rows), table.machine, log.value, source, w)
    {
      if inv.problems {
        return None;
      }
      var plan := Plan(inv.entries, now, wanted);
      var removed: seq<Done> := [];
      var i := 0;
      while i < |plan|
        invariant 0 <= i <= |plan|
        invariant RemoveAll(old(tree), plan).0 == RemoveAll(tree, plan[i..]).0
        invariant RemoveAll(old(tree), plan).1 == removed + RemoveAll(tree, plan[i..]).1
        invariant table.rows == old(table.rows)
      {
        assert plan[i..][0] == plan[i] && plan[i..][1..] == plan[i + 1..];
        ghost var before := tree;
        var done := Remove(plan[i]);
        assert RemoveAll(before, plan[i..]).1 == [done] + RemoveAll(tree, plan[i + 1..]).1;
        removed := removed + [done];
        i := i + 1;
      }
      assert plan[i..] == [] && RemoveAll(tree, []) == (tree, []);
      assert removed + [] == removed;
      Stamp(table, removed, source, w);
      log := Some(removed);
    }

    /** record(): stamp each removed path's row, then its links'. */
    method Stamp(table: Table, log: seq<Done>, source: string, w: World)
      modifies table
      ensures table.rows == StampAll(old(table.rows), table.machine, log, source, w)
    {
      var i := 0;
      while i < |log|
        invariant 0 <= i <= |log|
        invariant StampAll(table.rows, table.machine, log[i..], source, w)
               == StampAll(old(table.rows), table.machine, log, source, w)
      {
        assert log[i..][0] == log[i] && log[i..][1..] == log[i + 1..];
        var d := log[i];
        if d.ok {
          var how := Removal(w.now, source, d.entry.verdict);
          var size := w.size(d.entry.path);
          ghost var before := table.rows;
          table.Remove(Gone(d.entry.path, d.entry.repo, KindOf(d.entry.path), size, ""), how, w);
          var j := 0;
          while j < |d.links|
            invariant 0 <= j <= |d.links|
            invariant StampLinks(table.rows, table.machine, d, d.links[j..], how, w)
                   == StampOne(before, table.machine, d, source, w)
          {
            assert d.links[j..][0] == d.links[j] && d.links[j..][1..] == d.links[j + 1..];
            var p := GgufPath(d.links[j]);
            table.Remove(Gone(p, d.entry.repo, KindOf(p), 0, ""), how, w);
            j := j + 1;
          }
        }
        i := i + 1;
      }
    }
  }

  // ---- the scan as the source runs it ----

  /** _scan's first loop: a bare entry per hub directory, and where each is. */
  method ScanHub(t: Tree, rows: seq<Row>, m: nat, dirs: seq<string>) returns (owners: seq<Entry>, at: map<string, nat>)
    requires forall i, j :: 0 <= i < j < |dirs| ==> dirs[i] != dirs[j]
    ensures owners == HubEntries(t, rows, m, dirs, [])
    ensures forall j :: 0 <= j < |dirs| ==> dirs[j] in at && at[dirs[j]] == j
    ensures forall d <- at :: at[d] < |dirs| && dirs[at[d]] == d
  {
    owners, at := [], map[];
    var i := 0;
    while i < |dirs|
      invariant 0 <= i <= |dirs| && |owners| == i
      invariant forall j :: 0 <= j < i ==> owners[j] == HubEntry(t, rows, m, dirs[j], [])
      invariant forall j :: 0 <= j < i ==> dirs[j] in at && at[dirs[j]] == j
      invariant forall d <- at :: at[d] < i && dirs[at[d]] == d
    {
      owners := owners + [Bare(HubPath(dirs[i]), RowFor(rows, m, HubPath(dirs[i])))];
      at := at[dirs[i] := i];
      i := i + 1;
    }
  }

  /** Attach one link to its owner in place. */
  function Attached(e: Entry, name: string, row: Option<Row>): Entry {
    e.(links := e.links + [name], proposals := e.proposals + ProposalOf(row))
  }

  lemma HubEntryStep(t: Tree, rows: seq<Row>, m: nat, dir: string, names: seq<string>, i: nat)
    requires i < |names|
    ensures HubEntry(t, rows, m, dir, names[..i + 1])
         == var e := HubEntry(t, rows, m, dir, names[..i]);
            if OwnedBy(t, names[i], dir) then Attached(e, names[i], RowFor(rows, m, GgufPath(names[i]))) else e
  {
    assert names[..i + 1][..i] == names[..i];
  }

  lemma GgufEntriesStep(t: Tree, rows: seq<Row>, m: nat, names: seq<string>, i: nat)
    requires i < |names|
    ensures GgufEntries(t, rows, m, names[..i + 1])
         == GgufEntries(t, rows, m, names[..i])
            + (if Owned(t, names[i]) then [] else [Bare(GgufPath(names[i]), RowFor(rows, m, GgufPath(names[i])))])
  {
    assert names[..i + 1][..i] == names[..i];
  }

  /** Whether a name is owned, as the source asks: by looking its target up among the scanned directories. */
  lemma OwnerIsScanned(t: Tree, name: string, dirs: seq<string>, at: map<string, nat>)
    requires name in t.gguf && (forall d :: d in dirs <==> d in ModelDirs(t))
    requires forall d :: d in at <==> d in dirs
    ensures var node := t.gguf[name];
            Owned(t, name) <==> node.Link? && node.target.ToHub? && node.target.top in at
  {
    var node := t.gguf[name];
    if node.Link? && node.target.ToHub? {
      assert node.target.top in ModelDirs(t) <==> IsModelDir(t, node.target.top);
    }
  }

  /** One name more: its owner's entry, if it has one, is the only one that changes. */
  lemma HubEntriesStep(t: Tree, rows: seq<Row>, m: nat, dirs: seq<string>, names: seq<string>, i: nat, o: nat)
    requires i < |names| && (forall a, b :: 0 <= a < b < |dirs| ==> dirs[a] != dirs[b])
    requires o < |dirs| && OwnedBy(t, names[i], dirs[o])
    ensures HubEntries(t, rows, m, dirs, names[..i + 1])
         == var es := HubEntries(t, rows, m, dirs, names[..i]);
            es[o := Attached(es[o], names[i], RowFor(rows, m, GgufPath(names[i])))]
  {
    var after := HubEntries(t, rows, m, dirs, names[..i + 1]);
    var es := HubEntries(t, rows, m, dirs, names[..i]);
    forall j | 0 <= j < |dirs|
      ensures after[j] == if j == o then Attached(es[o], names[i], RowFor(rows, m, GgufPath(names[i]))) else es[j]
    {
      HubEntryStep(t, rows, m, dirs[j], names, i);
      assert dirs[j] == dirs[o] ==> j == o;
    }
  }

  lemma HubEntriesSame(t: Tree, rows: seq<Row>, m: nat, dirs: seq<string>, names: seq<string>, i: nat)
    requires i < |names| && !Owned(t, names[i])
    ensures HubEntries(t, rows, m, dirs, names[..i + 1]) == HubEntries(t, rows, m, dirs, names[..i])
  {
    var after := HubEntries(t, rows, m, dirs, names[..i + 1]);
    forall j | 0 <= j < |dirs|
      ensures after[j] == HubEntry(t, rows, m, dirs[j], names[..i])
    {
      HubEntryStep(t, rows, m, dirs[j], names, i);
    }
  }

  /** Where each scanned directory is among them. */
  predicate Places(dirs: seq<string>, at: map<string, nat>) {
    && (forall j :: 0 <= j < |dirs| ==> dirs[j] in at && at[dirs[j]] == j)
    && (forall d <- at :: at[d] < |dirs| && dirs[at[d]] == d)
  }

  /** One name of the second loop: a link goes to its owner's entry in place, anything else has its own. */
  method Place(t: Tree, rows: seq<Row>, m: nat, dirs: seq<string>, at: map<string, nat>, owners: seq<Entry>,
               files: seq<Entry>, names: seq<string>, i: nat) returns (owners': seq<Entry>, files': seq<Entry>)
    requires i < |names| && names[i] in t.gguf && Places(dirs, at)
    requires forall d :: d in dirs <==> d in ModelDirs(t)
    requires forall a, b :: 0 <= a < b < |dirs| ==> dirs[a] != dirs[b]
    requires owners == HubEntries(t, rows, m, dirs, names[..i]) && files == GgufEntries(t, rows, m, names[..i])
    ensures owners' == HubEntries(t, rows, m, dirs, names[..i + 1])
    ensures files' == GgufEntries(t, rows, m, names[..i + 1])
  {
    owners', files' := owners, files;
    var name := names[i];
    var row := RowFor(rows, m, GgufPath(name));
    var node := t.gguf[name];
    OwnerIsScanned(t, name, dirs, at);
    GgufEntriesStep(t, rows, m, names, i);
    hide HubEntry, HubEntries, GgufEntries, ModelDirs, RowFor, Attached, IsModelDir;
    if node.Link? && node.target.ToHub? && node.target.top in at {
      var o := at[node.target.top];
      HubEntriesStep(t, rows, m, dirs, names, i, o);
      owners' := owners[o := Attached(owners[o], name, row)];
    } else {
      HubEntriesSame(t, rows, m, dirs, names, i);
      files' := files + [Bare(GgufPath(name), row)];
    }
  }

  lemma NamesAreThere(t: Tree)
    ensures var names := SortedNames(GgufNames(t)); forall i :: 0 <= i < |names| ==> names[i] in t.gguf
  {
    var names := SortedNames(GgufNames(t));
    forall i | 0 <= i < |names|
      ensures names[i] in t.gguf
    {
      assert names[i] in names;
    }
  }

  lemma EntriesAre(t: Tree, rows: seq<Row>, m: nat)
    ensures var dirs, names := SortedNames(ModelDirs(t)), SortedNames(GgufNames(t));
            && Entries(t, rows, m) == HubEntries(t, rows, m, dirs, names) + GgufEntries(t, rows, m, names)
            && (forall d :: d in dirs <==> d in ModelDirs(t))
            && (forall a, b :: 0 <= a < b < |dirs| ==> dirs[a] != dirs[b])
  {
    hide HubEntries, GgufEntries;
  }

  /** The first loop's outcome. */
  method BeginScan(t: Tree, rows: seq<Row>, m: nat, dirs: seq<string>, names: seq<string>)
    returns (owners: seq<Entry>, files: seq<Entry>, at: map<string, nat>)
    requires forall a, b :: 0 <= a < b < |dirs| ==> dirs[a] != dirs[b]
    ensures owners == HubEntries(t, rows, m, dirs, names[..0]) && files == GgufEntries(t, rows, m, names[..0])
    ensures Places(dirs, at)
  {
    owners, at := ScanHub(t, rows, m, dirs);
    files := [];
    NoFiles(t, rows, m);
    assert names[..0] == [];
  }

  /** _scan: a bare entry per path, then each GGUF symlink attached to the hub directory it leads into. */
  method ScanEntries(t: Tree, rows: seq<Row>, m: nat) returns (entries: seq<Entry>)
    ensures entries == Entries(t, rows, m)
  {
    hide *;
    var dirs, names := SortedNames(ModelDirs(t)), SortedNames(GgufNames(t));
    EntriesAre(t, rows, m);
    NamesAreThere(t);
    var owners, files, at := BeginScan(t, rows, m, dirs, names);
    var i := 0;
    while i < |names|
      invariant 0 <= i <= |names|
      invariant owners == HubEntries(t, rows, m, dirs, names[..i])
      invariant files == GgufEntries(t, rows, m, names[..i])
    {
      owners, files := Place(t, rows, m, dirs, at, owners, files, names, i);
      i := i + 1;
    }
    assert names[..i] == names;
    entries := owners + files;
  }

  lemma NoFiles(t: Tree, rows: seq<Row>, m: nat)
    ensures GgufEntries(t, rows, m, []) == []
  {
  }
}

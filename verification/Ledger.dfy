/**
 * harness/downloads.py: the downloads table beside the two weights directories.
 * A path is named by the directory it lies in, as rows store it: parent
 * resolved, the entry itself not followed. Row ids are positions in the table.
 */
module Ledger {
  import opened Common
  import opened Text

  datatype Kind = HUB | GGUF
  datatype Path =
    HubPath(name: string) | GgufPath(name: string) | Within(dir: string, rest: string) | Elsewhere(text: string)

  const PARTIAL := "partial"
  const LINK := "hub-link"
  const SCAN := "scan"

  // ---- what is on disk ----

  datatype HubNode = HubDir | HubLink | HubFile
  /** Where a symlink of the GGUF directory leads; links are not chained. */
  datatype Target = ToHub(top: string) | ToGguf(name: string) | ToElsewhere
  datatype GgufNode = File | Link(target: Target) | Directory
  datatype Tree = Tree(hub: map<string, HubNode>, gguf: map<string, GgufNode>,
                       inside: set<(string, string)>, elsewhere: set<string>)

  predicate Lexists(t: Tree, p: Path) {
    match p
    case HubPath(name) => name in t.hub
    case GgufPath(name) => name in t.gguf
    case Within(dir, rest) => dir in t.hub && (dir, rest) in t.inside
    case Elsewhere(text) => text in t.elsewhere
  }

  predicate IsModelDir(t: Tree, name: string) {
    name in t.hub && t.hub[name] == HubDir && StartsWith(name, "models--")
  }

  predicate IsGgufName(name: string) { EndsWith(Lower(name), ".gguf") }

  function ModelDirs(t: Tree): set<string> { set n | n in t.hub && IsModelDir(t, n) }

  function GgufNames(t: Tree): set<string> { set n | n in t.gguf && IsGgufName(n) }

  type Item = (Kind, Path)

  function HubItems(names: seq<string>): seq<Item> {
    if names == [] then [] else [(HUB, HubPath(names[0]))] + HubItems(names[1..])
  }

  function FileItems(names: seq<string>): seq<Item> {
    if names == [] then [] else [(GGUF, GgufPath(names[0]))] + FileItems(names[1..])
  }

  /** What is physically there, hub directories first, symlinked ones skipped. */
  function Scan(t: Tree): seq<Item> {
    HubItems(SortedNames(ModelDirs(t))) + FileItems(SortedNames(GgufNames(t)))
  }

  // ---- the table ----

  datatype Removal = Removal(at: real, who: string, verdict: Option<nat>)
  datatype Row = Row(repo: string, kind: Kind, path: Path, origin: string, machine: nat, proposal: Option<nat>,
                     started: Option<real>, finished: Option<real>, complete: bool, bytes: nat, source: string,
                     removed: Option<Removal>)

  predicate IsLive(r: Row, m: nat) { r.removed == None && r.machine == m }

  predicate LiveAt(rows: seq<Row>, m: nat, p: Path) {
    exists r <- rows :: IsLive(r, m) && r.path == p
  }

  /** The newest live row for a kind and path. */
  function LatestAt(rows: seq<Row>, m: nat, kind: Kind, p: Path): (i: Option<nat>)
    ensures i.Some? ==> i.value < |rows| && IsLive(rows[i.value], m)
                        && rows[i.value].kind == kind && rows[i.value].path == p
  {
    if rows == [] then None
    else
      var n := |rows| - 1;
      if IsLive(rows[n], m) && rows[n].kind == kind && rows[n].path == p then Some(n)
      else LatestAt(rows[..n], m, kind, p)
  }

  /** Everything a call measures or looks up outside the table. */
  datatype World = World(now: real, loadable: Path -> bool, size: Path -> nat, proposal: string -> Option<nat>,
                         hubRepo: Path -> string, ggufRepo: (seq<Row>, Path) -> (string, string))

  /** start(): reuse the newest live row of the path, else insert one in flight. */
  function Started(rows: seq<Row>, m: nat, kind: Kind, p: Path, repo: string, origin: string, w: World)
    : (seq<Row>, nat)
  {
    match LatestAt(rows, m, kind, p)
    case Some(i) => (rows[i := rows[i].(started := Some(w.now), finished := None, complete := false)], i)
    case None =>
      (rows + [Row(repo, kind, p, origin, m, w.proposal(repo), Some(w.now), None, false, 0, "", None)], |rows|)
  }

  /** finish() on an unchanged path: measure what landed and stamp the row. */
  function Finished(rows: seq<Row>, i: nat, failed: bool, w: World): seq<Row>
    requires i < |rows|
  {
    var r := rows[i];
    rows[i := r.(bytes := w.size(r.path), complete := !failed && w.loadable(r.path), finished := Some(w.now))]
  }

  /** record(): a download that already happened. */
  function Recorded(rows: seq<Row>, m: nat, kind: Kind, p: Path, repo: string, origin: string, source: string,
                    w: World): seq<Row> {
    var (begun, i) := Started(rows, m, kind, p, repo, origin, w);
    var named := begun[i := begun[i].(started := Some(w.now), source := source,
                                      repo := if begun[i].repo == "" then repo else begun[i].repo)];
    Finished(named, i, false, w)
  }

  function Stamped(rows: seq<Row>, m: nat, p: Path, how: Removal): (out: seq<Row>)
    ensures |out| == |rows|
  {
    if rows == [] then []
    else
      [if IsLive(rows[0], m) && rows[0].path == p then rows[0].(removed := Some(how), complete := false) else rows[0]]
      + Stamped(rows[1..], m, p, how)
  }

  datatype Gone = Gone(path: Path, repo: string, kind: Kind, bytes: nat, origin: string)

  /** removed(): stamp every live row of the path, or insert a removed one if nothing recorded it. */
  function Removed(rows: seq<Row>, m: nat, g: Gone, how: Removal, w: World): seq<Row> {
    if LiveAt(rows, m, g.path) then Stamped(rows, m, g.path, how)
    else
      rows + [Row(g.repo, g.kind, g.path, if g.origin != "" then g.origin else SCAN, m, w.proposal(g.repo), None, None,
                  false, g.bytes, "", Some(how))]
  }

  // ---- drift ----

  predicate IsGone(r: Row, m: nat, t: Tree) { IsLive(r, m) && r.origin != PARTIAL && !Lexists(t, r.path) }

  /** Live rows whose path is gone, newest first. */
  function GoneRows(rows: seq<Row>, m: nat, t: Tree): seq<Row> {
    if rows == [] then []
    else
      var n := |rows| - 1;
      (if IsGone(rows[n], m, t) then [rows[n]] else []) + GoneRows(rows[..n], m, t)
  }

  function UnknownOf(items: seq<Item>, rows: seq<Row>, m: nat): seq<Item> {
    if items == [] then []
    else (if LiveAt(rows, m, items[0].1) then [] else [items[0]]) + UnknownOf(items[1..], rows, m)
  }

  /** Paths on disk no live row explains. */
  function Unrecorded(rows: seq<Row>, m: nat, t: Tree): seq<Item> { UnknownOf(Scan(t), rows, m) }

  predicate NoDrift(rows: seq<Row>, m: nat, t: Tree) {
    GoneRows(rows, m, t) == [] && Unrecorded(rows, m, t) == []
  }

  // ---- record_unrecorded ----

  function RemoveGone(rows: seq<Row>, m: nat, gone: seq<Row>, how: Removal, w: World): seq<Row>
    decreases gone
  {
    if gone == [] then rows
    else RemoveGone(Removed(rows, m, Gone(gone[0].path, "", gone[0].kind, 0, ""), how, w), m, gone[1..], how, w)
  }

  function RecordItem(rows: seq<Row>, m: nat, item: Item, origin: string, w: World): seq<Row> {
    if item.0 == HUB then Recorded(rows, m, HUB, item.1, w.hubRepo(item.1), origin, "", w)
    else
      var (repo, target) := w.ggufRepo(rows, item.1);
      Recorded(rows, m, GGUF, item.1, repo, if target != "" then LINK else origin, target, w)
  }

  function RecordItems(rows: seq<Row>, m: nat, items: seq<Item>, origin: string, w: World): seq<Row>
    decreases items
  {
    if items == [] then rows else RecordItems(RecordItem(rows, m, items[0], origin, w), m, items[1..], origin, w)
  }

  function Settled(rows: seq<Row>, m: nat, t: Tree, origin: string, w: World): seq<Row> {
    var how := Removal(w.now, "absent at " + origin, None);
    RecordItems(RemoveGone(rows, m, GoneRows(rows, m, t), how, w), m, Unrecorded(rows, m, t), origin, w)
  }

  /** The downloads table of one machine's store. */
  class Table {
    const machine: nat
    var rows: seq<Row>

    constructor (machine: nat, rows: seq<Row>)
      ensures this.machine == machine && this.rows == rows
    {
      this.machine := machine;
      this.rows := rows;
    }

    method Start(kind: Kind, p: Path, repo: string, origin: string, w: World) returns (id: nat)
      modifies this
      ensures (rows, id) == Started(old(rows), machine, kind, p, repo, origin, w)
      ensures id < |rows|
    {
      var got := LatestAt(rows, machine, kind, p);
      if got.Some? {
        id := got.value;
        rows := rows[id := rows[id].(started := Some(w.now), finished := None, complete := false)];
      } else {
        id := |rows|;
        var proposal := w.proposal(repo);
        rows := rows + [Row(repo, kind, p, origin, machine, proposal, Some(w.now), None, false, 0, "", None)];
      }
    }

    method Finish(id: nat, failed: bool, w: World)
      requires id < |rows|
      modifies this
      ensures rows == Finished(old(rows), id, failed, w)
    {
      var size := w.size(rows[id].path);
      var whole := w.loadable(rows[id].path);
      rows := rows[id := rows[id].(bytes := size, complete := !failed && whole, finished := Some(w.now))];
    }

    method Record(kind: Kind, p: Path, repo: string, origin: string, source: string, w: World)
      modifies this
      ensures rows == Recorded(old(rows), machine, kind, p, repo, origin, source, w)
    {
      var id := Start(kind, p, repo, origin, w);
      rows := rows[id := rows[id].(started := Some(w.now), source := source,
                                   repo := if rows[id].repo == "" then repo else rows[id].repo)];
      Finish(id, false, w);
    }

    method Remove(g: Gone, how: Removal, w: World)
      modifies this
      ensures rows == Removed(old(rows), machine, g, how, w)
    {
      if LiveAt(rows, machine, g.path) {
        rows := Stamped(rows, machine, g.path, how);
      } else {
        var proposal := w.proposal(g.repo);
        rows := rows + [Row(g.repo, g.kind, g.path, if g.origin != "" then g.origin else SCAN, machine, proposal,
                            None, None, false, g.bytes, "", Some(how))];
      }
    }

    /** A row for each present path, gone rows stamped. */
    method RecordUnrecorded(t: Tree, origin: string, w: World) returns (recorded: nat, gone: nat)
      modifies this
      ensures rows == Settled(old(rows), machine, t, origin, w)
      ensures recorded == |Unrecorded(old(rows), machine, t)| && gone == |GoneRows(old(rows), machine, t)|
    {
      var absent := GoneRows(rows, machine, t);
      var items := Unrecorded(rows, machine, t);
      var how := Removal(w.now, "absent at " + origin, None);
      ghost var was := rows;
      var i := 0;
      while i < |absent|
        invariant 0 <= i <= |absent|
        invariant RemoveGone(rows, machine, absent[i..], how, w) == RemoveGone(was, machine, absent, how, w)
      {
        assert absent[i..][0] == absent[i] && absent[i..][1..] == absent[i + 1..];
        Remove(Gone(absent[i].path, "", absent[i].kind, 0, ""), how, w);
        i := i + 1;
      }
      ghost var kept := rows;
      i := 0;
      while i < |items|
        invariant 0 <= i <= |items|
        invariant RecordItems(rows, machine, items[i..], origin, w) == RecordItems(kept, machine, items, origin, w)
      {
        assert items[i..][0] == items[i] && items[i..][1..] == items[i + 1..];
        if items[i].0 == HUB {
          var repo := w.hubRepo(items[i].1);
          Record(HUB, items[i].1, repo, origin, "", w);
        } else {
          var (repo, target) := w.ggufRepo(rows, items[i].1);
          Record(GGUF, items[i].1, repo, if target != "" then LINK else origin, target, w);
        }
        i := i + 1;
      }
      recorded, gone := |items|, |absent|;
    }
  }
}

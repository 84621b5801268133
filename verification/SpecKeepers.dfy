/**
 * Which weights each form of an engine spec keeps, by the text of the spec, the names of the files and the repos of
 * the rows, through a whole deletion of harness/disk.py.
 */
module SpecKeepers {
  import opened Common
  import opened Text
  import opened Ledger
  import opened Disk
  import opened DiskLaws
  import AK = AdoptedKeepers

  // ---- what a use keeps a deletion does not take ----

  /** An entry of the disk that no planned file is linked from, which a deletion is to leave. */
  predicate Listed(d: AK.Deletion, e: Entry) {
    e in Entries(d.tree, d.rows, d.machine) && !LinksToPlanned(d.tree, AK.Planned(d), e)
  }

  /** Its path is still there after the deletion, and so are the links attached to it. */
  predicate Spared(d: AK.Deletion, e: Entry) {
    Lexists(AK.After(d), e.path) && forall l <- e.links :: Lexists(AK.After(d), GgufPath(l))
  }

  /** What is in use: every alias, every lane's typed default, and every spec adopted for a lane. */
  predicate Used(u: Use, src: Sources) {
    || (u.spec in src.aliases && u.lane == "")
    || (u.lane in src.typed && src.typed[u.lane] == u.spec)
    || (u.lane in src.adopted && u.spec in src.adopted[u.lane])
  }

  lemma UsedIsAUse(u: Use, src: Sources)
    requires Used(u, src)
    ensures u in Uses(src)
  {
    if u.spec in src.aliases && u.lane == "" {
      assert u in AliasUses(src);
    } else if u.lane in src.typed && src.typed[u.lane] == u.spec {
      assert u in TypedUses(src);
    } else {
      assert u in AdoptedUses(src);
    }
    hide AliasUses, TypedUses, AdoptedUses;
  }

  lemma MatchedIsSpared(d: AK.Deletion, u: Use, e: Entry)
    requires Listed(d, e) && Used(u, d.src) && Matches(e, Resolve(u.spec, d.src, d.tables))
    ensures Spared(d, e)
  {
    hide *;
    UsedIsAUse(u, d.src);
    if AK.InventoryOf(d).problems {
      NothingGoes(d, e);
    } else {
      PlannedIs(d);
      ListedIs(d, e);
      KeptEntriesSurvive(d.tree, d.rows, d.machine, d.src, d.tables, d.verdicts, d.now, d.wanted, e);
      SparedIs(d, e);
    }
  }

  lemma UnnamedIsSpared(d: AK.Deletion, u: Use, e: Entry)
    requires Listed(d, e) && Used(u, d.src) && NamesNoWeights(u, d.src, d.tables) && u.lane != ""
    requires OfLane(e, u.lane, d.verdicts)
    ensures Spared(d, e)
  {
    hide *;
    UsedIsAUse(u, d.src);
    if AK.InventoryOf(d).problems {
      NothingGoes(d, e);
    } else {
      PlannedIs(d);
      ListedIs(d, e);
      KeptEntriesSurvive(d.tree, d.rows, d.machine, d.src, d.tables, d.verdicts, d.now, d.wanted, e);
      SparedIs(d, e);
    }
  }

  lemma PlannedIs(d: AK.Deletion)
    requires !AK.InventoryOf(d).problems
    ensures AK.Planned(d)
         == Plan(TakeInventory(d.tree, d.rows, d.machine, d.src, d.tables, d.verdicts).entries, d.now, d.wanted)
    ensures AK.After(d) == RemoveAll(d.tree, AK.Planned(d)).0
  {
    hide TakeInventory, Plan, RemoveAll;
  }

  lemma ListedIs(d: AK.Deletion, e: Entry)
    requires Listed(d, e)
    ensures e in Entries(d.tree, d.rows, d.machine) && !LinksToPlanned(d.tree, AK.Planned(d), e)
  {
    hide Entries, LinksToPlanned, AK.Planned;
  }

  lemma SparedIs(d: AK.Deletion, e: Entry)
    requires Lexists(AK.After(d), e.path)
    requires forall l <- e.links :: Lexists(AK.After(d), GgufPath(l))
    ensures Spared(d, e)
  {
    hide Lexists, AK.After;
  }

  lemma NothingGoes(d: AK.Deletion, e: Entry)
    requires Listed(d, e) && AK.InventoryOf(d).problems
    ensures Spared(d, e)
  {
    hide TakeInventory, Entries, RemoveAll, LinksToPlanned, Scanned, Lexists;
    AK.NothingPlanned(d.tree);
    EntriesAreScanned(d.tree, d.rows, d.machine, e);
    ScannedIsThere(d.tree, e);
  }

  // ---- the parts of a spec ----

  /** `spec`, its outer white space apart, is a name and then at most a revision and options. */
  predicate Spells(spec: string, name: string, rest: string) {
    && Strip(spec) == name + rest && ',' !in name && '@' !in name
    && (rest == "" || rest[0] == ',' || rest[0] == '@')
  }

  lemma NameIs(spec: string, name: string, rest: string)
    requires Spells(spec, name, rest)
    ensures Before(Before(Strip(spec), ','), '@') == name
  {
    BeforeConcat(name, rest, ',');
    BeforeConcat(name, Before(rest, ','), '@');
    assert name + "" == name;
  }

  /** `repo` is one of the row's, whatever the letter case. */
  predicate OfRepo(e: Entry, repo: string) { e.repo != "" && Lower(e.repo) == Lower(repo) }

  /** `file` is called `n` and .gguf, whatever the letter case and whether or not `n` says .gguf itself. */
  predicate Called(file: string, n: string) {
    Lower(file) == if EndsWith(Lower(n), ".gguf") then Lower(n) else Lower(n) + ".gguf"
  }

  /** A GGUF file that is the entry, or a link to one of its files. */
  predicate HasFile(e: Entry, file: string) { e.path == GgufPath(file) || file in e.links }

  lemma CalledAlike(file: string, n: string)
    requires Called(file, n)
    ensures Stem(file) == Stem(Lower(n))
  {
    LowerTwice(n);
    var ext := ".gguf";
    if !EndsWith(Lower(n), ext) {
      assert (Lower(n) + ext)[|Lower(n)|..] == ext;
      assert EndsWith(Lower(file), ext);
      assert Lower(file)[..|Lower(file)| - 5] == Lower(n);
    }
  }

  lemma HeldFile(e: Entry, file: string)
    requires HasFile(e, file)
    ensures Stem(file) in Stems(e)
  {
    hide Stem;
  }

  lemma RepoMatches(e: Entry, repo: string, w: Weights)
    requires OfRepo(e, repo) && repo in w.0
    ensures Matches(e, w)
  {
    hide Lower;
  }

  lemma FileMatches(e: Entry, file: string, w: Weights)
    requires HasFile(e, file) && Stem(file) in w.1
    ensures Matches(e, w)
  {
    HeldFile(e, file);
    hide Stems;
    assert Stem(file) in Stems(e) * w.1;
  }

  // ---- each form of a spec ----

  /** llamacpp: and a name keeps the GGUF file of that name. */
  lemma LlamaSpecKeepsItsFile(d: AK.Deletion, u: Use, scheme: string, n: string, rest: string, e: Entry, file: string)
    requires Listed(d, e) && Used(u, d.src) && Strip(u.spec) !in d.src.aliases
    requires Spells(u.spec, scheme + n, rest) && Lower(scheme) == "llamacpp:"
    requires HasFile(e, file) && Called(file, n)
    ensures Spared(d, e)
  {
    var bare := Lower(scheme + n);
    hide Spared, Listed, Used, HasFile, Lower, Strip, Stem, Called, Matches;
    NameIs(u.spec, scheme + n, rest);
    LowerConcat(scheme, n);
    assert bare == "llamacpp" + [':'] + Lower(n);
    CutAt("llamacpp", Lower(n), ':');
    CalledAlike(file, n);
    assert Resolve(u.spec, d.src, d.tables) == ({}, {Stem(Lower(n))});
    FileMatches(e, file, ({}, {Stem(Lower(n))}));
    MatchedIsSpared(d, u, e);
  }

  /** `key` is the whole of a lower-case name, or stands before its first colon or slash. */
  predicate Leads(key: string, bare: string) {
    || key == bare
    || (key < bare && bare[|key|] in {':', '/'} && ':' !in key && '/' !in key)
  }

  function HeadOf(bare: string): string { Before(Before(bare, ':'), '/') }

  lemma HeadLeads(key: string, bare: string)
    ensures Leads(key, bare) <==> key == bare || key == HeadOf(bare)
  {
    var head := HeadOf(bare);
    if key < bare && bare[|key|] in {':', '/'} && ':' !in key && '/' !in key {
      var tail := bare[|key|..];
      assert bare == key + tail;
      BeforeConcat(key, tail, ':');
      BeforeConcat(key, Before(tail, ':'), '/');
      assert key + "" == key;
    }
    if key == head && key != bare {
      var upto := Before(bare, ':');
      assert head <= upto <= bare;
      assert ':' !in head by {
        assert forall c :: c in head ==> c in upto;
      }
      assert |head| < |upto| ==> bare[|head|] == upto[|head|] == '/';
    }
  }

  /** A spec that is no alias and names no GGUF file. */
  predicate Plainly(spec: string, name: string, rest: string, src: Sources) {
    Spells(spec, name, rest) && Strip(spec) !in src.aliases && !("llamacpp:" <= Lower(name))
  }

  /** What Resolve makes of such a spec. */
  lemma PlainlyIs(spec: string, name: string, rest: string, src: Sources, tables: Tables)
    requires Plainly(spec, name, rest, src)
    ensures var (w, bare, s) := (Resolve(spec, src, tables), Lower(name), Strip(spec));
            && (bare in tables.engineRepos ==> w == (tables.engineRepos[bare], {}))
            && (bare !in tables.engineRepos && HeadOf(bare) in tables.engineRepos ==>
                  w == (tables.engineRepos[HeadOf(bare)], {}))
            && (bare !in tables.engineRepos && HeadOf(bare) !in tables.engineRepos ==>
                  && src.stored(s).0 <= w.0 && w.1 == src.stored(s).1
                  && (HeadOf(bare) == "mflux" && After(bare, ':') in tables.mfluxRepos ==>
                        tables.mfluxRepos[After(bare, ':')] in w.0)
                  && (':' !in s && ',' !in s && '/' in s ==> s in w.0)
                  && (HeadOf(bare) != "mflux" && !(':' !in s && ',' !in s && '/' in s) ==> w.0 == src.stored(s).0))
  {
    NameIs(spec, name, rest);
    hide Lower, Strip, After, Before, Spells;
  }

  /** The name of an engine the table lists keeps the repos listed, the whole name before its head. */
  lemma EngineSpecKeepsItsRepos(d: AK.Deletion, u: Use, name: string, rest: string, key: string, e: Entry, repo: string)
    requires Listed(d, e) && Used(u, d.src) && Plainly(u.spec, name, rest, d.src)
    requires key in d.tables.engineRepos && Leads(key, Lower(name))
    requires key == Lower(name) || Lower(name) !in d.tables.engineRepos
    requires repo in d.tables.engineRepos[key] && OfRepo(e, repo)
    ensures Spared(d, e)
  {
    PlainlyIs(u.spec, name, rest, d.src, d.tables);
    HeadLeads(key, Lower(name));
    hide Spared, Listed, Used, Resolve, Matches, OfRepo, Lower, HeadOf, Plainly, Leads;
    RepoMatches(e, repo, Resolve(u.spec, d.src, d.tables));
    MatchedIsSpared(d, u, e);
  }

  /** No engine of the table is named. */
  predicate NoEngine(name: string, tables: Tables) { forall key <- tables.engineRepos :: !Leads(key, Lower(name)) }

  lemma NoEngineIs(name: string, tables: Tables)
    requires NoEngine(name, tables)
    ensures Lower(name) !in tables.engineRepos && HeadOf(Lower(name)) !in tables.engineRepos
  {
    HeadLeads(Lower(name), Lower(name));
    HeadLeads(HeadOf(Lower(name)), Lower(name));
    hide Leads, HeadOf, Lower;
  }

  lemma PresetIs(preset: string)
    ensures HeadOf("mflux:" + preset) == "mflux" && After("mflux:" + preset, ':') == preset
  {
    var mflux := "mflux";
    assert "mflux:" + preset == mflux + [':'] + preset;
    CutAt(mflux, preset, ':');
    BeforeConcat(mflux, "", '/');
    assert mflux + "" == mflux;
  }

  /** mflux: and a preset keeps the repo the preset loads. */
  lemma PresetSpecKeepsItsRepo(d: AK.Deletion, u: Use, name: string, rest: string, preset: string, e: Entry)
    requires Listed(d, e) && Used(u, d.src) && Plainly(u.spec, name, rest, d.src) && NoEngine(name, d.tables)
    requires Lower(name) == "mflux:" + preset && preset in d.tables.mfluxRepos
    requires OfRepo(e, d.tables.mfluxRepos[preset])
    ensures Spared(d, e)
  {
    hide *;
    PlainlyIs(u.spec, name, rest, d.src, d.tables);
    NoEngineIs(name, d.tables);
    PresetIs(preset);
    RepoMatches(e, d.tables.mfluxRepos[preset], Resolve(u.spec, d.src, d.tables));
    MatchedIsSpared(d, u, e);
  }

  /** A spec with no engine before it is a repo id and keeps that repo. */
  lemma RepoSpecKeepsItself(d: AK.Deletion, u: Use, name: string, rest: string, e: Entry)
    requires Listed(d, e) && Used(u, d.src) && Plainly(u.spec, name, rest, d.src) && NoEngine(name, d.tables)
    requires var s := Strip(u.spec); '/' in s && ':' !in s && ',' !in s && OfRepo(e, s)
    ensures Spared(d, e)
  {
    PlainlyIs(u.spec, name, rest, d.src, d.tables);
    NoEngineIs(name, d.tables);
    hide Spared, Listed, Used, Resolve, Matches, OfRepo, Lower, HeadOf, Plainly, NoEngine, After, Strip;
    RepoMatches(e, Strip(u.spec), Resolve(u.spec, d.src, d.tables));
    MatchedIsSpared(d, u, e);
  }

  /** Weights given as repos and as file names without .gguf. */
  predicate Given(e: Entry, file: string, w: Weights) {
    || (exists repo <- w.0 :: OfRepo(e, repo))
    || (HasFile(e, file) && exists stem <- w.1 :: Lower(file) == stem + ".gguf")
  }

  lemma GivenMatches(e: Entry, file: string, w: Weights, all: Weights)
    requires Given(e, file, w) && w.0 <= all.0 && w.1 <= all.1
    ensures Matches(e, all)
  {
    hide Matches, OfRepo, HasFile, Lower;
    if repo :| repo in w.0 && OfRepo(e, repo) {
      RepoMatches(e, repo, all);
    } else {
      var stem :| stem in w.1 && Lower(file) == stem + ".gguf";
      assert (stem + ".gguf")[|stem|..] == ".gguf" && (stem + ".gguf")[..|stem|] == stem;
      assert Stem(file) == stem;
      hide Stem;
      FileMatches(e, file, all);
    }
  }

  /** An alias keeps the weights the gateway gives it. */
  lemma AliasKeepsItsWeights(d: AK.Deletion, u: Use, e: Entry, file: string)
    requires Listed(d, e) && Used(u, d.src) && Strip(u.spec) in d.src.aliases
    requires Given(e, file, d.src.aliases[Strip(u.spec)])
    ensures Spared(d, e)
  {
    hide Spared, Listed, Used, Matches, Given, Strip, Lower, Before, After;
    GivenMatches(e, file, d.src.aliases[Strip(u.spec)], Resolve(u.spec, d.src, d.tables));
    MatchedIsSpared(d, u, e);
  }

  /** Any other spec keeps the weights of its stored candidate row. */
  lemma StoredSpecKeepsItsWeights(d: AK.Deletion, u: Use, name: string, rest: string, e: Entry, file: string)
    requires Listed(d, e) && Used(u, d.src) && Plainly(u.spec, name, rest, d.src) && NoEngine(name, d.tables)
    requires Given(e, file, d.src.stored(Strip(u.spec)))
    ensures Spared(d, e)
  {
    PlainlyIs(u.spec, name, rest, d.src, d.tables);
    NoEngineIs(name, d.tables);
    hide Spared, Listed, Used, Resolve, Matches, Given, Lower, HeadOf, Plainly, NoEngine, After, Strip;
    GivenMatches(e, file, d.src.stored(Strip(u.spec)), Resolve(u.spec, d.src, d.tables));
    MatchedIsSpared(d, u, e);
  }

  // ---- a winner that names no weights ----

  /** One lane whatever the case and the white space: code is also called text, and no lane also all. */
  predicate SameLane(a: string, b: string) {
    var x, y := Lower(Strip(a)), Lower(Strip(b));
    x == y || (x in {"code", "text"} && y in {"code", "text"}) || (x in {"", "all"} && y in {"", "all"})
  }

  /** It may be of any lane. */
  predicate AnyLane(a: string) { Lower(Strip(a)) in {"", "all"} }

  lemma LanesAre(a: string, b: string)
    ensures SameLane(a, b) ==> Canonical(a) == Canonical(b)
    ensures AnyLane(a) ==> Canonical(a) == ""
  {
    hide Lower, Strip;
  }

  /** A spec in which nothing names weights, of an engine that loads some. */
  predicate NamesNothing(spec: string, name: string, rest: string, d: AK.Deletion) {
    && Plainly(spec, name, rest, d.src) && NoEngine(name, d.tables) && !Leads("mflux", Lower(name))
    && d.src.stored(Strip(spec)) == ({}, {})
    && ('/' !in Strip(spec) || ':' in Strip(spec) || ',' in Strip(spec))
    && Strip(Before(spec, ':')) !in d.tables.weightless
  }

  /** The weights fetched for its lane are kept, with those of no known lane. */
  lemma UnnamedWinnerKeepsTheLane(d: AK.Deletion, u: Use, name: string, rest: string, e: Entry)
    requires Listed(d, e) && Used(u, d.src) && NamesNothing(u.spec, name, rest, d) && u.lane != ""
    requires e.proposals == {} || exists p <- e.proposals ::
               p !in d.verdicts || AnyLane(d.verdicts[p].lane) || SameLane(d.verdicts[p].lane, u.lane)
    ensures Spared(d, e)
  {
    PlainlyIs(u.spec, name, rest, d.src, d.tables);
    NoEngineIs(name, d.tables);
    HeadLeads("mflux", Lower(name));
    hide Spared, Listed, Used, Resolve, Lower, HeadOf, Plainly, NoEngine, After, Strip, Leads, Before;
    assert NamesNoWeights(u, d.src, d.tables);
    LaneIsSeen(e, u.lane, d.verdicts);
    UnnamedIsSpared(d, u, e);
  }

  lemma LaneIsSeen(e: Entry, lane: string, verdicts: Verdicts)
    requires e.proposals == {} || exists p <- e.proposals ::
               p !in verdicts || AnyLane(verdicts[p].lane) || SameLane(verdicts[p].lane, lane)
    ensures OfLane(e, lane, verdicts)
  {
    NoLane();
    hide Canonical, AnyLane, SameLane;
    if e.proposals != {} {
      var p :| p in e.proposals && (p !in verdicts || AnyLane(verdicts[p].lane) || SameLane(verdicts[p].lane, lane));
      var of := if p in verdicts then verdicts[p].lane else "";
      LanesAre(of, lane);
      assert Canonical(of) in LanesSeen(e, verdicts);
    }
  }

  lemma NoLane()
    ensures Canonical("") == ""
  {
  }

  /** An alias the gateway gives no weights, of an engine that loads some, stops every deletion. */
  lemma EmptyAliasStopsDeletion(d: AK.Deletion, name: string, e: Entry)
    requires name in d.src.aliases && Stripped(name) && d.src.aliases[name] == ({}, {})
    requires Strip(Before(name, ':')) !in d.tables.weightless
    ensures AK.InventoryOf(d).problems && AK.Planned(d) == []
    ensures Listed(d, e) ==> Spared(d, e)
  {
    var u := Use(name, "");
    UsedIsAUse(u, d.src);
    StripOfStripped(name);
    assert NamesNoWeights(u, d.src, d.tables) by {
      hide Before, Strip, Lower, Stem;
    }
    UnnamedAliasStopsDeletion(u, d.src, d.tables);
    ProblemsAreKept(d);
    hide *;
    if Listed(d, e) {
      NothingGoes(d, e);
    }
  }

  lemma ProblemsAreKept(d: AK.Deletion)
    requires KeepersUnknown(d.src, d.tables)
    ensures AK.InventoryOf(d).problems && AK.Planned(d) == []
  {
    hide KeepersUnknown, ClassifyAll, Entries, KeepOf;
  }

  /** So does a gateway config that could not be read whole, and a gateway without aliases. */
  lemma UnreadGatewayStopsDeletion(d: AK.Deletion, e: Entry)
    requires d.src.aliasProblems != 0 || d.src.aliases == map[]
    ensures AK.InventoryOf(d).problems && AK.Planned(d) == []
    ensures Listed(d, e) ==> Spared(d, e)
  {
    UnreadIsUnknown(d.src, d.tables);
    hide *;
    ProblemsAreKept(d);
    if Listed(d, e) {
      NothingGoes(d, e);
    }
  }

  lemma UnreadIsUnknown(src: Sources, tables: Tables)
    requires src.aliasProblems != 0 || src.aliases == map[]
    ensures KeepersUnknown(src, tables)
  {
    hide AnyUnnamed;
  }
}

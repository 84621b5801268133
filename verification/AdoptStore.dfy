/**
 * harness/adopt.py: the adoptions table, which row a machine serves for each
 * lane, and what `record` may write. `Fit` is fit(), fixed while a claim is made.
 */
module AdoptStore {
  import opened Common
  import opened Text

  const BY_HAND := "by-hand"
  const MEASURED := "measured"
  const SCHEMA_LANES := {"decide", "claims"}

  /** An adoptions row joined with its candidate's spec. */
  datatype Row = Row(id: nat, lane: string, candidate: nat, spec: string, verdict: nat, machine: Option<nat>,
                     how: string, at: real, all: bool)

  type Fit = (nat, Option<nat>) -> bool
  type Served = map<string, Row>

  predicate IsReference(candidate: string) {
    StartsWith(candidate, "claude-code:") || StartsWith(candidate, "cloud-")
  }

  // ---- which row a machine serves ----

  predicate InScope(r: Row, ids: seq<nat>) {
    r.all || r.machine == None || r.machine.value in ids
  }

  /** ORDER BY adopted_at, id. */
  predicate Older(a: Row, b: Row) { a.at < b.at || (a.at == b.at && a.id <= b.id) }

  function Here(ids: seq<nat>): Option<nat> { if ids == [] then None else Some(ids[0]) }

  predicate Serves(r: Row, fit: Fit, here: Option<nat>) {
    !IsReference(r.spec) && (r.how == BY_HAND ==> fit(r.candidate, here))
  }

  predicate Unfit(r: Row, fit: Fit, here: Option<nat>) {
    !IsReference(r.spec) && r.how == BY_HAND && !fit(r.candidate, here)
  }

  /** The fold over rows oldest first: (lane -> served row, lane -> newer row refused for not fitting). */
  function Fold(rows: seq<Row>, fit: Fit, here: Option<nat>): (Served, Served) {
    if rows == [] then (map[], map[])
    else
      var n := |rows| - 1;
      var (out, refused) := Fold(rows[..n], fit, here);
      var r := rows[n];
      if IsReference(r.spec) then (out, refused)
      else if r.how == BY_HAND && !fit(r.candidate, here) then (out, refused[r.lane := r])
      else (out[r.lane := r], refused - {r.lane})
  }

  function Candidates(rows: seq<Row>, ids: seq<nat>): seq<Row> {
    SortBy(Filter(rows, ScopeOf(ids)), Older)
  }

  function ScopeOf(ids: seq<nat>): Row -> bool { (r: Row) => InScope(r, ids) }

  function Resolve(rows: seq<Row>, fit: Fit, ids: seq<nat>): (Served, Served) {
    Fold(Candidates(rows, ids), fit, Here(ids))
  }

  function Current(rows: seq<Row>, fit: Fit, ids: seq<nat>): Served { Resolve(rows, fit, ids).0 }

  // ---- the newest row that qualifies ----

  /** `r` is the newest of the rows in scope of its lane that serve. */
  predicate IsNewestServed(r: Row, rows: seq<Row>, fit: Fit, ids: seq<nat>) {
    && r in rows && InScope(r, ids) && Serves(r, fit, Here(ids))
    && forall q <- rows :: q.lane == r.lane && InScope(q, ids) && Serves(q, fit, Here(ids)) ==> Older(q, r)
  }

  /** `r` is the newest unfit by-hand row of its lane in scope, and later than every row of the lane that serves. */
  predicate IsNewestRefused(r: Row, rows: seq<Row>, fit: Fit, ids: seq<nat>) {
    && r in rows && InScope(r, ids) && Unfit(r, fit, Here(ids))
    && forall q <- rows :: q.lane == r.lane && InScope(q, ids) && q != r
         ==> (Serves(q, fit, Here(ids)) || Unfit(q, fit, Here(ids)) ==> Older(q, r))
  }

  predicate DistinctIds(rows: seq<Row>) {
    forall i, j :: 0 <= i < j < |rows| ==> rows[i].id != rows[j].id
  }

  /** On a sequence: the last index of the lane that `sel` selects. */
  predicate LastAt(rows: seq<Row>, lane: string, sel: Row -> bool, i: int) {
    && 0 <= i < |rows| && rows[i].lane == lane && sel(rows[i])
    && forall j :: i < j < |rows| && rows[j].lane == lane ==> !sel(rows[j])
  }

  lemma {:induction false} ServedIsLast(rows: seq<Row>, fit: Fit, here: Option<nat>, lane: string)
    ensures var out := Fold(rows, fit, here).0;
            var serves := (r: Row) => Serves(r, fit, here);
            && (lane in out ==> exists i :: LastAt(rows, lane, serves, i) && out[lane] == rows[i])
            && (lane !in out ==> forall r <- rows :: r.lane == lane ==> !serves(r))
  {
    if rows != [] {
      var n := |rows| - 1;
      var r := rows[n];
      var serves := (r: Row) => Serves(r, fit, here);
      hide IsReference;
      ServedIsLast(rows[..n], fit, here, lane);
      LastExtends(rows, lane, serves);
      assert rows == rows[..n] + [r];
      assert r.lane == lane && serves(r) ==> LastAt(rows, lane, serves, n);
    }
  }

  lemma {:induction false} RefusedIsLast(rows: seq<Row>, fit: Fit, here: Option<nat>, lane: string)
    ensures var refused := Fold(rows, fit, here).1;
            var matters := (r: Row) => Serves(r, fit, here) || Unfit(r, fit, here);
            && (lane in refused ==> exists i :: LastAt(rows, lane, matters, i) && refused[lane] == rows[i]
                                                && Unfit(rows[i], fit, here))
            && (lane !in refused ==> forall i :: LastAt(rows, lane, matters, i) ==> Serves(rows[i], fit, here))
  {
    if rows != [] {
      var n := |rows| - 1;
      var r := rows[n];
      var matters := (r: Row) => Serves(r, fit, here) || Unfit(r, fit, here);
      hide IsReference;
      RefusedIsLast(rows[..n], fit, here, lane);
      LastExtends(rows, lane, matters);
      assert r.lane == lane && matters(r) ==> LastAt(rows, lane, matters, n);
    }
  }

  lemma LastExtends(rows: seq<Row>, lane: string, sel: Row -> bool)
    requires rows != []
    ensures var n := |rows| - 1;
            var last := rows[n].lane == lane && sel(rows[n]);
            && (last ==> forall i :: LastAt(rows, lane, sel, i) <==> i == n)
            && (!last ==> forall i :: LastAt(rows, lane, sel, i) <==> LastAt(rows[..n], lane, sel, i))
  {
  }

  lemma OlderIsTotal()
    ensures TotalPreorder(Older)
  {
  }

  lemma OlderIsStrict()
    ensures forall a, b :: Older(a, b) && Older(b, a) ==> a.id == b.id
    ensures forall a :: Older(a, a)
  {
  }

  lemma CandidatesAre(rows: seq<Row>, ids: seq<nat>)
    ensures forall r :: r in Candidates(rows, ids) <==> r in rows && InScope(r, ids)
    ensures Ordered(Candidates(rows, ids), Older)
  {
    var scoped := Filter(rows, ScopeOf(ids));
    OlderIsTotal();
    SortByOrdered(scoped, Older);
    SortByMembers(scoped, Older);
  }

  lemma LastIsNewest(s: seq<Row>, lane: string, sel: Row -> bool, i: int)
    requires Ordered(s, Older) && LastAt(s, lane, sel, i)
    ensures forall q <- s :: q.lane == lane && sel(q) ==> Older(q, s[i])
  {
    OlderIsStrict();
    hide Older;
    forall q <- s | q.lane == lane && sel(q)
      ensures Older(q, s[i])
    {
      var j :| 0 <= j < |s| && s[j] == q;
      assert j <= i;
    }
  }

  /**
   * The served row is the newest in scope that is no reference model and fits if made by hand; none means there is
   * none.
   */
  lemma ServedIsNewest(rows: seq<Row>, fit: Fit, ids: seq<nat>, lane: string)
    ensures var out := Current(rows, fit, ids);
            && (lane in out ==> out[lane].lane == lane && IsNewestServed(out[lane], rows, fit, ids))
            && (lane !in out ==> forall r <- rows :: r.lane == lane && InScope(r, ids) ==> !Serves(r, fit, Here(ids)))
  {
    var s := Candidates(rows, ids);
    var serves := (r: Row) => Serves(r, fit, Here(ids));
    hide Candidates, Fold, IsReference, Older, InScope, Ordered;
    CandidatesAre(rows, ids);
    ServedIsLast(s, fit, Here(ids), lane);
    var out := Current(rows, fit, ids);
    if lane in out {
      var i :| LastAt(s, lane, serves, i) && out[lane] == s[i];
      LastIsNewest(s, lane, serves, i);
      assert s[i] in s;
    }
  }

  /** The refused row is the newest unfit by-hand row when it is later than every row that serves; otherwise none. */
  lemma RefusedIsNewer(rows: seq<Row>, fit: Fit, ids: seq<nat>, lane: string)
    ensures var refused := Resolve(rows, fit, ids).1;
            && (lane in refused ==> refused[lane].lane == lane && IsNewestRefused(refused[lane], rows, fit, ids))
            && (DistinctIds(rows) ==>
                  forall r <- rows :: r.lane == lane && IsNewestRefused(r, rows, fit, ids) ==> lane in refused)
  {
    var s := Candidates(rows, ids);
    var here := Here(ids);
    var matters := (r: Row) => Serves(r, fit, here) || Unfit(r, fit, here);
    hide Candidates, Fold, IsReference, Older, InScope, Ordered;
    CandidatesAre(rows, ids);
    RefusedIsLast(s, fit, here, lane);
    var refused := Resolve(rows, fit, ids).1;
    if lane in refused {
      var i :| LastAt(s, lane, matters, i) && refused[lane] == s[i] && Unfit(s[i], fit, here);
      LastIsNewest(s, lane, matters, i);
      assert s[i] in s;
    }
    if DistinctIds(rows) {
      forall r <- rows | r.lane == lane && IsNewestRefused(r, rows, fit, ids)
        ensures lane in refused
      {
        assert r in s && matters(r);
        var i := LastMatters(s, lane, matters, r);
        LastIsNewest(s, lane, matters, i);
        assert s[i] in s;
        SameRow(rows, r, s[i]);
      }
    }
  }

  lemma SameRow(rows: seq<Row>, a: Row, b: Row)
    requires DistinctIds(rows) && a in rows && b in rows && Older(a, b) && (a != b ==> Older(b, a))
    ensures a == b
  {
    OlderIsStrict();
  }

  lemma {:induction false} LastMatters(s: seq<Row>, lane: string, sel: Row -> bool, r: Row) returns (i: int)
    requires r in s && r.lane == lane && sel(r)
    ensures LastAt(s, lane, sel, i)
  {
    i := |s| - 1;
    while !(s[i].lane == lane && sel(s[i]))
      invariant 0 <= i < |s|
      invariant forall j :: i < j < |s| && s[j].lane == lane ==> !sel(s[j])
      decreases i
    {
      if i == 0 {
        var k :| 0 <= k < |s| && s[k] == r;
        assert false;
      }
      i := i - 1;
    }
  }

  // ---- record ----

  datatype Verdict = Verdict(lane: string, challenger: string, adopt: bool, how: string, all: bool, held: bool)

  /** One call of record and what the tables beside adoptions answer it. */
  datatype Call = Call(
    verdict: Verdict, spec: string,
    candidate: Option<nat>,   // candidates.ensure: the row of the stripped spec, None if nothing can run it
    names: set<string>,       // receipt keys and proposal names candidates.get also finds rows by
    machine: nat,             // this machine
    verdictId: nat,           // the verdict's row, an old one's when it repeats the latest
    verdictMachine: Option<nat>,
    now: real)

  datatype Error = Held | NoFit | NotRunnable | NoCandidate | UnknownHow

  predicate SchemaGap(lane: string, spec: string, enforces: string -> bool) {
    Lower(Strip(lane)) in SCHEMA_LANES && !enforces(spec)
  }

  /** The rows after a call, and the exception it raises if it does. */
  function Recorded(rows: seq<Row>, c: Call, fit: Fit, enforces: string -> bool): (seq<Row>, Option<Error>) {
    var v := c.verdict;
    var spec := if c.spec != "" then c.spec else v.challenger;
    var adopt := v.adopt && !IsReference(v.challenger) && !IsReference(c.spec) && !SchemaGap(v.lane, spec, enforces);
    if v.held then (rows, Some(Held))
    else if c.candidate == None || Strip(spec) == "" then (rows, Some(NotRunnable))
    else if Strip(spec) != spec && spec !in c.names then (rows, Some(NoCandidate))
    else if adopt && v.how == BY_HAND && !fit(c.candidate.value, Some(c.machine)) then (rows, Some(NoFit))
    else if !adopt then (rows, None)
    else if v.how !in {MEASURED, BY_HAND} then (rows, Some(UnknownHow))
    else if exists r <- rows :: r.verdict == c.verdictId then (rows, None)
    else
      (rows + [Row(|rows|, Lower(Strip(v.lane)), c.candidate.value, Strip(spec), c.verdictId, c.verdictMachine, v.how,
                   c.now, v.all)], None)
  }

  class Store {
    var rows: seq<Row>

    constructor ()
      ensures rows == []
    {
      rows := [];
    }

    /** _resolve: rows in scope, oldest first, folded into what is served and what is refused. */
    method Resolved(fit: Fit, ids: seq<nat>) returns (out: Served, refused: Served)
      ensures (out, refused) == Resolve(rows, fit, ids)
    {
      out, refused := map[], map[];
      var s := Candidates(rows, ids);
      var here := Here(ids);
      var i := 0;
      while i < |s|
        invariant 0 <= i <= |s|
        invariant (out, refused) == Fold(s[..i], fit, here)
      {
        var r := s[i];
        assert s[..i + 1][..i] == s[..i];
        i := i + 1;
        if IsReference(r.spec) {
          continue;
        }
        if r.how == BY_HAND {
          var ok := fit(r.candidate, here);
          if !ok {
            refused := refused[r.lane := r];
            continue;
          }
        }
        out := out[r.lane := r];
        refused := refused - {r.lane};
      }
      assert s[..i] == s;
    }

    method Record(c: Call, fit: Fit, enforces: string -> bool) returns (error: Option<Error>)
      modifies this
      ensures (rows, error) == Recorded(old(rows), c, fit, enforces)
    {
      var v := c.verdict;
      if v.held {
        return Some(Held);
      }
      var adopt := v.adopt;
      if IsReference(v.challenger) || IsReference(c.spec) {
        adopt := false;
      }
      var spec := if c.spec != "" then c.spec else v.challenger;
      if adopt && Lower(Strip(v.lane)) in SCHEMA_LANES {
        adopt := enforces(spec);
      }
      if c.candidate == None || Strip(spec) == "" {
        return Some(NotRunnable);
      }
      if Strip(spec) != spec && spec !in c.names {
        return Some(NoCandidate);
      }
      if adopt && v.how == BY_HAND {
        var ok := fit(c.candidate.value, Some(c.machine));
        if !ok {
          return Some(NoFit);
        }
      }
      if adopt {
        if v.how !in {MEASURED, BY_HAND} {
          return Some(UnknownHow);
        }
        if !(exists r <- rows :: r.verdict == c.verdictId) {
          rows := rows + [Row(|rows|, Lower(Strip(v.lane)), c.candidate.value, Strip(spec), c.verdictId,
                              c.verdictMachine, v.how, c.now, v.all)];
        }
      }
      error := None;
    }

    /** everywhere(): each machine's served rows, their specs gathered by lane. */
    method GatherEverywhere(fit: Fit) returns (out: map<string, set<string>>)
      ensures out == Everywhere(rows, fit)
    {
      out := map[];
      var todo := Machines(rows);
      ghost var done: set<Option<nat>> := {};
      hide *;
      NoneGathered(rows, fit);
      while todo != {}
        invariant done + todo == Machines(rows)
        invariant out == ServedBy(rows, fit, done)
        decreases todo
      {
        var x :| x in todo;
        var got, refused := Resolved(fit, IdsOf(x));
        ResolvedIsCurrent(rows, fit, IdsOf(x), got, refused);
        out := Gather(out, got);
        GatheredOneMore(rows, fit, done, x);
        todo, done := todo - {x}, done + {x};
      }
      assert done == Machines(rows);
      EverywhereIs(rows, fit);
    }
  }

  // ---- every history ----

  function History(calls: seq<Call>, fit: Fit, enforces: string -> bool): seq<Row> {
    if calls == [] then []
    else var n := |calls| - 1; Recorded(History(calls[..n], fit, enforces), calls[n], fit, enforces).0
  }

  /** What no row may be: a reference model, an unenforced engine in a schema lane, or of no known kind. */
  predicate Allowed(r: Row, enforces: string -> bool) {
    && !IsReference(r.spec)
    && (r.lane in SCHEMA_LANES ==> enforces(r.spec))
    && r.how in {MEASURED, BY_HAND}
  }

  predicate AllAllowed(rows: seq<Row>, enforces: string -> bool) { forall r <- rows :: Allowed(r, enforces) }

  /** The spec the guards read. */
  function Asked(c: Call): string { if c.spec != "" then c.spec else c.verdict.challenger }

  /**
   * The guards read the spec as given and the row keeps it trimmed: a name with white space at an end whose trimmed
   * form is a reference model, or an engine the lane's schema is not enforced on.
   */
  predicate SlipsThrough(c: Call, enforces: string -> bool) {
    var spec := Asked(c);
    && Strip(spec) != spec && spec in c.names
    && (IsReference(Strip(spec)) || (Lower(Strip(c.verdict.lane)) in SCHEMA_LANES && !enforces(Strip(spec))))
  }

  /** A call that writes a row writes a forbidden one exactly when its spec slips through. */
  lemma RecordKeepsAllowedExactly(rows: seq<Row>, c: Call, fit: Fit, enforces: string -> bool)
    requires AllAllowed(rows, enforces)
    ensures var after := Recorded(rows, c, fit, enforces).0;
            AllAllowed(after, enforces) <==> (after == rows || !SlipsThrough(c, enforces))
  {
    var after := Recorded(rows, c, fit, enforces).0;
    if after != rows {
      var r := after[|rows|];
      hide IsReference, Strip, Lower;
      assert after == rows + [r];
      assert AllAllowed(after, enforces) <==> Allowed(r, enforces) by {
        assert forall q <- after :: q in rows || q == r;
        assert r in after;
      }
    }
  }

  /** A name that some call can slip through under. */
  predicate Slippery(name: string, enforces: string -> bool) {
    && Strip(name) != name && Strip(name) != "" && !IsReference(name)
    && (IsReference(Strip(name)) || (enforces(name) && !enforces(Strip(name))))
  }

  lemma SlippingNames(rows: seq<Row>, c: Call, fit: Fit, enforces: string -> bool)
    requires SlipsThrough(c, enforces) && Recorded(rows, c, fit, enforces).0 != rows
    ensures Slippery(Asked(c), enforces)
  {
    hide IsReference, Strip, Lower;
  }

  /** No sequence of calls whose names are none of them slippery writes a forbidden adoption. */
  lemma {:induction false} HistoriesAreAllowed(calls: seq<Call>, fit: Fit, enforces: string -> bool)
    requires forall c <- calls, n <- c.names :: !Slippery(n, enforces)
    ensures AllAllowed(History(calls, fit, enforces), enforces)
  {
    if calls != [] {
      var n := |calls| - 1;
      HistoriesAreAllowed(calls[..n], fit, enforces);
      var (before, c) := (History(calls[..n], fit, enforces), calls[n]);
      assert c in calls;
      RecordKeepsAllowedExactly(before, c, fit, enforces);
      if SlipsThrough(c, enforces) && Recorded(before, c, fit, enforces).0 != before {
        SlippingNames(before, c, fit, enforces);
      }
    }
  }

  /** Ids are the order of writing, so they stay distinct. */
  lemma {:induction false} HistoriesKeepIds(calls: seq<Call>, fit: Fit, enforces: string -> bool)
    ensures forall i :: 0 <= i < |History(calls, fit, enforces)| ==> History(calls, fit, enforces)[i].id == i
    ensures DistinctIds(History(calls, fit, enforces))
  {
    if calls != [] {
      var n := |calls| - 1;
      HistoriesKeepIds(calls[..n], fit, enforces);
      hide IsReference, Strip, Lower, SchemaGap;
    }
  }

  function SlipperyCall(name: string, lane: string): Call {
    Call(Verdict(lane, name, true, MEASURED, false, false), "", Some(1), {name}, 1, 1, Some(1), 0.0)
  }

  lemma SlipperyRow(name: string, lane: string, fit: Fit, enforces: string -> bool)
    requires Slippery(name, enforces) && Lower(Strip(lane)) == lane && (lane in SCHEMA_LANES ==> enforces(name))
    ensures History([SlipperyCall(name, lane)], fit, enforces)
         == [Row(0, lane, 1, Strip(name), 1, Some(1), MEASURED, 0.0, false)]
  {
    NotAReference("");
    hide Strip, Lower, IsReference;
    var c := SlipperyCall(name, lane);
    assert !SchemaGap(lane, name, enforces);
    assert MEASURED != BY_HAND by { assert MEASURED[0] != BY_HAND[0]; }
    assert Recorded([], c, fit, enforces).0 == [Row(0, lane, 1, Strip(name), 1, Some(1), MEASURED, 0.0, false)];
    assert [c][..0] == [];
  }

  /** Under a slippery name one call is enough to write a forbidden row. */
  lemma SlipperyNameGetsIn(name: string, fit: Fit, enforces: string -> bool) returns (c: Call)
    requires Slippery(name, enforces)
    ensures c.names == {name} && !AllAllowed(History([c], fit, enforces), enforces)
  {
    var lane := if enforces(name) && !enforces(Strip(name)) then "decide" else "answer";
    LaneNames();
    SlipperyRow(name, lane, fit, enforces);
    c := SlipperyCall(name, lane);
    hide Strip, Lower, IsReference, History;
    var r := Row(0, lane, 1, Strip(name), 1, Some(1), MEASURED, 0.0, false);
    assert r in History([c], fit, enforces);
    assert !Allowed(r, enforces);
  }

  lemma LaneNames()
    ensures Lower(Strip("decide")) == "decide" && Lower(Strip("answer")) == "answer"
    ensures "decide" in SCHEMA_LANES && "answer" !in SCHEMA_LANES
  {
    hide Strip;
    StripOfStripped("decide");
    StripOfStripped("answer");
    hide Lower;
    LowerOfLower("decide");
    LowerOfLower("answer");
    assert "answer"[0] != "decide"[0] && "answer"[0] != "claims"[0];
  }

  /** The receipt keys and proposal names are all among `names`. */
  predicate NamedAmong(calls: seq<Call>, names: set<string>) { forall c <- calls :: c.names <= names }

  /** Over a set of names, every history is free of forbidden adoptions exactly when no name is slippery. */
  lemma HistoriesAreAllowedExactly(names: set<string>, fit: Fit, enforces: string -> bool)
    ensures (forall calls :: NamedAmong(calls, names) ==> AllAllowed(History(calls, fit, enforces), enforces))
       <==> (forall n <- names :: !Slippery(n, enforces))
  {
    hide AllAllowed, History, Slippery;
    if forall n <- names :: !Slippery(n, enforces) {
      forall calls | NamedAmong(calls, names)
        ensures AllAllowed(History(calls, fit, enforces), enforces)
      {
        HistoriesAreAllowed(calls, fit, enforces);
      }
    } else {
      var n :| n in names && Slippery(n, enforces);
      var c := SlipperyNameGetsIn(n, fit, enforces);
      assert NamedAmong([c], names);
    }
  }

  /** A reference model's name with a space before it is one. */
  lemma ASpacedReferenceSlips(model: string, enforces: string -> bool)
    requires IsReference(model) && Stripped(model)
    ensures Slippery(" " + model, enforces)
  {
    FrontSpace(model);
    NotAReference(" " + model);
    NotAReference("");
    hide Strip, IsReference;
  }

  lemma FrontSpace(s: string)
    requires Stripped(s)
    ensures Strip(" " + s) == s
  {
    assert (" " + s)[1..] == s;
    assert StripLeft(" " + s) == s;
  }

  /** Recording an adoption on one machine without all-machines leaves every other machine's lanes as they were. */
  lemma OtherMachinesAreUnmoved(rows: seq<Row>, c: Call, fit: Fit, enforces: string -> bool, ids: seq<nat>)
    requires !c.verdict.all && c.verdictMachine.Some? && c.verdictMachine.value !in ids
    ensures Resolve(Recorded(rows, c, fit, enforces).0, fit, ids) == Resolve(rows, fit, ids)
  {
    var after := Recorded(rows, c, fit, enforces).0;
    if after != rows {
      var r := after[|rows|];
      assert after == rows + [r] && !InScope(r, ids);
      hide Recorded, InScope, SortBy, Fold;
      ScopeIgnores(rows, r, ids);
    }
  }

  lemma ScopeIgnores(rows: seq<Row>, r: Row, ids: seq<nat>)
    requires !InScope(r, ids)
    ensures Candidates(rows + [r], ids) == Candidates(rows, ids)
  {
    FilterConcat(rows, [r], ScopeOf(ids));
    assert Filter([r], ScopeOf(ids)) == [];
    assert Filter(rows, ScopeOf(ids)) + [] == Filter(rows, ScopeOf(ids));
  }

  // ---- what the deletion side reads ----

  /** The machine ids a row's machine column stands for. */
  function IdsOf(machine: Option<nat>): seq<nat> { if machine.Some? then [machine.value] else [] }

  /** SELECT DISTINCT machine_id. */
  function Machines(rows: seq<Row>): set<Option<nat>> { set r | r in rows :: r.machine }

  /** What the recorded machines serve a lane with. */
  function SpecsServed(rows: seq<Row>, fit: Fit, machines: set<Option<nat>>, lane: string): set<string> {
    set x | x in machines && lane in Current(rows, fit, IdsOf(x)) :: Current(rows, fit, IdsOf(x))[lane].spec
  }

  function LanesServed(rows: seq<Row>, fit: Fit, machines: set<Option<nat>>): set<string> {
    set x, lane | x in machines && lane in Current(rows, fit, IdsOf(x)) :: lane
  }

  function ServedBy(rows: seq<Row>, fit: Fit, machines: set<Option<nat>>): map<string, set<string>> {
    map lane | lane in LanesServed(rows, fit, machines) :: SpecsServed(rows, fit, machines, lane)
  }

  /** everywhere(): lane -> every spec some machine an adoption names serves; the deletion side's keepers read it. */
  function Everywhere(rows: seq<Row>, fit: Fit): map<string, set<string>> { ServedBy(rows, fit, Machines(rows)) }

  /** The rows of one machine merged in: setdefault(lane, set()).add(spec). */
  function Merged(out: map<string, set<string>>, got: Served): map<string, set<string>> {
    map lane | lane in out.Keys + got.Keys ::
      (if lane in out then out[lane] else {}) + (if lane in got then {got[lane].spec} else {})
  }

  method Gather(before: map<string, set<string>>, got: Served) returns (out: map<string, set<string>>)
    ensures out == Merged(before, got)
  {
    out := before;
    var lanes := got.Keys;
    ghost var done: set<string> := {};
    while lanes != {}
      invariant done + lanes == got.Keys && done !! lanes
      invariant out.Keys == before.Keys + done
      invariant forall l <- out ::
        out[l] == (if l in before then before[l] else {}) + (if l in done then {got[l].spec} else {})
      decreases lanes
    {
      var lane :| lane in lanes;
      out := out[lane := (if lane in out then out[lane] else {}) + {got[lane].spec}];
      lanes, done := lanes - {lane}, done + {lane};
    }
    assert done == got.Keys;
  }

  lemma NoneGathered(rows: seq<Row>, fit: Fit)
    ensures ServedBy(rows, fit, {}) == map[]
  {
    hide Current;
    assert LanesServed(rows, fit, {}) == {};
  }

  lemma ResolvedIsCurrent(rows: seq<Row>, fit: Fit, ids: seq<nat>, out: Served, refused: Served)
    requires (out, refused) == Resolve(rows, fit, ids)
    ensures out == Current(rows, fit, ids)
  {
  }

  lemma EverywhereIs(rows: seq<Row>, fit: Fit)
    ensures Everywhere(rows, fit) == ServedBy(rows, fit, Machines(rows))
  {
  }

  lemma LanesOneMore(rows: seq<Row>, fit: Fit, done: set<Option<nat>>, x: Option<nat>)
    ensures LanesServed(rows, fit, done + {x}) == LanesServed(rows, fit, done) + Current(rows, fit, IdsOf(x)).Keys
  {
    hide Current, IdsOf;
  }

  lemma SpecsOneMore(rows: seq<Row>, fit: Fit, done: set<Option<nat>>, x: Option<nat>, lane: string)
    ensures var got := Current(rows, fit, IdsOf(x));
            SpecsServed(rows, fit, done + {x}, lane) ==
            SpecsServed(rows, fit, done, lane) + (if lane in got then {got[lane].spec} else {})
  {
    hide Current, IdsOf;
  }

  lemma NoneServed(rows: seq<Row>, fit: Fit, machines: set<Option<nat>>, lane: string)
    requires lane !in LanesServed(rows, fit, machines)
    ensures SpecsServed(rows, fit, machines, lane) == {}
  {
    hide Current, IdsOf;
  }

  lemma GatheredOneMore(rows: seq<Row>, fit: Fit, done: set<Option<nat>>, x: Option<nat>)
    ensures Merged(ServedBy(rows, fit, done), Current(rows, fit, IdsOf(x))) == ServedBy(rows, fit, done + {x})
  {
    LanesOneMore(rows, fit, done, x);
    hide Current, IdsOf, LanesServed, SpecsServed;
    forall lane <- LanesServed(rows, fit, done + {x})
      ensures Merged(ServedBy(rows, fit, done), Current(rows, fit, IdsOf(x)))[lane]
           == SpecsServed(rows, fit, done + {x}, lane)
    {
      SpecsOneMore(rows, fit, done, x, lane);
      if lane !in LanesServed(rows, fit, done) {
        NoneServed(rows, fit, done, lane);
      }
    }
  }

  predicate IsNamed(named: map<string, set<string>>, lane: string, spec: string) {
    lane in named && spec in named[lane]
  }

  /** everywhere() names what machine `m` serves. */
  predicate Covers(rows: seq<Row>, fit: Fit, m: nat) {
    forall lane <- Current(rows, fit, [m]) :: IsNamed(Everywhere(rows, fit), lane, Current(rows, fit, [m])[lane].spec)
  }

  lemma CoversRecorded(rows: seq<Row>, fit: Fit, m: nat)
    requires Some(m) in Machines(rows)
    ensures Covers(rows, fit, m)
  {
    hide Current;
    assert IdsOf(Some(m)) == [m];
    forall lane <- Current(rows, fit, [m])
      ensures IsNamed(Everywhere(rows, fit), lane, Current(rows, fit, [m])[lane].spec)
    {
      assert lane in LanesServed(rows, fit, Machines(rows));
    }
  }

  // An all-machines adoption of a small model and then of a large one on each machine; the large one fits everywhere
  // but on machine `m`.

  const SMALL := "o/s"
  const LARGE := "o/l"

  function SmallThenLarge(machines: seq<Option<nat>>): (rows: seq<Row>)
    ensures |rows| == 2 * |machines|
  {
    seq(2 * |machines|, i requires 0 <= i < 2 * |machines| =>
      if i < |machines| then Row(i, "image", 1, SMALL, i, machines[i], BY_HAND, 1.0, true)
      else Row(i, "image", 2, LARGE, i, machines[i - |machines|], BY_HAND, 2.0, true))
  }

  function FitsButOn(m: nat): Fit { (candidate: nat, machine: Option<nat>) => candidate == 1 || machine != Some(m) }

  lemma NotAReference(spec: string)
    requires spec == "" || spec[0] != 'c'
    ensures !IsReference(spec)
  {
    assert "claude-code:"[0] == 'c' && "cloud-"[0] == 'c';
  }

  lemma MachinesOfBoth(machines: seq<Option<nat>>)
    ensures forall x :: x in Machines(SmallThenLarge(machines)) <==> x in machines
  {
    var (rows, n) := (SmallThenLarge(machines), |machines|);
    forall x
      ensures x in Machines(rows) <==> x in machines
    {
      if x in machines {
        var i :| 0 <= i < n && machines[i] == x;
        assert rows[i] in rows;
      }
    }
  }

  lemma LargeIsServed(machines: seq<Option<nat>>, m: nat, ids: seq<nat>)
    requires machines != [] && Here(ids) != Some(m)
    ensures var got := Current(SmallThenLarge(machines), FitsButOn(m), ids);
            "image" in got && got["image"].spec == LARGE
  {
    var rows := SmallThenLarge(machines);
    NotAReference(SMALL);
    NotAReference(LARGE);
    hide Current, IsReference;
    NewestOf(rows, FitsButOn(m), ids, rows[|rows| - 1]);
  }

  lemma SmallIsServed(machines: seq<Option<nat>>, m: nat)
    requires machines != []
    ensures var got := Current(SmallThenLarge(machines), FitsButOn(m), [m]);
            "image" in got && got["image"].spec == SMALL
  {
    var rows := SmallThenLarge(machines);
    NotAReference(SMALL);
    NotAReference(LARGE);
    hide Current, IsReference;
    NewestOf(rows, FitsButOn(m), [m], rows[|machines| - 1]);
  }

  /** On those rows everywhere() names the large model alone, though machine `m` serves the small one. */
  lemma OnlyLargeIsNamed(machines: seq<Option<nat>>, m: nat)
    requires machines != [] && Some(m) !in machines
    ensures Everywhere(SmallThenLarge(machines), FitsButOn(m)) == map["image" := {LARGE}]
  {
    var (rows, fit) := (SmallThenLarge(machines), FitsButOn(m));
    MachinesOfBoth(machines);
    forall x | x in Machines(rows)
      ensures ServesOnly(rows, fit, x, "image", LARGE)
    {
      LargeIsServed(machines, m, IdsOf(x));
      OnlyImages(machines, fit, IdsOf(x));
    }
    hide Current, SmallThenLarge, FitsButOn, Machines;
    assert machines[0] in Machines(rows);
    AllServeOne(rows, fit, Machines(rows), machines[0], "image", LARGE);
  }

  predicate ServesOnly(rows: seq<Row>, fit: Fit, x: Option<nat>, lane: string, spec: string) {
    var got := Current(rows, fit, IdsOf(x));
    got.Keys == {lane} && got[lane].spec == spec
  }

  lemma AllServeOne(rows: seq<Row>, fit: Fit, machines: set<Option<nat>>, some: Option<nat>, lane: string, spec: string)
    requires some in machines && forall x <- machines :: ServesOnly(rows, fit, x, lane, spec)
    ensures ServedBy(rows, fit, machines) == map[lane := {spec}]
  {
    hide Current, IdsOf;
    var (lanes, specs) := (LanesServed(rows, fit, machines), SpecsServed(rows, fit, machines, lane));
    forall l
      ensures l in lanes <==> l == lane
    {
      assert ServesOnly(rows, fit, some, lane, spec);
    }
    forall s
      ensures s in specs <==> s == spec
    {
      assert ServesOnly(rows, fit, some, lane, spec);
    }
    assert lanes == {lane} && specs == {spec};
  }

  lemma OnlyImages(machines: seq<Option<nat>>, fit: Fit, ids: seq<nat>)
    ensures Current(SmallThenLarge(machines), fit, ids).Keys <= {"image"}
  {
    forall lane <- Current(SmallThenLarge(machines), fit, ids)
      ensures lane == "image"
    {
      ServedIsNewest(SmallThenLarge(machines), fit, ids, lane);
      hide Current;
    }
  }

  lemma NotCovered(rows: seq<Row>, fit: Fit, m: nat, lane: string)
    requires lane in Current(rows, fit, [m])
    requires !IsNamed(Everywhere(rows, fit), lane, Current(rows, fit, [m])[lane].spec)
    ensures !Covers(rows, fit, m)
  {
    hide Current, Everywhere;
  }

  lemma SmallIsMissed(machines: seq<Option<nat>>, m: nat)
    requires machines != [] && Some(m) !in machines
    ensures !Covers(SmallThenLarge(machines), FitsButOn(m), m)
  {
    OnlyLargeIsNamed(machines, m);
    SmallIsServed(machines, m);
    assert SMALL[2] != LARGE[2];
    assert !IsNamed(map["image" := {LARGE}], "image", SMALL);
    hide *;
    NotCovered(SmallThenLarge(machines), FitsButOn(m), m, "image");
  }

  lemma NothingServed(fit: Fit, ids: seq<nat>)
    ensures Current([], fit, ids) == map[]
  {
    forall lane <- Current([], fit, ids)
      ensures false
    {
      ServedIsNewest([], fit, ids, lane);
    }
  }

  /**
   * For the machines adoptions are recorded on, everywhere() names what `m` serves, whatever the rows and what fits,
   * exactly when `m` is one of them or nothing is recorded: any other `m` may fall back to an older all-machines row.
   */
  lemma EverywhereCoversExactly(machines: set<Option<nat>>, m: nat)
    ensures (forall rows, fit: Fit :: Machines(rows) == machines ==> Covers(rows, fit, m))
       <==> (Some(m) in machines || machines == {})
  {
    hide Covers;
    if Some(m) in machines {
      forall rows, fit: Fit | Machines(rows) == machines
        ensures Covers(rows, fit, m)
      {
        CoversRecorded(rows, fit, m);
      }
    } else if machines == {} {
      forall rows, fit: Fit | Machines(rows) == machines
        ensures Covers(rows, fit, m)
      {
        NoMachinesNoRows(rows);
        NothingCovered(fit, m);
      }
    } else {
      var xs := Listed(machines);
      EmptyIsNone(xs);
      MachinesOfBoth(xs);
      assert Machines(SmallThenLarge(xs)) == machines;
      SmallIsMissed(xs, m);
    }
  }

  lemma NoMachinesNoRows(rows: seq<Row>)
    requires Machines(rows) == {}
    ensures rows == []
  {
    forall r
      ensures r !in rows
    {
      assert r in rows ==> r.machine in Machines(rows);
    }
    EmptyIsNone(rows);
  }

  lemma NothingCovered(fit: Fit, m: nat)
    ensures Covers([], fit, m)
  {
    NothingServed(fit, [m]);
    hide Current;
  }

  lemma NewestOf(rows: seq<Row>, fit: Fit, ids: seq<nat>, r: Row)
    requires DistinctIds(rows) && IsNewestServed(r, rows, fit, ids)
    ensures r.lane in Current(rows, fit, ids) && Current(rows, fit, ids)[r.lane] == r
  {
    ServedIsNewest(rows, fit, ids, r.lane);
    var s := Current(rows, fit, ids)[r.lane];
    assert Older(r, s) && Older(s, r);
    assert r.id == s.id;
  }
}

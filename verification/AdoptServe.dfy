/**
 * What record and the lookup that follows it come to in harness/adopt.py: which calls write an adoption, and who serves
 * it from then on.
 */
module AdoptServe {
  import opened Common
  import opened Text
  import opened AdoptStore

  /** A lane whose answers must keep to a schema, on an engine that does not make them. */
  predicate Unenforced(lane: string, spec: string, enforces: string -> bool) {
    Lower(Strip(lane)) in {"decide", "claims"} && !enforces(spec)
  }

  /** The reference models, which are only measured against. */
  predicate OnlyMeasured(name: string) { "claude-code:" <= name || "cloud-" <= name }

  /** Everything that must hold for a call to write an adoption. */
  predicate Adopts(rows: seq<Row>, c: Call, fit: Fit, enforces: string -> bool) {
    var spec := Asked(c);
    && c.verdict.adopt && !c.verdict.held && c.verdict.how in {"measured", "by-hand"}
    && !OnlyMeasured(c.verdict.challenger) && !OnlyMeasured(c.spec) && !Unenforced(c.verdict.lane, spec, enforces)
    && c.candidate.Some? && Strip(spec) != "" && (Strip(spec) == spec || spec in c.names)
    && (c.verdict.how == "by-hand" ==> fit(c.candidate.value, Some(c.machine)))
    && (forall r <- rows :: r.verdict != c.verdictId)
  }

  /** The row of such a call. */
  function Adoption(rows: seq<Row>, c: Call): Row
    requires c.candidate.Some?
  {
    Row(|rows|, Lower(Strip(c.verdict.lane)), c.candidate.value, Strip(Asked(c)), c.verdictId, c.verdictMachine,
        c.verdict.how, c.now, c.verdict.all)
  }

  /** A call writes one row when all that holds, and otherwise none. */
  lemma WritesExactly(rows: seq<Row>, c: Call, fit: Fit, enforces: string -> bool)
    ensures var after := Recorded(rows, c, fit, enforces).0;
            && (Adopts(rows, c, fit, enforces) ==> after == rows + [Adoption(rows, c)] && after != rows)
            && (!Adopts(rows, c, fit, enforces) ==> after == rows)
    ensures Adopts(rows, c, fit, enforces) ==> Recorded(rows, c, fit, enforces).1 == None
  {
    hide Strip, Lower;
  }

  // ---- who serves it ----

  predicate Numbered(rows: seq<Row>) { forall i :: 0 <= i < |rows| ==> rows[i].id == i }

  /** Every row was written by the time of the call. */
  predicate Before(rows: seq<Row>, c: Call) { forall r <- rows :: r.at <= c.now }

  lemma NewestIsUnique(rows: seq<Row>, fit: Fit, ids: seq<nat>, a: Row, b: Row)
    requires Numbered(rows) && a.lane == b.lane
    requires IsNewestServed(a, rows, fit, ids) && IsNewestServed(b, rows, fit, ids)
    ensures a == b
  {
    OlderIsStrict();
    hide Serves, InScope, Older;
    assert Older(a, b) && Older(b, a);
  }

  /** The call reaches a machine known by these ids. */
  predicate Reaches(c: Call, ids: seq<nat>) {
    c.verdict.all || c.verdictMachine == None || c.verdictMachine.value in ids
  }

  /** What is adopted can be served there: it is no reference model, and fits if it was decided by hand. */
  predicate Servable(c: Call, fit: Fit, ids: seq<nat>)
    requires c.candidate.Some?
  {
    && !OnlyMeasured(Strip(Asked(c)))
    && (c.verdict.how == "by-hand" ==> fit(c.candidate.value, if ids == [] then None else Some(ids[0])))
  }

  lemma AdoptionServes(rows: seq<Row>, c: Call, fit: Fit, ids: seq<nat>)
    requires c.candidate.Some?
    ensures InScope(Adoption(rows, c), ids) <==> Reaches(c, ids)
    ensures Serves(Adoption(rows, c), fit, Here(ids)) <==> Servable(c, fit, ids)
  {
    hide Strip, Lower;
  }

  lemma AdoptionIsNewest(rows: seq<Row>, c: Call, fit: Fit, ids: seq<nat>)
    requires c.candidate.Some? && Numbered(rows) && Before(rows, c) && Reaches(c, ids) && Servable(c, fit, ids)
    ensures IsNewestServed(Adoption(rows, c), rows + [Adoption(rows, c)], fit, ids)
  {
    var r := Adoption(rows, c);
    AdoptionServes(rows, c, fit, ids);
    hide Serves, InScope, Servable, Reaches, Strip, Lower;
    forall q | q in rows + [r]
      ensures Older(q, r)
    {
      if q in rows {
        var i :| 0 <= i < |rows| && rows[i] == q;
      }
    }
  }

  lemma NewestElsewhere(rows: seq<Row>, r: Row, fit: Fit, ids: seq<nat>, q: Row)
    requires q != r && (r.lane != q.lane || !InScope(r, ids) || !Serves(r, fit, Here(ids)))
    ensures IsNewestServed(q, rows + [r], fit, ids) <==> IsNewestServed(q, rows, fit, ids)
  {
    hide Serves, InScope, Older;
    assert forall x :: x in rows + [r] <==> x in rows || x == r;
  }

  lemma StillNumbered(rows: seq<Row>, r: Row)
    requires Numbered(rows) && r.id == |rows|
    ensures Numbered(rows + [r]) && r !in rows
  {
  }

  /** A lane a new row does not bear on is served as it was. */
  lemma OtherLanesStay(rows: seq<Row>, r: Row, fit: Fit, ids: seq<nat>, lane: string)
    requires Numbered(rows) && r.id == |rows|
    requires r.lane != lane || !InScope(r, ids) || !Serves(r, fit, Here(ids))
    ensures var (was, now) := (Current(rows, fit, ids), Current(rows + [r], fit, ids));
            (lane in now <==> lane in was) && (lane in was ==> now[lane] == was[lane])
  {
    var (was, now) := (Current(rows, fit, ids), Current(rows + [r], fit, ids));
    ServedIsNewest(rows, fit, ids, lane);
    ServedIsNewest(rows + [r], fit, ids, lane);
    StillNumbered(rows, r);
    hide Current, Serves, InScope, Older, Numbered;
    assert forall x :: x in rows + [r] <==> x in rows || x == r;
    if lane in now {
      assert now[lane] != r;
      NewestElsewhere(rows, r, fit, ids, now[lane]);
    }
    if lane in was {
      assert was[lane] != r;
      NewestElsewhere(rows, r, fit, ids, was[lane]);
      if lane in now {
        NewestIsUnique(rows, fit, ids, now[lane], was[lane]);
      }
    }
  }

  /**
   * What a call adopts is served, from then on, for its lane by every machine it reaches that can serve it: the row
   * itself, on all machines if the verdict says so. Every other lane, and every lane elsewhere, is served as before.
   */
  lemma AdoptedIsServed(rows: seq<Row>, c: Call, fit: Fit, enforces: string -> bool, ids: seq<nat>, lane: string)
    requires Adopts(rows, c, fit, enforces) && Numbered(rows) && Before(rows, c)
    ensures var (was, now) := (Current(rows, fit, ids), Current(Recorded(rows, c, fit, enforces).0, fit, ids));
            if lane == Lower(Strip(c.verdict.lane)) && Reaches(c, ids) && Servable(c, fit, ids) then
              lane in now && now[lane] == Adoption(rows, c)
            else (lane in now <==> lane in was) && (lane in was ==> now[lane] == was[lane])
  {
    WritesExactly(rows, c, fit, enforces);
    var r := Adoption(rows, c);
    AdoptionServes(rows, c, fit, ids);
    StillNumbered(rows, r);
    hide Recorded, Adopts, Current, Serves, InScope, Numbered, Before, Strip, Lower, Reaches, Servable;
    if lane == r.lane && Reaches(c, ids) && Servable(c, fit, ids) {
      AdoptionIsNewest(rows, c, fit, ids);
      ServedIsNewest(rows + [r], fit, ids, lane);
      assert r in rows + [r];
      hide IsNewestServed;
      NewestIsServed(rows + [r], fit, ids, r);
      NewestIsUnique(rows + [r], fit, ids, r, Current(rows + [r], fit, ids)[lane]);
    } else {
      OtherLanesStay(rows, r, fit, ids, lane);
    }
  }

  lemma NewestIsServed(rows: seq<Row>, fit: Fit, ids: seq<nat>, r: Row)
    requires IsNewestServed(r, rows, fit, ids)
    ensures r.lane in Current(rows, fit, ids)
  {
    ServedIsNewest(rows, fit, ids, r.lane);
    hide Current, Serves, InScope, Older;
  }

  /**
   * The machine that adopts serves what it adopted exactly when the trimmed spec is no reference model: a decision by
   * hand that does not fit is never written.
   */
  lemma AdoptedHereIsServedHere(rows: seq<Row>, c: Call, fit: Fit, enforces: string -> bool, ids: seq<nat>)
    requires Adopts(rows, c, fit, enforces) && Numbered(rows) && Before(rows, c)
    requires ids != [] && ids[0] == c.machine && c.verdictMachine == Some(c.machine)
    ensures var now := Current(Recorded(rows, c, fit, enforces).0, fit, ids);
            var lane := Lower(Strip(c.verdict.lane));
            (lane in now && now[lane] == Adoption(rows, c)) <==> !OnlyMeasured(Strip(Asked(c)))
  {
    var lane := Lower(Strip(c.verdict.lane));
    AdoptedIsServed(rows, c, fit, enforces, ids, lane);
    ServedIsNewest(rows, fit, ids, lane);
    assert Reaches(c, ids);
    hide Recorded, Current, Strip, Lower, Serves, InScope, Older;
    if OnlyMeasured(Strip(Asked(c))) {
      assert forall r <- rows :: r.id < |rows|;
    }
  }
}

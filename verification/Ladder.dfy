/** evals/run.py and evals/core.py: the budget ladder a case climbs, and what each rung is credited with. */
module Ladder {
  import opened Common
  import opened Text

  predicate Increasing(xs: seq<int>) {
    forall i, j :: 0 <= i < j < |xs| ==> xs[i] < xs[j]
  }

  // ---- which ladder, and which of its rungs ----

  const LADDERS: map<string, seq<int>> := map[
    "svg" := [4000, 16000], "web" := [4000, 16000], "code" := [4000, 16000, 32000, 65536],
    "extract" := [4000, 16000], "decide" := [4000, 16000], "agent" := [8000, 32000], "claims" := [400, 1600]]

  datatype Asked = Unasked | Default | Explicit(text: string)
  datatype LadderError = NotCounts | NotAscending

  /** The numbers the parts of a list spell, if each spells one; `toInt` is Python's int(). */
  function Numbers(parts: seq<string>, toInt: string -> Option<int>): Option<seq<int>> {
    if parts == [] then Some([])
    else
      var (first, rest) := (toInt(Strip(parts[0])), Numbers(parts[1..], toInt));
      if first == None || rest == None then None else Some([first.value] + rest.value)
  }

  predicate Descends(rungs: seq<int>) {
    exists i :: 0 <= i < |rungs| - 1 && rungs[i + 1] <= rungs[i]
  }

  /** The ladder a run climbs: none unless asked, the lane's when asked bare. */
  function RunLadder(lane: string, asked: Asked, toInt: string -> Option<int>): Result<seq<int>, LadderError> {
    if asked.Unasked? || lane !in LADDERS then Ok([])
    else if asked.Default? then Ok(LADDERS[lane])
    else
      match Numbers(Split(asked.text, ','), toInt)
      case None => Err(NotCounts)
      case Some(rungs) =>
        if |rungs| < 2 || rungs[0] < 1 || Descends(rungs) then Err(NotAscending) else Ok(rungs)
  }

  lemma {:induction false} AscendingIsIncreasing(rungs: seq<int>)
    requires !Descends(rungs)
    ensures Increasing(rungs)
  {
    if |rungs| > 1 {
      var n := |rungs| - 1;
      forall i | 0 <= i < n - 1
        ensures rungs[..n][i] < rungs[..n][i + 1]
      {
        assert !(rungs[i + 1] <= rungs[i]);
      }
      AscendingIsIncreasing(rungs[..n]);
      assert !(rungs[n - 1 + 1] <= rungs[n - 1]);
      forall i | 0 <= i < n
        ensures rungs[i] < rungs[n]
      {
        assert rungs[..n][i] == rungs[i] && rungs[..n][n - 1] == rungs[n - 1];
      }
    }
  }

  /** A ladder a run climbs is two or more budgets of at least one, each above the one before. */
  lemma RunLaddersClimb(lane: string, asked: Asked, toInt: string -> Option<int>)
    ensures var got := RunLadder(lane, asked, toInt);
            got.Ok? && got.value != [] ==> Increasing(got.value) && |got.value| >= 2 && got.value[0] >= 1
  {
    var got := RunLadder(lane, asked, toInt);
    if got.Ok? && asked.Explicit? && got.value != [] {
      AscendingIsIncreasing(got.value);
    }
  }

  /** The parts of an asked ladder, white space about each left off, spell these numbers. */
  predicate Spell(parts: seq<string>, toInt: string -> Option<int>, rungs: seq<int>) {
    |rungs| == |parts| && forall i :: 0 <= i < |parts| ==> toInt(Strip(parts[i])) == Some(rungs[i])
  }

  lemma {:induction false} NumbersAre(parts: seq<string>, toInt: string -> Option<int>)
    ensures forall rungs :: Numbers(parts, toInt) == Some(rungs) <==> Spell(parts, toInt, rungs)
    ensures Numbers(parts, toInt) == None <==> exists i :: 0 <= i < |parts| && toInt(Strip(parts[i])) == None
  {
    if parts != [] {
      var rest := parts[1..];
      hide Strip;
      NumbersAre(rest, toInt);
      assert forall i :: 0 < i < |parts| ==> parts[i] == rest[i - 1];
      forall rungs
        ensures Numbers(parts, toInt) == Some(rungs) <==> Spell(parts, toInt, rungs)
      {
        if rungs != [] {
          assert Spell(parts, toInt, rungs) <==>
                   toInt(Strip(parts[0])) == Some(rungs[0]) && Spell(rest, toInt, rungs[1..]) by {
            assert forall i :: 0 < i < |rungs| ==> rungs[i] == rungs[1..][i - 1];
          }
          assert rungs == [rungs[0]] + rungs[1..];
        }
      }
      if toInt(Strip(parts[0])) != None && Numbers(parts, toInt) == None {
        var i :| 0 <= i < |rest| && toInt(Strip(rest[i])) == None;
        assert toInt(Strip(parts[i + 1])) == None;
      }
    }
  }

  /** A list of its own is taken exactly when it spells two or more budgets that rise from at least one. */
  lemma AskedLadderIsTakenExactly(lane: string, text: string, toInt: string -> Option<int>, rungs: seq<int>)
    requires lane in LADDERS
    ensures var got := RunLadder(lane, Explicit(text), toInt);
            && (got == Ok(rungs) <==>
                  Spell(Split(text, ','), toInt, rungs) && |rungs| >= 2 && rungs[0] >= 1 && Increasing(rungs))
            && (got == Err(NotCounts) <==> exists part <- Split(text, ',') :: toInt(Strip(part)) == None)
    ensures RunLadder(lane, Unasked, toInt) == Ok([]) && RunLadder(lane, Default, toInt) == Ok(LADDERS[lane])
    ensures forall other, asked :: other !in LADDERS ==> RunLadder(other, asked, toInt) == Ok([])
  {
    var parts := Split(text, ',');
    NumbersAre(parts, toInt);
    hide Split, Strip, Spell;
    match Numbers(parts, toInt)
    case None =>
      var i :| 0 <= i < |parts| && toInt(Strip(parts[i])) == None;
      assert parts[i] in parts;
    case Some(xs) =>
      if !Descends(xs) {
        AscendingIsIncreasing(xs);
      }
  }

  const MAX_TOKENS := 8192
  const CHARS_PER_TOKEN := 3

  /** The largest max_tokens a request may ask for: the served context less the prompt; // rounds down. */
  function Cap(ctx: Option<int>, chars: nat): int {
    if ctx == None then MAX_TOKENS else Max(0, ctx.value - -((0 - chars) / CHARS_PER_TOKEN))
  }

  /** A budget of one or more is within the cap exactly when it leaves the prompt its tokens. */
  lemma CapIsTheRoomLeft(ctx: int, chars: nat, budget: int)
    requires budget >= 1
    ensures budget <= Cap(Some(ctx), chars) <==> chars <= 3 * (ctx - budget)
    ensures Cap(Some(ctx), chars) >= 0 && Cap(None, chars) == 8192
  {
  }

  function Below(room: int): int -> bool { rung => rung < room }

  /** The ladder a case climbs: rungs past the served context less the prompt become that room. */
  function RungsFor(ladder: seq<int>, ctx: Option<int>, chars: nat): seq<int> {
    if ctx == None then ladder
    else
      var room := Cap(ctx, chars);
      if room < 1 then ladder[..Min(1, |ladder|)]
      else
        var kept := Filter(ladder, Below(room));
        if |kept| < |ladder| then kept + [room] else kept
  }

  lemma AllAbove(ladder: seq<int>, room: int)
    requires Increasing(ladder) && ladder != [] && room <= ladder[0]
    ensures Filter(ladder, Below(room)) == [] && forall i :: 0 <= i < |ladder| ==> room <= ladder[i]
  {
    forall i | 0 <= i < |ladder|
      ensures room <= ladder[i]
    {
      assert i > 0 ==> ladder[0] < ladder[i];
    }
    hide Increasing;
    NoneBelow(ladder, room);
  }

  /** The rungs below a room are the ladder's first few. */
  lemma {:induction false} BelowIsAPrefix(ladder: seq<int>, room: int)
    requires Increasing(ladder)
    ensures var kept := Filter(ladder, Below(room));
            && kept == ladder[..|kept|]
            && (forall i :: |kept| <= i < |ladder| ==> room <= ladder[i])
  {
    if ladder != [] {
      if ladder[0] < room {
        assert forall i :: 0 <= i < |ladder[1..]| ==> ladder[1..][i] == ladder[i + 1];
        BelowIsAPrefix(ladder[1..], room);
        hide Increasing;
        var rest := Filter(ladder[1..], Below(room));
        assert [ladder[0]] + rest == ladder[..|rest| + 1];
      } else {
        AllAbove(ladder, room);
      }
    }
  }

  lemma {:induction false} NoneBelow(ladder: seq<int>, room: int)
    requires forall x <- ladder :: room <= x
    ensures Filter(ladder, Below(room)) == []
  {
    if ladder != [] {
      assert forall x <- ladder[1..] :: x in ladder;
      NoneBelow(ladder[1..], room);
    }
  }

  /** A ladder that lies below the room is left alone; any other stops at the room. */
  ghost predicate CutAtRoom(ladder: seq<int>, room: int, rungs: seq<int>) {
    || (rungs == ladder && forall i :: 0 <= i < |ladder| ==> ladder[i] < room)
    || (&& 1 <= |rungs| <= |ladder|
        && rungs == ladder[..|rungs| - 1] + [room]
        && room <= ladder[|rungs| - 1]
        && forall i :: 0 <= i < |rungs| - 1 ==> ladder[i] < room)
  }

  lemma RungsAreCut(ladder: seq<int>, ctx: Option<int>, chars: nat)
    requires Increasing(ladder) && ctx.Some? && Cap(ctx, chars) >= 1
    ensures CutAtRoom(ladder, Cap(ctx, chars), RungsFor(ladder, ctx, chars))
  {
    var room := Cap(ctx, chars);
    BelowIsAPrefix(ladder, room);
    var kept := Filter(ladder, Below(room));
    hide Filter, Cap, Increasing;
    forall i | 0 <= i < |kept|
      ensures ladder[i] < room
    {
      assert kept[i] in kept && Below(room)(kept[i]);
    }
  }

  lemma CutLadder(ladder: seq<int>, room: int, rungs: seq<int>)
    requires Increasing(ladder) && CutAtRoom(ladder, room, rungs)
    ensures Increasing(rungs) && (rungs == [] <==> ladder == [])
    ensures ladder != [] ==> rungs[|rungs| - 1] == Min(ladder[|ladder| - 1], room)
    ensures ladder != [] ==> rungs[..|rungs| - 1] == ladder[..|rungs| - 1]
    ensures forall i :: 0 <= i < |rungs| ==> rungs[i] <= room
  {
    if rungs != ladder {
      assert ladder[|rungs| - 1] <= ladder[|ladder| - 1];
    }
  }

  /** With room for one token, a ladder climbs on up to its top or the room, whichever is lower, and fits. */
  lemma RungsEndAtTheRoom(ladder: seq<int>, ctx: int, chars: nat)
    requires Increasing(ladder) && ladder != [] && Cap(Some(ctx), chars) >= 1
    ensures var rungs := RungsFor(ladder, Some(ctx), chars);
            && Increasing(rungs) && rungs != []
            && rungs[|rungs| - 1] == Min(ladder[|ladder| - 1], Cap(Some(ctx), chars))
            && rungs[..|rungs| - 1] == ladder[..|rungs| - 1]
            && (forall i :: 0 <= i < |rungs| ==> chars <= CHARS_PER_TOKEN * (ctx - rungs[i]))
  {
    hide *;
    RungsAreCut(ladder, Some(ctx), chars);
    var rungs := RungsFor(ladder, Some(ctx), chars);
    CutLadder(ladder, Cap(Some(ctx), chars), rungs);
    forall i | 0 <= i < |rungs|
      ensures chars <= CHARS_PER_TOKEN * (ctx - rungs[i])
    {
      AnyRungFits(ctx, chars, rungs[i]);
    }
  }

  lemma AnyRungFits(ctx: int, chars: nat, rung: int)
    requires rung <= Cap(Some(ctx), chars) && Cap(Some(ctx), chars) >= 1
    ensures chars <= CHARS_PER_TOKEN * (ctx - rung)
  {
  }

  /** A case always has a rung to climb: a nonempty ladder is never emptied, whatever the context. */
  lemma ALadderIsNeverEmptied(ladder: seq<int>, ctx: Option<int>, chars: nat)
    requires Increasing(ladder)
    ensures RungsFor(ladder, ctx, chars) == [] <==> ladder == []
    ensures Increasing(RungsFor(ladder, ctx, chars))
  {
    if ctx.Some? && Cap(ctx, chars) >= 1 {
      RungsAreCut(ladder, ctx, chars);
      CutLadder(ladder, Cap(ctx, chars), RungsFor(ladder, ctx, chars));
    }
  }

  /** With no room for a token only the first rung is tried; with no known context, every one. */
  lemma NoRoomTriesTheFirst(ladder: seq<int>, ctx: int, chars: nat)
    requires ladder != []
    ensures chars > 3 * (ctx - 1) ==> RungsFor(ladder, Some(ctx), chars) == [ladder[0]]
    ensures RungsFor(ladder, None, chars) == ladder
  {
    CapIsTheRoomLeft(ctx, chars, 1);
    assert ladder[..1] == [ladder[0]];
  }

  // ---- the climb ----

  const EXHAUSTED := "token_budget_exhausted"

  /** What a runner returns for a case; `tokens` is its completion_tokens metric. */
  datatype Reply = Reply(passed: bool, failureClass: string, tokens: Option<int>, seconds: real)
  datatype Attempt = Attempt(budget: int, tokens: Option<int>, seconds: real, passed: bool, failureClass: string)
  datatype Climbed = Climbed(reply: Reply, seconds: real, attempts: seq<Attempt>)

  function AttemptAt(rung: int, r: Reply): Attempt {
    var counted := r.tokens.Some? && r.tokens.value != 0;
    Attempt(rung, if counted then r.tokens else if r.failureClass == EXHAUSTED then Some(rung) else None,
            r.seconds, r.passed, r.failureClass)
  }

  predicate Stops(a: Attempt) { a.passed || a.failureClass != EXHAUSTED }

  /** The attempts from rung `i` up: each rung's reply until one stops the climb. */
  function Attempts(rungs: seq<int>, i: nat, reply: (nat, int) -> Reply): (out: seq<Attempt>)
    requires i <= |rungs|
    ensures i < |rungs| ==> out != []
    decreases |rungs| - i
  {
    if i == |rungs| then []
    else
      var a := AttemptAt(rungs[i], reply(i, rungs[i]));
      [a] + if Stops(a) then [] else Attempts(rungs, i + 1, reply)
  }

  function Seconds(attempts: seq<Attempt>): real {
    if attempts == [] then 0.0 else Seconds(attempts[..|attempts| - 1]) + attempts[|attempts| - 1].seconds
  }

  /** A runner, and the base a method wraps; each asks for its own reply budget. */
  class Runner {
    const base: Runner?
    ghost const height: nat
    var maxTokens: int

    constructor (base: Runner?, maxTokens: int)
      requires base != null ==> base.Valid()
      ensures Valid() && this.base == base && this.maxTokens == maxTokens
    {
      this.base := base;
      this.maxTokens := maxTokens;
      height := if base == null then 0 else base.height + 1;
    }

    ghost predicate Valid()
      decreases height
    {
      base != null ==> base.height < height && base.Valid()
    }

    /** The runner and everything it wraps. */
    ghost function Wrapped(): (rs: set<Runner>)
      requires Valid()
      ensures forall r <- rs :: r.height <= height
      decreases height
    {
      {this} + if base == null then {} else base.Wrapped()
    }

    /** The budget of every runner in the chain is `n`. */
    ghost predicate AllAt(n: int)
      requires Valid()
      reads Wrapped()
    {
      forall r <- Wrapped() :: r.maxTokens == n
    }

    /** Point a runner, and any base a method wraps, at one reply budget. */
    method SetBudget(n: int)
      requires Valid()
      modifies Wrapped()
      ensures AllAt(n) && maxTokens == n
      decreases height
    {
      maxTokens := n;
      if base != null {
        base.SetBudget(n);
        assert this !in base.Wrapped();
      }
    }
  }

  /**
   * Run a case at each rung while its reply is cut off at the budget. `reply` is what the chain answers on the i-th
   * request at a budget; the chain is at that budget, all of it, whenever it is asked.
   */
  method Climb(runner: Runner, rungs: seq<int>, reply: (nat, int) -> Reply) returns (row: Climbed)
    requires runner.Valid() && rungs != []
    modifies runner.Wrapped()
    ensures row.attempts == Attempts(rungs, 0, reply)
    ensures var last := |row.attempts| - 1;
            last < |rungs| && row.reply == reply(last, rungs[last]) && runner.AllAt(rungs[last])
    ensures row.seconds == Seconds(row.attempts)
  {
    var attempts: seq<Attempt> := [];
    var i := 0;
    var got := reply(0, rungs[0]);
    var stopped := false;
    ClimbBegins(rungs, reply);
    hide ClimbedSoFar, Attempts, Stops, AttemptAt, Runner.Valid, Runner.Wrapped, Runner.AllAt, Seconds;
    while i < |rungs| && !stopped
      invariant 0 <= i <= |rungs| && |attempts| == i
      invariant ClimbedSoFar(rungs, i, reply, attempts, stopped)
      invariant i > 0 ==> got == reply(i - 1, rungs[i - 1]) && runner.AllAt(rungs[i - 1])
      invariant i == 0 ==> !stopped
      decreases |rungs| - i
    {
      runner.SetBudget(rungs[i]);
      got := reply(i, runner.maxTokens);
      var a := AttemptAt(rungs[i], got);
      NextRung(rungs, i, reply, attempts);
      attempts := attempts + [a];
      stopped := Stops(a);
      i := i + 1;
    }
    ClimbIsOver(rungs, i, reply, attempts, stopped);
    row := Climbed(got, Seconds(attempts), attempts);
  }

  /** What has been attempted, and what is still to come unless the climb has stopped. */
  ghost predicate ClimbedSoFar(rungs: seq<int>, i: nat, reply: (nat, int) -> Reply, attempts: seq<Attempt>,
                               stopped: bool)
    requires i <= |rungs|
  {
    Attempts(rungs, 0, reply) == attempts + if stopped then [] else Attempts(rungs, i, reply)
  }

  lemma NextRung(rungs: seq<int>, i: nat, reply: (nat, int) -> Reply, attempts: seq<Attempt>)
    requires i < |rungs| && ClimbedSoFar(rungs, i, reply, attempts, false)
    ensures var a := AttemptAt(rungs[i], reply(i, rungs[i]));
            ClimbedSoFar(rungs, i + 1, reply, attempts + [a], Stops(a))
  {
    hide AttemptAt, Stops;
    var a := AttemptAt(rungs[i], reply(i, rungs[i]));
    var rest := if Stops(a) then [] else Attempts(rungs, i + 1, reply);
    assert Attempts(rungs, i, reply) == [a] + rest;
    assert attempts + ([a] + rest) == (attempts + [a]) + rest;
  }

  lemma ClimbIsOver(rungs: seq<int>, i: nat, reply: (nat, int) -> Reply, attempts: seq<Attempt>, stopped: bool)
    requires i <= |rungs| && ClimbedSoFar(rungs, i, reply, attempts, stopped) && (stopped || i == |rungs|)
    ensures attempts == Attempts(rungs, 0, reply)
  {
    assert attempts + [] == attempts;
  }

  lemma ClimbBegins(rungs: seq<int>, reply: (nat, int) -> Reply)
    ensures ClimbedSoFar(rungs, 0, reply, [], false)
  {
  }

  /** The shape of a climb: a first stretch of the rungs, cut off at each but perhaps the last. */
  predicate Climbs(rungs: seq<int>, attempts: seq<Attempt>) {
    && 1 <= |attempts| <= |rungs|
    && (forall j :: 0 <= j < |attempts| ==> attempts[j].budget == rungs[j])
    && (forall j :: 0 <= j < |attempts| - 1 ==> !Stops(attempts[j]))
    && (|attempts| < |rungs| ==> Stops(attempts[|attempts| - 1]))
  }

  lemma {:induction false} ClimbsFrom(rungs: seq<int>, i: nat, reply: (nat, int) -> Reply)
    requires i < |rungs|
    ensures Climbs(rungs[i..], Attempts(rungs, i, reply))
    decreases |rungs| - i
  {
    var a := AttemptAt(rungs[i], reply(i, rungs[i]));
    if !Stops(a) && i + 1 < |rungs| {
      ClimbsFrom(rungs, i + 1, reply);
      assert rungs[i + 1..] == rungs[i..][1..];
      var rest := Attempts(rungs, i + 1, reply);
      assert Attempts(rungs, i, reply) == [a] + rest;
      forall j | 0 <= j < |rest| + 1
        ensures ([a] + rest)[j].budget == rungs[i..][j]
        ensures j < |rest| ==> !Stops(([a] + rest)[j])
      {
        if j > 0 {
          assert rest[j - 1].budget == rungs[i + 1..][j - 1];
        }
      }
    } else {
      assert Attempts(rungs, i, reply) == [a];
    }
  }

  /** Whatever the replies, a climb has that shape. */
  lemma EveryClimbClimbs(rungs: seq<int>, reply: (nat, int) -> Reply)
    requires rungs != []
    ensures Climbs(rungs, Attempts(rungs, 0, reply))
  {
    ClimbsFrom(rungs, 0, reply);
    assert rungs[0..] == rungs;
  }

  /** What an attempt records of the reply it had, the cost of one cut off at the budget being the whole budget. */
  predicate Records(a: Attempt, rung: int, r: Reply) {
    && a.budget == rung && a.passed == r.passed && a.failureClass == r.failureClass && a.seconds == r.seconds
    && (r.tokens.Some? && r.tokens.value != 0 ==> a.tokens == r.tokens)
    && (r.tokens.None? || r.tokens.value == 0 ==>
          a.tokens == if r.failureClass == "token_budget_exhausted" then Some(rung) else None)
  }

  lemma {:induction false} AttemptsRecord(rungs: seq<int>, i: nat, reply: (nat, int) -> Reply)
    requires i <= |rungs|
    ensures var out := Attempts(rungs, i, reply);
            && |out| <= |rungs| - i
            && forall j :: 0 <= j < |out| ==> Records(out[j], rungs[i + j], reply(i + j, rungs[i + j]))
    decreases |rungs| - i
  {
    if i < |rungs| {
      AttemptsRecord(rungs, i + 1, reply);
      var rest := Attempts(rungs, i + 1, reply);
      hide Records;
      AttemptRecords(rungs[i], reply(i, rungs[i]));
      var out := Attempts(rungs, i, reply);
      forall j | 0 <= j < |out|
        ensures Records(out[j], rungs[i + j], reply(i + j, rungs[i + j]))
      {
        if j > 0 {
          assert out[j] == rest[j - 1] && i + 1 + (j - 1) == i + j;
        }
      }
    }
  }

  lemma AttemptRecords(rung: int, r: Reply)
    ensures Records(AttemptAt(rung, r), rung, r)
  {
  }

  /** Every attempt of a climb records its own rung's reply, and each before the last cost something to record. */
  lemma EveryAttemptIsRecorded(rungs: seq<int>, reply: (nat, int) -> Reply)
    requires rungs != [] && forall i :: 0 <= i < |rungs| ==> rungs[i] != 0
    ensures var out := Attempts(rungs, 0, reply);
            && |out| <= |rungs|
            && (forall j :: 0 <= j < |out| ==> Records(out[j], rungs[j], reply(j, rungs[j])))
            && (forall j :: 0 <= j < |out| - 1 ==> out[j].tokens.Some? && out[j].tokens.value != 0)
  {
    AttemptsRecord(rungs, 0, reply);
    EveryClimbClimbs(rungs, reply);
    hide Attempts;
    var out := Attempts(rungs, 0, reply);
    forall j | 0 <= j < |out|
      ensures Records(out[j], rungs[j], reply(j, rungs[j]))
      ensures j < |out| - 1 ==> out[j].tokens.Some? && out[j].tokens.value != 0
    {
      assert 0 + j == j && Records(out[j], rungs[0 + j], reply(0 + j, rungs[0 + j]));
      assert j < |out| - 1 ==> !Stops(out[j]);
    }
  }

  // ---- what each rung is credited with ----

  function Count(attempts: seq<Attempt>, p: Attempt -> bool): nat {
    if attempts == [] then 0
    else Count(attempts[..|attempts| - 1], p) + if p(attempts[|attempts| - 1]) then 1 else 0
  }

  function At(b: int): Attempt -> bool { (a: Attempt) => a.budget == b }

  function PassedAt(b: int): Attempt -> bool { (a: Attempt) => a.budget == b && a.passed }

  /** Failed at this rung for another reason than the budget. */
  function StoppedAt(b: int): Attempt -> bool {
    (a: Attempt) => a.budget == b && !a.passed && a.failureClass != EXHAUSTED
  }

  function AnyPassed(): Attempt -> bool { (a: Attempt) => a.passed }

  function SecondsAt(attempts: seq<Attempt>, b: int): real {
    if attempts == [] then 0.0
    else
      var a := attempts[|attempts| - 1];
      SecondsAt(attempts[..|attempts| - 1], b) + if a.budget == b then a.seconds else 0.0
  }

  datatype Rung = Rung(tried: nat, passed: nat, seconds: real)

  function RungOf(attempts: seq<Attempt>, b: int): Rung {
    Rung(Count(attempts, At(b)), Count(attempts, PassedAt(b)), SecondsAt(attempts, b))
  }

  function BudgetsOf(attempts: seq<Attempt>): set<int> { set a | a in attempts :: a.budget }

  function Credited(was: Rung, a: Attempt): Rung {
    Rung(was.tried + 1, was.passed + if a.passed then 1 else 0, was.seconds + a.seconds)
  }

  lemma NextAttempt(attempts: seq<Attempt>, a: Attempt)
    ensures BudgetsOf(attempts + [a]) == BudgetsOf(attempts) + {a.budget}
    ensures forall b :: RungOf(attempts + [a], b)
                     == var was := RungOf(attempts, b);
                        if b == a.budget then Credited(was, a) else was
  {
    assert (attempts + [a])[..|attempts|] == attempts;
    assert forall x :: x in attempts + [a] <==> x in attempts || x == a;
  }

  lemma {:induction false} UntriedRung(attempts: seq<Attempt>, b: int)
    requires b !in BudgetsOf(attempts)
    ensures RungOf(attempts, b) == Rung(0, 0, 0.0) && Count(attempts, StoppedAt(b)) == 0
  {
    if attempts != [] {
      var n := |attempts| - 1;
      assert forall a <- attempts :: a.budget in BudgetsOf(attempts);
      assert forall a <- attempts[..n] :: a in attempts;
      UntriedRung(attempts[..n], b);
      assert attempts[n] in attempts;
    }
  }

  /** The rungs credited for the attempts seen so far. */
  ghost predicate Credits(out: map<int, Rung>, seen: seq<Attempt>) {
    out.Keys == BudgetsOf(seen) && forall b <- out :: out[b] == RungOf(seen, b)
  }

  lemma CreditKeeps(out: map<int, Rung>, a: Attempt, seen: seq<Attempt>)
    requires Credits(out, seen)
    ensures var got := if a.budget in out then out[a.budget] else Rung(0, 0, 0.0);
            Credits(out[a.budget := Credited(got, a)], seen + [a])
  {
    NextAttempt(seen, a);
    if a.budget !in out {
      UntriedRung(seen, a.budget);
    }
    hide RungOf, BudgetsOf;
  }

  method Credit(out: map<int, Rung>, a: Attempt, ghost seen: seq<Attempt>) returns (next: map<int, Rung>)
    requires Credits(out, seen)
    ensures Credits(next, seen + [a])
  {
    CreditKeeps(out, a, seen);
    hide Credits;
    var got := if a.budget in out then out[a.budget] else Rung(0, 0, 0.0);
    next := out[a.budget := Credited(got, a)];
  }

  /** Per rung: rows that tried it, passed at it, and the seconds spent there, lowest rung first. */
  method ByRung(rows: seq<seq<Attempt>>) returns (out: map<int, Rung>, order: seq<int>)
    ensures Credits(out, Flatten(rows))
    ensures order == Sorted(BudgetsOf(Flatten(rows)))
  {
    out := map[];
    ghost var seen: seq<Attempt> := [];
    assert Credits(out, seen) && rows[..0] == [] && Flatten<Attempt>([]) == [];
    hide Credits, Flatten;
    var i := 0;
    while i < |rows|
      invariant 0 <= i <= |rows| && seen == Flatten(rows[..i]) && Credits(out, seen)
    {
      var j := 0;
      while j < |rows[i]|
        invariant 0 <= j <= |rows[i]| && seen == Flatten(rows[..i]) + rows[i][..j] && Credits(out, seen)
      {
        out := Credit(out, rows[i][j], seen);
        assert rows[i][..j + 1] == rows[i][..j] + [rows[i][j]];
        seen := seen + [rows[i][j]];
        j := j + 1;
      }
      FlattenNext(rows, i);
      assert rows[i][..j] == rows[i];
      i := i + 1;
    }
    assert rows[..i] == rows;
    CreditedKeys(out, seen);
    order := Sorted(out.Keys);
  }

  lemma CreditedKeys(out: map<int, Rung>, seen: seq<Attempt>)
    requires Credits(out, seen)
    ensures out.Keys == BudgetsOf(seen)
  {
  }

  lemma FlattenNext<T>(rows: seq<seq<T>>, i: nat)
    requires i < |rows|
    ensures Flatten(rows[..i + 1]) == Flatten(rows[..i]) + rows[i]
  {
    assert rows[..i + 1] == rows[..i] + [rows[i]];
    FlattenConcat(rows[..i], [rows[i]]);
    assert Flatten([rows[i]]) == rows[i] + Flatten([]);
  }

  // ---- the accounts balance ----

  lemma {:induction false} CountConcat(a: seq<Attempt>, b: seq<Attempt>, p: Attempt -> bool)
    ensures Count(a + b, p) == Count(a, p) + Count(b, p)
  {
    if b == [] {
      assert a + b == a;
    } else {
      var n := |b| - 1;
      assert (a + b)[..|a| + n] == a + b[..n];
      CountConcat(a, b[..n], p);
    }
  }

  /** A climb of an increasing ladder tries each rung at most once, so a rung's counts are its one attempt's. */
  lemma {:induction false} OneAttemptARung(rungs: seq<int>, attempts: seq<Attempt>, k: nat, j: nat)
    requires Increasing(rungs) && Climbs(rungs, attempts) && k <= |attempts| && j < |rungs|
    ensures Count(attempts[..k], At(rungs[j])) == (if j < k then 1 else 0)
    ensures Count(attempts[..k], PassedAt(rungs[j])) == (if j < k && attempts[j].passed then 1 else 0)
    ensures Count(attempts[..k], StoppedAt(rungs[j]))
         == (if j < k && !attempts[j].passed && attempts[j].failureClass != EXHAUSTED then 1 else 0)
    decreases k
  {
    if k > 0 {
      assert attempts[..k][..k - 1] == attempts[..k - 1];
      OneAttemptARung(rungs, attempts, k - 1, j);
      assert attempts[k - 1].budget == rungs[k - 1];
      assert k - 1 < j ==> rungs[k - 1] < rungs[j];
      assert j < k - 1 ==> rungs[j] < rungs[k - 1];
    }
  }

  /**
   * Rows that climbed one ladder: every try of a rung passed there, failed there for another reason, or went on to
   * the rung above. So tries never rise, and by no less than the passes below.
   */
  lemma {:induction false} TriesAreAccountedFor(rungs: seq<int>, rows: seq<seq<Attempt>>, j: nat)
    requires Increasing(rungs) && j + 1 < |rungs|
    requires forall row <- rows :: Climbs(rungs, row)
    ensures var all := Flatten(rows);
            && Count(all, At(rungs[j]))
               == Count(all, PassedAt(rungs[j])) + Count(all, StoppedAt(rungs[j])) + Count(all, At(rungs[j + 1]))
            && Count(all, At(rungs[j + 1])) <= Count(all, At(rungs[j])) - Count(all, PassedAt(rungs[j]))
            && Count(all, At(rungs[0])) == |rows|
  {
    if rows != [] {
      var (row, rest) := (rows[0], rows[1..]);
      assert row in rows && forall r <- rest :: r in rows;
      TriesAreAccountedFor(rungs, rest, j);
      RowIsAccountedFor(rungs, row, j);
      CountConcat(row, Flatten(rest), At(rungs[0]));
      CountConcat(row, Flatten(rest), At(rungs[j]));
      CountConcat(row, Flatten(rest), At(rungs[j + 1]));
      CountConcat(row, Flatten(rest), PassedAt(rungs[j]));
      CountConcat(row, Flatten(rest), StoppedAt(rungs[j]));
      hide Count, Climbs;
    }
  }

  lemma RowIsAccountedFor(rungs: seq<int>, row: seq<Attempt>, j: nat)
    requires Increasing(rungs) && j + 1 < |rungs| && Climbs(rungs, row)
    ensures Count(row, At(rungs[j]))
         == Count(row, PassedAt(rungs[j])) + Count(row, StoppedAt(rungs[j])) + Count(row, At(rungs[j + 1]))
    ensures Count(row, At(rungs[0])) == 1
  {
    assert row[..|row|] == row;
    OneAttemptARung(rungs, row, |row|, j);
    OneAttemptARung(rungs, row, |row|, j + 1);
    OneAttemptARung(rungs, row, |row|, 0);
    hide Count, Increasing;
  }

  /** The passes credited over a list of rungs. */
  function PassesOver(attempts: seq<Attempt>, order: seq<int>): nat {
    if order == [] then 0 else Count(attempts, PassedAt(order[0])) + PassesOver(attempts, order[1..])
  }

  lemma {:induction false} NoPassesYet(order: seq<int>)
    ensures PassesOver([], order) == 0
  {
    if order != [] {
      NoPassesYet(order[1..]);
    }
  }

  lemma {:induction false} OneMorePass(attempts: seq<Attempt>, a: Attempt, order: seq<int>)
    requires Increasing(order)
    ensures PassesOver(attempts + [a], order)
         == PassesOver(attempts, order) + if a.passed && a.budget in order then 1 else 0
  {
    if order != [] {
      assert (attempts + [a])[..|attempts|] == attempts;
      var rest := order[1..];
      assert forall i :: 0 <= i < |rest| ==> rest[i] == order[i + 1];
      OneMorePass(attempts, a, rest);
      assert a.budget in order <==> a.budget == order[0] || a.budget in rest;
      assert order[0] !in rest;
    }
  }

  /** Every pass is credited to one rung. */
  lemma {:induction false} EveryPassIsCredited(attempts: seq<Attempt>, order: seq<int>)
    requires Increasing(order) && forall a <- attempts :: a.budget in order
    ensures PassesOver(attempts, order) == Count(attempts, AnyPassed())
  {
    if attempts == [] {
      NoPassesYet(order);
    } else {
      var n := |attempts| - 1;
      assert attempts == attempts[..n] + [attempts[n]];
      assert forall a <- attempts[..n] :: a in attempts;
      assert attempts[n] in attempts;
      EveryPassIsCredited(attempts[..n], order);
      OneMorePass(attempts[..n], attempts[n], order);
    }
  }

  /** A row passed if its last attempt did. */
  function PassedRows(rows: seq<seq<Attempt>>): nat {
    if rows == [] then 0
    else (if rows[0] != [] && rows[0][|rows[0]| - 1].passed then 1 else 0) + PassedRows(rows[1..])
  }

  lemma {:induction false} NonePassed(attempts: seq<Attempt>)
    requires forall a <- attempts :: !a.passed
    ensures Count(attempts, AnyPassed()) == 0
  {
    if attempts != [] {
      var n := |attempts| - 1;
      assert attempts[n] in attempts && forall a <- attempts[..n] :: a in attempts;
      NonePassed(attempts[..n]);
    }
  }

  lemma {:induction false} OnePassARow(rows: seq<seq<Attempt>>)
    requires forall row <- rows :: exists rungs :: Climbs(rungs, row)
    ensures Count(Flatten(rows), AnyPassed()) == PassedRows(rows)
  {
    if rows != [] {
      var (row, rest) := (rows[0], rows[1..]);
      assert row in rows && forall r <- rest :: r in rows;
      var rungs :| Climbs(rungs, row);
      OnePassARow(rest);
      CountConcat(row, Flatten(rest), AnyPassed());
      var n := |row| - 1;
      forall a <- row[..n]
        ensures !a.passed
      {
        var j :| 0 <= j < n && row[..n][j] == a;
        assert !Stops(row[j]);
      }
      NonePassed(row[..n]);
    }
  }

  /** Whatever ladder each row climbed, the passes over all the rungs are the rows that passed. */
  lemma PassesAreTheRowsPassed(rows: seq<seq<Attempt>>)
    requires forall row <- rows :: exists rungs :: Climbs(rungs, row)
    ensures PassesOver(Flatten(rows), Sorted(BudgetsOf(Flatten(rows)))) == PassedRows(rows)
  {
    var all := Flatten(rows);
    OnePassARow(rows);
    assert forall a <- all :: a.budget in BudgetsOf(all);
    EveryPassIsCredited(all, Sorted(BudgetsOf(all)));
  }

  /** The seconds credited over a list of rungs. */
  function SecondsOver(attempts: seq<Attempt>, order: seq<int>): real {
    if order == [] then 0.0 else SecondsAt(attempts, order[0]) + SecondsOver(attempts, order[1..])
  }

  lemma {:induction false} NoSecondsYet(order: seq<int>)
    ensures SecondsOver([], order) == 0.0
  {
    if order != [] {
      NoSecondsYet(order[1..]);
    }
  }

  lemma {:induction false} MoreSeconds(attempts: seq<Attempt>, a: Attempt, order: seq<int>)
    requires Increasing(order)
    ensures SecondsOver(attempts + [a], order)
         == SecondsOver(attempts, order) + if a.budget in order then a.seconds else 0.0
  {
    if order != [] {
      assert (attempts + [a])[..|attempts|] == attempts;
      var rest := order[1..];
      assert forall i :: 0 <= i < |rest| ==> rest[i] == order[i + 1];
      MoreSeconds(attempts, a, rest);
      assert a.budget in order <==> a.budget == order[0] || a.budget in rest;
      assert order[0] !in rest;
    }
  }

  lemma {:induction false} SecondsAreCredited(attempts: seq<Attempt>, order: seq<int>)
    requires Increasing(order) && forall a <- attempts :: a.budget in order
    ensures SecondsOver(attempts, order) == Seconds(attempts)
  {
    if attempts == [] {
      NoSecondsYet(order);
    } else {
      var n := |attempts| - 1;
      assert attempts == attempts[..n] + [attempts[n]];
      assert forall a <- attempts[..n] :: a in attempts;
      assert attempts[n] in attempts;
      SecondsAreCredited(attempts[..n], order);
      MoreSeconds(attempts[..n], attempts[n], order);
    }
  }

  lemma {:induction false} SecondsConcat(a: seq<Attempt>, b: seq<Attempt>)
    ensures Seconds(a + b) == Seconds(a) + Seconds(b)
  {
    if b == [] {
      assert a + b == a;
    } else {
      var n := |b| - 1;
      assert (a + b)[..|a| + n] == a + b[..n];
      SecondsConcat(a, b[..n]);
    }
  }

  /** The total time of rows. */
  function SecondsOf(rows: seq<seq<Attempt>>): real {
    if rows == [] then 0.0 else Seconds(rows[0]) + SecondsOf(rows[1..])
  }

  lemma {:induction false} SecondsFlatten(rows: seq<seq<Attempt>>)
    ensures Seconds(Flatten(rows)) == SecondsOf(rows)
  {
    if rows != [] {
      SecondsFlatten(rows[1..]);
      SecondsConcat(rows[0], Flatten(rows[1..]));
    }
  }

  /** Whatever was climbed, the seconds credited over all the rungs are the rows' total time. */
  lemma SecondsAreTheRowsTime(rows: seq<seq<Attempt>>)
    ensures SecondsOver(Flatten(rows), Sorted(BudgetsOf(Flatten(rows)))) == SecondsOf(rows)
  {
    var all := Flatten(rows);
    SecondsFlatten(rows);
    assert forall a <- all :: a.budget in BudgetsOf(all);
    SecondsAreCredited(all, Sorted(BudgetsOf(all)));
  }
}

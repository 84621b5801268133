/**
 * The rest of the body harness/completion.py assembles, read off the chunks before the end mark, and the error of a
 * stream that has none.
 */
module StreamingBody {
  import opened Common
  import opened Text
  import opened Streaming
  import opened StreamingLaws

  // ---- what a line is ----

  /** A data line is its payload whatever white space is about it; a line that does not start so is nothing. */
  lemma LineIs(before: string, payload: string, after: string, parse: Parser)
    requires AllSpace(before) && AllSpace(after) && Stripped(payload)
    ensures Classify("data:" + before + payload + after, parse)
         == if payload == "[DONE]" then End
            else if parse(payload).Some? then Data(parse(payload).value) else Bad
    ensures forall text: string :: !("data:" <= text) ==> Classify(text, parse) == Noise
  {
    var text := "data:" + before + payload + after;
    assert text[5..] == before + payload + after;
    StripPads(before, payload, after);
  }

  // ---- the fields, over the chunks before the end mark ----

  function ChunksOf(lines: seq<Line>, parse: Parser): seq<Chunk> {
    if lines == [] then []
    else match Classify(lines[0].0, parse)
      case End => []
      case Data(chunk) => [chunk] + ChunksOf(lines[1..], parse)
      case _ => ChunksOf(lines[1..], parse)
  }

  function ChoicesOf(chunks: seq<Chunk>): seq<Choice> {
    if chunks == [] then [] else chunks[0].choices + ChoicesOf(chunks[1..])
  }

  function TokensOf(choices: seq<Choice>): seq<string> {
    if choices == [] then [] else choices[0].tokens + TokensOf(choices[1..])
  }

  /** The last of `xs` that is not empty, and empty if there is none. */
  ghost predicate IsLast<T(!new)>(xs: seq<T>, empty: T, x: T) {
    || (x == empty && forall i :: 0 <= i < |xs| ==> xs[i] == empty)
    || exists k :: 0 <= k < |xs| && xs[k] == x != empty && forall i :: k < i < |xs| ==> xs[i] == empty
  }

  function Usages(chunks: seq<Chunk>): seq<map<string, int>> { Apply(chunks, (c: Chunk) => c.usage) }

  function AllTimings(chunks: seq<Chunk>): seq<map<string, real>> { Apply(chunks, (c: Chunk) => c.timings) }

  function Models(chunks: seq<Chunk>): seq<string> { Apply(chunks, (c: Chunk) => c.model) }

  function Finishes(choices: seq<Choice>): seq<string> { Apply(choices, (ch: Choice) => ch.finish) }

  /** `x` after a fold that started from `start` and took each nonempty value that came. */
  ghost predicate Kept<T(!new)>(start: T, xs: seq<T>, empty: T, x: T) {
    IsLast([start] + xs, empty, x)
  }

  lemma KeptNext<T(!new)>(start: T, next: T, xs: seq<T>, empty: T, x: T)
    requires Kept(if next != empty then next else start, xs, empty, x)
    ensures Kept(start, [next] + xs, empty, x)
  {
    var (had, all) := ([if next != empty then next else start] + xs, [start] + ([next] + xs));
    if !(x == empty && forall i :: 0 <= i < |had| ==> had[i] == empty) {
      var k :| 0 <= k < |had| && had[k] == x != empty && forall i :: k < i < |had| ==> had[i] == empty;
      var at := if k == 0 && next == empty then 0 else k + 1;
      assert all[at] == x && forall i :: at < i < |all| ==> i == 1 || all[i] == had[i - 1];
    } else {
      assert had[0] == empty && forall i :: 2 <= i < |all| ==> all[i] == had[i - 1];
    }
  }

  lemma KeptNothing<T(!new)>(start: T, empty: T)
    ensures Kept(start, [], empty, start)
  {
    assert ([start] + [])[0] == start;
  }

  lemma KeptFromEmpty<T(!new)>(xs: seq<T>, empty: T, x: T)
    requires Kept(empty, xs, empty, x)
    ensures IsLast(xs, empty, x)
  {
    var all := [empty] + xs;
    assert forall i :: 0 <= i < |xs| ==> xs[i] == all[i + 1];
    if !(x == empty && forall i :: 0 <= i < |all| ==> all[i] == empty) {
      var k :| 0 <= k < |all| && all[k] == x != empty && forall i :: k < i < |all| ==> all[i] == empty;
      assert xs[k - 1] == x;
    }
  }

  // ---- one fold at a time ----

  lemma {:induction false} PartsLeaveTheRest(acc: Acc, parts: seq<Part>, now: real)
    ensures var a := TakeParts(acc, parts, now);
            && a.tokens == acc.tokens && a.finish == acc.finish
            && a.usage == acc.usage && a.timings == acc.timings && a.model == acc.model
    decreases parts
  {
    if parts != [] {
      hide MergeCall;
      PartsLeaveTheRest(acc.(calls := MergeCall(acc.calls, parts[0]),
                             timing := acc.timing.(tool := Earliest(acc.timing.tool, now))), parts[1..], now);
    }
  }

  lemma ChoiceTakes(acc: Acc, ch: Choice, now: real)
    ensures var a := TakeChoice(acc, ch, now);
            && a.tokens == acc.tokens + ch.tokens && a.finish == Or(ch.finish, acc.finish)
            && a.usage == acc.usage && a.timings == acc.timings && a.model == acc.model
  {
    PartsLeaveTheRest(TakeWords(acc, ch, now), ch.parts, now);
    hide TakeParts;
  }

  lemma FinishesNext(choices: seq<Choice>)
    requires choices != []
    ensures Finishes(choices) == [choices[0].finish] + Finishes(choices[1..])
  {
  }

  lemma NoFinishes()
    ensures Finishes([]) == []
  {
  }

  lemma {:induction false} ChoicesTake(acc: Acc, choices: seq<Choice>, now: real)
    ensures var a := TakeChoices(acc, choices, now);
            && a.tokens == acc.tokens + TokensOf(choices) && Kept(acc.finish, Finishes(choices), "", a.finish)
            && a.usage == acc.usage && a.timings == acc.timings && a.model == acc.model
    decreases choices
  {
    hide TakeChoice, Kept, Finishes;
    if choices == [] {
      KeptNothing(acc.finish, "");
      NoFinishes();
    } else {
      var ch := choices[0];
      var next := TakeChoice(acc, ch, now);
      ChoiceTakes(acc, ch, now);
      ChoicesTake(next, choices[1..], now);
      FinishesNext(choices);
      KeptNext(acc.finish, ch.finish, Finishes(choices[1..]), "", TakeChoices(acc, choices, now).finish);
      assert TakeChoices(acc, choices, now) == TakeChoices(next, choices[1..], now);
    }
  }

  /** What the accumulator holds after `chunks`, of what it held before. */
  ghost predicate Took(acc: Acc, chunks: seq<Chunk>, end: Acc) {
    && Kept(acc.usage, Usages(chunks), map[], end.usage)
    && Kept(acc.timings, AllTimings(chunks), map[], end.timings)
    && Kept(acc.model, Models(chunks), "", end.model)
    && Kept(acc.finish, Finishes(ChoicesOf(chunks)), "", end.finish)
    && end.tokens == acc.tokens + TokensOf(ChoicesOf(chunks))
  }

  lemma KeptConcat<T(!new)>(start: T, xs: seq<T>, mid: T, ys: seq<T>, empty: T, x: T)
    requires Kept(start, xs, empty, mid) && Kept(mid, ys, empty, x)
    ensures Kept(start, xs + ys, empty, x)
  {
    var (a, b, all) := ([start] + xs, [mid] + ys, [start] + (xs + ys));
    assert forall i :: 0 <= i < |a| ==> all[i] == a[i];
    assert forall i :: 1 <= i < |b| ==> all[|xs| + i] == b[i];
    assert forall i :: |a| <= i < |all| ==> all[i] == b[i - |xs|];
    if !(x == empty && forall i :: 0 <= i < |b| ==> b[i] == empty) {
      var k :| 0 <= k < |b| && b[k] == x != empty && forall i :: k < i < |b| ==> b[i] == empty;
      var at := if k > 0 then |xs| + k
                else var j :| 0 <= j < |a| && a[j] == mid != empty && forall i :: j < i < |a| ==> a[i] == empty; j;
      assert all[at] == x;
    } else {
      assert b[0] == mid == empty;
    }
  }

  lemma {:induction false} ApplyConcat<S, T>(xs: seq<S>, ys: seq<S>, f: S -> T)
    ensures Apply(xs + ys, f) == Apply(xs, f) + Apply(ys, f)
  {
  }

  lemma {:induction false} TokensConcat(xs: seq<Choice>, ys: seq<Choice>)
    ensures TokensOf(xs + ys) == TokensOf(xs) + TokensOf(ys)
  {
    if xs == [] {
      assert xs + ys == ys;
    } else {
      assert (xs + ys)[1..] == xs[1..] + ys;
      TokensConcat(xs[1..], ys);
    }
  }

  lemma ChunksNext(chunk: Chunk, chunks: seq<Chunk>)
    ensures Usages([chunk] + chunks) == [chunk.usage] + Usages(chunks)
    ensures AllTimings([chunk] + chunks) == [chunk.timings] + AllTimings(chunks)
    ensures Models([chunk] + chunks) == [chunk.model] + Models(chunks)
    ensures ChoicesOf([chunk] + chunks) == chunk.choices + ChoicesOf(chunks)
  {
    assert ([chunk] + chunks)[1..] == chunks;
  }

  lemma FinishesConcat(xs: seq<Choice>, ys: seq<Choice>)
    ensures Finishes(xs + ys) == Finishes(xs) + Finishes(ys)
  {
    ApplyConcat(xs, ys, (ch: Choice) => ch.finish);
  }

  lemma ChunkTakes(acc: Acc, chunk: Chunk, now: real)
    ensures var a := TakeChunk(acc, chunk, now);
            && a.tokens == acc.tokens + TokensOf(chunk.choices)
            && Kept(acc.finish, Finishes(chunk.choices), "", a.finish)
            && a.usage == (if chunk.usage != map[] then chunk.usage else acc.usage)
            && a.timings == (if chunk.timings != map[] then chunk.timings else acc.timings)
            && a.model == (if chunk.model != "" then chunk.model else acc.model)
  {
    ChoicesTake(TakeHead(acc, chunk), chunk.choices, now);
    hide TakeChoices, Kept, Finishes, TokensOf;
  }

  lemma TookChunk(acc: Acc, chunk: Chunk, now: real, chunks: seq<Chunk>, end: Acc)
    requires Took(TakeChunk(acc, chunk, now), chunks, end)
    ensures Took(acc, [chunk] + chunks, end)
  {
    var next, rest := TakeChunk(acc, chunk, now), ChoicesOf(chunks);
    ChunkTakes(acc, chunk, now);
    ChunksNext(chunk, chunks);
    FinishesConcat(chunk.choices, rest);
    TokensConcat(chunk.choices, rest);
    hide TakeChunk, Kept, Finishes, TokensOf, Usages, AllTimings, Models, ChoicesOf;
    KeptConcat(acc.finish, Finishes(chunk.choices), next.finish, Finishes(rest), "", end.finish);
    KeptNext(acc.usage, chunk.usage, Usages(chunks), map[], end.usage);
    KeptNext(acc.timings, chunk.timings, AllTimings(chunks), map[], end.timings);
    KeptNext(acc.model, chunk.model, Models(chunks), "", end.model);
  }

  lemma TookNothing(acc: Acc)
    ensures Took(acc, [], acc)
  {
    KeptNothing(acc.usage, map[]);
    KeptNothing(acc.timings, map[]);
    KeptNothing(acc.model, "");
    KeptNothing(acc.finish, "");
    hide Kept;
  }

  lemma {:induction false} AfterTook(acc: Acc, lines: seq<Line>, parse: Parser)
    ensures Took(acc, ChunksOf(lines, parse), StreamingLaws.After(acc, lines, parse))
    decreases lines
  {
    hide Took, Classify, TakeChunk;
    if lines == [] {
      TookNothing(acc);
    } else {
      match Classify(lines[0].0, parse)
      case End => TookNothing(acc);
      case Data(chunk) =>
        var next := TakeChunk(acc, chunk, lines[0].1);
        AfterTook(next, lines[1..], parse);
        TookChunk(acc, chunk, lines[0].1, ChunksOf(lines[1..], parse), StreamingLaws.After(next, lines[1..], parse));
      case _ => AfterTook(acc, lines[1..], parse);
    }
  }

  /**
   * The body of a clean stream, over the chunks before its end mark: usage, timings and model are the last that are
   * not empty, the finish reason the last choice's that is not, and the tokens every choice's, in order.
   */
  lemma BodyIs(lines: seq<Line>, timeout: real, parse: Parser)
    requires Clean(lines, timeout, parse)
    ensures var (out, chunks) := (Run(START, lines, timeout, parse), ChunksOf(lines, parse));
            && out.Assembled?
            && IsLast(Usages(chunks), map[], out.body.usage)
            && IsLast(AllTimings(chunks), map[], out.body.timings)
            && IsLast(Models(chunks), "", out.body.model)
            && IsLast(Finishes(ChoicesOf(chunks)), "", out.body.finish)
            && out.body.tokens == TokensOf(ChoicesOf(chunks))
  {
    AssembledExactlyWhenClean(START, lines, timeout, parse);
    AfterTook(START, lines, parse);
    hide Kept, IsLast, Run, StreamingLaws.After, ChunksOf, Clean;
    var (end, chunks) := (StreamingLaws.After(START, lines, parse), ChunksOf(lines, parse));
    KeptFromEmpty(Usages(chunks), map[], end.usage);
    KeptFromEmpty(AllTimings(chunks), map[], end.timings);
    KeptFromEmpty(Models(chunks), "", end.model);
    KeptFromEmpty(Finishes(ChoicesOf(chunks)), "", end.finish);
    hide Usages, AllTimings, Models, Finishes;
  }

  // ---- the first line that offends ----

  /** On time, and not the end mark or anything that raises. */
  predicate Passes(line: Line, timeout: real, parse: Parser) {
    && line.1 <= timeout
    && var event := Classify(line.0, parse);
       event.Noise? || (event.Data? && event.chunk.error == "")
  }

  /** Line k is late, does not parse or carries an error, and every line before it passes. */
  predicate FirstOffence(lines: seq<Line>, k: int, timeout: real, parse: Parser) {
    && 0 <= k < |lines|
    && (forall j :: 0 <= j < k ==> Passes(lines[j], timeout, parse))
    && !Passes(lines[k], timeout, parse)
    && (lines[k].1 <= timeout ==> !Classify(lines[k].0, parse).End?)
  }

  lemma {:induction false} OffenceEnds(acc: Acc, lines: seq<Line>, k: int, timeout: real, parse: Parser)
    requires FirstOffence(lines, k, timeout, parse)
    ensures var (out, event) := (Run(acc, lines, timeout, parse), Classify(lines[k].0, parse));
            && (lines[k].1 > timeout ==> out == TimedOut)
            && (lines[k].1 <= timeout && event.Bad? ==> out == Malformed)
            && (lines[k].1 <= timeout && event.Data? ==> out == ServerError(event.chunk.error))
    decreases lines
  {
    hide Classify, TakeChunk;
    if k > 0 {
      assert Passes(lines[0], timeout, parse);
      assert forall j :: 0 <= j < k - 1 ==> lines[1..][j] == lines[j + 1];
      var event := Classify(lines[0].0, parse);
      if event.Data? {
        OffenceEnds(TakeChunk(acc, event.chunk, lines[0].1), lines[1..], k - 1, timeout, parse);
      } else {
        OffenceEnds(acc, lines[1..], k - 1, timeout, parse);
      }
    }
  }

  lemma {:induction false} OffenceExists(lines: seq<Line>, timeout: real, parse: Parser) returns (k: int)
    requires !Clean(lines, timeout, parse)
    ensures FirstOffence(lines, k, timeout, parse)
    decreases lines
  {
    hide Classify;
    if Passes(lines[0], timeout, parse) {
      var at := OffenceExists(lines[1..], timeout, parse);
      k := at + 1;
      assert forall j :: 0 < j < k ==> lines[j] == lines[1..][j - 1];
    } else {
      k := 0;
    }
  }

  /** A stream is unclean exactly when some line is the first to offend, and ends with that line's error by its kind. */
  lemma FirstOffenceDecides(lines: seq<Line>, timeout: real, parse: Parser)
    ensures !Clean(lines, timeout, parse) <==> exists k :: FirstOffence(lines, k, timeout, parse)
    ensures forall k :: FirstOffence(lines, k, timeout, parse) ==>
              var (out, event) := (Run(START, lines, timeout, parse), Classify(lines[k].0, parse));
              && (lines[k].1 > timeout ==> out == TimedOut)
              && (lines[k].1 <= timeout && event.Bad? ==> out == Malformed)
              && (lines[k].1 <= timeout && event.Data? ==> out == ServerError(event.chunk.error))
  {
    AssembledExactlyWhenClean(START, lines, timeout, parse);
    if !Clean(lines, timeout, parse) {
      var k := OffenceExists(lines, timeout, parse);
    }
    hide Run, Clean, Classify;
    forall k | FirstOffence(lines, k, timeout, parse)
      ensures var (out, event) := (Run(START, lines, timeout, parse), Classify(lines[k].0, parse));
              && (lines[k].1 > timeout ==> out == TimedOut)
              && (lines[k].1 <= timeout && event.Bad? ==> out == Malformed)
              && (lines[k].1 <= timeout && event.Data? ==> out == ServerError(event.chunk.error))
    {
      OffenceEnds(START, lines, k, timeout, parse);
    }
  }
}

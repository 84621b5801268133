/**
 * harness/completion.py: a streamed chat reply folded back into the body a
 * non-streamed request returns. A line is its text and the seconds since the
 * request started when it was read; `parse` is json.loads, None when it raises.
 */
module Streaming {
  import opened Common
  import opened Text

  datatype Args = NoArgs | Piece(text: string) | Whole(dumped: string)
  datatype Part = Part(index: Option<int>, id: string, name: string, args: Args)
  /** One element of a chunk's `choices`; an absent string is empty, which the source treats alike. */
  datatype Choice = Choice(content: string, reasoningContent: string, reasoning: string,
                           parts: seq<Part>, tokens: seq<string>, finish: string)
  datatype Chunk = Chunk(error: string, usage: map<string, int>, model: string,
                         timings: map<string, real>, choices: seq<Choice>)
  datatype Call = Call(id: string, name: string, arguments: string)
  datatype Message = Message(content: Option<string>, reasoning: Option<string>, toolCalls: seq<Call>)
  datatype Body = Body(message: Message, finish: string, tokens: seq<string>,
                       usage: map<string, int>, timings: map<string, real>, model: string)
  datatype Timing = Timing(ttft: Option<real>, reasoning: Option<real>, tool: Option<real>)
  datatype Outcome = Assembled(body: Body, timing: Timing) | TimedOut | ServerError(what: string) | Malformed

  type Line = (string, real)
  type Parser = string -> Option<Chunk>

  const DONE := "[DONE]"

  // ---- the fold ----

  datatype Acc = Acc(content: seq<string>, reasoning: seq<string>, tokens: seq<string>, calls: map<int, Call>,
                     usage: map<string, int>, timings: map<string, real>, finish: string, model: string,
                     timing: Timing)

  const START := Acc([], [], [], map[], map[], map[], "", "", Timing(None, None, None))

  function Or(a: string, b: string): string { if a != "" then a else b }

  function Earliest(t: Option<real>, now: real): Option<real> { if t == None then Some(now) else t }

  function MergeCall(calls: map<int, Call>, part: Part): map<int, Call> {
    var at := part.index.GetOr(|calls|);
    var got := if at in calls then calls[at] else Call("", "", "");
    calls[at := Call(Or(part.id, got.id), got.name + part.name,
                     match part.args
                     case NoArgs => got.arguments
                     case Piece(text) => got.arguments + text
                     case Whole(dumped) => dumped)]
  }

  function TakeParts(acc: Acc, parts: seq<Part>, now: real): Acc
    decreases parts
  {
    if parts == [] then acc
    else
      TakeParts(acc.(calls := MergeCall(acc.calls, parts[0]),
                     timing := acc.timing.(tool := Earliest(acc.timing.tool, now))), parts[1..], now)
  }

  function TakeWords(acc: Acc, ch: Choice, now: real): Acc {
    var a := if ch.content == "" then acc
             else acc.(content := acc.content + [ch.content],
                       timing := acc.timing.(ttft := Earliest(acc.timing.ttft, now)));
    var think := Or(ch.reasoningContent, ch.reasoning);
    if think == "" then a
    else a.(reasoning := a.reasoning + [think],
            timing := a.timing.(reasoning := Earliest(a.timing.reasoning, now)))
  }

  function TakeChoice(acc: Acc, ch: Choice, now: real): Acc {
    var a := TakeParts(TakeWords(acc, ch, now), ch.parts, now);
    a.(tokens := a.tokens + ch.tokens, finish := Or(ch.finish, a.finish))
  }

  function TakeChoices(acc: Acc, choices: seq<Choice>, now: real): Acc
    decreases choices
  {
    if choices == [] then acc else TakeChoices(TakeChoice(acc, choices[0], now), choices[1..], now)
  }

  function TakeHead(acc: Acc, c: Chunk): Acc {
    acc.(usage := if c.usage != map[] then c.usage else acc.usage,
         model := Or(c.model, acc.model),
         timings := if c.timings != map[] then c.timings else acc.timings)
  }

  function TakeChunk(acc: Acc, c: Chunk, now: real): Acc {
    TakeChoices(TakeHead(acc, c), c.choices, now)
  }

  function CallsInOrder(calls: map<int, Call>): (cs: seq<Call>)
    ensures |cs| == |Sorted(calls.Keys)|
  {
    var order := Sorted(calls.Keys);
    seq(|order|, i requires 0 <= i < |order| => calls[order[i]])
  }

  function Finish(acc: Acc): Outcome {
    Assembled(Body(Message(if acc.content == [] then None else Some(Flatten(acc.content)),
                           if acc.reasoning == [] then None else Some(Flatten(acc.reasoning)),
                           CallsInOrder(acc.calls)),
                   acc.finish, acc.tokens, acc.usage, acc.timings, acc.model),
              acc.timing)
  }

  datatype Event = Noise | End | Bad | Data(chunk: Chunk)

  /** What one line is: not a data line, the end mark, text json.loads refuses, or a chunk. */
  function Classify(text: string, parse: Parser): Event {
    if !StartsWith(text, "data:") then Noise
    else
      var data := Strip(text[5..]);
      if data == DONE then End
      else match parse(data)
        case None => Bad
        case Some(chunk) => Data(chunk)
  }

  function Run(acc: Acc, lines: seq<Line>, timeout: real, parse: Parser): Outcome
    decreases lines
  {
    if lines == [] then Finish(acc)
    else if lines[0].1 > timeout then TimedOut
    else match Classify(lines[0].0, parse)
      case Noise => Run(acc, lines[1..], timeout, parse)
      case End => Finish(acc)
      case Bad => Malformed
      case Data(chunk) =>
        if chunk.error != "" then ServerError(chunk.error)
        else Run(TakeChunk(acc, chunk, lines[0].1), lines[1..], timeout, parse)
  }

  // ---- the loop, as the source runs it ----

  /** The `calls` dict, folded in place by _merge_call. */
  class ToolCalls {
    var calls: map<int, Call>

    constructor ()
      ensures calls == map[]
    {
      calls := map[];
    }

    method Merge(part: Part)
      modifies this
      ensures calls == MergeCall(old(calls), part)
    {
      var at := part.index.GetOr(|calls|);
      var got := if at in calls then calls[at] else Call("", "", "");
      if part.id != "" {
        got := got.(id := part.id);
      }
      if part.name != "" {
        got := got.(name := got.name + part.name);
      } else {
        assert got.name + part.name == got.name;
      }
      match part.args {
        case Piece(text) => got := got.(arguments := got.arguments + text);
        case Whole(dumped) => got := got.(arguments := dumped);
        case NoArgs =>
      }
      calls := calls[at := got];
    }
  }

  /** One choice's delta: its words, then each tool-call fragment, folded into `tools`. */
  method FoldChoice(acc0: Acc, tools: ToolCalls, ch: Choice, now: real) returns (acc: Acc)
    modifies tools
    ensures acc.(calls := tools.calls) == TakeChoice(acc0.(calls := old(tools.calls)), ch, now)
  {
    acc := acc0;
    if ch.content != "" {
      acc := acc.(content := acc.content + [ch.content],
                  timing := acc.timing.(ttft := Earliest(acc.timing.ttft, now)));
    }
    var think := Or(ch.reasoningContent, ch.reasoning);
    if think != "" {
      acc := acc.(reasoning := acc.reasoning + [think],
                  timing := acc.timing.(reasoning := Earliest(acc.timing.reasoning, now)));
    }
    ghost var words := TakeWords(acc0.(calls := old(tools.calls)), ch, now);
    assert acc.(calls := tools.calls) == words;
    var p := 0;
    while p < |ch.parts|
      invariant 0 <= p <= |ch.parts|
      invariant TakeParts(acc.(calls := tools.calls), ch.parts[p..], now) == TakeParts(words, ch.parts, now)
    {
      assert ch.parts[p..][1..] == ch.parts[p + 1..];
      tools.Merge(ch.parts[p]);
      acc := acc.(timing := acc.timing.(tool := Earliest(acc.timing.tool, now)));
      p := p + 1;
    }
    acc := acc.(tokens := acc.tokens + ch.tokens, finish := Or(ch.finish, acc.finish));
  }

  method Assemble(lines: seq<Line>, timeout: real, parse: Parser) returns (out: Outcome)
    ensures out == Run(START, lines, timeout, parse)
  {
    var acc := START;
    var tools := new ToolCalls();
    var i := 0;
    while i < |lines|
      invariant 0 <= i <= |lines|
      invariant Run(acc.(calls := tools.calls), lines[i..], timeout, parse) == Run(START, lines, timeout, parse)
    {
      ghost var before := acc.(calls := tools.calls);
      var (text, now) := lines[i];
      assert lines[i..][1..] == lines[i + 1..];
      if now > timeout {
        return TimedOut;
      }
      i := i + 1;
      if !StartsWith(text, "data:") {
        continue;
      }
      var data := Strip(text[5..]);
      if data == DONE {
        return Finish(acc.(calls := tools.calls));
      }
      var parsed := parse(data);
      if parsed == None {
        return Malformed;
      }
      var chunk := parsed.value;
      if chunk.error != "" {
        return ServerError(chunk.error);
      }
      acc := TakeHead(acc, chunk);
      var k := 0;
      while k < |chunk.choices|
        invariant 0 <= k <= |chunk.choices|
        invariant TakeChoices(acc.(calls := tools.calls), chunk.choices[k..], now) == TakeChunk(before, chunk, now)
      {
        assert chunk.choices[k..][1..] == chunk.choices[k + 1..];
        acc := FoldChoice(acc, tools, chunk.choices[k], now);
        k := k + 1;
      }
    }
    return Finish(acc.(calls := tools.calls));
  }
}

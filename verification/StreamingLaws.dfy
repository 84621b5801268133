/** What harness/completion.py promises of a streamed reply: it reads as the whole one would. */
module StreamingLaws {
  import opened Common
  import opened Text
  import opened Streaming

  /** A piece of a reply, in the order the stream carries it. */
  datatype Frag = Words(text: string) | Thought(text: string) | Tool(part: Part)

  function ToolFrags(parts: seq<Part>): seq<Frag> {
    if parts == [] then [] else [Tool(parts[0])] + ToolFrags(parts[1..])
  }

  function FragsOfChoice(ch: Choice): seq<Frag> {
    var think := Or(ch.reasoningContent, ch.reasoning);
    (if ch.content == "" then [] else [Words(ch.content)])
    + (if think == "" then [] else [Thought(think)])
    + ToolFrags(ch.parts)
  }

  function FragsOfChoices(choices: seq<Choice>): seq<Frag> {
    if choices == [] then [] else FragsOfChoice(choices[0]) + FragsOfChoices(choices[1..])
  }

  /** Every fragment the stream carries before its end mark. */
  function FragsOfLines(lines: seq<Line>, parse: Parser): seq<Frag> {
    if lines == [] then []
    else match Classify(lines[0].0, parse)
      case End => []
      case Data(chunk) => FragsOfChoices(chunk.choices) + FragsOfLines(lines[1..], parse)
      case _ => FragsOfLines(lines[1..], parse)
  }

  /** Up to its end mark the stream is on time, parses, and reports no error. */
  predicate Clean(lines: seq<Line>, timeout: real, parse: Parser) {
    lines == [] ||
    (lines[0].1 <= timeout &&
     match Classify(lines[0].0, parse)
     case End => true
     case Noise => Clean(lines[1..], timeout, parse)
     case Bad => false
     case Data(chunk) => chunk.error == "" && Clean(lines[1..], timeout, parse))
  }

  // ---- what a server may send for a reply ----

  datatype Reply = Reply(content: string, reasoning: string, calls: map<int, Call>)

  function WholeMessage(r: Reply): Message {
    Message(if r.content == "" then None else Some(r.content),
            if r.reasoning == "" then None else Some(r.reasoning),
            CallsInOrder(r.calls))
  }

  datatype CallLeft = CallLeft(id: string, announced: bool, name: string, arguments: string)
  datatype Left = Left(content: string, reasoning: string, calls: map<int, CallLeft>)

  function Unsent(r: Reply): Left {
    Left(r.content, r.reasoning,
         map i | i in r.calls :: CallLeft(r.calls[i].id, false, r.calls[i].name, r.calls[i].arguments))
  }

  predicate Exhausted(left: Left) {
    && left.content == "" && left.reasoning == ""
    && forall i <- left.calls :: left.calls[i].announced && left.calls[i].name == "" && left.calls[i].arguments == ""
  }

  /** A fragment that is the next piece of what one of the streams has left. */
  predicate Sendable(left: Left, f: Frag) {
    match f
    case Words(s) => s != "" && s <= left.content
    case Thought(s) => s != "" && s <= left.reasoning
    case Tool(p) =>
      && p.index.Some? && p.index.value in left.calls
      && var c := left.calls[p.index.value];
      && (p.id == "" || p.id == c.id)
      && p.name <= c.name
      && (p.args.NoArgs? || (p.args.Piece? && p.args.text <= c.arguments))
  }

  function Sent(left: Left, f: Frag): Left
    requires Sendable(left, f)
  {
    match f
    case Words(s) => left.(content := left.content[|s|..])
    case Thought(s) => left.(reasoning := left.reasoning[|s|..])
    case Tool(p) =>
      var c := left.calls[p.index.value];
      var args := if p.args.NoArgs? then c.arguments else c.arguments[|p.args.text|..];
      left.(calls := left.calls[p.index.value :=
                       CallLeft(c.id, c.announced || p.id == c.id, c.name[|p.name|..], args)])
  }

  /** `frags` cuts everything `left` holds into pieces, each stream in its own order, interleaved anyhow. */
  predicate Emits(left: Left, frags: seq<Frag>)
    decreases frags
  {
    if frags == [] then Exhausted(left)
    else Sendable(left, frags[0]) && Emits(Sent(left, frags[0]), frags[1..])
  }

  // ---- the fold sees only the fragments ----

  datatype Msg = Msg(content: string, reasoning: string, calls: map<int, Call>)

  function Add(m: Msg, f: Frag): Msg {
    match f
    case Words(s) => m.(content := m.content + s)
    case Thought(s) => m.(reasoning := m.reasoning + s)
    case Tool(p) => m.(calls := MergeCall(m.calls, p))
  }

  function AddAll(m: Msg, frags: seq<Frag>): Msg
    decreases frags
  {
    if frags == [] then m else AddAll(Add(m, frags[0]), frags[1..])
  }

  lemma {:induction false} AddAllConcat(m: Msg, a: seq<Frag>, b: seq<Frag>)
    ensures AddAll(m, a + b) == AddAll(AddAll(m, a), b)
    decreases a
  {
    if a == [] {
      assert a + b == b;
    } else {
      assert (a + b)[1..] == a[1..] + b;
      AddAllConcat(Add(m, a[0]), a[1..], b);
    }
  }

  function View(acc: Acc): Msg { Msg(Flatten(acc.content), Flatten(acc.reasoning), acc.calls) }

  predicate Sound(acc: Acc) {
    "" !in acc.content && "" !in acc.reasoning
  }

  lemma FlattenAppend(xs: seq<string>, x: string)
    ensures Flatten(xs + [x]) == Flatten(xs) + x
  {
    FlattenConcat(xs, [x]);
    assert Flatten([x]) == x + Flatten<char>([]) == x;
  }

  lemma {:induction false} PartsView(acc: Acc, parts: seq<Part>, now: real)
    ensures View(TakeParts(acc, parts, now)) == AddAll(View(acc), ToolFrags(parts))
    ensures Sound(acc) ==> Sound(TakeParts(acc, parts, now))
    decreases parts
  {
    if parts != [] {
      var next := acc.(calls := MergeCall(acc.calls, parts[0]),
                       timing := acc.timing.(tool := Earliest(acc.timing.tool, now)));
      PartsView(next, parts[1..], now);
      assert View(next) == Add(View(acc), Tool(parts[0]));
      assert ToolFrags(parts)[1..] == ToolFrags(parts[1..]);
    }
  }

  lemma ChoiceView(acc: Acc, ch: Choice, now: real)
    requires Sound(acc)
    ensures View(TakeChoice(acc, ch, now)) == AddAll(View(acc), FragsOfChoice(ch))
    ensures Sound(TakeChoice(acc, ch, now))
  {
    var words := TakeWords(acc, ch, now);
    var think := Or(ch.reasoningContent, ch.reasoning);
    var said := if ch.content == "" then [] else [Words(ch.content)];
    var thought := if think == "" then [] else [Thought(think)];
    FlattenAppend(acc.content, ch.content);
    FlattenAppend(acc.reasoning, think);
    assert View(words) == AddAll(AddAll(View(acc), said), thought);
    AddAllConcat(View(acc), said, thought);
    AddAllConcat(View(acc), said + thought, ToolFrags(ch.parts));
    PartsView(words, ch.parts, now);
  }

  lemma {:induction false} ChoicesView(acc: Acc, choices: seq<Choice>, now: real)
    requires Sound(acc)
    ensures View(TakeChoices(acc, choices, now)) == AddAll(View(acc), FragsOfChoices(choices))
    ensures Sound(TakeChoices(acc, choices, now))
    decreases choices
  {
    if choices != [] {
      var next := TakeChoice(acc, choices[0], now);
      ChoiceView(acc, choices[0], now);
      ChoicesView(next, choices[1..], now);
      AddAllConcat(View(acc), FragsOfChoice(choices[0]), FragsOfChoices(choices[1..]));
    }
  }

  /** The accumulator a clean stream ends with. */
  function After(acc: Acc, lines: seq<Line>, parse: Parser): Acc
    decreases lines
  {
    if lines == [] then acc
    else match Classify(lines[0].0, parse)
      case End => acc
      case Data(chunk) => After(TakeChunk(acc, chunk, lines[0].1), lines[1..], parse)
      case _ => After(acc, lines[1..], parse)
  }

  lemma {:induction false} AfterView(acc: Acc, lines: seq<Line>, parse: Parser)
    requires Sound(acc)
    ensures View(After(acc, lines, parse)) == AddAll(View(acc), FragsOfLines(lines, parse))
    ensures Sound(After(acc, lines, parse))
    decreases lines
  {
    if lines != [] {
      match Classify(lines[0].0, parse)
      case End =>
      case Data(chunk) =>
        var next := TakeChunk(acc, chunk, lines[0].1);
        ChoicesView(TakeHead(acc, chunk), chunk.choices, lines[0].1);
        AfterView(next, lines[1..], parse);
        AddAllConcat(View(acc), FragsOfChoices(chunk.choices), FragsOfLines(lines[1..], parse));
      case _ => AfterView(acc, lines[1..], parse);
    }
  }

  /** A body comes back exactly when the stream is clean up to its end mark. */
  lemma {:induction false} AssembledExactlyWhenClean(acc: Acc, lines: seq<Line>, timeout: real, parse: Parser)
    ensures Run(acc, lines, timeout, parse).Assembled? <==> Clean(lines, timeout, parse)
    ensures Clean(lines, timeout, parse) ==> Run(acc, lines, timeout, parse) == Finish(After(acc, lines, parse))
    decreases lines
  {
    if lines != [] && lines[0].1 <= timeout {
      match Classify(lines[0].0, parse)
      case Data(chunk) =>
        AssembledExactlyWhenClean(TakeChunk(acc, chunk, lines[0].1), lines[1..], timeout, parse);
      case _ => AssembledExactlyWhenClean(acc, lines[1..], timeout, parse);
    }
  }

  // ---- the pieces of a reply add up to it ----

  /** What has been folded plus what is unsent is the reply, stream by stream. */
  ghost predicate Accounted(m: Msg, left: Left, r: Reply) {
    && m.content + left.content == r.content
    && m.reasoning + left.reasoning == r.reasoning
    && left.calls.Keys == r.calls.Keys
    && m.calls.Keys <= r.calls.Keys
    && forall i <- r.calls :: CallAccounted(m, left.calls[i], r.calls[i], i)
  }

  ghost predicate CallAccounted(m: Msg, left: CallLeft, whole: Call, i: int) {
    && left.id == whole.id
    && (left.announced ==> i in m.calls && m.calls[i].id == whole.id)
    && (i in m.calls ==> m.calls[i].id in {"", whole.id})
    && var got := if i in m.calls then m.calls[i] else Call("", "", "");
    && got.name + left.name == whole.name
    && got.arguments + left.arguments == whole.arguments
  }

  lemma PieceMoves(got: string, piece: string, left: string, whole: string)
    requires got + left == whole && piece <= left
    ensures (got + piece) + left[|piece|..] == whole
  {
    assert left == piece + left[|piece|..];
    assert (got + piece) + left[|piece|..] == got + (piece + left[|piece|..]);
  }

  lemma SendKeepsAccount(m: Msg, left: Left, r: Reply, f: Frag)
    requires Accounted(m, left, r) && Sendable(left, f)
    ensures Accounted(Add(m, f), Sent(left, f), r)
  {
    match f
    case Words(s) => PieceMoves(m.content, s, left.content, r.content);
    case Thought(s) => PieceMoves(m.reasoning, s, left.reasoning, r.reasoning);
    case Tool(p) => PartKeepsAccount(m, left, r, p);
  }

  lemma PartKeepsAccount(m: Msg, left: Left, r: Reply, p: Part)
    requires Accounted(m, left, r) && Sendable(left, Tool(p))
    ensures Accounted(Add(m, Tool(p)), Sent(left, Tool(p)), r)
  {
    var i := p.index.value;
    var m', left' := Add(m, Tool(p)), Sent(left, Tool(p));
    assert CallAccounted(m, left.calls[i], r.calls[i], i);
    CallKeepsAccount(m, left.calls[i], r.calls[i], p);
    assert left'.calls.Keys == left.calls.Keys && m'.calls.Keys == m.calls.Keys + {i};
    forall j <- r.calls
      ensures CallAccounted(m', left'.calls[j], r.calls[j], j)
    {
      assert CallAccounted(m, left.calls[j], r.calls[j], j);
      assert j != i ==> left'.calls[j] == left.calls[j];
    }
  }

  lemma CallKeepsAccount(m: Msg, c: CallLeft, whole: Call, p: Part)
    requires p.index.Some? && CallAccounted(m, c, whole, p.index.value)
    requires (p.id == "" || p.id == c.id) && p.name <= c.name
    requires p.args.NoArgs? || (p.args.Piece? && p.args.text <= c.arguments)
    ensures CallAccounted(Add(m, Tool(p)),
                          CallLeft(c.id, c.announced || p.id == c.id, c.name[|p.name|..],
                                   if p.args.NoArgs? then c.arguments else c.arguments[|p.args.text|..]),
                          whole, p.index.value)
  {
    var i := p.index.value;
    var got := if i in m.calls then m.calls[i] else Call("", "", "");
    PieceMoves(got.name, p.name, c.name, whole.name);
    if p.args.Piece? {
      PieceMoves(got.arguments, p.args.text, c.arguments, whole.arguments);
    }
  }

  lemma {:induction false} EmittedAddsUp(m: Msg, left: Left, r: Reply, frags: seq<Frag>)
    requires Accounted(m, left, r) && Emits(left, frags)
    ensures AddAll(m, frags) == Msg(r.content, r.reasoning, r.calls)
    decreases frags
  {
    if frags == [] {
      forall i <- r.calls
        ensures i in m.calls && m.calls[i] == r.calls[i]
      {
        assert CallAccounted(m, left.calls[i], r.calls[i], i);
      }
      assert m.calls == r.calls;
    } else {
      SendKeepsAccount(m, left, r, frags[0]);
      EmittedAddsUp(Add(m, frags[0]), Sent(left, frags[0]), r, frags[1..]);
    }
  }

  lemma {:induction false} FlattenEmpty(xs: seq<string>)
    requires "" !in xs
    ensures Flatten(xs) == "" <==> xs == []
  {
    if xs != [] {
      assert xs[0] in xs;
    }
  }

  lemma AllIsAccounted(r: Reply)
    ensures Accounted(View(START), Unsent(r), r)
  {
  }

  /** What is left at the end is the message. */
  lemma FinishedSays(end: Acc, r: Reply)
    requires Sound(end) && View(end) == Msg(r.content, r.reasoning, r.calls)
    ensures Finish(end).body.message == WholeMessage(r)
  {
    FlattenEmpty(end.content);
    FlattenEmpty(end.reasoning);
    hide Flatten, CallsInOrder;
  }

  /** However a reply is cut and interleaved, its assembled message is the whole reply's. */
  lemma StreamedEqualsWhole(r: Reply, lines: seq<Line>, timeout: real, parse: Parser)
    requires Clean(lines, timeout, parse)
    requires Emits(Unsent(r), FragsOfLines(lines, parse))
    ensures var out := Run(START, lines, timeout, parse);
            out.Assembled? && out.body.message == WholeMessage(r)
  {
    AssembledExactlyWhenClean(START, lines, timeout, parse);
    StartIsSound();
    hide *;
    AfterView(START, lines, parse);
    AllIsAccounted(r);
    EmittedAddsUp(View(START), Unsent(r), r, FragsOfLines(lines, parse));
    FinishedSays(After(START, lines, parse), r);
  }

  lemma StartIsSound()
    ensures Sound(START)
  {
  }

  // ---- the family of streams is closed under cutting and interleaving ----

  /** Fragments of two different streams: the words, the reasoning, or the calls at two indices. */
  predicate Apart(f: Frag, g: Frag) {
    match (f, g)
    case (Words(_), Words(_)) => false
    case (Thought(_), Thought(_)) => false
    case (Tool(p), Tool(q)) => p.index != q.index
    case _ => true
  }

  lemma ApartSwap(left: Left, f: Frag, g: Frag)
    requires Apart(f, g) && Sendable(left, f) && Sendable(Sent(left, f), g)
    ensures Sendable(left, g) && Sendable(Sent(left, g), f)
    ensures Sent(Sent(left, f), g) == Sent(Sent(left, g), f)
  {
    match (f, g)
    case (Tool(p), Tool(q)) =>
      var (x, y) := (Sent(Sent(left, f), g), Sent(Sent(left, g), f));
      assert x.calls == y.calls;
    case _ =>
  }

  lemma EmitsTwo(left: Left, f: Frag, g: Frag, after: seq<Frag>)
    ensures Emits(left, [f, g] + after)
       <==> Sendable(left, f) && Sendable(Sent(left, f), g) && Emits(Sent(Sent(left, f), g), after)
  {
    var all := [f, g] + after;
    assert all[0] == f && all[1..] == [g] + after && ([g] + after)[0] == g && ([g] + after)[1..] == after;
    hide Sendable, Sent;
  }

  lemma EmitsOne(left: Left, frags: seq<Frag>)
    requires frags != []
    ensures Emits(left, frags) <==> Sendable(left, frags[0]) && Emits(Sent(left, frags[0]), frags[1..])
  {
    hide Sendable, Sent;
  }

  lemma {:induction false} InterleavingIsFree(left: Left, before: seq<Frag>, f: Frag, g: Frag, after: seq<Frag>)
    requires Apart(f, g)
    requires Emits(left, before + [f, g] + after)
    ensures Emits(left, before + [g, f] + after)
    decreases before
  {
    var old_, new_ := before + [f, g] + after, before + [g, f] + after;
    hide *;
    if before == [] {
      assert old_ == [f, g] + after && new_ == [g, f] + after;
      EmitsTwo(left, f, g, after);
      ApartSwap(left, f, g);
      EmitsTwo(left, g, f, after);
    } else {
      EmitsOne(left, old_);
      EmitsOne(left, new_);
      assert old_[1..] == before[1..] + [f, g] + after && new_[1..] == before[1..] + [g, f] + after;
      InterleavingIsFree(Sent(left, before[0]), before[1..], f, g, after);
    }
  }

  function ArgText(a: Args): string { if a.Piece? then a.text else "" }

  /** `f` cut into `g` and then `h`: text in two, or one tool part's id, name and arguments over two parts. */
  predicate Cut(f: Frag, g: Frag, h: Frag) {
    match (f, g, h)
    case (Words(u), Words(s), Words(t)) => s != "" && t != "" && u == s + t
    case (Thought(u), Thought(s), Thought(t)) => s != "" && t != "" && u == s + t
    case (Tool(p), Tool(q), Tool(r)) =>
      && q.index == p.index && r.index == p.index
      && q.id in {"", p.id} && r.id in {"", p.id} && p.id in {q.id, r.id}
      && p.name == q.name + r.name
      && !p.args.Whole? && !q.args.Whole? && !r.args.Whole?
      && ArgText(p.args) == ArgText(q.args) + ArgText(r.args)
    case _ => false
  }

  /** Two pieces taken off the front one after the other are the piece they make up. */
  lemma TwoPieces(whole: string, s: string, t: string)
    requires s + t <= whole
    ensures s <= whole && t <= whole[|s|..] && whole[|s|..][|t|..] == whole[|s + t|..]
  {
    assert whole[..|s + t|] == s + t;
    assert s == (s + t)[..|s|] == whole[..|s|];
    assert whole[|s|..][..|t|] == (s + t)[|s|..] == t;
  }

  lemma CutSends(left: Left, f: Frag, g: Frag, h: Frag)
    requires Cut(f, g, h) && Sendable(left, f)
    ensures Sendable(left, g) && Sendable(Sent(left, g), h) && Sent(Sent(left, g), h) == Sent(left, f)
  {
    match f
    case Words(u) => TwoPieces(left.content, g.text, h.text);
    case Thought(u) => TwoPieces(left.reasoning, g.text, h.text);
    case Tool(p) =>
      var c := left.calls[p.index.value];
      TwoPieces(c.name, g.part.name, h.part.name);
      TwoPieces(c.arguments, ArgText(g.part.args), ArgText(h.part.args));
      assert Sent(Sent(left, g), h).calls == Sent(left, f).calls;
  }

  /** A fragment cut once more is still a stream of the same reply. */
  lemma {:induction false} CuttingIsFree(left: Left, before: seq<Frag>, f: Frag, g: Frag, h: Frag, after: seq<Frag>)
    requires Cut(f, g, h)
    requires Emits(left, before + [f] + after)
    ensures Emits(left, before + [g, h] + after)
    decreases before
  {
    var old_, new_ := before + [f] + after, before + [g, h] + after;
    if before == [] {
      assert old_[1..] == after;
      assert new_[1..] == [h] + after && new_[1..][1..] == after;
      CutSends(left, f, g, h);
      hide Sent, Sendable, Cut;
      assert Emits(Sent(left, g), [h] + after);
    } else {
      assert old_[1..] == before[1..] + [f] + after;
      assert new_[1..] == before[1..] + [g, h] + after;
      CuttingIsFree(Sent(left, before[0]), before[1..], f, g, h, after);
    }
  }

  // ---- fragments without an index ----

  function MergeAll(calls: map<int, Call>, parts: seq<Part>): map<int, Call>
    decreases parts
  {
    if parts == [] then calls else MergeAll(MergeCall(calls, parts[0]), parts[1..])
  }

  predicate Unindexed(parts: seq<Part>) { forall p <- parts :: p.index == None }

  /** Every run of unindexed fragments makes a call of each. */
  ghost predicate StayApart(calls: map<int, Call>) {
    forall parts :: Unindexed(parts) ==> |MergeAll(calls, parts)| == |calls| + |parts|
  }

  lemma OneUnindexed(calls: map<int, Call>, p: Part)
    requires p.index == None
    ensures MergeCall(calls, p).Keys == calls.Keys + {|calls|}
    ensures |MergeCall(calls, p)| == |calls| + (if |calls| in calls then 0 else 1)
  {
    var next := MergeCall(calls, p);
    assert |next| == |next.Keys| && |calls| == |calls.Keys|;
  }

  lemma {:induction false} BelowTheCount(calls: map<int, Call>, parts: seq<Part>)
    requires Unindexed(parts) && forall k <- calls :: k < |calls|
    ensures |MergeAll(calls, parts)| == |calls| + |parts|
    decreases parts
  {
    if parts != [] {
      assert parts[0] in parts;
      OneUnindexed(calls, parts[0]);
      hide MergeCall;
      BelowTheCount(MergeCall(calls, parts[0]), parts[1..]);
    }
  }

  /** Enough of them reach a number that is taken. */
  lemma {:induction false} ReachesATakenOne(calls: map<int, Call>, k: int) returns (parts: seq<Part>)
    requires k in calls && |calls| <= k
    ensures Unindexed(parts) && |MergeAll(calls, parts)| < |calls| + |parts|
    decreases k - |calls|
  {
    var p := Part(None, "", "", NoArgs);
    OneUnindexed(calls, p);
    var next := MergeCall(calls, p);
    hide MergeCall;
    if |calls| in calls {
      parts := [p];
      assert [p][1..] == [];
    } else {
      var rest := ReachesATakenOne(next, k);
      parts := [p] + rest;
      assert parts[1..] == rest;
    }
  }

  /**
   * A fragment without an index takes the number of calls so far, which may be taken. Unindexed calls always stay
   * apart exactly when every index so far is below that number.
   */
  lemma UnindexedStayApartExactly(calls: map<int, Call>)
    ensures StayApart(calls) <==> forall k <- calls :: k < |calls|
  {
    hide MergeAll;
    if forall k <- calls :: k < |calls| {
      forall parts | Unindexed(parts)
        ensures |MergeAll(calls, parts)| == |calls| + |parts|
      {
        BelowTheCount(calls, parts);
      }
    } else {
      var k :| k in calls && |calls| <= k;
      var parts := ReachesATakenOne(calls, k);
    }
  }

  // ---- there is always a stream ----

  /** Each call in one part. */
  function PartsOf(calls: map<int, Call>, keys: seq<int>): seq<Part>
    requires forall i :: 0 <= i < |keys| ==> keys[i] in calls
  {
    if keys == [] then []
    else
      var c := calls[keys[0]];
      [Part(Some(keys[0]), c.id, c.name, Piece(c.arguments))] + PartsOf(calls, keys[1..])
  }

  /** The calls at `keys` are still to be sent, and nothing else is. */
  predicate Remaining(left: Left, calls: map<int, Call>, keys: seq<int>) {
    && left.content == "" && left.reasoning == "" && left.calls.Keys == calls.Keys && Distinct(keys)
    && (forall i :: 0 <= i < |keys| ==>
          && keys[i] in calls && keys[i] in left.calls
          && var c := calls[keys[i]]; left.calls[keys[i]] == CallLeft(c.id, false, c.name, c.arguments))
    && (forall i <- calls :: i !in keys ==> i in left.calls && left.calls[i] == CallLeft(calls[i].id, true, "", ""))
  }

  lemma {:induction false} PartsEmit(left: Left, calls: map<int, Call>, keys: seq<int>)
    requires Remaining(left, calls, keys)
    ensures Emits(left, ToolFrags(PartsOf(calls, keys)))
    decreases keys
  {
    var frags := ToolFrags(PartsOf(calls, keys));
    if keys != [] {
      var k := keys[0];
      assert k in keys && k !in keys[1..];
      assert forall i :: i in keys <==> i == k || i in keys[1..];
      var c := calls[k];
      assert frags[0] == Tool(Part(Some(k), c.id, c.name, Piece(c.arguments)));
      assert PartsOf(calls, keys)[1..] == PartsOf(calls, keys[1..]);
      assert frags[1..] == ToolFrags(PartsOf(calls, keys[1..]));
      assert Sendable(left, frags[0]);
      var next := Sent(left, frags[0]);
      assert c.name[|c.name|..] == "" && c.arguments[|c.arguments|..] == "";
      assert Remaining(next, calls, keys[1..]);
      PartsEmit(next, calls, keys[1..]);
    }
  }

  /** The reply in one choice. */
  function OneChoice(r: Reply): Choice {
    Choice(r.content, r.reasoning, "", PartsOf(r.calls, Sorted(r.calls.Keys)), [], "stop")
  }

  function WordsOf(text: string): seq<Frag> { if text == "" then [] else [Words(text)] }

  function ThoughtsOf(text: string): seq<Frag> { if text == "" then [] else [Thought(text)] }

  lemma ThoughtFirst(left: Left, frags: seq<Frag>)
    requires Emits(left.(reasoning := ""), frags)
    ensures Emits(left, ThoughtsOf(left.reasoning) + frags)
  {
    if left.reasoning == "" {
      assert [] + frags == frags && left.(reasoning := "") == left;
    } else {
      assert ([Thought(left.reasoning)] + frags)[1..] == frags;
      assert Sent(left, Thought(left.reasoning)) == left.(reasoning := "");
    }
  }

  lemma WordsFirst(left: Left, frags: seq<Frag>)
    requires Emits(left.(content := ""), frags)
    ensures Emits(left, WordsOf(left.content) + frags)
  {
    if left.content == "" {
      assert [] + frags == frags && left.(content := "") == left;
    } else {
      assert ([Words(left.content)] + frags)[1..] == frags;
      assert Sent(left, Words(left.content)) == left.(content := "");
    }
  }

  lemma WordsThenThought(left: Left, frags: seq<Frag>)
    requires Emits(Left("", "", left.calls), frags)
    ensures Emits(left, WordsOf(left.content) + ThoughtsOf(left.reasoning) + frags)
  {
    hide *;
    var (said, thinking) := (WordsOf(left.content), ThoughtsOf(left.reasoning));
    ThoughtFirst(left.(content := ""), frags);
    WordsFirst(left, thinking + frags);
    assert said + (thinking + frags) == said + thinking + frags;
  }

  lemma NothingSentYet(r: Reply)
    ensures Remaining(Left("", "", Unsent(r).calls), r.calls, Sorted(r.calls.Keys))
  {
  }

  lemma OneChoiceEmits(r: Reply)
    ensures Emits(Unsent(r), FragsOfChoice(OneChoice(r)))
  {
    var keys := Sorted(r.calls.Keys);
    NothingSentYet(r);
    hide Emits, Remaining, ToolFrags, PartsOf, Sorted;
    PartsEmit(Left("", "", Unsent(r).calls), r.calls, keys);
    WordsThenThought(Unsent(r), ToolFrags(PartsOf(r.calls, keys)));
  }

  /** Every reply has a clean stream, one chunk long, that emits it. */
  lemma EveryReplyHasAStream(r: Reply, timeout: real) returns (lines: seq<Line>, parse: Parser)
    requires timeout >= 0.0
    ensures Clean(lines, timeout, parse) && Emits(Unsent(r), FragsOfLines(lines, parse))
  {
    var chunk := Chunk("", map[], "", map[], [OneChoice(r)]);
    lines, parse := [("data:", 0.0)], (text: string) => Some(chunk);
    OneChoiceEmits(r);
    assert "data:"[5..] == "" && Strip("") == "" && DONE != "";
    hide OneChoice, FragsOfChoice, Emits, Unsent;
    assert Classify("data:", parse) == Data(chunk);
    assert lines[1..] == [] && FragsOfChoices([OneChoice(r)]) == FragsOfChoice(OneChoice(r)) + [];
    assert FragsOfLines(lines, parse) == FragsOfChoice(OneChoice(r));
  }

  // ---- lines that do not matter ----

  /** Nothing after the end mark is read, whatever came before it. */
  lemma {:induction false} NothingAfterDoneIsRead(acc: Acc, before: seq<Line>, done: Line, after: seq<Line>,
                                                  timeout: real, parse: Parser)
    requires Classify(done.0, parse) == End
    ensures Run(acc, before + [done] + after, timeout, parse) == Run(acc, before + [done], timeout, parse)
    decreases before
  {
    var long, short := before + [done] + after, before + [done];
    if before != [] {
      assert long[1..] == before[1..] + [done] + after && short[1..] == before[1..] + [done];
      match Classify(before[0].0, parse)
      case Data(chunk) =>
        NothingAfterDoneIsRead(TakeChunk(acc, chunk, before[0].1), before[1..], done, after, timeout, parse);
      case _ => NothingAfterDoneIsRead(acc, before[1..], done, after, timeout, parse);
    } else {
      assert long[0] == done == short[0];
    }
  }

  /** A line that is not a data line changes nothing unless it is itself late. */
  lemma {:induction false} NoiseChangesNothing(acc: Acc, before: seq<Line>, noise: Line, after: seq<Line>,
                                               timeout: real, parse: Parser)
    requires !StartsWith(noise.0, "data:") && noise.1 <= timeout
    ensures Run(acc, before + [noise] + after, timeout, parse) == Run(acc, before + after, timeout, parse)
    decreases before
  {
    var long, short := before + [noise] + after, before + after;
    if before != [] {
      assert long[1..] == before[1..] + [noise] + after && short[1..] == before[1..] + after;
      match Classify(before[0].0, parse)
      case Data(chunk) =>
        NoiseChangesNothing(TakeChunk(acc, chunk, before[0].1), before[1..], noise, after, timeout, parse);
      case _ => NoiseChangesNothing(acc, before[1..], noise, after, timeout, parse);
    } else {
      assert long[0] == noise && long[1..] == after && short == after;
    }
  }

  // ---- first-token times ----

  datatype Kind = WordKind | ThoughtKind | ToolKind

  predicate IsKind(f: Frag, k: Kind) {
    match k
    case WordKind => f.Words?
    case ThoughtKind => f.Thought?
    case ToolKind => f.Tool?
  }

  function TimeOf(t: Timing, k: Kind): Option<real> {
    match k
    case WordKind => t.ttft
    case ThoughtKind => t.reasoning
    case ToolKind => t.tool
  }

  predicate HasKind(frags: seq<Frag>, k: Kind) {
    exists f <- frags :: IsKind(f, k)
  }

  /** When the first line carrying a fragment of this kind was read. */
  function FirstAt(lines: seq<Line>, parse: Parser, k: Kind): Option<real> {
    if lines == [] then None
    else match Classify(lines[0].0, parse)
      case End => None
      case Data(chunk) =>
        if HasKind(FragsOfChoices(chunk.choices), k) then Some(lines[0].1) else FirstAt(lines[1..], parse, k)
      case _ => FirstAt(lines[1..], parse, k)
  }

  function Stamp(t: Option<real>, frags: seq<Frag>, k: Kind, now: real): Option<real> {
    if t == None && HasKind(frags, k) then Some(now) else t
  }

  lemma {:induction false} PartsTime(acc: Acc, parts: seq<Part>, now: real, k: Kind)
    ensures TimeOf(TakeParts(acc, parts, now).timing, k) == Stamp(TimeOf(acc.timing, k), ToolFrags(parts), k, now)
    decreases parts
  {
    if parts != [] {
      var next := acc.(calls := MergeCall(acc.calls, parts[0]),
                       timing := acc.timing.(tool := Earliest(acc.timing.tool, now)));
      PartsTime(next, parts[1..], now, k);
      assert ToolFrags(parts)[0] == Tool(parts[0]);
      if k == ToolKind {
        assert ToolFrags(parts)[0] in ToolFrags(parts) && IsKind(ToolFrags(parts)[0], k);
      } else {
        ToolFragsAreTools(parts);
        ToolFragsAreTools(parts[1..]);
      }
    }
  }

  lemma {:induction false} ToolFragsAreTools(parts: seq<Part>)
    ensures forall f <- ToolFrags(parts) :: f.Tool?
  {
    if parts != [] {
      ToolFragsAreTools(parts[1..]);
    }
  }

  lemma StampConcat(t: Option<real>, a: seq<Frag>, b: seq<Frag>, k: Kind, now: real)
    ensures Stamp(t, a + b, k, now) == Stamp(Stamp(t, a, k, now), b, k, now)
  {
    assert HasKind(a + b, k) <==> HasKind(a, k) || HasKind(b, k) by {
      forall f | f in a ensures f in a + b {}
      forall f | f in b ensures f in a + b {}
    }
  }

  lemma ChoiceTime(acc: Acc, ch: Choice, now: real, k: Kind)
    ensures TimeOf(TakeChoice(acc, ch, now).timing, k) == Stamp(TimeOf(acc.timing, k), FragsOfChoice(ch), k, now)
  {
    var words := TakeWords(acc, ch, now);
    var think := Or(ch.reasoningContent, ch.reasoning);
    var said := if ch.content == "" then [] else [Words(ch.content)];
    var thought := if think == "" then [] else [Thought(think)];
    var t := TimeOf(acc.timing, k);
    assert TimeOf(words.timing, k) == Stamp(Stamp(t, said, k, now), thought, k, now) by {
      assert said != [] ==> said[0] in said;
      assert thought != [] ==> thought[0] in thought;
    }
    StampConcat(t, said, thought, k, now);
    StampConcat(t, said + thought, ToolFrags(ch.parts), k, now);
    PartsTime(words, ch.parts, now, k);
  }

  lemma {:induction false} ChoicesTime(acc: Acc, choices: seq<Choice>, now: real, k: Kind)
    ensures TimeOf(TakeChoices(acc, choices, now).timing, k)
         == Stamp(TimeOf(acc.timing, k), FragsOfChoices(choices), k, now)
    decreases choices
  {
    if choices != [] {
      ChoiceTime(acc, choices[0], now, k);
      ChoicesTime(TakeChoice(acc, choices[0], now), choices[1..], now, k);
      StampConcat(TimeOf(acc.timing, k), FragsOfChoice(choices[0]), FragsOfChoices(choices[1..]), k, now);
    }
  }

  lemma {:induction false} AfterTime(acc: Acc, lines: seq<Line>, parse: Parser, k: Kind)
    ensures TimeOf(After(acc, lines, parse).timing, k)
         == if TimeOf(acc.timing, k) != None then TimeOf(acc.timing, k) else FirstAt(lines, parse, k)
    decreases lines
  {
    if lines != [] {
      match Classify(lines[0].0, parse)
      case End =>
      case Data(chunk) =>
        ChoicesTime(TakeHead(acc, chunk), chunk.choices, lines[0].1, k);
        AfterTime(TakeChunk(acc, chunk, lines[0].1), lines[1..], parse, k);
      case _ => AfterTime(acc, lines[1..], parse, k);
    }
  }

  /** Each first-token time is when the first fragment of its kind was read, and absent if there was none. */
  lemma FirstTokenTimes(lines: seq<Line>, timeout: real, parse: Parser, k: Kind)
    requires Clean(lines, timeout, parse)
    ensures var out := Run(START, lines, timeout, parse);
            out.Assembled? && TimeOf(out.timing, k) == FirstAt(lines, parse, k)
  {
    AssembledExactlyWhenClean(START, lines, timeout, parse);
    AfterTime(START, lines, parse, k);
  }

  // ---- how the callers read the body ----

  datatype Reading = Answer(text: string) | BudgetSpent(reasoningChars: nat) | NoContent

  /** complete_full's reading of a message: blank content is an error, named for the reasoning beside it. */
  function ReadFull(m: Message): Reading {
    if m.content == None || Strip(m.content.value) == "" then
      var reasoning := m.reasoning.GetOr("");
      if reasoning != "" then BudgetSpent(|reasoning|) else NoContent
    else Answer(m.content.value)
  }

  function ReadChat(m: Message): string { m.content.GetOr("") }

  /** A non-streamed message saying `r`; a server may send empty text as null or as "". */
  predicate Says(m: Message, r: Reply) {
    && m.content.GetOr("") == r.content && m.reasoning.GetOr("") == r.reasoning
    && m.toolCalls == CallsInOrder(r.calls)
  }

  /** A caller cannot tell a streamed reply from the same reply sent whole. */
  lemma StreamedReadsAsWhole(r: Reply, lines: seq<Line>, timeout: real, parse: Parser, whole: Message)
    requires Clean(lines, timeout, parse)
    requires Emits(Unsent(r), FragsOfLines(lines, parse))
    requires Says(whole, r)
    ensures var out := Run(START, lines, timeout, parse);
            && out.Assembled?
            && ReadFull(out.body.message) == ReadFull(whole)
            && ReadChat(out.body.message) == ReadChat(whole)
            && out.body.message.toolCalls == whole.toolCalls
  {
    StreamedEqualsWhole(r, lines, timeout, parse);
    assert Strip("") == "";
  }
}

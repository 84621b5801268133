/**
 * harness/context.py: the context each GGUF is served at, from its header's
 * shape and the memory its KV cache may take, and the router preset written from it.
 */
module KvPlan {
  import opened Common
  import opened Text
  import Gguf
  import GgufLaws

  /** An attention head count as the header gives it; Null is an array too long to keep. */
  datatype Heads = Missing | Null | One(n: int) | PerLayer(heads: seq<int>)

  /** The architecture's own keys; a number the header does not give is 0, which the source treats alike. */
  datatype Shape = Shape(trained: int, blocks: int, kvHeads: Heads, qHeads: Heads, embd: int,
                         keyLength: int, valueLength: int, nextn: int, interval: int)

  datatype Why = NoShape | ShortTraining | NoRoom | Memory | Trained | SlotsNoShape | SlotsNoRoom | Slots | Unreadable
  datatype Choice = Choice(ctx: int, trained: int, perToken: int, why: Why)

  const FLOOR := 8192
  const STEP := 1024
  const EVAL_7B_STEM := "Qwen2.5-7B-Instruct-Q4_K_M"
  const EVAL_7B_SLOTS := 8
  const EVAL_7B_SLOT_CTX := 4096

  type Positive = x: int | x > 0 witness 1

  /** Bytes per cached element of each cache type, as (numerator, denominator). */
  const CACHE_BYTES: map<string, (nat, Positive)> :=
    map["f32" := (4, 1), "f16" := (2, 1), "bf16" := (2, 1), "q8_0" := (34, 32), "q5_1" := (24, 32),
        "q5_0" := (22, 32), "q4_1" := (20, 32), "q4_0" := (18, 32), "iq4_nl" := (18, 32)]

  /** Python's //, which rounds down whatever the signs. */
  function FloorDiv(a: int, b: int): int
    requires b != 0
  {
    if b > 0 then a / b else (-a) / (-b)
  }

  function Sum(xs: seq<int>): int {
    if xs == [] then 0 else xs[0] + Sum(xs[1..])
  }

  function Largest(xs: seq<int>): int
    requires xs != []
  {
    if |xs| == 1 then xs[0] else Max(xs[0], Largest(xs[1..]))
  }

  predicate Bears(heads: int) { heads != 0 }

  function TimesEach(each: int): int -> int { heads => heads * each }

  /** KV heads per KV-bearing layer. */
  function KvHeads(s: Shape): seq<int> {
    var heads := if s.kvHeads == Missing then s.qHeads else s.kvHeads;
    match heads
    case PerLayer(hs) => Filter(hs, Bears)
    case One(n) =>
      if n == 0 || s.blocks == 0 then []
      else
        var layers := s.blocks - s.nextn;
        var layers := if s.interval > 1 then FloorDiv(layers, s.interval) else layers;
        seq(Max(layers, 0), _ => n)
    case _ => []
  }

  /** head_count as one number; an empty list is the source's ValueError. */
  function QueryHeads(s: Shape): Option<int> {
    match s.qHeads
    case PerLayer(hs) => if hs == [] then None else Some(Largest(hs))
    case One(n) => Some(n)
    case _ => Some(0)
  }

  /** Elements one token caches over all layers, or None where the source raises. */
  function ElementsPerToken(s: Shape): Option<int> {
    match QueryHeads(s)
    case None => None
    case Some(q) =>
      var perHead := if s.embd != 0 && q != 0 then FloorDiv(s.embd, q) else 0;
      var k := if s.keyLength != 0 then s.keyLength else perHead;
      var v := if s.valueLength != 0 then s.valueLength else perHead;
      Some(Sum(Apply(KvHeads(s), TimesEach(k + v))))
  }

  /** Bytes one token costs, rounded down; None for an unreadable shape or an unknown cache type. */
  function BytesPerToken(s: Shape, cache: string): Option<int> {
    match ElementsPerToken(s)
    case None => None
    case Some(elements) =>
      if cache !in CACHE_BYTES then None
      else var (num, den) := CACHE_BYTES[cache]; Some(FloorDiv(elements * num, den))
  }

  function Room(budget: int, weights: int, cap: Option<int>): int {
    var room := Max(budget - weights, 0);
    if cap.Some? then Min(room, cap.value) else room
  }

  /** Tokens per slot that fit, in whole steps. */
  function FitsIn(room: int, per: int, slots: int): int
    requires per != 0
  {
    FloorDiv(room, per) / Max(slots, 1) / STEP * STEP
  }

  function Choose(full: int, per: int, weights: int, budget: int, slots: int, floor: int, cap: Option<int>): Choice {
    if full == 0 || per == 0 then Choice(0, full, per, NoShape)
    else
      var fits := FitsIn(Room(budget, weights, cap), per, slots);
      var whole := full / STEP * STEP;
      var ctx := Min(if whole != 0 then whole else full, fits);
      if ctx < floor then Choice(0, full, per, if full < floor then ShortTraining else NoRoom)
      else if ctx < full then Choice(ctx, full, per, Memory)
      else Choice(ctx, full, per, Trained)
  }

  function ChooseSlots(full: int, per: int, weights: int, budget: int, slots: int, slotCtx: int,
                       cap: Option<int>): Choice {
    var pool := slots * slotCtx;
    if per == 0 || full == 0 || slotCtx > full then Choice(0, full, per, SlotsNoShape)
    else if pool * per > Room(budget, weights, cap) then Choice(0, full, per, SlotsNoRoom)
    else Choice(pool, full, per, Slots)
  }

  // ---- plan and the preset ----

  /** What is at a row's path; Denied is an OSError. */
  datatype OnDisk = Absent | Denied | Present(bytes: Gguf.Bytes, weights: int)

  /** What is made of the metadata: a shape, an error plan catches, or one it does not. */
  datatype Reading = Shaped(shape: Shape) | Refused | Raises
  type Shaping = Gguf.Meta -> Reading

  /** What plan has of a file: nothing, a header it refuses, an exception it does not catch, or a shape. */
  datatype File = NoFile | Broken | Uncaught | Readable(shape: Shape, weights: int) {
    predicate Answers() { Broken? || Readable? }
  }

  function FileOf(d: OnDisk, shaping: Shaping): File {
    match d
    case Absent => NoFile
    case Denied => Broken
    case Present(bytes, weights) =>
      match Gguf.ReadMeta(bytes)
      case Err(e) => if e == Gguf.TooLong then Uncaught else Broken
      case Ok((meta, _)) =>
        match shaping(meta)
        case Shaped(shape) => Readable(shape, weights)
        case Refused => Broken
        case Raises => Uncaught
  }

  type Disk = string -> OnDisk

  function FilesOf(disk: Disk, shaping: Shaping): string -> File { (path: string) => FileOf(disk(path), shaping) }

  /** A live GGUF row of the downloads table, with the columns plan writes. */
  datatype Row = Row(path: string, stem: string, ctx: int, trained: int, perToken: int, slots: int,
                     why: Why, cap: int, beside: int)
  datatype Planned = Planned(stem: string, path: string, ctx: int, slots: int, why: Why)
  datatype Limits = Limits(budget: int, beside: int, slots: int, cache: string, cap: int)

  function SlotsFor(stem: string, l: Limits): int {
    if stem == EVAL_7B_STEM then EVAL_7B_SLOTS else l.slots
  }

  function ChoiceFor(stem: string, file: File, l: Limits): Choice
    requires file.Answers()
  {
    if file.Broken? then Choice(0, 0, 0, Unreadable)
    else
      match BytesPerToken(file.shape, l.cache)
      case None => Choice(0, 0, 0, Unreadable)
      case Some(per) =>
        if stem == EVAL_7B_STEM then
          ChooseSlots(file.shape.trained, per, file.weights, l.budget - l.beside, EVAL_7B_SLOTS, EVAL_7B_SLOT_CTX,
                      Some(l.cap))
        else
          Choose(file.shape.trained, per, file.weights, l.budget - l.beside, l.slots, FLOOR, Some(l.cap))
  }

  function PlannedRow(row: Row, file: File, l: Limits): Row {
    if !file.Answers() then row
    else
      var got := ChoiceFor(row.stem, file, l);
      row.(ctx := got.ctx, trained := got.trained, perToken := got.perToken, slots := SlotsFor(row.stem, l),
           why := got.why, cap := l.cap, beside := l.beside)
  }

  function PlannedList(rows: seq<Row>, files: string -> File, l: Limits): seq<Planned> {
    if rows == [] then []
    else
      var row, file := rows[0], files(rows[0].path);
      (if !file.Answers() then []
       else var got := ChoiceFor(row.stem, file, l);
            [Planned(row.stem, row.path, got.ctx, SlotsFor(row.stem, l), got.why)])
      + PlannedList(rows[1..], files, l)
  }

  /** Where the loop stops: at the first file that raises what it does not catch, or past the last row. */
  function StopsAt(rows: seq<Row>, files: string -> File): (k: nat)
    ensures k <= |rows| && (k < |rows| ==> files(rows[k].path).Uncaught?)
    ensures forall i :: 0 <= i < k ==> !files(rows[i].path).Uncaught?
  {
    if rows == [] || files(rows[0].path).Uncaught? then 0 else 1 + StopsAt(rows[1..], files)
  }

  lemma PlannedListStep(rows: seq<Row>, i: nat, files: string -> File, l: Limits)
    requires i < |rows|
    ensures var (row, file) := (rows[i], files(rows[i].path));
            PlannedList(rows[i..], files, l)
            == (if !file.Answers() then []
                else var got := ChoiceFor(row.stem, file, l);
                     [Planned(row.stem, row.path, got.ctx, SlotsFor(row.stem, l), got.why)])
               + PlannedList(rows[i + 1..], files, l)
  {
    hide ChoiceFor;
    assert rows[i..][0] == rows[i] && rows[i..][1..] == rows[i + 1..];
  }

  lemma PlannedOfNone(files: string -> File, l: Limits)
    ensures PlannedList([], files, l) == []
  {
  }

  class Downloads {
    var rows: seq<Row>   // as this connection sees them
    var saved: seq<Row>  // as committed

    constructor (rows: seq<Row>)
      ensures this.rows == rows && saved == rows
    {
      this.rows, saved := rows, rows;
    }

    /** read_meta through a file object, and what is made of the metadata. */
    method Look(d: OnDisk, shaping: Shaping) returns (file: File)
      ensures file == FileOf(d, shaping)
    {
      match d
      case Absent => return NoFile;
      case Denied => return Broken;
      case Present(bytes, weights) =>
        var reader := new Gguf.Reader(bytes);
        var meta := reader.Meta();
        if meta.Err? {
          return if meta.error == Gguf.TooLong then Uncaught else Broken;
        }
        match shaping(meta.value)
        case Shaped(shape) => return Readable(shape, weights);
        case Refused => return Broken;
        case Raises => return Uncaught;
    }

    /**
     * Choose and record the context of every live GGUF row whose file is there. A file that raises what is not caught
     * ends it early: the rows before it are written but not committed, and there is no plan.
     */
    method Plan(disk: Disk, shaping: Shaping, l: Limits) returns (out: Option<seq<Planned>>)
      modifies this
      ensures |rows| == |old(rows)|
      ensures var files := FilesOf(disk, shaping);
              forall i :: 0 <= i < |rows| ==>
                rows[i] == if i < StopsAt(old(rows), files) then PlannedRow(old(rows[i]), files(old(rows[i]).path), l)
                           else old(rows[i])
      ensures StopsAt(old(rows), FilesOf(disk, shaping)) < |old(rows)| ==> out == None && saved == old(saved)
      ensures StopsAt(old(rows), FilesOf(disk, shaping)) == |old(rows)| ==>
                out == Some(PlannedList(old(rows), FilesOf(disk, shaping), l)) && saved == rows
    {
      hide ChoiceFor, PlannedList, StopsAt, FileOf;
      ghost var files := FilesOf(disk, shaping);
      var plans: seq<Planned> := [];
      ghost var was := rows;
      var i := 0;
      while i < |rows|
        invariant 0 <= i <= |rows| == |was| && i <= StopsAt(was, files) && saved == old(saved)
        invariant forall j :: 0 <= j < i ==> rows[j] == PlannedRow(was[j], files(was[j].path), l)
        invariant forall j :: i <= j < |rows| ==> rows[j] == was[j]
        invariant plans + PlannedList(was[i..], files, l) == PlannedList(was, files, l)
      {
        var row := rows[i];
        var file := Look(disk(row.path), shaping);
        PlannedListStep(was, i, files, l);
        if file.Uncaught? {
          return None;
        }
        if !file.NoFile? {
          var got := ChoiceFor(row.stem, file, l);
          rows := rows[i := PlannedRow(row, file, l)];
          plans := plans + [Planned(row.stem, row.path, got.ctx, SlotsFor(row.stem, l), got.why)];
        }
        i := i + 1;
      }
      saved := rows;
      out := Some(plans);
      PlannedOfNone(files, l);
      assert was[i..] == [] && plans + [] == plans;
    }
  }

  // ---- exactly which files stop the plan ----

  /** Its header declares a string over the limit where the reader comes to it, or its metadata raises. */
  predicate Stops(d: OnDisk, shaping: Shaping) {
    d.Present? &&
    (Gguf.ReadMeta(d.bytes) == Err(Gguf.TooLong)
     || (Gguf.ReadMeta(d.bytes).Ok? && shaping(Gguf.ReadMeta(d.bytes).value.0).Raises?))
  }

  /** The plan stops, with nothing committed, exactly when some row's file is such a one. */
  lemma PlanStopsExactly(rows: seq<Row>, disk: Disk, shaping: Shaping)
    ensures StopsAt(rows, FilesOf(disk, shaping)) < |rows| <==> exists row <- rows :: Stops(disk(row.path), shaping)
  {
    var files := FilesOf(disk, shaping);
    var k := StopsAt(rows, files);
    hide StopsAt;
    forall row <- rows
      ensures files(row.path).Uncaught? <==> Stops(disk(row.path), shaping)
    {
      hide Gguf.ReadMeta;
    }
    if k < |rows| {
      assert rows[k] in rows;
    } else {
      forall row <- rows
        ensures !files(row.path).Uncaught?
      {
        var i :| 0 <= i < |rows| && rows[i] == row;
      }
    }
  }

  /** Where metadata never raises, such a file has eight bytes that declare the string. */
  lemma StoppingFileDeclaresIt(d: OnDisk, shaping: Shaping)
    requires Stops(d, shaping) && forall meta :: !shaping(meta).Raises?
    ensures GgufLaws.HasLongString(d.bytes)
  {
    hide Gguf.ReadMeta;
    GgufLaws.OverflowIsDeclared(d.bytes);
  }

  /** Thirty-two bytes that stop it: one pair declared, whose key is to be 2^63 bytes long. */
  lemma LongKeyStopsThePlan(disk: Disk, shaping: Shaping, row: Row, weights: int)
    requires disk(row.path) == Present(GgufLaws.Head(3, 0, 1, []) + GgufLaws.Little(0x8000_0000_0000_0000, 8), weights)
    ensures |disk(row.path).bytes| == 32
    ensures StopsAt([row], FilesOf(disk, shaping)) == 0
  {
    GgufLaws.HeadIs(3, 0, 1, []);
    GgufLaws.PairsUnfold([], map[]);
    GgufLaws.NextKeyOverflowsExactly(3, 0, 1, [], 0x8000_0000_0000_0000);
    hide Gguf.ReadMeta, GgufLaws.Head;
  }

  /** A stem's section of the preset: the pool llama-server allocates, its slots, and the cache type priced. */
  datatype Section = Section(stem: string, c: int, parallel: int, cache: string, unified: bool)

  function Sections(plans: seq<Planned>, cache: string): seq<Section> {
    if plans == [] then []
    else
      (if plans[0].ctx == 0 then []
       else [Section(plans[0].stem, plans[0].ctx, plans[0].slots, cache, plans[0].slots > 1)])
      + Sections(plans[1..], cache)
  }

  /** The servable stems' sections, in stem order. */
  function Preset(plans: seq<Planned>, cache: string): seq<Section> {
    Sections(SortBy(plans, (a: Planned, b: Planned) => Leq(a.stem, b.stem)), cache)
  }

  // ---- optimality ----

  lemma MulMonotone(x: int, y: int, z: int)
    requires x <= y && z >= 0
    ensures x * z <= y * z && z * x <= z * y
  {
  }

  lemma DivGalois(a: int, b: int, m: int)
    requires b > 0
    ensures m * b <= a <==> m <= a / b
  {
    assert a == b * (a / b) + a % b;
    if m <= a / b {
      assert m * b <= (a / b) * b;
    } else {
      assert m * b >= (a / b + 1) * b == (a / b) * b + b;
    }
  }

  /** A whole number of steps fits exactly when its KV for all slots is within the room. */
  lemma FitsGalois(room: int, per: int, slots: int, m: int)
    requires per > 0
    ensures m * STEP <= FitsIn(room, per, slots) <==> m * STEP * (Max(slots, 1) * per) <= room
  {
    var n := Max(slots, 1);
    var c := m * STEP;
    DivGalois(room, per, c * n);
    DivGalois(room / per, n, c);
    DivGalois(room / per / n, STEP, m);
    assert c * n * per == c * (n * per);
  }

  lemma StepsGalois(c: int, full: int)
    requires c % STEP == 0
    ensures c <= full <==> c <= full / STEP * STEP
  {
    DivGalois(full, STEP, c / STEP);
  }

  /** A context the caller could ask for: whole steps, trained for, and its KV for all slots within the room. */
  predicate Admissible(c: int, full: int, per: int, slots: int, room: int) {
    c % STEP == 0 && c <= full && c * (Max(slots, 1) * per) <= room
  }

  /** `choose` returns the largest admissible context, or 0 exactly when that is under the floor. */
  lemma ChooseIsLargest(full: int, per: int, weights: int, budget: int, slots: int, floor: int, cap: Option<int>)
    requires per > 0 && full >= STEP
    ensures var r := Choose(full, per, weights, budget, slots, floor, cap);
            var room := Room(budget, weights, cap);
            && (r.why in {Memory, Trained} ==> floor <= r.ctx && Admissible(r.ctx, full, per, slots, room))
            && (r.why !in {Memory, Trained} ==> r.ctx == 0)
            && (forall c :: Admissible(c, full, per, slots, room) && c >= floor
                            ==> r.why in {Memory, Trained} && c <= r.ctx)
  {
    var room := Room(budget, weights, cap);
    var fits, whole := FitsIn(room, per, slots), full / STEP * STEP;
    assert whole >= STEP;
    var ctx := Min(whole, fits);
    StepsGalois(ctx, full);
    FitsGalois(room, per, slots, ctx / STEP);
    forall c | Admissible(c, full, per, slots, room)
      ensures c <= ctx
    {
      StepsGalois(c, full);
      FitsGalois(room, per, slots, c / STEP);
      assert c / STEP * STEP == c;
    }
  }

  /**
   * A model trained for under 1024 tokens is the one case served at a length that is not whole steps: exactly
   * when its floor allows it and one whole step would have fitted.
   */
  lemma WholeStepsExactly(full: int, per: int, weights: int, budget: int, slots: int, floor: int, cap: Option<int>)
    requires per > 0 && full > 0
    ensures Choose(full, per, weights, budget, slots, floor, cap).ctx % STEP == 0
       <==> !(full < STEP && floor <= full && STEP * (Max(slots, 1) * per) <= Room(budget, weights, cap))
  {
    var room := Room(budget, weights, cap);
    FitsGalois(room, per, slots, 1);
    var fits := FitsIn(room, per, slots);
    if full < STEP && fits < STEP {
      assert fits <= 0;
    }
  }

  /** More `weights` or `slots` never lengthen a context; more `budget` or `cap` never shorten it. */
  lemma ChooseMonotone(full: int, per: int, floor: int,
                       weights: int, budget: int, slots: int, cap: Option<int>,
                       weights': int, budget': int, slots': int, cap': Option<int>)
    requires per > 0 && floor >= 0
    requires weights' <= weights && budget <= budget' && slots' <= slots
    requires cap' == None || (cap.Some? && cap.value <= cap'.value)
    ensures Choose(full, per, weights, budget, slots, floor, cap).ctx
         <= Choose(full, per, weights', budget', slots', floor, cap').ctx
  {
    hide CACHE_BYTES, FitsIn;
    var room, room' := Room(budget, weights, cap), Room(budget', weights', cap');
    if full != 0 {
      FitsMonotone(room, room', per, slots, slots');
    }
  }

  lemma FitsIsSteps(room: int, per: int, slots: int)
    requires per > 0
    ensures FitsIn(room, per, slots) == FitsIn(room, per, slots) / STEP * STEP
  {
    var x := FloorDiv(room, per) / Max(slots, 1) / STEP;
    assert x * STEP / STEP == x;
  }

  lemma CheaperFits(a: int, n: int, n': int, per: int)
    requires a >= 0 && 0 <= n' <= n && per > 0
    ensures a * (n' * per) <= a * (n * per)
  {
    MulMonotone(n', n, per);
    MulMonotone(n' * per, n * per, a);
  }

  lemma FitsMonotone(room: int, room': int, per: int, slots: int, slots': int)
    requires per > 0 && room <= room' && slots' <= slots
    ensures FitsIn(room, per, slots) <= FitsIn(room', per, slots') || FitsIn(room, per, slots) < 0
  {
    var a := FitsIn(room, per, slots);
    FitsIsSteps(room, per, slots);
    FitsGalois(room, per, slots, a / STEP);
    FitsGalois(room', per, slots', a / STEP);
    hide FitsIn;
    if a >= 0 {
      CheaperFits(a, Max(slots, 1), Max(slots', 1), per);
    }
  }

  // ---- safety of what the router is told ----

  lemma {:induction false} SectionComesFrom(plans: seq<Planned>, cache: string, s: Section)
    requires s in Sections(plans, cache)
    ensures s.cache == cache
    ensures exists p :: p in plans && p.ctx == s.c && p.stem == s.stem && p.ctx != 0
  {
    if s in Sections(plans[1..], cache) {
      SectionComesFrom(plans[1..], cache, s);
      var p :| p in plans[1..] && p.ctx == s.c && p.stem == s.stem && p.ctx != 0;
      assert p in plans;
    } else {
      assert plans[0] in plans;
    }
  }

  lemma {:induction false} PlannedComesFrom(rows: seq<Row>, files: string -> File, l: Limits, p: Planned)
    requires p in PlannedList(rows, files, l)
    ensures exists row :: row in rows && files(row.path).Answers() && row.stem == p.stem
                          && p.ctx == ChoiceFor(row.stem, files(row.path), l).ctx
  {
    if p in PlannedList(rows[1..], files, l) {
      PlannedComesFrom(rows[1..], files, l, p);
      var row :| row in rows[1..] && files(row.path).Answers() && row.stem == p.stem
                 && p.ctx == ChoiceFor(row.stem, files(row.path), l).ctx;
      assert row in rows;
    } else {
      assert rows[0] in rows;
    }
  }

  /** Whatever the header says, a chosen context's planned KV fits the room. */
  lemma ChosenFits(stem: string, file: File, l: Limits)
    requires file.Readable? && l.cap >= 0
    requires ChoiceFor(stem, file, l).ctx != 0
    ensures var per := BytesPerToken(file.shape, l.cache);
            && per.Some?
            && ChoiceFor(stem, file, l).ctx * per.value <= Room(l.budget - l.beside, file.weights, Some(l.cap))
  {
    hide CACHE_BYTES, BytesPerToken, FitsIn;
    var per := BytesPerToken(file.shape, l.cache).value;
    var room := Room(l.budget - l.beside, file.weights, Some(l.cap));
    if stem != EVAL_7B_STEM {
      var ctx := ChoiceFor(stem, file, l).ctx;
      if per > 0 {
        OneSlotFits(room, per, l.slots, ctx);
      } else {
        NoRoomForANegativeShape(room, per, l.slots);
        assert false;
      }
    }
  }

  lemma OneSlotFits(room: int, per: int, slots: int, ctx: int)
    requires per > 0 && 0 <= ctx <= FitsIn(room, per, slots)
    ensures ctx * per <= room
  {
    var fits, n := FitsIn(room, per, slots), Max(slots, 1);
    FitsGalois(room, per, slots, fits / STEP);
    MulMonotone(1, n, per);
    MulMonotone(per, n * per, fits);
    MulMonotone(ctx, fits, per);
  }

  lemma NoRoomForANegativeShape(room: int, per: int, slots: int)
    requires per < 0 <= room
    ensures FitsIn(room, per, slots) <= 0
  {
    assert FloorDiv(room, per) <= 0;
  }

  /** The bytes a served context costs at the cache type's own rate, as a fraction over the type's denominator. */
  function TrueCost(ctx: int, elements: int, num: nat): int { ctx * (elements * num) }

  /**
   * Every stem's section in the preset written from the plan allocates KV that fits beside its own weights and
   * under the cap, at the cache type it names; its true cost is under one byte a token more than was planned.
   */
  lemma PresetFits(rows: seq<Row>, files: string -> File, l: Limits, s: Section)
    requires l.cap >= 0
    requires s in Preset(PlannedList(rows, files, l), l.cache)
    ensures exists row :: row in rows && row.stem == s.stem && SectionFits(s, files(row.path), l)
  {
    hide ChoiceFor, SectionFits, PlannedList, Sections, SortBy;
    var plans := PlannedList(rows, files, l);
    var leq := (a: Planned, b: Planned) => Leq(a.stem, b.stem);
    SectionComesFrom(SortBy(plans, leq), l.cache, s);
    var p :| p in SortBy(plans, leq) && p.ctx == s.c && p.stem == s.stem && p.ctx != 0;
    SortByMembers(plans, leq);
    PlannedComesFrom(rows, files, l, p);
    var row :| row in rows && files(row.path).Answers() && row.stem == p.stem
               && p.ctx == ChoiceFor(row.stem, files(row.path), l).ctx;
    ChosenSectionFits(files(row.path), l, s);
  }

  lemma ChosenSectionFits(file: File, l: Limits, s: Section)
    requires l.cap >= 0 && file.Answers()
    requires s.c == ChoiceFor(s.stem, file, l).ctx != 0 && s.cache == l.cache
    ensures SectionFits(s, file, l)
  {
    hide ChoiceFor, ElementsPerToken;
    BrokenIsRefused(s.stem, file, l);
    ChosenFits(s.stem, file, l);
    ServedIsPositive(s.stem, file, l);
    RoundingIsUnderAByte(s, file, l);
  }

  lemma BrokenIsRefused(stem: string, file: File, l: Limits)
    requires file.Answers() && ChoiceFor(stem, file, l).ctx != 0
    ensures file.Readable?
  {
  }

  ghost predicate SectionFits(s: Section, file: File, l: Limits) {
    && file.Readable? && s.cache == l.cache && s.cache in CACHE_BYTES
    && ElementsPerToken(file.shape).Some? && BytesPerToken(file.shape, s.cache).Some?
    && var per := BytesPerToken(file.shape, s.cache).value;
    && var (num, den) := CACHE_BYTES[s.cache];
    && s.c > 0
    && s.c * per <= Room(l.budget - l.beside, file.weights, Some(l.cap))
    && s.c * per * den <= TrueCost(s.c, ElementsPerToken(file.shape).value, num) < (s.c * per + s.c) * den
  }

  lemma ServedIsPositive(stem: string, file: File, l: Limits)
    requires file.Answers() && ChoiceFor(stem, file, l).ctx != 0
    ensures ChoiceFor(stem, file, l).ctx > 0
  {
    hide CACHE_BYTES, BytesPerToken, FitsIn;
    if file.Readable? && stem == EVAL_7B_STEM {
      assert EVAL_7B_SLOTS * EVAL_7B_SLOT_CTX == 32768;
    }
  }

  lemma RoundingIsUnderAByte(s: Section, file: File, l: Limits)
    requires file.Readable? && s.c > 0 && BytesPerToken(file.shape, l.cache).Some?
    ensures var per := BytesPerToken(file.shape, l.cache).value;
            var (num, den) := CACHE_BYTES[l.cache];
            s.c * per * den <= TrueCost(s.c, ElementsPerToken(file.shape).value, num) < (s.c * per + s.c) * den
  {
    hide CACHE_BYTES, ElementsPerToken;
    var (num, den) := CACHE_BYTES[l.cache];
    DivisionRounds(s.c, ElementsPerToken(file.shape).value * num, den);
  }

  lemma DivisionRounds(c: int, whole: int, den: int)
    requires c > 0 && den > 0
    ensures c * (whole / den) * den <= c * whole < (c * (whole / den) + c) * den
  {
    var per := whole / den;
    assert whole == per * den + whole % den;
    MulMonotone(per * den, whole, c);
    assert c * whole == c * (per * den) + c * (whole % den);
    MulMonotone(whole % den + 1, den, c);
    assert c * (per * den) == c * per * den;
    assert (c * per + c) * den == c * per * den + c * den;
  }
}

/**
 * harness/context.py: the GGUF header reader, over the file's bytes and a
 * cursor that a seek may move past the end. Strings are kept as bytes.
 */
module Gguf {
  import opened Common

  type Byte = x: int | 0 <= x < 256
  type Bytes = seq<Byte>

  /** What the reader returns: Python's int, float (by its bits), bool, str, list and None. */
  datatype Value =
    Int(n: int) | Float(bits: nat) | Bool(b: bool) | Str(bytes: Bytes) | List(items: seq<Value>) | Dropped

  /** TooLong is read's OverflowError; FarSeek is what seek raises, a ValueError or an OSError. */
  datatype Error = Truncated | TooLong | FarSeek | UnknownKind | NotGguf | OldVersion

  const STRING := 8
  const ARRAY := 9
  const KEEP_ARRAY := 4096
  /** The largest count read() and seek() take; a larger one raises before touching the file. */
  const MAX_OFFSET := 0x7FFF_FFFF_FFFF_FFFF
  const MAGIC: Bytes := [0x47, 0x47, 0x55, 0x46]

  function ScalarSize(kind: int): nat {
    if kind in {0, 1, 7} then 1
    else if kind in {2, 3} then 2
    else if kind in {4, 5, 6} then 4
    else if kind in {10, 11, 12} then 8
    else 0
  }

  predicate IsScalar(kind: int) { ScalarSize(kind) > 0 }

  function Pow256(n: nat): nat {
    if n == 0 then 1 else 256 * Pow256(n - 1)
  }

  /** One more than the largest unsigned integer of a width. */
  function Top(size: nat): nat {
    if size == 1 then 0x100
    else if size == 2 then 0x1_0000
    else if size == 4 then 0x1_0000_0000
    else if size == 8 then 0x1_0000_0000_0000_0000
    else 0
  }

  predicate IsWidth(size: nat) { size in {1, 2, 4, 8} }

  lemma TopIsPower(size: nat)
    requires IsWidth(size)
    ensures Top(size) == Pow256(size)
  {
    assert Pow256(1) == 0x100 && Pow256(2) == 0x1_0000 && Pow256(3) == 0x100_0000;
    assert Pow256(4) == 0x1_0000_0000;
    assert Pow256(5) == 0x100_0000_0000 && Pow256(6) == 0x1_0000_0000_0000 && Pow256(7) == 0x100_0000_0000_0000;
  }

  function FromLittle(bytes: Bytes): (n: nat) {
    if bytes == [] then 0 else bytes[0] + 256 * FromLittle(bytes[1..])
  }

  /** struct.unpack of one scalar: two's complement for the signed kinds, any non-zero byte for True. */
  function DecodeScalar(kind: int, raw: nat): Value
    requires IsScalar(kind)
  {
    var size := ScalarSize(kind);
    if kind == 7 then Bool(raw != 0)
    else if kind in {6, 12} then Float(raw)
    else if kind in {1, 3, 5, 11} && 2 * raw >= Top(size) then Int(raw - Top(size))
    else Int(raw)
  }

  // ---- the reader as functions of the bytes and the cursor ----

  type Step<T> = Result<(T, nat), Error>

  /** The bytes a read of `n` returns: fewer when the file ends first, none past its end. */
  function Take(f: Bytes, pos: nat, n: nat): (got: Bytes)
    ensures |got| <= n
    ensures |got| == Min(n, Max(|f| - pos, 0))
  {
    if pos >= |f| then [] else f[pos..Min(pos + n, |f|)]
  }

  function ReadUInt(f: Bytes, pos: nat, size: nat): (r: Step<nat>)
    requires IsWidth(size)
    ensures r.Ok? ==> pos + size == r.value.1 <= |f|
  {
    var raw := Take(f, pos, size);
    if |raw| != size then Err(Truncated) else Ok((FromLittle(raw), pos + size))
  }

  function ReadString(f: Bytes, pos: nat): (r: Step<Bytes>)
    ensures r.Ok? ==> pos + 8 <= r.value.1 <= |f|
  {
    match ReadUInt(f, pos, 8)
    case Err(e) => Err(e)
    case Ok((n, at)) =>
      if n > MAX_OFFSET then Err(TooLong)
      else var got := Take(f, at, n); Ok((got, at + |got|))
  }

  /** What is left of the file, the measure every value read shrinks. */
  function Left(f: Bytes, pos: nat): nat { Max(|f| - pos, 0) }

  function ReadValue(f: Bytes, pos: nat, kind: int): (r: Step<Value>)
    ensures r.Ok? ==> pos < |f| && pos < r.value.1
    decreases Left(f, pos), 0, 1
  {
    if IsScalar(kind) then
      match ReadUInt(f, pos, ScalarSize(kind))
      case Err(e) => Err(e)
      case Ok((raw, at)) => Ok((DecodeScalar(kind, raw), at))
    else if kind == STRING then
      match ReadString(f, pos)
      case Err(e) => Err(e)
      case Ok((s, at)) => Ok((Str(s), at))
    else if kind == ARRAY then ReadArray(f, pos)
    else Err(UnknownKind)
  }

  function ReadArray(f: Bytes, pos: nat): (r: Step<Value>)
    ensures r.Ok? ==> pos < |f| && pos < r.value.1
    decreases Left(f, pos), 0, 0
  {
    match ReadUInt(f, pos, 4)
    case Err(e) => Err(e)
    case Ok((inner, p1)) =>
      match ReadUInt(f, p1, 8)
      case Err(e) => Err(e)
      case Ok((count, p2)) =>
        if count > KEEP_ARRAY && IsScalar(inner) then
          var to := p2 + count * ScalarSize(inner);
          if to > MAX_OFFSET then Err(FarSeek) else Ok((Dropped, to))
        else
          match ReadMany(f, p2, inner, count)
          case Err(e) => Err(e)
          case Ok((items, p3)) => Ok((if count > KEEP_ARRAY then Dropped else List(items), p3))
  }

  function ReadMany(f: Bytes, pos: nat, kind: int, count: nat): (r: Step<seq<Value>>)
    ensures r.Ok? ==> pos <= r.value.1 && |r.value.0| == count && count <= Left(f, pos)
    decreases Left(f, pos), 1, count
  {
    if count == 0 then Ok(([], pos))
    else
      match ReadValue(f, pos, kind)
      case Err(e) => Err(e)
      case Ok((v, at)) =>
        match ReadMany(f, at, kind, count - 1)
        case Err(e) => Err(e)
        case Ok((vs, end)) => Ok(([v] + vs, end))
  }

  type Meta = map<Bytes, Value>

  function ReadPairs(f: Bytes, pos: nat, count: nat, meta: Meta): (r: Step<Meta>)
    ensures r.Ok? ==> pos <= r.value.1 && count <= Left(f, pos)
    decreases count
  {
    if count == 0 then Ok((meta, pos))
    else
      match ReadString(f, pos)
      case Err(e) => Err(e)
      case Ok((key, p1)) =>
        match ReadUInt(f, p1, 4)
        case Err(e) => Err(e)
        case Ok((kind, p2)) =>
          match ReadValue(f, p2, kind)
          case Err(e) => Err(e)
          case Ok((v, p3)) => ReadPairs(f, p3, count - 1, meta[key := v])
  }

  function ReadMeta(f: Bytes): Step<Meta> {
    if Take(f, 0, 4) != MAGIC then Err(NotGguf)
    else
      match ReadUInt(f, 4, 4)
      case Err(e) => Err(e)
      case Ok((version, p1)) =>
        if version < 2 then Err(OldVersion)
        else
          match ReadUInt(f, p1, 8)
          case Err(e) => Err(e)
          case Ok((_, p2)) =>
            match ReadUInt(f, p2, 8)
            case Err(e) => Err(e)
            case Ok((count, p3)) => ReadPairs(f, p3, count, map[])
  }

  // ---- one step of each loop ----

  lemma ReadManyNil(f: Bytes, pos: nat, kind: int)
    ensures ReadMany(f, pos, kind, 0) == Ok(([], pos))
  {
  }

  lemma ReadManyCons(f: Bytes, pos: nat, kind: int, count: nat, v: Value, at: nat, vs: seq<Value>, end: nat)
    requires count > 0 && ReadValue(f, pos, kind) == Ok((v, at)) && ReadMany(f, at, kind, count - 1) == Ok((vs, end))
    ensures ReadMany(f, pos, kind, count) == Ok(([v] + vs, end))
  {
  }

  lemma ReadPairsNil(f: Bytes, pos: nat, meta: Meta)
    ensures ReadPairs(f, pos, 0, meta) == Ok((meta, pos))
  {
  }

  lemma ReadPairsCons(f: Bytes, pos: nat, count: nat, meta: Meta, key: Bytes, kind: nat, v: Value, p1: nat, p3: nat)
    requires count > 0 && ReadString(f, pos) == Ok((key, p1)) && ReadUInt(f, p1, 4) == Ok((kind, p1 + 4))
    requires ReadValue(f, p1 + 4, kind) == Ok((v, p3))
    ensures ReadPairs(f, pos, count, meta) == ReadPairs(f, p3, count - 1, meta[key := v])
  {
  }

  // ---- the reader as the source runs it: one file object, one moving cursor ----

  class Reader {
    const f: Bytes
    var pos: nat

    constructor (f: Bytes)
      ensures this.f == f && pos == 0
    {
      this.f := f;
      pos := 0;
    }

    method Read(n: nat) returns (got: Bytes)
      modifies this
      ensures got == Take(f, old(pos), n) && pos == old(pos) + |got|
    {
      got := Take(f, pos, n);
      pos := pos + |got|;
    }

    method UInt(size: nat) returns (r: Result<nat, Error>)
      requires IsWidth(size)
      modifies this
      ensures r.Err? ==> ReadUInt(f, old(pos), size) == Err(r.error)
      ensures r.Ok? ==> ReadUInt(f, old(pos), size) == Ok((r.value, pos))
    {
      var raw := Read(size);
      r := if |raw| != size then Err(Truncated) else Ok(FromLittle(raw));
    }

    method String() returns (r: Result<Bytes, Error>)
      modifies this
      ensures r.Err? ==> ReadString(f, old(pos)) == Err(r.error)
      ensures r.Ok? ==> ReadString(f, old(pos)) == Ok((r.value, pos))
    {
      var n := UInt(8);
      if n.Err? {
        return Err(n.error);
      }
      if n.value > MAX_OFFSET {
        return Err(TooLong);
      }
      var got := Read(n.value);
      r := Ok(got);
    }

    method Value(kind: int) returns (r: Result<Value, Error>)
      modifies this
      ensures r.Err? ==> ReadValue(f, old(pos), kind) == Err(r.error)
      ensures r.Ok? ==> ReadValue(f, old(pos), kind) == Ok((r.value, pos))
      decreases Left(f, pos), 0, 1
    {
      if IsScalar(kind) {
        var raw := UInt(ScalarSize(kind));
        return if raw.Err? then Err(raw.error) else Ok(DecodeScalar(kind, raw.value));
      }
      if kind == STRING {
        var s := String();
        return if s.Err? then Err(s.error) else Ok(Str(s.value));
      }
      if kind == ARRAY {
        r := Array();
      } else {
        r := Err(UnknownKind);
      }
    }

    method Array() returns (r: Result<Value, Error>)
      modifies this
      ensures r.Err? ==> ReadArray(f, old(pos)) == Err(r.error)
      ensures r.Ok? ==> ReadArray(f, old(pos)) == Ok((r.value, pos))
      decreases Left(f, pos), 0, 0
    {
      var inner := UInt(4);
      if inner.Err? {
        return Err(inner.error);
      }
      var count := UInt(8);
      if count.Err? {
        return Err(count.error);
      }
      if count.value > KEEP_ARRAY && IsScalar(inner.value) {
        var to := pos + count.value * ScalarSize(inner.value);
        if to > MAX_OFFSET {
          return Err(FarSeek);
        }
        pos := to;
        return Ok(Dropped);
      }
      var items := Elements(inner.value, count.value);
      r := if items.Err? then Err(items.error)
           else if count.value > KEEP_ARRAY then Ok(Dropped) else Ok(List(items.value));
    }

    /** The element loop; a long array's elements are read past and not kept. */
    method Elements(kind: int, count: nat) returns (r: Result<seq<Value>, Error>)
      modifies this
      ensures r.Err? ==> ReadMany(f, old(pos), kind, count) == Err(r.error)
      ensures r.Ok? ==> var spec := ReadMany(f, old(pos), kind, count);
                        && spec.Ok? && spec.value.1 == pos
                        && (count <= KEEP_ARRAY ==> spec.value.0 == r.value)
      decreases Left(f, pos), 1, 0
    {
      ghost var start := pos;
      var items: seq<Value> := [];
      var i := 0;
      while i < count
        invariant 0 <= i <= count
        invariant start <= pos
        invariant Resumes(f, start, pos, kind, count, i, items)
        decreases count - i
      {
        ghost var at := pos;
        var v := Value(kind);
        if v.Err? {
          return Err(v.error);
        }
        ResumeNext(f, start, at, kind, count, i, items);
        if count <= KEEP_ARRAY {
          items := items + [v.value];
        }
        i := i + 1;
      }
      r := Ok(items);
    }

    method Meta() returns (r: Result<Meta, Error>)
      requires pos == 0
      modifies this
      ensures r.Err? ==> ReadMeta(f) == Err(r.error)
      ensures r.Ok? ==> ReadMeta(f) == Ok((r.value, pos))
    {
      var magic := Read(4);
      if magic != MAGIC {
        return Err(NotGguf);
      }
      var version := UInt(4);
      if version.Err? {
        return Err(version.error);
      }
      if version.value < 2 {
        return Err(OldVersion);
      }
      var tensors := UInt(8);
      if tensors.Err? {
        return Err(tensors.error);
      }
      var count := UInt(8);
      if count.Err? {
        return Err(count.error);
      }
      r := Pairs(count.value);
    }

    /** The key/value loop. */
    method Pairs(count: nat) returns (r: Result<Meta, Error>)
      modifies this
      ensures r.Err? ==> ReadPairs(f, old(pos), count, map[]) == Err(r.error)
      ensures r.Ok? ==> ReadPairs(f, old(pos), count, map[]) == Ok((r.value, pos))
    {
      hide ReadUInt, ReadString, ReadValue;
      ghost var start := pos;
      var meta: Meta := map[];
      var i := 0;
      while i < count
        invariant 0 <= i <= count
        invariant ReadPairs(f, start, count, map[]) == ReadPairs(f, pos, count - i, meta)
      {
        ghost var at := pos;
        var key := String();
        if key.Err? {
          return Err(key.error);
        }
        ghost var p1 := pos;
        var kind := UInt(4);
        if kind.Err? {
          return Err(kind.error);
        }
        var v := Value(kind.value);
        if v.Err? {
          return Err(v.error);
        }
        ReadPairsCons(f, at, count - i, meta, key.value, kind.value, v.value, p1, pos);
        meta := meta[key.value := v.value];
        i := i + 1;
      }
      r := Ok(meta);
    }
  }

  /** After `i` elements the whole read is what is held so far followed by the rest of it. */
  ghost predicate Resumes(f: Bytes, start: nat, pos: nat, kind: int, count: nat, i: nat, items: seq<Value>)
    requires i <= count
  {
    match ReadMany(f, pos, kind, count - i)
    case Err(e) => ReadMany(f, start, kind, count) == Err(e)
    case Ok((vs, end)) =>
      && ReadMany(f, start, kind, count).Ok?
      && ReadMany(f, start, kind, count).value.1 == end
      && (count <= KEEP_ARRAY ==> ReadMany(f, start, kind, count).value.0 == items + vs)
  }

  lemma ResumeNext(f: Bytes, start: nat, pos: nat, kind: int, count: nat, i: nat, items: seq<Value>)
    requires i < count && Resumes(f, start, pos, kind, count, i, items)
    requires ReadValue(f, pos, kind).Ok?
    ensures var (v, next) := ReadValue(f, pos, kind).value;
            && Resumes(f, start, next, kind, count, i + 1, items + [v])
            && (count > KEEP_ARRAY ==> Resumes(f, start, next, kind, count, i + 1, items))
  {
    var (v, next) := ReadValue(f, pos, kind).value;
    var rest := ReadMany(f, next, kind, count - i - 1);
    if rest.Ok? {
      assert items + ([v] + rest.value.0) == (items + [v]) + rest.value.0;
    }
  }
}

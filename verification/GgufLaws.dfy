/**
 * The GGUF writer ("File Structure" in ggml docs/gguf.md), the reader's round
 * trip through it, and how much reading a header can cause.
 */
module GgufLaws {
  import opened Common
  import opened Gguf

  // ---- the writer ----

  datatype Stored = Scalar(kind: nat, value: Value) | Text(bytes: Bytes) | Array(inner: nat, items: seq<Stored>)

  function KindOf(v: Stored): nat {
    match v
    case Scalar(kind, _) => kind
    case Text(_) => STRING
    case Array(_, _) => ARRAY
  }

  /** A Python value the scalar kind can hold. */
  predicate Fits(kind: int, v: Value) {
    IsScalar(kind) &&
    var top: int := Top(ScalarSize(kind));
    match v
    case Int(n) => if kind in {1, 3, 5, 11} then -top <= 2 * n < top else kind in {0, 2, 4, 10} && 0 <= n < top
    case Float(bits) => kind in {6, 12} && bits < top
    case Bool(_) => kind == 7
    case _ => false
  }

  predicate WellFormed(v: Stored) {
    match v
    case Scalar(kind, x) => Fits(kind, x)
    case Text(bytes) => |bytes| <= MAX_OFFSET
    case Array(inner, items) =>
      && inner < Top(4) && |items| < Top(8)
      && forall item <- items :: KindOf(item) == inner && WellFormed(item)
  }

  function Little(n: nat, size: nat): (b: Bytes)
    ensures |b| == size
  {
    if size == 0 then [] else [n % 256] + Little(n / 256, size - 1)
  }

  function RawOf(kind: int, v: Value): nat
    requires Fits(kind, v)
  {
    match v
    case Int(n) => if n < 0 then n + Top(ScalarSize(kind)) else n
    case Float(bits) => bits
    case Bool(b) => if b then 1 else 0
  }

  function Encode(v: Stored): Bytes
    requires WellFormed(v)
    decreases v, 1
  {
    match v
    case Scalar(kind, x) => Little(RawOf(kind, x), ScalarSize(kind))
    case Text(bytes) => Little(|bytes|, 8) + bytes
    case Array(inner, items) => Little(inner, 4) + Little(|items|, 8) + EncodeAll(items)
  }

  function EncodeAll(items: seq<Stored>): Bytes
    requires forall item <- items :: WellFormed(item)
    decreases items, 0
  {
    if items == [] then [] else Encode(items[0]) + EncodeAll(items[1..])
  }

  /** What survives the read: the value, with None for every array over 4096 elements. */
  function Kept(v: Stored): Value {
    match v
    case Scalar(_, x) => x
    case Text(bytes) => Str(bytes)
    case Array(_, items) =>
      if |items| > KEEP_ARRAY then Dropped
      else List(seq(|items|, i requires 0 <= i < |items| => Kept(items[i])))
  }

  type Pairs = seq<(Bytes, Stored)>

  predicate WellFormedPairs(pairs: Pairs) {
    |pairs| < Top(8) && forall p <- pairs :: |p.0| <= MAX_OFFSET && WellFormed(p.1)
  }

  function EncodePairs(pairs: Pairs): Bytes
    requires forall p <- pairs :: WellFormed(p.1)
  {
    if pairs == [] then []
    else
      assert pairs[0] in pairs;
      Little(|pairs[0].0|, 8) + pairs[0].0 + Little(KindOf(pairs[0].1), 4) + Encode(pairs[0].1)
      + EncodePairs(pairs[1..])
  }

  /** A header as far as these pairs, declaring `count` of them. */
  function Head(version: nat, tensors: nat, count: nat, pairs: Pairs): Bytes
    requires WellFormedPairs(pairs) && count < Top(8)
  {
    MAGIC + Little(version, 4) + Little(tensors, 8) + Little(count, 8) + EncodePairs(pairs)
  }

  function Header(version: nat, tensors: nat, pairs: Pairs): Bytes
    requires WellFormedPairs(pairs)
  {
    Head(version, tensors, |pairs|, pairs)
  }

  /** `pairs` read into a dict: a later pair of the same key wins. */
  function KeptMeta(pairs: Pairs, meta: Meta): Meta
    decreases pairs
  {
    if pairs == [] then meta else KeptMeta(pairs[1..], meta[pairs[0].0 := Kept(pairs[0].1)])
  }

  // ---- reading back what was written ----

  predicate At(f: Bytes, pos: nat, b: Bytes) {
    pos + |b| <= |f| && f[pos..pos + |b|] == b
  }

  lemma AtSplit(f: Bytes, pos: nat, a: Bytes, b: Bytes)
    requires At(f, pos, a + b)
    ensures At(f, pos, a) && At(f, pos + |a|, b)
  {
    assert f[pos..pos + |a|] == f[pos..pos + |a + b|][..|a|] == a;
    assert f[pos + |a|..pos + |a| + |b|] == f[pos..pos + |a + b|][|a|..] == b;
  }

  lemma {:induction false} LittleRoundTrip(n: nat, size: nat)
    requires n < Pow256(size)
    ensures FromLittle(Little(n, size)) == n
  {
    if size > 0 {
      LittleRoundTrip(n / 256, size - 1);
      assert Little(n, size)[1..] == Little(n / 256, size - 1);
    }
  }

  lemma ReadsLittle(f: Bytes, pos: nat, n: nat, size: nat)
    requires IsWidth(size) && n < Top(size) && At(f, pos, Little(n, size))
    ensures ReadUInt(f, pos, size) == Ok((n, pos + size))
  {
    TopIsPower(size);
    LittleRoundTrip(n, size);
    hide Little, FromLittle, Pow256;
    assert Take(f, pos, size) == f[pos..pos + size];
  }

  lemma ScalarRoundTrip(kind: int, v: Value)
    requires Fits(kind, v)
    ensures RawOf(kind, v) < Top(ScalarSize(kind))
    ensures DecodeScalar(kind, RawOf(kind, v)) == v
  {
  }

  lemma ReadsText(f: Bytes, pos: nat, bytes: Bytes)
    requires |bytes| <= MAX_OFFSET && At(f, pos, Little(|bytes|, 8) + bytes)
    ensures ReadString(f, pos) == Ok((bytes, pos + 8 + |bytes|))
  {
    hide *;
    Widths(|bytes|);
    AtSplit(f, pos, Little(|bytes|, 8), bytes);
    ReadsLittle(f, pos, |bytes|, 8);
    TakesAt(f, pos + 8, bytes);
    ReadStringTakes(f, pos, |bytes|, pos + 8);
  }

  lemma Widths(n: nat)
    ensures IsWidth(4) && IsWidth(8)
    ensures n <= MAX_OFFSET ==> n < Top(8)
  {
  }

  lemma ReadStringTakes(f: Bytes, pos: nat, n: nat, at: nat)
    requires n <= MAX_OFFSET && ReadUInt(f, pos, 8) == Ok((n, at))
    ensures ReadString(f, pos) == Ok((Take(f, at, n), at + |Take(f, at, n)|))
  {
  }

  lemma TakesAt(f: Bytes, pos: nat, b: Bytes)
    requires At(f, pos, b)
    ensures Take(f, pos, |b|) == b
  {
  }

  lemma {:induction false} ScalarsLength(items: seq<Stored>, kind: int)
    requires IsScalar(kind)
    requires forall item <- items :: WellFormed(item) && KindOf(item) == kind
    ensures |EncodeAll(items)| == |items| * ScalarSize(kind)
    decreases items
  {
    if items != [] {
      assert items[0] in items && items[0].Scalar?;
      ScalarsLength(items[1..], kind);
    }
  }

  function KeptAll(items: seq<Stored>): (vs: seq<Value>)
    ensures |vs| == |items| && forall i :: 0 <= i < |items| ==> vs[i] == Kept(items[i])
  {
    if items == [] then [] else [Kept(items[0])] + KeptAll(items[1..])
  }

  /** What an encoding is, kind by kind. */
  lemma EncodingIs(v: Stored)
    requires WellFormed(v)
    ensures v.Scalar? ==> Fits(v.kind, v.value) && KindOf(v) == v.kind && Kept(v) == v.value
                          && Encode(v) == Little(RawOf(v.kind, v.value), ScalarSize(v.kind))
    ensures v.Text? ==> |v.bytes| <= MAX_OFFSET && KindOf(v) == STRING && Kept(v) == Str(v.bytes)
                        && Encode(v) == Little(|v.bytes|, 8) + v.bytes
    ensures v.Array? ==> KindOf(v) == ARRAY
  {
    hide Little, RawOf;
  }

  lemma TextIsRead(f: Bytes, pos: nat, bytes: Bytes)
    requires |bytes| <= MAX_OFFSET && At(f, pos, Little(|bytes|, 8) + bytes)
    ensures ReadValue(f, pos, STRING) == Ok((Str(bytes), pos + 8 + |bytes|))
  {
    hide Little, ReadString, At;
    ReadsText(f, pos, bytes);
  }

  lemma ArrayIsRead(f: Bytes, pos: nat)
    ensures ReadValue(f, pos, ARRAY) == ReadArray(f, pos)
  {
    hide ReadArray;
  }

  /** Reading an encoded value, wherever it lies, gives the kept value and stops right after it. */
  lemma {:induction false} ValueRoundTrip(f: Bytes, pos: nat, v: Stored)
    requires WellFormed(v) && |f| <= MAX_OFFSET && At(f, pos, Encode(v))
    ensures ReadValue(f, pos, KindOf(v)) == Ok((Kept(v), pos + |Encode(v)|))
    decreases v, 2
  {
    hide *;
    EncodingIs(v);
    match v
    case Scalar(kind, x) => ReadsScalar(f, pos, kind, x);
    case Text(bytes) => TextIsRead(f, pos, bytes);
    case Array(inner, items) =>
      ArrayRoundTrip(f, pos, v, inner, items);
      ArrayIsRead(f, pos);
  }

  lemma ReadsScalar(f: Bytes, pos: nat, kind: nat, x: Value)
    requires Fits(kind, x) && At(f, pos, Little(RawOf(kind, x), ScalarSize(kind)))
    ensures ReadValue(f, pos, kind) == Ok((x, pos + ScalarSize(kind)))
  {
    hide Little, ReadUInt, At;
    ScalarRoundTrip(kind, x);
    ReadsLittle(f, pos, RawOf(kind, x), ScalarSize(kind));
  }

  lemma {:induction false} ArrayRoundTrip(f: Bytes, pos: nat, v: Stored, inner: nat, items: seq<Stored>)
    requires v == Array(inner, items) && WellFormed(v) && |f| <= MAX_OFFSET && At(f, pos, Encode(v))
    ensures ReadArray(f, pos) == Ok((Kept(v), pos + |Encode(v)|))
    decreases v, 1
  {
    hide Little, ReadUInt, At;
    var body := EncodeAll(items);
    AtSplit(f, pos, Little(inner, 4) + Little(|items|, 8), body);
    AtSplit(f, pos, Little(inner, 4), Little(|items|, 8));
    ReadsLittle(f, pos, inner, 4);
    ReadsLittle(f, pos + 4, |items|, 8);
    if |items| > KEEP_ARRAY && IsScalar(inner) {
      ScalarsLength(items, inner);
    } else {
      ItemsRoundTrip(f, pos + 12, items, inner);
      assert |items| <= KEEP_ARRAY ==> Kept(v).items == KeptAll(items);
    }
  }

  lemma {:induction false} ItemsRoundTrip(f: Bytes, pos: nat, items: seq<Stored>, kind: int)
    requires |f| <= MAX_OFFSET
    requires forall item <- items :: WellFormed(item) && KindOf(item) == kind
    requires At(f, pos, EncodeAll(items))
    ensures ReadMany(f, pos, kind, |items|) == Ok((KeptAll(items), pos + |EncodeAll(items)|))
    decreases items, 0
  {
    hide *;
    ItemsUnfold(items);
    if items == [] {
      ReadManyNil(f, pos, kind);
    } else {
      var rest := items[1..];
      var at := pos + |Encode(items[0])|;
      assert items[0] in items;
      AtSplit(f, pos, Encode(items[0]), EncodeAll(rest));
      ValueRoundTrip(f, pos, items[0]);
      ItemsRoundTrip(f, at, rest, kind);
      ReadManyCons(f, pos, kind, |items|, Kept(items[0]), at, KeptAll(rest), at + |EncodeAll(rest)|);
    }
  }

  lemma ItemsUnfold(items: seq<Stored>)
    requires forall item <- items :: WellFormed(item)
    ensures items == [] ==> EncodeAll(items) == [] && KeptAll(items) == []
    ensures items != [] ==> && WellFormed(items[0])
                            && EncodeAll(items) == Encode(items[0]) + EncodeAll(items[1..])
                            && KeptAll(items) == [Kept(items[0])] + KeptAll(items[1..])
  {
    assert items != [] ==> items[0] in items;
  }

  lemma KindFits(v: Stored)
    requires WellFormed(v)
    ensures KindOf(v) < Top(4) && IsWidth(4)
  {
  }

  /** Written pairs are read into the dict, and reading goes on after them. */
  lemma {:induction false} PairsAreRead(f: Bytes, pos: nat, pairs: Pairs, count: nat, meta: Meta)
    requires |f| <= MAX_OFFSET && |pairs| <= count
    requires forall p <- pairs :: |p.0| <= MAX_OFFSET && WellFormed(p.1)
    requires At(f, pos, EncodePairs(pairs))
    ensures ReadPairs(f, pos, count, meta)
         == ReadPairs(f, pos + |EncodePairs(pairs)|, count - |pairs|, KeptMeta(pairs, meta))
    decreases pairs
  {
    hide *;
    PairsUnfold(pairs, meta);
    if pairs != [] {
      var (key, v) := pairs[0];
      assert pairs[0] in pairs;
      var name, kind, body, rest := Little(|key|, 8) + key, Little(KindOf(v), 4), Encode(v), EncodePairs(pairs[1..]);
      AtSplit(f, pos, name + kind + body, rest);
      AtSplit(f, pos, name + kind, body);
      AtSplit(f, pos, name, kind);
      ReadsText(f, pos, key);
      KindFits(v);
      ReadsLittle(f, pos + |name|, KindOf(v), 4);
      ValueRoundTrip(f, pos + |name| + 4, v);
      PairsAreRead(f, pos + |name| + 4 + |body|, pairs[1..], count - 1, meta[key := Kept(v)]);
      ReadPairsCons(f, pos, count, meta, key, KindOf(v), Kept(v), pos + |name|, pos + |name| + 4 + |body|);
    }
  }

  lemma PairsUnfold(pairs: Pairs, meta: Meta)
    requires forall p <- pairs :: WellFormed(p.1)
    ensures pairs == [] ==> EncodePairs(pairs) == [] && KeptMeta(pairs, meta) == meta
    ensures pairs != [] ==>
              var (key, v) := pairs[0];
              && WellFormed(v)
              && EncodePairs(pairs)
                 == Little(|key|, 8) + key + Little(KindOf(v), 4) + Encode(v) + EncodePairs(pairs[1..])
              && KeptMeta(pairs, meta) == KeptMeta(pairs[1..], meta[key := Kept(v)])
  {
    assert pairs != [] ==> pairs[0] in pairs;
  }

  /** Whatever follows a written head, the reader gets through it and has its pairs. */
  lemma HeadIsRead(version: nat, tensors: nat, count: nat, pairs: Pairs, tail: Bytes)
    requires 2 <= version < Top(4) && tensors < Top(8) && WellFormedPairs(pairs) && |pairs| <= count < Top(8)
    requires |Head(version, tensors, count, pairs) + tail| <= MAX_OFFSET
    ensures var head := Head(version, tensors, count, pairs);
            ReadMeta(head + tail) == ReadPairs(head + tail, |head|, count - |pairs|, KeptMeta(pairs, map[]))
  {
    var head := Head(version, tensors, count, pairs);
    var f := head + tail;
    var v, t, c, body := Little(version, 4), Little(tensors, 8), Little(count, 8), EncodePairs(pairs);
    HeadIs(version, tensors, count, pairs);
    Widths(0);
    hide *;
    assert f[0..|head|] == head;
    AtFromSlice(f, 0, head);
    AtSplit(f, 0, MAGIC + v + t + c, body);
    AtSplit(f, 0, MAGIC + v + t, c);
    AtSplit(f, 0, MAGIC + v, t);
    AtSplit(f, 0, MAGIC, v);
    TakesAt(f, 0, MAGIC);
    ReadsLittle(f, 4, version, 4);
    ReadsLittle(f, 8, tensors, 8);
    ReadsLittle(f, 16, count, 8);
    PairsAreRead(f, 24, pairs, count, map[]);
    ReadMetaReads(f, version, tensors, count);
  }

  /** Every metadata list, written and followed by anything, reads back, and the cursor stops right after it. */
  lemma HeaderRoundTrip(version: nat, tensors: nat, pairs: Pairs, tail: Bytes)
    requires 2 <= version < Top(4) && tensors < Top(8) && WellFormedPairs(pairs)
    requires |Header(version, tensors, pairs) + tail| <= MAX_OFFSET
    ensures ReadMeta(Header(version, tensors, pairs) + tail)
         == Ok((KeptMeta(pairs, map[]), |Header(version, tensors, pairs)|))
  {
    var head := Header(version, tensors, pairs);
    HeadIsRead(version, tensors, |pairs|, pairs, tail);
    ReadPairsNil(head + tail, |head|, KeptMeta(pairs, map[]));
    hide *;
  }

  lemma HeadIs(version: nat, tensors: nat, count: nat, pairs: Pairs)
    requires WellFormedPairs(pairs) && count < Top(8)
    ensures forall p <- pairs :: |p.0| <= MAX_OFFSET && WellFormed(p.1)
    ensures Head(version, tensors, count, pairs)
         == MAGIC + Little(version, 4) + Little(tensors, 8) + Little(count, 8) + EncodePairs(pairs)
  {
  }

  lemma AtFromSlice(f: Bytes, pos: nat, b: Bytes)
    requires pos + |b| <= |f| && f[pos..pos + |b|] == b
    ensures At(f, pos, b)
  {
  }

  lemma ReadMetaReads(f: Bytes, version: nat, tensors: nat, count: nat)
    requires version >= 2 && Take(f, 0, 4) == MAGIC
    requires ReadUInt(f, 4, 4) == Ok((version, 8))
    requires ReadUInt(f, 8, 8) == Ok((tensors, 16))
    requires ReadUInt(f, 16, 8) == Ok((count, 24))
    ensures ReadMeta(f) == ReadPairs(f, 24, count, map[])
  {
  }

  /** With distinct keys the dict read back has each key once, with its kept value. */
  lemma {:induction false} KeptMetaIsTheMap(pairs: Pairs, meta: Meta)
    requires forall i, j :: 0 <= i < j < |pairs| ==> pairs[i].0 != pairs[j].0
    ensures forall i :: 0 <= i < |pairs| ==> pairs[i].0 in KeptMeta(pairs, meta)
                                             && KeptMeta(pairs, meta)[pairs[i].0] == Kept(pairs[i].1)
    ensures forall k :: k in KeptMeta(pairs, meta) <==> k in meta || exists p :: p in pairs && p.0 == k
    ensures forall k :: k in meta && (forall i :: 0 <= i < |pairs| ==> pairs[i].0 != k)
                        ==> KeptMeta(pairs, meta)[k] == meta[k]
    decreases pairs
  {
    if pairs != [] {
      var meta' := meta[pairs[0].0 := Kept(pairs[0].1)];
      var rest := pairs[1..];
      KeptMetaIsTheMap(rest, meta');
      assert forall i :: 0 < i < |pairs| ==> pairs[i] == rest[i - 1];
      forall k
        ensures k in KeptMeta(pairs, meta) <==> k in meta || exists p :: p in pairs && p.0 == k
      {
        if p :| p in pairs && p.0 == k {
          assert p == pairs[0] || p in rest;
        }
        if p :| p in rest && p.0 == k {
          assert p in pairs;
        }
        assert pairs[0] in pairs;
      }
    }
  }

  // ---- a declared length that overflows ----

  /** The eight bytes here declare more than read() takes. */
  predicate DeclaresTooLong(f: Bytes, pos: nat) {
    ReadUInt(f, pos, 8).Ok? && ReadUInt(f, pos, 8).value.0 > MAX_OFFSET
  }

  ghost predicate HasLongString(f: Bytes) { exists pos: nat :: DeclaresTooLong(f, pos) }

  lemma StringTooLong(f: Bytes, pos: nat)
    ensures ReadString(f, pos) == Err(TooLong) <==> DeclaresTooLong(f, pos)
  {
    hide Take, FromLittle;
  }

  lemma UIntIsNeverTooLong(f: Bytes, pos: nat, size: nat)
    requires IsWidth(size)
    ensures ReadUInt(f, pos, size) != Err(TooLong)
  {
  }

  lemma {:induction false} ValueTooLong(f: Bytes, pos: nat, kind: int)
    ensures ReadValue(f, pos, kind) == Err(TooLong) ==> HasLongString(f)
    decreases Left(f, pos), 0, 1
  {
    StringTooLong(f, pos);
    if IsScalar(kind) {
      UIntIsNeverTooLong(f, pos, ScalarSize(kind));
    } else if kind == ARRAY {
      ArrayTooLong(f, pos);
    }
    hide ReadUInt, ReadString, ReadArray;
  }

  lemma {:induction false} ArrayTooLong(f: Bytes, pos: nat)
    ensures ReadArray(f, pos) == Err(TooLong) ==> HasLongString(f)
    decreases Left(f, pos), 0, 0
  {
    UIntIsNeverTooLong(f, pos, 4);
    var inner := ReadUInt(f, pos, 4);
    if inner.Ok? {
      UIntIsNeverTooLong(f, inner.value.1, 8);
      var count := ReadUInt(f, inner.value.1, 8);
      if count.Ok? {
        ManyTooLong(f, count.value.1, inner.value.0, count.value.0);
      }
    }
    hide ReadUInt, ReadMany;
  }

  lemma {:induction false} ManyTooLong(f: Bytes, pos: nat, kind: int, count: nat)
    ensures ReadMany(f, pos, kind, count) == Err(TooLong) ==> HasLongString(f)
    decreases Left(f, pos), 1, count
  {
    if count > 0 {
      ValueTooLong(f, pos, kind);
      var v := ReadValue(f, pos, kind);
      hide ReadValue;
      if v.Ok? {
        ManyTooLong(f, v.value.1, kind, count - 1);
      }
    }
  }

  lemma {:induction false} PairsTooLong(f: Bytes, pos: nat, count: nat, meta: Meta)
    ensures ReadPairs(f, pos, count, meta) == Err(TooLong) ==> HasLongString(f)
    decreases count
  {
    if count > 0 {
      StringTooLong(f, pos);
      var key := ReadString(f, pos);
      if key.Ok? {
        UIntIsNeverTooLong(f, key.value.1, 4);
        var kind := ReadUInt(f, key.value.1, 4);
        if kind.Ok? {
          ValueTooLong(f, kind.value.1, kind.value.0);
          var v := ReadValue(f, kind.value.1, kind.value.0);
          hide ReadUInt, ReadString, ReadValue, DeclaresTooLong;
          if v.Ok? {
            PairsTooLong(f, v.value.1, count - 1, meta[key.value.0 := v.value.0]);
          }
        }
      }
    }
  }

  /** Only a file in which some eight bytes declare such a length can overflow the reader. */
  lemma OverflowIsDeclared(f: Bytes)
    requires ReadMeta(f) == Err(TooLong)
    ensures HasLongString(f)
  {
    UIntIsNeverTooLong(f, 4, 4);
    var version := ReadUInt(f, 4, 4);
    if version.Ok? {
      UIntIsNeverTooLong(f, version.value.1, 8);
      var tensors := ReadUInt(f, version.value.1, 8);
      if tensors.Ok? {
        UIntIsNeverTooLong(f, tensors.value.1, 8);
        var count := ReadUInt(f, tensors.value.1, 8);
        if count.Ok? {
          PairsTooLong(f, count.value.1, count.value.0, map[]);
        }
      }
    }
    hide ReadUInt, ReadPairs;
  }

  /** After any written pairs, with more declared, a key's declared length overflows exactly over the limit. */
  lemma NextKeyOverflowsExactly(version: nat, tensors: nat, count: nat, pairs: Pairs, n: nat)
    requires 2 <= version < Top(4) && tensors < Top(8) && WellFormedPairs(pairs) && |pairs| < count < Top(8)
    requires n < Top(8) && |Head(version, tensors, count, pairs) + Little(n, 8)| <= MAX_OFFSET
    ensures var f := Head(version, tensors, count, pairs) + Little(n, 8);
            ReadMeta(f) == Err(if n > MAX_OFFSET then TooLong else Truncated)
  {
    var head := Head(version, tensors, count, pairs);
    var f := head + Little(n, 8);
    HeadIsRead(version, tensors, count, pairs, Little(n, 8));
    hide Head, ReadMeta, KeptMeta, EncodePairs;
    assert f[|head|..|head| + 8] == Little(n, 8);
    AtFromSlice(f, |head|, Little(n, 8));
    ReadsLittle(f, |head|, n, 8);
  }

  /** And whatever follows, an overflowing key stops the reader. */
  lemma LongKeyOverflows(version: nat, tensors: nat, count: nat, pairs: Pairs, n: nat, tail: Bytes)
    requires 2 <= version < Top(4) && tensors < Top(8) && WellFormedPairs(pairs) && |pairs| < count < Top(8)
    requires MAX_OFFSET < n < Top(8) && |Head(version, tensors, count, pairs) + (Little(n, 8) + tail)| <= MAX_OFFSET
    ensures ReadMeta(Head(version, tensors, count, pairs) + (Little(n, 8) + tail)) == Err(TooLong)
  {
    var head := Head(version, tensors, count, pairs);
    var f := head + (Little(n, 8) + tail);
    HeadIsRead(version, tensors, count, pairs, Little(n, 8) + tail);
    hide Head, ReadMeta, KeptMeta, EncodePairs;
    assert f[|head|..|head| + 8] == Little(n, 8);
    AtFromSlice(f, |head|, Little(n, 8));
    ReadsLittle(f, |head|, n, 8);
  }

  // ---- truncated files ----

  /** A string cut short by the end of the file is returned short: it is whole exactly when its bytes are there. */
  lemma StringIsWholeExactlyWhenPresent(f: Bytes, pos: nat, n: nat)
    requires n <= MAX_OFFSET && At(f, pos, Little(n, 8))
    ensures ReadString(f, pos).Ok?
    ensures |ReadString(f, pos).value.0| == n <==> pos + 8 + n <= |f|
  {
    ReadsLittle(f, pos, n, 8);
  }

  /** A header that declares a ten-byte string and holds one byte of it is read without complaint. */
  lemma TruncatedStringIsAccepted()
    ensures var f: Bytes := Little(10, 8) + [0x61];
            ReadValue(f, 0, STRING) == Ok((Str([0x61]), 9))
  {
    var f: Bytes := Little(10, 8) + [0x61];
    assert f[0..8] == Little(10, 8);
    ReadsLittle(f, 0, 10, 8);
    assert Take(f, 8, 10) == [0x61];
  }

  // ---- how much reading any byte string can cause ----

  /** The number of values the reader starts on, nested ones and a failing last one included. */
  function Starts(f: Bytes, pos: nat, kind: int): nat
    decreases Left(f, pos), 0, 0
  {
    if kind != ARRAY then 1
    else
      match ReadUInt(f, pos, 4)
      case Err(_) => 1
      case Ok((inner, p1)) =>
        match ReadUInt(f, p1, 8)
        case Err(_) => 1
        case Ok((count, p2)) =>
          if count > KEEP_ARRAY && IsScalar(inner) then 1 else 1 + StartsMany(f, p2, inner, count)
  }

  function StartsMany(f: Bytes, pos: nat, kind: int, count: nat): nat
    decreases Left(f, pos), 1, count
  {
    if count == 0 then 0
    else
      Starts(f, pos, kind) +
      match ReadValue(f, pos, kind)
      case Err(_) => 0
      case Ok((_, at)) => StartsMany(f, at, kind, count - 1)
  }

  /** Every value started, but a failing last one, is paid for by a byte of the file, whatever counts it declares. */
  lemma {:induction false} StartsArePaidFor(f: Bytes, pos: nat, kind: int)
    ensures var r := ReadValue(f, pos, kind);
            Starts(f, pos, kind) <= if r.Ok? then Left(f, pos) - Left(f, r.value.1) else Left(f, pos) + 1
    decreases Left(f, pos), 0, 0
  {
    if kind == ARRAY {
      var inner := ReadUInt(f, pos, 4);
      if inner.Ok? {
        var count := ReadUInt(f, inner.value.1, 8);
        if count.Ok? && !(count.value.0 > KEEP_ARRAY && IsScalar(inner.value.0)) {
          ManyStartsArePaidFor(f, count.value.1, inner.value.0, count.value.0);
        }
      }
    }
  }

  lemma {:induction false} ManyStartsArePaidFor(f: Bytes, pos: nat, kind: int, count: nat)
    ensures var r := ReadMany(f, pos, kind, count);
            StartsMany(f, pos, kind, count) <= if r.Ok? then Left(f, pos) - Left(f, r.value.1) else Left(f, pos) + 1
    decreases Left(f, pos), 1, count
  {
    if count > 0 {
      StartsArePaidFor(f, pos, kind);
      match ReadValue(f, pos, kind)
      case Err(_) =>
      case Ok((_, at)) => ManyStartsArePaidFor(f, at, kind, count - 1);
    }
  }

  /** A declared count above the bytes that remain is refused unless the array is skipped by a seek. */
  lemma OverdeclaredArrayIsRefused(f: Bytes, pos: nat)
    requires ReadUInt(f, pos, 4).Ok? && ReadUInt(f, pos + 4, 8).Ok?
    requires var (inner, count) := (ReadUInt(f, pos, 4).value.0, ReadUInt(f, pos + 4, 8).value.0);
             count > |f| - pos - 12 && !(count > KEEP_ARRAY && IsScalar(inner))
    ensures ReadValue(f, pos, ARRAY).Err?
  {
    var inner, count := ReadUInt(f, pos, 4).value.0, ReadUInt(f, pos + 4, 8).value.0;
    assert ReadMany(f, pos + 12, inner, count).Err?;
  }
}

/**
 * The GGUF value types byte by byte, as the specification's "File Structure" numbers them, and what a header must
 * start with to be read at all.
 */
module GgufTypes {
  import opened Common
  import opened Gguf

  function Octet(f: Bytes, p: nat): nat
    requires p < |f|
  {
    f[p]
  }

  function Two(f: Bytes, p: nat): nat
    requires p + 2 <= |f|
  {
    Octet(f, p) + 0x100 * Octet(f, p + 1)
  }

  function Four(f: Bytes, p: nat): nat
    requires p + 4 <= |f|
  {
    Two(f, p) + 0x1_0000 * Octet(f, p + 2) + 0x100_0000 * Octet(f, p + 3)
  }

  function Eight(f: Bytes, p: nat): nat
    requires p + 8 <= |f|
  {
    Four(f, p) + 0x1_0000_0000 * Four(f, p + 4)
  }

  /** A number of so many bytes read as two's complement: the upper half is negative. */
  function Signed(n: nat, top: nat): int { if n < top / 2 then n else n - top }

  lemma FromTwo(b: Bytes)
    requires |b| == 2
    ensures FromLittle(b) == Two(b, 0)
  {
    assert FromLittle(b) == b[0] + 256 * FromLittle(b[1..]);
    assert FromLittle(b[1..]) == b[1] + 256 * FromLittle(b[1..][1..]);
    assert b[1..][1..] == [];
  }

  lemma FromSplit(b: Bytes, k: nat)
    requires k <= |b|
    ensures FromLittle(b) == FromLittle(b[..k]) + Pow256(k) * FromLittle(b[k..])
  {
    if k == 0 {
      assert b[..0] == [] && b[0..] == b;
    } else {
      FromSplit(b[1..], k - 1);
      assert b[1..][..k - 1] == b[..k][1..] && b[1..][k - 1..] == b[k..];
      ScaledSum(FromLittle(b[1..][..k - 1]), Pow256(k - 1), FromLittle(b[k..]));
    }
  }

  lemma ScaledSum(x: int, p: int, y: int)
    ensures 256 * (x + p * y) == 256 * x + 256 * p * y
  {
  }

  lemma Powers()
    ensures Pow256(2) == 0x1_0000 && Pow256(4) == 0x1_0000_0000
  {
    assert Pow256(1) == 0x100 && Pow256(3) == 0x100_0000;
  }

  lemma FromFour(b: Bytes)
    requires |b| == 4
    ensures FromLittle(b) == Four(b, 0)
  {
    FromSplit(b, 2);
    Powers();
    FromTwo(b[..2]);
    FromTwo(b[2..]);
    hide FromLittle, Pow256;
  }

  /** The four integer widths as the reader reads them, and a refusal where the file ends before. */
  lemma WidthsAre(f: Bytes, pos: nat)
    ensures ReadUInt(f, pos, 1) == if pos + 1 <= |f| then Ok((f[pos], pos + 1)) else Err(Truncated)
    ensures ReadUInt(f, pos, 2) == if pos + 2 <= |f| then Ok((Two(f, pos), pos + 2)) else Err(Truncated)
    ensures ReadUInt(f, pos, 4) == if pos + 4 <= |f| then Ok((Four(f, pos), pos + 4)) else Err(Truncated)
    ensures ReadUInt(f, pos, 8) == if pos + 8 <= |f| then Ok((Eight(f, pos), pos + 8)) else Err(Truncated)
  {
    WidthIs(f, pos, 1);
    WidthIs(f, pos, 2);
    WidthIs(f, pos, 4);
    WidthIs(f, pos, 8);
    if pos + 1 <= |f| {
      assert f[pos..pos + 1] == [f[pos]] && [f[pos]][1..] == [];
    }
    if pos + 2 <= |f| {
      FromTwo(f[pos..pos + 2]);
    }
    if pos + 4 <= |f| {
      FromFour(f[pos..pos + 4]);
    }
    if pos + 8 <= |f| {
      EightAre(f, pos);
    }
    hide FromLittle, ReadUInt;
  }

  lemma WidthIs(f: Bytes, pos: nat, size: nat)
    requires IsWidth(size)
    ensures ReadUInt(f, pos, size)
         == if pos + size <= |f| then Ok((FromLittle(f[pos..pos + size]), pos + size)) else Err(Truncated)
  {
    hide FromLittle;
  }

  lemma EightAre(f: Bytes, pos: nat)
    requires pos + 8 <= |f|
    ensures FromLittle(f[pos..pos + 8]) == Eight(f, pos)
  {
    var b := f[pos..pos + 8];
    FromSplit(b, 4);
    Powers();
    FromFour(b[..4]);
    FromFour(b[4..]);
    hide FromLittle, Pow256;
  }

  lemma ReadScalarIs(f: Bytes, pos: nat, kind: int)
    requires IsScalar(kind)
    ensures var raw := ReadUInt(f, pos, ScalarSize(kind));
            ReadValue(f, pos, kind)
            == if raw.Err? then Err(raw.error) else Ok((DecodeScalar(kind, raw.value.0), raw.value.1))
  {
    hide ReadUInt, DecodeScalar;
  }

  lemma BytesAre(f: Bytes, pos: nat)
    ensures pos + 1 <= |f| ==>
              && ReadValue(f, pos, 0) == Ok((Int(f[pos]), pos + 1))
              && ReadValue(f, pos, 1) == Ok((Int(Signed(f[pos], 0x100)), pos + 1))
              && ReadValue(f, pos, 7) == Ok((Bool(f[pos] != 0), pos + 1))
    ensures pos + 1 > |f| ==> forall kind :: kind in {0, 1, 7} ==> ReadValue(f, pos, kind) == Err(Truncated)
  {
    WidthsAre(f, pos);
    ReadScalarIs(f, pos, 0);
    ReadScalarIs(f, pos, 1);
    ReadScalarIs(f, pos, 7);
    hide ReadUInt, Two, Four, Eight, ReadValue;
  }

  lemma TwosAre(f: Bytes, pos: nat)
    ensures pos + 2 <= |f| ==>
              && ReadValue(f, pos, 2) == Ok((Int(Two(f, pos)), pos + 2))
              && ReadValue(f, pos, 3) == Ok((Int(Signed(Two(f, pos), 0x1_0000)), pos + 2))
    ensures pos + 2 > |f| ==> forall kind :: kind in {2, 3} ==> ReadValue(f, pos, kind) == Err(Truncated)
  {
    WidthsAre(f, pos);
    ReadScalarIs(f, pos, 2);
    ReadScalarIs(f, pos, 3);
    hide ReadUInt, Two, Four, Eight, ReadValue;
  }

  lemma FoursAre(f: Bytes, pos: nat)
    ensures pos + 4 <= |f| ==>
              && ReadValue(f, pos, 4) == Ok((Int(Four(f, pos)), pos + 4))
              && ReadValue(f, pos, 5) == Ok((Int(Signed(Four(f, pos), 0x1_0000_0000)), pos + 4))
              && ReadValue(f, pos, 6) == Ok((Float(Four(f, pos)), pos + 4))
    ensures pos + 4 > |f| ==> forall kind :: kind in {4, 5, 6} ==> ReadValue(f, pos, kind) == Err(Truncated)
  {
    WidthsAre(f, pos);
    ReadScalarIs(f, pos, 4);
    ReadScalarIs(f, pos, 5);
    ReadScalarIs(f, pos, 6);
    hide ReadUInt, Two, Four, Eight, ReadValue;
  }

  lemma EightsAre(f: Bytes, pos: nat)
    ensures pos + 8 <= |f| ==>
              && ReadValue(f, pos, 10) == Ok((Int(Eight(f, pos)), pos + 8))
              && ReadValue(f, pos, 11) == Ok((Int(Signed(Eight(f, pos), 0x1_0000_0000_0000_0000)), pos + 8))
              && ReadValue(f, pos, 12) == Ok((Float(Eight(f, pos)), pos + 8))
    ensures pos + 8 > |f| ==> forall kind :: kind in {10, 11, 12} ==> ReadValue(f, pos, kind) == Err(Truncated)
  {
    WidthsAre(f, pos);
    ReadScalarIs(f, pos, 10);
    ReadScalarIs(f, pos, 11);
    ReadScalarIs(f, pos, 12);
    hide ReadUInt, Two, Four, Eight, ReadValue;
  }

  /** The value of a type at a place, by the type's number; strings (8) and arrays (9) are not of this kind. */
  function Typed(f: Bytes, pos: nat, kind: int): Option<(Value, nat)> {
    var left := |f| - pos;
    match kind
    case 0 => if left < 1 then None else Some((Int(f[pos]), 1))                                    // uint8
    case 1 => if left < 1 then None else Some((Int(Signed(f[pos], 0x100)), 1))                     // int8
    case 2 => if left < 2 then None else Some((Int(Two(f, pos)), 2))                               // uint16
    case 3 => if left < 2 then None else Some((Int(Signed(Two(f, pos), 0x1_0000)), 2))             // int16
    case 4 => if left < 4 then None else Some((Int(Four(f, pos)), 4))                              // uint32
    case 5 => if left < 4 then None else Some((Int(Signed(Four(f, pos), 0x1_0000_0000)), 4))       // int32
    case 6 => if left < 4 then None else Some((Float(Four(f, pos)), 4))                            // float32
    case 7 => if left < 1 then None else Some((Bool(f[pos] != 0), 1))                              // bool
    case 10 => if left < 8 then None else Some((Int(Eight(f, pos)), 8))                            // uint64
    case 11 => if left < 8 then None else Some((Int(Signed(Eight(f, pos), 0x1_0000_0000_0000_0000)), 8))  // int64
    case 12 => if left < 8 then None else Some((Float(Eight(f, pos)), 8))                          // float64
    case _ => None
  }

  /** Eleven numbers are scalar types, each of its own width and value; any but them, 8 and 9 is no type. */
  lemma TypesAre(f: Bytes, pos: nat, kind: int)
    ensures 0 <= kind <= 7 || 10 <= kind <= 12 ==>
              var got := Typed(f, pos, kind);
              ReadValue(f, pos, kind)
              == if got.Some? then Ok((got.value.0, pos + got.value.1)) else Err(Truncated)
    ensures kind < 0 || kind > 12 ==> ReadValue(f, pos, kind) == Err(UnknownKind)
  {
    if kind in {0, 1, 7} {
      BytesAre(f, pos);
    } else if kind in {2, 3} {
      TwosAre(f, pos);
    } else if kind in {4, 5, 6} {
      FoursAre(f, pos);
    } else if kind in {10, 11, 12} {
      EightsAre(f, pos);
    } else {
      assert kind != STRING && kind != ARRAY ==> ReadValue(f, pos, kind) == Err(UnknownKind);
    }
    hide ReadValue, Two, Four, Eight;
  }

  /**
   * A file is read only if it starts with the four letters GGUF and a version of at least 2: without the letters it
   * is not GGUF, and with them and an older version it is too old, whatever follows.
   */
  lemma ReadOnlyGguf(f: Bytes)
    ensures |f| < 4 || f[..4] != [0x47, 0x47, 0x55, 0x46] ==> ReadMeta(f) == Err(NotGguf)
    ensures |f| >= 8 && f[..4] == [0x47, 0x47, 0x55, 0x46] && Four(f, 4) < 2 ==> ReadMeta(f) == Err(OldVersion)
    ensures ReadMeta(f).Ok? ==> |f| >= 24 && f[..4] == [0x47, 0x47, 0x55, 0x46] && Four(f, 4) >= 2
    ensures 4 <= |f| < 24 && f[..4] == [0x47, 0x47, 0x55, 0x46] && (|f| < 8 || Four(f, 4) >= 2) ==>
              ReadMeta(f) == Err(Truncated)
  {
    WidthsAre(f, 4);
    WidthsAre(f, 8);
    WidthsAre(f, 16);
    hide ReadUInt, ReadPairs, Four, Eight;
  }
}

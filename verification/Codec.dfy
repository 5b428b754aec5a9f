/**
 The integer data types of the object dictionary: `struct` formats of 1, 2, 4 and 8 bytes,
 and the `UnsignedN` / `IntegerN` formats that keep only the low bytes of such a container.
 */
module Codec {
  import opened Common
  import opened Bits

  datatype Error = StructError | IndexError | ValueError | DictionaryError

  /** An integer type of `bytes` bytes, packed through the smallest `struct` format that holds it. */
  datatype Format = Format(bytes: nat, signed: bool) {
    predicate Valid() {
      1 <= bytes <= 8
    }

    /** Size of the `struct` format behind the type. */
    function Container(): nat {
      if bytes <= 1 then 1 else if bytes <= 2 then 2 else if bytes <= 4 then 4 else 8
    }
  }

  /** The integers an integer type of `n` bytes can hold. */
  predicate InRange(v: int, n: nat, signed: bool)
    requires n > 0
  {
    if signed then -Pow2(8 * n - 1) <= v < Pow2(8 * n - 1) else 0 <= v < Pow2(8 * n)
  }

  // ----- little-endian byte strings

  function FromLE(bs: seq<byte>): nat {
    if bs == [] then 0 else bs[0] + 256 * FromLE(bs[1..])
  }

  /** The low `n` bytes of `v` in two's complement. */
  function ToLE(v: int, n: nat): (bs: seq<byte>)
    ensures |bs| == n
    decreases n
  {
    if n == 0 then [] else [v % 256] + ToLE(v / 256, n - 1)
  }

  predicate BufBit(bs: seq<byte>, i: nat)
    requires i < 8 * |bs|
  {
    Bit(bs[i / 8], i % 8)
  }

  // ----- struct.Struct and its two subclasses

  function StructPack(v: int, n: nat, signed: bool): Result<seq<byte>, Error>
    requires n > 0
  {
    if InRange(v, n, signed) then Ok(ToLE(v, n)) else Err(StructError)
  }

  function StructUnpack(buffer: seq<byte>, n: nat, signed: bool): Result<int, Error>
    requires n > 0
  {
    if |buffer| != n then Err(StructError)
    else
      var u := FromLE(buffer);
      Ok(if signed && u >= Pow2(8 * n - 1) then u - Pow2(8 * n) else u)
  }

  function Pack(f: Format, v: int): Result<seq<byte>, Error>
    requires f.Valid()
  {
    match StructPack(v, f.Container(), f.signed)
    case Ok(bs) => Ok(bs[..f.bytes])
    case Err(e) => Err(e)
  }

  /** `IntegerN.unpack` looks at the top byte before it pads, so a short buffer raises there. */
  function Unpack(f: Format, buffer: seq<byte>): Result<int, Error>
    requires f.Valid()
  {
    if f.signed && |buffer| < f.bytes && f.bytes != f.Container() then Err(IndexError)
    else
      var fill: byte := if f.signed && |buffer| >= f.bytes && buffer[f.bytes - 1] >= 0x80 then 0xFF else 0;
      StructUnpack(buffer + seq(f.Container() - f.bytes, _ => fill), f.Container(), f.signed)
  }

  // ----- bits of the encodings

  lemma {:induction false} Pow2Eight(n: nat)
    ensures Pow2(8 * (n + 1)) == 256 * Pow2(8 * n)
    ensures Pow2(8) == 256
    ensures Pow2(7) == 128
  {
    assert Pow2(8) == 256;
    Pow2Adds(8, 8 * n);
  }

  lemma {:induction false} ShlEight(x: int)
    ensures Shl(x, 8) == 256 * x
  {
    ShlIsTimes(x, 8);
    Pow2Eight(0);
  }

  lemma {:induction false} FromLERange(bs: seq<byte>)
    ensures FromLE(bs) < Pow2(8 * |bs|)
  {
    if bs != [] {
      FromLERange(bs[1..]);
      Pow2Eight(|bs| - 1);
    }
  }

  lemma {:induction false} FromLEBit(bs: seq<byte>, i: nat)
    ensures Bit(FromLE(bs), i) == (i < 8 * |bs| && BufBit(bs, i))
  {
    if bs == [] {
      ConstantBits(i);
    } else {
      Pow2Eight(0);
      ShlEight(FromLE(bs[1..]));
      ConcatBit(bs[0], FromLE(bs[1..]), 8, i);
      if i >= 8 {
        FromLEBit(bs[1..], i - 8);
      }
    }
  }

  lemma {:induction false} ToLEBit(v: int, n: nat, i: nat)
    requires i < 8 * n
    ensures BufBit(ToLE(v, n), i) == Bit(v, i)
    decreases n
  {
    Pow2Eight(0);
    ShlEight(v / 256);
    ConcatBit(v % 256, v / 256, 8, i);
    var low, high := v % 256, ToLE(v / 256, n - 1);
    assert ToLE(v, n) == [low] + high;
    if i >= 8 {
      ToLEBit(v / 256, n - 1, i - 8);
      assert ([low] + high)[i / 8] == high[(i - 8) / 8];
    }
  }

  lemma {:induction false} ToLEPrefix(v: int, m: nat, n: nat)
    requires n <= m
    ensures ToLE(v, m)[..n] == ToLE(v, n)
    decreases n
  {
    if n > 0 {
      ToLEPrefix(v / 256, m - 1, n - 1);
    }
  }

  lemma {:induction false} ToLEOfFromLE(bs: seq<byte>)
    ensures ToLE(FromLE(bs), |bs|) == bs
  {
    if bs != [] {
      assert FromLE(bs) % 256 == bs[0] && FromLE(bs) / 256 == FromLE(bs[1..]);
      ToLEOfFromLE(bs[1..]);
    }
  }

  lemma {:induction false} FromLEOfToLE(v: nat, n: nat)
    requires v < Pow2(8 * n)
    ensures FromLE(ToLE(v, n)) == v
    decreases n
  {
    if n > 0 {
      Pow2Eight(n - 1);
      FromLEOfToLE(v / 256, n - 1);
    }
  }

  /** Byte strings of one length are equal when all their bits are. */
  lemma {:induction false} BufBitsDetermine(a: seq<byte>, b: seq<byte>)
    requires |a| == |b|
    requires forall i: nat :: i < 8 * |a| ==> BufBit(a, i) == BufBit(b, i)
    ensures a == b
  {
    forall i: nat ensures Bit(FromLE(a), i) == Bit(FromLE(b), i) {
      FromLEBit(a, i);
      FromLEBit(b, i);
    }
    BitsDetermine(FromLE(a), FromLE(b));
    ToLEOfFromLE(a);
    ToLEOfFromLE(b);
  }

  /** What `struct` unpacks has the bits of the buffer, continued by the sign. */
  lemma {:induction false} StructUnpackBit(buffer: seq<byte>, n: nat, signed: bool, i: nat)
    requires n > 0 && |buffer| == n
    ensures Bit(StructUnpack(buffer, n, signed).value, i)
            == if i < 8 * n then BufBit(buffer, i) else signed && BufBit(buffer, 8 * n - 1)
    ensures InRange(StructUnpack(buffer, n, signed).value, n, signed)
  {
    var u := FromLE(buffer);
    FromLERange(buffer);
    FromLEBit(buffer, i);
    FromLEBit(buffer, 8 * n - 1);
    TopBit(u, 8 * n);
    ShlIsTimes(-1, 8 * n);
    ConcatBit(u, -1, 8 * n, i);
    if i >= 8 * n {
      ConstantBits(i - 8 * n);
    }
  }

  lemma {:induction false} TopBit(u: nat, n: nat)
    requires n > 0 && u < Pow2(n)
    ensures Bit(u, n - 1) <==> u >= Pow2(n - 1)
    decreases n
  {
    if n > 1 {
      TopBit(u / 2, n - 1);
    }
  }

  /** An integer fits a type exactly when the bits above the type repeat its sign. */
  lemma {:induction false} InRangeBits(v: int, n: nat, signed: bool)
    requires n > 0
    ensures InRange(v, n, signed)
            <==> (!signed ==> v >= 0) && SignFrom(v, if signed then 8 * n - 1 else 8 * n)
  {
    RangeIsSignBits(v, if signed then 8 * n - 1 else 8 * n);
  }

  /** `fill` behind the buffer: all bits clear, or all set. */
  lemma {:induction false} PaddedBit(buffer: seq<byte>, fill: byte, n: nat, i: nat)
    requires (fill == 0 || fill == 0xFF) && |buffer| <= n && i < 8 * n
    ensures BufBit(buffer + seq(n - |buffer|, _ => fill), i) == if i < 8 * |buffer| then BufBit(buffer, i) else fill == 0xFF
  {
    FillBit(fill, i % 8);
  }

  /** What an integer type unpacks is its container, padded with the sign. */
  lemma {:induction false} UnpackIsPadded(f: Format, buffer: seq<byte>, fill: byte)
    requires f.Valid() && |buffer| == f.bytes
    requires fill == if f.signed && buffer[f.bytes - 1] >= 0x80 then 0xFF else 0
    ensures Unpack(f, buffer) == StructUnpack(buffer + seq(f.Container() - f.bytes, _ => fill), f.Container(), f.signed)
  {
    assert f.bytes == f.Container() ==> buffer + seq(f.Container() - f.bytes, _ => fill) == buffer;
  }

  lemma {:induction false} UnpackBit(f: Format, buffer: seq<byte>, i: nat)
    requires f.Valid() && |buffer| == f.bytes
    ensures Unpack(f, buffer).Ok?
    ensures Bit(Unpack(f, buffer).value, i)
            == if i < 8 * f.bytes then BufBit(buffer, i) else f.signed && BufBit(buffer, 8 * f.bytes - 1)
  {
    var top, c := buffer[f.bytes - 1], f.Container();
    var fill: byte := if f.signed && top >= 0x80 then 0xFF else 0;
    assert BufBit(buffer, 8 * f.bytes - 1) == (top >= 0x80) by {
      Pow2Eight(0);
      TopBit(top, 8);
      assert (8 * f.bytes - 1) / 8 == f.bytes - 1 && (8 * f.bytes - 1) % 8 == 7;
    }
    UnpackIsPadded(f, buffer, fill);
    StructUnpackBit(buffer + seq(c - f.bytes, _ => fill), c, f.signed, i);
    PaddedBit(buffer, fill, c, if i < 8 * c then i else 8 * c - 1);
  }

  lemma {:induction false} FillBit(fill: byte, i: nat)
    requires (fill == 0 || fill == 0xFF) && i < 8
    ensures Bit(fill, i) == (fill == 0xFF)
  {
    ConstantBits(i);
    assert LowMask(8) == 0xFF;
    LowMaskBit(8, i);
  }

  // ----- inverse laws

  /** Unpacking what was packed returns the value exactly when it is in the range of the type. */
  lemma {:induction false} UnpackAfterPack(f: Format, v: int)
    requires f.Valid()
    ensures Pack(f, v).Ok? <==> InRange(v, f.Container(), f.signed)
    ensures Pack(f, v).Ok? ==> |Pack(f, v).value| == f.bytes && Unpack(f, Pack(f, v).value).Ok?
    ensures Pack(f, v).Ok? && Unpack(f, Pack(f, v).value) == Ok(v) <==> InRange(v, f.bytes, f.signed)
  {
    ToLEPrefix(v, f.Container(), f.bytes);
    UnpackInRange(f, ToLE(v, f.bytes));
    if InRange(v, f.bytes, f.signed) {
      InRangeWidens(v, f.bytes, f.Container(), f.signed);
      UnpackToLE(f, v);
    }
  }

  lemma {:induction false} UnpackToLE(f: Format, v: int)
    requires f.Valid() && InRange(v, f.bytes, f.signed)
    ensures Unpack(f, ToLE(v, f.bytes)) == Ok(v)
  {
    var n := f.bytes;
    UnpackBit(f, ToLE(v, n), 0);
    var r := Unpack(f, ToLE(v, n)).value;
    InRangeBits(v, n, f.signed);
    forall i: nat ensures Bit(r, i) == Bit(v, i) {
      UnpackBit(f, ToLE(v, n), i);
      ToLEBit(v, n, 8 * n - 1);
      if i < 8 * n {
        ToLEBit(v, n, i);
      }
    }
    BitsDetermine(r, v);
  }

  lemma {:induction false} InRangeWidens(v: int, m: nat, n: nat, signed: bool)
    requires 0 < m <= n && InRange(v, m, signed)
    ensures InRange(v, n, signed)
  {
    Pow2Monotone(8 * m, 8 * n);
    Pow2Monotone(8 * m - 1, 8 * n - 1);
  }

  lemma {:induction false} UnpackInRange(f: Format, buffer: seq<byte>)
    requires f.Valid() && |buffer| == f.bytes
    ensures Unpack(f, buffer).Ok? && InRange(Unpack(f, buffer).value, f.bytes, f.signed)
  {
    UnpackBit(f, buffer, 0);
    var r := Unpack(f, buffer).value;
    var n := f.bytes;
    StructUnpackSign(f, buffer);
    forall i: nat | i >= (if f.signed then 8 * n - 1 else 8 * n) ensures Bit(r, i) == (r < 0) {
      UnpackBit(f, buffer, i);
    }
    InRangeBits(r, n, f.signed);
  }

  lemma {:induction false} StructUnpackSign(f: Format, buffer: seq<byte>)
    requires f.Valid() && |buffer| == f.bytes
    ensures Unpack(f, buffer).Ok?
    ensures Unpack(f, buffer).value < 0 <==> f.signed && BufBit(buffer, 8 * f.bytes - 1)
  {
    UnpackBit(f, buffer, 0);
    var r, m := Unpack(f, buffer).value, f.Container();
    var fill: byte := if f.signed && buffer[f.bytes - 1] >= 0x80 then 0xFF else 0;
    StructUnpackBit(buffer + seq(m - f.bytes, _ => fill), m, f.signed, 0);
    UnpackBit(f, buffer, 8 * m);
    InRangeBits(r, m, f.signed);
    assert Bit(r, 8 * m) == (r < 0);
  }

  /** Packing what was unpacked returns the bytes, for every byte string of the width. */
  lemma {:induction false} PackAfterUnpack(f: Format, buffer: seq<byte>)
    requires f.Valid()
    ensures Unpack(f, buffer).Ok? <==> |buffer| == f.bytes
    ensures |buffer| == f.bytes ==> Pack(f, Unpack(f, buffer).value) == Ok(buffer)
  {
    if |buffer| == f.bytes {
      UnpackInRange(f, buffer);
      var r := Unpack(f, buffer).value;
      InRangeWidens(r, f.bytes, f.Container(), f.signed);
      ToLEPrefix(r, f.Container(), f.bytes);
      forall i: nat | i < 8 * f.bytes ensures BufBit(ToLE(r, f.bytes), i) == BufBit(buffer, i) {
        ToLEBit(r, f.bytes, i);
        UnpackBit(f, buffer, i);
      }
      BufBitsDetermine(ToLE(r, f.bytes), buffer);
    }
  }

  // ----- the integer cases of ODVariable.encode_raw and decode_raw

  const REAL32 := 0x8
  const REAL64 := 0x11

  /** The packing of each integer data type code. */
  function FormatOf(dataType: nat): (f: Option<Format>)
    ensures f.Some? ==> f.value.Valid()
  {
    match dataType
    case 0x2 => Some(Format(1, true))
    case 0x3 => Some(Format(2, true))
    case 0x10 => Some(Format(3, true))
    case 0x4 => Some(Format(4, true))
    case 0x12 => Some(Format(5, true))
    case 0x13 => Some(Format(6, true))
    case 0x14 => Some(Format(7, true))
    case 0x15 => Some(Format(8, true))
    case 0x5 => Some(Format(1, false))
    case 0x6 => Some(Format(2, false))
    case 0x16 => Some(Format(3, false))
    case 0x7 => Some(Format(4, false))
    case 0x18 => Some(Format(5, false))
    case 0x19 => Some(Format(6, false))
    case 0x1A => Some(Format(7, false))
    case 0x1B => Some(Format(8, false))
    case _ => None
  }

  function EncodeRaw(dataType: nat, v: int): Result<seq<byte>, Error>
    requires FormatOf(dataType).Some?
  {
    match Pack(FormatOf(dataType).value, v)
    case Ok(bs) => Ok(bs)
    case Err(_) => Err(ValueError)
  }

  function DecodeRaw(dataType: nat, data: seq<byte>): Result<int, Error>
    requires FormatOf(dataType).Some?
  {
    match Unpack(FormatOf(dataType).value, data)
    case Ok(v) => Ok(v)
    case Err(StructError) => Err(DictionaryError)
    case Err(e) => Err(e)
  }

  /**
   A raw value survives encoding exactly when it is in the range of its type.  Between that range
   and the range of the container nothing is raised, but another value comes back.
   */
  lemma {:induction false} RawRoundTrip(dataType: nat, v: int)
    requires FormatOf(dataType).Some?
    ensures var f := FormatOf(dataType).value;
            var encoded := EncodeRaw(dataType, v);
            && (InRange(v, f.bytes, f.signed)
                <==> encoded.Ok? && DecodeRaw(dataType, encoded.value) == Ok(v))
            && (encoded == Err(ValueError) <==> !InRange(v, f.Container(), f.signed))
  {
    UnpackAfterPack(FormatOf(dataType).value, v);
  }

  /** The gap is real: 2^24 is accepted for UNSIGNED24 and another value is read back. */
  lemma {:induction false} TruncationIsSilent()
    ensures EncodeRaw(0x16, 0x100_0000).Ok? && DecodeRaw(0x16, EncodeRaw(0x16, 0x100_0000).value) != Ok(0x100_0000)
  {
    Pow2Eight(0);
    Pow2Eight(1);
    Pow2Eight(2);
    Pow2Eight(3);
    RawRoundTrip(0x16, 0x100_0000);
  }

  // ----- the data types in numbers

  /** The signed and the unsigned integer types in the order of their widths: the k-th has k + 1 bytes. */
  const SIGNED_TYPES: seq<nat> := [0x2, 0x3, 0x10, 0x4, 0x12, 0x13, 0x14, 0x15]
  const UNSIGNED_TYPES: seq<nat> := [0x5, 0x6, 0x16, 0x7, 0x18, 0x19, 0x1A, 0x1B]

  lemma {:induction false} TypeFormats(k: nat)
    requires k < 8
    ensures FormatOf(SIGNED_TYPES[k]) == Some(Format(k + 1, true)) && FormatOf(UNSIGNED_TYPES[k]) == Some(Format(k + 1, false))
  {
  }

  /** An integer type reads the number its bytes make, low byte first, less 2^(8 n) if it is signed and the top bit is set. */
  lemma {:induction false} UnpackNumber(f: Format, buffer: seq<byte>)
    requires f.Valid() && |buffer| == f.bytes
    ensures Unpack(f, buffer)
            == Ok(FromLE(buffer) - if f.signed && buffer[f.bytes - 1] >= 0x80 then Pow2(8 * f.bytes) else 0)
  {
    var n := f.bytes;
    var negative := f.signed && buffer[n - 1] >= 0x80;
    UnpackBit(f, buffer, 0);
    var r, number := Unpack(f, buffer).value, FromLE(buffer) + Shl(if negative then -1 else 0, 8 * n);
    FromLERange(buffer);
    TopByte(buffer);
    forall i: nat ensures Bit(r, i) == Bit(number, i) {
      UnpackBit(f, buffer, i);
      FromLEBit(buffer, i);
      ConcatBit(FromLE(buffer), if negative then -1 else 0, 8 * n, i);
      if i >= 8 * n {
        ConstantBits(i - 8 * n);
      }
    }
    BitsDetermine(r, number);
    ShlIsTimes(if negative then -1 else 0, 8 * n);
  }

  lemma {:induction false} TopByte(buffer: seq<byte>)
    requires buffer != []
    ensures BufBit(buffer, 8 * |buffer| - 1) <==> buffer[|buffer| - 1] >= 0x80
  {
    var n := |buffer|;
    Pow2Eight(0);
    TopBit(buffer[n - 1], 8);
    assert (8 * n - 1) / 8 == n - 1 && (8 * n - 1) % 8 == 7;
  }

  /** What the bytes of every integer type mean. */
  lemma {:induction false} DecodesNumber(k: nat, data: seq<byte>)
    requires k < 8
    ensures var s, u := DecodeRaw(SIGNED_TYPES[k], data), DecodeRaw(UNSIGNED_TYPES[k], data);
            && (|data| != k + 1 ==> u == Err(DictionaryError))
            && (|data| != k + 1 ==> s == Err(if |data| <= k && k in {2, 4, 5, 6} then IndexError else DictionaryError))
            && (|data| == k + 1 ==> s.Ok? && u.Ok?)
            && (u.Ok? ==> u.value == FromLE(data))
            && (s.Ok? ==> s.value == FromLE(data) - if data[k] >= 0x80 then Pow2(8 * (k + 1)) else 0)
  {
    TypeFormats(k);
    PackAfterUnpack(Format(k + 1, true), data);
    PackAfterUnpack(Format(k + 1, false), data);
    if |data| == k + 1 {
      UnpackNumber(Format(k + 1, true), data);
      UnpackNumber(Format(k + 1, false), data);
    }
  }

  /** The bytes every integer type gives a number of its range: a negative one counts from 2^(8 n). */
  lemma {:induction false} EncodesNumber(k: nat, v: int)
    requires k < 8
    ensures 0 <= v < Pow2(8 * (k + 1)) ==>
              var u := EncodeRaw(UNSIGNED_TYPES[k], v); u.Ok? && |u.value| == k + 1 && FromLE(u.value) == v
    ensures -Pow2(8 * k + 7) <= v < Pow2(8 * k + 7) ==>
              var s := EncodeRaw(SIGNED_TYPES[k], v);
              s.Ok? && |s.value| == k + 1 && FromLE(s.value) == if v < 0 then v + Pow2(8 * (k + 1)) else v
  {
    TypeFormats(k);
    PacksNumber(Format(k + 1, true), v);
    PacksNumber(Format(k + 1, false), v);
  }

  /** What is refused: only what exceeds 1, 2, 4 or 8 bytes, whichever the type is packed through. */
  lemma {:induction false} EncodeRefuses(k: nat, v: int)
    requires k < 8
    ensures var bytes := if k == 0 then 1 else if k == 1 then 2 else if k in {2, 3} then 4 else 8;
            && (EncodeRaw(UNSIGNED_TYPES[k], v) == Err(ValueError) <==> v < 0 || v >= Pow2(8 * bytes))
            && (EncodeRaw(SIGNED_TYPES[k], v) == Err(ValueError) <==> v < -Pow2(8 * bytes - 1) || v >= Pow2(8 * bytes - 1))
  {
    TypeFormats(k);
    RawRoundTrip(UNSIGNED_TYPES[k], v);
    RawRoundTrip(SIGNED_TYPES[k], v);
  }

  lemma {:induction false} PacksNumber(f: Format, v: int)
    requires f.Valid()
    ensures InRange(v, f.bytes, f.signed) ==>
              var bs := Pack(f, v);
              bs.Ok? && |bs.value| == f.bytes && FromLE(bs.value) == if v < 0 then v + Pow2(8 * f.bytes) else v
  {
    if InRange(v, f.bytes, f.signed) {
      UnpackAfterPack(f, v);
      InRangeWidens(v, f.bytes, f.Container(), f.signed);
      UnpackNumber(f, Pack(f, v).value);
      FromLERange(Pack(f, v).value);
    }
  }
}

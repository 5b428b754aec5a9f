/**
 Variables packed at bit offsets into the data of one PDO message (`PdoVariable.get_data` and
 `set_data`), and the proof that the message behaves like one independent cell per variable.
 */
module PdoBuffer {
  import opened Common
  import opened Bits
  import opened Codec

  /** One mapped variable: the format of its object dictionary type, and its place in bits. */
  datatype PdoVariable = PdoVariable(index: nat, subindex: nat, format: Format, length: nat, offset: nat) {
    /** The cases the code shifts and masks; the others it copies byte by byte. */
    predicate Partial() {
      offset % 8 != 0 || length % 8 != 0
    }

    function Width(): nat {
      8 * format.bytes
    }
  }

  function Slice(data: seq<byte>, lo: nat, hi: nat): seq<byte>
    requires lo <= hi
  {
    data[Min(lo, |data|)..Min(hi, |data|)]
  }

  function Splice(data: seq<byte>, at: nat, bs: seq<byte>): seq<byte> {
    data[..Min(at, |data|)] + bs + data[Min(at + |bs|, |data|)..]
  }

  /** `PdoVariable.get_data` */
  function ReadField(data: seq<byte>, v: PdoVariable): Result<seq<byte>, Error>
    requires v.format.Valid()
  {
    var byteOffset, bitOffset := v.offset / 8, v.offset % 8;
    if !v.Partial() then Ok(Slice(data, byteOffset, byteOffset + v.format.bytes))
    else
      var size := v.format.Container();
      match StructUnpack(Slice(data, byteOffset, byteOffset + size), size, v.format.signed)
      case Err(e) => Err(e)
      case Ok(container) =>
        var x := And(Shr(container, bitOffset), LowMask(v.length));
        if v.format.signed && v.length == 0 then Err(ValueError)
        else if v.format.signed && Shl(1, v.length - 1) < x then Pack(v.format, Or(x, Not(LowMask(v.length))))
        else Pack(v.format, x)
  }

  /** `PdoVariable.set_data`: the message data afterwards. */
  function WriteField(data: seq<byte>, v: PdoVariable, value: seq<byte>): Result<seq<byte>, Error>
    requires v.format.Valid()
  {
    var byteOffset, bitOffset := v.offset / 8, v.offset % 8;
    if !v.Partial() then Ok(Splice(data, byteOffset, value))
    else
      match Unpack(v.format, Slice(data, byteOffset, byteOffset + v.format.bytes))
      case Err(e) => Err(e)
      case Ok(current) =>
        match Unpack(v.format, value)
        case Err(e) => Err(e)
        case Ok(x) =>
          PackField(data, v, Or(Shl(x, bitOffset), And(current, KeepMask(v))))
  }

  /** The message with `r` packed into the container of `v`, which has to lie in the message. */
  function PackField(data: seq<byte>, v: PdoVariable, r: int): Result<seq<byte>, Error>
    requires v.format.Valid()
  {
    match StructPack(r, v.format.Container(), v.format.signed)
    case Err(e) => Err(e)
    case Ok(bs) => if v.offset / 8 + |bs| <= |data| then Ok(Splice(data, v.offset / 8, bs)) else Err(StructError)
  }

  /** The container bits that do not belong to `v`. */
  function KeepMask(v: PdoVariable): int {
    And(Not(And(Shl(LowMask(v.length), v.offset % 8), LowMask(v.Width()))), LowMask(v.Width()))
  }

  // ----- which entries and values the buffer supports

  /** A byte-aligned variable mapped at the full width of its type. */
  predicate FullWidth(v: PdoVariable, size: nat) {
    && v.format.Valid()
    && !v.Partial()
    && v.length == v.Width()
    && v.offset + v.length <= 8 * size
  }

  /** A bit field inside one container of its type, the container lying inside the buffer. */
  predicate InContainer(v: PdoVariable, size: nat) {
    && v.format.Valid()
    && v.format.bytes == v.format.Container()
    && v.Partial()
    && 0 < v.length
    && v.offset % 8 + v.length <= v.Width()
    && v.offset / 8 + v.format.bytes <= size
  }

  /** A bit field that no write can spill out of: a signed one must end where its container ends. */
  predicate Cell(v: PdoVariable, size: nat) {
    FullWidth(v, size) || (InContainer(v, size) && (v.format.signed ==> v.offset % 8 + v.length == v.Width()))
  }

  /** `x` fits the mapped length of `v`. */
  predicate Fits(v: PdoVariable, x: int) {
    0 < v.length && if v.format.signed then -Pow2(v.length - 1) <= x < Pow2(v.length - 1) else 0 <= x < Pow2(v.length)
  }

  /** The bits of the field spell `x`. */
  ghost predicate Holds(data: seq<byte>, v: PdoVariable, x: int) {
    && v.offset + v.length <= 8 * |data|
    && forall i: nat :: i < v.length ==> BufBit(data, v.offset + i) == Bit(x, i)
  }

  /** What reading a field that holds `x` returns: the most negative value of a signed bit field loses its sign. */
  function Seen(v: PdoVariable, x: int): int {
    if v.Partial() && v.format.signed && v.length > 0 && x == -Pow2(v.length - 1) then -x else x
  }

  // ----- bits of the masks

  lemma {:induction false} KeepMaskBit(v: PdoVariable, i: nat)
    ensures Bit(KeepMask(v), i) == (i < v.Width() && !(v.offset % 8 <= i < v.offset % 8 + v.length))
    ensures KeepMask(v) >= 0
  {
    var w, b := v.Width(), v.offset % 8;
    var shifted := And(Shl(LowMask(v.length), b), LowMask(w));
    AndBit(Not(shifted), LowMask(w), i);
    NotBit(shifted, i);
    AndBit(Shl(LowMask(v.length), b), LowMask(w), i);
    LowMaskBit(w, i);
    ShlBit(LowMask(v.length), b, i);
    if i >= b {
      LowMaskBit(v.length, i - b);
    }
    LowMaskSign(w);
    AndSign(Not(shifted), LowMask(w));
  }

  lemma {:induction false} LowMaskSign(n: nat)
    ensures LowMask(n) >= 0
  {
    ShlIsTimes(1, n);
  }

  lemma {:induction false} ShlSign(x: int, n: nat)
    ensures Shl(x, n) < 0 <==> x < 0
  {
    if n > 0 {
      ShlSign(x, n - 1);
    }
  }

  lemma {:induction false} FitsBits(v: PdoVariable, x: int, i: nat)
    requires Fits(v, x) && i >= v.length
    ensures Bit(x, i) == (x < 0)
  {
    var n := if v.format.signed then v.length - 1 else v.length;
    RangeIsSignBits(x, n);
    assert SignFrom(x, n);
  }

  lemma {:induction false} FitsTopBit(v: PdoVariable, x: int)
    requires Fits(v, x) && v.format.signed
    ensures Bit(x, v.length - 1) == (x < 0)
  {
    RangeIsSignBits(x, v.length - 1);
    assert SignFrom(x, v.length - 1);
  }

  lemma {:induction false} SliceBit(data: seq<byte>, at: nat, n: nat, i: nat)
    requires at + n <= |data| && i < 8 * n
    ensures BufBit(Slice(data, at, at + n), i) == BufBit(data, 8 * at + i)
  {
    assert (8 * at + i) / 8 == at + i / 8 && (8 * at + i) % 8 == i % 8;
  }

  lemma {:induction false} SpliceBit(data: seq<byte>, at: nat, bs: seq<byte>, i: nat)
    requires at + |bs| <= |data| && i < 8 * |data|
    ensures |Splice(data, at, bs)| == |data|
    ensures BufBit(Splice(data, at, bs), i)
            == if 8 * at <= i < 8 * (at + |bs|) then BufBit(bs, i - 8 * at) else BufBit(data, i)
  {
    if 8 * at <= i {
      assert i / 8 == at + (i - 8 * at) / 8 && i % 8 == (i - 8 * at) % 8;
    }
  }

  // ----- what a write does

  /** The value after the read-modify-write, bit by bit. */
  lemma {:induction false} MergedWith(v: PdoVariable, x: int, current: int, i: nat)
    ensures var b := v.offset % 8;
            var r := Or(Shl(x, b), And(current, KeepMask(v)));
            && (r < 0 <==> x < 0)
            && Bit(r, i) == ((i >= b && Bit(x, i - b)) || (i < v.Width() && !(b <= i < b + v.length) && Bit(current, i)))
  {
    var b := v.offset % 8;
    var kept := And(current, KeepMask(v));
    OrSign(Shl(x, b), kept);
    ShlSign(x, b);
    KeepMaskBit(v, i);
    AndSign(current, KeepMask(v));
    OrBit(Shl(x, b), kept, i);
    AndBit(current, KeepMask(v), i);
    ShlBit(x, b, i);
  }

  /** What the type holds before the write. */
  lemma {:induction false} CurrentBit(data: seq<byte>, v: PdoVariable, i: nat)
    requires v.format.Valid() && v.offset / 8 + v.format.bytes <= |data| && i < v.Width()
    ensures var current := Unpack(v.format, Slice(data, v.offset / 8, v.offset / 8 + v.format.bytes));
            current.Ok? && Bit(current.value, i) == BufBit(data, 8 * (v.offset / 8) + i)
  {
    var at := v.offset / 8;
    UnpackBit(v.format, Slice(data, at, at + v.format.bytes), i);
    SliceBit(data, at, v.format.bytes, i);
  }

  /** Bit of the message where the type of `v` ends, and where the container ends that it is packed through. */
  function TypeEnd(v: PdoVariable): nat {
    8 * (v.offset / 8) + v.Width()
  }

  function ContainerEnd(v: PdoVariable): nat {
    8 * (v.offset / 8 + v.format.Container())
  }

  /** The container lies inside the message. */
  predicate HasRoom(data: seq<byte>, v: PdoVariable) {
    v.offset / 8 + v.format.Container() <= |data|
  }

  /** A bit of the type that is not the field's, and set. */
  predicate KeptBit(data: seq<byte>, v: PdoVariable, i: nat)
    requires i < 8 * |data|
  {
    i < TypeEnd(v) && !(v.offset <= i < v.offset + v.length) && BufBit(data, i)
  }

  /** Bit `i` of the message after writing `x` to the bit field `v`. */
  predicate BitAfter(data: seq<byte>, v: PdoVariable, x: int, i: nat)
    requires i < 8 * |data|
  {
    if 8 * (v.offset / 8) <= i < ContainerEnd(v) then (i >= v.offset && Bit(x, i - v.offset)) || KeptBit(data, v, i)
    else BufBit(data, i)
  }

  /**
   The value shifted to its place does not go into the container.  For a signed type the container's top bit
   counts as the sign, whoever owns it: set, it is needed for a negative value that reaches up to it, and in
   the way of any other.
   */
  predicate Overflows(data: seq<byte>, v: PdoVariable, x: int)
    requires HasRoom(data, v)
  {
    var room := 8 * v.format.Container() - v.offset % 8;
    if !v.format.signed then x >= Pow2(room)
    else
      var top := v.format.Valid() && KeptBit(data, v, ContainerEnd(v) - 1);
      if x >= 0 then x >= Pow2(room - 1) || top
      else x < -Pow2(room) || (x < -Pow2(room - 1) && !top)
  }

  /**
   The whole effect of writing a bit field, for every entry and every value of its type: it raises exactly
   when the container does not lie in the message or does not take the value; otherwise every bit of the
   message is known, those of the neighbours included.
   */
  lemma {:induction false} WritePartial(data: seq<byte>, v: PdoVariable, x: int)
    requires v.format.Valid() && v.Partial() && InRange(x, v.format.bytes, v.format.signed)
    ensures var r := WriteField(data, v, ToLE(x, v.format.bytes));
            && (r.Ok? <==> HasRoom(data, v) && !Overflows(data, v, x))
            && (r.Ok? ==> |r.value| == |data|
                          && forall i: nat :: i < 8 * |data| ==> BufBit(r.value, i) == BitAfter(data, v, x, i))
  {
    UnpackToLE(v.format, x);
    if v.offset / 8 + v.format.bytes <= |data| {
      var current, r := WriteUnfolds(data, v, x);
      if HasRoom(data, v) {
        MergedInRange(data, v, x, current, r);
        var s := Splice(data, v.offset / 8, ToLE(r, v.format.Container()));
        assert |s| == |data|;
        forall i: nat | i < 8 * |data| ensures BufBit(s, i) == BitAfter(data, v, x, i) {
          WrittenBit(data, v, x, current, r, i);
        }
      }
    } else {
      ShortUnpack(v.format, Slice(data, v.offset / 8, v.offset / 8 + v.format.bytes));
    }
  }

  lemma {:induction false} ShortUnpack(f: Format, buffer: seq<byte>)
    requires f.Valid() && |buffer| < f.bytes
    ensures Unpack(f, buffer).Err?
  {
    PackAfterUnpack(f, buffer);
  }

  lemma {:induction false} WrittenBit(data: seq<byte>, v: PdoVariable, x: int, current: int, r: int, i: nat)
    requires v.format.Valid() && HasRoom(data, v) && i < 8 * |data|
    requires Unpack(v.format, Slice(data, v.offset / 8, v.offset / 8 + v.format.bytes)) == Ok(current)
    requires r == Or(Shl(x, v.offset % 8), And(current, KeepMask(v)))
    ensures var s := Splice(data, v.offset / 8, ToLE(r, v.format.Container()));
            |s| == |data| && BufBit(s, i) == BitAfter(data, v, x, i)
  {
    var at := 8 * (v.offset / 8);
    if at <= i < ContainerEnd(v) {
      MergedWith(v, x, current, i - at);
      if i < TypeEnd(v) {
        CurrentBit(data, v, i - at);
      }
      assert Bit(r, i - at) == BitAfter(data, v, x, i);
    }
    SplicedBit(data, v, r, BitAfter(data, v, x, i), i);
  }

  /** Splicing in a container that has the bit the message should have there. */
  lemma {:induction false} SplicedBit(data: seq<byte>, v: PdoVariable, r: int, bit: bool, i: nat)
    requires HasRoom(data, v) && i < 8 * |data|
    requires bit == if 8 * (v.offset / 8) <= i < ContainerEnd(v) then Bit(r, i - 8 * (v.offset / 8)) else BufBit(data, i)
    ensures var s := Splice(data, v.offset / 8, ToLE(r, v.format.Container())); |s| == |data| && BufBit(s, i) == bit
  {
    var at, n := v.offset / 8, v.format.Container();
    SpliceBit(data, at, ToLE(r, n), i);
    if 8 * at <= i < 8 * (at + n) {
      ToLEBit(r, n, i - 8 * at);
    }
  }

  /** `set_data` of a bit field, with the two values it reads given. */
  lemma {:induction false} WriteFieldSteps(data: seq<byte>, v: PdoVariable, value: seq<byte>, x: int, current: int, r: int)
    requires v.format.Valid() && v.Partial()
    requires Unpack(v.format, Slice(data, v.offset / 8, v.offset / 8 + v.format.bytes)) == Ok(current)
    requires Unpack(v.format, value) == Ok(x)
    requires r == Or(Shl(x, v.offset % 8), And(current, KeepMask(v)))
    ensures WriteField(data, v, value) == PackField(data, v, r)
  {
  }

  lemma {:induction false} PackFieldIs(data: seq<byte>, v: PdoVariable, r: int)
    requires v.format.Valid()
    ensures PackField(data, v, r)
            == if InRange(r, v.format.Container(), v.format.signed) && HasRoom(data, v)
               then Ok(Splice(data, v.offset / 8, ToLE(r, v.format.Container()))) else Err(StructError)
  {
  }

  lemma {:induction false} WriteUnfolds(data: seq<byte>, v: PdoVariable, x: int) returns (current: int, r: int)
    requires v.format.Valid() && v.Partial() && InRange(x, v.format.bytes, v.format.signed)
    requires v.offset / 8 + v.format.bytes <= |data|
    ensures Unpack(v.format, Slice(data, v.offset / 8, v.offset / 8 + v.format.bytes)) == Ok(current)
    ensures r == Or(Shl(x, v.offset % 8), And(current, KeepMask(v)))
    ensures WriteField(data, v, ToLE(x, v.format.bytes))
            == if InRange(r, v.format.Container(), v.format.signed) && HasRoom(data, v)
               then Ok(Splice(data, v.offset / 8, ToLE(r, v.format.Container()))) else Err(StructError)
  {
    UnpackToLE(v.format, x);
    CurrentBit(data, v, 0);
    current := Unpack(v.format, Slice(data, v.offset / 8, v.offset / 8 + v.format.bytes)).value;
    r := Or(Shl(x, v.offset % 8), And(current, KeepMask(v)));
    WriteFieldSteps(data, v, ToLE(x, v.format.bytes), x, current, r);
    PackFieldIs(data, v, r);
  }

  lemma {:induction false} PackableFits(v: PdoVariable, x: int)
    requires v.format.Valid() && v.length <= v.Width() && Fits(v, x)
    ensures InRange(x, v.format.bytes, v.format.signed)
  {
    Pow2Monotone(v.length, v.Width());
    Pow2Monotone(v.length - 1, v.Width() - 1);
  }

  /** One more bit that repeats the sign. */
  lemma {:induction false} SignFromNext(x: int, n: nat, m: nat)
    requires m == n + 1
    ensures SignFrom(x, n) <==> SignFrom(x, m) && Bit(x, n) == (x < 0)
  {
  }

  /** `r` continues as `x` does, `b` places further up. */
  lemma {:induction false} SignFromShifted(r: int, x: int, b: nat, m: nat, n: nat)
    requires n == m + b && (r < 0 <==> x < 0) && forall i: nat :: i >= n ==> Bit(r, i) == Bit(x, i - b)
    ensures SignFrom(r, n) <==> SignFrom(x, m)
  {
    if SignFrom(r, n) {
      forall i: nat | i >= m ensures Bit(x, i) == (x < 0) {
        assert Bit(r, i + b) == Bit(x, i + b - b);
      }
    }
  }

  /** The top bit of the container decides the sign that a reader of the container sees. */
  lemma {:induction false} MergedTop(data: seq<byte>, v: PdoVariable, x: int, current: int, r: int, c: nat)
    requires v.format.Valid() && HasRoom(data, v) && c == 8 * v.format.Container()
    requires Unpack(v.format, Slice(data, v.offset / 8, v.offset / 8 + v.format.bytes)) == Ok(current)
    requires r == Or(Shl(x, v.offset % 8), And(current, KeepMask(v)))
    ensures Bit(r, c - 1) == (Bit(x, c - 1 - v.offset % 8) || KeptBit(data, v, ContainerEnd(v) - 1))
  {
    MergedWith(v, x, current, c - 1);
    if c == v.Width() {
      CurrentBit(data, v, c - 1);
    }
  }

  lemma {:induction false} MergedInRange(data: seq<byte>, v: PdoVariable, x: int, current: int, r: int)
    requires v.format.Valid() && HasRoom(data, v) && (!v.format.signed ==> x >= 0)
    requires Unpack(v.format, Slice(data, v.offset / 8, v.offset / 8 + v.format.bytes)) == Ok(current)
    requires r == Or(Shl(x, v.offset % 8), And(current, KeepMask(v)))
    ensures InRange(r, v.format.Container(), v.format.signed) <==> !Overflows(data, v, x)
  {
    var room := 8 * v.format.Container() - v.offset % 8;
    InRangeBits(r, v.format.Container(), v.format.signed);
    MergedSigns(v, x, current, r, 8 * v.format.Container());
    RangeIsSignBits(x, room);
    if v.format.signed {
      MergedTop(data, v, x, current, r, 8 * v.format.Container());
      SignFromNext(r, 8 * v.format.Container() - 1, 8 * v.format.Container());
      SignFromNext(x, room - 1, room);
      RangeIsSignBits(x, room - 1);
    }
  }

  lemma {:induction false} MergedSigns(v: PdoVariable, x: int, current: int, r: int, c: nat)
    requires v.format.Valid() && c == 8 * v.format.Container() && r == Or(Shl(x, v.offset % 8), And(current, KeepMask(v)))
    ensures (r < 0 <==> x < 0) && (SignFrom(r, c) <==> SignFrom(x, c - v.offset % 8))
  {
    var b := v.offset % 8;
    MergedWith(v, x, current, 0);
    forall i: nat | i >= c ensures Bit(r, i) == Bit(x, i - b) {
      MergedWith(v, x, current, i);
    }
    SignFromShifted(r, x, b, c - b, c);
  }

  /** Writing a byte-aligned field puts in the whole integer, whatever length is mapped, and may make the message longer. */
  lemma {:induction false} WriteAligned(data: seq<byte>, v: PdoVariable, x: int)
    requires v.format.Valid() && !v.Partial()
    ensures var r := WriteField(data, v, ToLE(x, v.format.bytes));
            var start := 8 * Min(v.offset / 8, |data|);
            && r.Ok? && 8 * |r.value| == (if start + v.Width() <= 8 * |data| then 8 * |data| else start + v.Width())
            && forall i: nat :: i < 8 * |r.value| ==>
                 if start <= i < start + v.Width() then BufBit(r.value, i) == Bit(x, i - start)
                 else i < 8 * |data| && BufBit(r.value, i) == BufBit(data, i)
  {
    var at, bs := Min(v.offset / 8, |data|), ToLE(x, v.format.bytes);
    var s := Splice(data, v.offset / 8, bs);
    forall i: nat | i < 8 * |s|
      ensures if 8 * at <= i < 8 * at + v.Width() then BufBit(s, i) == Bit(x, i - 8 * at)
              else i < 8 * |data| && BufBit(s, i) == BufBit(data, i)
    {
      if 8 * at <= i < 8 * at + v.Width() {
        ToLEBit(x, v.format.bytes, i - 8 * at);
        assert i / 8 == at + (i - 8 * at) / 8 && i % 8 == (i - 8 * at) % 8;
        assert s[i / 8] == bs[(i - 8 * at) / 8];
      } else {
        assert s[i / 8] == data[i / 8];
      }
    }
  }

  /** Only the bits of the field change. */
  ghost predicate OnlyField(data: seq<byte>, v: PdoVariable, after: seq<byte>) {
    && |after| == |data|
    && forall i: nat :: i < 8 * |data| && !(v.offset <= i < v.offset + v.length) ==> BufBit(after, i) == BufBit(data, i)
  }

  /**
   A byte-aligned field keeps to itself exactly when the whole integer lies in the message and what of it is
   not mapped is there already.
   */
  lemma {:induction false} WriteShortened(data: seq<byte>, v: PdoVariable, x: int)
    requires v.format.Valid() && !v.Partial()
    ensures var r := WriteField(data, v, ToLE(x, v.format.bytes));
            && r.Ok?
            && (OnlyField(data, v, r.value)
                <==> && v.offset + v.Width() <= 8 * |data|
                     && forall i: nat :: v.offset + v.length <= i < v.offset + v.Width() ==> BufBit(data, i) == Bit(x, i - v.offset))
  {
    WriteAligned(data, v, x);
    assert v.offset == 8 * (v.offset / 8);
  }

  /** A cell's container takes every value that fits the field. */
  lemma {:induction false} CellTakes(data: seq<byte>, v: PdoVariable, x: int)
    requires Cell(v, |data|) && v.Partial() && Fits(v, x)
    ensures HasRoom(data, v) && !Overflows(data, v, x) && ContainerEnd(v) == TypeEnd(v)
  {
    var room := v.Width() - v.offset % 8;
    Pow2Monotone(v.length, room);
    if v.format.signed {
      assert v.length == room;
    }
  }

  /** A write to a cell succeeds, stores the value in the field and leaves every other bit alone. */
  lemma {:induction false} WriteCell(data: seq<byte>, v: PdoVariable, x: int)
    requires Cell(v, |data|) && Fits(v, x)
    ensures var r := WriteField(data, v, ToLE(x, v.format.bytes));
            r.Ok? && OnlyField(data, v, r.value) && Holds(r.value, v, x)
  {
    PackableFits(v, x);
    if v.Partial() {
      CellTakes(data, v, x);
      WritePartial(data, v, x);
      var after := WriteField(data, v, ToLE(x, v.format.bytes)).value;
      forall i: nat | i < 8 * |data|
        ensures BufBit(after, i) == if v.offset <= i < v.offset + v.length then Bit(x, i - v.offset) else BufBit(data, i)
      {
        CellBitAfter(data, v, x, i);
      }
    } else {
      WriteAligned(data, v, x);
    }
  }

  lemma {:induction false} CellBitAfter(data: seq<byte>, v: PdoVariable, x: int, i: nat)
    requires Cell(v, |data|) && v.Partial() && Fits(v, x) && i < 8 * |data|
    ensures BitAfter(data, v, x, i) == if v.offset <= i < v.offset + v.length then Bit(x, i - v.offset) else BufBit(data, i)
  {
    if v.offset + v.length <= i {
      FitsBits(v, x, i - v.offset);
    }
  }

  /**
   Behind the field, up to the end of the container, the message already has what the write puts there: it
   sets the bits of the value that go beyond the field, and clears all others behind the type.
   */
  ghost predicate Blends(data: seq<byte>, v: PdoVariable, x: int)
    requires HasRoom(data, v)
  {
    forall i: nat :: v.offset + v.length <= i < ContainerEnd(v) ==>
      if i < TypeEnd(v) then Bit(x, i - v.offset) ==> BufBit(data, i) else BufBit(data, i) == Bit(x, i - v.offset)
  }

  /** Which writes of a bit field keep to themselves, for every entry and every value of its type. */
  lemma {:induction false} WriteKeepsToItself(data: seq<byte>, v: PdoVariable, x: int)
    requires v.format.Valid() && v.Partial() && InRange(x, v.format.bytes, v.format.signed)
    ensures var r := WriteField(data, v, ToLE(x, v.format.bytes));
            r.Ok? && OnlyField(data, v, r.value) <==> HasRoom(data, v) && !Overflows(data, v, x) && Blends(data, v, x)
  {
    WritePartial(data, v, x);
    var r := WriteField(data, v, ToLE(x, v.format.bytes));
    if r.Ok? {
      KeptBits(data, v, x, r.value);
    }
  }

  lemma {:induction false} KeptBits(data: seq<byte>, v: PdoVariable, x: int, after: seq<byte>)
    requires v.format.Valid() && HasRoom(data, v) && |after| == |data|
    requires forall i: nat :: i < 8 * |data| ==> BufBit(after, i) == BitAfter(data, v, x, i)
    ensures OnlyField(data, v, after) <==> Blends(data, v, x)
  {
    if OnlyField(data, v, after) {
      forall i: nat | v.offset + v.length <= i < ContainerEnd(v)
        ensures if i < TypeEnd(v) then Bit(x, i - v.offset) ==> BufBit(data, i) else BufBit(data, i) == Bit(x, i - v.offset)
      {
        assert BufBit(after, i) == BufBit(data, i);
      }
    }
  }

  /** For a value that fits the field: behind the field (a negative value) or behind the type there is its sign. */
  lemma {:induction false} FittingBlends(data: seq<byte>, v: PdoVariable, x: int)
    requires v.format.Valid() && HasRoom(data, v) && Fits(v, x)
    ensures Blends(data, v, x)
            <==> forall i: nat :: v.offset + v.length <= i < ContainerEnd(v) && (x < 0 || i >= TypeEnd(v)) ==> BufBit(data, i) == (x < 0)
  {
    forall j: nat | j >= v.length ensures Bit(x, j) == (x < 0) {
      FitsBits(v, x, j);
    }
    if Blends(data, v, x) {
      forall i: nat | v.offset + v.length <= i < ContainerEnd(v) && (x < 0 || i >= TypeEnd(v))
        ensures BufBit(data, i) == (x < 0)
      {
        assert Bit(x, i - v.offset) == (x < 0);
      }
    }
  }

  // ----- what a read returns

  /** Bit `i` of the field as a read sees it: behind the container comes its sign, if the type has one. */
  predicate SeenBit(data: seq<byte>, v: PdoVariable, i: nat)
    requires v.format.Valid() && HasRoom(data, v)
  {
    if v.offset + i < ContainerEnd(v) then BufBit(data, v.offset + i)
    else v.format.signed && BufBit(data, ContainerEnd(v) - 1)
  }

  /** The field, as a read sees it, spells `x`. */
  ghost predicate Spells(data: seq<byte>, v: PdoVariable, x: int)
    requires v.format.Valid() && HasRoom(data, v)
  {
    forall i: nat :: i < v.length ==> SeenBit(data, v, i) == Bit(x, i)
  }

  lemma {:induction false} ReadBit(data: seq<byte>, v: PdoVariable, container: int, i: nat)
    requires v.format.Valid() && HasRoom(data, v)
    requires StructUnpack(Slice(data, v.offset / 8, v.offset / 8 + v.format.Container()), v.format.Container(), v.format.signed)
             == Ok(container)
    ensures Bit(And(Shr(container, v.offset % 8), LowMask(v.length)), i) == (i < v.length && SeenBit(data, v, i))
    ensures And(Shr(container, v.offset % 8), LowMask(v.length)) >= 0
  {
    var b, at, n := v.offset % 8, v.offset / 8, v.format.Container();
    AndBit(Shr(container, b), LowMask(v.length), i);
    LowMaskBit(v.length, i);
    LowMaskSign(v.length);
    AndSign(Shr(container, b), LowMask(v.length));
    ShrBit(container, b, i);
    ContainerBit(data, v, i + b);
  }

  /** What the container holds, sign and all. */
  lemma {:induction false} ContainerBit(data: seq<byte>, v: PdoVariable, i: nat)
    requires v.format.Valid() && HasRoom(data, v)
    ensures var n := v.format.Container();
            var u := StructUnpack(Slice(data, v.offset / 8, v.offset / 8 + n), n, v.format.signed);
            u.Ok? && Bit(u.value, i) == if i < 8 * n then BufBit(data, 8 * (v.offset / 8) + i)
                                        else v.format.signed && BufBit(data, ContainerEnd(v) - 1)
  {
    var at, n := v.offset / 8, v.format.Container();
    StructUnpackBit(Slice(data, at, at + n), n, v.format.signed, i);
    SliceBit(data, at, n, if i < 8 * n then i else 8 * n - 1);
  }

  /** The low `n` bits of a negative `x`, read as a natural number. */
  lemma {:induction false} LowBitsOfNegative(x: int, y: nat, n: nat)
    requires -Pow2(n) <= x < 0
    requires forall i: nat :: Bit(y, i) == (i < n && Bit(x, i))
    ensures y == x + Pow2(n)
  {
    ShlIsTimes(-1, n);
    NonNegativeRange(x + Pow2(n), n);
    forall i: nat ensures Bit(y, i) == Bit(x + Pow2(n), i) {
      ConcatBit(x + Pow2(n), -1, n, i);
    }
    BitsDetermine(y, x + Pow2(n));
  }

  lemma {:induction false} SignExtended(x: int, y: int, n: nat)
    requires n > 0 && -Pow2(n - 1) <= x < 0
    requires forall i: nat :: Bit(y, i) == (i < n && Bit(x, i))
    ensures Or(y, Not(LowMask(n))) == x
  {
    RangeIsSignBits(x, n - 1);
    forall i: nat ensures Bit(Or(y, Not(LowMask(n))), i) == Bit(x, i) {
      OrBit(y, Not(LowMask(n)), i);
      NotBit(LowMask(n), i);
      LowMaskBit(n, i);
      assert i >= n - 1 ==> Bit(x, i) == (x < 0);
    }
    BitsDetermine(Or(y, Not(LowMask(n))), x);
  }

  /** Reading a cell that holds `x` returns `x`, except for the one value whose sign the code drops. */
  lemma {:induction false} ReadCell(data: seq<byte>, v: PdoVariable, x: int)
    requires Cell(v, |data|) && Fits(v, x) && Holds(data, v, x)
    ensures ReadField(data, v) == Ok(ToLE(Seen(v, x), v.format.bytes))
  {
    if v.Partial() {
      assert HasRoom(data, v) && v.offset + v.length <= ContainerEnd(v);
      forall i: nat | i < v.length ensures SeenBit(data, v, i) == Bit(x, i) {
        assert BufBit(data, v.offset + i) == Bit(x, i);
      }
      ReadPartial(data, v, x);
    } else {
      var at, n := v.offset / 8, v.format.bytes;
      forall i: nat | i < 8 * n ensures BufBit(Slice(data, at, at + n), i) == BufBit(ToLE(x, n), i) {
        SliceBit(data, at, n, i);
        ToLEBit(x, n, i);
        assert BufBit(data, v.offset + i) == Bit(x, i);
      }
      BufBitsDetermine(Slice(data, at, at + n), ToLE(x, n));
    }
  }

  /** Reading a bit field: cut `y` out of the container, and extend its sign if it looks negative. */
  lemma {:induction false} ReadUnfolds(data: seq<byte>, v: PdoVariable, container: int, y: int)
    requires v.format.Valid() && v.Partial() && v.length > 0
    requires StructUnpack(Slice(data, v.offset / 8, v.offset / 8 + v.format.Container()), v.format.Container(), v.format.signed)
             == Ok(container)
    requires y == And(Shr(container, v.offset % 8), LowMask(v.length))
    ensures ReadField(data, v)
            == Pack(v.format, if v.format.signed && Shl(1, v.length - 1) < y then Or(y, Not(LowMask(v.length))) else y)
  {
  }

  /**
   Reading a bit field, for every entry: it raises exactly when the container does not lie in the message, and
   otherwise returns the value the field spells.
   */
  lemma {:induction false} ReadPartial(data: seq<byte>, v: PdoVariable, x: int)
    requires v.format.Valid() && v.Partial() && Fits(v, x) && (HasRoom(data, v) ==> Spells(data, v, x))
    ensures ReadField(data, v) == if HasRoom(data, v) then Ok(ToLE(Seen(v, x), v.format.bytes)) else Err(StructError)
  {
    var at, n := v.offset / 8, v.format.Container();
    if HasRoom(data, v) {
      var container := StructUnpack(Slice(data, at, at + n), n, v.format.signed).value;
      var y := And(Shr(container, v.offset % 8), LowMask(v.length));
      ReadBit(data, v, container, 0);
      forall i: nat ensures Bit(y, i) == (i < v.length && Bit(x, i)) {
        ReadBit(data, v, container, i);
      }
      ReadUnfolds(data, v, container, y);
      CutOut(v, x, y);
      SpelledInRange(data, v, x);
      ToLEPrefix(Seen(v, x), n, v.format.bytes);
    }
  }

  /** From the bits of the field to the value a reader sees. */
  lemma {:induction false} CutOut(v: PdoVariable, x: int, y: int)
    requires v.Partial() && Fits(v, x) && y >= 0 && forall i: nat :: Bit(y, i) == (i < v.length && Bit(x, i))
    ensures (if v.format.signed && Shl(1, v.length - 1) < y then Or(y, Not(LowMask(v.length))) else y) == Seen(v, x)
  {
    ShlIsTimes(1, v.length - 1);
    if x >= 0 {
      forall i: nat ensures Bit(y, i) == Bit(x, i) {
        if i >= v.length {
          FitsBits(v, x, i);
        }
      }
      BitsDetermine(y, x);
    } else {
      LowBitsOfNegative(x, y, v.length);
      SignExtended(x, y, v.length);
    }
  }

  /** What a read sees goes back into the container: behind it the field only repeats the sign. */
  lemma {:induction false} SpelledInRange(data: seq<byte>, v: PdoVariable, x: int)
    requires v.format.Valid() && v.Partial() && HasRoom(data, v) && Fits(v, x) && Spells(data, v, x)
    ensures InRange(Seen(v, x), v.format.Container(), v.format.signed)
  {
    var c := 8 * v.format.Container();
    var room := c - v.offset % 8;
    if v.length <= room {
      Pow2Monotone(v.length, c);
      if v.format.signed {
        Pow2Monotone(v.length, c - 1);
      }
    } else if v.format.signed {
      forall i: nat | i >= room - 1 ensures Bit(x, i) == (x < 0) {
        FitsBits(v, x, v.length);
        FitsTopBit(v, x);
        if i < v.length {
          assert SeenBit(data, v, i) == Bit(x, i) && SeenBit(data, v, v.length - 1) == Bit(x, v.length - 1);
        } else {
          FitsBits(v, x, i);
        }
      }
      RangeIsSignBits(x, room - 1);
      Pow2Monotone(room, v.length - 1);
      Pow2Monotone(room - 1, c - 1);
    } else {
      forall i: nat | i >= room ensures !Bit(x, i) {
        if i < v.length {
          assert SeenBit(data, v, i) == Bit(x, i);
        } else {
          FitsBits(v, x, i);
        }
      }
      NonNegativeRange(x, room);
      Pow2Monotone(room, c);
    }
  }

  // ----- entries that map without complaint and then do not work

  /** Five bits of an UNSIGNED8 across a byte boundary: 31 fits the field, and writing it raises. */
  lemma {:induction false} FieldAcrossTypeRaises(data: seq<byte>, v: PdoVariable)
    requires v.format == Format(1, false) && v.length == 5 && v.offset == 6
    ensures Fits(v, 31) && WriteField(data, v, ToLE(31, 1)).Err?
  {
    Pow2Eight(0);
    assert Pow2(5) == 32 && Pow2(2) == 4;
    WritePartial(data, v, 31);
  }

  /** Twenty bits of an UNSIGNED24 that end where the message ends: every write and every read raises. */
  lemma {:induction false} ContainerPastEndRaises(data: seq<byte>, v: PdoVariable, x: int)
    requires v.format == Format(3, false) && v.length == 20 && v.offset == 4 && |data| == 3 && InRange(x, 3, false)
    ensures WriteField(data, v, ToLE(x, 3)).Err? && ReadField(data, v).Err?
  {
    WritePartial(data, v, x);
    ReadPartial(data, v, 0);
  }

  /** Eight bits of an UNSIGNED16 as the only entry: a write makes the message of one byte a message of two. */
  lemma {:induction false} ShortenedGrowsMessage(data: seq<byte>, v: PdoVariable, x: int)
    requires v.format == Format(2, false) && v.length == 8 && v.offset == 0 && |data| == 1
    ensures var r := WriteField(data, v, ToLE(x, 2)); r.Ok? && |r.value| == 2
  {
    WriteAligned(data, v, x);
  }
}

/** Bit-field access to an integer variable: `ODVariable.encode_bits` and `decode_bits`. */
module BitFields {
  import opened Common
  import opened Bits

  /** Either a registered lookup name or a concrete collection of bit offsets. */
  datatype BitsRef = Named(name: string) | Listed(offsets: seq<int>)

  datatype Error = KeyError | ValueError

  /** Offsets the operations accept: a negative one cannot be shifted by, and none has a minimum. */
  predicate Usable(offsets: seq<int>) {
    offsets != [] && forall b :: b in offsets ==> b >= 0
  }

  function Lowest(offsets: seq<int>): (low: int)
    requires offsets != []
    ensures low in offsets
    ensures forall b :: b in offsets ==> low <= b
  {
    if |offsets| == 1 then offsets[0]
    else
      assert offsets == [offsets[0]] + offsets[1..];
      Min(offsets[0], Lowest(offsets[1..]))
  }

  /** `r` is `value` with the listed bits replaced by the bits of `pattern`, counted from the lowest offset. */
  ghost predicate IsMerged(r: int, value: int, offsets: seq<int>, pattern: int)
    requires Usable(offsets)
  {
    forall i: nat :: Bit(r, i) == if i in offsets then Bit(pattern, i - Lowest(offsets)) else Bit(value, i)
  }

  /** `r` holds the listed bits of `value`, moved down to the lowest offset, and nothing else. */
  ghost predicate IsIsolated(r: int, value: int, offsets: seq<int>)
    requires Usable(offsets)
  {
    forall j: nat :: Bit(r, j) == (j + Lowest(offsets) in offsets && Bit(value, j + Lowest(offsets)))
  }

  /** `m` has exactly the listed bits. */
  ghost predicate IsMask(m: int, offsets: seq<int>) {
    forall i: nat :: Bit(m, i) <==> i in offsets
  }

  method BuildMask(offsets: seq<int>) returns (mask: Result<int, Error>)
    ensures mask.Ok? <==> forall b :: b in offsets ==> b >= 0
    ensures mask.Err? ==> mask.error == ValueError
    ensures mask.Ok? ==> IsMask(mask.value, offsets)
  {
    var m := 0;
    forall i: nat ensures !Bit(0, i) {
      ConstantBits(i);
    }
    for k := 0 to |offsets|
      invariant forall b :: b in offsets[..k] ==> b >= 0
      invariant forall i: nat :: Bit(m, i) <==> i in offsets[..k]
    {
      if offsets[k] < 0 {
        assert offsets[k] in offsets;
        return Err(ValueError);
      }
      var bit := Shl(1, offsets[k]);
      forall i: nat ensures Bit(Or(m, bit), i) == (Bit(m, i) || i == offsets[k]) {
        OrBit(m, bit, i);
        OneShlBit(offsets[k], i);
      }
      m := Or(m, bit);
      assert offsets[..k + 1] == offsets[..k] + [offsets[k]];
    }
    assert offsets[..|offsets|] == offsets;
    return Ok(m);
  }

  lemma {:induction false} Isolates(value: int, offsets: seq<int>, m: int)
    requires Usable(offsets) && IsMask(m, offsets)
    ensures IsIsolated(Shr(And(value, m), Lowest(offsets)), value, offsets)
  {
    var low := Lowest(offsets);
    forall j: nat ensures Bit(Shr(And(value, m), low), j) == (j + low in offsets && Bit(value, j + low)) {
      ShrBit(And(value, m), low, j);
      AndBit(value, m, j + low);
      assert Bit(m, j + low) <==> j + low in offsets;
    }
  }

  lemma {:induction false} Merges(original: int, offsets: seq<int>, m: int, pattern: int)
    requires Usable(offsets) && IsMask(m, offsets)
    ensures IsMerged(Or(And(original, Not(m)), And(Shl(pattern, Lowest(offsets)), m)), original, offsets, pattern)
  {
    var low := Lowest(offsets);
    var merged := Or(And(original, Not(m)), And(Shl(pattern, low), m));
    forall i: nat
      ensures Bit(merged, i) == if i in offsets then Bit(pattern, i - low) else Bit(original, i)
    {
      OrBit(And(original, Not(m)), And(Shl(pattern, low), m), i);
      AndBit(original, Not(m), i);
      NotBit(m, i);
      AndBit(Shl(pattern, low), m, i);
      ShlBit(pattern, low, i);
      assert Bit(m, i) <==> i in offsets;
    }
  }

  method DecodeBits(definitions: map<string, seq<int>>, value: int, bits: BitsRef)
    returns (r: Result<int, Error>)
    ensures bits.Listed? ==>
              if Usable(bits.offsets) then r.Ok? && IsIsolated(r.value, value, bits.offsets) else r == Err(ValueError)
    ensures bits.Named? ==>
              if bits.name !in definitions then r == Err(KeyError)
              else if Usable(definitions[bits.name]) then r.Ok? && IsIsolated(r.value, value, definitions[bits.name])
              else r == Err(ValueError)
  {
    if bits.Named? && bits.name !in definitions {
      return Err(KeyError);
    }
    var offsets := if bits.Named? then definitions[bits.name] else bits.offsets;
    var mask := BuildMask(offsets);
    if mask.Err? {
      return Err(mask.error);
    }
    if offsets == [] {
      return Err(ValueError);
    }
    var m, low := mask.value, Lowest(offsets);
    Isolates(value, offsets, m);
    return Ok(Shr(And(value, m), low));
  }

  method EncodeBits(definitions: map<string, seq<int>>, original: int, bits: BitsRef, pattern: int)
    returns (r: Result<int, Error>)
    ensures bits.Listed? ==>
              if Usable(bits.offsets) then r.Ok? && IsMerged(r.value, original, bits.offsets, pattern) else r == Err(ValueError)
    ensures bits.Named? ==>
              if bits.name !in definitions then r == Err(KeyError)
              else if Usable(definitions[bits.name]) then r.Ok? && IsMerged(r.value, original, definitions[bits.name], pattern)
              else r == Err(ValueError)
  {
    if bits.Named? && bits.name !in definitions {
      return Err(KeyError);
    }
    var offsets := if bits.Named? then definitions[bits.name] else bits.offsets;
    var temp := original;
    var mask := BuildMask(offsets);
    if mask.Err? {
      return Err(mask.error);
    }
    if offsets == [] {
      return Err(ValueError);
    }
    var m, low := mask.value, Lowest(offsets);
    temp := And(temp, Not(m));
    temp := Or(temp, And(Shl(pattern, low), m));
    Merges(original, offsets, m, pattern);
    return Ok(temp);
  }

  // ----- laws of the two operations, for every integer and every usable collection of offsets

  /** Reading back what was inserted gives the pattern restricted to the listed bits. */
  lemma {:induction false} DecodeAfterEncode(value: int, offsets: seq<int>, pattern: int, merged: int, r: int, j: nat)
    requires Usable(offsets)
    requires IsMerged(merged, value, offsets, pattern)
    requires IsIsolated(r, merged, offsets)
    ensures Bit(r, j) == (j + Lowest(offsets) in offsets && Bit(pattern, j))
  {
    var i := j + Lowest(offsets);
    assert Bit(r, j) == (i in offsets && Bit(merged, i));
    if i in offsets {
      assert Bit(merged, i) == Bit(pattern, i - Lowest(offsets));
    }
  }

  /** A field without holes returns exactly the pattern, provided the pattern fits. */
  lemma {:induction false} ContiguousFieldRoundTrip(
      value: int, low: nat, width: nat, pattern: int, offsets: seq<int>, merged: int, r: int)
    requires width > 0
    requires forall b :: b in offsets <==> low <= b < low + width
    requires Usable(offsets)
    requires IsMerged(merged, value, offsets, pattern)
    requires IsIsolated(r, merged, offsets)
    ensures r == pattern <==> 0 <= pattern < Pow2(width)
  {
    assert low in offsets;
    assert Lowest(offsets) == low;
    forall j: nat ensures Bit(r, j) == (j < width && Bit(pattern, j)) {
      DecodeAfterEncode(value, offsets, pattern, merged, r, j);
    }
    RangeIsSignBits(r, width);
    if r < 0 {
      NotAllOnes(r, width);
    }
    NonNegativeRange(r, width);
    if 0 <= pattern < Pow2(width) {
      NonNegativeRange(pattern, width);
      BitsDetermine(r, pattern);
    }
  }

  /** A negative integer has ones arbitrarily high up. */
  lemma {:induction false} NotAllOnes(x: int, n: nat)
    requires x < 0
    requires forall i: nat :: i >= n ==> !Bit(x, i)
    ensures false
    decreases Abs(x)
  {
    if x == -1 {
      ConstantBits(n);
    } else {
      forall i: nat | i >= n ensures !Bit(x / 2, i) {
        assert !Bit(x, i + 1);
      }
      NotAllOnes(x / 2, n);
    }
  }

  /** A second insert into the same bits leaves no trace of the first. */
  lemma {:induction false} SecondInsertOverrides(
      value: int, offsets: seq<int>, first: int, second: int, once: int, twice: int, direct: int)
    requires Usable(offsets)
    requires IsMerged(once, value, offsets, first)
    requires IsMerged(twice, once, offsets, second)
    requires IsMerged(direct, value, offsets, second)
    ensures twice == direct
  {
    BitsDetermine(twice, direct);
  }

  /** Inserting what was extracted changes nothing. */
  lemma {:induction false} EncodeAfterDecode(value: int, offsets: seq<int>, r: int, merged: int)
    requires Usable(offsets)
    requires IsIsolated(r, value, offsets)
    requires IsMerged(merged, value, offsets, r)
    ensures merged == value
  {
    forall i: nat ensures Bit(merged, i) == Bit(value, i) {
      if i in offsets {
        assert Bit(r, i - Lowest(offsets)) == Bit(value, i);
      }
    }
    BitsDetermine(merged, value);
  }

  /** Inserts into disjoint sets of bits commute. */
  lemma {:induction false} DisjointInsertsCommute(
      value: int, a: seq<int>, p: int, b: seq<int>, q: int, va: int, vab: int, vb: int, vba: int)
    requires Usable(a) && Usable(b) && forall i :: i in a ==> i !in b
    requires IsMerged(va, value, a, p) && IsMerged(vab, va, b, q)
    requires IsMerged(vb, value, b, q) && IsMerged(vba, vb, a, p)
    ensures vab == vba
  {
    BitsDetermine(vab, vba);
  }
}

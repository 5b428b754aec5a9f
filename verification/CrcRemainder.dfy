/**
 What the CRC of `Crc` is: the remainder of the message, read as a polynomial over the two-element
 field, divided by x^16 + x^12 + x^5 + 1.  Bit `i` of an integer is the coefficient of x^i.
 */
module CrcRemainder {
  import opened Common
  import opened Bits
  import opened Crc

  // ----- exclusive or

  lemma {:induction false} XorSwap(a: int, b: int, c: int, d: int)
    ensures Xor(Xor(a, b), Xor(c, d)) == Xor(Xor(a, c), Xor(b, d))
  {
    var x, y := Xor(Xor(a, b), Xor(c, d)), Xor(Xor(a, c), Xor(b, d));
    forall i: nat ensures Bit(x, i) == Bit(y, i) {
      XorBit(a, b, i);
      XorBit(c, d, i);
      XorBit(a, c, i);
      XorBit(b, d, i);
      XorBit(Xor(a, b), Xor(c, d), i);
      XorBit(Xor(a, c), Xor(b, d), i);
    }
    BitsDetermine(x, y);
  }

  lemma {:induction false} XorZero(x: int)
    ensures Xor(x, 0) == x && Xor(0, x) == x && Xor(x, x) == 0
  {
    forall i: nat ensures Bit(Xor(x, 0), i) == Bit(x, i) && Bit(Xor(0, x), i) == Bit(x, i) && Bit(Xor(x, x), i) == Bit(0, i) {
      ConstantBits(i);
      XorBit(x, 0, i);
      XorBit(0, x, i);
      XorBit(x, x, i);
    }
    BitsDetermine(Xor(x, 0), x);
    BitsDetermine(Xor(0, x), x);
    BitsDetermine(Xor(x, x), 0);
  }

  /** What is equal to the same thing after an exclusive or was equal before. */
  lemma {:induction false} XorCancels(x: int, y: int, z: int)
    ensures Xor(x, z) == Xor(y, z) <==> x == y
    ensures Xor(z, x) == Xor(z, y) <==> x == y
  {
    XorSwap(x, z, 0, z);
    XorSwap(y, z, 0, z);
    XorSwap(z, x, z, 0);
    XorSwap(z, y, z, 0);
    XorZero(x);
    XorZero(y);
    XorZero(z);
  }

  lemma {:induction false} XorShl(x: int, y: int, n: nat)
    ensures Shl(Xor(x, y), n) == Xor(Shl(x, n), Shl(y, n))
  {
    forall i: nat ensures Bit(Shl(Xor(x, y), n), i) == Bit(Xor(Shl(x, n), Shl(y, n)), i) {
      ShlBit(Xor(x, y), n, i);
      ShlBit(x, n, i);
      ShlBit(y, n, i);
      XorBit(Shl(x, n), Shl(y, n), i);
      if i >= n {
        XorBit(x, y, i - n);
      }
    }
    BitsDetermine(Shl(Xor(x, y), n), Xor(Shl(x, n), Shl(y, n)));
  }

  lemma {:induction false} ShlAdds(x: int, m: nat, n: nat)
    ensures Shl(Shl(x, m), n) == Shl(x, m + n)
    decreases n
  {
    if n > 0 {
      ShlAdds(x, m, n - 1);
    }
  }

  /** Integers without common bits add up. */
  lemma {:induction false} XorAppends(lo: int, x: int, n: nat)
    requires 0 <= lo < Pow2(n)
    ensures Xor(Shl(x, n), lo) == Shl(x, n) + lo
  {
    NonNegativeRange(lo, n);
    forall i: nat ensures Bit(Xor(Shl(x, n), lo), i) == Bit(lo + Shl(x, n), i) {
      ConcatBit(lo, x, n, i);
      ShlBit(x, n, i);
      XorBit(Shl(x, n), lo, i);
    }
    BitsDetermine(Xor(Shl(x, n), lo), lo + Shl(x, n));
  }

  // ----- multiples of the generator

  /** The generator x^16 + x^12 + x^5 + 1, or nothing. */
  function Generator(taken: bool): int {
    if taken then 0x1_1021 else 0
  }

  /** The product of `q` and the generator. */
  function Times(q: nat): int {
    if q == 0 then 0 else Xor(2 * Times(q / 2), Generator(q % 2 == 1))
  }

  ghost predicate Multiple(x: int) {
    exists q: nat :: Times(q) == x
  }

  lemma {:induction false} TimesXor(p: nat, q: nat)
    ensures Xor(p, q) >= 0 && Times(Xor(p, q)) == Xor(Times(p), Times(q))
    decreases p + q
  {
    XorSign(p, q);
    if p == 0 || q == 0 {
      XorZero(p);
      XorZero(q);
      XorZero(Times(p));
      XorZero(Times(q));
    } else {
      TimesXor(p / 2, q / 2);
      XorHalves(p, q);
      TimesRegroups(Times(p / 2), p % 2 == 1, Times(q / 2), q % 2 == 1);
      if Xor(p, q) == 0 {
        XorZero(Times(p));
        XorCancels(p, q, q);
        XorZero(q);
      }
    }
  }

  lemma {:induction false} TimesRegroups(x: int, c: bool, y: int, d: bool)
    ensures Xor(Xor(2 * x, Generator(c)), Xor(2 * y, Generator(d))) == Xor(2 * Xor(x, y), Generator(c != d))
  {
    XorSwap(2 * x, Generator(c), 2 * y, Generator(d));
    XorShl(x, y, 1);
    ShlOnce(x);
    ShlOnce(y);
    ShlOnce(Xor(x, y));
    XorZero(Generator(c));
    XorZero(Generator(d));
  }

  lemma {:induction false} ShlOnce(x: int)
    ensures Shl(x, 1) == 2 * x
  {
  }

  lemma {:induction false} MultipleXor(x: int, y: int)
    requires Multiple(x) && Multiple(y)
    ensures Multiple(Xor(x, y))
  {
    var p: nat :| Times(p) == x;
    var q: nat :| Times(q) == y;
    TimesXor(p, q);
  }

  lemma {:induction false} MultipleDouble(x: int)
    requires Multiple(x)
    ensures Multiple(2 * x)
  {
    var q: nat :| Times(q) == x;
    XorZero(2 * x);
    assert Times(2 * q) == 2 * x;
  }

  lemma {:induction false} MultipleShl(x: int, n: nat)
    requires Multiple(x)
    ensures Multiple(Shl(x, n))
    decreases n
  {
    if n > 0 {
      MultipleShl(x, n - 1);
      MultipleDouble(Shl(x, n - 1));
    }
  }

  /** A multiple below x^16 is zero. */
  lemma {:induction false} SmallMultiple(x: word)
    requires Multiple(x)
    ensures x == 0
  {
    var q: nat :| Times(q) == x;
    if q > 0 {
      var i := HighBit(q);
      WordBits(x, i);
      assert false;
    }
  }

  lemma {:induction false} HighBit(q: nat) returns (i: nat)
    requires q > 0
    ensures i >= 16 && Bit(Times(q), i)
  {
    var x, g := 2 * Times(q / 2), Generator(q % 2 == 1);
    if q == 1 {
      i := 16;
      XorZero(g);
      GeneratorBits(true, i);
    } else {
      var j := HighBit(q / 2);
      i := j + 1;
      XorBit(x, g, i);
      GeneratorBits(q % 2 == 1, i);
    }
  }

  lemma {:induction false} GeneratorBits(taken: bool, i: nat)
    requires i >= 16
    ensures Bit(Generator(taken), i) <==> taken && i == 16
  {
    if taken {
      HighestBit(Generator(taken), i);
    } else {
      ConstantBits(i);
    }
  }

  lemma {:induction false} HighestBit(x: int, i: nat)
    requires i >= 16 && 0x1_0000 <= x < 0x2_0000
    ensures Bit(x, i) <==> i == 16
  {
    WordPower();
    if i == 16 {
      ShlBytes(x / 0x1_0000);
      ConcatBit(x % 0x1_0000, x / 0x1_0000, 16, i);
      assert Bit(x / 0x1_0000, 0);
    } else {
      NonNegativeRange(x, 17);
    }
  }

  lemma {:induction false} WordPower()
    ensures Pow2(8) == 0x100 && Pow2(15) == 0x8000 && Pow2(16) == 0x1_0000 && Pow2(17) == 0x2_0000
  {
    Pow2Adds(8, 8);
    Pow2Adds(8, 7);
  }

  lemma {:induction false} ShlBytes(x: int)
    ensures Shl(x, 8) == 0x100 * x && Shl(x, 16) == 0x1_0000 * x
  {
    WordPower();
    ShlIsTimes(x, 8);
    ShlIsTimes(x, 16);
  }

  lemma {:induction false} WordBits(x: word, i: nat)
    requires i >= 16
    ensures !Bit(x, i)
  {
    WordPower();
    NonNegativeRange(x, 16);
  }

  // ----- the register

  /** One step of the shift register multiplies by x and cancels x^16 by the generator. */
  lemma {:induction false} OnceMultiplies(crc: word)
    ensures Once(crc) == Xor(2 * crc, Generator(crc >= 0x8000))
  {
    GeneratorTaken(crc, POLYNOMIAL, 2 * crc % 0x1_0000, Generator(crc >= 0x8000));
  }

  lemma {:induction false} GeneratorTaken(crc: word, p: word, lo: word, g: int)
    requires p == 0x1021 && lo == 2 * crc % 0x1_0000 && g == Generator(crc >= 0x8000)
    ensures Xor(2 * crc, g) == if crc >= 0x8000 then Xor(lo, p) else 2 * crc
  {
    if crc >= 0x8000 {
      TopCancels(lo, p, 2 * crc, g);
    } else {
      XorZero(2 * crc);
    }
  }

  lemma {:induction false} TopCancels(x: word, y: word, x1: int, y1: int)
    requires x1 == 0x1_0000 + x && y1 == 0x1_0000 + y
    ensures Xor(x1, y1) == Xor(x, y)
  {
    TopCancelsAt(x, y, x1, y1, 0x1_0000, 1);
  }

  lemma {:induction false} TopCancelsAt(x: word, y: word, x1: int, y1: int, top: int, one: int)
    requires one == 1 && top == 0x1_0000 && x1 == top + x && y1 == top + y
    ensures Xor(x1, y1) == Xor(x, y)
  {
    WordPower();
    ShlBytes(one);
    XorAppends(x, one, 16);
    XorAppends(y, one, 16);
    XorSwap(top, x, top, y);
    XorZero(top);
    XorZero(Xor(x, y));
  }

  /** `n` steps multiply by x^n. */
  lemma {:induction false} ShiftMultiplies(crc: word, n: nat)
    ensures Multiple(Xor(Shl(crc, n), Shift(crc, n)))
    decreases n
  {
    if n == 0 {
      XorZero(crc);
      assert Times(0) == 0;
    } else {
      var once, g := Once(crc), Generator(crc >= 0x8000);
      ShiftMultiplies(once, n - 1);
      OnceMultiplies(crc);
      GeneratorMultiple(crc >= 0x8000);
      MultipleShl(g, n - 1);
      MultipleXor(Shl(g, n - 1), Xor(Shl(once, n - 1), Shift(once, n - 1)));
      ShiftRegroups(crc, g, once, n, Shift(once, n - 1));
    }
  }

  lemma {:induction false} ShiftRegroups(crc: int, g: int, once: int, n: nat, rest: int)
    requires n > 0 && once == Xor(2 * crc, g)
    ensures Xor(Shl(g, n - 1), Xor(Shl(once, n - 1), rest)) == Xor(Shl(crc, n), rest)
  {
    XorShl(2 * crc, g, n - 1);
    ShlOnce(crc);
    ShlAdds(crc, 1, n - 1);
    XorDrops(Shl(g, n - 1), Shl(crc, n), rest);
  }

  lemma {:induction false} GeneratorMultiple(taken: bool)
    ensures Multiple(Generator(taken))
  {
    XorZero(Generator(taken));
    assert Times(0) == 0;
    assert taken ==> Times(1) == Generator(taken);
  }

  lemma {:induction false} XorDrops(x: int, y: int, z: int)
    ensures Xor(x, Xor(Xor(y, x), z)) == Xor(y, z)
  {
    forall i: nat ensures Bit(Xor(x, Xor(Xor(y, x), z)), i) == Bit(Xor(y, z), i) {
      XorBit(y, x, i);
      XorBit(y, z, i);
      XorBit(Xor(y, x), z, i);
      XorBit(x, Xor(Xor(y, x), z), i);
    }
    BitsDetermine(Xor(x, Xor(Xor(y, x), z)), Xor(y, z));
  }

  /** The message as a polynomial, the first byte at the top. */
  function Number(data: seq<byte>): nat {
    if data == [] then 0 else 0x100 * Number(data[..|data| - 1]) + data[|data| - 1]
  }

  lemma {:induction false} StepMultiplies(crc: word, b: byte, k: nat, m: nat)
    requires k == 8 && m == 16
    ensures Multiple(Xor(Xor(Shl(crc, k), Shl(b, m)), Step(crc, b)))
  {
    ShlBytes(b);
    ShlBytes(256 * b);
    XorShl(crc, 256 * b, k);
    ShiftMultiplies(XorWords(crc, 256 * b), k);
  }

  lemma {:induction false} ByteDivides(n: nat, crc: word, b: byte, k: nat, m: nat)
    requires k == 8 && m == 16 && Multiple(Xor(Shl(n, m), crc))
    ensures Multiple(Xor(Shl(0x100 * n + b, m), Step(crc, b)))
  {
    StepMultiplies(crc, b, k, m);
    ByteAppends(n, b, k, 0x100 * n + b);
    AppendDivides(n, crc, b, Step(crc, b), k, m);
  }

  /** The message times x^m, for m = 16, and its CRC differ by a multiple of the generator. */
  lemma {:induction false} ChecksumDivides(data: seq<byte>, m: nat)
    requires m == 16
    ensures Multiple(Xor(Shl(Number(data), m), Checksum(data)))
    decreases |data|
  {
    if data == [] {
      ShlIsTimes(0, m);
      GeneratorMultiple(false);
      XorZero(Generator(false));
    } else {
      var front, b := data[..|data| - 1], data[|data| - 1];
      ChecksumDivides(front, m);
      ByteDivides(Number(front), Checksum(front), b, 8, m);
    }
  }

  lemma {:induction false} ByteAppends(n: int, b: byte, k: nat, nb: int)
    requires k == 8 && nb == 0x100 * n + b
    ensures Xor(Shl(n, k), b) == nb
  {
    WordPower();
    ShlBytes(n);
    XorAppends(b, n, k);
  }

  /** Appending `b`, of `k` bits, to a message `n`. */
  lemma {:induction false} AppendDivides(n: int, crc: int, b: int, after: int, k: nat, m: nat)
    requires Multiple(Xor(Shl(n, m), crc)) && Multiple(Xor(Xor(Shl(crc, k), Shl(b, m)), after))
    ensures Multiple(Xor(Shl(Xor(Shl(n, k), b), m), after))
  {
    MultipleShl(Xor(Shl(n, m), crc), k);
    MultipleXor(Shl(Xor(Shl(n, m), crc), k), Xor(Xor(Shl(crc, k), Shl(b, m)), after));
    XorShl(Shl(n, m), crc, k);
    ShlAdds(n, m, k);
    XorShl(Shl(n, k), b, m);
    ShlAdds(n, k, m);
    XorMiddle(Shl(n, m + k), Shl(crc, k), Shl(b, m), after);
  }

  lemma {:induction false} XorMiddle(x: int, y: int, z: int, w: int)
    ensures Xor(Xor(x, y), Xor(Xor(y, z), w)) == Xor(Xor(x, z), w)
  {
    forall i: nat ensures Bit(Xor(Xor(x, y), Xor(Xor(y, z), w)), i) == Bit(Xor(Xor(x, z), w), i) {
      XorBit(x, y, i);
      XorBit(y, z, i);
      XorBit(x, z, i);
      XorBit(Xor(y, z), w, i);
      XorBit(Xor(x, z), w, i);
      XorBit(Xor(x, y), Xor(Xor(y, z), w), i);
    }
    BitsDetermine(Xor(Xor(x, y), Xor(Xor(y, z), w)), Xor(Xor(x, z), w));
  }

  /**
   The CRC is the one word that differs from the message times x^16 by a multiple of the generator
   x^16 + x^12 + x^5 + 1.
   */
  lemma {:induction false} ChecksumIsRemainder(data: seq<byte>, r: word)
    ensures r == Checksum(data) <==> Multiple(Xor(Shl(Number(data), 16), r))
  {
    var crc, m := Checksum(data), Shl(Number(data), 16);
    ChecksumDivides(data, 16);
    if Multiple(Xor(m, r)) {
      MultipleXor(Xor(m, crc), Xor(m, r));
      XorSwap(m, crc, m, r);
      XorZero(m);
      XorZero(Xor(crc, r));
      XorWord(crc, r);
      SmallMultiple(Xor(crc, r));
      XorCancels(crc, r, r);
      XorZero(r);
    }
  }

  // ----- consequences

  lemma {:induction false} ChecksumOfOne()
    ensures Checksum([1]) == 0x1021
  {
    OneDivides(Number([1]), POLYNOMIAL);
    ChecksumIsRemainder([1], POLYNOMIAL);
  }

  lemma {:induction false} OneDivides(one: int, p: word)
    requires one == 1 && p == 0x1021
    ensures Multiple(Xor(Shl(one, 16), p))
  {
    WordPower();
    ShlBytes(one);
    XorAppends(p, one, 16);
    GeneratorMultiple(true);
  }

  /** Data followed by its own CRC, the high byte first, has the CRC zero. */
  lemma {:induction false} Residue(data: seq<byte>)
    ensures var crc := Checksum(data); Checksum(data + [crc / 0x100, crc % 0x100]) == 0
  {
    var crc := Checksum(data);
    var hi, lo := crc / 0x100, crc % 0x100;
    var whole := data + [hi, lo];
    assert whole[..|whole| - 1] == data + [hi];
    assert (data + [hi])[..|data|] == data;
    assert Number(whole) == 0x1_0000 * Number(data) + crc;
    WordPower();
    ShlBytes(Number(data));
    XorAppends(crc, Number(data), 16);
    ChecksumDivides(data, 16);
    MultipleShl(Number(whole), 16);
    XorZero(Shl(Number(whole), 16));
    ChecksumIsRemainder(whole, 0);
  }

  /** Byte by byte. */
  function XorBytes(a: seq<byte>, b: seq<byte>): (s: seq<byte>)
    requires |a| == |b|
    ensures |s| == |a|
  {
    if a == [] then []
    else XorBytes(a[..|a| - 1], b[..|b| - 1]) + [XorByte(a[|a| - 1], b[|b| - 1])]
  }

  function XorByte(x: byte, y: byte): byte {
    WordPower();
    XorRange(x, y, 8);
    Xor(x, y)
  }

  lemma {:induction false} NumberXor(a: seq<byte>, b: seq<byte>)
    requires |a| == |b|
    ensures Number(XorBytes(a, b)) == Xor(Number(a), Number(b))
    decreases |a|
  {
    if a == [] {
      XorZero(0);
    } else {
      var n := |a| - 1;
      var p, q := Number(a[..n]), Number(b[..n]);
      var xs := XorBytes(a, b);
      assert xs[..n] == XorBytes(a[..n], b[..n]);
      NumberXor(a[..n], b[..n]);
      BytesXor(p, a[n], q, b[n], xs[n], 8, Number(a), Number(b), 0x100 * Xor(p, q) + xs[n]);
    }
  }

  lemma {:induction false} BytesXor(p: int, x: byte, q: int, y: byte, z: byte, k: nat, u: int, v: int, w: int)
    requires k == 8 && z == Xor(x, y)
    requires u == 0x100 * p + x && v == 0x100 * q + y && w == 0x100 * Xor(p, q) + z
    ensures Xor(u, v) == w
  {
    ByteAppends(p, x, k, u);
    ByteAppends(q, y, k, v);
    ByteAppends(Xor(p, q), z, k, w);
    AppendsXor(p, x, q, y, k, u, v);
  }

  lemma {:induction false} AppendsXor(p: int, x: int, q: int, y: int, k: nat, u: int, v: int)
    requires u == Xor(Shl(p, k), x) && v == Xor(Shl(q, k), y)
    ensures Xor(u, v) == Xor(Shl(Xor(p, q), k), Xor(x, y))
  {
    XorShl(p, q, k);
    XorSwap(Shl(p, k), x, Shl(q, k), y);
  }

  /** The CRC is linear. */
  lemma {:induction false} ChecksumLinear(a: seq<byte>, b: seq<byte>)
    requires |a| == |b|
    ensures Checksum(XorBytes(a, b)) == Xor(Checksum(a), Checksum(b))
  {
    var m, n, c, d := Shl(Number(a), 16), Shl(Number(b), 16), Checksum(a), Checksum(b);
    ChecksumDivides(a, 16);
    ChecksumDivides(b, 16);
    MultipleXor(Xor(m, c), Xor(n, d));
    XorSwap(m, c, n, d);
    XorShl(Number(a), Number(b), 16);
    NumberXor(a, b);
    XorWord(c, d);
    ChecksumIsRemainder(XorBytes(a, b), Xor(c, d));
  }

  // ----- changes the CRC detects

  lemma {:induction false} ShiftInjective(x: word, y: word, n: nat)
    requires Shift(x, n) == Shift(y, n)
    ensures x == y
    decreases n
  {
    if n > 0 {
      ShiftInjective(Once(x), Once(y), n - 1);
      OnceInjective(x, y, 2 * x, 2 * y);
    }
  }

  lemma {:induction false} OnceInjective(x: word, y: word, x2: int, y2: int)
    requires Once(x) == Once(y) && x2 == 2 * x && y2 == 2 * y
    ensures x == y
  {
    OnceMultiplies(x);
    OnceMultiplies(y);
    GeneratorShows(x2, x >= 0x8000, y2, y >= 0x8000);
  }

  /** The generator is odd. */
  lemma {:induction false} GeneratorShows(x: int, c: bool, y: int, d: bool)
    requires x % 2 == y % 2 == 0 && Xor(x, Generator(c)) == Xor(y, Generator(d))
    ensures x == y
  {
    XorHalves(x, Generator(c));
    XorHalves(y, Generator(d));
    XorCancels(x, y, Generator(c));
  }

  lemma {:induction false} StepInjective(c: word, d: word, b: byte, k: nat)
    requires k == 8 && Step(c, b) == Step(d, b)
    ensures c == d
  {
    ShiftInjective(XorWords(c, 256 * b), XorWords(d, 256 * b), k);
    XorCancels(c, d, 256 * b);
  }

  lemma {:induction false} UpdateInjective(c: word, d: word, data: seq<byte>)
    requires Update(c, data) == Update(d, data)
    ensures c == d
    decreases |data|
  {
    if data != [] {
      var front, b := data[..|data| - 1], data[|data| - 1];
      StepInjective(Update(c, front), Update(d, front), b, 8);
      UpdateInjective(c, d, front);
    }
  }

  lemma {:induction false} ShiftXor(x: word, y: word, n: nat)
    ensures Shift(XorWords(x, y), n) == Xor(Shift(x, n), Shift(y, n))
    decreases n
  {
    if n > 0 {
      var z := XorWords(x, y);
      OnceMultiplies(x);
      OnceMultiplies(y);
      OnceMultiplies(z);
      TopXor(x, y);
      TimesRegroups(x, x >= 0x8000, y, y >= 0x8000);
      ShiftXor(Once(x), Once(y), n - 1);
    }
  }

  lemma {:induction false} TopXor(x: word, y: word)
    ensures 0 <= Xor(x, y) < 0x1_0000
    ensures Xor(x, y) >= 0x8000 <==> (x >= 0x8000) != (y >= 0x8000)
  {
    XorWord(x, y);
    TopBit(x);
    TopBit(y);
    TopBit(Xor(x, y));
    XorBit(x, y, 15);
  }

  lemma {:induction false} TopBit(x: word)
    ensures Bit(x, 15) <==> x >= 0x8000
  {
    WordPower();
    ShlIsTimes(x / 0x8000, 15);
    ConcatBit(x % 0x8000, x / 0x8000, 15, 15);
    assert Bit(x / 0x8000, 0) <==> x / 0x8000 == 1;
  }

  /** Nothing leaves the register while its high bits are empty. */
  lemma {:induction false} ShiftSmall(x: word, n: nat)
    requires x * Pow2(n) < 0x1_0000
    ensures Shift(x, n) == x * Pow2(n)
    decreases n
  {
    if n > 0 {
      assert x * Pow2(n) == 2 * x * Pow2(n - 1);
      assert 2 * x * Pow2(n - 1) >= 2 * x;
      OnceMultiplies(x);
      XorZero(2 * x);
      ShiftSmall(2 * x, n - 1);
    }
  }

  lemma {:induction false} ShiftAdds(x: word, m: nat, n: nat)
    ensures Shift(Shift(x, m), n) == Shift(x, m + n)
    decreases m
  {
    if m > 0 {
      ShiftAdds(Once(x), m - 1, n);
    }
  }

  /** Two bytes at once. */
  lemma {:induction false} StepTwice(c: word, a: byte, b: byte, k: nat, both: word)
    requires k == 8 && both == 256 * a + b
    ensures Step(Step(c, a), b) == Shift(XorWords(c, both), k + k)
  {
    var x := XorWords(c, 256 * a);
    ShiftHighByte(b, k, 256 * b);
    ShiftXor(x, b, k);
    XorPair(c, a, b, k, 256 * a, both);
    ShiftAdds(XorWords(x, b), k, k);
  }

  lemma {:induction false} ShiftHighByte(b: byte, k: nat, high: word)
    requires k == 8 && high == 256 * b
    ensures Shift(b, k) == high
  {
    WordPower();
    ShiftSmall(b, k);
  }

  lemma {:induction false} XorPair(c: word, a: byte, b: byte, k: nat, high: int, both: int)
    requires k == 8 && high == 256 * a && both == 256 * a + b
    ensures Xor(Xor(c, high), b) == Xor(c, both)
  {
    ByteAppends(a, b, k, both);
    ShlBytes(a);
    XorSwap(c, high, 0, b);
    XorZero(c);
    XorZero(b);
  }

  lemma {:induction false} StepTwiceInjective(c: word, a: byte, b: byte, d: byte, e: byte, k: nat)
    requires k == 8 && Step(Step(c, a), b) == Step(Step(c, d), e)
    ensures a == d && b == e
  {
    StepTwice(c, a, b, k, 256 * a + b);
    StepTwice(c, d, e, k, 256 * d + e);
    ShiftInjective(XorWords(c, 256 * a + b), XorWords(c, 256 * d + e), k + k);
    XorCancels(256 * a + b, 256 * d + e, c);
  }

  /** Whatever happens to two adjacent bytes, or to one, is noticed. */
  lemma {:induction false} AdjacentChangesDetected(a: seq<byte>, b: seq<byte>, k: nat)
    requires |a| == |b| && k + 2 <= |a| && a[..k] == b[..k] && a[k + 2..] == b[k + 2..]
    ensures Checksum(a) == Checksum(b) <==> a == b
  {
    if Checksum(a) == Checksum(b) {
      var c := Checksum(a[..k]);
      UpdateThrough(a, k);
      UpdateThrough(b, k);
      UpdateInjective(Step(Step(c, a[k]), a[k + 1]), Step(Step(c, b[k]), b[k + 1]), a[k + 2..]);
      StepTwiceInjective(c, a[k], a[k + 1], b[k], b[k + 1], 8);
      assert a == a[..k] + [a[k], a[k + 1]] + a[k + 2..];
      assert b == b[..k] + [b[k], b[k + 1]] + b[k + 2..];
    }
  }

  lemma {:induction false} UpdateThrough(a: seq<byte>, k: nat)
    requires k + 2 <= |a|
    ensures Checksum(a) == Update(Step(Step(Checksum(a[..k]), a[k]), a[k + 1]), a[k + 2..])
  {
    assert a == a[..k + 2] + a[k + 2..];
    UpdateConcat(0, a[..k + 2], a[k + 2..]);
    assert a[..k + 2][..k + 1] == a[..k + 1];
    assert a[..k + 1][..k] == a[..k];
  }

  /** A single changed byte is noticed. */
  lemma {:induction false} ChangedByteDetected(data: seq<byte>, k: nat, b: byte)
    requires k < |data|
    ensures Checksum(data[k := b]) == Checksum(data) <==> b == data[k]
  {
    var other := data[k := b];
    if Checksum(other) == Checksum(data) {
      UpdateAt(data, k);
      UpdateAt(other, k);
      assert other[..k] == data[..k] && other[k + 1..] == data[k + 1..];
      var c := Checksum(data[..k]);
      UpdateInjective(Step(c, data[k]), Step(c, b), data[k + 1..]);
      ByteShows(c, data[k], b, 8);
    } else {
      assert b == data[k] ==> other == data;
    }
  }

  lemma {:induction false} UpdateAt(a: seq<byte>, k: nat)
    requires k < |a|
    ensures Checksum(a) == Update(Step(Checksum(a[..k]), a[k]), a[k + 1..])
  {
    assert a == a[..k + 1] + a[k + 1..];
    UpdateConcat(0, a[..k + 1], a[k + 1..]);
    assert a[..k + 1][..k] == a[..k];
  }

  lemma {:induction false} ByteShows(c: word, a: byte, b: byte, k: nat)
    requires k == 8 && Step(c, a) == Step(c, b)
    ensures a == b
  {
    ShiftInjective(XorWords(c, 256 * a), XorWords(c, 256 * b), k);
    XorCancels(256 * a, 256 * b, c);
  }
}

/** The running CRC of block transfers: CRC-16/XMODEM, polynomial 0x1021, initial value 0. */
module Crc {
  import opened Common
  import opened Bits

  type word = w: int | 0 <= w < 0x1_0000

  const POLYNOMIAL: word := 0x1021

  lemma {:induction false} XorWord(x: word, y: word)
    ensures 0 <= Xor(x, y) < 0x1_0000
  {
    assert Pow2(16) == 0x1_0000 by {
      Pow2Adds(8, 8);
    }
    XorRange(x, y, 16);
  }

  function XorWords(x: word, y: word): word {
    XorWord(x, y);
    Xor(x, y)
  }

  /** The shift register: one bit out at the top. */
  function Once(crc: word): word {
    var shifted := 2 * crc % 0x1_0000;
    if crc >= 0x8000 then XorWords(shifted, POLYNOMIAL) else shifted
  }

  function Shift(crc: word, n: nat): word
    decreases n
  {
    if n == 0 then crc else Shift(Once(crc), n - 1)
  }

  function Step(crc: word, b: byte): word {
    Shift(XorWords(crc, 256 * b), 8)
  }

  /** The CRC after `data`, starting from `crc`. */
  function Update(crc: word, data: seq<byte>): word {
    if data == [] then crc else Step(Update(crc, data[..|data| - 1]), data[|data| - 1])
  }

  function Checksum(data: seq<byte>): word {
    Update(0, data)
  }

  /** Feeding data in pieces is feeding it whole. */
  lemma {:induction false} UpdateConcat(crc: word, a: seq<byte>, b: seq<byte>)
    ensures Update(crc, a + b) == Update(Update(crc, a), b)
    decreases |b|
  {
    if b == [] {
      assert a + b == a;
    } else {
      assert (a + b)[..|a + b| - 1] == a + b[..|b| - 1];
      UpdateConcat(crc, a, b[..|b| - 1]);
    }
  }

  class CrcXmodem {
    var value: word

    constructor ()
      ensures value == 0
    {
      value := 0;
    }

    method Process(data: seq<byte>)
      modifies this
      ensures value == Update(old(value), data)
    {
      for i := 0 to |data|
        invariant value == Update(old(value), data[..i])
      {
        assert data[..i + 1][..i] == data[..i];
        value := Step(value, data[i]);
      }
      assert data[..|data|] == data;
    }

    method Final() returns (r: word)
      ensures r == value
    {
      r := value;
    }
  }
}

/**
 LSS Fastscan (`LssMaster.fast_scan`): finding one 128-bit identity on a shared bus by yes/no probes.
 The slaves behave as the Fastscan service of CiA 305 says.
 */
module FastScan {
  import opened Common
  import opened Bits
  import opened Codec

  const CS_FAST_SCAN := 0x51
  const CS_IDENTIFY_SLAVE := 0x4F

  type word32 = w: int | 0 <= w < 0x1_0000_0000
  type Part = p: int | 0 <= p < 4
  /** Vendor id, product code, revision number and serial number. */
  type Identity = i: seq<word32> | |i| == 4 witness [0, 0, 0, 0]

  /** One Fastscan message: part of an identity, bit to check, part being scanned, part to scan next. */
  datatype Probe = Probe(idNumber: word32, bitCheck: nat, lssSub: Part, lssNext: Part)

  /** The message on the wire: the command, the number with its low byte first, and the three single bytes. */
  function Message(p: Probe): (m: seq<byte>)
    requires p.bitCheck <= 128
    ensures |m| == 8 && m[0] == 0x51 && m[5] == p.bitCheck && m[6] == p.lssSub && m[7] == p.lssNext
    ensures m[1..5] == ToLE(p.idNumber, 4)
  {
    [CS_FAST_SCAN] + ToLE(p.idNumber, 4) + [p.bitCheck, p.lssSub, p.lssNext]
  }

  /** What the slaves make of a message; anything but a Fastscan message is none of their business here. */
  function Heard(m: seq<byte>): Option<Probe>
    requires |m| == 8
  {
    if m[0] == 0x51 && m[6] < 4 && m[7] < 4 then
      WordOfBytes(m[1..5]);
      Some(Probe(FromLE(m[1..5]), m[5], m[6], m[7]))
    else None
  }

  lemma {:induction false} WordOfBytes(bs: seq<byte>)
    requires |bs| == 4
    ensures FromLE(bs) < 0x1_0000_0000
  {
    Pow2ThirtyTwo();
    FromLERange(bs);
  }

  lemma {:induction false} MessageHeard(p: Probe)
    requires p.bitCheck <= 128
    ensures Heard(Message(p)) == Some(p)
  {
    Pow2ThirtyTwo();
    FromLEOfToLE(p.idNumber, 4);
  }

  // ----- the slaves

  /** An unconfigured slave: the part it expects to be scanned, and whether it is in configuration state. */
  datatype Slave = Slave(identity: Identity, position: Part, configuring: bool) {
    /** The slave recognises itself: all bits from `bitCheck` up agree, in the part it is at. */
    predicate Matches(p: Probe) {
      && !configuring
      && (p.bitCheck == 128
          || (p.bitCheck < 32 && p.lssSub == position
              && Shr(identity[position], p.bitCheck) == Shr(p.idNumber, p.bitCheck)))
    }

    /** A reset starts at part 0; a match moves on to the next part, the last one into configuration state. */
    function React(p: Probe): Slave {
      if !Matches(p) then this
      else if p.bitCheck == 128 then this.(position := 0)
      else this.(position := p.lssNext, configuring := p.bitCheck == 0 && p.lssNext < p.lssSub)
    }
  }

  function AllReact(slaves: seq<Slave>, p: Probe): (r: seq<Slave>)
    ensures |r| == |slaves| && forall i :: 0 <= i < |slaves| ==> r[i] == slaves[i].React(p)
  {
    if slaves == [] then [] else AllReact(slaves[..|slaves| - 1], p) + [slaves[|slaves| - 1].React(p)]
  }

  /** How many slaves reply to a probe. */
  function Count(slaves: seq<Slave>, p: Probe): (n: nat)
    ensures n > 0 <==> exists i :: 0 <= i < |slaves| && slaves[i].Matches(p)
  {
    if slaves == [] then 0
    else
      var rest := slaves[..|slaves| - 1];
      assert forall i :: 0 <= i < |rest| ==> rest[i] == slaves[i];
      Count(rest, p) + if slaves[|slaves| - 1].Matches(p) then 1 else 0
  }

  class Bus {
    /** No reply is lost. */
    const reliable: bool
    var slaves: seq<Slave>

    constructor (slaves: seq<Slave>, reliable: bool)
      ensures this.slaves == slaves && this.reliable == reliable
    {
      this.slaves, this.reliable := slaves, reliable;
    }

    /** Every slave sees the message; each one that recognises itself sends a reply, which may get lost. */
    method Send(message: seq<byte>) returns (replies: seq<int>)
      requires |message| == 8
      modifies this
      ensures match Heard(message)
              case None => replies == [] && slaves == old(slaves)
              case Some(p) =>
                && slaves == AllReact(old(slaves), p)
                && (forall r :: r in replies ==> r == 0x4F) && |replies| <= Count(old(slaves), p)
                && (reliable ==> |replies| == Count(old(slaves), p))
    {
      match Heard(message)
      case None =>
        replies := [];
      case Some(p) =>
        var n := Count(slaves, p);
        if !reliable {
          var lost: nat :| lost <= n;
          n := n - lost;
        }
        replies := seq(n, _ => 0x4F);
        slaves := AllReact(slaves, p);
    }
  }

  // ----- scanning one part

  lemma {:induction false} ShrNext(x: int, n: nat)
    ensures Shr(x, n + 1) == Shr(x, n) / 2
    decreases n
  {
    if n > 0 {
      ShrNext(x / 2, n - 1);
    }
  }

  lemma {:induction false} ShrMonotone(x: int, y: int, n: nat)
    requires x <= y
    ensures Shr(x, n) <= Shr(y, n)
    decreases n
  {
    if n > 0 {
      ShrMonotone(x / 2, y / 2, n - 1);
    }
  }

  lemma {:induction false} ShrSmall(x: nat, n: nat)
    requires x < Pow2(n)
    ensures Shr(x, n) == 0
    decreases n
  {
    if n > 0 {
      ShrSmall(x / 2, n - 1);
    }
  }

  lemma {:induction false} ShrShl(y: int, n: nat)
    ensures Shr(Shl(y, n), n) == y
    decreases n
  {
    if n > 0 {
      ShrShl(y, n - 1);
    }
  }

  lemma {:induction false} ShlDouble(y: int, n: nat)
    ensures Shl(2 * y, n) == Shl(y, n + 1)
    decreases n
  {
    if n > 0 {
      ShlDouble(y, n - 1);
    }
  }

  /** Setting bit `n` of a number whose bits up to `n` are clear. */
  lemma {:induction false} SetBit(y: int, n: nat)
    ensures Or(Shl(2 * y, n), Shl(1, n)) == Shl(2 * y + 1, n)
  {
    forall i: nat ensures Bit(Or(Shl(2 * y, n), Shl(1, n)), i) == Bit(Shl(2 * y + 1, n), i) {
      OrBit(Shl(2 * y, n), Shl(1, n), i);
      ShlBit(2 * y, n, i);
      ShlBit(2 * y + 1, n, i);
      OneShlBit(n, i);
    }
    BitsDetermine(Or(Shl(2 * y, n), Shl(1, n)), Shl(2 * y + 1, n));
  }

  /** `32 - n` bits in front of `n` zeros are a 32-bit number. */
  lemma {:induction false} ShlRange(y: nat, n: nat)
    requires n <= 32 && y < Pow2(32 - n)
    ensures 0 <= Shl(y, n) < 0x1_0000_0000
  {
    Pow2ThirtyTwo();
    NonNegativeRange(y, 32 - n);
    ShlNonNegative(y, n);
    forall i: nat | i >= 32 ensures !Bit(Shl(y, n), i) {
      ShlBit(y, n, i);
    }
    NonNegativeRange(Shl(y, n), 32);
  }

  lemma {:induction false} ShlNonNegative(y: nat, n: nat)
    ensures Shl(y, n) >= 0
  {
    if n > 0 {
      ShlNonNegative(y, n - 1);
    }
  }

  lemma Pow2ThirtyTwo()
    ensures Pow2(32) == 0x1_0000_0000
  {
    Pow2Adds(8, 8);
    Pow2Adds(16, 16);
  }

  /** A number whose bits up to `n` are clear, with bit `n` left clear or set. */
  lemma {:induction false} NextBit(v: word32, y: nat, n: nat)
    requires n < 32 && y < Pow2(31 - n) && v == Shl(y, n + 1)
    ensures v == Shl(2 * y, n) && 2 * y + 1 < Pow2(32 - n)
    ensures Or(v, Shl(1, n)) == Shl(2 * y + 1, n) && 0 <= Or(v, Shl(1, n)) < 0x1_0000_0000
  {
    ShlDouble(y, n);
    SetBit(y, n);
    ShlRange(2 * y + 1, n);
  }

  // ----- the slaves in the course of a scan

  /** The first `n` parts of an identity agree with what has been found. */
  predicate Agrees(identity: Identity, found: Identity, n: nat)
    requires n <= 4
  {
    identity[..n] == found[..n]
  }

  /** Slave `i` is unconfigured and agrees with what has been found in the first `n` parts. */
  ghost predicate Candidate(start: seq<Slave>, found: Identity, n: nat, i: nat)
    requires n <= 4
  {
    i < |start| && !start[i].configuring && Agrees(start[i].identity, found, n)
  }

  /** Where every slave of `start` is when parts up to `n` have been scanned as `found`. */
  ghost predicate Scanning(start: seq<Slave>, slaves: seq<Slave>, found: Identity, n: nat)
    requires n < 4
  {
    && |slaves| == |start|
    && forall i :: 0 <= i < |start| ==>
         && slaves[i].identity == start[i].identity && slaves[i].configuring == start[i].configuring
         && (!start[i].configuring ==> if Agrees(start[i].identity, found, n) then slaves[i].position == n
                                       else slaves[i].position < n)
  }

  /** What a complete scan leaves behind: the slaves found are in configuration state, all others as they were. */
  ghost predicate Scanned(start: seq<Slave>, slaves: seq<Slave>, found: Identity) {
    && |slaves| == |start|
    && forall i :: 0 <= i < |start| ==>
         && slaves[i].identity == start[i].identity
         && slaves[i].configuring == (start[i].configuring || start[i].identity == found)
  }

  ghost predicate Progress(start: seq<Slave>, slaves: seq<Slave>, found: Identity, n: nat)
    requires n <= 4
  {
    if n < 4 then Scanning(start, slaves, found, n) else Scanned(start, slaves, found)
  }

  lemma {:induction false} ResetStarts(start: seq<Slave>, found: Identity, p: Probe)
    requires p.bitCheck == 128
    ensures Scanning(start, AllReact(start, p), found, 0)
    ensures Count(start, p) > 0 <==> exists i: nat :: Candidate(start, found, 0, i)
    ensures Count(start, p) == 0 ==> AllReact(start, p) == start
  {
    if i: nat :| Candidate(start, found, 0, i) {
      assert start[i].Matches(p);
    }
    if i :| 0 <= i < |start| && start[i].Matches(p) {
      assert Candidate(start, found, 0, i);
    }
  }

  /** While the next part is the one being scanned no slave moves. */
  lemma {:induction false} BitProbeMovesNothing(slaves: seq<Slave>, p: Probe)
    requires p.bitCheck < 32 && p.lssNext == p.lssSub
    ensures AllReact(slaves, p) == slaves
  {
  }

  /** The confirmation of part `n` moves on exactly the slaves that agree with it. */
  lemma {:induction false} ConfirmMoves(start: seq<Slave>, slaves: seq<Slave>, found: Identity, n: Part, m: nat, p: Probe)
    requires Scanning(start, slaves, found, n) && m == n + 1
    requires p == Probe(found[n], 0, n, (n + 1) % 4)
    ensures Progress(start, AllReact(slaves, p), found, m)
    ensures Count(slaves, p) > 0 <==> exists i: nat :: Candidate(start, found, m, i)
  {
    forall i | 0 <= i < |start|
      ensures slaves[i].Matches(p) <==> !start[i].configuring && Agrees(start[i].identity, found, m)
    {
      PrefixGrows(start[i].identity, found, n);
    }
    if n == 3 {
      forall i | 0 <= i < |start| ensures Agrees(start[i].identity, found, 4) <==> start[i].identity == found {
        assert start[i].identity[..4] == start[i].identity && found[..4] == found;
      }
    }
    if i: nat :| Candidate(start, found, m, i) {
      assert slaves[i].Matches(p);
    }
    if i :| 0 <= i < |slaves| && slaves[i].Matches(p) {
      assert Candidate(start, found, m, i);
    }
  }

  lemma {:induction false} PrefixGrows(a: Identity, b: Identity, n: Part)
    ensures Agrees(a, b, n + 1) <==> Agrees(a, b, n) && a[n] == b[n]
  {
    assert a[..n + 1] == a[..n] + [a[n]] && b[..n + 1] == b[..n] + [b[n]];
  }

  // ----- the least identity

  /** `a` comes before `b` within the first `n` parts. */
  ghost predicate Before(a: Identity, b: Identity, n: nat)
    requires n <= 4
  {
    exists k :: 0 <= k < n && Agrees(a, b, k) && a[k] < b[k]
  }

  /** No unconfigured slave has a lesser identity than `found` in the first `n` parts. */
  ghost predicate Least(start: seq<Slave>, found: Identity, n: nat)
    requires n <= 4
  {
    forall i :: 0 <= i < |start| && !start[i].configuring ==>
      Agrees(start[i].identity, found, n) || Before(found, start[i].identity, n)
  }

  /** Candidate `w` has the least next part. */
  ghost predicate LeastNext(start: seq<Slave>, found: Identity, n: Part, w: nat) {
    Candidate(start, found, n, w)
    && forall i: nat :: Candidate(start, found, n, i) ==> start[w].identity[n] <= start[i].identity[n]
  }

  lemma {:induction false} LeastCandidate(start: seq<Slave>, found: Identity, n: Part, c: nat) returns (w: nat)
    requires Candidate(start, found, n, c)
    ensures LeastNext(start, found, n, w)
  {
    w := c;
    for j := 0 to |start|
      invariant Candidate(start, found, n, w)
      invariant forall i: nat :: i < j && Candidate(start, found, n, i) ==> start[w].identity[n] <= start[i].identity[n]
    {
      if Candidate(start, found, n, j) && start[j].identity[n] < start[w].identity[n] {
        w := j;
      }
    }
  }

  /** `found` with other values from part `n` on says the same about the slaves so far. */
  lemma {:induction false} LaterPartsDoNotMatter(
      start: seq<Slave>, slaves: seq<Slave>, found: Identity, other: Identity, n: Part, w: nat)
    requires found[..n] == other[..n] && Scanning(start, slaves, found, n)
    ensures Scanning(start, slaves, other, n)
    ensures LeastNext(start, found, n, w) ==> LeastNext(start, other, n, w)
  {
    assert forall a: Identity :: Agrees(a, found, n) == Agrees(a, other, n);
    if LeastNext(start, found, n, w) {
      forall i: nat | Candidate(start, other, n, i) ensures start[w].identity[n] <= start[i].identity[n] {
        assert Candidate(start, found, n, i);
      }
    }
  }

  lemma {:induction false} LeastCarriesOver(start: seq<Slave>, found: Identity, other: Identity, n: nat)
    requires n <= 4 && found[..n] == other[..n] && Least(start, found, n)
    ensures Least(start, other, n)
  {
    forall i | 0 <= i < |start| && !start[i].configuring
      ensures Agrees(start[i].identity, other, n) || Before(other, start[i].identity, n)
    {
      if !Agrees(start[i].identity, found, n) {
        var k :| 0 <= k < n && Agrees(found, start[i].identity, k) && found[k] < start[i].identity[k];
        assert found[..n][..k] == found[..k] && other[..n][..k] == other[..k] && found[..n][k] == other[..n][k];
      }
    }
  }

  /** A probe for bit `b` is answered exactly when the least candidate has that bit clear. */
  lemma {:induction false} BitProbeAnswered(
      start: seq<Slave>, slaves: seq<Slave>, found: Identity, n: Part, b: nat, y: nat, w: nat)
    requires Scanning(start, slaves, found, n) && b < 32
    requires LeastNext(start, found, n, w)
    requires found[n] == Shl(y, b + 1) && y == Shr(start[w].identity[n], b + 1)
    ensures var m := start[w].identity[n];
            if Count(slaves, Probe(found[n], b, n, n)) > 0 then Shr(m, b) == 2 * y else Shr(m, b) == 2 * y + 1
  {
    var p, m := Probe(found[n], b, n, n), start[w].identity[n];
    ShlDouble(y, b);
    ShrShl(2 * y, b);
    ShrNext(m, b);
    assert slaves[w].Matches(p) <==> Shr(m, b) == 2 * y;
    if i :| 0 <= i < |slaves| && slaves[i].Matches(p) {
      assert Candidate(start, found, n, i);
      var own := start[i].identity[n];
      ShrMonotone(m, own, b);
    }
  }

  /** The least candidate extends what is found by one part. */
  lemma {:induction false} LeastExtends(start: seq<Slave>, found: Identity, n: Part, w: nat)
    requires Least(start, found, n) && LeastNext(start, found, n, w) && found[n] == start[w].identity[n]
    ensures Least(start, found, n + 1) && Candidate(start, found, n + 1, w)
  {
    forall i | 0 <= i < |start| && !start[i].configuring
      ensures Agrees(start[i].identity, found, n + 1) || Before(found, start[i].identity, n + 1)
    {
      PrefixGrows(start[i].identity, found, n);
      if Agrees(start[i].identity, found, n) {
        assert Candidate(start, found, n, i);
        assert found[n] < start[i].identity[n] ==> Agrees(found, start[i].identity, n);
      } else {
        var k :| 0 <= k < n && Agrees(found, start[i].identity, k) && found[k] < start[i].identity[k];
      }
    }
    PrefixGrows(start[w].identity, found, n);
  }

  /** The slaves that still answer. */
  ghost function Unconfigured(slaves: seq<Slave>): set<int> {
    set i | 0 <= i < |slaves| && !slaves[i].configuring
  }

  lemma {:induction false} UnconfiguredCandidate(start: seq<Slave>, found: Identity)
    ensures Unconfigured(start) != {} <==> exists i: nat :: Candidate(start, found, 0, i)
  {
    if i: nat :| Candidate(start, found, 0, i) {
      assert i in Unconfigured(start);
    }
    if i :| i in Unconfigured(start) {
      assert Candidate(start, found, 0, i);
    }
  }

  /** Between two rounds of the outer loop: `n` parts are found, and slave `c` agrees with them. */
  ghost predicate Round(start: seq<Slave>, slaves: seq<Slave>, found: Identity, n: nat, c: nat, reliable: bool)
    requires n <= 4
  {
    && Progress(start, slaves, found, n) && Candidate(start, found, n, c)
    && (reliable ==> Least(start, found, n))
    && forall k :: n <= k < 4 ==> found[k] == 0
  }

  /** What scanning the bits of part `n` has achieved. */
  lemma {:induction false} PartScanned(
      start: seq<Slave>, slaves: seq<Slave>, before: Identity, found: Identity, n: Part, w: nat, reliable: bool)
    requires Scanning(start, slaves, before, n) && found == before[n := found[n]]
    requires LeastNext(start, before, n, w) && (forall k :: n <= k < 4 ==> before[k] == 0)
    requires reliable ==> Least(start, before, n) && found[n] == start[w].identity[n]
    ensures Scanning(start, slaves, found, n) && (forall k :: n + 1 <= k < 4 ==> found[k] == 0)
    ensures reliable ==> Least(start, found, n + 1) && Candidate(start, found, n + 1, w)
  {
    assert found[..n] == before[..n];
    LaterPartsDoNotMatter(start, slaves, before, found, n, w);
    if reliable {
      LeastCarriesOver(start, before, found, n);
      LeastExtends(start, found, n, w);
    }
  }

  // ----- the master

  class LssMaster {
    const bus: Bus
    var responses: seq<int>
    /** Messages sent so far. */
    var sent: nat

    constructor (bus: Bus)
      ensures this.bus == bus && responses == [] && sent == 0
    {
      this.bus, responses, sent := bus, [], 0;
    }

    /** Empties the queue, sends, and takes the first response; `None` stands for the timeout. */
    method SendCommand(message: seq<byte>) returns (response: Option<int>)
      requires |message| == 8
      modifies this, bus
      ensures sent == old(sent) + 1
      ensures match Heard(message)
              case None => response == None && bus.slaves == old(bus.slaves)
              case Some(p) =>
                && bus.slaves == AllReact(old(bus.slaves), p)
                && (response.Some? ==> response.value == 0x4F && Count(old(bus.slaves), p) > 0)
                && (bus.reliable && Count(old(bus.slaves), p) > 0 ==> response.Some?)
    {
      if responses != [] {
        responses := [];
      }
      sent := sent + 1;
      var replies := bus.Send(message);
      responses := responses + replies;
      assert responses == replies && (replies != [] ==> replies[0] in replies);
      if responses == [] {
        return None;
      }
      response := Some(responses[0]);
      responses := responses[1..];
    }

    /** Whether some slave identified itself. */
    method SendFastScanMessage(idNumber: word32, bitCheck: nat, lssSub: Part, lssNext: Part) returns (identified: bool)
      requires bitCheck <= 128
      modifies this, bus
      ensures bus.slaves == AllReact(old(bus.slaves), Probe(idNumber, bitCheck, lssSub, lssNext)) && sent == old(sent) + 1
      ensures identified ==> Count(old(bus.slaves), Probe(idNumber, bitCheck, lssSub, lssNext)) > 0
      ensures bus.reliable && Count(old(bus.slaves), Probe(idNumber, bitCheck, lssSub, lssNext)) > 0 ==> identified
    {
      MessageHeard(Probe(idNumber, bitCheck, lssSub, lssNext));
      var response := SendCommand(Message(Probe(idNumber, bitCheck, lssSub, lssNext)));
      if response.None? {
        return false;
      }
      return response.value == CS_IDENTIFY_SLAVE;
    }

    /** The inner loop: the bits of one part, highest first. */
    method ScanPart(lssId: Identity, lssSub: Part, lssNext: Part, ghost start: seq<Slave>, ghost w: nat) returns (r: Identity)
      requires lssNext == lssSub && lssId[lssSub] == 0 && Scanning(start, bus.slaves, lssId, lssSub)
      requires bus.reliable ==> LeastNext(start, lssId, lssSub, w)
      modifies this, bus
      ensures r == lssId[lssSub := r[lssSub]] && bus.slaves == old(bus.slaves) && sent == old(sent) + 32
      ensures bus.reliable ==> r[lssSub] == start[w].identity[lssSub]
    {
      r := lssId;
      var lssBitCheck := 32;
      ghost var y: nat := 0;
      Pow2ThirtyTwo();
      ShlZero(32);
      if bus.reliable {
        ShrSmall(start[w].identity[lssSub], 32);
      }
      while lssBitCheck > 0
        invariant 0 <= lssBitCheck <= 32 && sent == old(sent) + 32 - lssBitCheck && bus.slaves == old(bus.slaves)
        invariant r == lssId[lssSub := r[lssSub]] && r[lssSub] == Shl(y, lssBitCheck) && y < Pow2(32 - lssBitCheck)
        invariant bus.reliable ==> y == Shr(start[w].identity[lssSub], lssBitCheck)
      {
        lssBitCheck := lssBitCheck - 1;
        BitProbeMovesNothing(bus.slaves, Probe(r[lssSub], lssBitCheck, lssSub, lssNext));
        if bus.reliable {
          assert r[..lssSub] == lssId[..lssSub];
          LaterPartsDoNotMatter(start, bus.slaves, lssId, r, lssSub, w);
          BitProbeAnswered(start, bus.slaves, r, lssSub, lssBitCheck, y, w);
        }
        NextBit(r[lssSub], y, lssBitCheck);
        var identified := SendFastScanMessage(r[lssSub], lssBitCheck, lssSub, lssNext);
        if !identified {
          r := r[lssSub := Or(r[lssSub], Shl(1, lssBitCheck))];
          y := 2 * y + 1;
        } else {
          y := 2 * y;
        }
      }
    }

    /** One round of the outer loop: the bits of a part, then its confirmation. */
    method ScanAndConfirm(lssId: Identity, lssSub: Part, lssNext: Part, ghost start: seq<Slave>, ghost c: nat)
      returns (identified: bool, r: Identity, next: Part, ghost w: nat)
      requires lssNext == lssSub && Round(start, bus.slaves, lssId, lssSub, c, bus.reliable)
      modifies this, bus
      ensures sent == old(sent) + 33 && (lssSub < 3 ==> next == lssSub + 1) && (bus.reliable ==> identified)
      ensures !identified || Round(start, bus.slaves, r, lssSub + 1, w, bus.reliable)
    {
      w := LeastCandidate(start, lssId, lssSub, c);
      r := ScanPart(lssId, lssSub, lssNext, start, w);
      next := (lssSub + 1) % 4;
      ghost var slaves := bus.slaves;
      PartScanned(start, slaves, lssId, r, lssSub, w, bus.reliable);
      ConfirmMoves(start, slaves, r, lssSub, lssSub + 1, Probe(r[lssSub], 0, lssSub, next));
      identified := SendFastScanMessage(r[lssSub], 0, lssSub, next);
      if identified {
        ghost var m := lssSub + 1;
        w :| Candidate(start, r, m, w);
      }
    }

    /**
     One scan.  Whatever replies get lost, an identity is only ever returned for slaves that have it, and
     those are then in configuration state.  On a reliable bus it is the least one, found in 133 messages,
     and nothing is found exactly when no slave is left.
     */
    method FastScan() returns (ok: bool, lssId: Identity)
      modifies this, bus
      ensures ok ==> exists i: nat :: Candidate(old(bus.slaves), lssId, 4, i)
      ensures ok ==> Scanned(old(bus.slaves), bus.slaves, lssId) && sent == old(sent) + 133
      ensures bus.reliable ==> (ok <==> Unconfigured(old(bus.slaves)) != {})
      ensures bus.reliable && ok ==> Least(old(bus.slaves), lssId, 4)
      ensures bus.reliable && !ok ==> bus.slaves == old(bus.slaves) && sent == old(sent) + 1
    {
      ghost var start := bus.slaves;
      lssId := [0, 0, 0, 0];
      var lssBitCheck, lssSub, lssNext: Part := 128, 0, 0;
      UnconfiguredCandidate(start, lssId);
      ResetStarts(start, lssId, Probe(lssId[0], lssBitCheck, lssSub, lssNext));
      var identified := SendFastScanMessage(lssId[0], lssBitCheck, lssSub, lssNext);
      if !identified {
        return false, lssId;
      }
      ghost var c: nat :| Candidate(start, lssId, 0, c);
      while lssSub < 4
        invariant 0 <= lssSub <= 4 && sent == old(sent) + 1 + 33 * lssSub && (lssSub < 4 ==> lssNext == lssSub)
        invariant Round(start, bus.slaves, lssId, lssSub, c, bus.reliable)
      {
        identified, lssId, lssNext, c := ScanAndConfirm(lssId, lssSub, lssNext, start, c);
        if !identified {
          return false, lssId;
        }
        lssSub := lssSub + 1;
      }
      return true, lssId;
    }
  }

  // ----- scanning again and again

  /** What one successful scan does to the slaves that still answer. */
  lemma {:induction false} ScanTakesLeast(start: seq<Slave>, slaves: seq<Slave>, found: Identity, c: nat)
    requires Scanned(start, slaves, found) && Least(start, found, 4) && Candidate(start, found, 4, c)
    ensures Unconfigured(slaves) < Unconfigured(start) && start[c].identity == found
    ensures forall i :: i in Unconfigured(slaves) ==> Before(found, start[i].identity, 4)
    ensures Distinct(start) ==> Unconfigured(slaves) == Unconfigured(start) - {c}
  {
    assert start[c].identity[..4] == start[c].identity && found[..4] == found;
    assert c in Unconfigured(start) && c !in Unconfigured(slaves);
    forall i | i in Unconfigured(slaves) ensures Before(found, start[i].identity, 4) && i in Unconfigured(start) {
      assert start[i].identity[..4] == start[i].identity;
    }
  }

  ghost predicate Distinct(slaves: seq<Slave>) {
    forall i, j :: 0 <= i < j < |slaves| ==> slaves[i].identity != slaves[j].identity
  }

  /** What a number of successful scans have found and done. */
  ghost predicate Enumerated(start: seq<Slave>, slaves: seq<Slave>, found: seq<Identity>) {
    && |slaves| == |start|
    && (forall i :: 0 <= i < |start| ==> slaves[i].identity == start[i].identity)
    && Unconfigured(slaves) <= Unconfigured(start)
    && (forall j, k :: 0 <= j < k < |found| ==> Before(found[j], found[k], 4))
    && (forall j, i :: 0 <= j < |found| && i in Unconfigured(slaves) ==> Before(found[j], start[i].identity, 4))
    && (forall i :: i in Unconfigured(start) && i !in Unconfigured(slaves) ==> start[i].identity in found)
    && (forall j :: 0 <= j < |found| ==> exists i :: i in Unconfigured(start) && start[i].identity == found[j])
    && (Distinct(start) ==> |found| + |Unconfigured(slaves)| == |Unconfigured(start)|)
  }

  lemma {:induction false} EnumeratesNext(
      start: seq<Slave>, before: seq<Slave>, after: seq<Slave>, found: seq<Identity>, next: Identity, c: nat)
    requires Enumerated(start, before, found)
    requires Scanned(before, after, next) && Least(before, next, 4) && Candidate(before, next, 4, c)
    ensures Enumerated(start, after, found + [next]) && Unconfigured(after) < Unconfigured(before)
  {
    ScanTakesLeast(before, after, next, c);
    assert c in Unconfigured(before) && start[c].identity == next;
    forall j | 0 <= j < |found| ensures Before(found[j], next, 4) {
      assert Before(found[j], start[c].identity, 4);
    }
    forall i | i in Unconfigured(start) && i !in Unconfigured(after) ensures start[i].identity in found + [next] {
      if i in Unconfigured(before) {
        assert after[i].configuring && before[i].identity == next;
      }
    }
  }

  /**
   Scanning until nothing is found enumerates the bus: every unconfigured identity once, in strictly
   increasing order, and every slave ends up in configuration state.
   */
  method Enumerate(master: LssMaster) returns (found: seq<Identity>)
    requires master.bus.reliable
    modifies master, master.bus
    ensures forall j, k :: 0 <= j < k < |found| ==> Before(found[j], found[k], 4)
    ensures forall i :: i in Unconfigured(old(master.bus.slaves)) ==> old(master.bus.slaves)[i].identity in found
    ensures forall j :: 0 <= j < |found| ==>
              exists i :: i in Unconfigured(old(master.bus.slaves)) && old(master.bus.slaves)[i].identity == found[j]
    ensures Unconfigured(master.bus.slaves) == {}
    ensures Distinct(old(master.bus.slaves)) ==> |found| == |Unconfigured(old(master.bus.slaves))|
    ensures master.sent == old(master.sent) + 133 * |found| + 1
  {
    found := [];
    ghost var start := master.bus.slaves;
    while true
      invariant Enumerated(start, master.bus.slaves, found)
      invariant master.sent == old(master.sent) + 133 * |found|
      decreases Unconfigured(master.bus.slaves)
    {
      ghost var before := master.bus.slaves;
      var ok, lssId := master.FastScan();
      if !ok {
        break;
      }
      ghost var c: nat :| Candidate(before, lssId, 4, c);
      EnumeratesNext(start, before, master.bus.slaves, found, lssId, c);
      found := found + [lssId];
    }
  }

  lemma {:induction false} ShlZero(n: nat)
    ensures Shl(0, n) == 0
  {
    if n > 0 {
      ShlZero(n - 1);
    }
  }
}

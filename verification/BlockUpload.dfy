/**
 Block upload (`BlockUploadStream`) from a server that sends sub-blocks of segments and goes back to
 the first one that was not acknowledged, over a channel that may lose segments.
 */
module BlockUpload {
  import opened Common
  import opened Crc
  import opened Blocks

  const BLKSIZE := 127
  const RESPONSE_BLOCK_UPLOAD := 0xC0
  const END_BLOCK_TRANSFER := 0x01

  // ----- the transfer as a machine on losses

  /** One of the next `k` segments arrives. */
  predicate Noticed(losses: seq<bool>, k: nat) {
    k > 0 && (!Lost(losses) || Noticed(DropLosses(losses, 1), k - 1))
  }

  /**
   How far a transfer of `count` segments is: `at` comes next, and the current sub-block goes on for
   `left` segments.  The channel loses the k-th next segment when `losses[k]`.
   */
  datatype Line = Line(at: nat, count: nat, left: nat, losses: seq<bool>) {
    predicate Valid() {
      at <= count && left <= count - at
    }

    /** The next segment arrives. */
    function Taken(): (l: Line)
      requires Valid() && left > 0
      ensures l.Valid()
    {
      Line(at + 1, count, left - 1, DropLosses(losses, 1))
    }

    /** The rest of the sub-block is over, and the server sends a new one from the next segment on. */
    function Renewed(): (l: Line)
      requires Valid()
      ensures l.Valid()
    {
      Line(at, count, Min(BLKSIZE, count - at), DropLosses(losses, left))
    }
  }

  /** Some of the current sub-block, or of the next one if the current one is over, is still to arrive. */
  predicate Heard(l: Line)
    requires l.Valid()
  {
    if l.left == 0 then l.at < l.count && Noticed(l.losses, l.Renewed().left) else Noticed(l.losses, l.left)
  }

  /** A retransmission waits for the first segment of its sub-block, and drops everything else. */
  function First(l: Line): Option<Line> {
    if l.at == l.count || Lost(l.losses) then None else Some(l)
  }

  /**
   Where the transfer is when the next segment is returned, or `None` if none ever is.  A gap is noticed
   by a later segment of the sub-block.  If none arrives the read times out, and the first segment of the
   sub-block sent again is acknowledged without being returned.
   */
  function Reached(l: Line): (r: Option<Line>)
    requires l.Valid() && l.at < l.count
    ensures r.Some? ==> var w := r.value;
                        && w.Valid() && w.count == l.count && w.left > 0 && !Lost(w.losses)
                        && w.at == if Heard(l) then l.at else l.at + 1
  {
    var s := if l.left == 0 then l.Renewed() else l;
    var again := s.Renewed();
    if !Lost(s.losses) then Some(s)
    else if Noticed(s.losses, s.left) then First(again)
    else if Lost(again.losses) then None
    else First(again.Taken().Renewed())
  }

  /** Whether a transfer gets to its end, and the numbers of the segments it returns. */
  datatype Outcome = Outcome(complete: bool, taken: seq<nat>)

  /** What becomes of a transfer while no retransmission runs out of time. */
  function Fate(l: Line): Outcome
    requires l.Valid()
    decreases l.count - l.at
  {
    if l.at == l.count then Outcome(true, [])
    else match Reached(l)
      case None => Outcome(false, [])
      case Some(w) => var rest := Fate(w.Taken()); Outcome(rest.complete, [w.at] + rest.taken)
  }

  /** In every sub-block of the transfer that has a gap, a segment behind the gap arrives. */
  predicate GapsNoticed(l: Line)
    requires l.Valid()
    decreases l.count - l.at
  {
    l.at == l.count || (Heard(l) && (Reached(l).None? || GapsNoticed(Reached(l).value.Taken())))
  }

  function Range(at: nat, n: nat): (r: seq<nat>)
    ensures |r| == n
  {
    seq(n, i requires 0 <= i < n => at + i)
  }

  /** A gap is noticed when the last segment of the sub-block arrives, or any other behind it. */
  lemma {:induction false} LaterArrives(losses: seq<bool>, k: nat, j: nat)
    requires j < k && !Lost(DropLosses(losses, j))
    ensures Noticed(losses, k)
  {
    if j > 0 {
      DropAdds(losses, 1, j - 1);
      LaterArrives(DropLosses(losses, 1), k - 1, j - 1);
    }
  }

  /** In every sub-block of the transfer the last segment arrives. */
  predicate TailsArrive(l: Line)
    requires l.Valid()
    decreases l.count - l.at
  {
    || l.at == l.count
    || (&& !Lost(DropLosses(l.losses, (if l.left == 0 then l.Renewed().left else l.left) - 1))
        && (Reached(l).None? || TailsArrive(Reached(l).value.Taken())))
  }

  lemma {:induction false} TailsSuffice(l: Line)
    requires l.Valid() && TailsArrive(l)
    ensures GapsNoticed(l)
    decreases l.count - l.at
  {
    if l.at < l.count {
      var k := if l.left == 0 then l.Renewed().left else l.left;
      LaterArrives(l.losses, k, k - 1);
      if Reached(l).Some? {
        TailsSuffice(Reached(l).value.Taken());
      }
    }
  }

  ghost predicate Increasing(taken: seq<nat>) {
    forall j, k :: 0 <= j < k < |taken| ==> taken[j] < taken[k]
  }

  /** Segments are returned in order and at most once, and a complete transfer returns the last one. */
  lemma {:induction false} TakenInOrder(l: Line)
    requires l.Valid()
    ensures forall j :: 0 <= j < |Fate(l).taken| ==> l.at <= Fate(l).taken[j] < l.count
    ensures Increasing(Fate(l).taken)
    ensures Fate(l).complete && l.at < l.count ==>
              Fate(l).taken != [] && Fate(l).taken[|Fate(l).taken| - 1] == l.count - 1
    decreases l.count - l.at
  {
    if l.at < l.count && Reached(l).Some? {
      TakenInOrder(Reached(l).value.Taken());
    }
  }

  /**
   While every gap is noticed the segments returned have no gap, repeat or swap; and a complete
   transfer returns all of them exactly when every gap was noticed.
   */
  lemma {:induction false} TakesAll(l: Line)
    requires l.Valid()
    ensures GapsNoticed(l) ==> Fate(l).taken == Range(l.at, |Fate(l).taken|)
    ensures |Fate(l).taken| <= l.count - l.at
    ensures Fate(l).complete ==> (GapsNoticed(l) <==> |Fate(l).taken| == l.count - l.at)
    decreases l.count - l.at
  {
    if l.at < l.count && Reached(l).Some? {
      TakesAll(Reached(l).value.Taken());
    }
  }

  lemma {:induction false} RangeJoins(at: nat, m: nat, n: nat)
    ensures Range(at, m) + Range(at + m, n) == Range(at, m + n)
  {
  }

  function Prepended(taken: seq<nat>, o: Outcome): Outcome {
    Outcome(o.complete, taken + o.taken)
  }

  lemma {:induction false} Chained(a: Outcome, b: Outcome, c: Outcome, at: nat, m: nat, n: nat)
    requires a == Prepended(Range(at, m), b) && b == Prepended(Range(at + m, n), c)
    ensures a == Prepended(Range(at, m + n), c)
  {
    RangeJoins(at, m, n);
  }

  /** The line after `m` segments of the current sub-block have arrived. */
  function Further(l: Line, m: nat): (w: Line)
    requires l.Valid() && m <= l.left
    ensures w.Valid()
  {
    Line(l.at + m, l.count, l.left - m, DropLosses(l.losses, m))
  }

  lemma {:induction false} FateStep(l: Line)
    requires l.Valid() && l.left > 0 && !Lost(l.losses)
    ensures Fate(l) == Prepended(Range(l.at, 1), Fate(l.Taken()))
  {
    assert Range(l.at, 1) == [l.at];
  }

  lemma {:induction false} FurtherStep(l: Line, m: nat)
    requires l.Valid() && 0 < m <= Lead(l.losses, l.left)
    ensures l.left > 0 && !Lost(l.losses) && m - 1 <= Lead(l.Taken().losses, l.Taken().left)
    ensures Further(l, m) == Further(l.Taken(), m - 1)
  {
    DropAdds(l.losses, 1, m - 1);
  }

  /** The segments up to the first loss in the sub-block are returned. */
  lemma {:induction false} LeadTaken(l: Line, m: nat)
    requires l.Valid() && m <= Lead(l.losses, l.left)
    ensures Fate(l) == Prepended(Range(l.at, m), Fate(Further(l, m)))
    decreases m
  {
    if m == 0 {
      assert Further(l, 0) == l && Range(l.at, 0) == [];
    } else {
      FurtherStep(l, m);
      FateStep(l);
      LeadTaken(l.Taken(), m - 1);
      Chained(Fate(l), Fate(l.Taken()), Fate(Further(l, m)), l.at, 1, m - 1);
    }
  }

  lemma {:induction false} LeadIsLost(losses: seq<bool>, k: nat)
    requires Lead(losses, k) < k
    ensures Lost(DropLosses(losses, Lead(losses, k)))
  {
    if !Lost(losses) {
      LeadIsLost(DropLosses(losses, 1), k - 1);
      DropAdds(losses, 1, Lead(losses, k) - 1);
    }
  }

  lemma {:induction false} LosslessTakesAll(l: Line)
    requires l.Valid() && LossCount(l.losses) == 0
    ensures Fate(l) == Outcome(true, Range(l.at, l.count - l.at))
    decreases l.count - l.at
  {
    if l.at < l.count {
      NoLossesLeft(l.losses, l.left);
      var w := Reached(l).value;
      NoLossesLeft(w.losses, 1);
      LosslessTakesAll(w.Taken());
      assert Range(l.at, l.count - l.at) == [l.at] + Range(l.at + 1, l.count - l.at - 1);
    }
  }

  /**
   A sub-block from `at` on with a gap, and nothing lost behind it: everything is returned if the gap was
   noticed.  Otherwise the segment of the gap is missing from what is returned as complete, unless it is
   the last one, and then the transfer fails.
   */
  function GapOutcome(at: nat, gap: nat, count: nat, noticed: bool): Outcome
    requires at <= gap < count
  {
    if noticed then Outcome(true, Range(at, count - at))
    else if gap + 1 == count then Outcome(false, Range(at, gap - at))
    else Outcome(true, Range(at, gap - at) + Range(gap + 1, count - gap - 1))
  }

  lemma {:induction false} NothingBefore(at: nat, taken: seq<nat>)
    ensures Range(at, 0) == [] && Range(at, 0) + taken == taken
  {
  }

  lemma {:induction false} ReachedFate(l: Line, w: Line)
    requires l.Valid() && l.at < l.count && Reached(l) == Some(w)
    ensures Fate(l) == Fate(w)
  {
    assert Reached(w) == Some(w);
  }

  lemma {:induction false} GapTaken(l: Line)
    requires l.Valid() && l.left > 0 && Lost(l.losses) && LossCount(DropLosses(l.losses, l.left)) == 0
    ensures Fate(l) == GapOutcome(l.at, l.at, l.count, Noticed(l.losses, l.left))
  {
    var again := l.Renewed();
    NoLossesLeft(again.losses, 1);
    ReachedCases(l, again);
    NoLossesLeft(again.Taken().losses, again.Taken().left);
    if Noticed(l.losses, l.left) {
      ReachedFate(l, again);
      LosslessTakesAll(again);
    } else {
      GapSkipped(l, again.Taken().Renewed());
    }
  }

  /** The gap is not noticed, and nothing is lost behind it. */
  lemma {:induction false} GapSkipped(l: Line, w: Line)
    requires l.Valid() && l.at < l.count && LossCount(w.losses) == 0 && w.Valid() && w.at == l.at + 1 && w.count == l.count
    requires Reached(l) == First(w)
    ensures Fate(l) == GapOutcome(l.at, l.at, l.count, false)
  {
    NothingBefore(l.at, Range(l.at + 1, l.count - l.at - 1));
    NoLossesLeft(w.losses, 1);
    if w.at < l.count {
      ReachedFate(l, w);
      LosslessTakesAll(w);
    }
  }

  lemma {:induction false} GapBehind(a: Outcome, b: Outcome, at: nat, gap: nat, count: nat, noticed: bool)
    requires at <= gap < count && a == Prepended(Range(at, gap - at), b) && b == GapOutcome(gap, gap, count, noticed)
    ensures a == GapOutcome(at, gap, count, noticed)
  {
    RangeJoins(at, gap - at, count - gap);
    assert Range(gap, 0) == [] && Range(at, gap - at) + [] == Range(at, gap - at);
    assert [] + Range(gap + 1, count - gap - 1) == Range(gap + 1, count - gap - 1);
  }

  lemma {:induction false} GapAt(l: Line, m: nat)
    requires l.Valid() && m == Lead(l.losses, l.left) < l.left
    ensures Lost(Further(l, m).losses)
    ensures DropLosses(Further(l, m).losses, Further(l, m).left) == DropLosses(l.losses, l.left)
  {
    LeadIsLost(l.losses, l.left);
    DropAdds(l.losses, m, l.left - m);
  }

  /** The outcome of a transfer whose current sub-block is the last one to lose anything, first the segment of `w`. */
  lemma {:induction false} OneGap(l: Line, m: nat, w: Line)
    requires l.Valid() && m == Lead(l.losses, l.left) < l.left && w == Further(l, m)
    requires LossCount(DropLosses(l.losses, l.left)) == 0
    ensures Fate(l) == GapOutcome(l.at, w.at, l.count, Noticed(w.losses, w.left))
  {
    GapAt(l, m);
    LeadTaken(l, m);
    GapTaken(w);
    GapBehind(Fate(l), Fate(w), l.at, w.at, l.count, Noticed(w.losses, w.left));
  }

  /** Where an upload of `n` bytes starts. */
  function Start(n: nat, losses: seq<bool>): (l: Line)
    ensures l.Valid()
  {
    Line(0, Segments(n), 0, losses).Renewed()
  }

  // ----- the segments that are returned

  predicate InData(data: seq<byte>, taken: seq<nat>) {
    forall j :: 0 <= j < |taken| ==> taken[j] < Segments(|data|)
  }

  /** The segments with these numbers, one after the other. */
  function Gather(data: seq<byte>, taken: seq<nat>): seq<byte>
    requires InData(data, taken)
  {
    if taken == [] then [] else Gather(data, taken[..|taken| - 1]) + Segment(data, taken[|taken| - 1])
  }

  lemma {:induction false} GatherSnoc(data: seq<byte>, taken: seq<nat>, j: nat)
    requires InData(data, taken) && j < Segments(|data|)
    ensures InData(data, taken + [j]) && Gather(data, taken + [j]) == Gather(data, taken) + Segment(data, j)
  {
    assert (taken + [j])[..|taken|] == taken;
  }

  /** The first segments are the first bytes. */
  lemma {:induction false} GatherRange(data: seq<byte>, m: nat)
    requires m <= Segments(|data|)
    ensures InData(data, Range(0, m)) && Gather(data, Range(0, m)) == data[..Min(7 * m, |data|)]
  {
    if m > 0 {
      GatherRange(data, m - 1);
      assert Range(0, m)[..m - 1] == Range(0, m - 1);
    }
  }

  /** Segments before the last one are whole. */
  lemma {:induction false} GatherLength(data: seq<byte>, taken: seq<nat>)
    requires InData(data, taken) && Increasing(taken)
    ensures |Gather(data, taken)|
            == if taken != [] && taken[|taken| - 1] == Segments(|data|) - 1 then |data| - 7 * (Segments(|data|) - |taken|)
               else 7 * |taken|
  {
    if taken != [] {
      var init := taken[..|taken| - 1];
      GatherLength(data, init);
      if init != [] {
        assert taken[|init| - 1] < taken[|init|];
      }
    }
  }

  /** What the transfer of `data` returns after `m` segments, or ever. */
  function Returned(data: seq<byte>, losses: seq<bool>, m: nat): seq<byte>
    requires m <= |Fate(Start(|data|, losses)).taken|
  {
    TakenInOrder(Start(|data|, losses));
    Gather(data, Fate(Start(|data|, losses)).taken[..m])
  }

  /** While every gap is noticed what has been returned is a prefix of the data: no gap, repeat or swap. */
  lemma {:induction false} ReturnedPrefix(data: seq<byte>, losses: seq<bool>, m: nat)
    requires GapsNoticed(Start(|data|, losses)) && m <= |Fate(Start(|data|, losses)).taken|
    ensures Returned(data, losses, m) <= data
  {
    var l := Start(|data|, losses);
    TakesAll(l);
    assert Fate(l).taken[..m] == Range(0, m);
    GatherRange(data, m);
  }

  /** A complete transfer returns all of the data exactly when every gap was noticed. */
  lemma {:induction false} CompleteIsAll(data: seq<byte>, losses: seq<bool>)
    requires |data| > 0 && Fate(Start(|data|, losses)).complete
    ensures var l := Start(|data|, losses);
            var all := Returned(data, losses, |Fate(l).taken|);
            && (all == data <==> GapsNoticed(l))
            && |all| == |data| - 7 * (l.count - |Fate(l).taken|)
  {
    var l := Start(|data|, losses);
    var taken := Fate(l).taken;
    assert taken[..|taken|] == taken;
    TakenInOrder(l);
    TakesAll(l);
    GatherLength(data, taken);
    if GapsNoticed(l) {
      GatherRange(data, |taken|);
    }
  }

  /** The hole is real: of three segments the second is lost with the third behind it, and the upload completes without it. */
  lemma {:induction false} SecondSegmentMissing(data: seq<byte>, losses: seq<bool>)
    requires |data| == 21 && losses == [false, true, true]
    ensures Fate(Start(|data|, losses)) == Outcome(true, [0, 2])
    ensures Returned(data, losses, 2) == data[..7] + data[14..] != data
  {
    var l, w := Line(0, 3, 3, losses), Line(1, 3, 2, [true, true]);
    TwoLost(losses);
    assert Start(|data|, losses) == l;
    OneGap(l, 1, w);
    assert Range(0, 1) + Range(2, 1) == [0, 2];
    GatherTwo(data, 0, 2);
    assert [0, 2][..2] == [0, 2];
  }

  lemma {:induction false} TwoLost(losses: seq<bool>)
    requires losses == [false, true, true]
    ensures Lead(losses, 3) == 1 && DropLosses(losses, 0) == losses && DropLosses(losses, 1) == [true, true]
    ensures DropLosses(losses, 3) == [] && !Noticed([true, true], 2)
  {
    assert DropLosses([true, true], 1) == [true] && !Noticed([true], 1);
  }

  lemma {:induction false} GatherTwo(data: seq<byte>, j: nat, k: nat)
    requires j < Segments(|data|) && k < Segments(|data|)
    ensures Gather(data, [j, k]) == Segment(data, j) + Segment(data, k)
  {
    GatherSnoc(data, [], j);
    GatherSnoc(data, [j], k);
    assert [] + [j] == [j] && [j] + [k] == [j, k] && [] + Segment(data, j) == Segment(data, j);
  }

  // ----- frames

  function SeqOf(frame: seq<byte>): nat
    requires |frame| == 8
  {
    frame[0] % 0x80
  }

  /** Segment number `s` of the sub-block that starts at segment `base` of the data. */
  function DataFrame(data: seq<byte>, base: nat, s: nat): (f: seq<byte>)
    requires 1 <= s <= BLKSIZE && base + s <= Segments(|data|)
    ensures |f| == 8 && SeqOf(f) == s
    ensures f[0] >= NO_MORE_BLOCKS <==> base + s == Segments(|data|)
    ensures f[1..] == Chunk(data, base + s - 1)
  {
    SegmentFrame(s, Segment(data, base + s - 1), base + s == Segments(|data|))
  }

  /** The response that ends the transfer: how much of the last segment is filling, and the CRC. */
  function EndResponse(filling: nat, crc: word): (f: seq<byte>)
    requires filling < 7
    ensures |f| == 8 && SeqOf(f) != 1 && CrcField(f) == crc && Filling(f) == filling
    ensures f[0] == 0xC1 + filling * 4 && f[1] == crc % 0x100 && f[2] == crc / 0x100
  {
    [RESPONSE_BLOCK_UPLOAD + END_BLOCK_TRANSFER + filling * 4, crc % 256, crc / 256] + Zeros(5)
  }

  function EndFrame(data: seq<byte>): (f: seq<byte>)
    requires |data| > 0
    ensures |f| == 8 && SeqOf(f) != 1 && CrcField(f) == Checksum(data)
    ensures Filling(f) == 7 - |Segment(data, Segments(|data|) - 1)|
  {
    EndResponse(7 - |Segment(data, Segments(|data|) - 1)|, Checksum(data))
  }

  // ----- the server and the channel

  /** Size of the sub-block that starts at segment `base`. */
  function SubBlockSize(data: seq<byte>, base: nat): (n: nat)
    requires base <= Segments(|data|)
    ensures n <= 127 && base + n <= Segments(|data|) && (n == 127 || base + n == Segments(|data|))
  {
    Min(BLKSIZE, Segments(|data|) - base)
  }

  /** Frames that come behind segment `i` of a sub-block. */
  ghost predicate Behind(q: seq<seq<byte>>, i: nat) {
    forall j :: 0 <= j < |q| ==> |q[j]| == 8 && SeqOf(q[j]) > i
  }

  /** The frames of the sub-block at `base` behind segment `i` that the channel delivers. */
  function Burst(data: seq<byte>, base: nat, i: nat, losses: seq<bool>): (q: seq<seq<byte>>)
    requires base <= Segments(|data|) && i <= SubBlockSize(data, base)
    ensures Behind(q, i)
    ensures q != [] <==> Noticed(losses, SubBlockSize(data, base) - i)
    decreases SubBlockSize(data, base) - i
  {
    if i == SubBlockSize(data, base) then []
    else
      var rest := Burst(data, base, i + 1, DropLosses(losses, 1));
      if Lost(losses) then rest else [DataFrame(data, base, i + 1)] + rest
  }

  /** The server's position in the data, the channel's losses to come, and the responses waiting at the client. */
  datatype Chan = Chan(base: nat, losses: seq<bool>, queue: seq<seq<byte>>) {
    /** The server acts on an acknowledgement: the next sub-block, or the end of the transfer. */
    function Acked(data: seq<byte>, ackseq: nat): Chan
      requires |data| > 0 && base + ackseq <= Segments(|data|)
    {
      var b := base + ackseq;
      if b == Segments(|data|) then Chan(b, losses, queue + [EndFrame(data)])
      else Chan(b, DropLosses(losses, SubBlockSize(data, b)), queue + Burst(data, b, 0, losses))
    }
  }

  class UploadServer {
    const data: seq<byte>
    const crcSupported: bool
    var ch: Chan

    constructor (data: seq<byte>, losses: seq<bool>, crcSupported: bool)
      ensures this.data == data && this.crcSupported == crcSupported && ch == Chan(0, losses, [])
    {
      this.data, this.crcSupported := data, crcSupported;
      ch := Chan(0, losses, []);
    }

    method Acknowledge(ackseq: nat)
      requires |data| > 0 && ch.base + ackseq <= Segments(|data|)
      modifies this
      ensures ch == old(ch).Acked(data, ackseq)
    {
      ch := ch.Acked(data, ackseq);
    }

    method Pop() returns (frame: seq<byte>)
      requires ch.queue != []
      modifies this
      ensures frame == old(ch.queue)[0] && ch == old(ch).(queue := old(ch.queue)[1..])
    {
      frame := ch.queue[0];
      ch := ch.(queue := ch.queue[1..]);
    }
  }

  /** Frames left over from an earlier sub-block: none can pass for the first one of the next. */
  ghost predicate Stale(q: seq<seq<byte>>) {
    forall i :: 0 <= i < |q| ==> |q[i]| == 8 && SeqOf(q[i]) != 1
  }

  // ----- the client

  datatype Error = NoResponse | NotRetransmitted | CrcMismatch

  /**
   Everything the rest of a transfer depends on; `ahead` are the losses from the next segment of the
   current sub-block on.
   */
  datatype View = View(data: seq<byte>, ch: Chan, ackseq: nat, done: bool, ahead: seq<bool>) {
    ghost function Count(): nat {
      Segments(|data|)
    }

    /** The segment that comes next. */
    ghost function Next(): nat {
      ch.base + ackseq
    }

    /** The responses waiting are what the channel delivered of the current sub-block. */
    ghost predicate Sending() {
      && |data| > 0 && ch.base < Count() && ackseq <= SubBlockSize(data, ch.base)
      && ch.queue == Burst(data, ch.base, ackseq, ahead)
      && ch.losses == DropLosses(ahead, SubBlockSize(data, ch.base) - ackseq)
    }

    /** The state between two reads. */
    ghost predicate Valid() {
      && |data| > 0
      && if done then Next() == Count() else Sending() && ackseq < SubBlockSize(data, ch.base)
    }

    /** The position makes sense. */
    ghost predicate Placed() {
      Next() <= Count() && (!done ==> ackseq <= SubBlockSize(data, ch.base))
    }

    ghost function ToLine(): (l: Line)
      requires Placed()
      ensures l.Valid()
    {
      Line(Next(), Count(), if done then 0 else SubBlockSize(data, ch.base) - ackseq, ahead)
    }

    /** What will become of the rest. */
    ghost function Rest(): Outcome
      requires Placed()
    {
      Fate(ToLine())
    }
  }

  /** The client holds segment `ackseq` of the current sub-block and has not answered yet. */
  ghost predicate Holding(v: View, frame: seq<byte>) {
    !v.done && v.Sending() && 1 <= v.ackseq && frame == DataFrame(v.data, v.ch.base, v.ackseq)
  }

  /** The next response is the next segment exactly when that was not lost; otherwise it is a later one. */
  lemma {:induction false} BurstHead(data: seq<byte>, base: nat, i: nat, losses: seq<bool>)
    requires base < Segments(|data|) && i < SubBlockSize(data, base)
    ensures var q, rest := Burst(data, base, i, losses), Burst(data, base, i + 1, DropLosses(losses, 1));
            && Behind(rest, i + 1)
            && if Lost(losses) then q == rest
               else q != [] && q[0] == DataFrame(data, base, i + 1) && q[1..] == rest
  {
  }

  /** Among the frames of a new sub-block only the first can be numbered 1. */
  lemma {:induction false} OnlyFirst(data: seq<byte>, base: nat, losses: seq<bool>, k: nat)
    requires base < Segments(|data|) && k < |Burst(data, base, 0, losses)|
    ensures var f := Burst(data, base, 0, losses)[k]; |f| == 8 && (SeqOf(f) == 1 <==> k == 0 && !Lost(losses))
  {
    var q, rest := Burst(data, base, 0, losses), Burst(data, base, 1, DropLosses(losses, 1));
    assert q[k] == if Lost(losses) then rest[k] else if k == 0 then DataFrame(data, base, 1) else rest[k - 1];
  }

  /** The responses after an acknowledgement: leftovers, then the new sub-block; only its first frame is numbered 1. */
  lemma {:induction false} Resynced(c: Chan, data: seq<byte>, ackseq: nat, n: nat)
    requires |data| > 0 && c.base + ackseq <= Segments(|data|) && Stale(c.queue)
    ensures var b := c.base + ackseq;
            var q := c.Acked(data, ackseq).queue;
            n < |q| ==>
              && |q[n]| == 8
              && (SeqOf(q[n]) == 1 <==> n == |c.queue| && b < Segments(|data|) && !Lost(c.losses))
              && (SeqOf(q[n]) == 1 ==> q[n] == DataFrame(data, b, 1)
                                       && q[n + 1..] == Burst(data, b, 1, DropLosses(c.losses, 1)))
  {
    var b := c.base + ackseq;
    var q := c.Acked(data, ackseq).queue;
    if n < |c.queue| {
      assert q[n] == c.queue[n];
    } else if n < |q| && b < Segments(|data|) {
      var burst := Burst(data, b, 0, c.losses);
      assert q == c.queue + burst && q[n] == burst[n - |c.queue|];
      OnlyFirst(data, b, c.losses, n - |c.queue|);
      if SeqOf(q[n]) == 1 {
        assert q[n + 1..] == burst[1..];
      }
    }
  }

  /** There is such a frame exactly when the first segment of the new sub-block is not lost. */
  lemma {:induction false} WillResync(c: Chan, data: seq<byte>, ackseq: nat)
    requires |data| > 0 && c.base + ackseq < Segments(|data|) && !Lost(c.losses)
    ensures |c.queue| < |c.Acked(data, ackseq).queue|
  {
    BurstHead(data, c.base + ackseq, 0, c.losses);
  }

  /** The data bytes of a held segment, once it is known how much of the last one is filling. */
  lemma {:induction false} HeldData(v: View, frame: seq<byte>)
    requires Holding(v, frame)
    ensures var j := v.Next() - 1;
            && (frame[0] >= NO_MORE_BLOCKS <==> v.Next() == v.Count())
            && |Segment(v.data, j)| > 0
            && frame[1..1 + |Segment(v.data, j)|] == Segment(v.data, j)
            && (v.Next() < v.Count() ==> |Segment(v.data, j)| == 7)
  {
    var segment := Segment(v.data, v.Next() - 1);
    assert frame[1..][..|segment|] == segment;
  }

  /** A read that finds the next segment waiting. */
  lemma {:induction false} HeldNext(v: View, w: View)
    requires v.Sending() && !v.done && v.ackseq < SubBlockSize(v.data, v.ch.base) && !Lost(v.ahead)
    requires w == v.(ackseq := v.ackseq + 1, ahead := DropLosses(v.ahead, 1), ch := v.ch.(queue := v.ch.queue[1..]))
    ensures v.ch.queue != [] && v.ch.queue[0] == DataFrame(v.data, v.ch.base, w.ackseq) && Holding(w, v.ch.queue[0])
    ensures w.ToLine() == v.ToLine().Taken() && Reached(v.ToLine()) == Some(v.ToLine())
  {
    BurstHead(v.data, v.ch.base, v.ackseq, v.ahead);
    DropAdds(v.ahead, 1, SubBlockSize(v.data, v.ch.base) - v.ackseq - 1);
  }

  /** The line a retransmission from `c` waits on. */
  function Again(c: Chan, data: seq<byte>, ackseq: nat): (l: Line)
    requires c.base + ackseq <= Segments(|data|)
    ensures l.Valid()
  {
    Line(c.base + ackseq, Segments(|data|), SubBlockSize(data, c.base + ackseq), c.losses)
  }

  /** A retransmission that got the first segment of the new sub-block. */
  lemma {:induction false} HeldFirst(c: Chan, ackseq: nat, w: View, frame: seq<byte>)
    requires |w.data| > 0 && c.base + ackseq < Segments(|w.data|) && !Lost(c.losses) && !w.done
    requires w.ackseq == 1 && w.ahead == DropLosses(c.losses, 1) && frame == DataFrame(w.data, c.base + ackseq, 1)
    requires w.ch == c.Acked(w.data, ackseq).(queue := Burst(w.data, c.base + ackseq, 1, w.ahead))
    ensures Holding(w, frame) && w.ToLine() == Again(c, w.data, ackseq).Taken()
  {
    DropAdds(c.losses, 1, SubBlockSize(w.data, c.base + ackseq) - 1);
  }

  lemma {:induction false} NothingWaiting(q: seq<seq<byte>>)
    ensures [] + q == q
  {
  }

  /** An acknowledgement that leaves nothing else waiting. */
  lemma {:induction false} AckedEmpty(c: Chan, data: seq<byte>, ackseq: nat)
    requires |data| > 0 && c.base + ackseq <= Segments(|data|) && c.queue == []
    ensures var b := c.base + ackseq;
            c.Acked(data, ackseq)
            == if b == Segments(|data|) then Chan(b, c.losses, [EndFrame(data)])
               else Chan(b, DropLosses(c.losses, SubBlockSize(data, b)), Burst(data, b, 0, c.losses))
  {
    var b := c.base + ackseq;
    if b < Segments(|data|) {
      NothingWaiting(Burst(data, b, 0, c.losses));
    }
  }

  /** The client right after the start of the upload. */
  lemma {:induction false} StartsValid(v: View, losses: seq<bool>)
    requires |v.data| > 0 && v.ch == Chan(0, losses, []).Acked(v.data, 0)
    requires v.ackseq == 0 && !v.done && v.ahead == losses
    ensures v.Valid() && v.ToLine() == Start(|v.data|, losses)
  {
    AckedEmpty(Chan(0, losses, []), v.data, 0);
    assert v.ToLine() == Line(0, v.Count(), SubBlockSize(v.data, 0), losses);
    assert Start(|v.data|, losses) == Line(0, v.Count(), SubBlockSize(v.data, 0), DropLosses(losses, 0));
    DropAdds(losses, 0, 0);
  }

  /** Answering a full sub-block: the next one is on its way, or the closing response. */
  lemma {:induction false} HeldAcked(v: View, frame: seq<byte>, w: View)
    requires Holding(v, frame) && v.ackseq == SubBlockSize(v.data, v.ch.base)
    requires w == v.(ackseq := 0, ch := v.ch.Acked(v.data, v.ackseq))
    ensures w.Next() == v.Next() && (v.Next() == v.Count() ==> w.ch.queue == [EndFrame(v.data)])
    ensures v.Next() < v.Count() ==> w.Sending() && w.ToLine() == v.ToLine().Renewed()
  {
    assert DropLosses(v.ahead, 0) == v.ahead;
    AckedEmpty(v.ch, v.data, v.ackseq);
  }

  lemma {:induction false} RenewedRest(v: View, w: View)
    requires v.Placed() && w.Placed() && v.ToLine().left == 0 && w.ToLine() == v.ToLine().Renewed()
    ensures w.Rest() == v.Rest()
  {
    RenewedFate(v.ToLine());
  }

  lemma {:induction false} RenewedFate(l: Line)
    requires l.Valid() && l.left == 0
    ensures Fate(l.Renewed()) == Fate(l)
  {
  }

  /** What a retransmission from here waits on is the line renewed. */
  lemma {:induction false} AgainIsRenewed(v: View)
    requires !v.done && v.Sending()
    ensures Again(v.ch, v.data, v.ackseq) == v.ToLine().Renewed()
  {
  }

  /** The frames waiting: the first is the next segment exactly when that was not lost, and none is numbered 1 behind it. */
  lemma {:induction false} BurstFrames(data: seq<byte>, base: nat, i: nat, losses: seq<bool>)
    requires base < Segments(|data|) && i < SubBlockSize(data, base)
    ensures var q := Burst(data, base, i, losses);
            && (q == [] ==> Lost(losses))
            && (q != [] ==> |q[0]| == 8 && (SeqOf(q[0]) == i + 1 <==> !Lost(losses)) && Stale(q[1..]))
  {
    var q, rest := Burst(data, base, i, losses), Burst(data, base, i + 1, DropLosses(losses, 1));
    BurstHead(data, base, i, losses);
    if q != [] {
      var tail := q[1..];
      assert Lost(losses) ==> q[0] == rest[0];
      forall k | 0 <= k < |tail| ensures |tail[k]| == 8 && SeqOf(tail[k]) != 1 {
        assert tail[k] == if Lost(losses) then rest[k + 1] else rest[k];
      }
    }
  }

  /** What the next read makes of the line. */
  lemma {:induction false} ReachedCases(l: Line, again: Line)
    requires l.Valid() && l.at < l.count && l.left > 0 && again == l.Renewed()
    ensures Reached(l) == if !Lost(l.losses) then Some(l)
                          else if Noticed(l.losses, l.left) then First(again)
                          else if First(again).None? then None
                          else First(again.Taken().Renewed())
  {
  }

  /** What a read finds: the next segment, a later one, or nothing at all. */
  lemma {:induction false} ReadCases(v: View, l: Line, again: Line)
    requires v.Valid() && !v.done && l == v.ToLine() && again == Again(v.ch, v.data, v.ackseq)
    ensures again == l.Renewed()
    ensures v.ch.queue != [] ==> |v.ch.queue[0]| == 8 && (SeqOf(v.ch.queue[0]) == v.ackseq + 1 <==> !Lost(v.ahead))
    ensures v.ch.queue != [] ==> Stale(v.ch.queue[1..])
    ensures v.ch.queue == [] ==> Lost(v.ahead)
    ensures Reached(l) == if !Lost(v.ahead) then Some(l)
                          else if v.ch.queue != [] then First(again)
                          else if First(again).None? then None
                          else First(again.Taken().Renewed())
  {
    AgainIsRenewed(v);
    BurstFrames(v.data, v.ch.base, v.ackseq, v.ahead);
    ReachedCases(l, again);
  }

  lemma {:induction false} FateReached(l: Line, h: Line)
    requires l.Valid() && l.at < l.count && l.left > 0 && Reached(l).Some? && h == Reached(l).value.Taken()
    ensures h.Valid() && l.at < h.at <= l.count == h.count && Fate(l) == Prepended([h.at - 1], Fate(h))
    ensures LossCount(l.losses) == 0 ==> LossCount(h.losses) == 0
  {
    NoLossesAhead(l.losses);
  }

  lemma {:induction false} OneMore(taken: seq<nat>, j: nat, rest: Outcome)
    ensures Prepended(taken, Prepended([j], rest)) == Prepended(taken + [j], rest)
  {
  }

  /** One read took the transfer from `v` to `w`, and returned segment `j`, the next one of its outcome. */
  ghost predicate Got(v: View, w: View, value: seq<byte>, j: nat)
    requires v.Valid() && !v.done
  {
    && w.Valid() && w.data == v.data && w.Next() > v.Next() && v.Rest() == Prepended([j], w.Rest())
    && j < v.Count() && value == Segment(v.data, j) != []
    && (LossCount(v.ahead) == 0 ==> LossCount(w.ahead) == 0)
  }

  /** The client has got hold of the segment that the transfer reaches next. */
  ghost predicate Fetched(v: View, h: View, frame: seq<byte>)
    requires v.Valid() && !v.done
  {
    && Reached(v.ToLine()).Some?
    && Holding(h, frame) && h.data == v.data && h.ToLine() == Reached(v.ToLine()).value.Taken()
  }

  /** The held segment has been accepted: acknowledged if that was due, and its data cut out. */
  ghost predicate Accepted(h: View, w: View, value: seq<byte>)
    requires !h.done && h.Sending() && h.Next() > 0
  {
    && w.Valid() && w.data == h.data && w.Next() == h.Next() && w.ahead == h.ahead && w.Rest() == h.Rest()
    && value == Segment(h.data, h.Next() - 1) != []
  }

  lemma {:induction false} RestGoes(v: View, h: View)
    requires v.Placed() && h.Placed() && v.Next() < v.Count() && v.ToLine().left > 0
    requires Reached(v.ToLine()).Some? && h.ToLine() == Reached(v.ToLine()).value.Taken()
    ensures v.Rest() == Prepended([h.Next() - 1], h.Rest())
    ensures v.Next() < h.Next() <= v.Count() && (LossCount(v.ahead) == 0 ==> LossCount(h.ahead) == 0)
  {
    FateReached(v.ToLine(), h.ToLine());
  }

  lemma {:induction false} HeldGot(v: View, h: View, frame: seq<byte>, w: View, value: seq<byte>, j: nat)
    requires v.Valid() && !v.done && Fetched(v, h, frame) && Accepted(h, w, value) && j == h.Next() - 1
    ensures Got(v, w, value, j)
  {
    RestGoes(v, h);
  }

  /** What has been returned grows by what a read returned, along the outcome of the whole transfer. */
  lemma {:induction false} GotGrows(v: View, w: View, value: seq<byte>, j: nat, taken: seq<nat>, all: Outcome)
    requires v.Valid() && !v.done && Got(v, w, value, j) && Prepended(taken, v.Rest()) == all
    ensures Prepended(taken + [j], w.Rest()) == all
    ensures |taken| < |all.taken| && taken + [j] == all.taken[..|taken| + 1]
    ensures w.done ==> all == Outcome(true, taken + [j])
  {
    OneMore(taken, j, w.Rest());
    assert w.done ==> taken + [j] + [] == taken + [j];
  }

  /** All that the transfer would return, `taken` and one segment more, has the wrong CRC. */
  ghost predicate WrongSum(data: seq<byte>, all: Outcome, taken: seq<nat>) {
    && all.complete && |all.taken| == |taken| + 1 && all.taken[..|taken|] == taken
    && InData(data, all.taken) && Checksum(Gather(data, all.taken)) != Checksum(data)
  }

  class BlockUploadStream {
    const server: UploadServer
    const crc: CrcXmodem
    const crcSupported: bool
    /** No retransmission runs out of time while responses are still coming in. */
    const prompt: bool
    var done: bool
    var pos: nat
    var ackseq: nat
    var error: bool
    var serverCrc: int

    ghost var taken: seq<nat>
    ghost var ahead: seq<bool>

    ghost function Snap(): View
      reads this, server
    {
      View(server.data, server.ch, ackseq, done, ahead)
    }

    ghost predicate Wired()
      reads this, crc
    {
      && crcSupported == server.crcSupported && InData(server.data, taken) && pos == |Gather(server.data, taken)|
      && (crcSupported ==> crc.value == Checksum(Gather(server.data, taken)))
    }

    /** Initiate, then start the upload: the server sends its first sub-block. */
    constructor (server: UploadServer, prompt: bool)
      requires |server.data| > 0
      modifies server
      ensures this.server == server && this.prompt == prompt && Wired() && fresh(crc) && taken == [] && !done
      ensures Snap().Valid() && Snap().ToLine() == Start(|server.data|, old(server.ch.losses))
      ensures ahead == old(server.ch.losses)
    {
      this.server, this.prompt := server, prompt;
      crcSupported := server.crcSupported;
      crc := new CrcXmodem();
      done, pos, ackseq, error, serverCrc := false, 0, 0, false, -1;
      taken, ahead := [], server.ch.losses;
      new;
      server.ch := Chan(0, server.ch.losses, []);
      server.Acknowledge(0);
      StartsValid(Snap(), ahead);
    }

    method AckBlock()
      requires |server.data| > 0 && server.ch.base + ackseq <= Segments(|server.data|)
      modifies this`ackseq, server
      ensures ackseq == 0 && server.ch == old(server.ch).Acked(server.data, old(ackseq))
    {
      server.Acknowledge(ackseq);
      ackseq := 0;
    }

    /**
     Acknowledges what has arrived, then drops responses until the first segment of the next sub-block.
     With a prompt clock that segment is returned exactly when there is one and it is not lost.
     */
    method Retransmit() returns (r: Result<seq<byte>, Error>)
      requires |server.data| > 0 && !done && server.ch.base + ackseq <= Segments(|server.data|) && Stale(server.ch.queue)
      modifies this`ackseq, this`error, this`ahead, server
      ensures var first := First(Again(old(server.ch), server.data, old(ackseq)));
              && (r.Ok? ==> first.Some? && Holding(Snap(), r.value) && ackseq == 1 && Snap().ToLine() == first.value.Taken())
              && (prompt ==> (r.Ok? <==> first.Some?))
      ensures r.Err? ==> r.error != CrcMismatch && (prompt ==> r.error == NoResponse)
    {
      ghost var c, n: nat := server.ch, 0;
      ghost var q := c.Acked(server.data, ackseq).queue;
      ghost var b := c.base + ackseq;
      ghost var a := ackseq;
      AckBlock();
      while true
        invariant ackseq == 0 && n <= |q| && server.ch == c.Acked(server.data, a).(queue := q[n..])
        invariant forall i :: 0 <= i < n ==> |q[i]| == 8 && SeqOf(q[i]) != 1
        decreases |server.ch.queue|
      {
        var expired := false;
        if !prompt {
          expired := *;
        }
        if expired {
          error := true;
          return Err(NotRetransmitted);
        }
        if server.ch.queue == [] {
          if b < Segments(|server.data|) && !Lost(c.losses) {
            WillResync(c, server.data, a);
            Resynced(c, server.data, a, |c.queue|);
          }
          return Err(NoResponse);
        }
        Resynced(c, server.data, a, n);
        var response := server.Pop();
        n := n + 1;
        if SeqOf(response) == ackseq + 1 {
          ackseq := SeqOf(response);
          ahead := DropLosses(c.losses, 1);
          HeldFirst(c, a, Snap(), response);
          return Ok(response);
        }
      }
    }

    /**
     The first half of `read`: the next segment, by retransmission if need be.  After a timeout the
     retransmission has already counted the segment it returns, so the sequence test fails on it and
     a second retransmission acknowledges and drops it.
     */
    method Fetch() returns (r: Result<seq<byte>, Error>)
      requires Snap().Valid() && !done
      modifies this`ackseq, this`error, this`ahead, server
      ensures r.Err? || Fetched(old(Snap()), Snap(), r.value)
      ensures prompt ==> (r.Ok? <==> Reached(old(Snap().ToLine())).Some?)
      ensures r.Err? ==> r.error != CrcMismatch && Lost(old(ahead)) && (prompt ==> r.error == NoResponse)
    {
      var response: seq<byte>;
      ghost var v := Snap();
      ReadCases(v, v.ToLine(), Again(v.ch, v.data, v.ackseq));
      if server.ch.queue == [] {
        var again := Retransmit();
        if again.Err? {
          return again;
        }
        response := again.value;
        AgainIsRenewed(Snap());
      } else {
        response := server.Pop();
      }
      if SeqOf(response) == ackseq + 1 {
        ackseq := SeqOf(response);
        ahead := DropLosses(ahead, 1);
        HeldNext(v, Snap());
        return Ok(response);
      }
      r := Retransmit();
    }

    /** `_end_upload`: takes the closing response and returns how much of the last segment is filling. */
    method EndUpload(ghost end: seq<byte>) returns (n: nat)
      requires server.ch.queue == [end] && |end| == 8
      modifies this`serverCrc, server
      ensures n == Filling(end) && serverCrc == CrcField(end) && server.ch == old(server.ch).(queue := [])
    {
      var response := server.Pop();
      serverCrc := CrcField(response);
      n := Filling(response);
    }

    /** The acknowledgement, if one is due, and the data of the held segment. */
    method Accept(response: seq<byte>) returns (data: seq<byte>)
      requires Holding(Snap(), response)
      modifies this`ackseq, this`serverCrc, this`done, server
      ensures Accepted(old(Snap()), Snap(), data)
      ensures (done <==> Snap().Next() == Snap().Count()) && (done ==> serverCrc == Checksum(server.data))
    {
      ghost var v := Snap();
      HeldData(v, response);
      var last := response[0] >= NO_MORE_BLOCKS;
      if ackseq >= BLKSIZE || last {
        ghost var w := v.(ackseq := 0, ch := v.ch.Acked(v.data, v.ackseq));
        HeldAcked(v, response, w);
        if !last {
          RenewedRest(v, w);
        }
        AckBlock();
      }
      if last {
        var n := EndUpload(EndFrame(server.data));
        data := response[1..8 - n];
        done := true;
      } else {
        data := response[1..];
      }
    }

    /** The last part of `read`: the CRC, checked against the server's at the end, and the position. */
    method Deliver(data: seq<byte>, ghost j: nat) returns (ok: bool)
      requires Wired() && (done ==> serverCrc == Checksum(server.data))
      requires j < Segments(|server.data|) && data == Segment(server.data, j)
      modifies this`pos, this`taken, this`error, crc
      ensures InData(server.data, old(taken) + [j])
      ensures ok <==> (done && crcSupported ==> Checksum(Gather(server.data, old(taken) + [j])) == Checksum(server.data))
      ensures ok ==> Wired() && taken == old(taken) + [j]
      ensures !ok ==> taken == old(taken)
    {
      GatherSnoc(server.data, taken, j);
      if crcSupported {
        UpdateConcat(0, Gather(server.data, taken), data);
        crc.Process(data);
        if done && serverCrc != crc.value {
          error := true;
          return false;
        }
      }
      pos := pos + |data|;
      taken := taken + [j];
      ok := true;
    }

    /** The first part of `read`: the next segment, or that none will come. */
    method Obtain() returns (r: Result<seq<byte>, Error>, ghost j: nat)
      requires Snap().Valid() && !done
      modifies this`ackseq, this`error, this`serverCrc, this`done, this`ahead, server
      ensures r.Err? ==> r.error != CrcMismatch && Lost(old(ahead))
      ensures r.Err? && prompt ==> r.error == NoResponse && old(Snap().Rest()) == Outcome(false, [])
      ensures r.Err? || Got(old(Snap()), Snap(), r.value, j)
      ensures r.Ok? && done ==> serverCrc == Checksum(server.data)
    {
      ghost var v := Snap();
      j := 0;
      var response := Fetch();
      if response.Err? {
        return response, j;
      }
      ghost var h := Snap();
      j := h.Next() - 1;
      var data := Accept(response.value);
      HeldGot(v, h, response.value, Snap(), data, j);
      r := Ok(data);
    }

    /** One segment, number `j`, or nothing at the end of the data. */
    method Read() returns (r: Result<seq<byte>, Error>, ghost j: nat)
      requires Wired() && Snap().Valid()
      modifies this, server, crc
      ensures old(done) ==> r == Ok([]) && unchanged(this, server, crc)
      ensures r.Ok? && !old(done) ==> Wired() && taken == old(taken) + [j]
      ensures r.Err? || old(done) || Got(old(Snap()), Snap(), r.value, j)
      ensures r.Ok? && done && crcSupported && !old(done) ==> Checksum(Gather(server.data, taken)) == Checksum(server.data)
      ensures r.Err? ==> taken == old(taken)
      ensures r == Err(CrcMismatch) ==> crcSupported && WrongSum(server.data, old(Prepended(taken, Snap().Rest())), taken)
      ensures r.Err? && r.error != CrcMismatch ==>
                Lost(old(ahead)) && (prompt ==> r.error == NoResponse && old(Snap().Rest()) == Outcome(false, []))
    {
      j := 0;
      if done {
        return Ok([]), j;
      }
      ghost var v := Snap();
      r, j := Obtain();
      if r.Err? {
        return;
      }
      ghost var w := Snap();
      var ok := Deliver(r.value, j);
      assert Snap() == w;
      if !ok {
        GotGrows(v, w, r.value, j, taken, Prepended(taken, v.Rest()));
        r := Err(CrcMismatch);
      }
    }

    /** What has been returned is the beginning of `all`, what the losses make of the transfer. */
    ghost predicate Along(all: Outcome)
      reads this, server, crc
    {
      && Wired() && Snap().Valid() && Prepended(taken, Snap().Rest()) == all
      && |taken| <= |all.taken| && taken == all.taken[..|taken|] && (done ==> all == Outcome(true, taken))
    }

    /** One round of reading everything: the data returned grows, or there is nothing more to come. */
    method ReadOn(ghost all: Outcome) returns (r: Result<seq<byte>, Error>)
      requires Along(all)
      modifies this, server, crc
      ensures InData(server.data, old(taken))
      ensures old(done) ==> r == Ok([]) && unchanged(this, server, crc)
      ensures r.Err? || Along(all)
      ensures !old(done) && r.Ok? ==>
                && Snap().Next() > old(Snap().Next()) && r.value != []
                && Gather(server.data, taken) == Gather(server.data, old(taken)) + r.value
                && (done && crcSupported ==> Checksum(Gather(server.data, taken)) == Checksum(server.data))
                && (LossCount(old(ahead)) == 0 ==> LossCount(ahead) == 0)
      ensures r.Err? ==> taken == old(taken)
      ensures r == Err(CrcMismatch) ==> crcSupported && WrongSum(server.data, all, taken)
      ensures r.Err? && r.error != CrcMismatch ==>
                LossCount(old(ahead)) > 0 && (prompt ==> r.error == NoResponse && all == Outcome(false, taken))
    {
      ghost var v, before := Snap(), taken;
      NoLossesAhead(ahead);
      ghost var j: nat;
      r, j := Read();
      assert before + [] == before;
      if r.Ok? && !v.done {
        GotGrows(v, Snap(), r.value, j, before, all);
        GatherSnoc(server.data, before, j);
      }
    }

    /** Reads until nothing comes back. */
    method ReadAll(ghost all: Outcome) returns (r: Result<seq<byte>, Error>)
      requires Wired() && Snap().Valid() && Snap().Rest() == all && !done && taken == []
      modifies this, server, crc
      ensures InData(server.data, taken) && |taken| <= |all.taken| && taken == all.taken[..|taken|]
      ensures r.Ok? ==> all == Outcome(true, taken) && r.value == Gather(server.data, taken)
      ensures r.Ok? && crcSupported ==> Checksum(r.value) == Checksum(server.data)
      ensures r == Err(CrcMismatch) ==> crcSupported && WrongSum(server.data, all, taken)
      ensures r.Err? && r.error != CrcMismatch && prompt ==> r.error == NoResponse && all == Outcome(false, taken)
      ensures LossCount(old(ahead)) == 0 ==> r.Ok? || r.error == CrcMismatch
    {
      var res: seq<byte> := [];
      assert [] + all.taken == all.taken;
      while true
        invariant Along(all) && res == Gather(server.data, taken)
        invariant done && crcSupported ==> Checksum(res) == Checksum(server.data)
        invariant LossCount(old(ahead)) == 0 ==> LossCount(ahead) == 0
        decreases Segments(|server.data|) - Snap().Next(), if done then 0 else 1
      {
        var data := ReadOn(all);
        if data.Err? {
          return data;
        }
        if data.value == [] {
          break;
        }
        res := res + data.value;
      }
      return Ok(res);
    }
  }

  lemma {:induction false} LosslessNoticesAll(l: Line)
    requires l.Valid()
    ensures LossCount(l.losses) == 0 ==> Fate(l).complete && GapsNoticed(l)
  {
    if LossCount(l.losses) == 0 {
      LosslessTakesAll(l);
      TakesAll(l);
    }
  }

  lemma {:induction false} NoLossesAhead(losses: seq<bool>)
    ensures LossCount(losses) == 0 ==> !Lost(losses) && LossCount(DropLosses(losses, 1)) == 0
  {
    if LossCount(losses) == 0 {
      NoLossesLeft(losses, 1);
    }
  }

  /** A transfer that ends with a CRC mismatch would have returned other data. */
  lemma {:induction false} WrongSumIsWrong(data: seq<byte>, losses: seq<bool>, taken: seq<nat>)
    requires |data| > 0 && WrongSum(data, Fate(Start(|data|, losses)), taken)
    ensures var l := Start(|data|, losses);
            Checksum(Returned(data, losses, |Fate(l).taken|)) != Checksum(data) && !GapsNoticed(l)
  {
    var all := Fate(Start(|data|, losses)).taken;
    assert all[..|all|] == all;
    CompleteIsAll(data, losses);
  }

  /**
   A whole block upload: read until nothing comes back.  `taken` are the numbers of the segments that
   were returned.  They follow the outcome the losses determine, and stop early only when a retransmission
   runs out of time; so with a prompt clock the outcome says exactly what is returned and how it ends.
   */
  method Upload(server: UploadServer, prompt: bool) returns (r: Result<seq<byte>, Error>, ghost taken: seq<nat>)
    requires |server.data| > 0
    modifies server
    ensures var fate := Fate(Start(|server.data|, old(server.ch.losses)));
            var all := Returned(server.data, old(server.ch.losses), |fate.taken|);
            && |taken| <= |fate.taken| && taken == fate.taken[..|taken|]
            && (r.Ok? ==> fate.complete && taken == fate.taken && r.value == all)
            && (prompt ==> (r.Ok? <==> fate.complete && (server.crcSupported ==> Checksum(all) == Checksum(server.data))))
            && (prompt ==> (r == Err(NoResponse) <==> !fate.complete) && (!fate.complete ==> taken == fate.taken))
            && (server.crcSupported && r.Ok? ==> Checksum(all) == Checksum(server.data))
            && (r == Err(CrcMismatch) ==> fate.complete && server.crcSupported && Checksum(all) != Checksum(server.data))
    ensures r.Ok? ==> (r.value == server.data <==> GapsNoticed(Start(|server.data|, old(server.ch.losses))))
    ensures LossCount(old(server.ch.losses)) == 0 ==> r == Ok(server.data)
  {
    ghost var losses := server.ch.losses;
    ghost var l := Start(|server.data|, losses);
    LosslessNoticesAll(l);
    var stream := new BlockUploadStream(server, prompt);
    r := stream.ReadAll(Fate(l));
    taken := stream.taken;
    assert r.Ok? ==> taken[..|taken|] == taken;
    if r.Ok? {
      CompleteIsAll(server.data, losses);
    } else if r.error == CrcMismatch {
      WrongSumIsWrong(server.data, losses, taken);
    }
  }
}

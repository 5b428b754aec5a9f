/**
 Block download (`BlockDownloadStream`) against a receiver that accepts segments in order and
 acknowledges the last good one, over a channel that may lose any finite set of segments.
 */
module BlockDownload {
  import opened Common
  import opened Crc
  import opened Blocks

  const REQUEST_BLOCK_DOWNLOAD := 0xC0
  const END_BLOCK_TRANSFER := 0x01

  // ----- the protocol as a machine on counts

  predicate ValidSizes(sizes: seq<nat>) {
    forall k :: 0 <= k < |sizes| ==> 1 <= sizes[k] <= 127
  }

  /**
   How far a transfer is: `toSend` segments are still to be sent, `sent` were sent in the current
   sub-block and the first `good` of those arrived in order; `resend` of the segments to send have
   been sent before, and `clean` says that no acknowledgement came up short while `resend > 0`.
   The channel loses the k-th next segment when `losses[k]`; `sizes` are the receiver's next choices
   of block size, 127 once they run out.
   */
  datatype Link = Link(toSend: nat, sent: nat, good: nat, resend: nat, clean: bool, blksize: nat,
                       losses: seq<bool>, sizes: seq<nat>) {
    predicate Valid() {
      1 <= blksize <= 127 && good <= sent <= blksize && ValidSizes(sizes)
    }

    /** Send one segment. */
    function Advance(): (l: Link)
      requires Valid() && toSend > 0 && sent < blksize
      ensures l.Valid()
    {
      var lost := Lost(losses);
      Link(toSend - 1, sent + 1, if !lost && good == sent then good + 1 else good, if resend > 0 then resend - 1 else 0,
           clean, blksize, DropLosses(losses, 1), sizes)
    }

    /** The acknowledgement at the end of a sub-block: go back to the first segment that is missing. */
    function Acked(): (l: Link)
      requires Valid()
      ensures l.Valid()
    {
      var missing := sent - good;
      Link(toSend + missing, 0, 0, if missing > 0 then missing else resend, clean && (missing > 0 ==> resend == 0),
           NextSize(sizes), losses, RestOf(sizes))
    }
  }

  function NextSize(sizes: seq<nat>): nat {
    if sizes == [] then 127 else sizes[0]
  }

  function RestOf(sizes: seq<nat>): seq<nat> {
    if sizes == [] then [] else sizes[1..]
  }

  /** `delivered`: the last sub-block arrived whole; `crcOnce`: the CRC covers each segment once. */
  datatype Outcome = Outcome(delivered: bool, crcOnce: bool)

  /** What becomes of a transfer: everything hangs on the losses in its last sub-block. */
  function Fate(l: Link): Outcome
    requires l.Valid()
    decreases LossCount(l.losses) + (if l.good < l.sent then 1 else 0), l.toSend, l.sent
  {
    if l.toSend == 0 then Outcome(l.good == l.sent, l.clean)
    else if l.sent == l.blksize then Fate(l.Acked())
    else Fate(l.Advance())
  }

  /** `m` segments of one sub-block at once. */
  function AfterMany(l: Link, m: nat): Link
    requires m <= l.toSend
  {
    Link(l.toSend - m, l.sent + m, if l.good == l.sent then l.good + Lead(l.losses, m) else l.good,
         if l.resend > m then l.resend - m else 0, l.clean, l.blksize, DropLosses(l.losses, m), l.sizes)
  }

  lemma {:induction false} AfterManyStep(l: Link, m: nat)
    requires l.Valid() && 0 < m <= l.toSend && l.sent + m <= l.blksize
    ensures AfterMany(l.Advance(), m - 1) == AfterMany(l, m)
  {
    assert DropLosses(l.Advance().losses, m - 1) == DropLosses(l.losses, m);
  }

  lemma {:induction false} FateStep(l: Link)
    requires l.Valid() && l.toSend > 0
    ensures Fate(l) == Fate(if l.sent == l.blksize then l.Acked() else l.Advance())
  {
  }

  lemma {:induction false} AfterManyFate(l: Link, m: nat)
    requires l.Valid() && m <= l.toSend && l.sent + m <= l.blksize
    ensures AfterMany(l, m).Valid() && Fate(l) == Fate(AfterMany(l, m))
    decreases m
  {
    if m == 0 {
      assert AfterMany(l, 0) == l;
    } else {
      AfterManyStep(l, m);
      FateStep(l);
      AfterManyFate(l.Advance(), m - 1);
    }
  }

  /** The start of the next sub-block. */
  function NextBlock(l: Link): Link
    requires l.Valid() && l.sent == l.good == 0 && l.blksize < l.toSend
  {
    var lead, left := Lead(l.losses, l.blksize), if l.resend > l.blksize then l.resend - l.blksize else 0;
    Link(l.toSend - lead, 0, 0, if lead < l.blksize then l.blksize - lead else left,
         l.clean && (lead < l.blksize ==> left == 0), NextSize(l.sizes), DropLosses(l.losses, l.blksize), RestOf(l.sizes))
  }

  /**
   What a sub-block does to a transfer.  One that holds all remaining segments delivers exactly when
   none of them is lost; any other continues behind the segments that arrived before the first loss.
   */
  lemma {:induction false} SubBlock(l: Link)
    requires l.Valid() && l.sent == l.good == 0 && l.toSend > 0
    ensures l.toSend <= l.blksize ==> Fate(l) == Outcome(Lead(l.losses, l.toSend) == l.toSend, l.clean)
    ensures l.blksize < l.toSend ==> NextBlock(l).Valid() && Fate(l) == Fate(NextBlock(l))
  {
    AfterManyFate(l, Min(l.toSend, l.blksize));
    if l.blksize < l.toSend {
      var w := AfterMany(l, l.blksize);
      FateStep(w);
      assert w.Acked() == NextBlock(l);
    }
  }

  /** Once no more losses are to come every transfer delivers, whatever block sizes the receiver chooses. */
  lemma {:induction false} LosslessDelivers(l: Link)
    requires l.Valid() && l.good == l.sent && LossCount(l.losses) == 0
    ensures Fate(l) == Outcome(true, l.clean)
    decreases l.toSend, l.sent
  {
    if l.toSend > 0 {
      FateStep(l);
      LosslessDelivers(if l.sent == l.blksize then l.Acked() else l.Advance());
    }
  }

  /**
   Losses are harmless as long as they end 127 segments before the end of the payload: they cannot reach
   the last sub-block, whatever they are and whatever block sizes the receiver chooses.
   */
  lemma {:induction false} EarlyLossesAreHarmless(l: Link)
    requires l.Valid() && l.sent == l.good == 0 && l.toSend > 0
    requires l.losses == [] || |l.losses| + 127 <= l.toSend
    ensures Fate(l).delivered
    decreases |l.losses|
  {
    if l.losses == [] {
      LosslessDelivers(l);
    } else {
      SubBlock(l);
      EarlyLossesAreHarmless(NextBlock(l));
    }
  }

  lemma {:induction false} NeverCleanAgain(l: Link)
    requires l.Valid() && !l.clean
    ensures !Fate(l).crcOnce
    decreases LossCount(l.losses) + (if l.good < l.sent then 1 else 0), l.toSend, l.sent
  {
    if l.toSend > 0 {
      FateStep(l);
      NeverCleanAgain(if l.sent == l.blksize then l.Acked() else l.Advance());
    }
  }

  /** All losses in one sub-block, whatever they are: data and CRC are right, unless it is the last one. */
  lemma {:induction false} LossesInOneSubBlockAreHarmless(l: Link)
    requires l.Valid() && l.sent == l.good == 0 && l.blksize < l.toSend && l.clean && l.resend == 0
    requires LossCount(DropLosses(l.losses, l.blksize)) == 0
    ensures Fate(l) == Outcome(true, true)
  {
    SubBlock(l);
    LosslessDelivers(NextBlock(l));
  }

  /**
   A sub-block comes up short, and the retransmission of its segments comes up short in its first
   sub-block while it has segments left.  If nothing else is lost the data is delivered, but the CRC
   has counted some of it twice.
   */
  lemma {:induction false} InterruptedRetransmissionSpoilsCrc(l: Link)
    requires l.Valid() && l.sent == l.good == 0 && l.blksize < l.toSend && Lead(l.losses, l.blksize) < l.blksize
    requires var m := NextBlock(l);
             && m.Valid() && m.blksize < m.resend && m.blksize < m.toSend && Lead(m.losses, m.blksize) < m.blksize
             && LossCount(DropLosses(m.losses, m.blksize)) == 0
    ensures Fate(l) == Outcome(true, false)
  {
    SubBlock(l);
    SubBlock(NextBlock(l));
    LosslessDelivers(NextBlock(NextBlock(l)));
  }

  /** The last segment lost is fatal, however long the payload is. */
  lemma {:induction false} LossInLastSubBlockIsFatal(l: Link)
    requires l.Valid() && l.sent == l.good == 0 && 0 < l.toSend <= l.blksize
    requires exists k :: 0 <= k < |l.losses| && k < l.toSend && l.losses[k]
    ensures !Fate(l).delivered
  {
    SubBlock(l);
    var k :| 0 <= k < |l.losses| && k < l.toSend && l.losses[k];
    LeadStops(l.losses, l.toSend, k);
  }

  lemma {:induction false} LeadStops(losses: seq<bool>, n: nat, k: nat)
    requires k < |losses| && k < n && losses[k]
    ensures Lead(losses, n) <= k
  {
    if k > 0 && !losses[0] {
      LeadStops(losses[1..], n - 1, k - 1);
    }
  }

  /** The end of the transfer: how many bytes of the last segment are filling, and the CRC. */
  function EndFrame(lastBytes: nat, crc: word): (frame: seq<byte>)
    requires lastBytes <= 7
    ensures |frame| == 8 && Filling(frame) == 7 - lastBytes && CrcField(frame) == crc
    ensures frame[0] / 0x20 == 6 && frame[0] % 0x04 == 1 && frame[0] == 0xDD - lastBytes * 4
    ensures frame[1] == crc % 0x100 && frame[2] == crc / 0x100 && frame[3..] == [0, 0, 0, 0, 0]
  {
    [REQUEST_BLOCK_DOWNLOAD + END_BLOCK_TRANSFER + (7 - lastBytes) * 4, crc % 256, crc / 256] + Zeros(5)
  }

  // ----- the receiver

  /**
   The receiving end of the channel: the data accepted so far, the last sequence number accepted in
   the current sub-block, the block size announced for it, how many frames of it have gone over the
   channel and whether one of them was marked as the last, the losses to come and the block sizes
   still to be chosen.
   */
  datatype Rx = Rx(received: seq<byte>, ackseq: nat, announced: nat, passed: nat, ended: bool,
                   losses: seq<bool>, sizes: seq<nat>) {
    /** The sub-block is still open: the receiver waits for segments. */
    predicate Listening() {
      passed < announced && !ended
    }

    /** The sub-block is over: now, and only now, the receiver answers. */
    predicate Answers() {
      passed == announced || ended
    }

    /** A segment frame reaches the channel: it is lost, or accepted in order, or ignored. */
    function After(frame: seq<byte>): Rx
      requires |frame| == 8
    {
      var accepted := !Lost(losses) && frame[0] % 0x80 == ackseq + 1;
      Rx(if accepted then received + frame[1..] else received, if accepted then ackseq + 1 else ackseq,
         announced, passed + 1, ended || frame[0] >= 0x80, DropLosses(losses, 1), sizes)
    }

    /** The sub-block has been acknowledged, and the size of the next one announced. */
    function Reset(): Rx {
      Rx(received, 0, NextSize(sizes), 0, false, losses, RestOf(sizes))
    }
  }

  class Receiver {
    const crcSupported: bool
    var rx: Rx
    var stored: Option<seq<byte>>

    constructor (losses: seq<bool>, sizes: seq<nat>, crcSupported: bool)
      ensures rx == Rx([], 0, 0, 0, false, losses, sizes) && this.crcSupported == crcSupported
    {
      this.crcSupported := crcSupported;
      rx, stored := Rx([], 0, 0, 0, false, losses, sizes), None;
    }

    method Initiate() returns (blksize: nat)
      modifies this
      ensures blksize == NextSize(old(rx.sizes)) && stored == None
      ensures rx == Rx([], 0, blksize, 0, false, old(rx.losses), RestOf(old(rx.sizes)))
    {
      blksize := NextSize(rx.sizes);
      rx, stored := Rx([], 0, blksize, 0, false, rx.losses, RestOf(rx.sizes)), None;
    }

    method Receive(frame: seq<byte>)
      requires |frame| == 8 && rx.Listening()
      modifies this`rx
      ensures rx == old(rx).After(frame)
    {
      var lost := Lost(rx.losses);
      rx := rx.(losses := DropLosses(rx.losses, 1), passed := rx.passed + 1, ended := frame[0] >= 0x80);
      if !lost && frame[0] % 0x80 == rx.ackseq + 1 {
        rx := rx.(received := rx.received + frame[1..], ackseq := frame[0] % 0x80);
      }
    }

    /**
     The block download response: how far the sub-block arrived, and the next block size.  There is one
     only after as many segments as were announced, or the last segment of all.
     */
    method Acknowledge() returns (ack: nat, blksize: nat)
      requires rx.Answers()
      modifies this`rx
      ensures ack == old(rx.ackseq) && blksize == NextSize(old(rx.sizes)) && rx == old(rx).Reset()
    {
      ack, blksize := rx.ackseq, NextSize(rx.sizes);
      rx := Rx(rx.received, 0, blksize, 0, false, rx.losses, RestOf(rx.sizes));
    }

    /** The end of the transfer: an end request (command 6, subcommand 1) that fits the data is stored. */
    method End(frame: seq<byte>) returns (ok: bool)
      requires |frame| == 8
      modifies this`stored
      ensures var n := Filling(frame);
              ok <==> frame[0] / 0x20 == 6 && frame[0] % 0x04 == 1 && n <= |rx.received|
                      && CrcField(frame) == if crcSupported then Checksum(rx.received[..|rx.received| - n]) else 0
      ensures stored == if ok then Some(rx.received[..|rx.received| - Filling(frame)]) else old(stored)
    {
      var n := Filling(frame);
      ok := frame[0] / 0x20 == 6 && frame[0] % 0x04 == 1 && n <= |rx.received|
            && CrcField(frame) == if crcSupported then Checksum(rx.received[..|rx.received| - n]) else 0;
      if ok {
        stored := Some(rx.received[..|rx.received| - n]);
      }
    }
  }

  // ----- the sender

  datatype Error = AllDataSent | Aborted

  /**
   The bookkeeping of the proof: `base` segments are acknowledged, `reached` have been sent at least
   once, `resend` are left of the block being retransmitted, `clean` says that no retransmission has
   been interrupted by another while it had segments left, and `crcInput` is what the CRC was computed
   over.
   */
  datatype Book = Book(base: nat, reached: nat, resend: nat, clean: bool, crcInput: seq<byte>)

  /** Everything a transfer depends on: the fields of the stream and of the receiver, and the book. */
  datatype View = View(
    payload: seq<byte>, crc: bool, pos: int, done: bool, seqno: nat, blksize: nat, lastBytesSent: nat,
    currentBlock: seq<seq<byte>>, retransmitting: bool, book: Book, rx: Rx)
  {
    ghost function Count(): nat {
      Segments(|payload|)
    }

    ghost function At(): nat {
      book.base + seqno
    }

    ghost function ToLink(): Link
      requires At() <= Count()
    {
      Link(Count() - At(), seqno, rx.ackseq, book.resend, book.clean, blksize, rx.losses, rx.sizes)
    }

    /** Bytes the CRC covered beyond one pass over the segments sent so far. */
    ghost function Excess(): int {
      |book.crcInput| - Min(7 * book.reached, |payload|)
    }

    /** Losses the transfer can still be made to wait for. */
    ghost function Debt(): nat {
      LossCount(rx.losses) + if rx.ackseq < seqno then 1 else 0
    }

    /** The acknowledged data followed by `currentBlock` is the first `pos` bytes of the payload. */
    ghost predicate Positioned() {
      && |payload| > 0 && At() <= book.reached <= Count()
      && pos == Min(7 * At(), |payload|)
      && |currentBlock| == seqno && BlockFrom(payload, book.base, currentBlock)
      && (done <==> At() == Count()) && (done <==> book.reached == Count())
      && (done ==> lastBytesSent == |Segment(payload, Count() - 1)|)
    }

    /** What the CRC has seen. */
    ghost predicate Summed() {
      && (crc ==> Excess() >= 0)
      && (book.clean ==> At() + book.resend == book.reached)
      && (book.clean && crc && book.reached <= Count() ==> book.crcInput == Joined(payload, book.reached))
    }

    /** Both ends agree on the size of the sub-block and on how much of it has been sent. */
    ghost predicate InStep() {
      rx.passed == seqno && (rx.ended <==> done && seqno > 0) && (!done ==> rx.announced == blksize)
    }

    /** The state between sending a segment and reacting to its acknowledgement. */
    ghost predicate Core() {
      && Positioned() && Summed() && InStep() && ValidSizes(rx.sizes) && rx.ackseq <= seqno <= blksize <= 127 && 1 <= blksize
      && rx.received == Chunks(payload, book.base + rx.ackseq)
    }

    /** The state between two calls of `write`. */
    ghost predicate Valid() {
      Core() && if done then seqno == 0 else seqno < blksize
    }

    /** `_retransmitting` is set while there are segments left to book.resend. */
    ghost predicate Flagged() {
      (retransmitting ==> At() < book.reached) && (book.clean ==> (retransmitting <==> book.resend > 0))
    }

    /** After the frame of the next segment has gone out and left the receiver in state `r`. */
    ghost function Emitted(r: Rx): View
      requires At() < Count()
    {
      var end := At() + 1 == Count();
      this.(seqno := seqno + 1, done := end, blksize := if end then seqno + 1 else blksize,
            lastBytesSent := if end then |Segment(payload, At())| else lastBytesSent, rx := r)
    }

    ghost function NextRx(): Rx
      requires At() < Count() && seqno < 127
    {
      rx.After(SegmentFrame(seqno + 1, Segment(payload, At()), At() + 1 == Count()))
    }

    /** After the stream has taken note of the data `b` of that frame. */
    ghost function Recorded(b: seq<byte>): View {
      this.(pos := pos + |b|, currentBlock := currentBlock + [b],
            book := book.(reached := if At() > book.reached then At() else book.reached,
                          resend := if book.resend > 0 then book.resend - 1 else 0,
                          crcInput := if crc && !retransmitting then book.crcInput + b else book.crcInput))
    }

    ghost function SentWith(r: Rx): View
      requires At() < Count()
    {
      Emitted(r).Recorded(Segment(payload, At()))
    }

    ghost function Sent(): View
      requires At() < Count() && seqno < 127
    {
      SentWith(NextRx())
    }

    /** After the whole sub-block has been acknowledged. */
    ghost function Cleared(): View {
      this.(currentBlock := [], book := book.(base := At()), seqno := 0, blksize := NextSize(rx.sizes), rx := rx.Reset())
    }

    /** Back at the first segment the acknowledgement left out. */
    ghost function CutBack(): View
      requires rx.ackseq <= seqno
    {
      this.(currentBlock := [], seqno := 0, pos := pos - 7 * (seqno - rx.ackseq),
            blksize := NextSize(rx.sizes), rx := rx.Reset(),
            retransmitting := true,
            book := book.(base := book.base + rx.ackseq, clean := book.clean && book.resend == 0, resend := seqno - rx.ackseq))
    }
  }

  /** `n` segments further than before, for the same fate. */
  ghost predicate Moved(v: View, w: View, n: nat) {
    && v.Core() && w.Valid() && w.payload == v.payload && w.crc == v.crc
    && Fate(w.ToLink()) == Fate(v.ToLink()) && w.Debt() <= v.Debt()
    && w.At() == v.At() + n && w.book.reached >= v.book.reached
    && (w.book.clean ==> v.book.clean && w.book.resend == if v.book.resend > n then v.book.resend - n else 0)
    && (w.book.clean && w.book.resend > 0 ==> w.retransmitting)
    && (!v.retransmitting ==> !w.retransmitting)
    && (v.crc ==> w.Excess() >= v.Excess())
    && (v.crc && v.book.clean && !w.book.clean ==> w.Excess() >= 7 || (v.book.resend > n && !w.retransmitting))
    && (n == 1 && v.crc && !v.retransmitting && v.At() < v.book.reached ==> w.Excess() >= v.Excess() + 7)
  }

  /** The part of `Moved` that sending alone establishes; the sub-block may now be full. */
  ghost predicate Pushed(v: View, w: View) {
    && v.Core() && w.Core() && w.payload == v.payload && w.crc == v.crc
    && Fate(w.ToLink()) == Fate(v.ToLink()) && w.Debt() <= v.Debt()
    && w.At() == v.At() + 1 && w.book.reached >= v.book.reached && (w.done ==> w.seqno == w.blksize)
    && w.book.clean == v.book.clean && w.retransmitting == v.retransmitting
    && w.book.resend == (if v.book.resend > 0 then v.book.resend - 1 else 0)
    && (v.crc ==> w.Excess() >= v.Excess())
    && (v.crc && !v.retransmitting && v.At() < v.book.reached ==> w.Excess() >= v.Excess() + 7)
  }

  lemma {:induction false} SegmentLength(payload: seq<byte>, j: nat)
    requires j < Segments(|payload|)
    ensures |Segment(payload, j)| == Min(7, |payload| - 7 * j) > 0
    ensures j + 1 < Segments(|payload|) ==> |Segment(payload, j)| == 7
  {
  }

  /** `block` holds the segments from `base` on. */
  ghost predicate BlockFrom(payload: seq<byte>, base: nat, block: seq<seq<byte>>) {
    base + |block| <= Segments(|payload|) && forall i :: 0 <= i < |block| ==> block[i] == Segment(payload, base + i)
  }

  lemma {:induction false} BlockGrows(payload: seq<byte>, base: nat, block: seq<seq<byte>>)
    requires BlockFrom(payload, base, block) && base + |block| < Segments(|payload|)
    ensures BlockFrom(payload, base, block + [Segment(payload, base + |block|)])
  {
  }

  lemma {:induction false} SentPositioned(v: View, r: Rx)
    requires v.Valid() && !v.done
    ensures v.SentWith(r).Positioned()
  {
    SegmentLength(v.payload, v.At());
    BlockGrows(v.payload, v.book.base, v.currentBlock);
  }

  lemma {:induction false} SentReceived(v: View)
    requires v.Valid() && !v.done
    ensures var w := v.Sent();
            w.rx.ackseq <= w.seqno <= 127 && w.book.base == v.book.base && w.rx.sizes == v.rx.sizes
            && w.At() <= w.Count() && w.rx.received == Chunks(w.payload, w.book.base + w.rx.ackseq)
  {
    var b, end := Segment(v.payload, v.At()), v.At() + 1 == v.Count();
    assert SegmentFrame(v.seqno + 1, b, end)[1..] == Chunk(v.payload, v.At());
  }

  lemma {:induction false} SentSummed(v: View, r: Rx)
    requires v.Valid() && v.Flagged() && !v.done
    ensures v.SentWith(r).Summed()
    ensures v.crc ==> v.SentWith(r).Excess() >= v.Excess()
    ensures v.crc && !v.retransmitting && v.At() < v.book.reached ==> v.SentWith(r).Excess() >= v.Excess() + 7
  {
    SegmentLength(v.payload, v.At());
  }

  lemma {:induction false} SentLink(v: View)
    requires v.Valid() && !v.done
    ensures v.Sent().At() <= v.Sent().Count() && v.Sent().ToLink().Valid() && v.ToLink().Valid()
    ensures Fate(v.Sent().ToLink()) == Fate(v.ToLink())
    ensures v.Sent().Debt() <= v.Debt()
  {
    var l := v.ToLink();
    assert Fate(l) == Fate(l.Advance());
    if v.At() + 1 == v.Count() {
      assert l.Advance().toSend == 0;
    } else {
      assert v.Sent().ToLink() == l.Advance();
    }
  }

  lemma {:induction false} SentScalars(v: View, r: Rx)
    requires v.Valid() && !v.done
    ensures var w := v.SentWith(r);
            && w.payload == v.payload && w.crc == v.crc && w.rx == r && 1 <= w.seqno <= w.blksize <= 127
            && w.At() == v.At() + 1 && w.book.reached >= v.book.reached && (w.done ==> w.seqno == w.blksize)
            && w.book.clean == v.book.clean && w.retransmitting == v.retransmitting
            && w.book.resend == (if v.book.resend > 0 then v.book.resend - 1 else 0)
  {
  }

  lemma {:induction false} SentCore(v: View)
    requires v.Valid() && v.Flagged() && !v.done
    ensures v.Sent().Core()
  {
    SentScalars(v, v.NextRx());
    SentPositioned(v, v.NextRx());
    SentReceived(v);
    SentSummed(v, v.NextRx());
  }

  lemma {:induction false} SentPushed(v: View, e: View, w: View)
    requires v.Valid() && v.Flagged() && !v.done
    requires e == v.Emitted(v.NextRx()) && w == e.Recorded(Segment(v.payload, v.At()))
    ensures Pushed(v, w)
  {
    assert w == v.Sent();
    SentCore(v);
    SentScalars(v, v.NextRx());
    SentSummed(v, v.NextRx());
    SentLink(v);
  }

  /** A sub-block acknowledged in full. */
  lemma {:induction false} ClearedMoved(v: View)
    requires v.Core() && v.seqno == v.blksize && v.rx.ackseq == v.seqno
    requires v.book.clean && v.book.resend > 0 ==> v.retransmitting
    ensures Moved(v, v.Cleared(), 0)
  {
    assert v.Cleared().Valid();
    var l := v.ToLink();
    if l.toSend > 0 {
      assert Fate(l) == Fate(l.Acked());
      assert v.Cleared().ToLink() == l.Acked();
    }
  }

  /** A sub-block cut back to its first gap, with data left to send. */
  lemma {:induction false} CutBackValid(v: View)
    requires v.Core() && v.seqno == v.blksize && v.rx.ackseq < v.seqno && !v.done
    ensures var w := v.CutBack();
            && w.Valid() && w.Flagged() && Fate(w.ToLink()) == Fate(v.ToLink())
            && w.Debt() == LossCount(v.rx.losses) && w.Excess() == v.Excess()
  {
    var w := v.CutBack();
    var l := v.ToLink();
    assert Fate(l) == Fate(l.Acked());
    assert w.ToLink() == l.Acked();
  }

  /** `i` segments into the retransmission that started at `v.CutBack()`. */
  ghost predicate Resending(v: View, x: View, i: nat)
    requires v.Core() && v.rx.ackseq <= v.seqno
  {
    && x.Valid() && x.payload == v.payload && x.crc == v.crc && Fate(x.ToLink()) == Fate(v.ToLink())
    && x.At() == v.book.base + v.rx.ackseq + i && x.book.reached >= v.book.reached
    && x.Debt() <= LossCount(v.rx.losses)
    && (x.book.clean ==> v.book.clean && v.book.resend == 0 && x.book.resend == v.seqno - v.rx.ackseq - i)
    && (x.book.clean && x.book.resend > 0 ==> x.retransmitting)
    && (v.crc ==> x.Excess() >= v.Excess())
    && (v.crc && v.book.clean && v.book.resend == 0 && !x.book.clean ==>
          x.Excess() >= 7 || (i < v.seqno - v.rx.ackseq && !x.retransmitting))
  }

  /** A short last sub-block is fatal; any other is sent again from its first gap. */
  lemma {:induction false} Rewound(v: View, x: View)
    requires v.Core() && v.seqno == v.blksize && v.rx.ackseq < v.seqno && x == v.CutBack()
    ensures x.done == v.done && x.Debt() == LossCount(v.rx.losses)
    ensures v.done ==> !Fate(v.ToLink()).delivered
    ensures v.done || Resending(v, x, 0)
  {
    if !v.done {
      CutBackValid(v);
    }
  }

  /** The next segment to book.resend is the data that comes next, and is not the last one. */
  lemma {:induction false} ResendingOffers(v: View, x: View, i: nat)
    requires v.Core() && v.rx.ackseq < v.seqno && !v.done && Resending(v, x, i) && v.rx.ackseq + i < v.seqno
    ensures var b := v.currentBlock[v.rx.ackseq + i];
            !x.done && x.Flagged() && |b| == 7 && x.pos + 7 < |x.payload| && b == x.payload[x.pos..x.pos + 7]
  {
    SegmentLength(v.payload, x.At());
  }

  lemma {:induction false} ResendingAdvances(v: View, x: View, y: View, i: nat)
    requires v.Core() && v.rx.ackseq < v.seqno && !v.done && Resending(v, x, i) && v.rx.ackseq + i < v.seqno
    requires Moved(x, y, 1)
    ensures Resending(v, y, i + 1)
  {
    ResendingOffers(v, x, i);
  }

  lemma {:induction false} ResendingEnds(v: View, x: View)
    requires v.Core() && v.rx.ackseq < v.seqno && !v.done && Resending(v, x, v.seqno - v.rx.ackseq)
    requires v.book.clean && v.book.resend > 0 ==> v.retransmitting
    ensures Moved(v, x.(retransmitting := false), 0)
  {
    var w := x.(retransmitting := false);
    assert w.ToLink() == x.ToLink();
    assert w.Valid();
  }

  lemma {:induction false} SentThenAcknowledged(v: View, w: View, x: View)
    requires Pushed(v, w) && Moved(w, x, 0)
    ensures Moved(v, x, 1)
  {
  }

  lemma {:induction false} OfferedSegment(v: View, b: seq<byte>)
    requires v.Valid() && !v.done
    requires v.pos + |b| <= |v.payload| && b == v.payload[v.pos..v.pos + |b|]
    ensures v.pos + Min(7, |b|) >= |v.payload| || |b| >= 7 ==> b[..Min(7, |b|)] == Segment(v.payload, v.At())
    ensures v.pos + Min(7, |b|) >= |v.payload| ==> v.At() + 1 == v.Count()
    ensures v.pos + Min(7, |b|) < |v.payload| && |b| >= 7 ==> v.At() + 1 < v.Count()
  {
  }

  /** Where a download of `n` bytes starts. */
  function Start(n: nat, losses: seq<bool>, sizes: seq<nat>): Link {
    Link(Segments(n), 0, 0, 0, true, NextSize(sizes), losses, RestOf(sizes))
  }

  /** Between two writes of the caller nothing is being retransmitted. */
  ghost predicate AtRest(v: View) {
    v.Valid() && !v.retransmitting && (v.book.clean ==> v.book.resend == 0) && (v.crc && !v.book.clean ==> v.Excess() >= 7)
  }

  lemma {:induction false} RestsAgain(v: View, w: View)
    requires AtRest(v) && Moved(v, w, 1)
    ensures AtRest(w)
  {
  }

  class BlockDownloadStream {
    const receiver: Receiver
    const crc: CrcXmodem
    const size: nat
    const crcSupported: bool
    var pos: int
    var done: bool
    var seqno: nat
    var blksize: nat
    var lastBytesSent: nat
    var currentBlock: seq<seq<byte>>
    var retransmitting: bool

    ghost const payload: seq<byte>
    ghost var book: Book

    ghost function Snap(): View
      reads this, receiver
    {
      View(payload, crcSupported, pos, done, seqno, blksize, lastBytesSent, currentBlock, retransmitting,
           book, receiver.rx)
    }

    /** The CRC object has processed exactly `book.crcInput`. */
    ghost predicate Wired()
      reads this, crc
    {
      size == |payload| && crcSupported == receiver.crcSupported && crc.value == Checksum(book.crcInput)
    }

    constructor (receiver: Receiver, ghost payload: seq<byte>, size: nat)
      requires size == |payload| > 0 && ValidSizes(receiver.rx.sizes)
      modifies receiver
      ensures Wired() && Snap().Valid() && Snap().Flagged() && fresh(crc)
      ensures this.receiver == receiver && this.payload == payload && this.size == size && receiver.stored == None
      ensures pos == 0 && !done && !retransmitting
      ensures Snap().ToLink() == Link(Segments(size), 0, 0, 0, true, NextSize(old(receiver.rx.sizes)),
                                      old(receiver.rx.losses), RestOf(old(receiver.rx.sizes)))
    {
      this.receiver, this.size, this.payload := receiver, size, payload;
      crcSupported := receiver.crcSupported;
      crc := new CrcXmodem();
      pos, done, seqno, lastBytesSent, currentBlock, retransmitting := 0, false, 0, 0, [], false;
      book := Book(0, 0, 0, true, []);
      new;
      blksize := this.receiver.Initiate();
    }

    /** Offered data that comes next in the payload, sends up to seven bytes of it; `None` asks for more. */
    method Write(b: seq<byte>) returns (r: Result<Option<nat>, Error>)
      requires Wired()
      requires !done ==> Snap().Valid() && Snap().Flagged() && pos + |b| <= size && b == payload[pos..pos + |b|]
      modifies this, receiver, crc
      ensures old(done) ==> r == Err(AllDataSent)
      ensures !old(done) && r.Err? ==> r.error == AllDataSent && !old(Fate(Snap().ToLink())).delivered
      ensures receiver.stored == old(receiver.stored) && (r.Ok? ==> Wired())
      ensures !old(done) && r.Ok? ==> (r.value == None <==> |b| < 7 && old(pos) + |b| < size)
      ensures r == Ok(None) ==> unchanged(this, receiver, crc)
      ensures !old(done) && r.Ok? && r.value.Some? ==> r.value.value == Min(7, |b|)
      ensures old(done) || r.Err? || r.value == None || Moved(old(Snap()), Snap(), 1)
      decreases Snap().Debt(), 4
    {
      if done {
        return Err(AllDataSent);
      }
      OfferedSegment(Snap(), b);
      var data := b[..Min(7, |b|)];
      var ok: bool;
      if pos + |data| >= size {
        ok := Send(data, true);
      } else if |data| < 7 {
        return Ok(None);
      } else {
        ok := Send(data, false);
      }
      if !ok {
        return Err(AllDataSent);
      }
      return Ok(Some(|data|));
    }

    /** Sends one segment; `ok` is false when the reaction to its acknowledgement raised. */
    method Send(b: seq<byte>, end: bool) returns (ok: bool)
      requires Wired() && Snap().Valid() && Snap().Flagged() && !done
      requires b == Segment(payload, book.base + seqno) && (end <==> book.base + seqno + 1 == Segments(size))
      modifies this, receiver, crc
      ensures !ok ==> !old(Fate(Snap().ToLink())).delivered
      ensures receiver.stored == old(receiver.stored) && (ok ==> Wired())
      ensures !ok || Moved(old(Snap()), Snap(), 1)
      decreases Snap().Debt(), 3
    {
      ghost var v := Snap();
      Transmit(b, end);
      ok := true;
      if seqno >= blksize {
        ghost var w := Snap();
        ok := BlockAck();
        if ok {
          SentThenAcknowledged(v, w, Snap());
        }
      }
    }

    /** The first half of `send`: the frame, then the block buffer and the CRC. */
    method Transmit(b: seq<byte>, end: bool)
      requires Wired() && Snap().Valid() && Snap().Flagged() && !done
      requires b == Segment(payload, book.base + seqno) && (end <==> book.base + seqno + 1 == Segments(size))
      modifies this, receiver`rx, crc
      ensures Wired() && Pushed(old(Snap()), Snap())
    {
      ghost var v := Snap();
      ghost var w := v.Emitted(v.NextRx()).Recorded(b);
      SentPushed(v, v.Emitted(v.NextRx()), w);
      Emit(b, end);
      Record(b);
      assert Snap() == w;
    }

    method Emit(b: seq<byte>, end: bool)
      requires size == |payload| && book.base + seqno < Segments(size) && seqno < 127 && !done
      requires b == Segment(payload, book.base + seqno) && (end <==> book.base + seqno + 1 == Segments(size))
      requires receiver.rx.Listening()
      modifies this`seqno, this`done, this`blksize, this`lastBytesSent,
               receiver`rx
      ensures Snap() == old(Snap()).Emitted(old(Snap()).NextRx())
    {
      seqno := seqno + 1;
      var request := SegmentFrame(seqno, b, end);
      if end {
        done := true;
        blksize := seqno;
        lastBytesSent := |b|;
      }
      receiver.Receive(request);
    }

    /** Position, block buffer and CRC take note of the segment. */
    method Record(b: seq<byte>)
      requires Wired()
      modifies this`pos, this`currentBlock, this`book, crc
      ensures Wired() && Snap() == old(Snap()).Recorded(b)
    {
      pos := pos + |b|;
      currentBlock := currentBlock + [b];
      book := book.(reached := if book.base + seqno > book.reached then book.base + seqno else book.reached,
                    resend := if book.resend > 0 then book.resend - 1 else 0);
      AddToCrc(b);
    }

    /** The CRC does not see data that is sent again. */
    method AddToCrc(b: seq<byte>)
      requires Wired()
      modifies this`book, crc
      ensures Wired()
      ensures book == old(book).(crcInput := if crcSupported && !retransmitting then old(book.crcInput) + b else old(book.crcInput))
    {
      if crcSupported && !retransmitting {
        UpdateConcat(0, book.crcInput, b);
        crc.Process(b);
        book := book.(crcInput := book.crcInput + b);
      }
    }

    method BlockAck() returns (ok: bool)
      requires Wired() && Snap().Core() && seqno == blksize
      requires book.clean && book.resend > 0 ==> retransmitting
      modifies this, receiver, crc
      ensures !ok ==> !old(Fate(Snap().ToLink())).delivered
      ensures receiver.stored == old(receiver.stored) && (ok ==> Wired())
      ensures !ok || Moved(old(Snap()), Snap(), 0)
      ensures old(receiver.rx.ackseq == seqno) ==> ok && seqno == 0 && blksize == NextSize(old(receiver.rx.sizes))
      decreases Snap().Debt(), 1
    {
      ghost var v := Snap();
      var ackseq, nextSize := receiver.Acknowledge();
      if ackseq != blksize {
        ok := Retransmit(ackseq, nextSize, v);
      } else {
        Clear(nextSize, v);
        ok := true;
      }
    }

    /** The sub-block was received successfully. */
    method Clear(nextSize: nat, ghost v: View)
      requires v.Core() && v.seqno == v.blksize && v.rx.ackseq == v.seqno && nextSize == NextSize(v.rx.sizes)
      requires v.book.clean && v.book.resend > 0 ==> v.retransmitting
      requires Snap() == v.(rx := v.rx.Reset())
      modifies this`currentBlock, this`book, this`blksize, this`seqno
      ensures Moved(v, Snap(), 0) && book.crcInput == old(book.crcInput)
      ensures blksize == nextSize && seqno == 0 && currentBlock == []
    {
      ClearedMoved(v);
      currentBlock := [];
      blksize := nextSize;
      book := book.(base := book.base + seqno);
      seqno := 0;
      assert Snap() == v.Cleared();
    }

    /** Goes back to the first segment that is missing; `block` is what has to be sent again. */
    method GoBack(ackseq: nat, nextSize: nat, ghost v: View) returns (block: seq<seq<byte>>)
      requires ackseq == v.rx.ackseq <= v.seqno == |currentBlock| && nextSize == NextSize(v.rx.sizes)
      requires Snap() == v.(rx := v.rx.Reset())
      modifies this`pos, this`currentBlock, this`seqno, this`blksize, this`retransmitting, this`book
      ensures block == v.currentBlock[ackseq..] && Snap() == v.CutBack()
      ensures blksize == nextSize && seqno == 0 && currentBlock == [] && retransmitting
    {
      block := currentBlock[ackseq..];
      pos := pos - |block| * 7;
      currentBlock := [];
      seqno := 0;
      blksize := nextSize;
      retransmitting := true;
      book := book.(base := book.base + ackseq, clean := book.clean && book.resend == 0, resend := |block|);
    }

    /** The retransmission loop is through. */
    method Resume(ghost v: View)
      requires v.Core() && v.rx.ackseq < v.seqno && !v.done && (v.book.clean && v.book.resend > 0 ==> v.retransmitting)
      requires Resending(v, Snap(), v.seqno - v.rx.ackseq)
      modifies this`retransmitting
      ensures Moved(v, Snap(), 0)
    {
      ghost var x := Snap();
      ResendingEnds(v, x);
      retransmitting := false;
      assert Snap() == x.(retransmitting := false);
    }

    /** One round of the retransmission loop: `write`, which refuses everything once the last segment is out. */
    method ResendOne(b: seq<byte>, ghost v: View, ghost i: nat) returns (ok: bool)
      requires Wired() && v.Core() && v.rx.ackseq < v.seqno && v.rx.ackseq + i < v.seqno
      requires b == v.currentBlock[v.rx.ackseq + i]
      requires if v.done then done else Resending(v, Snap(), i)
      modifies this, receiver, crc
      ensures receiver.stored == old(receiver.stored) && (ok ==> !v.done && Wired())
      ensures !ok || Resending(v, Snap(), i + 1)
      ensures !ok ==> v.done || !Fate(v.ToLink()).delivered
      decreases Snap().Debt(), 5
    {
      ghost var x := Snap();
      if !v.done {
        ResendingOffers(v, x, i);
      }
      var r := Write(b);
      ok := r.Ok?;
      if ok {
        ResendingAdvances(v, x, Snap(), i);
      }
    }

    /** Resends what the acknowledgement left out of the sub-block; `v` is the state before that acknowledgement. */
    method Retransmit(ackseq: nat, nextSize: nat, ghost v: View) returns (ok: bool)
      requires Wired() && v.Core() && v.seqno == v.blksize && v.rx.ackseq < v.seqno
      requires v.book.clean && v.book.resend > 0 ==> v.retransmitting
      requires ackseq == v.rx.ackseq && nextSize == NextSize(v.rx.sizes)
      requires Snap() == v.(rx := v.rx.Reset())
      modifies this, receiver, crc
      ensures !ok ==> !Fate(v.ToLink()).delivered
      ensures receiver.stored == old(receiver.stored) && (ok ==> Wired())
      ensures !ok || Moved(v, Snap(), 0)
      decreases LossCount(receiver.rx.losses), 7
    {
      var block := GoBack(ackseq, nextSize, v);
      Rewound(v, Snap());
      ok := ResendAll(block, v);
      if ok {
        Resume(v);
      }
    }

    method ResendAll(block: seq<seq<byte>>, ghost v: View) returns (ok: bool)
      requires Wired() && v.Core() && v.rx.ackseq < v.seqno && block == v.currentBlock[v.rx.ackseq..]
      requires if v.done then done && Snap().Debt() <= LossCount(v.rx.losses) else Resending(v, Snap(), 0)
      modifies this, receiver, crc
      ensures receiver.stored == old(receiver.stored) && (ok ==> Wired() && !v.done)
      ensures !ok || Resending(v, Snap(), v.seqno - v.rx.ackseq)
      ensures !ok ==> v.done || !Fate(v.ToLink()).delivered
      decreases LossCount(v.rx.losses), 6
    {
      for i := 0 to |block|
        invariant Wired() && receiver.stored == old(receiver.stored)
        invariant v.done ==> done && i == 0 && Snap().Debt() <= LossCount(v.rx.losses)
        invariant v.done || Resending(v, Snap(), i)
      {
        var r := ResendOne(block[i], v, i);
        if !r {
          return false;
        }
      }
      ok := true;
    }

    /** The caller of an open stream offers all the data it has left. */
    method Offer(b: seq<byte>) returns (r: Result<nat, Error>)
      requires Wired() && AtRest(Snap()) && !done && pos + |b| == size && b == payload[pos..]
      modifies this, receiver, crc
      ensures receiver.stored == old(receiver.stored)
      ensures r.Err? ==> r.error == AllDataSent && !old(Fate(Snap().ToLink())).delivered
      ensures r.Ok? ==> Wired() && r.value == Min(7, |b|) && pos == old(pos) + r.value && (done <==> pos == size)
      ensures r.Err? || (AtRest(Snap()) && Fate(Snap().ToLink()) == old(Fate(Snap().ToLink())))
    {
      ghost var v := Snap();
      OfferedSegment(v, b);
      var written := Write(b);
      if written.Err? {
        return Err(written.error);
      }
      RestsAgain(v, Snap());
      return Ok(written.value.value);
    }

    /** Ends a complete transfer: announces the filling of the last segment and the CRC. */
    method Close() returns (r: Result<(), Error>)
      requires Wired() && Snap().Valid() && done
      modifies receiver`stored
      ensures r.Ok? <==> (crcSupported ==> Checksum(book.crcInput) == Checksum(payload))
      ensures r.Ok? ==> receiver.stored == Some(payload)
      ensures r.Err? ==> receiver.stored == old(receiver.stored)
    {
      FillingDropped(payload);
      var final := crc.Final();
      var accepted := receiver.End(EndFrame(lastBytesSent, if crcSupported then final else 0));
      r := if accepted then Ok(()) else Err(Aborted);
    }
  }

  lemma {:induction false} FinishedView(v: View)
    requires AtRest(v) && v.done
    ensures Fate(v.ToLink()) == Outcome(true, v.book.clean)
    ensures v.crc ==> (v.book.crcInput == v.payload <==> v.book.clean)
  {
    JoinedIsPrefix(v.payload, v.Count());
  }

  /**
   A whole block download.  The caller keeps offering the data that is left.  `summed` is what the
   CRC at the end was computed over.
   */
  method Download(receiver: Receiver, payload: seq<byte>) returns (r: Result<(), Error>, ghost summed: seq<byte>)
    requires |payload| > 0 && ValidSizes(receiver.rx.sizes)
    modifies receiver
    ensures r.Ok? ==> receiver.stored == Some(payload)
    ensures r.Err? ==> receiver.stored == None
    ensures var fate := Fate(Start(|payload|, old(receiver.rx.losses), old(receiver.rx.sizes)));
            && (fate.delivered && (receiver.crcSupported ==> fate.crcOnce) ==> r.Ok?)
            && (!fate.delivered ==> r == Err(AllDataSent))
            && (fate.delivered && receiver.crcSupported ==>
                  && (summed == payload <==> fate.crcOnce)
                  && (r.Ok? <==> Checksum(summed) == Checksum(payload)))
  {
    var stream := new BlockDownloadStream(receiver, payload, |payload|);
    summed := [];
    var offset := 0;
    while offset < |payload|
      invariant stream.Wired() && receiver.stored == None && AtRest(stream.Snap())
      invariant offset == stream.pos && (stream.done <==> offset == |payload|)
      invariant Fate(stream.Snap().ToLink()) == Fate(Start(|payload|, old(receiver.rx.losses), old(receiver.rx.sizes)))
    {
      var written := stream.Offer(payload[offset..]);
      if written.Err? {
        return Err(written.error), [];
      }
      offset := offset + written.value;
    }
    FinishedView(stream.Snap());
    summed := stream.book.crcInput;
    r := stream.Close();
  }
}

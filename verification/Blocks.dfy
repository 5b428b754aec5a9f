/** What the two block transfers share: data in seven-byte segments, their frames, and losses. */
module Blocks {
  import opened Common

  const NO_MORE_BLOCKS := 0x80

  // ----- the payload in segments

  function Segments(n: nat): nat {
    (n + 6) / 7
  }

  function Segment(payload: seq<byte>, j: nat): (s: seq<byte>)
    requires 7 * j <= |payload|
    ensures |s| <= 7
  {
    payload[7 * j..Min(7 * j + 7, |payload|)]
  }

  /** The data bytes of segment `j` as the frame carries them, filled up to seven. */
  function Chunk(payload: seq<byte>, j: nat): (c: seq<byte>)
    requires 7 * j <= |payload|
    ensures |c| == 7
  {
    Segment(payload, j) + Zeros(7 - |Segment(payload, j)|)
  }

  /** The first `k` segments one after the other. */
  function Joined(payload: seq<byte>, k: nat): (s: seq<byte>)
    requires k <= Segments(|payload|)
    ensures |s| == Min(7 * k, |payload|)
  {
    if k == 0 then [] else Joined(payload, k - 1) + Segment(payload, k - 1)
  }

  /** The first `k` segments with their filling. */
  function Chunks(payload: seq<byte>, k: nat): (s: seq<byte>)
    requires k <= Segments(|payload|)
    ensures |s| == 7 * k
  {
    if k == 0 then [] else Chunks(payload, k - 1) + Chunk(payload, k - 1)
  }

  lemma {:induction false} JoinedIsPrefix(payload: seq<byte>, k: nat)
    requires k <= Segments(|payload|)
    ensures Joined(payload, k) == payload[..Min(7 * k, |payload|)]
  {
    if k > 0 {
      JoinedIsPrefix(payload, k - 1);
    }
  }

  lemma {:induction false} ChunksArePadded(payload: seq<byte>, k: nat)
    requires k <= Segments(|payload|)
    ensures Chunks(payload, k) == Joined(payload, k) + Zeros(7 * k - |Joined(payload, k)|)
  {
    if k > 0 {
      ChunksArePadded(payload, k - 1);
    }
  }

  /** Dropping the filling announced at the end leaves the payload. */
  lemma {:induction false} FillingDropped(payload: seq<byte>)
    requires |payload| > 0
    ensures var n := Segments(|payload|);
            && |Segment(payload, n - 1)| == |payload| - 7 * (n - 1) > 0
            && Chunks(payload, n)[..7 * n - (7 - |Segment(payload, n - 1)|)] == payload
  {
    ChunksArePadded(payload, Segments(|payload|));
    JoinedIsPrefix(payload, Segments(|payload|));
  }

  // ----- frames

  /** Sequence number and end flag in the first byte, then the data. */
  function SegmentFrame(seqno: nat, b: seq<byte>, end: bool): (frame: seq<byte>)
    requires 1 <= seqno <= 127 && |b| <= 7
    ensures |frame| == 8 && frame[0] % 0x80 == seqno && (end <==> frame[0] >= NO_MORE_BLOCKS)
    ensures frame[1..] == b + Zeros(7 - |b|)
  {
    [if end then seqno + NO_MORE_BLOCKS else seqno] + (b + Zeros(7 - |b|))
  }

  function Filling(frame: seq<byte>): nat
    requires |frame| == 8
  {
    frame[0] / 4 % 8
  }

  function CrcField(frame: seq<byte>): int
    requires |frame| == 8
  {
    frame[1] as int + 256 * (frame[2] as int)
  }

  // ----- losses on the channel

  function LossCount(losses: seq<bool>): nat {
    if losses == [] then 0 else (if losses[0] then 1 else 0) + LossCount(losses[1..])
  }

  function DropLosses(losses: seq<bool>, k: nat): seq<bool> {
    if k <= |losses| then losses[k..] else []
  }

  /** The next segment does not arrive. */
  predicate Lost(losses: seq<bool>) {
    losses != [] && losses[0]
  }

  /** How many of the next `k` segments arrive before the first one is lost. */
  function Lead(losses: seq<bool>, k: nat): (n: nat)
    ensures n <= k
  {
    if k == 0 || Lost(losses) then 0 else 1 + Lead(DropLosses(losses, 1), k - 1)
  }

  lemma {:induction false} NoLossesLeft(losses: seq<bool>, k: nat)
    requires LossCount(losses) == 0
    ensures !Lost(losses) && LossCount(DropLosses(losses, k)) == 0
    decreases k
  {
    if 0 < k <= |losses| {
      NoLossesLeft(losses[1..], k - 1);
      assert losses[k..] == losses[1..][k - 1..];
    }
  }

  lemma {:induction false} DropAdds(losses: seq<bool>, m: nat, n: nat)
    ensures DropLosses(DropLosses(losses, m), n) == DropLosses(losses, m + n)
  {
  }
}

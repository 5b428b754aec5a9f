/** The variables of one PDO and the message data they share (`PdoMap`), after any sequence of writes. */
module PdoLayout {
  import opened Common
  import opened Bits
  import opened Codec
  import opened Dictionary
  import opened PdoBuffer

  /** The format `_get_variable` finds, or `None` where it raises `KeyError`. */
  function Lookup(od: ObjectDictionary<Format>, index: nat, subindex: nat): Option<Format> {
    match Find(od, index, subindex)
    case Ok(format) => Some(format)
    case Err(_) => None
  }

  function Total(entries: seq<PdoVariable>): nat {
    if entries == [] then 0 else Total(entries[..|entries| - 1]) + entries[|entries| - 1].length
  }

  /** Every entry starts where the entries before it end. */
  ghost predicate Laid(entries: seq<PdoVariable>) {
    forall k :: 0 <= k < |entries| ==> entries[k].format.Valid() && entries[k].offset == Total(entries[..k])
  }

  function Size(length: nat): nat {
    (length + 7) / 8
  }

  /** A message has the fewest bytes that hold its bits: at most `n` of them, say eight, exactly when `8 * n` bits do. */
  lemma {:induction false} FewestBytes(entries: seq<PdoVariable>, n: nat)
    ensures |Zeros(Size(Total(entries)))| <= n <==> Total(entries) <= 8 * n
  {
  }

  // ----- entries laid out one after the other do not overlap

  lemma {:induction false} OffsetsOrdered(entries: seq<PdoVariable>, j: nat, k: nat)
    requires Laid(entries) && j < k <= |entries|
    ensures entries[j].offset + entries[j].length <= Total(entries[..k])
  {
    assert entries[..k][..k - 1] == entries[..k - 1];
    if j == k - 1 {
    } else {
      OffsetsOrdered(entries, j, k - 1);
    }
  }

  lemma {:induction false} EntriesDisjoint(entries: seq<PdoVariable>, j: nat, k: nat, i: nat)
    requires Laid(entries) && j < |entries| && k < |entries| && j != k
    requires entries[j].offset <= i < entries[j].offset + entries[j].length
    ensures !(entries[k].offset <= i < entries[k].offset + entries[k].length)
  {
    if j < k {
      OffsetsOrdered(entries, j, k);
    } else {
      OffsetsOrdered(entries, k, j);
    }
  }

  // ----- runs of writes

  datatype RawWrite = RawWrite(entry: nat, value: int)

  /** `var.raw = value`: encode, then `set_data`; a write that raises leaves the data alone. */
  function Stored(entries: seq<PdoVariable>, data: seq<byte>, w: RawWrite): Result<seq<byte>, Error>
    requires w.entry < |entries| && entries[w.entry].format.Valid()
  {
    match Pack(entries[w.entry].format, w.value)
    case Err(_) => Err(ValueError)
    case Ok(bs) => WriteField(data, entries[w.entry], bs)
  }

  function Run(entries: seq<PdoVariable>, data: seq<byte>, ws: seq<RawWrite>): seq<byte>
    requires forall v :: v in entries ==> v.format.Valid()
    requires forall w :: w in ws ==> w.entry < |entries|
  {
    if ws == [] then data
    else
      var before := Run(entries, data, ws[..|ws| - 1]);
      match Stored(entries, before, ws[|ws| - 1])
      case Ok(after) => after
      case Err(_) => before
  }

  /** The last value written to entry `k`, or 0. */
  function LastWritten(ws: seq<RawWrite>, k: nat): int {
    if ws == [] then 0
    else if ws[|ws| - 1].entry == k then ws[|ws| - 1].value
    else LastWritten(ws[..|ws| - 1], k)
  }

  ghost predicate AllCells(entries: seq<PdoVariable>, size: nat) {
    forall k :: 0 <= k < |entries| ==> Cell(entries[k], size)
  }

  /** Every write names an entry and carries a value that fits it. */
  ghost predicate Fitting(entries: seq<PdoVariable>, ws: seq<RawWrite>) {
    forall w :: w in ws ==> w.entry < |entries| && Fits(entries[w.entry], w.value)
  }

  lemma {:induction false} ZerosHold(data: seq<byte>, v: PdoVariable)
    requires Cell(v, |data|) && data == Zeros(|data|)
    ensures Holds(data, v, 0) && Fits(v, 0)
  {
    forall i: nat | i < v.length ensures BufBit(data, v.offset + i) == Bit(0, i) {
      ConstantBits(i);
      ConstantBits((v.offset + i) % 8);
    }
  }

  lemma {:induction false} StoredIsWrite(entries: seq<PdoVariable>, data: seq<byte>, w: RawWrite)
    requires w.entry < |entries| && Cell(entries[w.entry], |data|) && Fits(entries[w.entry], w.value)
    ensures var v := entries[w.entry]; Stored(entries, data, w) == WriteField(data, v, ToLE(w.value, v.format.bytes))
  {
    var v := entries[w.entry];
    PackableFits(v, w.value);
    InRangeWidens(w.value, v.format.bytes, v.format.Container(), v.format.signed);
    ToLEPrefix(w.value, v.format.Container(), v.format.bytes);
  }

  /** One write updates its own cell and no other. */
  lemma {:induction false} StoredUpdatesOneCell(
      entries: seq<PdoVariable>, data: seq<byte>, w: RawWrite, k: nat, x: int)
    requires Laid(entries) && AllCells(entries, |data|) && k < |entries|
    requires w.entry < |entries| && Fits(entries[w.entry], w.value)
    requires Holds(data, entries[k], x)
    ensures Stored(entries, data, w).Ok? && |Stored(entries, data, w).value| == |data|
    ensures Holds(Stored(entries, data, w).value, entries[k], if w.entry == k then w.value else x)
  {
    StoredIsWrite(entries, data, w);
    WriteCell(data, entries[w.entry], w.value);
    if w.entry != k {
      HoldsElsewhere(entries, data, Stored(entries, data, w).value, w.entry, k, x);
    }
  }

  lemma {:induction false} HoldsElsewhere(
      entries: seq<PdoVariable>, data: seq<byte>, after: seq<byte>, j: nat, k: nat, x: int)
    requires Laid(entries) && j < |entries| && k < |entries| && j != k
    requires Holds(data, entries[k], x) && OnlyField(data, entries[j], after)
    ensures Holds(after, entries[k], x)
  {
    forall i: nat | i < entries[k].length ensures BufBit(after, entries[k].offset + i) == Bit(x, i) {
      EntriesDisjoint(entries, k, j, entries[k].offset + i);
      assert BufBit(data, entries[k].offset + i) == Bit(x, i);
    }
  }

  lemma {:induction false} RunHolds(entries: seq<PdoVariable>, data: seq<byte>, ws: seq<RawWrite>, k: nat)
    requires Laid(entries) && AllCells(entries, |data|) && Fitting(entries, ws) && k < |entries|
    requires data == Zeros(|data|)
    ensures |Run(entries, data, ws)| == |data|
    ensures Holds(Run(entries, data, ws), entries[k], LastWritten(ws, k))
    ensures Fits(entries[k], LastWritten(ws, k))
    decreases |ws|
  {
    if ws == [] {
      ZerosHold(data, entries[k]);
    } else {
      RunHolds(entries, data, ws[..|ws| - 1], k);
      var before := Run(entries, data, ws[..|ws| - 1]);
      var w := ws[|ws| - 1];
      assert w in ws;
      StoredUpdatesOneCell(entries, before, w, k, LastWritten(ws[..|ws| - 1], k));
    }
  }

  /**
   The message refines a map of independent cells: after any sequence of fitting writes to a laid-out
   map, every entry reads back the last value written to it (0 if none was).
   */
  lemma {:induction false} MessageIsCells(entries: seq<PdoVariable>, ws: seq<RawWrite>, k: nat)
    requires Laid(entries) && AllCells(entries, Size(Total(entries))) && Fitting(entries, ws) && k < |entries|
    ensures var data := Run(entries, Zeros(Size(Total(entries))), ws);
            ReadField(data, entries[k]) == Ok(ToLE(Seen(entries[k], LastWritten(ws, k)), entries[k].format.bytes))
  {
    var zeros := Zeros(Size(Total(entries)));
    RunHolds(entries, zeros, ws, k);
    ReadCell(Run(entries, zeros, ws), entries[k], LastWritten(ws, k));
  }

  /** Decoding that read gives the written value, except the most negative value of a signed bit field. */
  lemma {:induction false} ReadsBackLastWritten(entries: seq<PdoVariable>, ws: seq<RawWrite>, k: nat)
    requires Laid(entries) && AllCells(entries, Size(Total(entries))) && Fitting(entries, ws) && k < |entries|
    ensures var v, x := entries[k], LastWritten(ws, k);
            var read := ReadField(Run(entries, Zeros(Size(Total(entries))), ws), v);
            read.Ok? && (Unpack(v.format, read.value) == Ok(x)
                         <==> !(v.Partial() && v.format.signed && x == -Pow2(v.length - 1)))
  {
    var v, x := entries[k], LastWritten(ws, k);
    MessageIsCells(entries, ws, k);
    RunHolds(entries, Zeros(Size(Total(entries))), ws, k);
    SeenInRange(v, x);
    UnpackToLE(v.format, Seen(v, x));
  }

  lemma {:induction false} SeenInRange(v: PdoVariable, x: int)
    requires v.format.Valid() && v.length <= v.Width() && Fits(v, x)
    requires v.Partial() ==> v.offset % 8 + v.length <= v.Width()
    ensures InRange(Seen(v, x), v.format.bytes, v.format.signed)
  {
    PackableFits(v, x);
    if v.Partial() && v.format.signed {
      Pow2Monotone(v.length, v.Width() - 1);
    }
  }
}

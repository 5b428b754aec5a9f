/**
 One PDO as the application handles it (`PdoMap`): its variables and their message data, saving the
 configuration to a device object by object, and reading it back.
 */
module PdoMapping {
  import opened Common
  import opened Bits
  import opened Codec
  import opened Dictionary
  import opened PdoBuffer
  import opened PdoLayout
  import opened PdoDevice
  import opened PdoReadBack

  /** The device behind the SDO client; a refused write is an abort. */
  class RemoteDevice {
    var state: Device

    constructor (state: Device)
      ensures this.state == state
    {
      this.state := state;
    }

    method WriteObject(w: Write) returns (ok: bool)
      modifies this
      ensures Apply(old(state), [w]) == (state, ok)
    {
      ApplyOne(state, w);
      var next := state.Store(w);
      ok := next.Some?;
      if ok {
        state := next.value;
      }
    }
  }

  /** The device after the first `n` mapping entries, and whether all of them were accepted. */
  function SlotsApplied(d: Device, packed: seq<int>, r: Records, n: nat): (Device, bool)
    requires n <= |packed|
  {
    if n == 0 then (d, true)
    else
      var before := SlotsApplied(d, packed, r, n - 1);
      if before.1 then Apply(before.0, SlotWrite(packed, r, n - 1)) else before
  }

  lemma {:induction false} AppliedThen(d: Device, a: seq<Write>, b: seq<Write>, before: (Device, bool))
    requires Apply(d, a) == before
    ensures Apply(d, a + b) == if before.1 then Apply(before.0, b) else before
  {
    ApplyConcat(d, a, b);
  }

  lemma {:induction false} SlotsAppliedWrites(d: Device, packed: seq<int>, r: Records, n: nat)
    requires n <= |packed|
    ensures Apply(d, SlotWrites(packed, r, n)) == SlotsApplied(d, packed, r, n)
  {
    if n > 0 {
      SlotsAppliedWrites(d, packed, r, n - 1);
      AppliedThen(d, SlotWrites(packed, r, n - 1), SlotWrite(packed, r, n - 1), SlotsApplied(d, packed, r, n - 1));
    }
  }

  /** Nothing is written after a refused entry, nor beyond the last one of the device. */
  lemma {:induction false} SlotsAppliedEnd(d: Device, packed: seq<int>, r: Records, m: nat, n: nat)
    requires m <= n <= |packed| && (m == n || !SlotsApplied(d, packed, r, m).1 || |r.slotWritable| <= m)
    ensures SlotsApplied(d, packed, r, n) == SlotsApplied(d, packed, r, m)
  {
    if m < n {
      SlotsAppliedEnd(d, packed, r, m, n - 1);
    }
  }

  /** Every type in the dictionary has one of the supported widths. */
  ghost predicate Wellformed(od: ObjectDictionary<Format>) {
    forall e, s :: Lookup(od, e, s).Some? ==> Lookup(od, e, s).value.Valid()
  }

  lemma {:induction false} AddedIsLaid(entries: seq<PdoVariable>, v: PdoVariable)
    requires Laid(entries) && v.format.Valid() && v.offset == Total(entries)
    ensures Laid(entries + [v]) && Total(entries + [v]) == Total(entries) + v.length
  {
    var after := entries + [v];
    assert after[..|entries|] == entries;
    forall k | 0 <= k < |entries| ensures after[..k] == entries[..k] {
    }
  }

  class PdoMap {
    const od: ObjectDictionary<Format>
    const records: Records
    var cobId: Option<int>
    var enabled: bool
    var rtrAllowed: bool
    var transType: Option<int>
    var inhibitTime: Option<int>
    var eventTimer: Option<int>
    var syncStart: Option<int>
    var entries: seq<PdoVariable>
    var length: nat
    var data: seq<byte>

    ghost predicate Valid()
      reads this
    {
      Laid(entries) && length == Total(entries) && Wellformed(od)
    }

    function Config(): Settings
      reads this
    {
      Settings(cobId, enabled, rtrAllowed, transType, inhibitTime, eventTimer, syncStart)
    }

    constructor (od: ObjectDictionary<Format>, records: Records)
      requires Wellformed(od)
      ensures Valid() && this.od == od && this.records == records && entries == [] && data == []
      ensures Config() == Settings(None, false, true, None, None, None, None)
    {
      this.od, this.records := od, records;
      cobId, enabled, rtrAllowed := None, false, true;
      transType, inhibitTime, eventTimer, syncStart := None, None, None, None;
      entries, length, data := [], 0, [];
    }

    method Clear()
      requires Valid()
      modifies this`entries, this`length
      ensures Valid() && entries == [] && data == old(data)
    {
      entries := [];
      length := 0;
    }

    /** Appends the variable right after the last one; the message data starts again from zeros. */
    method AddVariable(index: nat, subindex: nat, bits: Option<nat>) returns (added: Option<PdoVariable>)
      requires Valid()
      modifies this`entries, this`length, this`data
      ensures Valid() && data == Zeros(Size(Total(entries))) && length <= 8 * |data| < length + 8
      ensures match Lookup(od, index, subindex)
              case None => added == None && entries == old(entries)
              case Some(format) =>
                var bitLength := if bits.Some? then bits.value else 8 * format.bytes;
                && added == Some(PdoVariable(index, subindex, format, bitLength, old(length)))
                && entries == old(entries) + [added.value]
                && length == old(length) + bitLength
      ensures entries == Added(od, old(entries), index, subindex, bits)
    {
      var format := Lookup(od, index, subindex);
      if format.None? {
        added := None;
      } else {
        var v := PdoVariable(index, subindex, format.value, 8 * format.value.bytes, length);
        if bits.Some? {
          v := v.(length := bits.value);
        }
        AddedIsLaid(entries, v);
        entries := entries + [v];
        length := length + v.length;
        added := Some(v);
      }
      data := Zeros(Size(length));
    }

    /** `var.raw = value`: on success the data becomes the next state of the run, otherwise nothing changes. */
    method SetRaw(k: nat, value: int) returns (r: Result<(), Error>)
      requires Valid() && k < |entries|
      modifies this`data
      ensures Valid()
      ensures r.Ok? <==> Stored(entries, old(data), RawWrite(k, value)).Ok?
      ensures data == Run(entries, old(data), [RawWrite(k, value)])
    {
      var bs := Pack(entries[k].format, value);
      assert [RawWrite(k, value)][..0] == [];
      if bs.Err? {
        return Err(ValueError);
      }
      var written := WriteField(data, entries[k], bs.value);
      if written.Err? {
        return Err(written.error);
      }
      data := written.value;
      return Ok(());
    }

    /** Decodes what the field holds: for a cell, the value its bits spell. */
    method GetRaw(k: nat) returns (r: Result<int, Error>)
      requires Valid() && k < |entries|
      ensures forall x :: Cell(entries[k], |data|) && Fits(entries[k], x) && Holds(data, entries[k], x) ==>
                r == Ok(Seen(entries[k], x))
      ensures match ReadField(data, entries[k])
              case Err(e) => r == Err(e)
              case Ok(bs) => r == Unpack(entries[k].format, bs)
    {
      forall x | Cell(entries[k], |data|) && Fits(entries[k], x) && Holds(data, entries[k], x)
        ensures ReadField(data, entries[k]) == Ok(ToLE(Seen(entries[k], x), entries[k].format.bytes))
        ensures Unpack(entries[k].format, ToLE(Seen(entries[k], x), entries[k].format.bytes)) == Ok(Seen(entries[k], x))
      {
        ReadCell(data, entries[k], x);
        SeenInRange(entries[k], x);
        UnpackToLE(entries[k].format, Seen(entries[k], x));
      }
      var bs := ReadField(data, entries[k]);
      if bs.Err? {
        return Err(bs.error);
      }
      return Unpack(entries[k].format, bs.value);
    }

    /** Any sequence of writes through the object, then any read: the cells hold what was last written. */
    method WriteAllThenRead(ws: seq<RawWrite>, k: nat) returns (r: Result<int, Error>)
      requires Valid() && data == Zeros(Size(length)) && k < |entries|
      requires AllCells(entries, |data|) && Fitting(entries, ws)
      modifies this`data
      ensures Valid() && data == Run(entries, old(data), ws)
      ensures !(entries[k].Partial() && entries[k].format.signed && LastWritten(ws, k) == -Pow2(entries[k].length - 1))
              ==> r == Ok(LastWritten(ws, k))
    {
      for n := 0 to |ws|
        invariant data == Run(entries, old(data), ws[..n])
      {
        var _ := SetRaw(ws[n].entry, ws[n].value);
        assert ws[..n + 1][..n] == ws[..n];
      }
      assert ws[..|ws|] == ws;
      ReadsBackLastWritten(entries, ws, k);
      r := GetRaw(k);
    }

    // ----- saving

    /** One parameter of the communication record: skipped if unset or not writable. */
    method SetComRecord(target: Object, subindex: nat, value: Option<int>) returns (r: Result<seq<Write>, PdoError>)
      ensures r == if value.Some? && subindex !in records.com then Err(KeyError)
                   else Ok(ComWrite(records, target, subindex, value))
    {
      if value.None? {
        return Ok([]);
      }
      if subindex !in records.com {
        return Err(KeyError);
      }
      if records.com[subindex] {
        return Ok([Write(target, value.value)]);
      }
      return Ok([]);
    }

    /** All four parameters are looked up before the first of them is written. */
    method ComRecordWrites() returns (r: Result<seq<Write>, PdoError>)
      ensures r == if Complete(Config(), records) then Ok(ComWrites(Config(), records)) else Err(KeyError)
    {
      var a := SetComRecord(TransType, 2, transType);
      if a.Err? {
        return a;
      }
      var b := SetComRecord(InhibitTime, 3, inhibitTime);
      if b.Err? {
        return b;
      }
      var c := SetComRecord(EventTimer, 5, eventTimer);
      if c.Err? {
        return c;
      }
      var d := SetComRecord(SyncStart, 6, syncStart);
      if d.Err? {
        return d;
      }
      return Ok(a.value + b.value + c.value + d.value);
    }

    /** The writes of `ws` in order, up to the first abort. */
    method WriteAll(node: RemoteDevice, ws: seq<Write>) returns (ok: bool)
      modifies node
      ensures Apply(old(node.state), ws) == (node.state, ok)
    {
      assert ws[0..] == ws;
      for k := 0 to |ws|
        invariant Apply(old(node.state), ws) == Apply(node.state, ws[k..])
      {
        assert ws[k..] == [ws[k]] + ws[k + 1..];
        ApplyConcat(node.state, [ws[k]], ws[k + 1..]);
        ok := node.WriteObject(ws[k]);
        if !ok {
          return;
        }
      }
      ok := true;
    }

    /** The mapping: no entries, then each writable entry, then the number of entries. */
    method WriteMapping(node: RemoteDevice) returns (ok: bool)
      modifies node
      ensures Apply(old(node.state), MappingWrites(PackAll(records.curtis, entries), records)) == (node.state, ok)
    {
      ghost var packed := PackAll(records.curtis, entries);
      ghost var zero, count := [Write(MapCount, 0)], [Write(MapCount, |packed|)];
      ghost var slots := SlotWrites(packed, records, |packed|);
      ApplyConcat(node.state, zero + slots, count);
      ApplyConcat(node.state, zero, slots);
      ok := node.WriteObject(Write(MapCount, 0));
      if ok {
        SlotsAppliedWrites(node.state, packed, records, |packed|);
        ok := WriteEntries(node, packed);
      }
      if ok {
        ok := node.WriteObject(Write(MapCount, |entries|));
      }
    }

    method WriteEntries(node: RemoteDevice, ghost packed: seq<int>) returns (ok: bool)
      requires packed == PackAll(records.curtis, entries)
      modifies node
      ensures SlotsApplied(old(node.state), packed, records, |packed|) == (node.state, ok)
    {
      ghost var start := node.state;
      var i := 0;
      ok := true;
      while ok && i < |entries| && i < |records.slotWritable|
        invariant i <= |entries|
        invariant SlotsApplied(start, packed, records, i) == (node.state, ok)
      {
        ok := WriteEntry(node, i, packed);
        i := i + 1;
      }
      SlotsAppliedEnd(start, packed, records, i, |packed|);
    }

    method WriteEntry(node: RemoteDevice, i: nat, ghost packed: seq<int>) returns (ok: bool)
      requires packed == PackAll(records.curtis, entries) && i < |entries| && i < |records.slotWritable|
      modifies node
      ensures Apply(old(node.state), SlotWrite(packed, records, i)) == (node.state, ok)
    {
      ok := true;
      if records.slotWritable[i] {
        ok := node.WriteObject(Write(MapSlot(i), PackEntry(records.curtis, entries[i])));
      }
    }

    /**
     `save`: disable, configure, map, enable.  The device ends in the state that the list of writes
     describes, also when one of them is refused; a save that raises leaves the PDO disabled.
     */
    method Save(node: RemoteDevice) returns (r: Result<(), PdoError>)
      requires Valid()
      modifies this`data, node
      ensures Valid() && Config() == old(Config())
      ensures var (e, ok) := Apply(old(node.state), SaveWrites(old(Config()), PackAll(records.curtis, entries), records));
              && node.state == e
              && (r == Err(Aborted) <==> !ok)
              && (r.Ok? <==> ok && (cobId.Some? ==> Complete(old(Config()), records)))
      ensures r.Err? ==> !node.state.Exists()
      ensures cobId.Some? && r.Ok? ==> data == Zeros(Size(length)) && length <= 8 * |data| < length + 8
      ensures cobId.None? ==> data == old(data)
    {
      ghost var start, packed := node.state, PackAll(records.curtis, entries);
      if cobId.None? {
        return Ok(());
      }
      var off := Write(CobId, Or(Or(cobId.value, PDO_NOT_VALID), if rtrAllowed then 0 else RTR_NOT_ALLOWED));
      ApplyConcat(start, [off], RestWrites(Config(), packed, records));
      var ok := node.WriteObject(off);
      r := Err(Aborted);
      if ok {
        r := SaveRest(node);
      }
      if r.Err? {
        FailedSaveDisables(start, Config(), packed, records);
      }
    }

    /** `save` once the PDO is disabled. */
    method SaveRest(node: RemoteDevice) returns (r: Result<(), PdoError>)
      requires cobId.Some?
      modifies this`data, node
      ensures var (e, ok) := Apply(old(node.state), RestWrites(old(Config()), PackAll(records.curtis, entries), records));
              && node.state == e
              && (r == Err(Aborted) <==> !ok)
              && (r.Ok? <==> ok && Complete(old(Config()), records))
      ensures r.Ok? ==> data == Zeros(Size(length)) && length <= 8 * |data| < length + 8
    {
      var coms := ComRecordWrites();
      if coms.Err? {
        return Err(KeyError);
      }
      ApplyConcat(node.state, MiddleWrites(Config(), PackAll(records.curtis, entries), records), EnableWrites(Config()));
      var ok := Configure(node, coms.value);
      if ok {
        data := Zeros(Size(length));
        ok := Enable(node);
      }
      r := if ok then Ok(()) else Err(Aborted);
    }

    method Configure(node: RemoteDevice, coms: seq<Write>) returns (ok: bool)
      requires coms == ComWrites(Config(), records)
      modifies node
      ensures Apply(old(node.state), MiddleWrites(Config(), PackAll(records.curtis, entries), records)) == (node.state, ok)
    {
      ApplyConcat(node.state, coms, MappingWrites(PackAll(records.curtis, entries), records));
      ok := WriteAll(node, coms);
      if ok {
        ok := WriteMapping(node);
      }
    }

    method Enable(node: RemoteDevice) returns (ok: bool)
      requires cobId.Some?
      modifies node
      ensures Apply(old(node.state), EnableWrites(Config())) == (node.state, ok)
    {
      ok := true;
      if enabled {
        ok := node.WriteObject(Write(CobId, Or(cobId.value, if rtrAllowed then 0 else RTR_NOT_ALLOWED)));
      }
    }

    // ----- reading

    /** `read`: the settings and the entries of the device; the message data starts again from zeros. */
    method Read(node: RemoteDevice) returns (r: Result<(), PdoError>)
      requires Valid()
      modifies this
      ensures Valid()
      ensures match ReadSettings(node.state, records, old(Config()))
              case Err(e) => r == Err(e) && entries == old(entries)
              case Ok(s) => Config() == s && match ReadMapping(node.state, records, od)
                            case Err(e) => r == Err(e)
                            case Ok(mapped) => r == Ok(()) && entries == mapped
      ensures r.Ok? && entries != [] ==> data == Zeros(Size(length)) && length <= 8 * |data| < length + 8
    {
      r := ReadCommunication(node);
      if r.Ok? {
        r := ReadEntriesFrom(node);
      }
    }

    method ReadCommunication(node: RemoteDevice) returns (r: Result<(), PdoError>)
      requires Valid()
      modifies this`cobId, this`enabled, this`rtrAllowed, this`transType, this`inhibitTime, this`eventTimer, this`syncStart
      ensures match ReadSettings(node.state, records, old(Config()))
              case Err(e) => r == Err(e)
              case Ok(s) => r == Ok(()) && Config() == s
    {
      var raw := node.state.cobId;
      cobId := Some(And(raw, 0x1FFF_FFFF));
      enabled := And(raw, PDO_NOT_VALID) == 0;
      rtrAllowed := And(raw, RTR_NOT_ALLOWED) == 0;
      if 2 !in records.com {
        return Err(KeyError);
      }
      transType := Some(node.state.transType);
      if transType.value >= 254 {
        if 3 in records.com {
          inhibitTime := node.state.inhibitTime;
          if inhibitTime.None? {
            return Err(Aborted);
          }
        }
        if 5 in records.com {
          eventTimer := node.state.eventTimer;
          if eventTimer.None? {
            return Err(Aborted);
          }
        }
        if 6 in records.com {
          syncStart := node.state.syncStart;
          if syncStart.None? {
            return Err(Aborted);
          }
        }
      }
      return Ok(());
    }

    /** One mapping entry; those without an index or a length are skipped. */
    method AddRead(value: int)
      requires Valid() && (entries != [] ==> data == Zeros(Size(length)))
      modifies this`entries, this`length, this`data
      ensures Valid() && (entries != [] ==> data == Zeros(Size(length)))
      ensures entries == ReadEntry(od, records.curtis, old(entries), value)
    {
      var (index, subindex, size) := UnpackEntry(records.curtis, value);
      if index > 0 && subindex >= 0 && size > 0 {
        var _ := AddVariable(index, subindex, Some(size));
      }
    }

    method ReadEntriesFrom(node: RemoteDevice) returns (r: Result<(), PdoError>)
      requires Valid()
      modifies this`entries, this`length, this`data
      ensures Valid()
      ensures match ReadMapping(node.state, records, od)
              case Err(e) => r == Err(e)
              case Ok(mapped) => r == Ok(()) && entries == mapped
      ensures r.Ok? && entries != [] ==> data == Zeros(Size(length)) && length <= 8 * |data| < length + 8
    {
      Clear();
      var d := node.state;
      var k := 0;
      while k < d.count
        invariant k <= d.count && k <= |records.slotWritable| && k <= |d.slots|
        invariant Valid() && entries == ReadEntries(od, records.curtis, d.slots[..k])
        invariant entries != [] ==> data == Zeros(Size(length))
      {
        if k >= |records.slotWritable| {
          return Err(KeyError);
        }
        if k >= |d.slots| {
          return Err(Aborted);
        }
        AddRead(d.slots[k]);
        assert d.slots[..k + 1][..k] == d.slots[..k];
        k := k + 1;
      }
      return Ok(());
    }
  }

  /** What one object saves to a device, another reads from it. */
  method SaveThenRead(writer: PdoMap, node: RemoteDevice, reader: PdoMap) returns (saved: bool, read: bool)
    requires writer.Valid() && reader.Valid() && writer != reader
    requires reader.od == writer.od && reader.records == writer.records
    requires SavedSettings(writer.Config(), writer.records) && SavedEntries(writer.od, writer.entries, writer.records)
    requires node.state.curtis == writer.records.curtis
    modifies writer`data, node, reader
    ensures writer.Valid() && reader.Valid()
    ensures saved <==> Writable(old(node.state), writer.Config(), writer.records)
                       && |writer.entries| <= |old(node.state).slots| && writer.length <= 64
    ensures saved ==> (read <==> writer.transType.value < 254 || Present(node.state, writer.records))
    ensures saved && read ==> reader.entries == writer.entries && reader.length == writer.length
    ensures saved && writer.cobId.Some? ==> |writer.data| <= 8
    ensures saved && read && reader.entries != [] ==> |reader.data| <= 8
    ensures saved && read ==> SameSettings(writer.Config(), reader.Config(), writer.records)
  {
    ghost var d, s, t, r, od := node.state, writer.Config(), reader.Config(), writer.records, writer.od;
    ghost var es := writer.entries;
    var outcome := writer.Save(node);
    saved, read := outcome.Ok?, false;
    assert saved <==> Writable(d, s, r) && |es| <= |d.slots| && Total(es) <= 64 by {
      SaveAcceptedIff(d, s, es, r, od);
    }
    if saved {
      ReadUndoesSave(d, s, es, r, od, t);
      outcome := reader.Read(node);
      read := outcome.Ok?;
    }
  }
}

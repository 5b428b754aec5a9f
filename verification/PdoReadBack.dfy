/**
 Reading a PDO configuration back from a device (`PdoMap.read_generator`), and the proof that it undoes
 what `save_generator` wrote.
 */
module PdoReadBack {
  import opened Common
  import opened Bits
  import opened Codec
  import opened Dictionary
  import opened PdoBuffer
  import opened PdoLayout
  import opened PdoDevice

  // ----- mapping entries

  /** Index, subindex and length of a mapping entry; the highest bit of the length is ignored. */
  function UnpackEntry(curtis: bool, value: int): (int, int, int) {
    if curtis then (And(value, 0xFFFF), And(Shr(value, 16), 0xFF), And(Shr(value, 24), 0x7F))
    else (Shr(value, 16), And(Shr(value, 8), 0xFF), And(value, 0x7F))
  }

  /** The fields fit the places they have in a mapping entry. */
  predicate FieldsFit(v: PdoVariable) {
    v.index < 0x1_0000 && v.subindex < 0x100 && v.length < 0x100
  }

  lemma {:induction false} Powers()
    ensures Pow2(7) == 0x80 && Pow2(8) == 0x100 && Pow2(16) == 0x1_0000 && Pow2(29) == 0x2000_0000
    ensures LowMask(7) == 0x7F && LowMask(8) == 0xFF && LowMask(16) == 0xFFFF && LowMask(29) == 0x1FFF_FFFF
  {
    Pow2Adds(8, 8);
    Pow2Adds(16, 8);
    Pow2Adds(24, 5);
    ShlIsTimes(1, 7);
    ShlIsTimes(1, 8);
    ShlIsTimes(1, 16);
    ShlIsTimes(1, 29);
  }

  lemma {:induction false} PackEntryBit(curtis: bool, v: PdoVariable, i: nat)
    ensures Bit(PackEntry(curtis, v), i)
            == if curtis then Bit(v.index, i) || (i >= 16 && Bit(v.subindex, i - 16)) || (i >= 24 && Bit(v.length, i - 24))
               else (i >= 16 && Bit(v.index, i - 16)) || (i >= 8 && Bit(v.subindex, i - 8)) || Bit(v.length, i)
  {
    if curtis {
      OrBit(Or(v.index, Shl(v.subindex, 16)), Shl(v.length, 24), i);
      OrBit(v.index, Shl(v.subindex, 16), i);
      ShlBit(v.subindex, 16, i);
      ShlBit(v.length, 24, i);
    } else {
      OrBit(Or(Shl(v.index, 16), Shl(v.subindex, 8)), v.length, i);
      OrBit(Shl(v.index, 16), Shl(v.subindex, 8), i);
      ShlBit(v.index, 16, i);
      ShlBit(v.subindex, 8, i);
    }
  }

  /** A field of `width` bits at bit `at` is found by shifting and masking. */
  lemma {:induction false} FieldAt(value: int, at: nat, width: nat, x: int)
    requires forall i: nat :: i < width ==> Bit(Shr(value, at), i) == Bit(x, i)
    ensures And(Shr(value, at), LowMask(width)) == And(x, LowMask(width))
  {
    forall i: nat ensures Bit(And(Shr(value, at), LowMask(width)), i) == Bit(And(x, LowMask(width)), i) {
      AndBit(Shr(value, at), LowMask(width), i);
      AndBit(x, LowMask(width), i);
      LowMaskBit(width, i);
    }
    BitsDetermine(And(Shr(value, at), LowMask(width)), And(x, LowMask(width)));
  }

  lemma {:induction false} MaskKeeps(x: int, width: nat)
    ensures 0 <= And(x, LowMask(width)) < Pow2(width)
    ensures And(x, LowMask(width)) == x <==> 0 <= x < Pow2(width)
  {
    var masked := And(x, LowMask(width));
    ShlIsTimes(1, width);
    AndSign(x, LowMask(width));
    forall i: nat ensures Bit(masked, i) == (Bit(x, i) && i < width) {
      AndBit(x, LowMask(width), i);
      LowMaskBit(width, i);
    }
    NonNegativeRange(masked, width);
    if 0 <= x < Pow2(width) {
      NonNegativeRange(x, width);
      BitsDetermine(masked, x);
    }
  }

  lemma {:induction false} FitBits(v: PdoVariable, i: nat)
    requires FieldsFit(v)
    ensures i >= 16 ==> !Bit(v.index, i)
    ensures i >= 8 ==> !Bit(v.subindex, i) && !Bit(v.length, i)
  {
    Powers();
    NonNegativeRange(v.index, 16);
    NonNegativeRange(v.subindex, 8);
    NonNegativeRange(v.length, 8);
  }

  /** The entry as the device stores it holds each field at its place, in either order of the fields. */
  lemma {:induction false} EntryFields(curtis: bool, v: PdoVariable, i: nat)
    requires FieldsFit(v)
    ensures var value := PackEntry(curtis, v);
            && (i < 8 ==> Bit(Shr(value, if curtis then 24 else 0), i) == Bit(v.length, i))
            && (i < 8 ==> Bit(Shr(value, if curtis then 16 else 8), i) == Bit(v.subindex, i))
            && (curtis && i < 16 ==> Bit(Shr(value, 0), i) == Bit(v.index, i))
            && (!curtis ==> Bit(Shr(value, 16), i) == Bit(v.index, i))
  {
    var value := PackEntry(curtis, v);
    var atLength, atSubindex, atIndex := if curtis then 24 else 0, if curtis then 16 else 8, if curtis then 0 else 16;
    ShrBit(value, atLength, i);
    ShrBit(value, atSubindex, i);
    ShrBit(value, atIndex, i);
    PackEntryBit(curtis, v, i + atLength);
    PackEntryBit(curtis, v, i + atSubindex);
    PackEntryBit(curtis, v, i + atIndex);
    FitBits(v, i + 8);
    FitBits(v, i + 16);
    FitBits(v, i + 24);
  }

  /** Reading an entry undoes packing it, but for the highest bit of the length. */
  lemma {:induction false} UnpackAfterPack(curtis: bool, v: PdoVariable)
    requires FieldsFit(v)
    ensures UnpackEntry(curtis, PackEntry(curtis, v)) == (v.index, v.subindex, And(v.length, 0x7F))
    ensures And(v.length, 0x7F) == v.length <==> v.length <= 127
    ensures LengthField(curtis, PackEntry(curtis, v)) == v.length
  {
    var value := PackEntry(curtis, v);
    Powers();
    forall i: nat ensures i < 8 ==> Bit(Shr(value, if curtis then 24 else 0), i) == Bit(v.length, i)
      ensures i < 8 ==> Bit(Shr(value, if curtis then 16 else 8), i) == Bit(v.subindex, i)
      ensures curtis && i < 16 ==> Bit(Shr(value, 0), i) == Bit(v.index, i)
      ensures !curtis ==> Bit(Shr(value, 16), i) == Bit(v.index, i)
    {
      EntryFields(curtis, v, i);
    }
    FieldAt(value, if curtis then 24 else 0, 7, v.length);
    FieldAt(value, if curtis then 24 else 0, 8, v.length);
    FieldAt(value, if curtis then 16 else 8, 8, v.subindex);
    MaskKeeps(v.length, 7);
    MaskKeeps(v.length, 8);
    MaskKeeps(v.subindex, 8);
    MaskKeeps(v.index, 16);
    if curtis {
      FieldAt(value, 0, 16, v.index);
    } else {
      BitsDetermine(Shr(value, 16), v.index);
    }
  }

  lemma {:induction false} ThreeFields(low: nat, middle: nat, high: nat, m: nat, n: nat, i: nat)
    requires low < Pow2(m) && middle < Pow2(n)
    ensures Bit(low + Shl(middle + Shl(high, n), m), i)
            == if i < m then Bit(low, i) else if i < m + n then Bit(middle, i - m) else Bit(high, i - m - n)
  {
    ConcatBit(low, middle + Shl(high, n), m, i);
    if i >= m {
      ConcatBit(middle, high, n, i - m);
    }
  }

  lemma {:induction false} EntryBit(curtis: bool, v: PdoVariable, low: nat, high: nat, m: nat, i: nat)
    requires FieldsFit(v) && m == if curtis then 16 else 8
    requires low == (if curtis then v.index else v.length) && high == if curtis then v.length else v.index
    ensures Bit(PackEntry(curtis, v), i)
            == if i < m then Bit(low, i) else if i < m + 8 then Bit(v.subindex, i - m) else Bit(high, i - m - 8)
  {
    PackEntryBit(curtis, v, i);
    FitBits(v, i);
    if i >= m {
      FitBits(v, i - m);
    }
  }

  lemma {:induction false} FieldsDetermine(value: int, low: nat, middle: nat, high: nat, m: nat, n: nat)
    requires low < Pow2(m) && middle < Pow2(n)
    requires forall i: nat :: Bit(value, i)
                              == if i < m then Bit(low, i) else if i < m + n then Bit(middle, i - m) else Bit(high, i - m - n)
    ensures value == low + (middle + high * Pow2(n)) * Pow2(m)
  {
    var number := low + Shl(middle + Shl(high, n), m);
    forall i: nat ensures Bit(value, i) == Bit(number, i) {
      ThreeFields(low, middle, high, m, n, i);
    }
    BitsDetermine(value, number);
    ShlIsTimes(high, n);
    ShlIsTimes(middle + Shl(high, n), m);
  }

  /** The number the device gets: 0x1600_0108 is eight bits of 0x1600:01, and so is 0x0801_1600 in Curtis order. */
  lemma {:induction false} EntryInNumbers(curtis: bool, v: PdoVariable)
    requires FieldsFit(v)
    ensures PackEntry(curtis, v) == if curtis then v.index + 0x1_0000 * v.subindex + 0x100_0000 * v.length
                                    else 0x1_0000 * v.index + 0x100 * v.subindex + v.length
  {
    var low, high, m := if curtis then v.index else v.length, if curtis then v.length else v.index, if curtis then 16 else 8;
    EntryNumber(curtis, v, PackEntry(curtis, v), low, high, m, 8);
  }

  lemma {:induction false} EntryNumber(curtis: bool, v: PdoVariable, value: int, low: nat, high: nat, m: nat, n: nat)
    requires FieldsFit(v) && value == PackEntry(curtis, v) && n == 8 && m == if curtis then 16 else 8
    requires low == (if curtis then v.index else v.length) && high == if curtis then v.length else v.index
    ensures value == low + (v.subindex + high * 0x100) * (if curtis then 0x1_0000 else 0x100)
  {
    assert Pow2(n) == 0x100 && Pow2(m) == (if curtis then 0x1_0000 else 0x100) by {
      Pow2Adds(n, n);
    }
    forall i: nat
      ensures Bit(value, i)
              == if i < m then Bit(low, i) else if i < m + n then Bit(v.subindex, i - m) else Bit(high, i - m - n)
    {
      EntryBit(curtis, v, low, high, m, i);
    }
    FieldsDetermine(value, low, v.subindex, high, m, n);
  }

  // ----- the list of entries

  /** `add_variable`: appended behind the last entry, or skipped when the object is not known. */
  function Added(od: ObjectDictionary<Format>, entries: seq<PdoVariable>, index: nat, subindex: nat, bits: Option<nat>)
    : seq<PdoVariable>
  {
    match Lookup(od, index, subindex)
    case None => entries
    case Some(format) =>
      entries + [PdoVariable(index, subindex, format, if bits.Some? then bits.value else 8 * format.bytes, Total(entries))]
  }

  /** One entry read; entries with no index or no length are ignored, a negative index is not in any dictionary. */
  function ReadEntry(od: ObjectDictionary<Format>, curtis: bool, entries: seq<PdoVariable>, value: int): seq<PdoVariable> {
    var (index, subindex, size) := UnpackEntry(curtis, value);
    if index <= 0 || subindex < 0 || size <= 0 then entries else Added(od, entries, index, subindex, Some(size))
  }

  function ReadEntries(od: ObjectDictionary<Format>, curtis: bool, values: seq<int>): seq<PdoVariable> {
    if values == [] then []
    else ReadEntry(od, curtis, ReadEntries(od, curtis, values[..|values| - 1]), values[|values| - 1])
  }

  /** An entry that reading finds again. */
  predicate Readable(od: ObjectDictionary<Format>, v: PdoVariable) {
    v.index > 0 && 1 <= v.length <= 127 && Lookup(od, v.index, v.subindex) == Some(v.format)
  }

  lemma {:induction false} ReadEntryBack(od: ObjectDictionary<Format>, curtis: bool, entries: seq<PdoVariable>, v: PdoVariable)
    requires FieldsFit(v) && v.offset == Total(entries)
    ensures Readable(od, v) <==> ReadEntry(od, curtis, entries, PackEntry(curtis, v)) == entries + [v]
  {
    UnpackAfterPack(curtis, v);
    var after := ReadEntry(od, curtis, entries, PackEntry(curtis, v));
    if after == entries + [v] {
      assert after[|entries|] == v;
    }
  }

  lemma {:induction false} ReadEntryExtends(od: ObjectDictionary<Format>, curtis: bool, entries: seq<PdoVariable>, value: int)
    ensures var after := ReadEntry(od, curtis, entries, value);
            after == entries || (|after| == |entries| + 1 && after[..|entries|] == entries)
  {
  }

  lemma {:induction false} ReadEntriesGrow(od: ObjectDictionary<Format>, curtis: bool, values: seq<int>)
    ensures |ReadEntries(od, curtis, values)| <= |values|
  {
    if values != [] {
      ReadEntriesGrow(od, curtis, values[..|values| - 1]);
    }
  }

  /** Reading finds exactly the mapped entries again if and only if every one of them is readable. */
  lemma {:induction false} EntriesRoundTrip(od: ObjectDictionary<Format>, curtis: bool, entries: seq<PdoVariable>)
    requires Laid(entries) && forall v :: v in entries ==> FieldsFit(v)
    ensures ReadEntries(od, curtis, PackAll(curtis, entries)) == entries <==> forall v :: v in entries ==> Readable(od, v)
    decreases |entries|
  {
    if entries != [] {
      var n := |entries| - 1;
      var front, v, packed := entries[..n], entries[n], PackAll(curtis, entries);
      assert packed[..n] == PackAll(curtis, front) && packed[n] == PackEntry(curtis, v);
      LaidPrefix(entries, n);
      EntriesRoundTrip(od, curtis, front);
      ReadEntriesGrow(od, curtis, packed[..n]);
      OneEntryRoundTrip(od, curtis, ReadEntries(od, curtis, packed[..n]), front, v);
      AllReadable(od, entries, front, v);
    }
  }

  lemma {:induction false} AllReadable(od: ObjectDictionary<Format>, entries: seq<PdoVariable>, front: seq<PdoVariable>, v: PdoVariable)
    requires entries != [] && front == entries[..|entries| - 1] && v == entries[|entries| - 1]
    ensures entries == front + [v]
    ensures (forall x :: x in entries ==> Readable(od, x)) <==> (forall x :: x in front ==> Readable(od, x)) && Readable(od, v)
  {
    assert entries == front + [v];
  }

  /** Behind no more entries than were saved, one more entry read gives what was saved only if both are right. */
  lemma {:induction false} OneEntryRoundTrip(
      od: ObjectDictionary<Format>, curtis: bool, before: seq<PdoVariable>, saved: seq<PdoVariable>, v: PdoVariable)
    requires |before| <= |saved| && FieldsFit(v) && v.offset == Total(saved)
    ensures ReadEntry(od, curtis, before, PackEntry(curtis, v)) == saved + [v] <==> before == saved && Readable(od, v)
  {
    ReadEntryExtends(od, curtis, before, PackEntry(curtis, v));
    if before == saved {
      ReadEntryBack(od, curtis, before, v);
    }
  }

  lemma {:induction false} LaidPrefix(entries: seq<PdoVariable>, n: nat)
    requires Laid(entries) && n <= |entries|
    ensures Laid(entries[..n])
  {
    forall k | 0 <= k < n ensures entries[..n][..k] == entries[..k] {
    }
  }

  /** On the device the entries add up to the length of the message. */
  lemma {:induction false} PackedLength(curtis: bool, entries: seq<PdoVariable>)
    requires forall v :: v in entries ==> FieldsFit(v)
    ensures MappedLength(curtis, PackAll(curtis, entries)) == Total(entries)
    decreases |entries|
  {
    if entries != [] {
      var n := |entries| - 1;
      assert PackAll(curtis, entries)[..n] == PackAll(curtis, entries[..n]);
      PackedLength(curtis, entries[..n]);
      UnpackAfterPack(curtis, entries[n]);
    }
  }

  // ----- the COB-ID and its flags

  lemma {:induction false} FlagTest(x: int, n: nat)
    ensures And(x, Shl(1, n)) == 0 <==> !Bit(x, n)
  {
    forall i: nat ensures Bit(And(x, Shl(1, n)), i) == (Bit(x, n) && i == n) {
      AndBit(x, Shl(1, n), i);
      OneShlBit(n, i);
    }
    ConstantBits(n);
    if !Bit(x, n) {
      forall i: nat ensures Bit(And(x, Shl(1, n)), i) == Bit(0, i) {
        ConstantBits(i);
      }
      BitsDetermine(And(x, Shl(1, n)), 0);
    }
  }

  /** The COB-ID is read back exactly when it has 29 bits, and then so are both flags. */
  lemma {:induction false} CobIdReadBack(cobId: int, rtrAllowed: bool, enabled: bool)
    ensures var raw := if enabled then EnabledCobId(cobId, rtrAllowed) else DisabledCobId(cobId, rtrAllowed);
            && (And(raw, 0x1FFF_FFFF) == cobId <==> 0 <= cobId < 0x2000_0000)
            && (0 <= cobId < 0x2000_0000 ==> (And(raw, PDO_NOT_VALID) == 0 <==> enabled)
                                             && (And(raw, RTR_NOT_ALLOWED) == 0 <==> rtrAllowed))
  {
    var raw := if enabled then EnabledCobId(cobId, rtrAllowed) else DisabledCobId(cobId, rtrAllowed);
    Powers();
    forall i: nat ensures Bit(And(raw, LowMask(29)), i) == Bit(And(cobId, LowMask(29)), i) {
      AndBit(raw, LowMask(29), i);
      AndBit(cobId, LowMask(29), i);
      LowMaskBit(29, i);
      CobIdBit(cobId, rtrAllowed, i);
    }
    BitsDetermine(And(raw, LowMask(29)), And(cobId, LowMask(29)));
    MaskKeeps(cobId, 29);
    FlagTest(raw, 31);
    FlagTest(raw, 30);
    CobIdBit(cobId, rtrAllowed, 31);
    CobIdBit(cobId, rtrAllowed, 30);
    if 0 <= cobId < 0x2000_0000 {
      NonNegativeRange(cobId, 29);
    }
  }

  /** A bit above all others adds its value. */
  lemma {:induction false} OrAdds(x: nat, n: nat)
    requires x < Pow2(n)
    ensures Or(x, Shl(1, n)) == x + Pow2(n)
  {
    NonNegativeRange(x, n);
    forall i: nat ensures Bit(Or(x, Shl(1, n)), i) == Bit(x + Shl(1, n), i) {
      OrBit(x, Shl(1, n), i);
      OneShlBit(n, i);
      ConcatBit(x, 1, n, i);
      if i >= n {
        ConstantBits(i - n);
      }
    }
    BitsDetermine(Or(x, Shl(1, n)), x + Shl(1, n));
    ShlIsTimes(1, n);
  }

  lemma {:induction false} OrSwaps(x: int, y: int, z: int)
    ensures Or(Or(x, y), z) == Or(Or(x, z), y)
  {
    forall i: nat ensures Bit(Or(Or(x, y), z), i) == Bit(Or(Or(x, z), y), i) {
      OrBit(x, y, i);
      OrBit(x, z, i);
      OrBit(Or(x, y), z, i);
      OrBit(Or(x, z), y, i);
    }
    BitsDetermine(Or(Or(x, y), z), Or(Or(x, z), y));
  }

  /** The COB-ID entry in numbers: bit 31 disables the PDO, bit 30 forbids remote requests. */
  lemma {:induction false} CobIdInNumbers(cobId: nat, rtrAllowed: bool)
    requires cobId < 0x2000_0000
    ensures EnabledCobId(cobId, rtrAllowed) == cobId + if rtrAllowed then 0 else 0x4000_0000
    ensures DisabledCobId(cobId, rtrAllowed) == EnabledCobId(cobId, rtrAllowed) + 0x8000_0000
  {
    Powers();
    Pow2Adds(29, 1);
    Pow2Adds(30, 1);
    NothingAdded(cobId);
    NothingAdded(Or(cobId, PDO_NOT_VALID));
    OrSwaps(cobId, PDO_NOT_VALID, RTR_NOT_ALLOWED);
    OrAdds(cobId, 30);
    OrAdds(EnabledCobId(cobId, rtrAllowed), 31);
  }

  lemma {:induction false} NothingAdded(x: int)
    ensures Or(x, 0) == x
  {
    forall i: nat ensures Bit(Or(x, 0), i) == Bit(x, i) {
      OrBit(x, 0, i);
      ConstantBits(i);
    }
    BitsDetermine(Or(x, 0), x);
  }

  // ----- reading everything

  datatype PdoError = KeyError | Aborted

  /** A parameter missing from the dictionary keeps its value; one missing from the device aborts the read. */
  function ReadParameter(r: Records, subindex: nat, kept: Option<int>, present: Option<int>): Result<Option<int>, PdoError> {
    if subindex !in r.com then Ok(kept)
    else if present.None? then Err(Aborted)
    else Ok(present)
  }

  /** The settings after reading the communication record; `s` are the settings before. */
  function ReadSettings(d: Device, r: Records, s: Settings): Result<Settings, PdoError> {
    if 2 !in r.com then Err(KeyError)
    else
      var read := s.(cobId := Some(And(d.cobId, 0x1FFF_FFFF)), enabled := And(d.cobId, PDO_NOT_VALID) == 0,
                     rtrAllowed := And(d.cobId, RTR_NOT_ALLOWED) == 0, transType := Some(d.transType));
      if d.transType < 254 then Ok(read)
      else match ReadParameter(r, 3, s.inhibitTime, d.inhibitTime)
        case Err(e) => Err(e)
        case Ok(inhibitTime) => match ReadParameter(r, 5, s.eventTimer, d.eventTimer)
          case Err(e) => Err(e)
          case Ok(eventTimer) => match ReadParameter(r, 6, s.syncStart, d.syncStart)
            case Err(e) => Err(e)
            case Ok(syncStart) =>
              Ok(read.(inhibitTime := inhibitTime, eventTimer := eventTimer, syncStart := syncStart))
  }

  /** The entries the device maps; the first one missing from the dictionary or the device ends the read. */
  function ReadMapping(d: Device, r: Records, od: ObjectDictionary<Format>): Result<seq<PdoVariable>, PdoError> {
    if d.count > |r.slotWritable| && |r.slotWritable| <= |d.slots| then Err(KeyError)
    else if d.count > |d.slots| then Err(Aborted)
    else Ok(ReadEntries(od, r.curtis, d.slots[..d.count]))
  }

  /** Every parameter of the dictionary exists on the device. */
  predicate Present(d: Device, r: Records) {
    (3 in r.com ==> d.inhibitTime.Some?) && (5 in r.com ==> d.eventTimer.Some?) && (6 in r.com ==> d.syncStart.Some?)
  }

  /** A parameter that the save wrote. */
  predicate Kept(r: Records, subindex: nat, value: Option<int>) {
    value.Some? && subindex in r.com && r.com[subindex]
  }

  /** `t` agrees with `s` in everything that is always read, and in the timing parameters that are read and were saved. */
  predicate SameSettings(s: Settings, t: Settings, r: Records) {
    && t.cobId == s.cobId && t.enabled == s.enabled && t.rtrAllowed == s.rtrAllowed && t.transType == s.transType
    && (s.transType.Some? && s.transType.value >= 254 ==>
          && (Kept(r, 3, s.inhibitTime) ==> t.inhibitTime == s.inhibitTime)
          && (Kept(r, 5, s.eventTimer) ==> t.eventTimer == s.eventTimer)
          && (Kept(r, 6, s.syncStart) ==> t.syncStart == s.syncStart))
  }

  /** The settings a save puts on the device and a read takes from it. */
  predicate SavedSettings(s: Settings, r: Records) {
    && s.cobId.Some? && 0 <= s.cobId.value < 0x2000_0000
    && Complete(s, r) && Kept(r, 2, s.transType)
  }

  /** The entries fit their fields, have a writable entry each, and can be read again. */
  ghost predicate SavedEntries(od: ObjectDictionary<Format>, entries: seq<PdoVariable>, r: Records) {
    && Laid(entries) && |entries| <= |r.slotWritable|
    && (forall i :: 0 <= i < |entries| ==> r.slotWritable[i])
    && forall v :: v in entries ==> FieldsFit(v) && Readable(od, v)
  }

  /** A save of writable entries goes through exactly when the message has at most 64 bits and the device the objects. */
  lemma {:induction false} SaveAcceptedIff(
      d: Device, s: Settings, entries: seq<PdoVariable>, r: Records, od: ObjectDictionary<Format>)
    requires s.cobId.Some? && Complete(s, r) && SavedEntries(od, entries, r) && d.curtis == r.curtis
    ensures Apply(d, SaveWrites(s, PackAll(r.curtis, entries), r)).1
            <==> Writable(d, s, r) && |entries| <= |d.slots| && Total(entries) <= 64
  {
    var packed := PackAll(r.curtis, entries);
    SaveEffect(d, s, packed, r);
    PackedLength(r.curtis, entries);
    if |entries| <= |d.slots| {
      MappingCompleteIff(d, packed, r);
    }
  }

  lemma {:induction false} SettingsReadBack(d: Device, e: Device, s: Settings, packed: seq<int>, r: Records, before: Settings)
    requires SavedSettings(s, r) && Configured(d, e, s, packed, r)
    requires e.cobId == if s.enabled then EnabledCobId(s.cobId.value, s.rtrAllowed) else Disable(s).value
    ensures var read := ReadSettings(e, r, before);
            && (read.Ok? <==> s.transType.value < 254 || Present(e, r))
            && (read.Ok? ==> SameSettings(s, read.value, r))
  {
    CobIdReadBack(s.cobId.value, s.rtrAllowed, s.enabled);
  }

  /**
   Saving, then reading with a map in any state: once the device has stored every write, the same
   COB-ID, flags, transmission type, timing parameters and list of entries come back.
   */
  lemma {:induction false} ReadUndoesSave(
      d: Device, s: Settings, entries: seq<PdoVariable>, r: Records, od: ObjectDictionary<Format>, before: Settings)
    requires SavedSettings(s, r) && SavedEntries(od, entries, r) && d.curtis == r.curtis
    requires Apply(d, SaveWrites(s, PackAll(r.curtis, entries), r)).1
    ensures var e := Apply(d, SaveWrites(s, PackAll(r.curtis, entries), r)).0;
            var read := ReadSettings(e, r, before);
            && ReadMapping(e, r, od) == Ok(entries)
            && (read.Ok? <==> s.transType.value < 254 || Present(e, r))
            && (read.Ok? ==> SameSettings(s, read.value, r))
  {
    var packed := PackAll(r.curtis, entries);
    SaveEffect(d, s, packed, r);
    var e := Apply(d, SaveWrites(s, packed, r)).0;
    SettingsReadBack(d, e, s, packed, r, before);
    MappingCompleteIff(d, packed, r);
    EntriesRoundTrip(od, r.curtis, entries);
  }
}

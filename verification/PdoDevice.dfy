/**
 Saving a PDO configuration to a device (`PdoMap.save_generator`): the ordered writes, a device that
 applies the rules of section 7.5.2.36 of CiA 301, and what every prefix of the writes leaves behind.
 */
module PdoDevice {
  import opened Common
  import opened Bits
  import opened PdoBuffer

  const PDO_NOT_VALID: int := Shl(1, 31)
  const RTR_NOT_ALLOWED: int := Shl(1, 30)

  // ----- the device

  /** The objects of one PDO: its communication record, the number of mapped entries, and the entries. */
  datatype Object = CobId | TransType | InhibitTime | EventTimer | SyncStart | MapCount | MapSlot(i: nat)

  datatype Write = Write(target: Object, value: int)

  datatype Device = Device(cobId: int, transType: int, inhibitTime: Option<int>, eventTimer: Option<int>,
                           syncStart: Option<int>, count: nat, slots: seq<int>, curtis: bool)
  {
    /** Bit 31 of the COB-ID clear: the PDO exists, and most of its objects cannot be changed. */
    predicate Exists() {
      !Bit(cobId, 31)
    }

    /** One write; `None` is an abort, which leaves the device as it was. */
    function Store(w: Write): Option<Device> {
      match w.target
      case CobId =>
        if Exists() && !Bit(w.value, 31) && And(w.value, LowMask(30)) != And(cobId, LowMask(30)) then None
        else Some(this.(cobId := w.value))
      case TransType => Some(this.(transType := w.value))
      case InhibitTime => if Exists() || inhibitTime.None? then None else Some(this.(inhibitTime := Some(w.value)))
      case EventTimer => if eventTimer.None? then None else Some(this.(eventTimer := Some(w.value)))
      case SyncStart => if Exists() || syncStart.None? then None else Some(this.(syncStart := Some(w.value)))
      case MapCount =>
        if Exists() || w.value < 0 || w.value > |slots| || MappedLength(curtis, slots[..w.value]) > 64 then None
        else Some(this.(count := w.value))
      case MapSlot(i) =>
        if Exists() || count != 0 || i >= |slots| then None
        else Some(this.(slots := slots[i := w.value]))
    }
  }

  /** Bits a list of mapping entries adds up to. */
  function MappedLength(curtis: bool, entries: seq<int>): int {
    if entries == [] then 0
    else MappedLength(curtis, entries[..|entries| - 1]) + LengthField(curtis, entries[|entries| - 1])
  }

  function LengthField(curtis: bool, entry: int): int {
    And(if curtis then Shr(entry, 24) else entry, 0xFF)
  }

  /** The device after the writes, and whether all of them were accepted; the first abort ends the save. */
  function Apply(d: Device, ws: seq<Write>): (Device, bool)
    decreases |ws|
  {
    if ws == [] then (d, true)
    else match d.Store(ws[0])
      case None => (d, false)
      case Some(e) => Apply(e, ws[1..])
  }

  // ----- the writes of a save

  datatype Settings = Settings(cobId: Option<int>, enabled: bool, rtrAllowed: bool, transType: Option<int>,
                               inhibitTime: Option<int>, eventTimer: Option<int>, syncStart: Option<int>)

  /** What the object dictionary says about the records of the PDO: `com` tells which subindices are writable. */
  datatype Records = Records(com: map<nat, bool>, slotWritable: seq<bool>, curtis: bool)

  /** A mapping entry as the device stores it, with the fields in the order of CiA 301 or in Curtis order. */
  function PackEntry(curtis: bool, v: PdoVariable): int {
    if curtis then Or(Or(v.index, Shl(v.subindex, 16)), Shl(v.length, 24))
    else Or(Or(Shl(v.index, 16), Shl(v.subindex, 8)), v.length)
  }

  function DisabledCobId(cobId: int, rtrAllowed: bool): int {
    Or(Or(cobId, PDO_NOT_VALID), if rtrAllowed then 0 else RTR_NOT_ALLOWED)
  }

  function EnabledCobId(cobId: int, rtrAllowed: bool): int {
    Or(cobId, if rtrAllowed then 0 else RTR_NOT_ALLOWED)
  }

  /** A parameter that is unset or not writable is skipped. */
  function ComWrite(r: Records, target: Object, subindex: nat, value: Option<int>): seq<Write> {
    if value.Some? && subindex in r.com && r.com[subindex] then [Write(target, value.value)] else []
  }

  function ComWrites(s: Settings, r: Records): seq<Write> {
    ComWrite(r, TransType, 2, s.transType) + ComWrite(r, InhibitTime, 3, s.inhibitTime)
    + ComWrite(r, EventTimer, 5, s.eventTimer) + ComWrite(r, SyncStart, 6, s.syncStart)
  }

  /** Looking up a parameter that is set but missing from the record raises. */
  predicate Complete(s: Settings, r: Records) {
    && (s.transType.Some? ==> 2 in r.com) && (s.inhibitTime.Some? ==> 3 in r.com)
    && (s.eventTimer.Some? ==> 5 in r.com) && (s.syncStart.Some? ==> 6 in r.com)
  }

  /** Mapping entry `i`, skipped if it is not writable or not there. */
  function SlotWrite(packed: seq<int>, r: Records, i: nat): seq<Write>
    requires i < |packed|
  {
    if i < |r.slotWritable| && r.slotWritable[i] then [Write(MapSlot(i), packed[i])] else []
  }

  /** The first `n` mapping entries. */
  function SlotWrites(packed: seq<int>, r: Records, n: nat): seq<Write>
    requires n <= |packed|
  {
    if n == 0 then [] else SlotWrites(packed, r, n - 1) + SlotWrite(packed, r, n - 1)
  }

  function PackAll(curtis: bool, entries: seq<PdoVariable>): (packed: seq<int>)
    ensures |packed| == |entries|
  {
    seq(|entries|, i requires 0 <= i < |entries| => PackEntry(curtis, entries[i]))
  }

  function MappingWrites(packed: seq<int>, r: Records): seq<Write> {
    [Write(MapCount, 0)] + SlotWrites(packed, r, |packed|) + [Write(MapCount, |packed|)]
  }

  /** Everything between the write that disables the PDO and the one that enables it again. */
  function MiddleWrites(s: Settings, packed: seq<int>, r: Records): seq<Write> {
    ComWrites(s, r) + MappingWrites(packed, r)
  }

  /** All writes of a save, in order; a PDO whose COB-ID was never set is not saved. */
  function SaveWrites(s: Settings, packed: seq<int>, r: Records): seq<Write> {
    if s.cobId.None? then [] else [Disable(s)] + RestWrites(s, packed, r)
  }

  /** What follows the first write; the lookup that raises does so before anything else is written. */
  function RestWrites(s: Settings, packed: seq<int>, r: Records): seq<Write>
    requires s.cobId.Some?
  {
    if Complete(s, r) then MiddleWrites(s, packed, r) + EnableWrites(s) else []
  }

  function Disable(s: Settings): Write
    requires s.cobId.Some?
  {
    Write(CobId, DisabledCobId(s.cobId.value, s.rtrAllowed))
  }

  function EnableWrites(s: Settings): seq<Write>
    requires s.cobId.Some?
  {
    if s.enabled then [Write(CobId, EnabledCobId(s.cobId.value, s.rtrAllowed))] else []
  }

  /** Each of the four parameters is written, from its own subindex, exactly when it is set and writable. */
  lemma {:induction false} ComWritten(s: Settings, r: Records, x: int)
    ensures Write(TransType, x) in ComWrites(s, r) <==> s.transType == Some(x) && 2 in r.com && r.com[2]
    ensures Write(InhibitTime, x) in ComWrites(s, r) <==> s.inhibitTime == Some(x) && 3 in r.com && r.com[3]
    ensures Write(EventTimer, x) in ComWrites(s, r) <==> s.eventTimer == Some(x) && 5 in r.com && r.com[5]
    ensures Write(SyncStart, x) in ComWrites(s, r) <==> s.syncStart == Some(x) && 6 in r.com && r.com[6]
  {
  }

  lemma {:induction false} AllSlots(packed: seq<int>, r: Records, n: nat)
    requires n <= |packed| <= |r.slotWritable| && forall i :: 0 <= i < |packed| ==> r.slotWritable[i]
    ensures SlotWrites(packed, r, n) == seq(n, i requires 0 <= i < n => Write(MapSlot(i), packed[i]))
  {
    if n > 0 {
      AllSlots(packed, r, n - 1);
    }
  }

  lemma {:induction false} AllParameters(s: Settings, r: Records)
    requires s.transType.Some? && s.inhibitTime.Some? && s.eventTimer.Some? && s.syncStart.Some?
    requires forall k :: k in {2, 3, 5, 6} ==> k in r.com && r.com[k]
    ensures Complete(s, r)
    ensures ComWrites(s, r) == [Write(TransType, s.transType.value), Write(InhibitTime, s.inhibitTime.value),
                                Write(EventTimer, s.eventTimer.value), Write(SyncStart, s.syncStart.value)]
  {
    assert 2 in {2, 3, 5, 6} && 3 in {2, 3, 5, 6} && 5 in {2, 3, 5, 6} && 6 in {2, 3, 5, 6};
  }

  /** A whole save with everything set and writable: disable, parameters, count 0, entries, count, enable. */
  lemma {:induction false} FullSave(s: Settings, packed: seq<int>, r: Records)
    requires s.cobId.Some? && s.transType.Some? && s.inhibitTime.Some? && s.eventTimer.Some? && s.syncStart.Some?
    requires forall k :: k in {2, 3, 5, 6} ==> k in r.com && r.com[k]
    requires |packed| <= |r.slotWritable| && forall i :: 0 <= i < |packed| ==> r.slotWritable[i]
    ensures SaveWrites(s, packed, r)
            == [Write(CobId, DisabledCobId(s.cobId.value, s.rtrAllowed)), Write(TransType, s.transType.value),
                Write(InhibitTime, s.inhibitTime.value), Write(EventTimer, s.eventTimer.value),
                Write(SyncStart, s.syncStart.value), Write(MapCount, 0)]
               + seq(|packed|, i requires 0 <= i < |packed| => Write(MapSlot(i), packed[i]))
               + [Write(MapCount, |packed|)]
               + if s.enabled then [Write(CobId, EnabledCobId(s.cobId.value, s.rtrAllowed))] else []
  {
    AllSlots(packed, r, |packed|);
    AllParameters(s, r);
  }

  // ----- runs of writes

  lemma {:induction false} ApplyConcat(d: Device, a: seq<Write>, b: seq<Write>)
    ensures Apply(d, a + b) == if Apply(d, a).1 then Apply(Apply(d, a).0, b) else Apply(d, a)
    decreases |a|
  {
    if a == [] {
      assert a + b == b;
    } else {
      assert (a + b)[1..] == a[1..] + b && (a + b)[0] == a[0];
      match d.Store(a[0])
      case None =>
      case Some(e) => ApplyConcat(e, a[1..], b);
    }
  }

  ghost predicate NoCobId(ws: seq<Write>) {
    forall w :: w in ws ==> w.target != CobId
  }

  lemma {:induction false} CobIdStays(d: Device, ws: seq<Write>)
    requires NoCobId(ws)
    ensures Apply(d, ws).0.cobId == d.cobId && |Apply(d, ws).0.slots| == |d.slots|
    decreases |ws|
  {
    if ws != [] {
      assert ws[0] in ws && forall w :: w in ws[1..] ==> w in ws;
      match d.Store(ws[0])
      case None =>
      case Some(e) => CobIdStays(e, ws[1..]);
    }
  }

  lemma {:induction false} MiddleHasNoCobId(s: Settings, packed: seq<int>, r: Records)
    ensures NoCobId(MiddleWrites(s, packed, r))
  {
    SlotsHaveNoCobId(packed, r, |packed|);
  }

  lemma {:induction false} SlotsHaveNoCobId(packed: seq<int>, r: Records, n: nat)
    requires n <= |packed|
    ensures NoCobId(SlotWrites(packed, r, n))
  {
    if n > 0 {
      SlotsHaveNoCobId(packed, r, n - 1);
    }
  }

  // ----- what the writes do to a disabled PDO

  /** The mapping objects of `e` are those of `d`. */
  predicate SameMapping(d: Device, e: Device) {
    e.count == d.count && e.slots == d.slots && e.curtis == d.curtis && e.cobId == d.cobId
  }

  /** The communication parameters of `e` are those of `d`. */
  predicate SameCom(d: Device, e: Device) {
    && e.transType == d.transType && e.inhibitTime == d.inhibitTime && e.eventTimer == d.eventTimer
    && e.syncStart == d.syncStart && e.curtis == d.curtis && e.cobId == d.cobId && |e.slots| == |d.slots|
  }

  /** A parameter after the save: the saved value where it was written, the device's own otherwise. */
  function Saved<T>(r: Records, subindex: nat, value: Option<int>, present: T, wrap: int -> T): T {
    if value.Some? && subindex in r.com && r.com[subindex] then wrap(value.value) else present
  }

  /** The communication parameters after the save. */
  ghost predicate ComSaved(d: Device, e: Device, s: Settings, r: Records) {
    && e.transType == Saved(r, 2, s.transType, d.transType, x => x)
    && e.inhibitTime == Saved(r, 3, s.inhibitTime, d.inhibitTime, x => Some(x))
    && e.eventTimer == Saved(r, 5, s.eventTimer, d.eventTimer, x => Some(x))
    && e.syncStart == Saved(r, 6, s.syncStart, d.syncStart, x => Some(x))
  }

  /** A parameter the save writes exists on the device. */
  predicate Writable(d: Device, s: Settings, r: Records) {
    && (ComWrite(r, InhibitTime, 3, s.inhibitTime) != [] ==> d.inhibitTime.Some?)
    && (ComWrite(r, EventTimer, 5, s.eventTimer) != [] ==> d.eventTimer.Some?)
    && (ComWrite(r, SyncStart, 6, s.syncStart) != [] ==> d.syncStart.Some?)
  }

  lemma {:induction false} ComStep(d: Device, r: Records, target: Object, subindex: nat, value: Option<int>)
    requires !d.Exists() && target in {TransType, InhibitTime, EventTimer, SyncStart}
    ensures var (e, ok) := Apply(d, ComWrite(r, target, subindex, value));
            var writes := ComWrite(r, target, subindex, value) != [];
            && SameMapping(d, e)
            && (ok <==> (writes ==> match target
                                    case InhibitTime => d.inhibitTime.Some?
                                    case EventTimer => d.eventTimer.Some?
                                    case SyncStart => d.syncStart.Some?
                                    case _ => true))
            && (ok ==> && e.transType == (if writes && target == TransType then value.value else d.transType)
                       && e.inhibitTime == (if writes && target == InhibitTime then value else d.inhibitTime)
                       && e.eventTimer == (if writes && target == EventTimer then value else d.eventTimer)
                       && e.syncStart == (if writes && target == SyncStart then value else d.syncStart))
  {
    var ws := ComWrite(r, target, subindex, value);
    if ws != [] {
      assert ws[1..] == [];
      match d.Store(ws[0])
      case None =>
      case Some(e) => assert Apply(e, []) == (e, true);
    }
  }

  lemma {:induction false} ComEffect(d: Device, s: Settings, r: Records)
    requires !d.Exists()
    ensures var (e, ok) := Apply(d, ComWrites(s, r));
            (ok <==> Writable(d, s, r)) && (ok ==> SameMapping(d, e) && ComSaved(d, e, s, r))
  {
    var a, b := ComWrite(r, TransType, 2, s.transType), ComWrite(r, InhibitTime, 3, s.inhibitTime);
    var c, f := ComWrite(r, EventTimer, 5, s.eventTimer), ComWrite(r, SyncStart, 6, s.syncStart);
    ApplyConcat(d, a + b + c, f);
    ApplyConcat(d, a + b, c);
    ApplyConcat(d, a, b);
    ComStep(d, r, TransType, 2, s.transType);
    ComStep(Apply(d, a).0, r, InhibitTime, 3, s.inhibitTime);
    if Apply(d, a + b).1 {
      ComStep(Apply(d, a + b).0, r, EventTimer, 5, s.eventTimer);
      if Apply(d, a + b + c).1 {
        ComStep(Apply(d, a + b + c).0, r, SyncStart, 6, s.syncStart);
      }
    }
  }

  /** Entry `i` of the device after the save. */
  function SlotAfter(d: Device, packed: seq<int>, r: Records, n: nat, i: nat): int
    requires n <= |packed| && i < |d.slots|
  {
    if i < n && i < |r.slotWritable| && r.slotWritable[i] then packed[i] else d.slots[i]
  }

  lemma {:induction false} ApplyOne(d: Device, w: Write)
    ensures Apply(d, [w]) == match d.Store(w) case None => (d, false) case Some(e) => (e, true)
  {
    assert [w][1..] == [];
    match d.Store(w)
    case None =>
    case Some(e) => assert Apply(e, []) == (e, true);
  }

  /** The first `n` entries are written on a disabled PDO that maps nothing. */
  ghost predicate SlotsDone(d: Device, e: Device, ok: bool, packed: seq<int>, r: Records, n: nat)
    requires n <= |packed|
  {
    && SameCom(d, e) && e.count == 0
    && (n <= |d.slots| ==> ok)
    && (ok ==> forall i :: 0 <= i < |d.slots| ==> e.slots[i] == SlotAfter(d, packed, r, n, i))
  }

  lemma {:induction false} SlotsEffect(d: Device, packed: seq<int>, r: Records, n: nat)
    requires !d.Exists() && d.count == 0 && n <= |packed|
    ensures var (e, ok) := Apply(d, SlotWrites(packed, r, n)); SlotsDone(d, e, ok, packed, r, n)
  {
    if n > 0 {
      var (e, ok) := Apply(d, SlotWrites(packed, r, n - 1));
      SlotsEffect(d, packed, r, n - 1);
      ApplyConcat(d, SlotWrites(packed, r, n - 1), SlotWrite(packed, r, n - 1));
      SlotStep(d, e, ok, packed, r, n);
    }
  }

  lemma {:induction false} SlotStep(d: Device, e: Device, ok: bool, packed: seq<int>, r: Records, n: nat)
    requires !d.Exists() && 0 < n <= |packed| && SlotsDone(d, e, ok, packed, r, n - 1)
    ensures var (f, fine) := if ok then Apply(e, SlotWrite(packed, r, n - 1)) else (e, false);
            SlotsDone(d, f, fine, packed, r, n)
  {
    if n <= |r.slotWritable| && r.slotWritable[n - 1] {
      ApplyOne(e, Write(MapSlot(n - 1), packed[n - 1]));
    }
  }

  lemma {:induction false} CountStep(d: Device, n: nat)
    requires !d.Exists()
    ensures var (e, ok) := Apply(d, [Write(MapCount, n)]);
            && SameCom(d, e) && e.slots == d.slots && (ok ==> e.count == n) && (!ok ==> e == d)
            && (ok <==> n <= |d.slots| && MappedLength(d.curtis, d.slots[..n]) <= 64)
  {
    ApplyOne(d, Write(MapCount, n));
  }

  /** The entries a save leaves on the device, as many as it maps. */
  function MappingAfter(d: Device, packed: seq<int>, r: Records): seq<int>
    requires |packed| <= |d.slots|
  {
    seq(|packed|, i requires 0 <= i < |packed| => SlotAfter(d, packed, r, |packed|, i))
  }

  /** The mapping part of the save, from a device whose PDO is disabled. */
  lemma {:induction false} MappingEffect(d: Device, packed: seq<int>, r: Records)
    requires !d.Exists()
    ensures var (e, ok) := Apply(d, MappingWrites(packed, r));
            && SameCom(d, e)
            && (ok ==> |packed| <= |d.slots| && e.count == |packed| && e.slots[..|packed|] == MappingAfter(d, packed, r))
            && (ok <==> |packed| <= |d.slots| && MappedLength(d.curtis, MappingAfter(d, packed, r)) <= 64)
  {
    var a, b, c := [Write(MapCount, 0)], SlotWrites(packed, r, |packed|), [Write(MapCount, |packed|)];
    ApplyConcat(d, a + b, c);
    ApplyConcat(d, a, b);
    CountStep(d, 0);
    assert d.slots[..0] == [];
    var e := Apply(d, a).0;
    SlotsEffect(e, packed, r, |packed|);
    var f := Apply(d, a + b).0;
    CountStep(f, |packed|);
    if |packed| <= |d.slots| {
      assert f.slots[..|packed|] == MappingAfter(d, packed, r);
    }
  }

  // ----- the bits of the COB-ID

  lemma {:induction false} CobIdBit(cobId: int, rtrAllowed: bool, i: nat)
    ensures Bit(EnabledCobId(cobId, rtrAllowed), i) == (Bit(cobId, i) || (!rtrAllowed && i == 30))
    ensures Bit(DisabledCobId(cobId, rtrAllowed), i) == (Bit(cobId, i) || i == 31 || (!rtrAllowed && i == 30))
  {
    var rtr := if rtrAllowed then 0 else RTR_NOT_ALLOWED;
    OrBit(cobId, PDO_NOT_VALID, i);
    OrBit(Or(cobId, PDO_NOT_VALID), rtr, i);
    OrBit(cobId, rtr, i);
    OneShlBit(31, i);
    OneShlBit(30, i);
    ConstantBits(i);
  }

  /** The first write of a save is never refused, and it disables the PDO. */
  lemma {:induction false} DisableStep(d: Device, s: Settings)
    requires s.cobId.Some?
    ensures d.Store(Disable(s)) == Some(d.(cobId := Disable(s).value)) && !d.(cobId := Disable(s).value).Exists()
  {
    CobIdBit(s.cobId.value, s.rtrAllowed, 31);
  }

  // ----- the whole save

  predicate MappingFits(d: Device, packed: seq<int>, r: Records) {
    |packed| <= |d.slots| && MappedLength(d.curtis, MappingAfter(d, packed, r)) <= 64
  }

  /** `e` is `d` with the parameters and the mapping that a save writes, and the matching number of entries. */
  ghost predicate Configured(d: Device, e: Device, s: Settings, packed: seq<int>, r: Records) {
    && ComSaved(d, e, s, r)
    && |packed| <= |d.slots| == |e.slots| && e.count == |packed| && e.slots[..e.count] == MappingAfter(d, packed, r)
    && e.curtis == d.curtis
  }

  lemma {:induction false} MiddleEffect(d: Device, s: Settings, packed: seq<int>, r: Records)
    requires !d.Exists()
    ensures var (e, ok) := Apply(d, MiddleWrites(s, packed, r));
            && e.cobId == d.cobId
            && (ok <==> Writable(d, s, r) && MappingFits(d, packed, r))
            && (!ok || Configured(d, e, s, packed, r))
  {
    var coms, mapping := ComWrites(s, r), MappingWrites(packed, r);
    MiddleHasNoCobId(s, packed, r);
    CobIdStays(d, MiddleWrites(s, packed, r));
    ApplyConcat(d, coms, mapping);
    ComEffect(d, s, r);
    var e := Apply(d, coms).0;
    if Apply(d, coms).1 {
      MappingEffect(e, packed, r);
      if |packed| <= |d.slots| {
        assert MappingAfter(e, packed, r) == MappingAfter(d, packed, r);
      }
    }
  }

  /** A run that stops after any number of writes. */
  function Interrupted(d: Device, ws: seq<Write>, k: nat): Device
    requires k <= |ws|
  {
    Apply(d, ws[..k]).0
  }

  /** From a disabled PDO, the rest of the save: enabled only after everything else was accepted. */
  lemma {:induction false} EnableStep(d: Device, s: Settings, packed: seq<int>, r: Records)
    requires !d.Exists() && s.cobId.Some?
    ensures var (e, ok) := Apply(d, MiddleWrites(s, packed, r) + EnableWrites(s));
            && (ok <==> Writable(d, s, r) && MappingFits(d, packed, r))
            && (!ok ==> e.cobId == d.cobId)
            && (!ok || (Configured(d, e, s, packed, r)
                        && e.cobId == if s.enabled then EnabledCobId(s.cobId.value, s.rtrAllowed) else d.cobId))
  {
    var middle := MiddleWrites(s, packed, r);
    ApplyConcat(d, middle, EnableWrites(s));
    MiddleEffect(d, s, packed, r);
    if s.enabled {
      ApplyOne(Apply(d, middle).0, EnableWrites(s)[0]);
    }
  }

  lemma {:induction false} FirstWrite(d: Device, s: Settings, rest: seq<Write>, k: nat)
    requires s.cobId.Some? && 0 < k <= 1 + |rest|
    ensures Apply(d, ([Disable(s)] + rest)[..k]) == Apply(d.(cobId := Disable(s).value), rest[..k - 1])
  {
    var ws := ([Disable(s)] + rest)[..k];
    DisableStep(d, s);
    assert ws[0] == Disable(s) && ws[1..] == rest[..k - 1];
  }

  lemma {:induction false} RestIsSafe(d: Device, s: Settings, packed: seq<int>, r: Records, k: nat)
    requires !d.Exists() && s.cobId.Some? && k <= |MiddleWrites(s, packed, r) + EnableWrites(s)|
    ensures var rest := MiddleWrites(s, packed, r) + EnableWrites(s);
            var e := Interrupted(d, rest, k);
            || !e.Exists()
            || (&& k == |rest| && s.enabled
                && e.cobId == EnabledCobId(s.cobId.value, s.rtrAllowed) && Configured(d, e, s, packed, r))
  {
    var middle := MiddleWrites(s, packed, r);
    var rest := middle + EnableWrites(s);
    if k <= |middle| {
      assert rest[..k] == middle[..k];
      MiddleHasNoCobId(s, packed, r);
      CobIdStays(d, middle[..k]);
    } else {
      assert rest[..k] == rest;
      EnableStep(d, s, packed, r);
    }
  }

  lemma {:induction false} ConfiguredAnyCobId(d: Device, cobId: int, e: Device, s: Settings, packed: seq<int>, r: Records)
    ensures Configured(d.(cobId := cobId), e, s, packed, r) == Configured(d, e, s, packed, r)
    ensures MappingFits(d.(cobId := cobId), packed, r) == MappingFits(d, packed, r)
  {
    if |packed| <= |d.slots| {
      assert MappingAfter(d.(cobId := cobId), packed, r) == MappingAfter(d, packed, r);
    }
  }

  /**
   A save may stop anywhere: after its first `k` writes, whichever of them the device refuses, the
   device is as it was, or the PDO is disabled, or it is enabled with the complete new configuration.
   */
  lemma {:induction false} InterruptedSaveIsSafe(d: Device, s: Settings, packed: seq<int>, r: Records, k: nat)
    requires k <= |SaveWrites(s, packed, r)|
    ensures var e := Interrupted(d, SaveWrites(s, packed, r), k);
            || e == d
            || !e.Exists()
            || (&& k == |SaveWrites(s, packed, r)| && s.cobId.Some? && s.enabled
                && e.cobId == EnabledCobId(s.cobId.value, s.rtrAllowed) && Configured(d, e, s, packed, r))
  {
    if k > 0 {
      var rest := RestWrites(s, packed, r);
      var off := d.(cobId := Disable(s).value);
      FirstWrite(d, s, rest, k);
      DisableStep(d, s);
      if Complete(s, r) {
        RestIsSafe(off, s, packed, r, k - 1);
        ConfiguredAnyCobId(d, off.cobId, Interrupted(off, rest, k - 1), s, packed, r);
      }
    }
  }

  /** A save that raises, for whatever reason, leaves the PDO disabled. */
  lemma {:induction false} FailedSaveDisables(d: Device, s: Settings, packed: seq<int>, r: Records)
    requires s.cobId.Some? && !(Complete(s, r) && Apply(d, SaveWrites(s, packed, r)).1)
    ensures !Apply(d, SaveWrites(s, packed, r)).0.Exists()
  {
    var rest := RestWrites(s, packed, r);
    var off := d.(cobId := Disable(s).value);
    assert ([Disable(s)] + rest)[..1 + |rest|] == [Disable(s)] + rest && rest[..|rest|] == rest;
    FirstWrite(d, s, rest, 1 + |rest|);
    DisableStep(d, s);
    if Complete(s, r) {
      EnableStep(off, s, packed, r);
    }
  }

  /** Which saves go through, and what they leave on the device. */
  lemma {:induction false} SaveEffect(d: Device, s: Settings, packed: seq<int>, r: Records)
    requires s.cobId.Some? && Complete(s, r)
    ensures var (e, ok) := Apply(d, SaveWrites(s, packed, r));
            && (ok <==> Writable(d, s, r) && MappingFits(d, packed, r))
            && (!ok || (Configured(d, e, s, packed, r)
                        && e.cobId == if s.enabled then EnabledCobId(s.cobId.value, s.rtrAllowed) else Disable(s).value))
  {
    var rest := MiddleWrites(s, packed, r) + EnableWrites(s);
    var off := d.(cobId := Disable(s).value);
    assert ([Disable(s)] + rest)[..1 + |rest|] == [Disable(s)] + rest && rest[..|rest|] == rest;
    FirstWrite(d, s, rest, 1 + |rest|);
    DisableStep(d, s);
    EnableStep(off, s, packed, r);
    ConfiguredAnyCobId(d, off.cobId, Apply(off, rest).0, s, packed, r);
  }

  /** The saved mapping is the whole mapping exactly when every entry was writable or already there. */
  lemma {:induction false} MappingCompleteIff(d: Device, packed: seq<int>, r: Records)
    requires |packed| <= |d.slots|
    ensures MappingAfter(d, packed, r) == packed
            <==> forall i :: 0 <= i < |packed| ==> (i < |r.slotWritable| && r.slotWritable[i]) || d.slots[i] == packed[i]
  {
    var after := MappingAfter(d, packed, r);
    if after == packed {
      forall i | 0 <= i < |packed|
        ensures (i < |r.slotWritable| && r.slotWritable[i]) || d.slots[i] == packed[i]
      {
        assert after[i] == packed[i];
      }
    }
  }
}

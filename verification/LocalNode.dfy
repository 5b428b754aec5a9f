/** The data behind the SDO server: `LocalNode.get_data`, `set_data` and the data store. */
module LocalNode {
  import opened Common
  import opened Codec
  import opened Dictionary

  const READ_WRITEONLY := 0x0601_0001
  const WRITE_READONLY := 0x0601_0002
  const NOT_IN_OD := 0x0602_0000
  const LENGTH_NOT_MATCHED := 0x0607_0010
  const NO_SUBINDEX := 0x0609_0011
  const NO_SDO_CONNECTION := 0x060A_0023

  /** What raises inside a request handler: an SDO abort with its code, or any other exception. */
  datatype Exception = Aborted(code: nat) | Unexpected

  /** What an object yields when nothing is stored: its encoded value or default, if it has one. */
  datatype Fallback = Encoded(data: seq<byte>) | NotEncodable | Absent

  datatype OdVariable = OdVariable(dataType: nat, accessType: string, fallback: Fallback) {
    predicate Writable() {
      'w' in accessType
    }

    predicate Readable() {
      'r' in accessType || accessType == "const"
    }
  }

  type DataStore = map<nat, map<nat, seq<byte>>>

  /** Size in bytes of the number types, `None` for every other type. */
  function NumberSize(dataType: nat): Option<nat> {
    if dataType == REAL32 then Some(4)
    else if dataType == REAL64 then Some(8)
    else match FormatOf(dataType)
      case Some(f) => Some(f.bytes)
      case None => None
  }

  function FindObject(od: ObjectDictionary<OdVariable>, index: nat, subindex: nat): Result<OdVariable, Exception> {
    match Find(od, index, subindex)
    case Ok(v) => Ok(v)
    case Err(NoIndex) => Err(Aborted(NOT_IN_OD))
    case Err(NoSubindex) => Err(Aborted(NO_SUBINDEX))
  }

  predicate Has(store: DataStore, index: nat, subindex: nat) {
    index in store && subindex in store[index]
  }

  function Put(store: DataStore, index: nat, subindex: nat, data: seq<byte>): DataStore {
    var members: map<nat, seq<byte>> := if index in store then store[index] else map[];
    var updated: map<nat, seq<byte>> := members[subindex := data];
    store[index := updated]
  }

  /** The dictionary has the variable `v` under this index and subindex. */
  ghost predicate Names(od: ObjectDictionary<OdVariable>, index: nat, subindex: nat, v: OdVariable) {
    && index in od
    && (od[index] == Variable(v) || (od[index].Group? && subindex in od[index].members && od[index].members[subindex] == v))
  }

  /** A number type whose values take `n` bytes. */
  predicate TakesBytes(dataType: nat, n: nat) {
    || (n == 1 && dataType in {0x2, 0x5}) || (n == 2 && dataType in {0x3, 0x6}) || (n == 3 && dataType in {0x10, 0x16})
    || (n == 4 && dataType in {0x4, 0x7, 0x8}) || (n == 5 && dataType in {0x12, 0x18})
    || (n == 6 && dataType in {0x13, 0x19}) || (n == 7 && dataType in {0x14, 0x1A})
    || (n == 8 && dataType in {0x15, 0x1B, 0x11})
  }

  /** What a read callback returns, already encoded, for the objects one is registered for. */
  type Callbacks = map<(nat, nat), seq<byte>>

  function ReadObject(od: ObjectDictionary<OdVariable>, callbacks: Callbacks, store: DataStore, index: nat, subindex: nat,
                      checkReadable: bool): (r: Result<seq<byte>, Exception>)
    ensures r.Err? && r.error.Aborted? ==> r.error.code < 0x1_0000_0000
  {
    match FindObject(od, index, subindex)
    case Err(e) => Err(e)
    case Ok(obj) =>
      if checkReadable && !obj.Readable() then Err(Aborted(READ_WRITEONLY))
      else if (index, subindex) in callbacks then Ok(callbacks[(index, subindex)])
      else if Has(store, index, subindex) then Ok(store[index][subindex])
      else match obj.fallback
        case Encoded(data) => Ok(data)
        case NotEncodable => Err(Unexpected)
        case Absent => Err(Aborted(NO_SDO_CONNECTION))
  }

  /** The exception a write raises, if any. */
  function WriteError(od: ObjectDictionary<OdVariable>, index: nat, subindex: nat, data: seq<byte>, checkWritable: bool)
    : (e: Option<Exception>)
    ensures e.Some? ==> e.value.Aborted? && e.value.code < 0x1_0000_0000
  {
    match FindObject(od, index, subindex)
    case Err(e) => Some(e)
    case Ok(obj) =>
      if checkWritable && !obj.Writable() then Some(Aborted(WRITE_READONLY))
      else if NumberSize(obj.dataType).Some? && NumberSize(obj.dataType).value != |data|
      then Some(Aborted(LENGTH_NOT_MATCHED))
      else None
  }

  /** A write goes through, or is refused for the first of four reasons that applies. */
  ghost predicate WriteVerdict(od: ObjectDictionary<OdVariable>, index: nat, subindex: nat, data: seq<byte>,
                               checkWritable: bool, error: Option<Exception>)
  {
    && (index !in od ==> error == Some(Aborted(0x0602_0000)))
    && (index in od && od[index].Group? && subindex !in od[index].members ==> error == Some(Aborted(0x0609_0011)))
    && (forall v :: Names(od, index, subindex, v) ==>
          && (checkWritable && 'w' !in v.accessType ==> error == Some(Aborted(0x0601_0002)))
          && ((checkWritable ==> 'w' in v.accessType) ==>
                && ((exists n: nat :: TakesBytes(v.dataType, n) && n != |data|) ==> error == Some(Aborted(0x0607_0010)))
                && ((forall n: nat :: TakesBytes(v.dataType, n) ==> n == |data|) ==> error == None)))
  }

  /** A read yields data, or is refused for the first of four reasons that applies. */
  ghost predicate ReadVerdict(od: ObjectDictionary<OdVariable>, callbacks: Callbacks, store: DataStore, index: nat,
                              subindex: nat, checkReadable: bool, r: Result<seq<byte>, Exception>)
  {
    && (index !in od ==> r == Err(Aborted(0x0602_0000)))
    && (index in od && od[index].Group? && subindex !in od[index].members ==> r == Err(Aborted(0x0609_0011)))
    && (forall v :: Names(od, index, subindex, v) ==>
          var readable := 'r' in v.accessType || v.accessType == "const";
          && (checkReadable && !readable ==> r == Err(Aborted(0x0601_0001)))
          && ((checkReadable ==> readable) ==>
                var called, stored := (index, subindex) in callbacks, index in store && subindex in store[index];
                && (called ==> r == Ok(callbacks[(index, subindex)]))
                && (!called && stored ==> r == Ok(store[index][subindex]))
                && (!called && !stored && v.fallback.Encoded? ==> r == Ok(v.fallback.data))
                && (!called && !stored && v.fallback.NotEncodable? ==> r == Err(Unexpected))
                && (!called && !stored && v.fallback.Absent? ==> r == Err(Aborted(0x060A_0023)))))
  }

  /** Looking an object up finds the variable of that name, and fails only where there is none. */
  lemma {:induction false} FoundIsNamed(od: ObjectDictionary<OdVariable>, index: nat, subindex: nat, v: OdVariable)
    ensures FindObject(od, index, subindex) == Ok(v) <==> Names(od, index, subindex, v)
    ensures FindObject(od, index, subindex).Err? <==> index !in od || (od[index].Group? && subindex !in od[index].members)
  {
  }

  lemma {:induction false} NumberTakes(dataType: nat)
    ensures forall n: nat :: TakesBytes(dataType, n) <==> NumberSize(dataType) == Some(n)
  {
  }

  /** Every write is refused for the reason, and with the code, that the dictionary entry gives. */
  lemma {:induction false} WriteJudged(od: ObjectDictionary<OdVariable>, index: nat, subindex: nat, data: seq<byte>,
                                       checkWritable: bool)
    ensures WriteVerdict(od, index, subindex, data, checkWritable, WriteError(od, index, subindex, data, checkWritable))
  {
    match FindObject(od, index, subindex)
    case Err(_) =>
    case Ok(obj) =>
      NumberTakes(obj.dataType);
      assert forall v :: Names(od, index, subindex, v) ==> v == obj;
  }

  lemma {:induction false} ReadJudged(od: ObjectDictionary<OdVariable>, callbacks: Callbacks, store: DataStore, index: nat,
                                      subindex: nat, checkReadable: bool)
    ensures ReadVerdict(od, callbacks, store, index, subindex, checkReadable,
                        ReadObject(od, callbacks, store, index, subindex, checkReadable))
  {
  }

  class LocalNode {
    const od: ObjectDictionary<OdVariable>
    const callbacks: Callbacks
    var dataStore: DataStore

    constructor (od: ObjectDictionary<OdVariable>, callbacks: Callbacks)
      ensures this.od == od && this.callbacks == callbacks && dataStore == map[]
    {
      this.od, this.callbacks := od, callbacks;
      dataStore := map[];
    }

    function GetData(index: nat, subindex: nat, checkReadable: bool): (r: Result<seq<byte>, Exception>)
      reads this
      ensures ReadVerdict(od, callbacks, dataStore, index, subindex, checkReadable, r)
    {
      ReadJudged(od, callbacks, dataStore, index, subindex, checkReadable);
      ReadObject(od, callbacks, dataStore, index, subindex, checkReadable)
    }

    method SetData(index: nat, subindex: nat, data: seq<byte>, checkWritable: bool) returns (error: Option<Exception>)
      modifies this
      ensures error == WriteError(od, index, subindex, data, checkWritable)
      ensures WriteVerdict(od, index, subindex, data, checkWritable, error)
      ensures dataStore == if error.None? then Put(old(dataStore), index, subindex, data) else old(dataStore)
    {
      WriteJudged(od, index, subindex, data, checkWritable);
      error := WriteError(od, index, subindex, data, checkWritable);
      if error.None? {
        if index !in dataStore {
          dataStore := dataStore[index := map[]];
        }
        var updated: map<nat, seq<byte>> := dataStore[index][subindex := data];
        dataStore := dataStore[index := updated];
      }
    }
  }

  /** A successful write is what the next read returns, and it leaves every other object alone. */
  lemma {:induction false} ReadAfterWrite(
      od: ObjectDictionary<OdVariable>, callbacks: Callbacks, store: DataStore, index: nat, subindex: nat, data: seq<byte>,
      i: nat, s: nat)
    requires WriteError(od, index, subindex, data, true).None?
    ensures (i, s) != (index, subindex) ==>
              ReadObject(od, callbacks, Put(store, index, subindex, data), i, s, true)
              == ReadObject(od, callbacks, store, i, s, true)
    ensures (index, subindex) !in callbacks ==>
              ReadObject(od, callbacks, Put(store, index, subindex, data), index, subindex, true)
              == if FindObject(od, index, subindex).value.Readable() then Ok(data) else Err(Aborted(READ_WRITEONLY))
  {
  }
}

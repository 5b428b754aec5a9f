/** The SDO server (`SdoServer`): its handlers as state transitions, and the class that performs them. */
module SdoServer {
  import opened Common
  import opened Bits
  import opened Codec
  import opened Dictionary
  import opened LocalNode

  const TOGGLE_BIT := 0x10

  const TOGGLE_NOT_ALTERNATED := 0x0503_0000
  const INVALID_COMMAND_SPECIFIER := 0x0504_0001
  const GENERAL_ERROR := 0x0800_0000
  const NO_DATA_AVAILABLE := 0x0800_0024

  // ----- frames

  type half = i: int | 0 <= i < 0x1_0000

  /** Command, index and subindex. */
  function Header(command: byte, index: half, subindex: byte): (h: seq<byte>)
    ensures |h| == 4
  {
    [command] + ToLE(index, 2) + [subindex]
  }

  function Frame(command: byte, index: half, subindex: byte, data: seq<byte>): (f: seq<byte>)
    requires |data| == 4
    ensures |f| == 8
  {
    Header(command, index, subindex) + data
  }

  /** Command and up to seven bytes of data. */
  function DataFrame(command: byte, data: seq<byte>): (f: seq<byte>)
    requires |data| <= 7
    ensures |f| == 8
  {
    [command] + data + Zeros(7 - |data|)
  }

  function IndexOf(f: seq<byte>): half
    requires |f| == 8
  {
    FromLERange(f[1..3]);
    Pow2Eight(0);
    Pow2Eight(1);
    FromLE(f[1..3])
  }

  function SubindexOf(f: seq<byte>): byte
    requires |f| == 8
  {
    f[3]
  }

  function LongOf(f: seq<byte>): nat
    requires |f| == 8
  {
    FromLE(f[4..8])
  }

  lemma {:induction false} FrameFields(command: byte, index: half, subindex: byte, data: seq<byte>)
    requires |data| == 4
    ensures var f := Frame(command, index, subindex, data);
            f[0] == command && IndexOf(f) == index && SubindexOf(f) == subindex && f[4..8] == data
  {
    assert Frame(command, index, subindex, data)[1..3] == ToLE(index, 2);
    Pow2Eight(0);
    Pow2Eight(1);
    FromLEOfToLE(index, 2);
  }

  function Field(command: byte, divisor: nat, modulus: nat): nat
    requires divisor > 0 && modulus > 0
  {
    command / divisor % modulus
  }

  // ----- the handlers

  /** What the server can see besides its own state. */
  datatype Env = Env(od: ObjectDictionary<OdVariable>, callbacks: Callbacks)

  datatype ServerState = ServerState(store: DataStore, buffer: Option<seq<byte>>, toggle: nat, index: Option<half>,
                                     subindex: byte, lastReceivedError: nat)
  {
    /** How much of an upload is still in the buffer. */
    function Left(): nat {
      if buffer.Some? then |buffer.value| else 0
    }
  }

  datatype Outcome = Reply(frame: seq<byte>) | Silent | Raised(exception: Exception)

  datatype Step = Step(state: ServerState, outcome: Outcome)

  function InitUpload(env: Env, st: ServerState, request: seq<byte>): Step
    requires |request| == 8
  {
    var index, subindex := IndexOf(request), SubindexOf(request);
    var s := st.(index := Some(index), subindex := subindex);
    match ReadObject(env.od, env.callbacks, s.store, index, subindex, true)
    case Err(e) => Step(s, Raised(e))
    case Ok(data) =>
      if |data| == 0 then Step(s, Reply(AbortFrame(index, subindex, NO_DATA_AVAILABLE)))
      else if |data| <= 4 then
        Step(s, Reply(Frame(0x43 + (4 - |data|) * 4, index, subindex, data + Zeros(4 - |data|))))
      else if |data| >= 0x1_0000_0000 then Step(s, Raised(Unexpected))
      else Step(s.(buffer := Some(data), toggle := 0), Reply(Frame(0x41, index, subindex, ToLE(|data|, 4))))
  }

  function SegmentedUpload(st: ServerState, command: byte): Step {
    if Field(command, 0x10, 2) * TOGGLE_BIT != st.toggle then Step(st, Raised(Aborted(TOGGLE_NOT_ALTERNATED)))
    else if st.buffer.None? then Step(st, Raised(Unexpected))
    else
      var size := Min(7, |st.buffer.value|);
      var rest := st.buffer.value[size..];
      Step(st.(buffer := Some(rest), toggle := TOGGLE_BIT - st.toggle),
           Reply(DataFrame(ToggleOf(st) + (7 - size) * 2 + (if rest == [] then 1 else 0), st.buffer.value[..size])))
  }

  function InitDownload(env: Env, st: ServerState, request: seq<byte>): Step
    requires |request| == 8
  {
    var command, index, subindex := request[0], IndexOf(request), SubindexOf(request);
    var s := st.(index := Some(index), subindex := subindex);
    var response := Reply(Frame(0x60, index, subindex, Zeros(4)));
    if Field(command, 2, 2) == 1 then
      var size := if Field(command, 1, 2) == 1 then 4 - Field(command, 4, 4) else 4;
      var data := request[4..4 + size];
      match WriteError(env.od, index, subindex, data, true)
      case Some(e) => Step(s, Raised(e))
      case None => Step(s.(store := Put(s.store, index, subindex, data)), response)
    else Step(s.(buffer := Some([]), toggle := 0), response)
  }

  function SegmentedDownload(env: Env, st: ServerState, command: byte, request: seq<byte>): Step
    requires |request| == 8
  {
    if Field(command, 0x10, 2) * TOGGLE_BIT != st.toggle then Step(st, Raised(Aborted(TOGGLE_NOT_ALTERNATED)))
    else if st.buffer.None? then Step(st, Raised(Unexpected))
    else
      var s := st.(buffer := Some(st.buffer.value + Payload(request)));
      var done := s.(toggle := TOGGLE_BIT - st.toggle);
      var response := Reply(DataFrame(0x20 + ToggleOf(st), []));
      if Field(command, 1, 2) == 0 then Step(done, response)
      else if st.index.None? then Step(s, Raised(Aborted(NOT_IN_OD)))
      else
        match WriteError(env.od, st.index.value, st.subindex, s.buffer.value, true)
        case Some(e) => Step(s, Raised(e))
        case None => Step(done.(store := Put(s.store, st.index.value, st.subindex, s.buffer.value)), response)
  }

  /** The toggle bit as part of a command byte. */
  function ToggleOf(st: ServerState): (t: byte)
    ensures t == 0 || t == TOGGLE_BIT
  {
    if st.toggle == TOGGLE_BIT then TOGGLE_BIT else 0
  }

  /** The data of a download segment. */
  function Payload(request: seq<byte>): seq<byte>
    requires |request| == 8
  {
    request[1..8 - Field(request[0], 2, 8)]
  }

  function AbortFrame(index: half, subindex: byte, code: nat): seq<byte> {
    Frame(0x80, index, subindex, ToLE(code, 4))
  }

  /** `abort` packs the index, so before the first initiate request it raises itself and nothing is sent. */
  function Abort(st: ServerState, code: nat): Option<seq<byte>> {
    if st.index.None? then None else Some(AbortFrame(st.index.value, st.subindex, code))
  }

  function Dispatch(env: Env, st: ServerState, request: seq<byte>): Step
    requires |request| == 8
  {
    var command := request[0];
    match command / 0x20
    case 2 => InitUpload(env, st, request)
    case 3 => SegmentedUpload(st, command)
    case 1 => InitDownload(env, st, request)
    case 0 => SegmentedDownload(env, st, command, request)
    case 5 => InitUpload(env, st, request)
    case 6 => Step(st.(index := Some(IndexOf(request)), subindex := SubindexOf(request)),
                   Reply(AbortFrame(IndexOf(request), SubindexOf(request), INVALID_COMMAND_SPECIFIER)))
    case 4 => Step(st.(lastReceivedError := LongOf(request)), Silent)
    case _ => Step(st, Raised(Aborted(INVALID_COMMAND_SPECIFIER)))
  }

  /** `on_request`: the state afterwards and the response, if one is sent. */
  function Serve(env: Env, st: ServerState, request: seq<byte>): (ServerState, Option<seq<byte>>)
    requires |request| == 8
  {
    var step := Dispatch(env, st, request);
    (step.state,
     match step.outcome
     case Reply(frame) => Some(frame)
     case Silent => None
     case Raised(Aborted(code)) => Abort(step.state, code)
     case Raised(Unexpected) => Abort(step.state, GENERAL_ERROR))
  }

  // ----- runs of requests

  /** Requests that name an object. */
  predicate Initiates(request: seq<byte>)
    requires |request| == 8
  {
    var ccs := request[0] / 0x20;
    ccs == 1 || ccs == 2 || ccs == 5 || ccs == 6
  }

  predicate IsAbort(request: seq<byte>)
    requires |request| == 8
  {
    request[0] / 0x20 == 4
  }

  /** The state after a run, and the response to each of its requests. */
  function ServeAll(env: Env, st: ServerState, requests: seq<seq<byte>>): (r: (ServerState, seq<Option<seq<byte>>>))
    requires forall q :: q in requests ==> |q| == 8
    ensures |r.1| == |requests|
    decreases |requests|
  {
    if requests == [] then (st, [])
    else
      var (s, first) := Serve(env, st, requests[0]);
      var (final, rest) := ServeAll(env, s, requests[1..]);
      (final, [first] + rest)
  }

  /** What every state reached from a new server satisfies: only requests that name an object open a buffer. */
  predicate Reachable(st: ServerState) {
    (st.buffer.Some? ==> st.index.Some?) && (st.toggle == 0 || st.toggle == TOGGLE_BIT)
  }

  /** One request is answered exactly when it is no abort and the server knows an object to answer for. */
  lemma {:induction false} AnsweredExactly(env: Env, st: ServerState, request: seq<byte>)
    requires |request| == 8 && Reachable(st)
    ensures var (s, response) := Serve(env, st, request);
            && Reachable(s)
            && (s.index.Some? <==> st.index.Some? || Initiates(request))
            && (response.Some? <==> !IsAbort(request) && (st.index.Some? || Initiates(request)))
            && (response.Some? ==> |response.value| == 8)
  {
  }

  /**
   In every run, from every reachable state: a request gets one eight-byte response, unless it is an abort or no
   request so far has named an object.
   */
  lemma {:induction false} OneReplyPerRequest(env: Env, st: ServerState, requests: seq<seq<byte>>, k: nat)
    requires (forall q :: q in requests ==> |q| == 8) && k < |requests| && Reachable(st)
    ensures var response := ServeAll(env, st, requests).1[k];
            && (response.Some? <==> !IsAbort(requests[k])
                                    && (st.index.Some? || exists j :: 0 <= j <= k && Initiates(requests[j])))
            && (response.Some? ==> |response.value| == 8)
    decreases |requests|
  {
    AnsweredExactly(env, st, requests[0]);
    if k > 0 {
      var s := Serve(env, st, requests[0]).0;
      OneReplyPerRequest(env, s, requests[1..], k - 1);
      if exists j :: 0 <= j <= k && Initiates(requests[j]) {
        var j :| 0 <= j <= k && Initiates(requests[j]);
        assert j > 0 ==> Initiates(requests[1..][j - 1]);
      }
      if exists j :: 0 <= j <= k - 1 && Initiates(requests[1..][j]) {
        var j :| 0 <= j <= k - 1 && Initiates(requests[1..][j]);
        assert Initiates(requests[j + 1]);
      }
    } else {
      assert Initiates(requests[0]) ==> exists j :: 0 <= j <= 0 && Initiates(requests[j]);
    }
  }

  // ----- what each request comes to, from the dictionary entry alone

  /** An expedited download stores one to four bytes, or all four when it gives no size; or it is refused. */
  lemma {:induction false} ExpeditedDownload(env: Env, st: ServerState, request: seq<byte>) returns (error: Option<Exception>)
    requires |request| == 8 && request[0] / 0x20 == 1 && request[0] / 2 % 2 == 1
    ensures var unused := if request[0] % 2 == 1 then request[0] / 4 % 4 else 0;
            var data := request[4..8 - unused];
            var (s, response) := Serve(env, st, request);
            && WriteVerdict(env.od, IndexOf(request), SubindexOf(request), data, true, error)
            && (error.None? ==> s.store == Put(st.store, IndexOf(request), SubindexOf(request), data)
                                && response == Some(Frame(0x60, IndexOf(request), SubindexOf(request), [0, 0, 0, 0])))
            && (error.Some? ==> s.store == st.store && error.value.Aborted?
                                && response == Some(AbortFrame(IndexOf(request), SubindexOf(request), error.value.code)))
  {
    var unused := if request[0] % 2 == 1 then request[0] / 4 % 4 else 0;
    var data := request[4..8 - unused];
    error := WriteError(env.od, IndexOf(request), SubindexOf(request), data, true);
    WriteJudged(env.od, IndexOf(request), SubindexOf(request), data, true);
    ExpeditedStep(env, st, request, unused, data);
    assert Zeros(4) == [0, 0, 0, 0];
  }

  lemma {:induction false} ExpeditedStep(env: Env, st: ServerState, request: seq<byte>, unused: nat, data: seq<byte>)
    requires |request| == 8 && request[0] / 0x20 == 1 && request[0] / 2 % 2 == 1
    requires unused == (if request[0] % 2 == 1 then request[0] / 4 % 4 else 0) && data == request[4..8 - unused]
    ensures var index, subindex := IndexOf(request), SubindexOf(request);
            var step := Dispatch(env, st, request);
            && step.state.index == Some(index) && step.state.subindex == subindex
            && match WriteError(env.od, index, subindex, data, true)
               case Some(e) => step.state.store == st.store && step.outcome == Raised(e)
               case None => step.state.store == Put(st.store, index, subindex, data)
                            && step.outcome == Reply(Frame(0x60, index, subindex, Zeros(4)))
  {
    assert Dispatch(env, st, request) == InitDownload(env, st, request);
  }

  /** Command 0x22: four bytes, whatever the object needs, if it may be written and takes four. */
  lemma {:induction false} UnsizedDownloadStoresFour(env: Env, st: ServerState, request: seq<byte>, v: OdVariable)
    requires |request| == 8 && request[0] == 0x22
    requires Names(env.od, IndexOf(request), SubindexOf(request), v) && 'w' in v.accessType && TakesBytes(v.dataType, 4)
    ensures Serve(env, st, request).0.store == Put(st.store, IndexOf(request), SubindexOf(request), request[4..8])
  {
    NumberTakes(v.dataType);
    var _ := ExpeditedDownload(env, st, request);
  }

  /** A download to an object that may not be written changes nothing, whatever it carries. */
  lemma {:induction false} ReadOnlyRefused(env: Env, st: ServerState, request: seq<byte>, v: OdVariable)
    requires |request| == 8 && request[0] / 0x20 == 1 && request[0] / 2 % 2 == 1
    requires Names(env.od, IndexOf(request), SubindexOf(request), v) && 'w' !in v.accessType
    ensures var (s, response) := Serve(env, st, request);
            && s.store == st.store && response.Some? && response.value[0] == 0x80 && response.value[1..4] == request[1..4]
            && response.value[4..] == [0x02, 0x00, 0x01, 0x06]
  {
    var error := ExpeditedDownload(env, st, request);
    assert error == Some(Aborted(0x0601_0002));
    AbortBytes(request, 0x0601_0002);
    assert ToLE(0x0601_0002, 4) == [0x02, 0x00, 0x01, 0x06];
  }

  lemma {:induction false} AbortBytes(request: seq<byte>, code: nat)
    requires |request| == 8
    ensures var frame := AbortFrame(IndexOf(request), SubindexOf(request), code);
            |frame| == 8 && frame[0] == 0x80 && frame[1..4] == request[1..4] && frame[4..] == ToLE(code, 4)
  {
    var index := IndexOf(request);
    assert index == request[1] + 0x100 * (request[2] as int) by {
      assert request[1..3][1..] == [request[2]];
      assert FromLE([request[2]]) == request[2];
    }
    assert ToLE(index, 2) == [request[1], request[2]];
  }

  /** An upload request reads the object and leaves every object as it is. */
  lemma {:induction false} UploadRequest(env: Env, st: ServerState, request: seq<byte>) returns (r: Result<seq<byte>, Exception>)
    requires |request| == 8 && request[0] / 0x20 in {2, 5}
    ensures var index, subindex := IndexOf(request), SubindexOf(request);
            var (s, response) := Serve(env, st, request);
            && ReadVerdict(env.od, env.callbacks, st.store, index, subindex, true, r) && s.store == st.store
            && match r
               case Err(Aborted(code)) => response == Some(AbortFrame(index, subindex, code))
               case Err(Unexpected) => response == Some(AbortFrame(index, subindex, 0x0800_0000))
               case Ok(data) =>
                 && (data == [] ==> response == Some(AbortFrame(index, subindex, 0x0800_0024)))
                 && (1 <= |data| <= 4 ==>
                       response == Some(Frame(0x4F - 4 * (|data| - 1), index, subindex, data + Zeros(4 - |data|))))
                 && (4 < |data| < 0x1_0000_0000 ==>
                       response == Some(Frame(0x41, index, subindex, ToLE(|data|, 4))) && s.buffer == Some(data) && s.toggle == 0)
                 && (|data| >= 0x1_0000_0000 ==> response == Some(AbortFrame(index, subindex, 0x0800_0000)))
  {
    r := ReadObject(env.od, env.callbacks, st.store, IndexOf(request), SubindexOf(request), true);
    ReadJudged(env.od, env.callbacks, st.store, IndexOf(request), SubindexOf(request), true);
  }

  /** Block downloads are refused, and so is what is no command at all; neither touches an object or a transfer. */
  lemma {:induction false} UnsupportedRefused(env: Env, st: ServerState, request: seq<byte>)
    requires |request| == 8 && request[0] / 0x20 in {6, 7}
    ensures var (s, response) := Serve(env, st, request);
            && s.store == st.store && s.buffer == st.buffer && s.toggle == st.toggle
            && (request[0] / 0x20 == 6 ==>
                  response == Some(AbortFrame(IndexOf(request), SubindexOf(request), 0x0504_0001)))
            && (request[0] / 0x20 == 7 ==> response == Abort(st, 0x0504_0001))
  {
  }

  // ----- reassembly of segmented downloads

  predicate IsSegment(request: seq<byte>)
    requires |request| == 8
  {
    request[0] / 0x20 == 0
  }

  /** The toggle bit of a segment is the one the server expects. */
  predicate Alternates(st: ServerState, request: seq<byte>)
    requires |request| == 8
  {
    Field(request[0], 0x10, 2) * TOGGLE_BIT == st.toggle
  }

  /** The payloads of the segments whose toggle matched, in order. */
  function Collected(env: Env, st: ServerState, requests: seq<seq<byte>>): seq<byte>
    requires forall q :: q in requests ==> |q| == 8
    decreases |requests|
  {
    if requests == [] then []
    else (if Alternates(st, requests[0]) then Payload(requests[0]) else [])
         + Collected(env, Serve(env, st, requests[0]).0, requests[1..])
  }

  lemma {:induction false} SegmentTaken(env: Env, st: ServerState, request: seq<byte>)
    requires |request| == 8 && IsSegment(request) && st.buffer.Some?
    ensures Serve(env, st, request).0.buffer
            == Some(st.buffer.value + if Alternates(st, request) then Payload(request) else [])
    ensures !Alternates(st, request) ==> Serve(env, st, request) == (st, Abort(st, 0x0503_0000))
  {
    assert st.buffer.value + [] == st.buffer.value;
    assert Dispatch(env, st, request) == SegmentedDownload(env, st, request[0], request);
  }

  lemma {:induction false} RunStep(env: Env, st: ServerState, requests: seq<seq<byte>>) returns (s: ServerState)
    requires (forall q :: q in requests ==> |q| == 8 && IsSegment(q)) && st.buffer.Some? && requests != []
    ensures forall q :: q in requests[1..] ==> |q| == 8 && IsSegment(q)
    ensures ServeAll(env, st, requests).0 == ServeAll(env, s, requests[1..]).0
    ensures s.buffer.Some? && s.buffer.value + Collected(env, s, requests[1..]) == st.buffer.value + Collected(env, st, requests)
  {
    s := Serve(env, st, requests[0]).0;
    SegmentTaken(env, st, requests[0]);
    Regroup(st.buffer.value, if Alternates(st, requests[0]) then Payload(requests[0]) else [],
            Collected(env, s, requests[1..]));
  }

  lemma {:induction false} Regroup(a: seq<byte>, b: seq<byte>, c: seq<byte>)
    ensures (a + b) + c == a + (b + c)
  {
  }

  lemma {:induction false} RunCollects(env: Env, st: ServerState, requests: seq<seq<byte>>)
    requires (forall q :: q in requests ==> |q| == 8 && IsSegment(q)) && st.buffer.Some?
    ensures ServeAll(env, st, requests).0.buffer == Some(st.buffer.value + Collected(env, st, requests))
    decreases |requests|
  {
    if requests == [] {
      assert st.buffer.value + [] == st.buffer.value;
    } else {
      var s := RunStep(env, st, requests);
      RunCollects(env, s, requests[1..]);
    }
  }

  /**
   After a segmented initiate, from any earlier state, the buffer is the concatenation of the payloads
   of exactly those segments whose toggle matched.
   */
  lemma {:induction false} ServerReassembles(env: Env, st: ServerState, initiate: seq<byte>, segments: seq<seq<byte>>)
    requires |initiate| == 8 && initiate[0] / 0x20 == 1 && Field(initiate[0], 2, 2) == 0
    requires forall q :: q in segments ==> |q| == 8 && IsSegment(q)
    ensures var s := Serve(env, st, initiate).0;
            ServeAll(env, st, [initiate] + segments).0.buffer == Some(Collected(env, s, segments))
  {
    var s := Serve(env, st, initiate).0;
    assert ([initiate] + segments)[1..] == segments;
    RunCollects(env, s, segments);
    assert [] + Collected(env, s, segments) == Collected(env, s, segments);
  }

  /** A last segment, with the expected toggle, whose data the node rejects. */
  predicate Rejected(env: Env, st: ServerState, request: seq<byte>)
    requires |request| == 8 && st.buffer.Some? && st.index.Some?
  {
    && Alternates(st, request) && Field(request[0], 1, 2) == 1
    && WriteError(env.od, st.index.value, st.subindex, st.buffer.value + Payload(request), true).Some?
  }

  /** A segment is answered positively unless its toggle is wrong or it is rejected; repeated, it is then refused. */
  lemma {:induction false} RepeatRefused(env: Env, st: ServerState, request: seq<byte>)
    requires |request| == 8 && IsSegment(request) && st.buffer.Some? && st.index.Some?
    ensures var (s, response) := Serve(env, st, request);
            var (t, again) := Serve(env, s, request);
            && response.Some? && (response.value[0] / 0x20 == 1 <==> Alternates(st, request) && !Rejected(env, st, request))
            && (response.value[0] / 0x20 == 1 ==> t == s && again == Abort(s, 0x0503_0000))
  {
    assert Dispatch(env, st, request) == SegmentedDownload(env, st, request[0], request);
  }

  /** A rejected segment stays in the buffer and the toggle as it was; any other segment that is taken advances the toggle. */
  lemma {:induction false} SegmentToggles(env: Env, st: ServerState, request: seq<byte>)
    requires |request| == 8 && IsSegment(request) && st.buffer.Some? && Reachable(st)
    ensures var s := Serve(env, st, request).0;
            && s.index == st.index && s.subindex == st.subindex && Reachable(s)
            && (Rejected(env, st, request) ==> s.toggle == st.toggle && s.store == st.store)
            && (Alternates(st, request) && !Rejected(env, st, request) ==> s.toggle == TOGGLE_BIT - st.toggle)
  {
    assert Dispatch(env, st, request) == SegmentedDownload(env, st, request[0], request);
  }

  /**
   Repeating a segment changes the buffer again exactly when the segment carries data, was the last one and
   was rejected; it is then appended a second time.  If the node accepts the doubled data, it gets stored.
   */
  lemma {:induction false} RejectedSegmentTakenTwice(env: Env, st: ServerState, request: seq<byte>)
    requires |request| == 8 && IsSegment(request) && st.buffer.Some? && Reachable(st)
    ensures var s := Serve(env, st, request).0;
            var t := Serve(env, s, request).0;
            var once := st.buffer.value + Payload(request);
            var twice := once + Payload(request);
            && s.buffer.Some? && t.buffer.Some?
            && (t.buffer != s.buffer <==> Payload(request) != [] && Rejected(env, st, request))
            && (Rejected(env, st, request) ==>
                  && s.buffer.value == once && t.buffer.value == twice
                  && t.store == if WriteError(env.od, st.index.value, st.subindex, twice, true).Some? then st.store
                                else Put(st.store, st.index.value, st.subindex, twice))
  {
    var s := Serve(env, st, request).0;
    SegmentTaken(env, st, request);
    SegmentToggles(env, st, request);
    SegmentTaken(env, s, request);
    SegmentStores(env, s, request);
    assert s.buffer.value + [] == s.buffer.value;
    assert |s.buffer.value + Payload(request)| == |s.buffer.value| + |Payload(request)|;
    assert Alternates(s, request) <==> Rejected(env, st, request);
  }

  /** What a segment does to the store. */
  lemma {:induction false} SegmentStores(env: Env, st: ServerState, request: seq<byte>)
    requires |request| == 8 && IsSegment(request) && st.buffer.Some? && Reachable(st)
    ensures Serve(env, st, request).0.store
            == if Alternates(st, request) && Field(request[0], 1, 2) == 1 && !Rejected(env, st, request)
               then Put(st.store, st.index.value, st.subindex, st.buffer.value + Payload(request)) else st.store
  {
    assert Dispatch(env, st, request) == SegmentedDownload(env, st, request[0], request);
  }

  /** The last segment hands everything collected to the node, which stores or refuses it as the dictionary says. */
  lemma {:induction false} LastSegment(env: Env, st: ServerState, request: seq<byte>) returns (error: Option<Exception>)
    requires |request| == 8 && IsSegment(request) && request[0] % 2 == 1 && Alternates(st, request)
    requires st.buffer.Some? && st.index.Some? && Reachable(st)
    ensures var all := st.buffer.value + request[1..8 - request[0] / 2 % 8];
            var (s, response) := Serve(env, st, request);
            && WriteVerdict(env.od, st.index.value, st.subindex, all, true, error)
            && (error.None? ==> s.store == Put(st.store, st.index.value, st.subindex, all)
                                && response == Some(DataFrame(0x20 + ToggleOf(st), [])))
            && (error.Some? ==> s.store == st.store && error.value.Aborted?
                                && response == Some(AbortFrame(st.index.value, st.subindex, error.value.code)))
  {
    error := WriteError(env.od, st.index.value, st.subindex, st.buffer.value + Payload(request), true);
    WriteJudged(env.od, st.index.value, st.subindex, st.buffer.value + Payload(request), true);
    assert Dispatch(env, st, request) == SegmentedDownload(env, st, request[0], request);
  }

  /** The hole is real: two bytes sent twice to an UNSIGNED32 are refused the first time and stored doubled the second. */
  lemma {:induction false} DoubledDataStored(env: Env, st: ServerState, request: seq<byte>, variable: OdVariable)
    requires |request| == 8 && IsSegment(request) && st.buffer == Some([]) && st.index.Some? && Reachable(st)
    requires Alternates(st, request) && Field(request[0], 1, 2) == 1 && |Payload(request)| == 2
    requires FindObject(env.od, st.index.value, st.subindex) == Ok(variable) && variable.Writable() && variable.dataType == 0x7
    ensures var (s, refusal) := Serve(env, st, request);
            var (t, response) := Serve(env, s, request);
            && s.store == st.store && refusal == Abort(s, 0x0607_0010)
            && response == Some(DataFrame(0x20 + ToggleOf(st), []))
            && t.store == Put(st.store, st.index.value, st.subindex, Payload(request) + Payload(request))
  {
    assert NumberSize(0x7) == Some(4);
    assert [] + Payload(request) == Payload(request);
    RejectedSegmentTakenTwice(env, st, request);
    SegmentToggles(env, st, request);
    assert Dispatch(env, st, request) == SegmentedDownload(env, st, request[0], request);
    var s := Serve(env, st, request).0;
    assert Dispatch(env, s, request) == SegmentedDownload(env, s, request[0], request);
  }

  // ----- the object

  class Server {
    const node: LocalNode
    var buffer: Option<seq<byte>>
    var toggle: nat
    var index: Option<half>
    var subindex: byte
    var lastReceivedError: nat

    constructor (node: LocalNode)
      ensures this.node == node && buffer == None && toggle == 0 && index == None && Reachable(State())
    {
      this.node := node;
      buffer, toggle, index, subindex, lastReceivedError := None, 0, None, 0, 0;
    }

    function State(): ServerState
      reads this, node
    {
      ServerState(node.dataStore, buffer, toggle, index, subindex, lastReceivedError)
    }

    function Environment(): Env {
      Env(node.od, node.callbacks)
    }

    method OnInitUpload(request: seq<byte>) returns (outcome: Outcome)
      requires |request| == 8
      modifies this
      ensures Step(State(), outcome) == InitUpload(Environment(), old(State()), request)
    {
      index, subindex := Some(IndexOf(request)), SubindexOf(request);
      var command: byte := 0x41;
      var found := node.GetData(IndexOf(request), subindex, true);
      if found.Err? {
        return Raised(found.error);
      }
      var data, size := found.value, |found.value|;
      if size == 0 {
        return Reply(AbortFrame(IndexOf(request), subindex, NO_DATA_AVAILABLE));
      } else if size <= 4 {
        command := command + 0x02 + (4 - size) * 4;
        return Reply(Frame(command, IndexOf(request), subindex, data + Zeros(4 - size)));
      } else if size >= 0x1_0000_0000 {
        return Raised(Unexpected);
      }
      buffer, toggle := Some(data), 0;
      return Reply(Frame(command, IndexOf(request), subindex, ToLE(size, 4)));
    }

    method OnSegmentedUpload(command: byte) returns (outcome: Outcome)
      modifies this
      ensures Step(State(), outcome) == SegmentedUpload(old(State()), command)
    {
      if Field(command, 0x10, 2) * TOGGLE_BIT != toggle {
        return Raised(Aborted(TOGGLE_NOT_ALTERNATED));
      }
      if buffer.None? {
        return Raised(Unexpected);
      }
      var size := Min(7, |buffer.value|);
      var data := buffer.value[..size];
      buffer := Some(buffer.value[size..]);
      var resCommand: byte := ToggleOf(State()) + (7 - size) * 2;
      if buffer.value == [] {
        resCommand := resCommand + 1;
      }
      toggle := TOGGLE_BIT - toggle;
      return Reply(DataFrame(resCommand, data));
    }

    method OnInitDownload(request: seq<byte>) returns (outcome: Outcome)
      requires |request| == 8
      modifies this, node
      ensures Step(State(), outcome) == InitDownload(Environment(), old(State()), request)
    {
      var command := request[0];
      index, subindex := Some(IndexOf(request)), SubindexOf(request);
      if Field(command, 2, 2) == 1 {
        var size := if Field(command, 1, 2) == 1 then 4 - Field(command, 4, 4) else 4;
        var error := node.SetData(IndexOf(request), subindex, request[4..4 + size], true);
        if error.Some? {
          return Raised(error.value);
        }
      } else {
        buffer, toggle := Some([]), 0;
      }
      return Reply(Frame(0x60, IndexOf(request), SubindexOf(request), Zeros(4)));
    }

    method OnSegmentedDownload(command: byte, request: seq<byte>) returns (outcome: Outcome)
      requires |request| == 8
      modifies this, node
      ensures Step(State(), outcome) == SegmentedDownload(Environment(), old(State()), command, request)
    {
      if Field(command, 0x10, 2) * TOGGLE_BIT != toggle {
        return Raised(Aborted(TOGGLE_NOT_ALTERNATED));
      }
      if buffer.None? {
        return Raised(Unexpected);
      }
      buffer := Some(buffer.value + Payload(request));
      if Field(command, 1, 2) == 1 {
        if index.None? {
          return Raised(Aborted(NOT_IN_OD));
        }
        var error := node.SetData(index.value, subindex, buffer.value, true);
        if error.Some? {
          return Raised(error.value);
        }
      }
      var resCommand: byte := 0x20 + ToggleOf(State());
      toggle := TOGGLE_BIT - toggle;
      return Reply(DataFrame(resCommand, []));
    }

    /** One request; the response is what goes onto the network, `None` when nothing does. */
    method OnRequest(request: seq<byte>) returns (response: Option<seq<byte>>)
      requires |request| == 8
      modifies this, node
      ensures (State(), response) == Serve(Environment(), old(State()), request)
    {
      var command := request[0];
      var outcome := Silent;
      match command / 0x20 {
        case 2 => outcome := OnInitUpload(request);
        case 3 => outcome := OnSegmentedUpload(command);
        case 1 => outcome := OnInitDownload(request);
        case 0 => outcome := OnSegmentedDownload(command, request);
        case 5 => outcome := OnInitUpload(request);
        case 6 =>
          index, subindex := Some(IndexOf(request)), SubindexOf(request);
          outcome := Reply(AbortFrame(IndexOf(request), subindex, INVALID_COMMAND_SPECIFIER));
        case 4 => lastReceivedError := LongOf(request);
        case _ => outcome := Raised(Aborted(INVALID_COMMAND_SPECIFIER));
      }
      match outcome {
        case Reply(frame) => response := Some(frame);
        case Silent => response := None;
        case Raised(Aborted(code)) => response := Abort(State(), code);
        case Raised(Unexpected) => response := Abort(State(), GENERAL_ERROR);
      }
    }
  }
}

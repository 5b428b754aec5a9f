/**
 The client side of expedited and segmented transfers (`SdoClient`, `WritableStream`,
 `ReadableStream`), proved together with the server it talks to.
 */
module SdoClient {
  import opened Common
  import opened Bits
  import opened Codec
  import opened Blocks
  import opened LocalNode
  import opened SdoServer

  const TIMED_OUT := 0x0504_0000

  datatype Error =
    | NoResponse
    | Refused(code: nat)
    | UnexpectedResponse
    | AllDataSent
    | MoreDataThanExpected
    | StructError

  function ClientAbort(code: nat): (f: seq<byte>)
    ensures |f| == 8
  {
    Frame(0x80, 0, 0, ToLE(code, 4))
  }

  lemma {:induction false} ResponseLength(env: Env, st: ServerState, request: seq<byte>)
    requires |request| == 8
    ensures Serve(env, st, request).1.Some? ==> |Serve(env, st, request).1.value| == 8
  {
  }

  /** One request and what the client makes of the answer. */
  function Exchange(env: Env, st: ServerState, request: seq<byte>): (ServerState, Result<seq<byte>, Error>)
    requires |request| == 8
  {
    ResponseLength(env, st, request);
    var (s, response) := Serve(env, st, request);
    match response
    case None => (Serve(env, s, ClientAbort(TIMED_OUT)).0, Err(NoResponse))
    case Some(frame) => (s, if frame[0] == 0x80 then Err(Refused(LongOf(frame))) else Ok(frame))
  }

  /** A request that stays without a response makes the client abort with 0x0504_0000, and changes no object. */
  lemma {:induction false} TimeoutReported(env: Env, st: ServerState, request: seq<byte>)
    requires |request| == 8 && Exchange(env, st, request).1 == Err(NoResponse)
    ensures var s := Exchange(env, st, request).0; s.lastReceivedError == 0x0504_0000 && s.store == Serve(env, st, request).0.store
  {
    ClientAborted(env, Serve(env, st, request).0, TIMED_OUT);
  }

  lemma {:induction false} ClientAborted(env: Env, st: ServerState, code: nat)
    requires code < 0x1_0000_0000
    ensures Serve(env, st, ClientAbort(code)) == (st.(lastReceivedError := code), None)
  {
    FrameFields(0x80, 0, 0, ToLE(code, 4));
    Pow2Eight(0);
    Pow2Eight(1);
    Pow2Eight(2);
    Pow2Eight(3);
    FromLEOfToLE(code, 4);
  }

  class Client {
    const server: Server
    var requests: nat
    /** Responses to other clients still to turn up on the channel. */
    var strays: nat

    constructor (server: Server, strays: nat)
      ensures this.server == server && this.strays == strays && requests == 0
    {
      this.server, this.strays, requests := server, strays, 0;
    }

    /** Every response belongs to the request before it. */
    predicate Alone()
      reads this
    {
      strays == 0
    }

    /** Sends one request; what comes back is the server's answer, or a stray response. */
    method RequestResponse(request: seq<byte>) returns (r: Result<seq<byte>, Error>)
      requires |request| == 8
      modifies this, server, server.node
      ensures requests == old(requests) + 1 && strays <= old(strays)
      ensures r.Ok? ==> |r.value| == 8
      ensures strays == old(strays) ==>
                (server.State(), r) == Exchange(server.Environment(), old(server.State()), request)
    {
      requests := requests + 1;
      ResponseLength(server.Environment(), server.State(), request);
      var response := server.OnRequest(request);
      if strays > 0 {
        var stray: bool := *;
        if stray {
          strays := strays - 1;
          assert |Zeros(8)| == 8;
          var frame: seq<byte> :| |frame| == 8;
          response := Some(frame);
        }
      }
      if response.None? {
        Abort(TIMED_OUT);
        return Err(NoResponse);
      }
      if response.value[0] == 0x80 {
        return Err(Refused(LongOf(response.value)));
      }
      return Ok(response.value);
    }

    method Abort(code: nat)
      modifies server, server.node
      ensures server.State() == Serve(server.Environment(), old(server.State()), ClientAbort(code)).0
    {
      var _ := server.OnRequest(ClientAbort(code));
    }
  }

  // ----- what the server makes of the client's frames

  /** The first answer to a write: the code of the exception the node raises. */
  function RefusalCode(e: Exception): nat {
    match e
    case Aborted(code) => code
    case Unexpected => GENERAL_ERROR
  }

  lemma {:induction false} LongOfAbort(index: half, subindex: byte, code: nat)
    requires code < 0x1_0000_0000
    ensures LongOf(AbortFrame(index, subindex, code)) == code && AbortFrame(index, subindex, code)[0] == 0x80
  {
    FrameFields(0x80, index, subindex, ToLE(code, 4));
    Pow2Eight(0);
    Pow2Eight(1);
    Pow2Eight(2);
    Pow2Eight(3);
    FromLEOfToLE(code, 4);
  }

  /** The state of a server in the middle of a segmented transfer of the named object. */
  predicate Open(st: ServerState, index: half, subindex: byte, toggle: nat, buffer: seq<byte>) {
    st.index == Some(index) && st.subindex == subindex && st.toggle == toggle && st.buffer == Some(buffer)
  }

  lemma {:induction false} InitiateServed(env: Env, st: ServerState, index: half, subindex: byte, command: byte, data: seq<byte>)
    requires (command == 0x20 || command == 0x21) && |data| == 4
    ensures var (s, r) := Exchange(env, st, Frame(command, index, subindex, data));
            Open(s, index, subindex, 0, []) && s.store == st.store && r == Ok(Frame(0x60, index, subindex, Zeros(4)))
  {
    FrameFields(command, index, subindex, data);
  }

  /** The first byte of a segment: toggle bit, how many of the seven bytes are unused, last segment or not. */
  function SegmentCommand(base: byte, toggle: nat, n: nat, last: bool): byte
    requires base in {0, 0x60} && (toggle == 0 || toggle == TOGGLE_BIT) && n <= 7
  {
    base + toggle + (7 - n) * 2 + (if last then 1 else 0)
  }

  lemma {:induction false} SegmentFields(toggle: nat, chunk: seq<byte>, last: bool)
    requires (toggle == 0 || toggle == TOGGLE_BIT) && |chunk| <= 7
    ensures var request := DataFrame(SegmentCommand(0, toggle, |chunk|, last), chunk);
            && IsSegment(request) && Field(request[0], 0x10, 2) * TOGGLE_BIT == toggle
            && (Field(request[0], 1, 2) == 1 <==> last) && Payload(request) == chunk
  {
  }

  lemma {:induction false} SegmentTakes(
      env: Env, st: ServerState, index: half, subindex: byte, toggle: nat, buffer: seq<byte>, request: seq<byte>)
    requires |request| == 8 && IsSegment(request) && Field(request[0], 0x10, 2) * TOGGLE_BIT == toggle
    requires (toggle == 0 || toggle == TOGGLE_BIT) && Open(st, index, subindex, toggle, buffer)
    ensures var (s, r) := Exchange(env, st, request);
            var all, last := buffer + Payload(request), Field(request[0], 1, 2) == 1;
            var error := WriteError(env.od, index, subindex, all, true);
            if last && error.Some? then s.store == st.store && r == Err(Refused(RefusalCode(error.value)))
            else && r == Ok(DataFrame(0x20 + toggle, [])) && Open(s, index, subindex, TOGGLE_BIT - toggle, all)
                 && s.store == if last then Put(st.store, index, subindex, all) else st.store
  {
    var error := WriteError(env.od, index, subindex, buffer + Payload(request), true);
    if error.Some? {
      LongOfAbort(index, subindex, RefusalCode(error.value));
    }
  }

  lemma {:induction false} SegmentServed(
      env: Env, st: ServerState, index: half, subindex: byte, toggle: nat, buffer: seq<byte>, chunk: seq<byte>, last: bool)
    requires (toggle == 0 || toggle == TOGGLE_BIT) && |chunk| <= 7 && Open(st, index, subindex, toggle, buffer)
    ensures var (s, r) := Exchange(env, st, DataFrame(SegmentCommand(0, toggle, |chunk|, last), chunk));
            var all := buffer + chunk;
            var error := WriteError(env.od, index, subindex, all, true);
            if last && error.Some? then s.store == st.store && r == Err(Refused(RefusalCode(error.value)))
            else && r == Ok(DataFrame(0x20 + toggle, [])) && Open(s, index, subindex, TOGGLE_BIT - toggle, all)
                 && s.store == if last then Put(st.store, index, subindex, all) else st.store
  {
    SegmentFields(toggle, chunk, last);
    SegmentTakes(env, st, index, subindex, toggle, buffer, DataFrame(SegmentCommand(0, toggle, |chunk|, last), chunk));
  }

  lemma {:induction false} ExpeditedTakes(env: Env, st: ServerState, request: seq<byte>, n: nat)
    requires |request| == 8 && request[0] / 0x20 == 1 && Field(request[0], 2, 2) == 1 && Field(request[0], 1, 2) == 1
    requires 1 <= n <= 4 && Field(request[0], 4, 4) == 4 - n
    ensures var (s, r) := Exchange(env, st, request);
            var index, subindex, data := IndexOf(request), SubindexOf(request), request[4..4 + n];
            var error := WriteError(env.od, index, subindex, data, true);
            if error.Some? then s.store == st.store && r == Err(Refused(RefusalCode(error.value)))
            else s.store == Put(st.store, index, subindex, data) && r == Ok(Frame(0x60, index, subindex, Zeros(4)))
  {
    var index, subindex := IndexOf(request), SubindexOf(request);
    var error := WriteError(env.od, index, subindex, request[4..4 + n], true);
    if error.Some? {
      LongOfAbort(index, subindex, RefusalCode(error.value));
    }
  }

  lemma {:induction false} ExpeditedServed(env: Env, st: ServerState, index: half, subindex: byte, data: seq<byte>)
    requires 1 <= |data| <= 4
    ensures var (s, r) := Exchange(env, st, Frame(0x23 + (4 - |data|) * 4, index, subindex, data + Zeros(4 - |data|)));
            var error := WriteError(env.od, index, subindex, data, true);
            if error.Some? then s.store == st.store && r == Err(Refused(RefusalCode(error.value)))
            else s.store == Put(st.store, index, subindex, data) && r == Ok(Frame(0x60, index, subindex, Zeros(4)))
  {
    var command, padded := 0x23 + (4 - |data|) * 4, data + Zeros(4 - |data|);
    FrameFields(command, index, subindex, padded);
    assert Frame(command, index, subindex, padded)[4..4 + |data|] == padded[..|data|] == data;
    ExpeditedTakes(env, st, Frame(command, index, subindex, padded), |data|);
  }

  // ----- uploads

  /** What an upload of the named object answers: its data, or why not. */
  function Readout(env: Env, store: DataStore, index: half, subindex: byte): Result<seq<byte>, nat> {
    match ReadObject(env.od, env.callbacks, store, index, subindex, true)
    case Err(e) => Err(RefusalCode(e))
    case Ok(data) =>
      if data == [] then Err(NO_DATA_AVAILABLE)
      else if |data| >= 0x1_0000_0000 then Err(GENERAL_ERROR)
      else Ok(data)
  }

  /** An upload of an object that cannot be read. */
  lemma {:induction false} UploadRefused(env: Env, st: ServerState, request: seq<byte>, e: Exception)
    requires |request| == 8 && request[0] / 0x20 == 2
    requires ReadObject(env.od, env.callbacks, st.store, IndexOf(request), SubindexOf(request), true) == Err(e)
    ensures var (s, r) := Exchange(env, st, request); s.store == st.store && r == Err(Refused(RefusalCode(e)))
  {
    LongOfAbort(IndexOf(request), SubindexOf(request), RefusalCode(e));
  }

  /** An upload of an object that yields `data`. */
  lemma {:induction false} UploadAnswered(
      env: Env, st: ServerState, request: seq<byte>, index: half, subindex: byte, data: seq<byte>)
    requires |request| == 8 && request[0] / 0x20 == 2 && index == IndexOf(request) && subindex == SubindexOf(request)
    requires ReadObject(env.od, env.callbacks, st.store, index, subindex, true) == Ok(data)
    ensures var (s, r) := Exchange(env, st, request);
            && s.store == st.store
            && r == (if data == [] then Err(Refused(NO_DATA_AVAILABLE))
                     else if |data| <= 4 then Ok(Frame(0x43 + (4 - |data|) * 4, index, subindex, data + Zeros(4 - |data|)))
                     else if |data| >= 0x1_0000_0000 then Err(Refused(GENERAL_ERROR))
                     else Ok(Frame(0x41, index, subindex, ToLE(|data|, 4))))
            && (4 < |data| < 0x1_0000_0000 ==> Open(s, index, subindex, 0, data))
  {
    LongOfAbort(index, subindex, NO_DATA_AVAILABLE);
    LongOfAbort(index, subindex, GENERAL_ERROR);
  }

  lemma {:induction false} UploadServed(env: Env, st: ServerState, index: half, subindex: byte)
    ensures var (s, r) := Exchange(env, st, Frame(0x40, index, subindex, Zeros(4)));
            s.store == st.store
            && match Readout(env, st.store, index, subindex)
               case Err(code) => r == Err(Refused(code))
               case Ok(data) =>
                 if |data| <= 4 then r == Ok(Frame(0x43 + (4 - |data|) * 4, index, subindex, data + Zeros(4 - |data|)))
                 else r == Ok(Frame(0x41, index, subindex, ToLE(|data|, 4))) && Open(s, index, subindex, 0, data)
  {
    var request := Frame(0x40, index, subindex, Zeros(4));
    FrameFields(0x40, index, subindex, Zeros(4));
    match ReadObject(env.od, env.callbacks, st.store, index, subindex, true)
    case Err(e) => UploadRefused(env, st, request, e);
    case Ok(data) => UploadAnswered(env, st, request, index, subindex, data);
  }

  lemma {:induction false} UploadSegmentServed(
      env: Env, st: ServerState, index: half, subindex: byte, toggle: nat, buffer: seq<byte>)
    requires (toggle == 0 || toggle == TOGGLE_BIT) && Open(st, index, subindex, toggle, buffer)
    ensures var (s, r) := Exchange(env, st, DataFrame(0x60 + toggle, []));
            var n := Min(7, |buffer|);
            && s.store == st.store && Open(s, index, subindex, TOGGLE_BIT - toggle, buffer[n..])
            && r == Ok(DataFrame(SegmentCommand(0, toggle, n, n == |buffer|), buffer[..n]))
  {
  }

  // ----- the stream for writing

  class WritableStream {
    const client: Client
    const size: Option<nat>
    const expHeader: Option<seq<byte>>
    var pos: nat
    var toggle: nat
    var done: bool

    ghost const index: half
    ghost const subindex: byte
    /** Everything written so far. */
    ghost var written: seq<byte>

    constructor (client: Client, index: half, subindex: byte, size: Option<nat>, expHeader: Option<seq<byte>>)
      ensures this.client == client && this.index == index && this.subindex == subindex && this.size == size
      ensures this.expHeader == expHeader && pos == 0 && toggle == 0 && !done && written == []
    {
      this.client, this.index, this.subindex, this.size, this.expHeader := client, index, subindex, size, expHeader;
      pos, toggle, done, written := 0, 0, false, [];
    }

    ghost predicate Valid()
      reads this
    {
      && (toggle == 0 || toggle == TOGGLE_BIT) && pos == |written|
      && (expHeader.Some? ==> size.Some? && 1 <= size.value <= 4
                              && expHeader.value == Header(0x23 + (4 - size.value) * 4, index, subindex))
    }

    /** A segmented transfer is under way, and client and server agree on the toggle bit. */
    ghost predicate InStep()
      reads this, client, client.server, client.server.node
    {
      client.Alone() && expHeader.None? && !done && Open(client.server.State(), index, subindex, toggle, written)
    }

    method SendExpedited(request: seq<byte>, ghost b: seq<byte>) returns (r: Result<seq<byte>, Error>)
      requires Valid() && expHeader.Some? && |b| <= 4 && request == expHeader.value + (b + Zeros(4 - |b|))
      modifies client, client.server, client.server.node
      ensures (r.Ok? ==> |r.value| == 8) && client.strays <= old(client.strays)
      ensures old(client.Alone()) && |b| == size.value ==>
                var error := WriteError(client.server.node.od, index, subindex, b, true);
                if error.Some? then
                  r == Err(Refused(RefusalCode(error.value))) && client.server.node.dataStore == old(client.server.node.dataStore)
                else && r.Ok? && r.value[0] == 0x60
                     && client.server.node.dataStore == Put(old(client.server.node.dataStore), index, subindex, b)
    {
      ghost var env, st := client.server.Environment(), client.server.State();
      r := client.RequestResponse(request);
      if |b| == size.value {
        assert request == Frame(0x23 + (4 - |b|) * 4, index, subindex, b + Zeros(4 - |b|));
        ExpeditedServed(env, st, index, subindex, b);
      }
    }

    method WriteExpedited(b: seq<byte>) returns (r: Result<nat, Error>)
      requires Valid() && expHeader.Some? && !done && size.value <= |b| <= 4
      modifies this`pos, this`done, this`written, client, client.server, client.server.node
      ensures Valid() && (r.Ok? ==> r.value == |b| && done) && client.strays <= old(client.strays)
      ensures old(client.Alone()) && |b| == size.value ==>
                var error := WriteError(client.server.node.od, index, subindex, b, true);
                if error.Some? then
                  r == Err(Refused(RefusalCode(error.value))) && client.server.node.dataStore == old(client.server.node.dataStore)
                else && r == Ok(|b|) && done
                     && client.server.node.dataStore == Put(old(client.server.node.dataStore), index, subindex, b)
    {
      var response := SendExpedited(expHeader.value + (b + Zeros(4 - |b|)), b);
      if response.Err? {
        return Err(response.error);
      }
      if response.value[0] / 0x20 != 3 {
        client.Abort(INVALID_COMMAND_SPECIFIER);
        return Err(UnexpectedResponse);
      }
      done := true;
      pos, written := pos + |b|, written + b;
      return Ok(|b|);
    }

    /** One segment with toggle bit `t`, and the answer to it. */
    method SendSegment(t: nat, chunk: seq<byte>, last: bool) returns (r: Result<seq<byte>, Error>)
      requires (t == 0 || t == TOGGLE_BIT) && |chunk| <= 7
      modifies client, client.server, client.server.node
      ensures (r.Ok? ==> |r.value| == 8) && client.strays <= old(client.strays)
      ensures old(client.Alone() && Open(client.server.State(), index, subindex, t, written)) ==>
                var all := written + chunk;
                var error := WriteError(client.server.node.od, index, subindex, all, true);
                if last && error.Some? then
                  r == Err(Refused(RefusalCode(error.value))) && client.server.node.dataStore == old(client.server.node.dataStore)
                else && r.Ok? && r.value[0] / 0x20 == 1
                     && Open(client.server.State(), index, subindex, TOGGLE_BIT - t, all)
                     && client.server.node.dataStore
                        == if last then Put(old(client.server.node.dataStore), index, subindex, all)
                           else old(client.server.node.dataStore)
    {
      ghost var env, st := client.server.Environment(), client.server.State();
      r := client.RequestResponse(DataFrame(SegmentCommand(0, t, |chunk|, last), chunk));
      if old(client.Alone()) && Open(st, index, subindex, t, written) {
        SegmentServed(env, st, index, subindex, t, written, chunk, last);
      }
    }

    method WriteSegment(b: seq<byte>) returns (r: Result<nat, Error>)
      requires Valid() && expHeader.None? && !done
      modifies this, client, client.server, client.server.node
      ensures Valid() && (r.Ok? ==> r.value == Min(7, |b|) && pos == old(pos) + r.value) && client.strays <= old(client.strays)
      ensures r.Ok? ==> (done <==> size.Some? && pos >= size.value)
      ensures old(InStep()) ==>
                var n := Min(7, |b|);
                var all, last := old(written) + b[..n], size.Some? && old(pos) + n >= size.value;
                var error := WriteError(client.server.node.od, index, subindex, all, true);
                if last && error.Some? then
                  r == Err(Refused(RefusalCode(error.value))) && client.server.node.dataStore == old(client.server.node.dataStore)
                else && r == Ok(n) && written == all && done == last && (!last ==> InStep())
                     && client.server.node.dataStore
                        == if last then Put(old(client.server.node.dataStore), index, subindex, all)
                           else old(client.server.node.dataStore)
    {
      var t := toggle;
      toggle := TOGGLE_BIT - toggle;
      var n := Min(7, |b|);
      var last := size.Some? && pos + n >= size.value;
      done := last;
      var response := SendSegment(t, b[..n], last);
      if response.Err? {
        return Err(response.error);
      }
      if response.value[0] / 0x20 != 1 {
        client.Abort(INVALID_COMMAND_SPECIFIER);
        return Err(UnexpectedResponse);
      }
      pos, written := pos + n, written + b[..n];
      return Ok(n);
    }

    /** Sends up to seven bytes of `b`, or all of it in an expedited transfer; returns how many. */
    method Write(b: seq<byte>) returns (r: Result<nat, Error>)
      requires Valid()
      modifies this, client, client.server, client.server.node
      ensures Valid() && client.strays <= old(client.strays)
      ensures r.Ok? && expHeader.None? ==> r.value == Min(7, |b|) && pos == old(pos) + r.value
                                           && (done <==> size.Some? && pos >= size.value)
      ensures r.Ok? && expHeader.Some? && |b| >= size.value ==> r.value == |b| && done
      ensures old(done) ==> r == Err(AllDataSent) && client.server.State() == old(client.server.State())
      ensures old(InStep()) ==>
                var n := Min(7, |b|);
                var all, last := old(written) + b[..n], size.Some? && old(pos) + n >= size.value;
                var error := WriteError(client.server.node.od, index, subindex, all, true);
                if last && error.Some? then
                  r == Err(Refused(RefusalCode(error.value))) && client.server.node.dataStore == old(client.server.node.dataStore)
                else && r == Ok(n) && written == all && done == last && (!last ==> InStep())
                     && client.server.node.dataStore
                        == if last then Put(old(client.server.node.dataStore), index, subindex, all)
                           else old(client.server.node.dataStore)
      ensures old(client.Alone() && expHeader.Some? && !done) && |b| == size.value ==>
                var error := WriteError(client.server.node.od, index, subindex, b, true);
                if error.Some? then
                  r == Err(Refused(RefusalCode(error.value))) && client.server.node.dataStore == old(client.server.node.dataStore)
                else && r == Ok(|b|) && done
                     && client.server.node.dataStore == Put(old(client.server.node.dataStore), index, subindex, b)
    {
      if done {
        return Err(AllDataSent);
      }
      if expHeader.Some? {
        if |b| < size.value {
          return Ok(0);
        }
        if |b| > 4 {
          return Err(MoreDataThanExpected);
        }
        r := WriteExpedited(b);
      } else {
        r := WriteSegment(b);
      }
    }

    /** An unfinished segmented transfer ends with an empty last segment. */
    method Close() returns (r: Result<(), Error>)
      requires Valid()
      modifies this, client, client.server, client.server.node
      ensures client.strays <= old(client.strays)
      ensures old(done) || expHeader.Some? ==> r == Ok(()) && client.server.State() == old(client.server.State())
      ensures old(InStep()) ==>
                var error := WriteError(client.server.node.od, index, subindex, old(written), true);
                && r == (if error.Some? then Err(Refused(RefusalCode(error.value))) else Ok(()))
                && client.server.node.dataStore
                   == if error.Some? then old(client.server.node.dataStore)
                      else Put(old(client.server.node.dataStore), index, subindex, old(written))
    {
      if !done && expHeader.None? {
        if old(InStep()) {
          SegmentServed(client.server.Environment(), client.server.State(), index, subindex, toggle, written, [], true);
          assert written + [] == written;
        }
        var response := client.RequestResponse(DataFrame(SegmentCommand(0, toggle, 0, true), []));
        if response.Err? {
          return Err(response.error);
        }
        done := true;
      }
      return Ok(());
    }
  }

  /** `open` for writing: initiates a segmented transfer, or keeps the header of an expedited one. */
  method OpenWritable(client: Client, index: half, subindex: byte, size: Option<nat>, forceSegment: bool)
    returns (r: Result<WritableStream, Error>)
    modifies client, client.server, client.server.node
    ensures client.strays <= old(client.strays)
    ensures r.Ok? ==> fresh(r.value) && r.value.client == client && r.value.Valid() && !r.value.done && r.value.size == size
    ensures r.Ok? ==> r.value.index == index && r.value.subindex == subindex && r.value.written == [] && r.value.pos == 0
    ensures r.Ok? ==> (r.value.expHeader.Some? <==> size.Some? && 1 <= size.value <= 4 && !forceSegment)
    ensures old(client.Alone()) ==> client.server.node.dataStore == old(client.server.node.dataStore)
    ensures old(client.Alone()) && r.Ok? && r.value.expHeader.None? ==> r.value.InStep()
    ensures old(client.Alone()) && (size.Some? ==> size.value < 0x1_0000_0000) ==> r.Ok?
  {
    if size.None? || size.value < 1 || size.value > 4 || forceSegment {
      var command, data := 0x20, Zeros(4);
      if size.Some? {
        if size.value >= 0x1_0000_0000 {
          return Err(Error.StructError);
        }
        command, data := 0x21, ToLE(size.value, 4);
      }
      InitiateServed(client.server.Environment(), client.server.State(), index, subindex, command, data);
      var response := client.RequestResponse(Frame(command, index, subindex, data));
      if response.Err? {
        return Err(response.error);
      }
      if response.value[0] != 0x60 {
        client.Abort(INVALID_COMMAND_SPECIFIER);
        return Err(UnexpectedResponse);
      }
      var stream := new WritableStream(client, index, subindex, size, None);
      return Ok(stream);
    }
    var header := Header(0x23 + (4 - size.value) * 4, index, subindex);
    var stream := new WritableStream(client, index, subindex, size, Some(header));
    return Ok(stream);
  }

  /**
   `download`: the caller keeps offering the data that is left.  The object ends up holding exactly the
   data, or the node's refusal is reported and nothing is stored.
   */
  method Download(client: Client, index: half, subindex: byte, data: seq<byte>, forceSegment: bool)
    returns (r: Result<(), Error>)
    modifies client, client.server, client.server.node
    ensures client.strays <= old(client.strays)
    ensures old(client.Alone()) && |data| < 0x1_0000_0000 ==>
              var error := WriteError(client.server.node.od, index, subindex, data, true);
              && r == (if error.Some? then Err(Refused(RefusalCode(error.value))) else Ok(()))
              && client.server.node.dataStore == if error.Some? then old(client.server.node.dataStore)
                                                 else Put(old(client.server.node.dataStore), index, subindex, data)
  {
    var attempt := OpenWritable(client, index, subindex, Some(|data|), forceSegment);
    if attempt.Err? {
      return Err(attempt.error);
    }
    var stream := attempt.value;
    ghost var store := client.server.node.dataStore;
    var offset := 0;
    while offset < |data|
      invariant stream.Valid() && stream.client == client && offset <= |data| && (offset == |data| > 0 <==> stream.done)
      invariant client.strays <= old(client.strays)
      invariant stream.expHeader.None? ==> stream.pos == offset
      invariant stream.expHeader.Some? ==> offset == 0 || offset == |data|
      invariant old(client.Alone()) ==> client.Alone() && Downloading(stream, store, data, offset)
    {
      SliceOn(data, offset);
      var sent := stream.Write(data[offset..]);
      if sent.Err? {
        return Err(sent.error);
      }
      offset := offset + sent.value;
    }
    r := stream.Close();
  }

  /** How far a download of `data` has come: up to its end the store is untouched. */
  ghost predicate Downloading(stream: WritableStream, store: DataStore, data: seq<byte>, offset: nat)
    requires offset <= |data|
    reads stream, stream.client, stream.client.server, stream.client.server.node
  {
    if stream.done then
      && WriteError(stream.client.server.node.od, stream.index, stream.subindex, data, true).None?
      && stream.client.server.node.dataStore == Put(store, stream.index, stream.subindex, data)
    else
      && stream.client.server.node.dataStore == store
      && (stream.expHeader.None? ==> stream.InStep() && stream.written == data[..offset])
  }

  lemma {:induction false} SliceOn(data: seq<byte>, offset: nat)
    requires offset <= |data|
    ensures var n := Min(7, |data| - offset); data[..offset] + data[offset..][..n] == data[..offset + n]
    ensures data[0..] == data && data[..|data|] == data
  {
  }

  // ----- a download whose size is not known in advance

  function Concat(chunks: seq<seq<byte>>): seq<byte> {
    if chunks == [] then [] else Concat(chunks[..|chunks| - 1]) + chunks[|chunks| - 1]
  }

  /**
   Whatever pieces the caller writes, the closing empty segment makes the server store them all, and
   client and server agree on the toggle bit before every segment.
   */
  method DownloadPieces(client: Client, index: half, subindex: byte, chunks: seq<seq<byte>>) returns (r: Result<(), Error>)
    modifies client, client.server, client.server.node
    ensures old(client.Alone()) ==>
              var error := WriteError(client.server.node.od, index, subindex, Concat(chunks), true);
              && r == (if error.Some? then Err(Refused(RefusalCode(error.value))) else Ok(()))
              && client.server.node.dataStore == if error.Some? then old(client.server.node.dataStore)
                                                 else Put(old(client.server.node.dataStore), index, subindex, Concat(chunks))
  {
    var attempt := OpenWritable(client, index, subindex, None, false);
    if attempt.Err? {
      return Err(attempt.error);
    }
    var stream := attempt.value;
    ghost var store := client.server.node.dataStore;
    for k := 0 to |chunks|
      invariant stream.Valid() && stream.client == client && !stream.done
      invariant old(client.Alone()) ==>
                  stream.InStep() && stream.written == Concat(chunks[..k]) && client.server.node.dataStore == store
    {
      var offset := 0;
      assert Concat(chunks[..k]) + chunks[k][..0] == Concat(chunks[..k]);
      while offset < |chunks[k]|
        invariant offset <= |chunks[k]| && stream.Valid() && stream.client == client && !stream.done
        invariant old(client.Alone()) ==>
                    stream.InStep() && stream.written == Concat(chunks[..k]) + chunks[k][..offset]
                    && client.server.node.dataStore == store
      {
        SliceOn(chunks[k], offset);
        Regroup(Concat(chunks[..k]), chunks[k][..offset], chunks[k][offset..][..Min(7, |chunks[k]| - offset)]);
        var sent := stream.Write(chunks[k][offset..]);
        if sent.Err? {
          return Err(sent.error);
        }
        offset := offset + sent.value;
      }
      assert chunks[..k + 1][..k] == chunks[..k] && chunks[k][..|chunks[k]|] == chunks[k];
    }
    assert chunks[..|chunks|] == chunks;
    r := stream.Close();
  }

  // ----- the stream for reading

  /** The client reads back what the server put into an upload segment. */
  lemma {:induction false} SegmentParses(toggle: nat, chunk: seq<byte>, last: bool)
    requires (toggle == 0 || toggle == TOGGLE_BIT) && |chunk| <= 7
    ensures var response := DataFrame(SegmentCommand(0, toggle, |chunk|, last), chunk);
            && response[0] / 0x20 == 0 && Field(response[0], 0x10, 2) * TOGGLE_BIT == toggle
            && (Field(response[0], 1, 2) == 1 <==> last) && 7 - Field(response[0], 2, 8) == |chunk|
            && response[1..|chunk| + 1] == chunk
  {
  }

  /** A segment that is not the last leaves the server with less to send. */
  lemma {:induction false} SegmentShrinks(env: Env, st: ServerState, toggle: nat)
    requires toggle == 0 || toggle == TOGGLE_BIT
    ensures var (s, r) := Exchange(env, st, DataFrame(0x60 + toggle, []));
            r.Ok? && Field(r.value[0], 1, 2) == 0 ==> s.Left() < st.Left()
  {
  }

  class ReadableStream {
    const client: Client
    const size: Option<nat>
    const expData: Option<seq<byte>>
    var done: bool
    var toggle: nat
    var pos: nat

    ghost const index: half
    ghost const subindex: byte

    constructor (client: Client, index: half, subindex: byte, size: Option<nat>, expData: Option<seq<byte>>)
      ensures this.client == client && this.index == index && this.subindex == subindex
      ensures this.size == size && this.expData == expData && !done && toggle == 0
    {
      this.client, this.index, this.subindex, this.size, this.expData := client, index, subindex, size, expData;
      done, toggle, pos := false, 0, if expData.Some? then |expData.value| else 0;
    }

    /** `rest` is what the server still has to send. */
    ghost predicate Pending(rest: seq<byte>)
      reads this, client, client.server, client.server.node
    {
      client.Alone() && expData.None? && !done && rest != [] && Open(client.server.State(), index, subindex, toggle, rest)
    }

    /** One request for the next segment. */
    method ReadSegment(ghost rest: seq<byte>) returns (r: Result<seq<byte>, Error>)
      requires (toggle == 0 || toggle == TOGGLE_BIT) && !done
      modifies this, client, client.server, client.server.node
      ensures (toggle == 0 || toggle == TOGGLE_BIT) && client.strays <= old(client.strays)
      ensures r.Ok? && !done ==>
                client.strays < old(client.strays) || client.server.State().Left() < old(client.server.State().Left())
      ensures old(Pending(rest)) ==>
                var n := Min(7, |rest|);
                && r == Ok(rest[..n]) && client.requests == old(client.requests) + 1
                && client.server.node.dataStore == old(client.server.node.dataStore)
                && if n == |rest| then done else Pending(rest[n..])
    {
      if old(Pending(rest)) {
        UploadSegmentServed(client.server.Environment(), client.server.State(), index, subindex, toggle, rest);
        SegmentParses(toggle, rest[..Min(7, |rest|)], Min(7, |rest|) == |rest|);
      }
      SegmentShrinks(client.server.Environment(), client.server.State(), toggle);
      var response := client.RequestResponse(DataFrame(0x60 + toggle, []));
      if response.Err? {
        return response;
      }
      var command := response.value[0];
      if command / 0x20 != 0 {
        client.Abort(INVALID_COMMAND_SPECIFIER);
        return Err(UnexpectedResponse);
      }
      if Field(command, 0x10, 2) * TOGGLE_BIT != toggle {
        client.Abort(TOGGLE_NOT_ALTERNATED);
        return Err(UnexpectedResponse);
      }
      var length := 7 - Field(command, 2, 8);
      if Field(command, 1, 2) == 1 {
        done := true;
      }
      toggle := TOGGLE_BIT - toggle;
      pos := pos + length;
      return Ok(response.value[1..length + 1]);
    }

    /** One segment, or nothing at the end. */
    method Read(ghost rest: seq<byte>) returns (r: Result<seq<byte>, Error>)
      requires toggle == 0 || toggle == TOGGLE_BIT
      modifies this, client, client.server, client.server.node
      ensures (toggle == 0 || toggle == TOGGLE_BIT) && client.strays <= old(client.strays)
      ensures r.Ok? && !done ==>
                client.strays < old(client.strays) || client.server.State().Left() < old(client.server.State().Left())
      ensures r.Ok? && old(done) ==> done
      ensures old(done) ==> r == Ok([]) && done && client.requests == old(client.requests)
      ensures old(!done) && expData.Some? ==> r == Ok(expData.value) && done && client.requests == old(client.requests)
      ensures old(done) || expData.Some? || old(Pending(rest)) ==>
                client.server.node.dataStore == old(client.server.node.dataStore)
      ensures old(Pending(rest)) ==>
                var n := Min(7, |rest|);
                && r == Ok(rest[..n]) && client.requests == old(client.requests) + 1
                && if n == |rest| then done else Pending(rest[n..])
    {
      if done {
        return Ok([]);
      }
      if expData.Some? {
        done := true;
        return Ok(expData.value);
      }
      r := ReadSegment(rest);
    }

    /** Reads until nothing comes back. */
    method ReadAll(ghost rest: seq<byte>) returns (r: Result<seq<byte>, Error>)
      requires toggle == 0 || toggle == TOGGLE_BIT
      modifies this, client, client.server, client.server.node
      ensures client.strays <= old(client.strays)
      ensures old(!done) && expData.Some? ==>
                r == Ok(expData.value) && client.requests == old(client.requests)
                && client.server.node.dataStore == old(client.server.node.dataStore)
      ensures old(Pending(rest)) ==>
                r == Ok(rest) && client.requests == old(client.requests) + Segments(|rest|)
                && client.server.node.dataStore == old(client.server.node.dataStore)
    {
      var res: seq<byte> := [];
      ghost var left := rest;
      while true
        invariant (toggle == 0 || toggle == TOGGLE_BIT) && client.strays <= old(client.strays)
        invariant old(!done) && expData.Some? ==>
                    (if done then res == expData.value else res == []) && client.requests == old(client.requests)
                    && client.server.node.dataStore == old(client.server.node.dataStore)
        invariant old(Pending(rest)) ==>
                    && res + left == rest && (if done then left == [] else Pending(left))
                    && client.requests + Segments(|left|) == old(client.requests) + Segments(|rest|)
                    && client.server.node.dataStore == old(client.server.node.dataStore)
        decreases !done, client.strays, client.server.State().Left()
      {
        var part := Read(left);
        if part.Err? {
          return part;
        }
        if part.value == [] {
          break;
        }
        res := res + part.value;
        left := left[Min(7, |left|)..];
      }
      assert res + [] == res;
      return Ok(res);
    }
  }

  /**
   What an initiate response says, by the two low bits of its first byte.  0x42: the data is all four bytes, and
   no size is given.  0x43, with four times the number of unused bytes added: that much less.  0x41: the size of a
   segmented transfer, low byte first.  0x40: a segmented transfer of unknown size.
   */
  ghost predicate Announces(frame: seq<byte>, size: Option<nat>, expData: Option<seq<byte>>) {
    && |frame| == 8 && frame[0] / 0x20 == 2
    && match frame[0] % 4
       case 3 => var n := 4 - frame[0] / 4 % 4; size == Some(n) && expData == Some(frame[4..4 + n])
       case 2 => size == None && expData == Some([frame[4], frame[5], frame[6], frame[7]])
       case 1 =>
         && size == Some(frame[4] as int + 0x100 * frame[5] as int + 0x1_0000 * frame[6] as int + 0x100_0000 * frame[7] as int)
         && expData == None
       case _ => size == None && expData == None
  }

  /** Every response to an upload request is understood, also from servers that give no size. */
  lemma {:induction false} ResponseUnderstood(frame: seq<byte>)
    requires |frame| == 8 && frame[0] / 0x20 == 2
    ensures Announces(frame, ParseInitiate(frame).0, ParseInitiate(frame).1)
  {
    FourBytes(frame[4..8]);
    var n := 4 - frame[0] / 4 % 4;
    assert frame[4..8][..n] == frame[4..4 + n];
    assert frame[4..8] == [frame[4], frame[5], frame[6], frame[7]];
  }

  lemma {:induction false} FourBytes(b: seq<byte>)
    requires |b| == 4
    ensures FromLE(b) == b[0] as int + 0x100 * b[1] as int + 0x1_0000 * b[2] as int + 0x100_0000 * b[3] as int
  {
    assert b[1..] == [b[1], b[2], b[3]] && [b[1], b[2], b[3]][1..] == [b[2], b[3]] && [b[2], b[3]][1..] == [b[3]];
    assert FromLE([b[3]]) == b[3];
    assert FromLE([b[2], b[3]]) == b[2] as int + 0x100 * b[3] as int;
  }

  /** What the client makes of the server's response to an upload request. */
  lemma {:induction false} UploadUnderstood(env: Env, st: ServerState, index: half, subindex: byte)
    ensures var (s, r) := Exchange(env, st, Frame(0x40, index, subindex, Zeros(4)));
            s.store == st.store
            && match Readout(env, st.store, index, subindex)
               case Err(code) => r == Err(Refused(code))
               case Ok(data) =>
                 && r.Ok? && |r.value| == 8 && r.value[0] / 0x20 == 2
                 && IndexOf(r.value) == index && SubindexOf(r.value) == subindex
                 && ParseInitiate(r.value) == (Some(|data|), if |data| <= 4 then Some(data) else None)
                 && (|data| > 4 ==> Open(s, index, subindex, 0, data))
  {
    UploadServed(env, st, index, subindex);
    match Readout(env, st.store, index, subindex)
    case Err(_) =>
    case Ok(data) => InitiateParses(index, subindex, data);
  }

  /** The first response to a reader, interpreted; `frame` is that response, whoever sent it. */
  method InitiateUpload(client: Client, index: half, subindex: byte)
    returns (r: Result<(Option<nat>, Option<seq<byte>>), Error>, ghost frame: seq<byte>)
    modifies client, client.server, client.server.node
    ensures client.strays <= old(client.strays)
    ensures r.Ok? ==> Announces(frame, r.value.0, r.value.1) && IndexOf(frame) == index && SubindexOf(frame) == subindex
    ensures r.Ok? && client.strays == old(client.strays) ==>
              Exchange(client.server.Environment(), old(client.server.State()), Frame(0x40, index, subindex, Zeros(4))).1 == Ok(frame)
    ensures old(client.Alone()) ==>
              && client.requests == old(client.requests) + 1
              && client.server.node.dataStore == old(client.server.node.dataStore)
              && match Readout(client.server.Environment(), old(client.server.node.dataStore), index, subindex)
                 case Err(code) => r == Err(Refused(code))
                 case Ok(data) =>
                   && r == Ok((Some(|data|), if |data| <= 4 then Some(data) else None))
                   && (|data| > 4 ==> Open(client.server.State(), index, subindex, 0, data))
  {
    ghost var env, st := client.server.Environment(), client.server.State();
    var response := client.RequestResponse(Frame(0x40, index, subindex, Zeros(4)));
    UploadUnderstood(env, st, index, subindex);
    if response.Err? {
      return Err(response.error), [];
    }
    var answer := response.value;
    if answer[0] / 0x20 != 2 || IndexOf(answer) != index || SubindexOf(answer) != subindex {
      return Err(UnexpectedResponse), answer;
    }
    ResponseUnderstood(answer);
    return Ok(ParseInitiate(answer)), answer;
  }

  /** `open` for reading. */
  method OpenReadable(client: Client, index: half, subindex: byte)
    returns (r: Result<ReadableStream, Error>, ghost frame: seq<byte>)
    modifies client, client.server, client.server.node
    ensures r.Ok? ==> fresh(r.value) && r.value.client == client && !r.value.done && r.value.toggle == 0
    ensures r.Ok? ==> Announces(frame, r.value.size, r.value.expData) && IndexOf(frame) == index && SubindexOf(frame) == subindex
    ensures client.strays <= old(client.strays)
    ensures old(client.Alone()) ==>
              && client.requests == old(client.requests) + 1
              && client.server.node.dataStore == old(client.server.node.dataStore)
              && match Readout(client.server.Environment(), old(client.server.node.dataStore), index, subindex)
                 case Err(code) => r == Err(Refused(code))
                 case Ok(data) =>
                   && r.Ok? && r.value.size == Some(|data|)
                   && if |data| <= 4 then r.value.expData == Some(data) else r.value.Pending(data)
  {
    var parsed;
    parsed, frame := InitiateUpload(client, index, subindex);
    if parsed.Err? {
      return Err(parsed.error), frame;
    }
    var stream := new ReadableStream(client, index, subindex, parsed.value.0, parsed.value.1);
    return Ok(stream), frame;
  }

  /** Size and expedited data in the response to an upload request. */
  function ParseInitiate(frame: seq<byte>): (Option<nat>, Option<seq<byte>>)
    requires |frame| == 8
  {
    var sized := Field(frame[0], 1, 2) == 1;
    if Field(frame[0], 2, 2) == 1 then
      if sized then
        var size: nat := 4 - Field(frame[0], 4, 4);
        (Some(size), Some(frame[4..8][..size]))
      else (None, Some(frame[4..8]))
    else if sized then (Some(LongOf(frame)), None)
    else (None, None)
  }

  lemma {:induction false} InitiateParses(index: half, subindex: byte, data: seq<byte>)
    requires 0 < |data| < 0x1_0000_0000
    ensures |data| <= 4 ==>
              var f := Frame(0x43 + (4 - |data|) * 4, index, subindex, data + Zeros(4 - |data|));
              && f[0] / 0x20 == 2 && IndexOf(f) == index && SubindexOf(f) == subindex
              && ParseInitiate(f) == (Some(|data|), Some(data))
    ensures |data| > 4 ==>
              var f := Frame(0x41, index, subindex, ToLE(|data|, 4));
              f[0] / 0x20 == 2 && IndexOf(f) == index && SubindexOf(f) == subindex && ParseInitiate(f) == (Some(|data|), None)
  {
    if |data| <= 4 {
      FrameFields(0x43 + (4 - |data|) * 4, index, subindex, data + Zeros(4 - |data|));
      assert (data + Zeros(4 - |data|))[..|data|] == data;
    } else {
      FrameFields(0x41, index, subindex, ToLE(|data|, 4));
      Pow2Eight(0);
      Pow2Eight(1);
      Pow2Eight(2);
      Pow2Eight(3);
      FromLEOfToLE(|data|, 4);
    }
  }

  /**
   `upload`: exactly what the node reads out, or its refusal.  Data of more than four bytes takes one
   request to initiate and one for every seven bytes.
   */
  method Upload(client: Client, index: half, subindex: byte) returns (r: Result<seq<byte>, Error>, ghost frame: seq<byte>)
    modifies client, client.server, client.server.node
    ensures client.strays <= old(client.strays)
    ensures r.Ok? && |frame| == 8 && frame[0] % 4 == 2 ==> r.value == frame[4..8]
    ensures r.Ok? && |frame| == 8 && frame[0] % 4 == 3 ==> r.value == frame[4..8 - frame[0] / 4 % 4]
    ensures r.Ok? ==> |frame| == 8
    ensures old(client.Alone()) ==>
              && client.server.node.dataStore == old(client.server.node.dataStore)
              && match Readout(client.server.Environment(), old(client.server.node.dataStore), index, subindex)
                 case Err(code) => r == Err(Refused(code)) && client.requests == old(client.requests) + 1
                 case Ok(data) =>
                   r == Ok(data)
                   && client.requests == old(client.requests) + 1 + if |data| <= 4 then 0 else Segments(|data|)
  {
    ghost var expected := Readout(client.server.Environment(), client.server.node.dataStore, index, subindex);
    var attempt;
    attempt, frame := OpenReadable(client, index, subindex);
    if attempt.Err? {
      return Err(attempt.error), frame;
    }
    var stream := attempt.value;
    r := stream.ReadAll(if expected.Ok? then expected.value else []);
    if r.Ok? && stream.size.Some? && 0 < stream.size.value < |r.value| {
      r := Ok(r.value[..stream.size.value]);
    }
  }

  /**
   End to end, from any state of client and server: what was downloaded to a readable, writable object
   is what the next upload returns; nothing at all was downloaded to it exactly when that is refused.
   */
  method RoundTrip(client: Client, index: half, subindex: byte, data: seq<byte>, forceSegment: bool)
    returns (r: Result<seq<byte>, Error>)
    requires client.Alone() && |data| < 0x1_0000_0000
    requires WriteError(client.server.node.od, index, subindex, data, true).None?
    requires FindObject(client.server.node.od, index, subindex).value.Readable()
    requires (index, subindex) !in client.server.node.callbacks
    modifies client, client.server, client.server.node
    ensures r == if data == [] then Err(Refused(NO_DATA_AVAILABLE)) else Ok(data)
  {
    ReadAfterWrite(client.server.node.od, client.server.node.callbacks, client.server.node.dataStore, index, subindex, data,
                   index, subindex);
    var _ := Download(client, index, subindex, data, forceSegment);
    ghost var frame;
    r, frame := Upload(client, index, subindex);
  }
}

/**
 * The runtime of a generated ango service: the version handshake that
 * ServeHTTP performs on a fresh connection, and the dispatch loop that then
 * reads request messages, calls the session's procedures and writes their
 * responses. The WebSocket connection, its text framing and JSON decoding
 * are foreign code: a connection is a script of incoming frames and of the
 * outcomes of successive writes, and decoding is an oracle.
 */
module Protocol {
  import opened Wrappers
  import opened Definitions

  newtype uint64 = x: int | 0 <= x < 0x1_0000_0000_0000_0000

  /** The errors the runtime reports or returns. The first three are the
      sentinel errors of the generated code; the others carry the reason
      given by the transport or the JSON decoder. */
  datatype Error =
    | InvalidVersionString        // "invalid version string"
    | InvalidMessageType          // "invalid message type"
    | UnknownProcedure            // "unknown procedure"
    | ReadFailed(reason: string)
    | Undecodable(reason: string)
    | WriteFailed(reason: string)

  /** The reason a read gives once the peer has nothing more to send. */
  const EndOfInput := "EOF"

  const MsgTypeRequest := "req"
  const MsgTypeResponse := "res"
  const ErrorReturned := "errorReturned"

  const VersionAccepted := "good"
  const VersionRejected := "invalid"

  /** JSON text that is passed on without being decoded here. */
  datatype Payload = Payload(raw: string)

  /** The root of an incoming message. */
  datatype InMsg = InMsg(msgType: string, procedure: string, callbackId: uint64, data: Payload, error: Payload)

  datatype OutError = OutError(errorType: string, message: string)

  /** The root of an outgoing message; an absent field is omitted. */
  datatype OutMsg = OutMsg(msgType: string, procedure: string, callbackId: uint64,
                           data: Option<Payload>, error: Option<OutError>)

  /** What a procedure of the session returned: its return values, or an error. */
  datatype Reply = Returned(rets: Payload) | ReturnedError(message: string)

  /** The session's procedures: the reply to the k-th call (counted from 0
      over the session's life) of procedure p with the given arguments. */
  type Handler = (nat, Procedure, Payload) -> Reply

  /** The JSON decoder: a frame into a root message, and the arguments of a
      procedure (Some(reason) when they do not unmarshal into its argument
      record). */
  datatype Codec = Codec(
    decodeMessage: string -> Result<InMsg, string>,
    decodeArgs: (Procedure, Payload) -> Option<string>)

  datatype Incoming = Frame(text: string) | Broken(reason: string)

  datatype Outgoing = Text(text: string) | Json(msg: OutMsg)

  /** A connection: the frames still to arrive, the outcomes of the coming
      writes (None succeeds, Some(reason) fails; once the list is used up
      every write succeeds), and what has been written so far. */
  datatype ConnState = ConnState(incoming: seq<Incoming>, writeOutcomes: seq<Option<string>>, written: seq<Outgoing>)

  // ---- The transport ----

  /** The next frame as text, or the reason it cannot be read. */
  function ReadFrame(cs: ConnState): Result<string, Error>
  {
    if cs.incoming == [] then Err(ReadFailed(EndOfInput))
    else match cs.incoming[0]
      case Frame(t) => Ok(t)
      case Broken(r) => Err(ReadFailed(r))
  }

  function AfterRead(cs: ConnState): ConnState
  {
    if cs.incoming == [] then cs else cs.(incoming := cs.incoming[1..])
  }

  /** The next frame decoded as a root message. */
  function ReadMessage(codec: Codec, cs: ConnState): Result<InMsg, Error>
  {
    match ReadFrame(cs)
    case Err(e) => Err(e)
    case Ok(t) =>
      match codec.decodeMessage(t)
      case Ok(m) => Ok(m)
      case Err(r) => Err(Undecodable(r))
  }

  /** Why the next write fails, if it does. */
  function WriteFailure(cs: ConnState): Option<string>
  {
    if cs.writeOutcomes == [] then None else cs.writeOutcomes[0]
  }

  /** The connection after an attempt to write o: it is sent unless the
      write fails. */
  function AfterWrite(cs: ConnState, o: Outgoing): ConnState
  {
    ConnState(cs.incoming,
              if cs.writeOutcomes == [] then [] else cs.writeOutcomes[1..],
              if WriteFailure(cs).None? then cs.written + [o] else cs.written)
  }

  class Conn {
    const codec: Codec
    var incoming: seq<Incoming>
    var writeOutcomes: seq<Option<string>>
    var written: seq<Outgoing>

    function State(): ConnState
      reads this
    {
      ConnState(incoming, writeOutcomes, written)
    }

    constructor (codec: Codec, incoming: seq<Incoming>, writeOutcomes: seq<Option<string>>)
      ensures this.codec == codec && State() == ConnState(incoming, writeOutcomes, [])
    {
      this.codec := codec;
      this.incoming := incoming;
      this.writeOutcomes := writeOutcomes;
      this.written := [];
    }

    method ReadText() returns (r: Result<string, Error>)
      modifies this
      ensures r == ReadFrame(old(State())) && State() == AfterRead(old(State()))
    {
      r := ReadFrame(State());
      if incoming != [] {
        incoming := incoming[1..];
      }
    }

    method ReadJSON() returns (r: Result<InMsg, Error>)
      modifies this
      ensures r == ReadMessage(codec, old(State())) && State() == AfterRead(old(State()))
    {
      var t := ReadText();
      match t
      case Err(e) =>
        r := Err(e);
      case Ok(text) =>
        match codec.decodeMessage(text)
        case Ok(m) =>
          r := Ok(m);
        case Err(reason) =>
          r := Err(Undecodable(reason));
    }

    method Write(o: Outgoing) returns (err: Option<Error>)
      modifies this
      ensures err == (if WriteFailure(old(State())).Some? then Some(WriteFailed(WriteFailure(old(State())).value)) else None)
      ensures State() == AfterWrite(old(State()), o)
    {
      var failure := WriteFailure(State());
      if writeOutcomes != [] {
        writeOutcomes := writeOutcomes[1..];
      }
      if failure.Some? {
        return Some(WriteFailed(failure.value));
      }
      written := written + [o];
      return None;
    }
  }

  // ---- The session ----

  class Session {
    const handler: Handler
    /** The requests whose procedure was called, in order. */
    var handled: seq<InMsg>
    /** The errors Stop was called with, in order. */
    var stops: seq<Error>

    constructor (handler: Handler)
      ensures this.handler == handler && handled == [] && stops == []
    {
      this.handler := handler;
      handled := [];
      stops := [];
    }

    /** Calls procedure p with the arguments of request m. */
    method Call(p: Procedure, m: InMsg) returns (reply: Reply)
      modifies this`handled
      ensures reply == handler(|old(handled)|, p, m.data)
      ensures handled == old(handled) + [m]
    {
      reply := handler(|handled|, p, m.data);
      handled := handled + [m];
    }

    method Stop(err: Error)
      modifies this`stops
      ensures stops == old(stops) + [err]
    {
      stops := stops + [err];
    }
  }

  // ---- One incoming message ----

  /** What the loop does with a decoded message. */
  datatype Dispatch = Ignore | Reject(err: Error) | Invoke(proc: Procedure)

  /** Requests name a server procedure and must carry arguments that decode;
      responses are ignored; any other message type ends the loop. */
  function DispatchOf(procs: map<string, Procedure>, codec: Codec, m: InMsg): (d: Dispatch)
    ensures d.Ignore? <==> m.msgType == MsgTypeResponse
    ensures d.Invoke? <==> m.msgType == MsgTypeRequest && m.procedure in procs &&
                           codec.decodeArgs(procs[m.procedure], m.data).None?
    ensures d.Invoke? ==> d.proc == procs[m.procedure]
    ensures d == Reject(InvalidMessageType) <==> m.msgType != MsgTypeRequest && m.msgType != MsgTypeResponse
    ensures d == Reject(UnknownProcedure) <==> m.msgType == MsgTypeRequest && m.procedure !in procs
    ensures d.Reject? && d.err.Undecodable? <==>
      m.msgType == MsgTypeRequest && m.procedure in procs && codec.decodeArgs(procs[m.procedure], m.data).Some?
    ensures d.Reject? && d.err.Undecodable? ==> d.err.reason == codec.decodeArgs(procs[m.procedure], m.data).value
  {
    match m.msgType
    case "req" =>
      if m.procedure in procs then
        match codec.decodeArgs(procs[m.procedure], m.data)
        case Some(reason) => Reject(Undecodable(reason))
        case None => Invoke(procs[m.procedure])
      else Reject(UnknownProcedure)
    case "res" => Ignore
    case _ => Reject(InvalidMessageType)
  }

  /** A request whose procedure gets called. */
  predicate Served(procs: map<string, Procedure>, codec: Codec, m: InMsg)
  {
    DispatchOf(procs, codec, m).Invoke?
  }

  /** The response to a two-way request: same callback id, and either the
      return values or the returned error, never both. */
  function Response(callbackId: uint64, reply: Reply): (o: OutMsg)
    ensures o.msgType == MsgTypeResponse && o.callbackId == callbackId && o.procedure == ""
    ensures o.data.Some? != o.error.Some?
    ensures o.error.Some? <==> reply.ReturnedError?
    ensures reply.ReturnedError? ==> o.error.value == OutError(ErrorReturned, reply.message)
    ensures reply.Returned? ==> o.data.value == reply.rets
  {
    match reply
    case ReturnedError(message) =>
      OutMsg(MsgTypeResponse, "", callbackId, None, Some(OutError(ErrorReturned, message)))
    case Returned(rets) =>
      OutMsg(MsgTypeResponse, "", callbackId, Some(rets), None)
  }

  /** What the loop sends for the k-th call, on request m: nothing for a
      oneway procedure, one response otherwise. */
  function ReplyTo(procs: map<string, Procedure>, handler: Handler, k: nat, m: InMsg): seq<Outgoing>
  {
    if m.procedure in procs && !procs[m.procedure].oneway then
      [Json(Response(m.callbackId, handler(k, procs[m.procedure], m.data)))]
    else []
  }

  /** f applied to each element of xs with its position counted from
      `before`, the results joined in order. */
  function Gather<X, Y>(f: (nat, X) -> seq<Y>, before: nat, xs: seq<X>): seq<Y>
    decreases |xs|
  {
    if xs == [] then []
    else
      var k := |xs| - 1;
      Gather(f, before, xs[..k]) + f(before + k, xs[k])
  }

  /** What the loop sends for the requests reqs, called after the session
      has already handled `before` requests. */
  function Replies(procs: map<string, Procedure>, handler: Handler, before: nat, reqs: seq<InMsg>): seq<Outgoing>
  {
    Gather((k: nat, m: InMsg) => ReplyTo(procs, handler, k, m), before, reqs)
  }

  // ---- The dispatch loop ----

  datatype StepResult =
    | Continue(conn: ConnState, handled: seq<InMsg>)
    | Halt(err: Error, conn: ConnState, handled: seq<InMsg>)

  /** One turn of the loop: read a message and dispatch it. */
  function Step(procs: map<string, Procedure>, codec: Codec, handler: Handler,
                cs: ConnState, handled: seq<InMsg>): (s: StepResult)
    ensures s.Continue? ==> |s.conn.incoming| < |cs.incoming|
  {
    var cs1 := AfterRead(cs);
    match ReadMessage(codec, cs)
    case Err(e) => Halt(e, cs1, handled)
    case Ok(m) =>
      match DispatchOf(procs, codec, m)
      case Ignore => Continue(cs1, handled)
      case Reject(e) => Halt(e, cs1, handled)
      case Invoke(p) =>
        var handled1 := handled + [m];
        if p.oneway then Continue(cs1, handled1)
        else
          var o := Json(Response(m.callbackId, handler(|handled|, p, m.data)));
          match WriteFailure(cs1)
          case Some(r) => Halt(WriteFailed(r), AfterWrite(cs1, o), handled1)
          case None => Continue(AfterWrite(cs1, o), handled1)
  }

  datatype RunResult = RunResult(err: Error, conn: ConnState, handled: seq<InMsg>)

  /** The loop: it runs until a step halts, and returns that step's error. */
  function Run(procs: map<string, Procedure>, codec: Codec, handler: Handler,
               cs: ConnState, handled: seq<InMsg>): RunResult
    decreases |cs.incoming|
  {
    match Step(procs, codec, handler, cs, handled)
    case Halt(e, cs', handled') => RunResult(e, cs', handled')
    case Continue(cs', handled') => Run(procs, codec, handler, cs', handled')
  }

  /** Reads and dispatches messages until one ends the loop, and returns the
      error that ended it. */
  method RunProtocol(conn: Conn, session: Session, procs: map<string, Procedure>) returns (err: Error)
    modifies conn, session
    ensures Run(procs, conn.codec, session.handler, old(conn.State()), old(session.handled)) ==
            RunResult(err, conn.State(), session.handled)
    ensures session.stops == old(session.stops)
  {
    while true
      invariant Run(procs, conn.codec, session.handler, conn.State(), session.handled) ==
                Run(procs, conn.codec, session.handler, old(conn.State()), old(session.handled))
      invariant session.stops == old(session.stops)
      decreases |conn.incoming|
    {
      ghost var cs, handled := conn.State(), session.handled;
      var read := conn.ReadJSON();
      if read.Err? {
        return read.error;
      }
      var m := read.value;
      match m.msgType
      case "req" =>
        if m.procedure !in procs {
          return UnknownProcedure;
        }
        var p := procs[m.procedure];
        var bad := conn.codec.decodeArgs(p, m.data);
        if bad.Some? {
          return Undecodable(bad.value);
        }
        var reply := session.Call(p, m);
        if !p.oneway {
          var out := OutMsg(MsgTypeResponse, "", m.callbackId, None, None);
          if reply.ReturnedError? {
            out := out.(error := Some(OutError(ErrorReturned, reply.message)));
          } else {
            out := out.(data := Some(reply.rets));
          }
          assert out == Response(m.callbackId, reply);
          var failed := conn.Write(Json(out));
          if failed.Some? {
            return failed.value;
          }
        }
        assert Step(procs, conn.codec, session.handler, cs, handled) == Continue(conn.State(), session.handled);
      case "res" =>
      case _ =>
        return InvalidMessageType;
    }
  }

  // ---- The handshake ----

  datatype Handshake = Refused(err: Error, conn: ConnState) | Accepted(conn: ConnState)

  /** The client first sends its protocol version. A mismatch is answered
      "invalid" (whether or not that write succeeds) and refused; a match is
      answered "good", and the connection is accepted if that write
      succeeds. */
  function HandshakeOf(version: string, cs: ConnState): (h: Handshake)
    ensures h.Accepted? <==>
      ReadFrame(cs) == Ok(version) && WriteFailure(AfterRead(cs)).None?
    ensures h.Accepted? ==>
      h.conn.written == cs.written + [Text(VersionAccepted)] && h.conn.incoming == cs.incoming[1..]
    ensures ReadFrame(cs).Ok? && ReadFrame(cs).value != version ==>
      h == Refused(InvalidVersionString, AfterWrite(AfterRead(cs), Text(VersionRejected)))
    ensures ReadFrame(cs).Err? ==> h == Refused(ReadFrame(cs).error, AfterRead(cs))
    ensures h.Refused? ==>
      h.conn.written == cs.written || h.conn.written == cs.written + [Text(VersionRejected)]
  {
    var cs1 := AfterRead(cs);
    match ReadFrame(cs)
    case Err(e) => Refused(e, cs1)
    case Ok(received) =>
      if received != version then Refused(InvalidVersionString, AfterWrite(cs1, Text(VersionRejected)))
      else match WriteFailure(cs1)
        case Some(r) => Refused(WriteFailed(r), AfterWrite(cs1, Text(VersionAccepted)))
        case None => Accepted(AfterWrite(cs1, Text(VersionAccepted)))
  }

  class Server {
    /** The protocol version this server speaks. */
    const version: string
    /** The procedures a client may call. */
    const procedures: map<string, Procedure>
    /** The procedures of every session this server creates. */
    const handler: Handler
    /** Whether an error callback for incoming connections is installed. */
    const reportsErrors: bool
    /** The errors passed to that callback, in order. */
    var reported: seq<Error>

    constructor (service: Service, version: string, handler: Handler, reportsErrors: bool)
      ensures procedures == service.serverProcedures && this.version == version
      ensures this.handler == handler && this.reportsErrors == reportsErrors && reported == []
    {
      this.version := version;
      procedures := service.serverProcedures;
      this.handler := handler;
      this.reportsErrors := reportsErrors;
      reported := [];
    }

    /** What the error callback receives for e: nothing when none is installed. */
    function Reports(e: Error): seq<Error>
    {
      if reportsErrors then [e] else []
    }

    method ReportError(e: Error)
      modifies this`reported
      ensures reported == old(reported) + Reports(e)
    {
      if reportsErrors {
        reported := reported + [e];
      }
    }

    /** Serves one connection: the handshake, then a session running the
        protocol until it ends, then that session's Stop with the loop's
        error. */
    method ServeHTTP(conn: Conn) returns (session: Option<Session>)
      modifies this`reported, conn
      ensures match HandshakeOf(version, old(conn.State()))
        case Refused(e, cs) =>
          session.None? && conn.State() == cs && reported == old(reported) + Reports(e)
        case Accepted(cs) =>
          session.Some? && fresh(session.value) && reported == old(reported) &&
          session.value.handler == handler &&
          var r := Run(procedures, conn.codec, handler, cs, []);
          conn.State() == r.conn && session.value.handled == r.handled && session.value.stops == [r.err]
    {
      var received := conn.ReadText();
      if received.Err? {
        ReportError(received.error);
        return None;
      }
      if received.value != version {
        var _ := conn.Write(Text(VersionRejected));
        ReportError(InvalidVersionString);
        return None;
      }
      var failed := conn.Write(Text(VersionAccepted));
      if failed.Some? {
        ReportError(failed.value);
        return None;
      }
      var s := new Session(handler);
      var err := RunProtocol(conn, s, procedures);
      s.Stop(err);
      return Some(s);
    }
  }
}

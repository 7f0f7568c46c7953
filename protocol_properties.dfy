/**
 * What the dispatch loop guarantees: what each kind of incoming message
 * does, and, over a whole run, that the session handles only requests for
 * known procedures with decodable arguments and that the connection carries
 * exactly one response per two-way request handled, in order.
 */
module ProtocolProperties {
  import opened Wrappers
  import opened Definitions
  import opened Protocol

  // ---- One incoming message ----

  /** A read or decode failure ends the loop with that error; nothing is
      written and no procedure is called. */
  lemma ReadErrorEndsRun(procs: map<string, Procedure>, codec: Codec, handler: Handler,
                         cs: ConnState, handled: seq<InMsg>)
    requires ReadMessage(codec, cs).Err?
    ensures Run(procs, codec, handler, cs, handled) ==
            RunResult(ReadMessage(codec, cs).error, AfterRead(cs), handled)
    ensures AfterRead(cs).written == cs.written
  {
  }

  /** A message the loop rejects (unknown procedure, a type other than
      "req" and "res", arguments that do not decode) ends the loop with that
      error; nothing is written and no procedure is called. */
  lemma RejectedEndsRun(procs: map<string, Procedure>, codec: Codec, handler: Handler,
                        cs: ConnState, handled: seq<InMsg>)
    requires ReadMessage(codec, cs).Ok?
    requires DispatchOf(procs, codec, ReadMessage(codec, cs).value).Reject?
    ensures Run(procs, codec, handler, cs, handled) ==
            RunResult(DispatchOf(procs, codec, ReadMessage(codec, cs).value).err, AfterRead(cs), handled)
    ensures AfterRead(cs).written == cs.written
  {
  }

  /** A response message is ignored and the loop goes on. */
  lemma ResponseIgnored(procs: map<string, Procedure>, codec: Codec, handler: Handler,
                        cs: ConnState, handled: seq<InMsg>)
    requires ReadMessage(codec, cs).Ok? && ReadMessage(codec, cs).value.msgType == MsgTypeResponse
    ensures Run(procs, codec, handler, cs, handled) == Run(procs, codec, handler, AfterRead(cs), handled)
    ensures AfterRead(cs).written == cs.written
  {
  }

  /** A oneway request calls its procedure, writes nothing, and the loop
      goes on. */
  lemma OnewayRequest(procs: map<string, Procedure>, codec: Codec, handler: Handler,
                      cs: ConnState, handled: seq<InMsg>)
    requires ReadMessage(codec, cs).Ok?
    requires var m := ReadMessage(codec, cs).value;
      Served(procs, codec, m) && procs[m.procedure].oneway
    ensures Run(procs, codec, handler, cs, handled) ==
            Run(procs, codec, handler, AfterRead(cs), handled + [ReadMessage(codec, cs).value])
    ensures AfterRead(cs).written == cs.written
  {
  }

  /** A two-way request calls its procedure and writes one response with the
      request's callback id; the loop goes on unless that write fails, in
      which case it ends with the write's error. */
  lemma TwoWayRequest(procs: map<string, Procedure>, codec: Codec, handler: Handler,
                      cs: ConnState, handled: seq<InMsg>)
    requires ReadMessage(codec, cs).Ok?
    requires var m := ReadMessage(codec, cs).value;
      Served(procs, codec, m) && !procs[m.procedure].oneway
    ensures var m := ReadMessage(codec, cs).value;
      var o := Response(m.callbackId, handler(|handled|, procs[m.procedure], m.data));
      var cs' := AfterWrite(AfterRead(cs), Json(o));
      o.msgType == MsgTypeResponse && o.callbackId == m.callbackId &&
      Run(procs, codec, handler, cs, handled) ==
        match WriteFailure(AfterRead(cs))
        case None => Run(procs, codec, handler, cs', handled + [m])
        case Some(r) => RunResult(WriteFailed(r), cs', handled + [m])
    ensures WriteFailure(AfterRead(cs)).None? ==>
      AfterWrite(AfterRead(cs), Json(Response(ReadMessage(codec, cs).value.callbackId,
        handler(|handled|, procs[ReadMessage(codec, cs).value.procedure], ReadMessage(codec, cs).value.data)))).written ==
      cs.written + [Json(Response(ReadMessage(codec, cs).value.callbackId,
        handler(|handled|, procs[ReadMessage(codec, cs).value.procedure], ReadMessage(codec, cs).value.data)))]
  {
  }

  // ---- Whole runs ----

  /** The session's log grew from `before` to `after` by served requests only. */
  ghost predicate ServedSince(procs: map<string, Procedure>, codec: Codec, before: seq<InMsg>, after: seq<InMsg>)
  {
    |before| <= |after| && after[..|before|] == before &&
    forall i :: |before| <= i < |after| ==> Served(procs, codec, after[i])
  }

  /** The connection's log grew from `before` to `after` by the messages
      `due`, short of the last one when `lost`. */
  ghost predicate SentSince<T>(before: seq<T>, after: seq<T>, due: seq<T>, lost: bool)
  {
    |before| <= |after| && after[..|before|] == before &&
    if lost then due != [] && after[|before|..] == due[..|due| - 1] else after[|before|..] == due
  }

  /** Between two points of a run: the session handled the requests it had
      handled before and then only served requests, and the connection
      carries what it carried before followed by the replies to those
      requests, short of the last one when `lost` (its write failed). */
  ghost predicate Answered(procs: map<string, Procedure>, codec: Codec, handler: Handler,
                           before: seq<InMsg>, after: seq<InMsg>,
                           sentBefore: seq<Outgoing>, sentAfter: seq<Outgoing>, lost: bool)
  {
    ServedSince(procs, codec, before, after) &&
    SentSince(sentBefore, sentAfter, Replies(procs, handler, |before|, after[|before|..]), lost)
  }

  lemma {:induction false} GatherAppend<X, Y>(f: (nat, X) -> seq<Y>, before: nat, xs: seq<X>, ys: seq<X>)
    ensures Gather(f, before, xs + ys) == Gather(f, before, xs) + Gather(f, before + |xs|, ys)
    decreases |ys|
  {
    if ys == [] {
      assert xs + ys == xs;
    } else {
      var k := |ys| - 1;
      assert (xs + ys)[..|xs| + k] == xs + ys[..k];
      assert (xs + ys)[|xs| + k] == ys[k];
      GatherAppend(f, before, xs, ys[..k]);
    }
  }

  lemma RepliesAppend(procs: map<string, Procedure>, handler: Handler,
                      before: nat, xs: seq<InMsg>, ys: seq<InMsg>)
    ensures Replies(procs, handler, before, xs + ys) ==
            Replies(procs, handler, before, xs) + Replies(procs, handler, before + |xs|, ys)
  {
    GatherAppend((k: nat, m: InMsg) => ReplyTo(procs, handler, k, m), before, xs, ys);
  }

  lemma RepliesOne(procs: map<string, Procedure>, handler: Handler, before: nat, m: InMsg)
    ensures Replies(procs, handler, before, [m]) == ReplyTo(procs, handler, before, m)
  {
    var f := (k: nat, x: InMsg) => ReplyTo(procs, handler, k, x);
    assert [m][..0] == [];
    assert Gather(f, before, [m]) == f(before, m);
  }

  lemma AnsweredNone(procs: map<string, Procedure>, codec: Codec, handler: Handler,
                     h: seq<InMsg>, w: seq<Outgoing>)
    ensures Answered(procs, codec, handler, h, h, w, w, false)
  {
    assert h[|h|..] == [] && w[|w|..] == [];
    assert ServedSince(procs, codec, h, h);
  }

  lemma AnsweredOne(procs: map<string, Procedure>, codec: Codec, handler: Handler,
                    h: seq<InMsg>, m: InMsg, w: seq<Outgoing>, w': seq<Outgoing>, lost: bool)
    requires Served(procs, codec, m)
    requires var r := ReplyTo(procs, handler, |h|, m);
      if lost then r != [] && w' == w else w' == w + r
    ensures Answered(procs, codec, handler, h, h + [m], w, w', lost)
  {
    var h' := h + [m];
    assert h'[..|h|] == h && h'[|h|..] == [m] && h'[|h|] == m;
    assert ServedSince(procs, codec, h, h');
    RepliesOne(procs, handler, |h|, m);
    assert w'[..|w|] == w;
  }

  /** One turn of the loop answers what it handles. */
  lemma StepAnswered(procs: map<string, Procedure>, codec: Codec, handler: Handler,
                     cs: ConnState, handled: seq<InMsg>)
    ensures var s := Step(procs, codec, handler, cs, handled);
      Answered(procs, codec, handler, handled, s.handled, cs.written, s.conn.written,
               s.Halt? && s.err.WriteFailed?)
  {
    var s := Step(procs, codec, handler, cs, handled);
    var cs1 := AfterRead(cs);
    assert cs1.written == cs.written;
    match ReadMessage(codec, cs)
    case Err(e) =>
      assert s == Halt(e, cs1, handled) && !e.WriteFailed?;
      AnsweredNone(procs, codec, handler, handled, cs.written);
    case Ok(m) =>
      match DispatchOf(procs, codec, m)
      case Ignore =>
        assert s == Continue(cs1, handled);
        AnsweredNone(procs, codec, handler, handled, cs.written);
      case Reject(e) =>
        assert s == Halt(e, cs1, handled) && !e.WriteFailed?;
        AnsweredNone(procs, codec, handler, handled, cs.written);
      case Invoke(p) =>
        assert s.handled == handled + [m];
        if p.oneway {
          assert s == Continue(cs1, handled + [m]);
          AnsweredOne(procs, codec, handler, handled, m, cs.written, cs.written, false);
        } else {
          var o := Json(Response(m.callbackId, handler(|handled|, p, m.data)));
          assert ReplyTo(procs, handler, |handled|, m) == [o];
          if WriteFailure(cs1).None? {
            assert s == Continue(AfterWrite(cs1, o), handled + [m]);
            AnsweredOne(procs, codec, handler, handled, m, cs.written, cs.written + [o], false);
          } else {
            assert s == Halt(WriteFailed(WriteFailure(cs1).value), AfterWrite(cs1, o), handled + [m]);
            AnsweredOne(procs, codec, handler, handled, m, cs.written, cs.written, true);
          }
        }
  }

  lemma ServedSinceTrans(procs: map<string, Procedure>, codec: Codec,
                         h0: seq<InMsg>, h1: seq<InMsg>, h2: seq<InMsg>)
    requires ServedSince(procs, codec, h0, h1) && ServedSince(procs, codec, h1, h2)
    ensures ServedSince(procs, codec, h0, h2) && h2[|h0|..] == h1[|h0|..] + h2[|h1|..]
  {
    assert h2[..|h0|] == h2[..|h1|][..|h0|];
    forall i | |h0| <= i < |h2| ensures Served(procs, codec, h2[i]) {
      if i < |h1| {
        assert h2[i] == h2[..|h1|][i];
      }
    }
  }

  lemma SentSinceTrans<T>(w0: seq<T>, w1: seq<T>, w2: seq<T>, d1: seq<T>, d2: seq<T>, lost: bool)
    requires SentSince(w0, w1, d1, false) && SentSince(w1, w2, d2, lost)
    ensures SentSince(w0, w2, d1 + d2, lost)
  {
    assert w2[..|w0|] == w2[..|w1|][..|w0|];
    assert w2[|w0|..] == w2[|w0|..|w1|] + w2[|w1|..];
    assert w2[|w0|..|w1|] == w1[|w0|..];
    if lost {
      assert (d1 + d2)[..|d1 + d2| - 1] == d1 + d2[..|d2| - 1];
    }
  }

  /** Answered composes: a stretch that lost nothing followed by another. */
  lemma AnsweredTrans(procs: map<string, Procedure>, codec: Codec, handler: Handler,
                      h0: seq<InMsg>, h1: seq<InMsg>, h2: seq<InMsg>,
                      w0: seq<Outgoing>, w1: seq<Outgoing>, w2: seq<Outgoing>, lost: bool)
    requires Answered(procs, codec, handler, h0, h1, w0, w1, false)
    requires Answered(procs, codec, handler, h1, h2, w1, w2, lost)
    ensures Answered(procs, codec, handler, h0, h2, w0, w2, lost)
  {
    ServedSinceTrans(procs, codec, h0, h1, h2);
    var xs, ys := h1[|h0|..], h2[|h1|..];
    RepliesAppend(procs, handler, |h0|, xs, ys);
    SentSinceTrans(w0, w1, w2, Replies(procs, handler, |h0|, xs), Replies(procs, handler, |h1|, ys), lost);
  }

  /** Over a whole run: the session handles only requests for known
      procedures whose arguments decode, and the connection gets exactly the
      replies to them, in order; only a failed write loses one, the last. */
  lemma {:induction false} RunAnswered(procs: map<string, Procedure>, codec: Codec, handler: Handler,
                                       cs: ConnState, handled: seq<InMsg>)
    ensures var r := Run(procs, codec, handler, cs, handled);
      Answered(procs, codec, handler, handled, r.handled, cs.written, r.conn.written, r.err.WriteFailed?)
    decreases |cs.incoming|
  {
    var s := Step(procs, codec, handler, cs, handled);
    StepAnswered(procs, codec, handler, cs, handled);
    if s.Continue? {
      RunAnswered(procs, codec, handler, s.conn, s.handled);
      var r := Run(procs, codec, handler, s.conn, s.handled);
      AnsweredTrans(procs, codec, handler, handled, s.handled, r.handled,
                    cs.written, s.conn.written, r.conn.written, r.err.WriteFailed?);
    }
  }

  /** Every reply is a response message carrying exactly one of data and
      error, and the callback id of a request among those replied to. */
  lemma {:induction false} RepliesAreResponses(procs: map<string, Procedure>, handler: Handler,
                                               before: nat, reqs: seq<InMsg>)
    ensures forall o :: o in Replies(procs, handler, before, reqs) ==>
      o.Json? && o.msg.msgType == MsgTypeResponse && (o.msg.data.Some? != o.msg.error.Some?) &&
      exists m :: m in reqs && m.callbackId == o.msg.callbackId
    decreases |reqs|
  {
    if reqs != [] {
      var k := |reqs| - 1;
      RepliesAreResponses(procs, handler, before, reqs[..k]);
      assert reqs[k] in reqs;
      forall o | o in Replies(procs, handler, before, reqs[..k])
        ensures exists m :: m in reqs && m.callbackId == o.msg.callbackId
      {
        var m :| m in reqs[..k] && m.callbackId == o.msg.callbackId;
        assert m in reqs;
      }
    }
  }

  /** How many elements of xs satisfy p. */
  function Count<X>(p: X -> bool, xs: seq<X>): nat
    decreases |xs|
  {
    if xs == [] then 0 else Count(p, xs[..|xs| - 1]) + (if p(xs[|xs| - 1]) then 1 else 0)
  }

  lemma {:induction false} GatherCount<X, Y>(f: (nat, X) -> seq<Y>, p: X -> bool, before: nat, xs: seq<X>)
    requires forall k: nat, x :: |f(k, x)| == if p(x) then 1 else 0
    ensures |Gather(f, before, xs)| == Count(p, xs)
    decreases |xs|
  {
    if xs != [] {
      GatherCount(f, p, before, xs[..|xs| - 1]);
    }
  }

  /** A request is answered when its procedure is a two-way one. */
  predicate TwoWay(procs: map<string, Procedure>, m: InMsg)
  {
    m.procedure in procs && !procs[m.procedure].oneway
  }

  /** One reply per two-way request, none per other request. */
  lemma RepliesCount(procs: map<string, Procedure>, handler: Handler, before: nat, reqs: seq<InMsg>)
    ensures |Replies(procs, handler, before, reqs)| == Count((m: InMsg) => TwoWay(procs, m), reqs)
  {
    GatherCount((k: nat, m: InMsg) => ReplyTo(procs, handler, k, m), (m: InMsg) => TwoWay(procs, m), before, reqs);
  }

  lemma {:induction false} CountNone<X>(p: X -> bool, xs: seq<X>)
    requires forall i :: 0 <= i < |xs| ==> !p(xs[i])
    ensures Count(p, xs) == 0
    decreases |xs|
  {
    if xs != [] {
      CountNone(p, xs[..|xs| - 1]);
    }
  }

  /** A service whose procedures are all oneway never writes during a run. */
  lemma OnewayServiceWritesNothing(procs: map<string, Procedure>, codec: Codec, handler: Handler,
                                   cs: ConnState, handled: seq<InMsg>)
    requires forall n :: n in procs ==> procs[n].oneway
    ensures Run(procs, codec, handler, cs, handled).conn.written == cs.written
    ensures !Run(procs, codec, handler, cs, handled).err.WriteFailed?
  {
    var r := Run(procs, codec, handler, cs, handled);
    RunAnswered(procs, codec, handler, cs, handled);
    var reqs := r.handled[|handled|..];
    RepliesCount(procs, handler, |handled|, reqs);
    CountNone((m: InMsg) => TwoWay(procs, m), reqs);
    assert r.conn.written == r.conn.written[..|cs.written|] + r.conn.written[|cs.written|..];
  }

  /** An accepted connection carries what it carried before, then "good",
      then only response messages, each with exactly one of data and error. */
  lemma AcceptedTranscript(version: string, procs: map<string, Procedure>, codec: Codec, handler: Handler,
                           cs: ConnState)
    requires HandshakeOf(version, cs).Accepted?
    ensures var w := Run(procs, codec, handler, HandshakeOf(version, cs).conn, []).conn.written;
      var n := |cs.written|;
      n < |w| && w[..n] == cs.written && w[n] == Text(VersionAccepted) &&
      forall i :: n < i < |w| ==>
        w[i].Json? && w[i].msg.msgType == MsgTypeResponse && (w[i].msg.data.Some? != w[i].msg.error.Some?)
  {
    var h := HandshakeOf(version, cs).conn;
    var r := Run(procs, codec, handler, h, []);
    RunAnswered(procs, codec, handler, h, []);
    var all := Replies(procs, handler, 0, r.handled[0..]);
    RepliesAreResponses(procs, handler, 0, r.handled[0..]);
    var w, n := r.conn.written, |cs.written|;
    assert w[..|h.written|] == h.written;
    assert w[..n] == h.written[..n];
    forall i | n < i < |w|
      ensures w[i].Json? && w[i].msg.msgType == MsgTypeResponse && (w[i].msg.data.Some? != w[i].msg.error.Some?)
    {
      var sent := w[|h.written|..];
      assert w[i] == sent[i - |h.written|];
      assert sent[i - |h.written|] in all;
    }
  }
}

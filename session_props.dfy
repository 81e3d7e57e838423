/** Properties of the SSCPClient state machine: when ensure_connected reconnects, what
    reconnect does, how read_variable and write_variable react to each kind of reply, and
    the broken-pipe retry. */
module SessionProperties {
  import opened Bytes
  import opened Errors
  import opened Codec
  import opened Frames
  import opened Session

  /** ensure_connected does nothing when both flags are set and reconnects otherwise. */
  lemma EnsureConnectedOutcome(s: State, ep: Endpoint)
    ensures s.connected && s.loggedin ==> EnsureConnected(s, ep) == (Ok(()), s)
    ensures !(s.connected && s.loggedin) ==> EnsureConnected(s, ep) == Reconnect(s, ep)
  {
  }

  /** The accepted login reply, as received. */
  predicate AcceptsLogin(replies: seq<Reply>)
  {
    |replies| > 0 && replies[0].Received? && LoginAccepted(Clip(replies[0]).bytes)
  }

  /** reconnect succeeds exactly when the next connect succeeds, the login frame can be
      built and the next reply accepts it; it then sends that one frame and ends connected
      and logged in on a new socket. */
  lemma ReconnectOutcome(s: State, ep: Endpoint)
    ensures Reconnect(s, ep).0.Ok? <==>
      |s.net.accepts| > 0 && s.net.accepts[0] && LoginFrame(ep.station, ep.user, ep.digest).Ok?
      && AcceptsLogin(s.net.replies)
    ensures Reconnect(s, ep).0.Ok? ==>
      Reconnect(s, ep).1 == State(Open, true, true, Net(s.net.accepts[1..], s.net.replies[1..]),
                                  s.wire + [LoginFrame(ep.station, ep.user, ep.digest).value])
  {
  }

  /** A refused connect ends reconnect at once: nothing is sent and no reply consumed. */
  lemma ReconnectRefused(s: State, ep: Endpoint)
    requires s.net.accepts == [] || !s.net.accepts[0]
    ensures Reconnect(s, ep).0 == Err(ReconnectionFailed)
    ensures Reconnect(s, ep).1.wire == s.wire && Reconnect(s, ep).1.net.replies == s.net.replies
    ensures !Reconnect(s, ep).1.connected && !Reconnect(s, ep).1.loggedin
  {
  }

  /** disconnect is idempotent, keeps loggedin, and makes the next ensure_connected
      reconnect. */
  lemma DisconnectProperties(s: State, ep: Endpoint)
    ensures Disconnect(Disconnect(s)) == Disconnect(s)
    ensures Disconnect(s).loggedin == s.loggedin
    ensures EnsureConnected(Disconnect(s), ep) == Reconnect(Disconnect(s), ep)
  {
  }

  /** The state after one exchange from s: the reply consumed, the frame on the wire. */
  function Sent(s: State, frame: seq<byte>): (t: State)
    requires |s.net.replies| > 0
    ensures t.connected == s.connected && t.loggedin == s.loggedin
  {
    s.(net := s.net.(replies := s.net.replies[1..]), wire := s.wire + [frame])
  }

  /** The state after a broken exchange and a successful reconnect: a new open socket, both
      flags set, one accept and two replies consumed and the given frames sent. */
  function Relogged(s: State, sent: seq<seq<byte>>): (t: State)
    requires |s.net.accepts| > 0 && |s.net.replies| >= 2
    ensures t.connected && t.loggedin && Valid(t)
  {
    State(Open, true, true, Net(s.net.accepts[1..], s.net.replies[2..]), s.wire + sent)
  }

  // ---------------------------------------------------------------- the shared retry

  /** A client that is connected and logged in sends the frame once and reports what the
      check makes of the reply: any reply, rejected or malformed, ends the call without a
      retry and without a login. */
  lemma RetryWithReply<T>(s: State, ep: Endpoint, frame: seq<byte>, check: seq<byte> -> Result<T>, b: seq<byte>)
    requires s.connected && s.loggedin
    requires |s.net.replies| > 0 && s.net.replies[0] == Received(b) && |b| <= RecvSize
    ensures WithRetry(s, ep, Ok(frame), check) == (check(b), Sent(s, frame))
  {
    assert Clip(Received(b)).bytes == b;
  }

  /** A client that is connected and logged in whose exchange ends in a socket error other
      than a broken pipe reports SocketError after one frame, without a retry. */
  lemma RetryWithIoFault<T>(s: State, ep: Endpoint, frame: seq<byte>, check: seq<byte> -> Result<T>)
    requires s.connected && s.loggedin
    requires |s.net.replies| > 0 && s.net.replies[0] == IoFault
    ensures WithRetry(s, ep, Ok(frame), check) == (Err(SocketError), Sent(s, frame))
  {
  }

  /** After an interrupted exchange, reconnect consumes the next accept and the login reply
      that follows the broken one. */
  lemma ReconnectAfterBreak(s: State, ep: Endpoint, frame: seq<byte>, login: seq<byte>)
    requires LoginFrame(ep.station, ep.user, ep.digest).Ok?
    requires |login| <= RecvSize && LoginAccepted(login)
    requires |s.net.accepts| > 0 && s.net.accepts[0]
    requires |s.net.replies| >= 2 && s.net.replies[1] == Received(login)
    ensures Reconnect(Sent(s, frame), ep) ==
      (Ok(()), Relogged(s, [frame, LoginFrame(ep.station, ep.user, ep.digest).value]))
  {
    var s2 := Sent(s, frame);
    assert Clip(Received(login)).bytes == login;
    assert s2.net.replies[0] == Received(login);
    assert s2.net.replies[1..] == s.net.replies[2..];
    assert AcceptsLogin(s2.net.replies);
    ReconnectOutcome(s2, ep);
    assert s2.wire + [LoginFrame(ep.station, ep.user, ep.digest).value] ==
      s.wire + [frame, LoginFrame(ep.station, ep.user, ep.digest).value];
  }

  /** An exchange interrupted by a broken pipe, followed by an accepted login, is the same
      call started over on the new connection. */
  lemma RetryBrokenThenRelogged<T>(s: State, ep: Endpoint, frame: seq<byte>, check: seq<byte> -> Result<T>,
                                   login: seq<byte>)
    requires s.connected && s.loggedin
    requires LoginFrame(ep.station, ep.user, ep.digest).Ok?
    requires |login| <= RecvSize && LoginAccepted(login)
    requires |s.net.accepts| > 0 && s.net.accepts[0]
    requires |s.net.replies| >= 2 && s.net.replies[0] == PipeBroken && s.net.replies[1] == Received(login)
    ensures WithRetry(s, ep, Ok(frame), check) ==
      WithRetry(Relogged(s, [frame, LoginFrame(ep.station, ep.user, ep.digest).value]), ep, Ok(frame), check)
  {
    assert TryOnce(s, Ok(frame), check) == Broken(Sent(s, frame));
    ReconnectAfterBreak(s, ep, frame, login);
  }

  /** The broken-pipe path: the frame is interrupted, reconnect logs in again, the same
      frame is sent a second time and its reply decides the call. */
  lemma RetryAfterBrokenPipe<T>(s: State, ep: Endpoint, frame: seq<byte>, check: seq<byte> -> Result<T>,
                                login: seq<byte>, b: seq<byte>)
    requires s.connected && s.loggedin
    requires LoginFrame(ep.station, ep.user, ep.digest).Ok?
    requires |login| <= RecvSize && LoginAccepted(login) && |b| <= RecvSize
    requires |s.net.accepts| > 0 && s.net.accepts[0]
    requires |s.net.replies| >= 3 && s.net.replies[0] == PipeBroken && s.net.replies[1] == Received(login) && s.net.replies[2] == Received(b)
    ensures WithRetry(s, ep, Ok(frame), check) ==
      (check(b), State(Open, true, true, Net(s.net.accepts[1..], s.net.replies[3..]),
                       s.wire + [frame, LoginFrame(ep.station, ep.user, ep.digest).value, frame]))
  {
    var lf := LoginFrame(ep.station, ep.user, ep.digest).value;
    var s3 := Relogged(s, [frame, lf]);
    var done := State(Open, true, true, Net(s.net.accepts[1..], s.net.replies[3..]), s.wire + [frame, lf, frame]);
    assert Sent(s3, frame) == done by {
      assert (s.wire + [frame, lf]) + [frame] == s.wire + [frame, lf, frame];
      assert s.net.replies[2..][1..] == s.net.replies[3..];
    }
    calc {
      WithRetry(s, ep, Ok(frame), check);
    == { RetryBrokenThenRelogged(s, ep, frame, check, login); }
      WithRetry(s3, ep, Ok(frame), check);
    == { assert s3.net.replies[0] == Received(b);
         RetryWithReply(s3, ep, frame, check, b); }
      (check(b), Sent(s3, frame));
    }
  }

  /** When the reconnect after a broken pipe is refused, the call fails with
      ReconnectionFailed and the frame is not sent again. */
  lemma RetryReconnectRefused<T>(s: State, ep: Endpoint, frame: seq<byte>, check: seq<byte> -> Result<T>)
    requires s.connected && s.loggedin
    requires |s.net.replies| > 0 && s.net.replies[0] == PipeBroken
    requires s.net.accepts == [] || !s.net.accepts[0]
    ensures WithRetry(s, ep, Ok(frame), check).0 == Err(ReconnectionFailed)
    ensures WithRetry(s, ep, Ok(frame), check).1.wire == s.wire + [frame]
  {
    assert TryOnce(s, Ok(frame), check) == Broken(Sent(s, frame));
    ReconnectRefused(Sent(s, frame), ep);
  }

  /** A frame that cannot be built is never sent: the error is reported after
      ensure_connected, whatever the replies. */
  lemma RetryUnbuildableFrame<T>(s: State, ep: Endpoint, e: Error, check: seq<byte> -> Result<T>)
    requires s.connected && s.loggedin
    ensures WithRetry(s, ep, Err(e), check) == (Err(e), s)
  {
  }

  // ---------------------------------------------------------------- read_variable

  /** A client that is connected and logged in sends one read request and, when the reply
      arrives, reports what parse_response makes of it: there is no retry for any reply
      but a broken pipe. */
  lemma ReadWithReply(s: State, ep: Endpoint, uid: int, offset: int, length: int, typeName: string, b: seq<byte>)
    requires s.connected && s.loggedin
    requires |s.net.replies| > 0 && s.net.replies[0] == Received(b) && |b| <= RecvSize
    requires ReadFrame(ep, uid, offset, length).Ok?
    ensures ReadVariable(s, ep, uid, offset, length, typeName) ==
      (ParseResponse(ep.station, b, "read_variables", typeName), Sent(s, ReadFrame(ep, uid, offset, length).value))
  {
    RetryWithReply(s, ep, ReadFrame(ep, uid, offset, length).value, ReadCheck(ep.station, typeName), b);
  }

  /** A C5 00 reply is a failed read: ReadFailed after exactly one request. */
  lemma ReadRejectedOnce(s: State, ep: Endpoint, uid: int, offset: int, length: int, typeName: string, b: seq<byte>)
    requires s.connected && s.loggedin
    requires |s.net.replies| > 0 && s.net.replies[0] == Received(b)
    requires ReadFrame(ep, uid, offset, length).Ok?
    requires 3 <= |b| <= RecvSize && b[0] == ep.station && b[1] == 0xC5 && b[2] == 0x00
    ensures ReadVariable(s, ep, uid, offset, length, typeName).0 == Err(ReadFailed)
    ensures ReadVariable(s, ep, uid, offset, length, typeName).1.wire == s.wire + [ReadFrame(ep, uid, offset, length).value]
  {
    ReadWithReply(s, ep, uid, offset, length, typeName, b);
    ReadRejectedExactly(ep.station, b, typeName);
  }

  /** A client that is connected and logged in and receives a well-formed read reply
      returns the reply's data decoded. */
  lemma ReadWellFormedReply(s: State, ep: Endpoint, uid: int, offset: int, length: int, typeName: string,
                            raw: seq<byte>)
    requires s.connected && s.loggedin
    requires 0 <= ep.station < 256 && |raw| + 5 <= RecvSize
    requires |s.net.replies| > 0 && s.net.replies[0] == Received(ReadReply(ep.station, raw))
    requires ReadFrame(ep, uid, offset, length).Ok?
    ensures ReadVariable(s, ep, uid, offset, length, typeName) ==
      (DecodeValue(raw, typeName), Sent(s, ReadFrame(ep, uid, offset, length).value))
  {
    ReadReplyFields(ep.station, raw);
    ReadWithReply(s, ep, uid, offset, length, typeName, ReadReply(ep.station, raw));
    ReadReplyParses(ep.station, raw, typeName);
  }

  /** The broken-pipe path of read_variable: the request is interrupted, reconnect logs in
      again, the request is sent a second time and its reply is decoded. */
  lemma ReadRetriesAfterBrokenPipe(s: State, ep: Endpoint, uid: int, offset: int, length: int,
                                   typeName: string, login: seq<byte>, raw: seq<byte>)
    requires s.connected && s.loggedin
    requires 0 <= ep.station < 256 && |raw| + 5 <= RecvSize
    requires ReadFrame(ep, uid, offset, length).Ok?
    requires LoginFrame(ep.station, ep.user, ep.digest).Ok?
    requires |login| <= RecvSize && LoginAccepted(login)
    requires |s.net.accepts| > 0 && s.net.accepts[0]
    requires |s.net.replies| >= 3 && s.net.replies[0] == PipeBroken && s.net.replies[1] == Received(login)
    requires s.net.replies[2] == Received(ReadReply(ep.station, raw))
    ensures ReadVariable(s, ep, uid, offset, length, typeName) ==
      (DecodeValue(raw, typeName),
       State(Open, true, true, Net(s.net.accepts[1..], s.net.replies[3..]),
             s.wire + [ReadFrame(ep, uid, offset, length).value,
                       LoginFrame(ep.station, ep.user, ep.digest).value,
                       ReadFrame(ep, uid, offset, length).value]))
  {
    ReadReplyFields(ep.station, raw);
    RetryAfterBrokenPipe(s, ep, ReadFrame(ep, uid, offset, length).value, ReadCheck(ep.station, typeName),
                         login, ReadReply(ep.station, raw));
    ReadReplyParses(ep.station, raw, typeName);
  }

  /** When the reconnect after a broken pipe is refused, read_variable fails with
      ReconnectionFailed and the request is not sent again. */
  lemma ReadFailsWhenReconnectRefused(s: State, ep: Endpoint, uid: int, offset: int, length: int, typeName: string)
    requires s.connected && s.loggedin
    requires ReadFrame(ep, uid, offset, length).Ok?
    requires |s.net.replies| > 0 && s.net.replies[0] == PipeBroken
    requires s.net.accepts == [] || !s.net.accepts[0]
    ensures ReadVariable(s, ep, uid, offset, length, typeName).0 == Err(ReconnectionFailed)
    ensures ReadVariable(s, ep, uid, offset, length, typeName).1.wire == s.wire + [ReadFrame(ep, uid, offset, length).value]
  {
    RetryReconnectRefused(s, ep, ReadFrame(ep, uid, offset, length).value, ReadCheck(ep.station, typeName));
  }

  /** The first read of a new client connects, logs in and then reads. */
  lemma FirstRead(net: Net, ep: Endpoint, uid: int, offset: int, length: int, typeName: string,
                  login: seq<byte>, raw: seq<byte>)
    requires 0 <= ep.station < 256 && |raw| + 5 <= RecvSize
    requires ReadFrame(ep, uid, offset, length).Ok?
    requires LoginFrame(ep.station, ep.user, ep.digest).Ok?
    requires |login| <= RecvSize && LoginAccepted(login)
    requires |net.accepts| > 0 && net.accepts[0]
    requires |net.replies| >= 2 && net.replies[0] == Received(login) && net.replies[1] == Received(ReadReply(ep.station, raw))
    ensures ReadVariable(Initial(net), ep, uid, offset, length, typeName).0 == DecodeValue(raw, typeName)
    ensures ReadVariable(Initial(net), ep, uid, offset, length, typeName).1.wire ==
      [LoginFrame(ep.station, ep.user, ep.digest).value, ReadFrame(ep, uid, offset, length).value]
  {
    var s := Initial(net);
    var lf := LoginFrame(ep.station, ep.user, ep.digest).value;
    assert Clip(Received(login)).bytes == login;
    assert AcceptsLogin(net.replies);
    ReconnectOutcome(s, ep);
    var s1 := State(Open, true, true, Net(net.accepts[1..], net.replies[1..]), [lf]);
    assert [] + [lf] == [lf];
    assert EnsureConnected(s, ep) == (Ok(()), s1);
    assert s1.net.replies[0] == Received(ReadReply(ep.station, raw));
    ReadWellFormedReply(s1, ep, uid, offset, length, typeName, raw);
    assert ReadVariable(s, ep, uid, offset, length, typeName) == ReadVariable(s1, ep, uid, offset, length, typeName);
  }

  // ---------------------------------------------------------------- write_variable

  /** A client that is connected and logged in sends one write frame and, when the reply
      arrives, reports the outcome of its function code: 85 10 succeeds, C5 10 is a rejected
      write, anything else an unexpected code, with no retry. */
  lemma WriteWithReply(s: State, ep: Endpoint, uid: int, v: PlcValue, offset: int, length: int,
                       typeName: string, b: seq<byte>)
    requires s.connected && s.loggedin
    requires |s.net.replies| > 0 && s.net.replies[0] == Received(b) && |b| <= RecvSize
    requires WriteFrame(ep.station, uid, v, offset, length, typeName).Ok?
    ensures var (r, t) := WriteVariable(s, ep, uid, v, offset, length, typeName);
      && (r.Ok? <==> |b| >= 3 && b[1] == 0x85 && b[2] == 0x10)
      && (r == Err(WriteFailed) <==> |b| >= 3 && b[1] == 0xC5 && b[2] == 0x10)
      && t == Sent(s, WriteFrame(ep.station, uid, v, offset, length, typeName).value)
  {
    RetryWithReply(s, ep, WriteFrame(ep.station, uid, v, offset, length, typeName).value, WriteReply, b);
  }

  /** The broken-pipe path of write_variable: after the reconnect the same frame is sent
      again and its reply decides the outcome. */
  lemma WriteRetriesAfterBrokenPipe(s: State, ep: Endpoint, uid: int, v: PlcValue, offset: int, length: int,
                                    typeName: string, login: seq<byte>, b: seq<byte>)
    requires s.connected && s.loggedin
    requires WriteFrame(ep.station, uid, v, offset, length, typeName).Ok?
    requires LoginFrame(ep.station, ep.user, ep.digest).Ok?
    requires |login| <= RecvSize && LoginAccepted(login) && |b| <= RecvSize
    requires |s.net.accepts| > 0 && s.net.accepts[0]
    requires |s.net.replies| >= 3 && s.net.replies[0] == PipeBroken && s.net.replies[1] == Received(login) && s.net.replies[2] == Received(b)
    ensures WriteVariable(s, ep, uid, v, offset, length, typeName) ==
      (WriteReply(b),
       State(Open, true, true, Net(s.net.accepts[1..], s.net.replies[3..]),
             s.wire + [WriteFrame(ep.station, uid, v, offset, length, typeName).value,
                       LoginFrame(ep.station, ep.user, ep.digest).value,
                       WriteFrame(ep.station, uid, v, offset, length, typeName).value]))
  {
    RetryAfterBrokenPipe(s, ep, WriteFrame(ep.station, uid, v, offset, length, typeName).value, WriteReply,
                         login, b);
  }

  /** A failed login leaves loggedin as it was, so a client that was logged in stays marked
      logged in after a refused login. */
  lemma FailedLoginKeepsFlag(s: State, ep: Endpoint)
    requires Login(s, ep).0.Err?
    ensures Login(s, ep).1.loggedin == s.loggedin
    ensures Login(s, ep).1.connected == s.connected
  {
  }
}

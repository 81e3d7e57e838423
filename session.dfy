/** The connection state machine of SSCPClient as functions on a state value: connect, login,
    disconnect, reconnect, ensure_connected, read_variable and write_variable.

    The socket is replaced by two scripted streams. accepts[n] says whether the n-th
    socket.connect succeeds; replies[n] is what the n-th sendall/recv pair yields: the bytes
    received, a BrokenPipeError, or another socket error. Every frame handed to sendall is
    recorded on wire. */
module Session {
  import opened Bytes
  import opened Errors
  import opened Codec
  import opened Frames

  datatype Reply = Received(bytes: seq<byte>) | PipeBroken | IoFault

  datatype Net = Net(accepts: seq<bool>, replies: seq<Reply>)

  /** The socket object: never connected, connected, or closed. */
  datatype Socket = Fresh | Open | Closed

  datatype State = State(sock: Socket, connected: bool, loggedin: bool, net: Net, wire: seq<seq<byte>>)

  /** What the client was configured with: its SSCP address, the UTF-8 bytes of the user
      name and the MD5 digest of the password. */
  datatype Endpoint = Endpoint(station: int, user: seq<byte>, digest: Digest)

  /** socket.recv(1024) returns at most this many bytes. */
  const RecvSize: nat := 1024

  /** The connected flag tells the truth about the socket. */
  predicate Valid(s: State)
  {
    s.connected <==> s.sock == Open
  }

  /** The state right after SSCPClient.__init__: a fresh socket, neither flag set. */
  function Initial(net: Net): (s: State)
    ensures Valid(s) && !s.connected && !s.loggedin && s.wire == []
  {
    State(Fresh, false, false, net, [])
  }

  predicate IsSuffix<T(==)>(a: seq<T>, b: seq<T>)
  {
    |a| <= |b| && a == b[|b| - |a|..]
  }

  /** t can follow s: frames were only added to the wire and the scripted streams were only
      consumed from the front. */
  predicate Later(s: State, t: State)
  {
    s.wire <= t.wire && IsSuffix(t.net.replies, s.net.replies) && IsSuffix(t.net.accepts, s.net.accepts)
  }

  lemma LaterTransitive(s: State, t: State, u: State)
    requires Later(s, t) && Later(t, u)
    ensures Later(s, u)
  {
    var a, b, c := u.net.replies, t.net.replies, s.net.replies;
    assert a == c[|c| - |a|..] by {
      assert b == c[|c| - |b|..];
      assert a == b[|b| - |a|..];
    }
    var x, y, z := u.net.accepts, t.net.accepts, s.net.accepts;
    assert x == z[|z| - |x|..] by {
      assert y == z[|z| - |y|..];
      assert x == y[|y| - |x|..];
    }
  }

  /** socket.connect: consumes one scripted outcome on a fresh socket; a socket that is
      already connected or has been closed refuses without consuming one. */
  function Connect(s: State): (r: (Result<()>, State))
    ensures r.0.Ok? <==> s.sock == Fresh && |s.net.accepts| > 0 && s.net.accepts[0]
    ensures r.0.Ok? ==> r.1.connected && r.1.sock == Open
    ensures r.0.Err? ==> r.0.error == ConnectFailed && r.1.connected == s.connected && r.1.sock == s.sock
    ensures r.1.loggedin == s.loggedin && r.1.wire == s.wire && r.1.net.replies == s.net.replies
    ensures Valid(s) ==> Valid(r.1)
    ensures Later(s, r.1)
  {
    if s.sock != Fresh || s.net.accepts == [] then (Err(ConnectFailed), s)
    else
      var t := s.(net := s.net.(accepts := s.net.accepts[1..]));
      if s.net.accepts[0] then (Ok(()), t.(sock := Open, connected := true))
      else (Err(ConnectFailed), t)
  }

  /** What recv(1024) hands back for a scripted reply. */
  function Clip(reply: Reply): (r: Reply)
    ensures reply.Received? ==>
      r == Received(reply.bytes[..if |reply.bytes| < RecvSize then |reply.bytes| else RecvSize])
    ensures !reply.Received? ==> r == reply
  {
    match reply
    case Received(bytes) => Received(Slice(bytes, 0, RecvSize))
    case _ => reply
  }

  /** sendall(frame) followed by recv(1024); when the script is exhausted the peer is gone. */
  function Exchange(s: State, frame: seq<byte>): (r: (Reply, State))
    ensures r.1.wire == s.wire + [frame]
    ensures r.1.net.accepts == s.net.accepts
    ensures s.net.replies == [] ==> r.0 == IoFault && r.1.net.replies == []
    ensures s.net.replies != [] ==> r.0 == Clip(s.net.replies[0]) && r.1.net.replies == s.net.replies[1..]
    ensures r.1.sock == s.sock && r.1.connected == s.connected && r.1.loggedin == s.loggedin
    ensures Later(s, r.1)
  {
    var t := s.(wire := s.wire + [frame]);
    if s.net.replies == [] then (IoFault, t)
    else (Clip(s.net.replies[0]), t.(net := t.net.(replies := s.net.replies[1..])))
  }

  /** login: refused before connect; otherwise sends the login frame and sets loggedin when
      the reply code is 81 00. A failed login leaves loggedin as it was. */
  function Login(s: State, ep: Endpoint): (r: (Result<()>, State))
    ensures !s.connected ==> r == (Err(NotConnected), s)
    ensures r.0.Ok? ==> r.1.loggedin
    ensures r.0.Err? ==> r.1.loggedin == s.loggedin
    ensures r.1.sock == s.sock && r.1.connected == s.connected && r.1.net.accepts == s.net.accepts
    ensures Later(s, r.1)
  {
    if !s.connected then (Err(NotConnected), s)
    else
      match LoginFrame(ep.station, ep.user, ep.digest)
      case Err(e) => (Err(e), s)
      case Ok(frame) =>
        var (reply, t) := Exchange(s, frame);
        match reply
        case Received(bytes) =>
          if LoginAccepted(bytes) then (Ok(()), t.(loggedin := true)) else (Err(LoginFailed), t)
        case PipeBroken => (Err(BrokenPipe), t)
        case IoFault => (Err(SocketError), t)
  }

  /** disconnect: closes a connected socket and clears connected; loggedin is left alone. */
  function Disconnect(s: State): (t: State)
    ensures !t.connected && t.loggedin == s.loggedin && t.net == s.net && t.wire == s.wire
    ensures !s.connected ==> t == s
    ensures Valid(s) ==> Valid(t)
  {
    if s.connected then s.(sock := Closed, connected := false) else s
  }

  /** reconnect (the definition at line 381, which replaces the earlier one): a new socket,
      both flags cleared, then connect and login; any failure becomes ReconnectionFailed. */
  function Reconnect(s: State, ep: Endpoint): (r: (Result<()>, State))
    ensures r.0.Ok? ==> r.1.connected && r.1.loggedin
    ensures r.0.Err? ==> r.0.error == ReconnectionFailed && !r.1.loggedin
    ensures Valid(r.1)
    ensures Later(s, r.1)
  {
    var t := s.(sock := Fresh, connected := false, loggedin := false);
    match Connect(t)
    case (Err(_), t1) => (Err(ReconnectionFailed), t1)
    case (Ok(_), t1) =>
      match Login(t1, ep)
      case (Err(_), t2) => (Err(ReconnectionFailed), t2)
      case (Ok(_), t2) => (Ok(()), t2)
  }

  /** ensure_connected: reconnects unless both connected and loggedin are set. */
  function EnsureConnected(s: State, ep: Endpoint): (r: (Result<()>, State))
    ensures r.0.Ok? ==> r.1.connected && r.1.loggedin
    ensures r.0.Err? ==> r.0.error == ReconnectionFailed
    ensures Valid(s) ==> Valid(r.1)
    ensures Later(s, r.1)
  {
    if !s.connected || !s.loggedin then Reconnect(s, ep) else (Ok(()), s)
  }

  /** The outcome of one pass through the try block of read_variable or write_variable:
      finished (with a value or an error), or interrupted by a BrokenPipeError. */
  datatype Attempt<T> = Done(result: Result<T>, state: State) | Broken(state: State)

  /** One pass through the try block: the request frame, or the error raised while building
      it, then one exchange whose reply is handed to check. */
  function TryOnce<T>(s: State, frame: Result<seq<byte>>, check: seq<byte> -> Result<T>): (r: Attempt<T>)
    ensures r.Broken? ==> |r.state.net.replies| < |s.net.replies|
    ensures frame.Err? ==> r == Done(Err(frame.error), s)
    ensures r.state.sock == s.sock && r.state.connected == s.connected && r.state.loggedin == s.loggedin
    ensures Later(s, r.state)
  {
    match frame
    case Err(e) => Done(Err(e), s)
    case Ok(f) =>
      var (reply, t) := Exchange(s, f);
      match reply
      case Received(bytes) => Done(check(bytes), t)
      case IoFault => Done(Err(SocketError), t)
      case PipeBroken => Broken(t)
  }

  /** What read_variable and write_variable share: ensure_connected, one pass through the
      try block and, on a broken pipe, reconnect and the same call again. The source rebuilds
      the frame on every call; it is the same bytes each time, so it is passed in built.
      Every interrupted pass consumes a scripted reply, so the recursion ends. */
  function WithRetry<T>(s: State, ep: Endpoint, frame: Result<seq<byte>>, check: seq<byte> -> Result<T>)
    : (r: (Result<T>, State))
    ensures r.0.Ok? ==> r.1.connected && r.1.loggedin
    ensures Valid(s) ==> Valid(r.1)
    ensures Later(s, r.1)
    decreases |s.net.replies|
  {
    var (ok, s1) := EnsureConnected(s, ep);
    if ok.Err? then (Err(ok.error), s1)
    else
      match TryOnce(s1, frame, check)
      case Done(res, s2) =>
        LaterTransitive(s, s1, s2);
        (res, s2)
      case Broken(s2) =>
        var (rc, s3) := Reconnect(s2, ep);
        LaterTransitive(s, s1, s2);
        LaterTransitive(s, s2, s3);
        if rc.Err? then (Err(rc.error), s3)
        else
          var (res, s4) := WithRetry(s3, ep, frame, check);
          LaterTransitive(s, s3, s4);
          (res, s4)
  }

  /** A pass that finishes after a successful ensure_connected is the call's outcome. */
  lemma RetryStops<T>(s: State, ep: Endpoint, frame: Result<seq<byte>>, check: seq<byte> -> Result<T>,
                      ok: Result<()>, s1: State, res: Result<T>, s2: State)
    requires EnsureConnected(s, ep) == (ok, s1) && ok.Ok?
    requires TryOnce(s1, frame, check) == Done(res, s2)
    ensures WithRetry(s, ep, frame, check) == (res, s2)
  {
  }

  /** A failed ensure_connected ends the call with its error. */
  lemma RetryRefused<T>(s: State, ep: Endpoint, frame: Result<seq<byte>>, check: seq<byte> -> Result<T>,
                        ok: Result<()>, s1: State)
    requires EnsureConnected(s, ep) == (ok, s1) && ok.Err?
    ensures WithRetry(s, ep, frame, check) == (Err(ok.error), s1)
  {
  }

  /** A failed reconnect after an interrupted pass ends the call with its error. */
  lemma RetryGivesUp<T>(s: State, ep: Endpoint, frame: Result<seq<byte>>, check: seq<byte> -> Result<T>,
                        ok: Result<()>, s1: State, s2: State, rc: Result<()>, s3: State)
    requires EnsureConnected(s, ep) == (ok, s1) && ok.Ok?
    requires TryOnce(s1, frame, check) == Broken(s2)
    requires Reconnect(s2, ep) == (rc, s3) && rc.Err?
    ensures WithRetry(s, ep, frame, check) == (Err(rc.error), s3)
  {
  }

  /** After an interrupted pass and a successful reconnect, the call behaves as a fresh
      call from the reconnected state. */
  lemma RetryAgain<T>(s: State, ep: Endpoint, frame: Result<seq<byte>>, check: seq<byte> -> Result<T>,
                      ok: Result<()>, s1: State, s2: State, rc: Result<()>, s3: State)
    requires EnsureConnected(s, ep) == (ok, s1) && ok.Ok?
    requires TryOnce(s1, frame, check) == Broken(s2)
    requires Reconnect(s2, ep) == (rc, s3) && rc.Ok?
    ensures WithRetry(s, ep, frame, check) == WithRetry(s3, ep, frame, check)
  {
  }

  /** The reply check of read_variable: parse_response for "read_variables". */
  function ReadCheck(station: int, typeName: string): seq<byte> -> Result<PlcValue>
  {
    bytes => ParseResponse(station, bytes, "read_variables", typeName)
  }

  /** The single-descriptor read request read_variable sends. */
  function ReadFrame(ep: Endpoint, uid: int, offset: int, length: int): Result<seq<byte>>
  {
    ReadRequest(ep.station, [Descriptor(uid, offset, length)])
  }

  /** read_variable: a value only when connected and logged in afterwards. */
  function ReadVariable(s: State, ep: Endpoint, uid: int, offset: int, length: int, typeName: string)
    : (r: (Result<PlcValue>, State))
    ensures r.0.Ok? ==> r.1.connected && r.1.loggedin
    ensures Valid(s) ==> Valid(r.1)
    ensures Later(s, r.1)
  {
    WithRetry(s, ep, ReadFrame(ep, uid, offset, length), ReadCheck(ep.station, typeName))
  }

  /** write_variable: succeeds only when connected and logged in afterwards. */
  function WriteVariable(s: State, ep: Endpoint, uid: int, v: PlcValue, offset: int, length: int,
                         typeName: string): (r: (Result<()>, State))
    ensures r.0.Ok? ==> r.1.connected && r.1.loggedin
    ensures Valid(s) ==> Valid(r.1)
    ensures Later(s, r.1)
  {
    WithRetry(s, ep, WriteFrame(ep.station, uid, v, offset, length, typeName), WriteReply)
  }
}

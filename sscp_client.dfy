/** SSCPClient as an object: the socket, connected and loggedin are fields that its methods
    update in place. Every method is proved to do what the corresponding function of the
    Session module says, so the properties proved there hold of the object.

    The socket is the pair of scripted streams of Session (net) and the list of frames
    handed to sendall (wire). */
module SscpClient {
  import opened Bytes
  import opened Errors
  import opened Codec
  import opened Frames
  import opened PyText
  import Session

  /** SSCPClient.__init__'s int(sscp_addres, 16); a text that is not a hexadecimal
      number raises ValueError and no client is made. */
  function StationOf(addressText: string): (r: Result<int>)
    ensures r.Ok? <==> ParseInt(addressText, 16).Some?
    ensures r.Err? ==> r.error == InvalidLiteral
  {
    match ParseInt(addressText, 16)
    case None => Err(InvalidLiteral)
    case Some(n) => Ok(n)
  }

  /** Every station number written in hexadecimal, with or without "0x", is the station
      that text selects. */
  lemma StationOfHex(n: nat)
    ensures StationOf(HexString(n)) == Ok(n)
    ensures StationOf("0x" + HexString(n)) == Ok(n)
  {
    ParseHexString(n);
  }

  /** The default address text of the configuration form, "0x01", selects station 1. */
  lemma DefaultAddress()
    ensures StationOf("0x01") == Ok(1)
  {
    TrimmedAlready("0x01", IsSpace);
    assert ParseSigned("0x01", 16) == ParseMagnitude("0x01", 16);
    assert "0x01"[2..] == "01";
    HexRun("01");
  }

  /** The text "1", filled in when no address was entered, selects station 1 as well. */
  lemma FallbackAddress()
    ensures StationOf("1") == Ok(1)
  {
    assert Strip("1") == "1" by {
      TrimmedAlready("1", IsSpace);
    }
    assert ParseMagnitude("1", 16) == Some(1) by {
      HexRun("1");
    }
    assert ParseSigned("1", 16) == ParseMagnitude("1", 16);
  }

  /** A prefix without digits is not a number. */
  lemma BarePrefixRefused()
    ensures StationOf("0x") == Err(InvalidLiteral)
  {
    TrimmedAlready("0x", IsSpace);
    assert ParseSigned("0x", 16) == ParseMagnitude("0x", 16);
    assert "0x"[2..] == [];
  }

  lemma HexRun(digits: string)
    requires digits == "01" || digits == "1"
    ensures IsDigitRun(digits, 16) && RunValue(digits, 16) == 1
  {
    if digits == "01" {
      assert digits[..1] == "0";
      assert "0"[..0] == [];
    } else {
      assert digits[..0] == [];
    }
  }

  class Client {
    /** Address, user name and password digest, fixed for the life of the client. */
    const ep: Session.Endpoint
    var sock: Session.Socket
    var connected: bool
    var loggedin: bool
    /** What the peer will do: the outcomes of the coming connects and exchanges. */
    var net: Session.Net
    /** Every frame handed to sendall, oldest first. */
    var wire: seq<seq<byte>>

    /** The object's state as a value of the Session model. */
    function State(): Session.State
      reads this
    {
      Session.State(sock, connected, loggedin, net, wire)
    }

    /** __init__: a new socket, neither connected nor logged in. */
    constructor (ep: Session.Endpoint, net: Session.Net)
      ensures this.ep == ep
      ensures State() == Session.Initial(net)
      ensures Session.Valid(State())
    {
      this.ep := ep;
      sock := Session.Fresh;
      connected := false;
      loggedin := false;
      this.net := net;
      wire := [];
    }

    /** connect: socket.connect, then connected is set. */
    method Connect() returns (r: Result<()>)
      modifies this
      ensures (r, State()) == Session.Connect(old(State()))
    {
      if sock != Session.Fresh || net.accepts == [] {
        return Err(ConnectFailed);
      }
      var accepted := net.accepts[0];
      net := net.(accepts := net.accepts[1..]);
      if !accepted {
        return Err(ConnectFailed);
      }
      sock := Session.Open;
      connected := true;
      return Ok(());
    }

    /** sendall(frame) then recv(1024). */
    method Exchange(frame: seq<byte>) returns (reply: Session.Reply)
      modifies this
      ensures (reply, State()) == Session.Exchange(old(State()), frame)
    {
      wire := wire + [frame];
      if net.replies == [] {
        return Session.IoFault;
      }
      reply := Session.Clip(net.replies[0]);
      net := net.(replies := net.replies[1..]);
    }

    /** login: refused unless connected; sends the login frame and sets loggedin only
        when the reply code is 81 00. */
    method Login() returns (r: Result<()>)
      modifies this
      ensures (r, State()) == Session.Login(old(State()), ep)
    {
      if !connected {
        return Err(NotConnected);
      }
      var frame := BuildLoginFrame(ep.station, ep.user, ep.digest);
      if frame.Err? {
        return Err(frame.error);
      }
      var reply := Exchange(frame.value);
      match reply
      case Received(bytes) =>
        if LoginAccepted(bytes) {
          loggedin := true;
          r := Ok(());
        } else {
          r := Err(LoginFailed);
        }
      case PipeBroken => r := Err(BrokenPipe);
      case IoFault => r := Err(SocketError);
    }

    /** disconnect: closes the socket if connected; loggedin is left as it was. */
    method Disconnect()
      modifies this
      ensures State() == Session.Disconnect(old(State()))
    {
      if connected {
        sock := Session.Closed;
        connected := false;
      }
    }

    /** reconnect: a new socket, both flags cleared, connect, login; any failure is
        reported as ReconnectionFailed. */
    method Reconnect() returns (r: Result<()>)
      modifies this
      ensures (r, State()) == Session.Reconnect(old(State()), ep)
      ensures r.Ok? ==> connected && loggedin
    {
      ghost var s := old(State());
      sock := Session.Fresh;
      connected := false;
      loggedin := false;
      ghost var t := State();
      assert t == s.(sock := Session.Fresh, connected := false, loggedin := false);
      var c := Connect();
      ghost var t1 := State();
      assert (c, t1) == Session.Connect(t);
      if c.Err? {
        return Err(ReconnectionFailed);
      }
      var l := Login();
      assert (l, State()) == Session.Login(t1, ep);
      if l.Err? {
        return Err(ReconnectionFailed);
      }
      return Ok(());
    }

    /** ensure_connected: reconnects unless connected and logged in. */
    method EnsureConnected() returns (r: Result<()>)
      modifies this
      ensures (r, State()) == Session.EnsureConnected(old(State()), ep)
      ensures r.Ok? ==> connected && loggedin
    {
      if !connected || !loggedin {
        r := Reconnect();
      } else {
        r := Ok(());
      }
    }

    /** One pass through the try block of read_variable or write_variable with a frame
        that was built: sendall, recv and the reply check; broken is set when the pass was
        interrupted by a BrokenPipeError. */
    method Attempt<T>(frame: seq<byte>, check: seq<byte> -> Result<T>) returns (broken: bool, r: Result<T>)
      modifies this
      ensures broken ==> Session.TryOnce(old(State()), Ok(frame), check) == Session.Broken(State())
      ensures !broken ==> Session.TryOnce(old(State()), Ok(frame), check) == Session.Done(r, State())
    {
      var reply := Exchange(frame);
      match reply
      case Received(bytes) =>
        broken, r := false, check(bytes);
      case IoFault =>
        broken, r := false, Err(SocketError);
      case PipeBroken =>
        broken, r := true, Err(BrokenPipe);
    }

    /** What read_variable and write_variable share: ensure_connected, one pass through
        the try block (the frame, or the error raised while building it, then Attempt) and,
        on a broken pipe, reconnect and the same call again. Building the frame has no
        effect on the client, so it is built once by the caller. */
    method Retry<T>(frame: Result<seq<byte>>, check: seq<byte> -> Result<T>) returns (r: Result<T>)
      modifies this
      ensures (r, State()) == Session.WithRetry(old(State()), ep, frame, check)
      decreases |net.replies|
    {
      ghost var s0 := State();
      var ok := EnsureConnected();
      if ok.Err? {
        Session.RetryRefused(s0, ep, frame, check, ok, State());
        return Err(ok.error);
      }
      ghost var s1 := State();
      if frame.Err? {
        Session.RetryStops(s0, ep, frame, check, ok, s1, Err(frame.error), s1);
        return Err(frame.error);
      }
      assert frame == Ok(frame.value);
      var broken;
      broken, r := Attempt(frame.value, check);
      if !broken {
        Session.RetryStops(s0, ep, frame, check, ok, s1, r, State());
        return;
      }
      ghost var s2 := State();
      var rc := Reconnect();
      if rc.Err? {
        Session.RetryGivesUp(s0, ep, frame, check, ok, s1, s2, rc, State());
        return Err(rc.error);
      }
      Session.RetryAgain(s0, ep, frame, check, ok, s1, s2, rc, State());
      r := Retry(frame, check);
    }

    /** read_variable: the read request for one descriptor, parse_response as the reply
        check. */
    method ReadVariable(uid: int, offset: int, length: int, typeName: string) returns (r: Result<PlcValue>)
      modifies this
      ensures (r, State()) == Session.ReadVariable(old(State()), ep, uid, offset, length, typeName)
    {
      var frame := BuildReadRequest(ep.station, [Descriptor(uid, offset, length)]);
      r := Retry(frame, Session.ReadCheck(ep.station, typeName));
    }

    /** write_variable: the write frame, the reply code as the reply check. */
    method WriteVariable(uid: int, v: PlcValue, offset: int, length: int, typeName: string) returns (r: Result<()>)
      modifies this
      ensures (r, State()) == Session.WriteVariable(old(State()), ep, uid, v, offset, length, typeName)
    {
      var frame := BuildWriteFrame(ep.station, uid, v, offset, length, typeName);
      r := Retry(frame, WriteReply);
    }
  }
}

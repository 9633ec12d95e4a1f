/** TCP stream reassembly and the login session (retransmission_client.cpp).

    Callbacks are recorded in `log`. The socket and the clock are an environment: the k-th
    message the client builds takes its time stamp from `env(k)`, and `env(k).delivered` says
    whether sending it succeeds. */
module RetransmissionClient {
  import opened Bytes
  import H = CommonHeader
  import opened RetransmissionProtocol

  const ESC: Byte := 0x1B
  /** Bytes of a market message that are not body: header, check sum, terminal code. */
  const MARKET_OVERHEAD := 22

  datatype Outcome = Outcome(time: Time, delivered: bool)
  type Env = nat -> Outcome

  datatype Credentials = Credentials(sessionId: U16, checkCode: Byte)

  datatype Event =
    | MarketData(frame: seq<Byte>)
    | ProtocolData(frame: seq<Byte>)
    | LoggedIn
    | Status(response: Message)
    | ErrorReported(error: Message)
    | Disconnected
    | Reconnecting(succeeded: bool)
    | Stopped
    | Built(message: Message)
    | Transmitted(bytes: seq<Byte>)

  /** Everything but the receive buffer. */
  datatype Session = Session(
    connected: bool, loggedIn: bool, nextSeq: U32, built: nat, log: seq<Event>)

  datatype Client = Client(running: bool, failed: bool, buffer: seq<Byte>, session: Session)

  const INITIAL_SESSION := Session(false, false, 0, 0, [])
  const INITIAL_CLIENT := Client(false, false, [], INITIAL_SESSION)

  // ----- sending

  function Logged(s: Session, e: Event): Session {
    s.(log := s.log + [e])
  }

  /** `send_tcp_message` for a message already built. */
  function Transmit(env: Env, s: Session, bytes: seq<Byte>): Session {
    if !s.connected then s.(built := s.built + 1)
    else if env(s.built).delivered then Logged(s.(built := s.built + 1), Transmitted(bytes))
    else Logged(s.(built := s.built + 1, connected := false, loggedIn := false), Disconnected)
  }

  function NextHeader(env: Env, s: Session): Header {
    Header(0, 0, s.nextSeq, env(s.built).time)
  }

  /** `m` took the next sequence number, modulo 2^32. */
  function Numbered(s: Session, m: Message): Session {
    Logged(s.(nextSeq := (s.nextSeq + 1) % 0x1_0000_0000), Built(m))
  }

  function Send(env: Env, s: Session, m: Message): Session {
    Transmit(env, Numbered(s, m), Frame(m))
  }

  function Heartbeat(env: Env, s: Session): Session {
    if !s.connected then s else Send(env, s, HeartbeatClient105(NextHeader(env, s)))
  }

  function Request(env: Env, s: Session, channel: U16, begin: U32, count: U16): Session {
    if !s.loggedIn then s
    else Send(env, s, DataRequest101(NextHeader(env, s), channel, begin, count))
  }

  /** What `request_retransmission` and `send_client_heartbeat` return. */
  predicate RequestResult(s: Session) {
    s.loggedIn
  }

  predicate HeartbeatResult(s: Session) {
    s.connected
  }

  function Login(env: Env, s: Session, c: Credentials): Session {
    if !s.connected || s.loggedIn then s else
      var blank := s.(nextSeq := 0);
      Send(env, blank, LoginRequest020(NextHeader(env, blank), 168, c.checkCode, c.sessionId))
  }

  function Connect(s: Session, succeeds: bool): Session {
    if s.connected then s else Logged(s.(connected := succeeds, loggedIn := false), Reconnecting(succeeds))
  }

  function Lose(s: Session): Session {
    Logged(s.(connected := false, loggedIn := false), Disconnected)
  }

  // ----- one protocol frame

  /** What a decoded message does to the session. */
  function React(env: Env, s: Session, m: Message): Session {
    match m
    case RetransmissionStart050(_) => Logged(s.(loggedIn := true), LoggedIn)
    case DataResponse102(_, _, _, _, _, _) => Logged(s, Status(m))
    case HeartbeatServer104(_) => Heartbeat(env, s)
    case ErrorNotification010(_, _) => Logged(s.(loggedIn := false), ErrorReported(m))
    case _ => s
  }

  /** `handle_protocol_message`: requests that only a client sends are not even decoded. */
  function Handle(env: Env, s: Session, frame: seq<Byte>): Session
    requires |frame| >= HEADER_SIZE
  {
    var t := Logged(s, ProtocolData(frame));
    var kind := HeaderOf(frame).kind;
    if kind in {LOGIN_RESPONSE, RETRANSMISSION_START, DATA_RESPONSE, HEARTBEAT_SERVER, ERROR_NOTIFICATION} then
      match Decode(kind, frame)
      case None => t
      case Some(m) => React(env, t, m)
    else
      t
  }

  // ----- cutting the stream

  datatype Cut =
    | Incomplete
    | BadLength          // the BCD length of a market header does not decode: an exception
    | Market(n: nat)
    | Runt(n: nat)       // too short to hold a protocol header: dropped
    | Protocol(n: nat)

  predicate HasFrame(cut: Cut) {
    cut.Market? || cut.Runt? || cut.Protocol?
  }

  /** What the loop finds at the front of the buffer. */
  function NextCut(buffer: seq<Byte>): (cut: Cut)
    requires buffer != []
    ensures HasFrame(cut) ==> 0 < cut.n <= |buffer|
    ensures cut.Protocol? ==> cut.n >= HEADER_SIZE
  {
    if buffer[0] == ESC then
      if |buffer| < H.HEADER_SIZE then Incomplete else
        match H.GetBodyLength(H.HeaderOf(buffer))
        case Err => BadLength
        case Ok(body) =>
          if |buffer| >= MARKET_OVERHEAD + body then Market(MARKET_OVERHEAD + body) else Incomplete
    else if |buffer| < 2 then Incomplete
    else
      var n := 2 + Get16(buffer, 0) + 1;
      if |buffer| < n then Incomplete else if n < HEADER_SIZE then Runt(n) else Protocol(n)
  }

  /** Takes one frame off the buffer and acts on it. */
  function AfterCut(env: Env, c: Client): Client
    requires c.buffer != [] && HasFrame(NextCut(c.buffer))
  {
    var n := NextCut(c.buffer).n;
    c.(buffer := c.buffer[n..],
       session := match NextCut(c.buffer)
                  case Market(_) => Logged(c.session, MarketData(c.buffer[..n]))
                  case Runt(_) => c.session
                  case Protocol(_) => Handle(env, c.session, c.buffer[..n]))
  }

  /** The loop of `process_incoming_data`, as a function of the client it starts from. */
  function Drain(env: Env, c: Client): (d: Client)
    ensures d.running == c.running
    decreases |c.buffer|
  {
    if !c.running || c.failed || c.buffer == [] then c
    else if NextCut(c.buffer).Incomplete? then c
    else if NextCut(c.buffer).BadLength? then c.(failed := true)
    else Drain(env, AfterCut(env, c))
  }

  function Append(c: Client, chunk: seq<Byte>): Client {
    c.(buffer := c.buffer + chunk)
  }

  /** `process_incoming_data`; after an exception nothing more is processed. */
  function Feed(env: Env, c: Client, chunk: seq<Byte>): Client {
    Drain(env, Append(c, chunk))
  }

  // ----- the object

  class RetransmissionClient {
    const env: Env
    const credentials: Credentials
    var running: bool
    var failed: bool
    var connected: bool
    var loggedIn: bool
    var clientMsgSeqNum: U32
    var built: nat
    var tcpReceiveBuffer: seq<Byte>
    var log: seq<Event>

    function SessionState(): Session
      reads this
    {
      Session(connected, loggedIn, clientMsgSeqNum, built, log)
    }

    function State(): Client
      reads this
    {
      Client(running, failed, tcpReceiveBuffer, SessionState())
    }

    constructor (env: Env, credentials: Credentials)
      ensures State() == INITIAL_CLIENT
      ensures this.env == env && this.credentials == credentials
    {
      this.env, this.credentials := env, credentials;
      running, failed, connected, loggedIn := false, false, false, false;
      clientMsgSeqNum, built, tcpReceiveBuffer, log := 0, 0, [], [];
    }

    method Start()
      modifies `running
      ensures State() == old(State()).(running := true)
    {
      running := true;
    }

    method Stop()
      modifies `running, `connected, `loggedIn, `log
      ensures State() == if !old(running) then old(State()) else
                           old(State()).(running := false,
                             session := Logged(old(SessionState()).(connected := false, loggedIn := false), Stopped))
    {
      if !running {
        return;
      }
      running, connected, loggedIn := false, false, false;
      log := log + [Stopped];
    }

    method ConnectToServer(succeeds: bool) returns (ok: bool)
      modifies `connected, `loggedIn, `log
      ensures SessionState() == Connect(old(SessionState()), succeeds)
      ensures ok == connected
    {
      if connected {
        return true;
      }
      connected := false;
      loggedIn := false;
      log := log + [Reconnecting(succeeds)];
      if !succeeds {
        return false;
      }
      connected := true;
      return true;
    }

    /** A receive error or an orderly close by the server. */
    method ReceiveFailed()
      modifies `connected, `loggedIn, `log
      ensures SessionState() == Lose(old(SessionState()))
    {
      connected, loggedIn := false, false;
      log := log + [Disconnected];
    }

    method SendTcpMessage(bytes: seq<Byte>)
      modifies `connected, `loggedIn, `built, `log
      ensures SessionState() == Transmit(env, old(SessionState()), bytes)
    {
      var delivered := env(built).delivered;
      built := built + 1;
      if !connected {
        return;
      }
      if !delivered {
        connected, loggedIn := false, false;
        log := log + [Disconnected];
        return;
      }
      log := log + [Transmitted(bytes)];
    }

    method PerformLogin() returns (ok: bool)
      modifies `connected, `loggedIn, `clientMsgSeqNum, `built, `log
      ensures SessionState() == Login(env, old(SessionState()), credentials)
      ensures ok == old(connected)
    {
      if !connected {
        return false;
      }
      if loggedIn {
        return true;
      }
      clientMsgSeqNum := 0;
      var header := Header(0, 0, clientMsgSeqNum, env(built).time);
      clientMsgSeqNum := clientMsgSeqNum + 1;
      var m := LoginRequest020(header, 168, credentials.checkCode, credentials.sessionId);
      log := log + [Built(m)];
      var buffer := Serialize(m, []);
      assert buffer == Frame(m);
      SendTcpMessage(buffer);
      return true;
    }

    method RequestRetransmission(channel: U16, begin: U32, count: U16) returns (ok: bool)
      modifies `connected, `loggedIn, `clientMsgSeqNum, `built, `log
      ensures SessionState() == Request(env, old(SessionState()), channel, begin, count)
      ensures ok == RequestResult(old(SessionState()))
    {
      if !loggedIn {
        return false;
      }
      var header := Header(0, 0, clientMsgSeqNum, env(built).time);
      clientMsgSeqNum := (clientMsgSeqNum + 1) % 0x1_0000_0000;
      var m := DataRequest101(header, channel, begin, count);
      log := log + [Built(m)];
      var buffer := Serialize(m, []);
      assert buffer == Frame(m);
      SendTcpMessage(buffer);
      return true;
    }

    method SendClientHeartbeat() returns (ok: bool)
      modifies `connected, `loggedIn, `clientMsgSeqNum, `built, `log
      ensures SessionState() == Heartbeat(env, old(SessionState()))
      ensures ok == HeartbeatResult(old(SessionState()))
    {
      if !connected {
        return false;
      }
      var header := Header(0, 0, clientMsgSeqNum, env(built).time);
      clientMsgSeqNum := (clientMsgSeqNum + 1) % 0x1_0000_0000;
      var m := HeartbeatClient105(header);
      log := log + [Built(m)];
      var buffer := Serialize(m, []);
      assert buffer == Frame(m);
      SendTcpMessage(buffer);
      return true;
    }

    method HandleProtocolMessage(header: Header, frame: seq<Byte>)
      requires |frame| >= HEADER_SIZE && header == HeaderOf(frame)
      modifies `connected, `loggedIn, `clientMsgSeqNum, `built, `log
      ensures SessionState() == Handle(env, old(SessionState()), frame)
    {
      log := log + [ProtocolData(frame)];
      if header.kind == LOGIN_RESPONSE {
        var _ := Deserialize(LOGIN_RESPONSE, frame);
      } else if header.kind == RETRANSMISSION_START {
        var m := Deserialize(RETRANSMISSION_START, frame);
        if m.Some? {
          loggedIn := true;
          log := log + [LoggedIn];
        }
      } else if header.kind == DATA_RESPONSE {
        var m := Deserialize(DATA_RESPONSE, frame);
        if m.Some? {
          log := log + [Status(m.value)];
        }
      } else if header.kind == HEARTBEAT_SERVER {
        var m := Deserialize(HEARTBEAT_SERVER, frame);
        if m.Some? {
          var _ := SendClientHeartbeat();
        }
      } else if header.kind == ERROR_NOTIFICATION {
        var m := Deserialize(ERROR_NOTIFICATION, frame);
        if m.Some? {
          log := log + [ErrorReported(m.value)];
          loggedIn := false;
        }
      }
    }

    /** One round of the receive loop; false means that it breaks out. */
    method ProcessFront() returns (more: bool)
      requires running && !failed && tcpReceiveBuffer != []
      modifies `failed, `connected, `loggedIn, `clientMsgSeqNum, `built, `tcpReceiveBuffer, `log
      ensures more ==> Drain(env, State()) == Drain(env, old(State()))
      ensures more ==> |tcpReceiveBuffer| < |old(tcpReceiveBuffer)|
      ensures !more ==> State() == Drain(env, old(State()))
    {
      var size := |tcpReceiveBuffer|;
      if tcpReceiveBuffer[0] == ESC {
        if size < H.HEADER_SIZE {
          return false;
        }
        var header := H.Parse(tcpReceiveBuffer);
        var body := H.GetBodyLength(header.value);
        if body.Err? {
          assert NextCut(tcpReceiveBuffer) == BadLength;
          failed := true;
          return false;
        }
        var full := H.HEADER_SIZE + body.value + 1 + 2;
        if size < full {
          assert NextCut(tcpReceiveBuffer) == Incomplete;
          return false;
        }
        assert NextCut(tcpReceiveBuffer) == Market(full);
        log := log + [MarketData(tcpReceiveBuffer[..full])];
        tcpReceiveBuffer := tcpReceiveBuffer[full..];
        return true;
      } else {
        if size < 2 {
          return false;
        }
        var expected := 2 + Get16(tcpReceiveBuffer, 0) + 1;
        if size < expected {
          assert NextCut(tcpReceiveBuffer) == Incomplete;
          return false;
        }
        var frame := tcpReceiveBuffer[..expected];
        var header := DeserializeHeader(frame, 0, expected);
        if header.Some? {
          assert NextCut(tcpReceiveBuffer) == Protocol(expected);
          assert frame[0..] == frame;
          HandleProtocolMessage(header.value.0, frame);
        } else {
          assert NextCut(tcpReceiveBuffer) == Runt(expected);
        }
        tcpReceiveBuffer := tcpReceiveBuffer[expected..];
        return true;
      }
    }

    method ProcessIncomingData(chunk: seq<Byte>)
      modifies `failed, `connected, `loggedIn, `clientMsgSeqNum, `built, `tcpReceiveBuffer, `log
      ensures State() == Feed(env, old(State()), chunk)
    {
      tcpReceiveBuffer := tcpReceiveBuffer + chunk;
      while running && !failed && tcpReceiveBuffer != []
        invariant running == old(running)
        invariant Drain(env, State()) == Feed(env, old(State()), chunk)
        decreases |tcpReceiveBuffer|
      {
        var more := ProcessFront();
        if !more {
          return;
        }
      }
    }
  }
}

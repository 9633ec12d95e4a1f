/** What holds in every run of the retransmission client: when data requests are built,
    and how the messages of one login are numbered. */
module SessionRuns {
  import opened Bytes
  import opened Checksum
  import opened RetransmissionProtocol
  import opened RetransmissionClient
  import opened StreamReassembly

  datatype Step =
    | Start
    | Stop
    | ConnectTo(succeeds: bool)
    | PerformLogin
    | Receive(chunk: seq<Byte>)
    | ReceiveFailure
    | RequestData(channel: U16, begin: U32, count: U16)
    | SendHeartbeat

  function Next(env: Env, who: Credentials, c: Client, step: Step): Client {
    match step
    case Start => c.(running := true)
    case Stop =>
      if !c.running then c else
        c.(running := false, session := Logged(c.session.(connected := false, loggedIn := false), Stopped))
    case ConnectTo(ok) => c.(session := Connect(c.session, ok))
    case PerformLogin => c.(session := Login(env, c.session, who))
    case Receive(chunk) => Feed(env, c, chunk)
    case ReceiveFailure => c.(session := Lose(c.session))
    case RequestData(channel, begin, count) => c.(session := Request(env, c.session, channel, begin, count))
    case SendHeartbeat => c.(session := Heartbeat(env, c.session))
  }

  function Run(env: Env, who: Credentials, steps: seq<Step>): Client {
    if steps == [] then INITIAL_CLIENT
    else Next(env, who, Run(env, who, steps[..|steps| - 1]), steps[|steps| - 1])
  }

  /** The events that end a login. */
  predicate Ends(e: Event) {
    e.Disconnected? || e.Reconnecting? || e.Stopped? || e.ErrorReported?
  }

  /** Some login was accepted and nothing since has ended it. */
  predicate LoginOpen(log: seq<Event>) {
    exists j | 0 <= j < |log| :: log[j].LoggedIn? && forall k | j < k < |log| :: !Ends(log[k])
  }

  /** How many messages were built since the latest login request, that request included. */
  function BuiltSinceLogin(log: seq<Event>): nat {
    if log == [] then 0 else
      var e, before := log[|log| - 1], log[..|log| - 1];
      if !e.Built? then BuiltSinceLogin(before)
      else if e.message.LoginRequest020? then 1
      else BuiltSinceLogin(before) + 1
  }

  /** The events that end a connection. */
  predicate Breaks(e: Event) {
    e.Disconnected? || e.Reconnecting? || e.Stopped?
  }

  /** Some connection attempt succeeded and nothing since has ended the connection. */
  predicate ConnectionOpen(log: seq<Event>) {
    exists j | 0 <= j < |log| :: log[j] == Reconnecting(true) && forall k | j < k < |log| :: !Breaks(log[k])
  }

  function NumberFor(m: Message, before: seq<Event>): nat {
    if m.LoginRequest020? then 0 else BuiltSinceLogin(before) % 0x1_0000_0000
  }

  /** The message numbers itself by its place since the latest login request (modulo 2^32). A login
      request finds the connection open and no login, and carries operator 168 and the client's own
      check code and session; a data request finds the login open, a heartbeat the connection; the
      client builds nothing else. */
  predicate ProperlyBuilt(who: Credentials, m: Message, before: seq<Event>) {
    && m.header.seqNum == NumberFor(m, before)
    && match m
       case LoginRequest020(_, op, code, session) =>
         op == 168 && code == who.checkCode && session == who.sessionId
         && ConnectionOpen(before) && !LoginOpen(before)
       case DataRequest101(_, _, _, _) => LoginOpen(before)
       case HeartbeatClient105(_) => ConnectionOpen(before)
       case _ => false
  }

  /** What goes out is the frame of the message just built, over an open connection. */
  predicate ProperlySent(bytes: seq<Byte>, before: seq<Event>) {
    && before != [] && before[|before| - 1].Built?
    && bytes == Frame(before[|before| - 1].message)
    && ConnectionOpen(before)
  }

  predicate Proper(who: Credentials, e: Event, before: seq<Event>) {
    && (e.Built? ==> ProperlyBuilt(who, e.message, before))
    && (e.Transmitted? ==> ProperlySent(e.bytes, before))
  }

  predicate ProperLog(who: Credentials, log: seq<Event>) {
    forall i | 0 <= i < |log| :: Proper(who, log[i], log[..i])
  }

  ghost predicate Inv(who: Credentials, s: Session) {
    && (s.connected <==> ConnectionOpen(s.log))
    && (s.loggedIn <==> LoginOpen(s.log))
    && s.nextSeq == BuiltSinceLogin(s.log) % 0x1_0000_0000
    && ProperLog(who, s.log)
  }

  lemma {:induction false} LoginOpenSnoc(log: seq<Event>, e: Event)
    ensures LoginOpen(log + [e]) <==> e.LoggedIn? || (LoginOpen(log) && !Ends(e))
  {
    var all := log + [e];
    if e.LoggedIn? {
      assert all[|log|].LoggedIn?;
    }
    if LoginOpen(log) && !Ends(e) {
      var j :| 0 <= j < |log| && log[j].LoggedIn? && forall k | j < k < |log| :: !Ends(log[k]);
      assert all[j].LoggedIn?;
    }
    if LoginOpen(all) && !e.LoggedIn? {
      var j :| 0 <= j < |all| && all[j].LoggedIn? && forall k | j < k < |all| :: !Ends(all[k]);
      assert !Ends(all[|log|]);
      assert log[j].LoggedIn? && forall k | j < k < |log| :: log[k] == all[k];
    }
  }

  lemma {:induction false} ConnectionOpenSnoc(log: seq<Event>, e: Event)
    ensures ConnectionOpen(log + [e]) <==> e == Reconnecting(true) || (ConnectionOpen(log) && !Breaks(e))
  {
    var all := log + [e];
    if e == Reconnecting(true) {
      assert all[|log|] == Reconnecting(true);
    }
    if ConnectionOpen(log) && !Breaks(e) {
      var j :| 0 <= j < |log| && log[j] == Reconnecting(true) && forall k | j < k < |log| :: !Breaks(log[k]);
      assert all[j] == Reconnecting(true);
    }
    if ConnectionOpen(all) && e != Reconnecting(true) {
      var j :| 0 <= j < |all| && all[j] == Reconnecting(true) && forall k | j < k < |all| :: !Breaks(all[k]);
      assert !Breaks(all[|log|]);
      assert log[j] == Reconnecting(true) && forall k | j < k < |log| :: log[k] == all[k];
    }
  }

  lemma {:induction false} ProperLogSnoc(who: Credentials, log: seq<Event>, e: Event)
    requires ProperLog(who, log) && Proper(who, e, log)
    ensures ProperLog(who, log + [e])
  {
    var all := log + [e];
    forall i | 0 <= i < |all|
      ensures Proper(who, all[i], all[..i])
    {
      if i < |log| {
        assert all[..i] == log[..i];
      } else {
        assert all[..i] == log;
      }
    }
  }

  lemma {:induction false} BuiltSnoc(log: seq<Event>, e: Event)
    ensures BuiltSinceLogin(log + [e]) ==
            if !e.Built? then BuiltSinceLogin(log)
            else if e.message.LoginRequest020? then 1
            else BuiltSinceLogin(log) + 1
  {
    assert (log + [e])[..|log|] == log;
  }

  /** Logging a proper event other than a built message, with the matching flags, keeps the invariant. */
  lemma {:induction false} LogKeepsInv(who: Credentials, s: Session, e: Event, t: Session)
    requires Inv(who, s) && !e.Built? && Proper(who, e, s.log)
    requires t.log == s.log + [e] && t.nextSeq == s.nextSeq
    requires t.connected <==> e == Reconnecting(true) || (s.connected && !Breaks(e))
    requires t.loggedIn <==> e.LoggedIn? || (s.loggedIn && !Ends(e))
    ensures Inv(who, t)
  {
    ConnectionOpenSnoc(s.log, e);
    LoginOpenSnoc(s.log, e);
    ProperLogSnoc(who, s.log, e);
    BuiltSnoc(s.log, e);
  }

  lemma {:induction false} NumberAfterBuild(log: seq<Event>, m: Message)
    requires m.header.seqNum == NumberFor(m, log)
    ensures BuiltSinceLogin(log + [Built(m)]) % 0x1_0000_0000 == (m.header.seqNum + 1) % 0x1_0000_0000
  {
    BuiltSnoc(log, Built(m));
    WrapIsHarmless(BuiltSinceLogin(log), 1);
  }

  lemma {:induction false} BuildKeepsInv(who: Credentials, s: Session, m: Message, t: Session)
    requires Inv(who, s) && ProperlyBuilt(who, m, s.log)
    requires t.log == s.log + [Built(m)] && t.connected == s.connected && t.loggedIn == s.loggedIn
    requires t.nextSeq == (m.header.seqNum + 1) % 0x1_0000_0000
    ensures Inv(who, t)
  {
    ConnectionOpenSnoc(s.log, Built(m));
    LoginOpenSnoc(s.log, Built(m));
    ProperLogSnoc(who, s.log, Built(m));
    NumberAfterBuild(s.log, m);
  }

  lemma {:induction false} TransmitKeepsInv(who: Credentials, env: Env, s: Session, bytes: seq<Byte>)
    requires Inv(who, s) && (s.connected ==> ProperlySent(bytes, s.log))
    ensures Inv(who, Transmit(env, s, bytes))
  {
    var t := Transmit(env, s, bytes);
    if s.connected {
      LogKeepsInv(who, s, if env(s.built).delivered then Transmitted(bytes) else Disconnected, t);
    }
  }

  lemma {:induction false} SendKeepsInv(who: Credentials, env: Env, s: Session, m: Message, numbered: Session)
    requires Inv(who, s) && ProperlyBuilt(who, m, s.log)
    requires numbered == s.(nextSeq := m.header.seqNum)
    ensures Inv(who, Send(env, numbered, m))
  {
    var t := Numbered(numbered, m);
    BuildKeepsInv(who, s, m, t);
    TransmitKeepsInv(who, env, t, Frame(m));
  }

  lemma {:induction false} HeartbeatKeepsInv(who: Credentials, env: Env, s: Session)
    requires Inv(who, s)
    ensures Inv(who, Heartbeat(env, s))
  {
    if s.connected {
      SendKeepsInv(who, env, s, HeartbeatClient105(NextHeader(env, s)), s);
    }
  }

  lemma {:induction false} RequestKeepsInv(who: Credentials, env: Env, s: Session,
                                           channel: U16, begin: U32, count: U16)
    requires Inv(who, s)
    ensures Inv(who, Request(env, s, channel, begin, count))
  {
    if s.loggedIn {
      SendKeepsInv(who, env, s, DataRequest101(NextHeader(env, s), channel, begin, count), s);
    }
  }

  lemma {:induction false} LoginKeepsInv(who: Credentials, env: Env, s: Session)
    requires Inv(who, s)
    ensures Inv(who, Login(env, s, who))
  {
    var blank := s.(nextSeq := 0);
    if s.connected && !s.loggedIn {
      SendKeepsInv(who, env, s,
                   LoginRequest020(Header(0, 0, 0, env(s.built).time), 168, who.checkCode, who.sessionId), blank);
    }
  }

  lemma {:induction false} ReactKeepsInv(who: Credentials, env: Env, s: Session, m: Message)
    requires Inv(who, s)
    ensures Inv(who, React(env, s, m))
  {
    var t := React(env, s, m);
    match m {
      case RetransmissionStart050(_) => LogKeepsInv(who, s, LoggedIn, t);
      case DataResponse102(_, _, _, _, _, _) => LogKeepsInv(who, s, Status(m), t);
      case HeartbeatServer104(_) => HeartbeatKeepsInv(who, env, s);
      case ErrorNotification010(_, _) => LogKeepsInv(who, s, ErrorReported(m), t);
      case _ =>
    }
  }

  lemma {:induction false} HandleKeepsInv(who: Credentials, env: Env, s: Session, f: seq<Byte>)
    requires Inv(who, s) && |f| >= HEADER_SIZE
    ensures Inv(who, Handle(env, s, f))
  {
    var t := Logged(s, ProtocolData(f));
    LogKeepsInv(who, s, ProtocolData(f), t);
    var kind := HeaderOf(f).kind;
    if KnownKind(kind) && Decode(kind, f).Some? {
      ReactKeepsInv(who, env, t, Decode(kind, f).value);
    }
  }

  lemma {:induction false} CutKeepsInv(who: Credentials, env: Env, c: Client)
    requires Inv(who, c.session) && c.buffer != [] && HasFrame(NextCut(c.buffer))
    ensures Inv(who, AfterCut(env, c).session)
  {
    var cut := NextCut(c.buffer);
    if cut.Market? {
      LogKeepsInv(who, c.session, MarketData(c.buffer[..cut.n]), AfterCut(env, c).session);
    } else if cut.Protocol? {
      HandleKeepsInv(who, env, c.session, c.buffer[..cut.n]);
    }
  }

  lemma {:induction false} RoundKeepsInv(who: Credentials, env: Env, c: Client) returns (t: Client)
    requires Inv(who, c.session) && c.running && !c.failed && c.buffer != [] && HasFrame(NextCut(c.buffer))
    ensures Drain(env, c) == Drain(env, t) && |t.buffer| < |c.buffer| && Inv(who, t.session)
  {
    t := AfterCut(env, c);
    CutKeepsInv(who, env, c);
  }

  lemma {:induction false} DrainKeepsInv(who: Credentials, env: Env, c: Client)
    requires Inv(who, c.session)
    ensures Inv(who, Drain(env, c).session)
    decreases |c.buffer|
  {
    if c.running && !c.failed && c.buffer != [] && HasFrame(NextCut(c.buffer)) {
      var t := RoundKeepsInv(who, env, c);
      DrainKeepsInv(who, env, t);
    }
  }

  lemma {:induction false} StopKeepsInv(who: Credentials, s: Session)
    requires Inv(who, s)
    ensures Inv(who, Logged(s.(connected := false, loggedIn := false), Stopped))
  {
    LogKeepsInv(who, s, Stopped, Logged(s.(connected := false, loggedIn := false), Stopped));
  }

  lemma {:induction false} ConnectKeepsInv(who: Credentials, s: Session, ok: bool)
    requires Inv(who, s)
    ensures Inv(who, Connect(s, ok))
  {
    if !s.connected {
      LogKeepsInv(who, s, Reconnecting(ok), Connect(s, ok));
    }
  }

  lemma {:induction false} NextKeepsInv(env: Env, who: Credentials, c: Client, step: Step)
    requires Inv(who, c.session)
    ensures Inv(who, Next(env, who, c, step).session)
  {
    var s := c.session;
    match step {
      case Start =>
      case Stop => StopKeepsInv(who, s);
      case ConnectTo(ok) => ConnectKeepsInv(who, s, ok);
      case Receive(chunk) => DrainKeepsInv(who, env, Append(c, chunk));
      case ReceiveFailure => LogKeepsInv(who, s, Disconnected, Lose(s));
      case PerformLogin => LoginKeepsInv(who, env, s);
      case RequestData(channel, begin, count) => RequestKeepsInv(who, env, s, channel, begin, count);
      case SendHeartbeat => HeartbeatKeepsInv(who, env, s);
    }
  }

  /** In every run: the flags say whether the latest connection and the latest login are still open;
      everything built is what it should be, where it may be built, numbered 0, 1, 2, ... since the
      latest login request; and what goes out is the frame just built, over an open connection. */
  lemma {:induction false} EveryRun(env: Env, who: Credentials, steps: seq<Step>)
    ensures Inv(who, Run(env, who, steps).session)
  {
    if steps != [] {
      EveryRun(env, who, steps[..|steps| - 1]);
      NextKeepsInv(env, who, Run(env, who, steps[..|steps| - 1]), steps[|steps| - 1]);
    }
  }

  lemma {:induction false} DownIsClosed(log: seq<Event>, i: nat)
    requires i < |log| && Breaks(log[i]) && forall j | i <= j < |log| :: log[j] != Reconnecting(true)
    ensures !ConnectionOpen(log)
    decreases |log|
  {
    var n := |log| - 1;
    assert log == log[..n] + [log[n]];
    ConnectionOpenSnoc(log[..n], log[n]);
    if i < n {
      DownIsClosed(log[..n], i);
    }
  }

  lemma {:induction false} ClosedIsSilent(who: Credentials, e: Event, before: seq<Event>)
    requires Proper(who, e, before) && !ConnectionOpen(before)
    ensures !e.Transmitted? && (e.Built? ==> e.message.DataRequest101?)
  {
  }

  lemma {:induction false} SilentIn(who: Credentials, log: seq<Event>, i: nat, k: nat)
    requires ProperLog(who, log) && i < k < |log|
    requires Breaks(log[i]) && forall j | i <= j < k :: log[j] != Reconnecting(true)
    ensures !log[k].Transmitted? && (log[k].Built? ==> log[k].message.DataRequest101?)
  {
    DownIsClosed(log[..k], i);
    ClosedIsSilent(who, log[k], log[..k]);
  }

  /** After a failed receive, a failed attempt to connect or a stop, the client sends nothing until an
      attempt succeeds. */
  lemma {:induction false} SilentWhileDown(env: Env, who: Credentials, steps: seq<Step>,
                                           log: seq<Event>, i: nat, k: nat)
    requires log == Run(env, who, steps).session.log && i < k < |log|
    requires log[i] == Disconnected || log[i] == Stopped || log[i] == Reconnecting(false)
    requires forall j | i < j < k :: log[j] != Reconnecting(true)
    ensures !log[k].Transmitted?
    ensures log[k].Built? ==> log[k].message.DataRequest101?
  {
    EveryRun(env, who, steps);
    SilentIn(who, log, i, k);
  }

  /** Connecting again, losing the connection and stopping: a standing connection is kept, any other
      attempt decides the flag and ends the login; a failed receive ends both; stopping ends both, once. */
  lemma {:induction false} FlagsAfter(env: Env, who: Credentials, c: Client, step: Step)
    ensures var d := Next(env, who, c, step);
            match step
            case ConnectTo(ok) =>
              if c.session.connected then d == c else d.session.connected == ok && !d.session.loggedIn
            case ReceiveFailure => !d.session.connected && !d.session.loggedIn
            case Stop => if c.running then !d.session.connected && !d.session.loggedIn && !d.running else d == c
            case _ => true
  {
  }

  /** A step that sends builds one message, exactly when it may: a login request when connected and not
      logged in, a data request when logged in, a heartbeat when connected. */
  lemma {:induction false} StepBuilds(env: Env, who: Credentials, c: Client, step: Step)
    requires step.PerformLogin? || step.RequestData? || step.SendHeartbeat?
    ensures var s, t := c.session, Next(env, who, c, step).session;
            var time := env(s.built).time;
            match step
            case PerformLogin =>
              if s.connected && !s.loggedIn
              then s.log + [Built(LoginRequest020(Header(0, 0, 0, time), 168, who.checkCode, who.sessionId))] <= t.log
              else t == s
            case RequestData(channel, begin, count) =>
              if s.loggedIn
              then s.log + [Built(DataRequest101(Header(0, 0, s.nextSeq, time), channel, begin, count))] <= t.log
              else t == s
            case _ =>
              if s.connected then s.log + [Built(HeartbeatClient105(Header(0, 0, s.nextSeq, time)))] <= t.log
              else t == s
  {
  }

  lemma {:induction false} NothingBuilt(log: seq<Event>, i: nat, j: nat)
    requires i <= j <= |log| && forall k | i <= k < j :: !log[k].Built?
    ensures BuiltSinceLogin(log[..j]) == BuiltSinceLogin(log[..i])
    decreases j
  {
    if i < j {
      NothingBuilt(log, i, j - 1);
      assert log[..j] == log[..j - 1] + [log[j - 1]];
      BuiltSnoc(log[..j - 1], log[j - 1]);
    }
  }

  lemma {:induction false} NumberOf(who: Credentials, log: seq<Event>, i: nat)
    requires ProperLog(who, log) && i < |log| && log[i].Built?
    ensures log[i].message.header.seqNum == NumberFor(log[i].message, log[..i])
  {
    assert Proper(who, log[i], log[..i]);
  }

  lemma {:induction false} NextNumber(log: seq<Event>, i: nat, j: nat)
    requires i < j < |log| && log[i].Built? && log[j].Built?
    requires log[i].message.header.seqNum == NumberFor(log[i].message, log[..i])
    requires forall k | i < k < j :: !log[k].Built?
    ensures NumberFor(log[j].message, log[..j]) ==
            if log[j].message.LoginRequest020? then 0
            else (log[i].message.header.seqNum + 1) % 0x1_0000_0000
  {
    assert log[..i + 1] == log[..i] + [log[i]];
    NumberAfterBuild(log[..i], log[i].message);
    NothingBuilt(log, i + 1, j);
  }

  /** Two messages built one after the other carry consecutive numbers (modulo 2^32),
      unless the second is a login request, which starts again at 0. */
  lemma {:induction false} ConsecutiveNumbers(env: Env, who: Credentials, steps: seq<Step>,
                                              log: seq<Event>, i: nat, j: nat)
    requires log == Run(env, who, steps).session.log
    requires i < j < |log| && log[i].Built? && log[j].Built?
    requires forall k | i < k < j :: !log[k].Built?
    ensures log[j].message.header.seqNum ==
            if log[j].message.LoginRequest020? then 0
            else (log[i].message.header.seqNum + 1) % 0x1_0000_0000
  {
    EveryRun(env, who, steps);
    NumberOf(who, log, i);
    NumberOf(who, log, j);
    NextNumber(log, i, j);
  }

  /** The numbering is said to restart at 0 after each successful login. The first message built after
      an accepted 050 instead continues from the latest login request: it carries 0 exactly when it is
      a login request itself, or when a multiple of 2^32 messages had been built since then. */
  lemma {:induction false} FirstAfterLoginIff(env: Env, who: Credentials, steps: seq<Step>,
                                              log: seq<Event>, j: nat, k: nat)
    requires log == Run(env, who, steps).session.log
    requires j < k < |log| && log[j].LoggedIn? && log[k].Built?
    requires forall i | j < i < k :: !log[i].Built?
    ensures log[k].message.header.seqNum == 0
            <==> log[k].message.LoginRequest020? || BuiltSinceLogin(log[..j]) % 0x1_0000_0000 == 0
  {
    EveryRun(env, who, steps);
    NothingBuilt(log, j, k);
    NumberOf(who, log, k);
  }

  // ----- a run that logs in

  const START_MESSAGE := RetransmissionStart050(Header(0, 0, 0, Time(0, 0)))

  /** Connect, ask for a login, receive its confirmation. */
  function LoginSteps(): seq<Step> {
    [Start, ConnectTo(true), PerformLogin, Receive(Frame(START_MESSAGE))]
  }

  lemma {:induction false} RunSnoc(env: Env, who: Credentials, steps: seq<Step>, step: Step)
    ensures Run(env, who, steps + [step]) == Next(env, who, Run(env, who, steps), step)
  {
    assert (steps + [step])[..|steps|] == steps;
  }

  lemma {:induction false} ConnectedRun(env: Env, who: Credentials)
    ensures var c := Run(env, who, [Start, ConnectTo(true)]);
            && c.running && !c.failed && c.buffer == []
            && c.session == Session(true, false, 0, 0, [Reconnecting(true)])
  {
    RunSnoc(env, who, [], Start);
    RunSnoc(env, who, [Start], ConnectTo(true));
    assert [] + [Start] == [Start] && [Start] + [ConnectTo(true)] == [Start, ConnectTo(true)];
    assert Run(env, who, []) == INITIAL_CLIENT;
  }

  lemma {:induction false} LoginSent(env: Env, s: Session, who: Credentials)
    requires s.connected && !s.loggedIn && s.built == 0 && env(0).delivered
    ensures var t := Login(env, s, who);
            t.connected && t.nextSeq == 1 && t.built == 1
  {
  }

  lemma {:induction false} LoginRequested(env: Env, who: Credentials)
    requires env(0).delivered
    ensures var c := Run(env, who, [Start, ConnectTo(true), PerformLogin]);
            && c.running && !c.failed && c.buffer == []
            && c.session.connected && c.session.nextSeq == 1 && c.session.built == 1
  {
    var before := [Start, ConnectTo(true)];
    ConnectedRun(env, who);
    RunSnoc(env, who, before, PerformLogin);
    assert before + [PerformLogin] == [Start, ConnectTo(true), PerformLogin];
    LoginSent(env, Run(env, who, before).session, who);
  }

  lemma {:induction false} FeedOne(env: Env, step: Delivery, c: Client, f: seq<Byte>)
    requires c.running && !c.failed && c.buffer == [] && ProtocolFrame(f) && step == DeliveryIn(env)
    ensures Feed(env, c, f) == c.(session := step(c.session, f))
  {
    assert Concat([]) == [] && [f][1..] == [];
    assert c.buffer + f == f + [] == Concat([f]);
    DrainFrames(env, step, Append(c, f), [f]);
    assert DeliverAll(step, c.session, [f]) == DeliverAll(step, step(c.session, f), []);
  }

  lemma {:induction false} LoginConfirmed(env: Env, c: Client, f: seq<Byte>)
    requires c.running && !c.failed && c.buffer == [] && f == Frame(START_MESSAGE)
    ensures var d := Feed(env, c, f);
            d == c.(session := c.session.(loggedIn := true, log := c.session.log + [ProtocolData(f)] + [LoggedIn]))
  {
    ServerMessageTakesEffect(env, c.session, START_MESSAGE, c.session.(log := c.session.log + [ProtocolData(f)]));
    FeedOne(env, DeliveryIn(env), c, f);
  }

  lemma {:induction false} LoginRun(env: Env, who: Credentials)
    requires env(0).delivered
    ensures var s := Run(env, who, LoginSteps()).session;
            && s.connected && s.loggedIn && s.nextSeq == 1 && s.built == 1
            && s.log != [] && s.log[|s.log| - 1].LoggedIn?
  {
    var before := [Start, ConnectTo(true), PerformLogin];
    LoginRequested(env, who);
    RunSnoc(env, who, before, Receive(Frame(START_MESSAGE)));
    assert before + [Receive(Frame(START_MESSAGE))] == LoginSteps();
    LoginConfirmed(env, Run(env, who, before), Frame(START_MESSAGE));
  }

  /** So the first request after a successful login carries number 1, not 0. */
  lemma {:induction false} FirstRequestIsOne(env: Env, who: Credentials, channel: U16, begin: U32, count: U16)
    requires env(0).delivered
    ensures var s := Run(env, who, LoginSteps()).session;
            var t := Run(env, who, LoginSteps() + [RequestData(channel, begin, count)]).session;
            && s.log != [] && s.log[|s.log| - 1].LoggedIn?
            && s.log + [Built(DataRequest101(Header(0, 0, 1, env(1).time), channel, begin, count))] <= t.log
  {
    LoginRun(env, who);
    RunSnoc(env, who, LoginSteps(), RequestData(channel, begin, count));
  }

  // ----- the returned values

  /** From `s` to `t` the frame of `m`, and nothing else, went out. */
  predicate Sent(s: Session, t: Session, m: Message) {
    t.log == s.log + [Built(m), Transmitted(Frame(m))]
  }

  lemma {:induction false} SendIff(env: Env, s: Session, m: Message)
    ensures Sent(s, Send(env, s, m), m) <==> s.connected && env(s.built).delivered
  {
    var bytes := Frame(m);
    assert s.log + [Built(m)] + [Transmitted(bytes)] == s.log + [Built(m), Transmitted(bytes)];
    var all := s.log + [Built(m), Transmitted(bytes)];
    assert |all| == |s.log| + 2 && all[|s.log| + 1] == Transmitted(bytes);
  }

  /** `request_retransmission` is documented to return whether the request was sent. It does exactly
      when the client is not logged in, or is connected and sending succeeds. */
  lemma {:induction false} RequestResultIff(env: Env, s: Session, channel: U16, begin: U32, count: U16)
    ensures var m := DataRequest101(NextHeader(env, s), channel, begin, count);
            (RequestResult(s) <==> Sent(s, Request(env, s, channel, begin, count), m))
            <==> !s.loggedIn || (s.connected && env(s.built).delivered)
  {
    SendIff(env, s, DataRequest101(NextHeader(env, s), channel, begin, count));
  }

  /** The same for `send_client_heartbeat`: exactly when not connected, or when sending succeeds. */
  lemma {:induction false} HeartbeatResultIff(env: Env, s: Session)
    ensures (HeartbeatResult(s) <==> Sent(s, Heartbeat(env, s), HeartbeatClient105(NextHeader(env, s))))
            <==> !s.connected || env(s.built).delivered
  {
    SendIff(env, s, HeartbeatClient105(NextHeader(env, s)));
  }

  lemma {:induction false} SendFails(env: Env, s: Session, m: Message)
    requires s.connected && !env(s.built).delivered
    ensures Send(env, s, m).log == s.log + [Built(m), Disconnected]
  {
    assert s.log + [Built(m)] + [Disconnected] == s.log + [Built(m), Disconnected];
  }

  /** Both return true, and nothing is sent, when sending fails in the session that the login run
      leads to. */
  lemma {:induction false} TrueWithoutSending(env: Env, who: Credentials, channel: U16, begin: U32, count: U16)
    requires env(0).delivered && !env(1).delivered
    ensures var s := Run(env, who, LoginSteps()).session;
            var header := NextHeader(env, s);
            && RequestResult(s) && HeartbeatResult(s)
            && Request(env, s, channel, begin, count).log
               == s.log + [Built(DataRequest101(header, channel, begin, count)), Disconnected]
            && Heartbeat(env, s).log == s.log + [Built(HeartbeatClient105(header)), Disconnected]
  {
    LoginRun(env, who);
    var s := Run(env, who, LoginSteps()).session;
    SendFails(env, s, DataRequest101(NextHeader(env, s), channel, begin, count));
    SendFails(env, s, HeartbeatClient105(NextHeader(env, s)));
  }
}

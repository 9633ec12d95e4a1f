/** The eight messages of the retransmission service (retransmission_protocol.cpp).
    A frame is MsgSize, the MsgSize bytes it counts, and one check-sum byte. */
module RetransmissionProtocol {
  import opened Bytes
  import opened Checksum

  const ERROR_NOTIFICATION: U16 := 10
  const LOGIN_REQUEST: U16 := 20
  const LOGIN_RESPONSE: U16 := 30
  const RETRANSMISSION_START: U16 := 50
  const DATA_REQUEST: U16 := 101
  const DATA_RESPONSE: U16 := 102
  const HEARTBEAT_SERVER: U16 := 104
  const HEARTBEAT_CLIENT: U16 := 105

  const HEADER_SIZE := 16
  const MAX_MSG_SIZE := 0xFFFF

  datatype Time = Time(epochSeconds: U32, nanosecond: U32)

  datatype Header = Header(size: U16, kind: U16, seqNum: U32, time: Time)

  datatype Message =
    | ErrorNotification010(header: Header, status: Byte)
    | LoginRequest020(header: Header, multiplicationOperator: U16, checkCode: Byte, sessionId: U16)
    | LoginResponse030(header: Header, channelId: U16)
    | RetransmissionStart050(header: Header)
    | DataRequest101(header: Header, channelId: U16, beginSeqNo: U32, recoverNum: U16)
    | DataResponse102(header: Header, channelId: U16, status: Byte, beginSeqNo: U32,
                      recoverNum: U16, data: seq<Byte>)
    | HeartbeatServer104(header: Header)
    | HeartbeatClient105(header: Header)

  predicate KnownKind(kind: U16) {
    kind in {ERROR_NOTIFICATION, LOGIN_REQUEST, LOGIN_RESPONSE, RETRANSMISSION_START,
             DATA_REQUEST, DATA_RESPONSE, HEARTBEAT_SERVER, HEARTBEAT_CLIENT}
  }

  function KindOf(m: Message): (kind: U16)
    ensures KnownKind(kind)
  {
    match m
    case ErrorNotification010(_, _) => ERROR_NOTIFICATION
    case LoginRequest020(_, _, _, _) => LOGIN_REQUEST
    case LoginResponse030(_, _) => LOGIN_RESPONSE
    case RetransmissionStart050(_) => RETRANSMISSION_START
    case DataRequest101(_, _, _, _) => DATA_REQUEST
    case DataResponse102(_, _, _, _, _, _) => DATA_RESPONSE
    case HeartbeatServer104(_) => HEARTBEAT_SERVER
    case HeartbeatClient105(_) => HEARTBEAT_CLIENT
  }

  /** Payload bytes before any variable part. */
  function FixedPayload(kind: U16): nat {
    if kind == ERROR_NOTIFICATION then 1
    else if kind == LOGIN_REQUEST then 5
    else if kind == LOGIN_RESPONSE then 2
    else if kind == DATA_REQUEST then 8
    else if kind == DATA_RESPONSE then 9
    else 0
  }

  function Payload(m: Message): (s: seq<Byte>)
    ensures if m.DataResponse102? then |s| == FixedPayload(KindOf(m)) + |m.data|
            else |s| == FixedPayload(KindOf(m))
  {
    match m
    case ErrorNotification010(_, status) => [status]
    case LoginRequest020(_, op, code, session) => Put16(op) + [code] + Put16(session)
    case LoginResponse030(_, channel) => Put16(channel)
    case DataRequest101(_, channel, begin, num) => Put16(channel) + Put32(begin) + Put16(num)
    case DataResponse102(_, channel, status, begin, num, data) =>
      Put16(channel) + [status] + Put32(begin) + Put16(num) + data
    case _ => []
  }

  /** MsgSize is a 16-bit field: an oversized payload wraps it. */
  function SizeField(m: Message): U16 {
    (HEADER_SIZE - 2 + |Payload(m)|) % 0x1_0000
  }

  /** The message with the header fields that serialization overwrites. */
  function Stamped(m: Message): Message {
    m.(header := m.header.(size := SizeField(m), kind := KindOf(m)))
  }

  function HeaderBytes(h: Header): (s: seq<Byte>)
    ensures |s| == HEADER_SIZE
  {
    Put16(h.size) + Put16(h.kind) + Put32(h.seqNum) + Put32(h.time.epochSeconds)
    + Put32(h.time.nanosecond)
  }

  /** Everything before the check sum. */
  function Content(m: Message): (s: seq<Byte>)
    ensures |s| == HEADER_SIZE + |Payload(m)| >= 2 + SizeField(m)
  {
    HeaderBytes(Stamped(m).header) + Payload(m)
  }

  /** The check sum covers only as many bytes as MsgSize declares. */
  function Frame(m: Message): (f: seq<Byte>)
    ensures |f| == HEADER_SIZE + |Payload(m)| + 1
  {
    Content(m) + [SumOf(Content(m)[..2 + SizeField(m)]) % 0x100]
  }

  method SerializeHeader(h: Header, buffer: seq<Byte>) returns (out: seq<Byte>)
    ensures out == buffer + HeaderBytes(h)
  {
    out := buffer + Put16(h.size) + Put16(h.kind) + Put32(h.seqNum);
    out := out + Put32(h.time.epochSeconds) + Put32(h.time.nanosecond);
  }

  method SerializePayload(m: Message, buffer: seq<Byte>) returns (out: seq<Byte>)
    ensures out == buffer + Payload(m)
  {
    out := buffer;
    match m {
      case ErrorNotification010(_, status) =>
        out := out + [status];
      case LoginRequest020(_, op, code, session) =>
        out := out + Put16(op);
        out := out + [code];
        out := out + Put16(session);
      case LoginResponse030(_, channel) =>
        out := out + Put16(channel);
      case DataRequest101(_, channel, begin, num) =>
        out := out + Put16(channel);
        out := out + Put32(begin);
        out := out + Put16(num);
      case DataResponse102(_, channel, status, begin, num, data) =>
        out := out + Put16(channel);
        out := out + [status];
        out := out + Put32(begin);
        out := out + Put16(num);
        out := out + data;
      case _ =>
    }
  }

  method SerializeContent(m: Message, buffer: seq<Byte>) returns (out: seq<Byte>)
    ensures out == buffer + Content(m)
  {
    var h := Stamped(m).header;
    out := SerializeHeader(h, buffer);
    out := SerializePayload(m, out);
    ConcatSlices(buffer, HeaderBytes(h), Payload(m), 0);
  }

  /** Serialization appends exactly one frame to whatever the buffer already holds. */
  method Serialize(m: Message, buffer: seq<Byte>) returns (out: seq<Byte>)
    ensures out == buffer + Frame(m)
  {
    var content := SerializeContent(m, buffer);
    var summed := 2 + SizeField(m);
    ConcatSlices(buffer, Content(m), Frame(m)[|Content(m)|..], summed);
    var sum := CalculateRetransmissionChecksum(content[|buffer|..|buffer| + summed]);
    assert Frame(m) == Content(m) + [sum];
    out := content + [sum];
  }

  // ----- reading

  function HeaderOf(data: seq<Byte>): Header
    requires |data| >= HEADER_SIZE
  {
    Header(Get16(data, 0), Get16(data, 2), Get32(data, 4), Time(Get32(data, 8), Get32(data, 12)))
  }

  predicate SizeAccepted(kind: U16, size: U16) {
    var base := HEADER_SIZE - 2 + FixedPayload(kind);
    if kind == DATA_RESPONSE then size >= base else size == base
  }

  function Fields(h: Header, p: seq<Byte>): (m: Message)
    requires KnownKind(h.kind)
    requires |p| >= FixedPayload(h.kind)
    ensures m.header == h && KindOf(m) == h.kind
  {
    if h.kind == ERROR_NOTIFICATION then ErrorNotification010(h, p[0])
    else if h.kind == LOGIN_REQUEST then LoginRequest020(h, Get16(p, 0), p[2], Get16(p, 3))
    else if h.kind == LOGIN_RESPONSE then LoginResponse030(h, Get16(p, 0))
    else if h.kind == RETRANSMISSION_START then RetransmissionStart050(h)
    else if h.kind == DATA_REQUEST then DataRequest101(h, Get16(p, 0), Get32(p, 2), Get16(p, 6))
    else if h.kind == DATA_RESPONSE then
      DataResponse102(h, Get16(p, 0), p[2], Get32(p, 3), Get16(p, 7), p[9..])
    else if h.kind == HEARTBEAT_SERVER then HeartbeatServer104(h)
    else HeartbeatClient105(h)
  }

  /** A complete frame of the given kind at the start of `data`, check sum included. */
  predicate FrameAt(kind: U16, data: seq<Byte>) {
    && |data| >= HEADER_SIZE
    && HeaderOf(data).kind == kind
    && SizeAccepted(kind, HeaderOf(data).size)
    && |data| >= 3 + HeaderOf(data).size
    && data[2 + HeaderOf(data).size] == SumOf(data[..2 + HeaderOf(data).size]) % 0x100
  }

  function Decode(kind: U16, data: seq<Byte>): (r: Option<Message>)
    requires KnownKind(kind)
    ensures r.Some? ==> KindOf(r.value) == kind
  {
    if FrameAt(kind, data) then
      Some(Fields(HeaderOf(data), data[HEADER_SIZE..2 + HeaderOf(data).size]))
    else
      None
  }

  method DeserializeHeader(data: seq<Byte>, start: nat, totalLen: nat) returns (r: Option<(Header, nat)>)
    requires start <= totalLen <= |data|
    ensures r.None? <==> start + HEADER_SIZE > totalLen
    ensures r.Some? ==> r.value == (HeaderOf(data[start..]), start + HEADER_SIZE)
  {
    var offset := start;
    if offset + HEADER_SIZE > totalLen {
      return None;
    }
    var size := Get16(data, offset);
    offset := offset + 2;
    var kind := Get16(data, offset);
    offset := offset + 2;
    var seqNum := Get32(data, offset);
    offset := offset + 4;
    var epochSeconds := Get32(data, offset);
    offset := offset + 4;
    var nanosecond := Get32(data, offset);
    offset := offset + 4;
    return Some((Header(size, kind, seqNum, Time(epochSeconds, nanosecond)), offset));
  }

  /** The per-message `deserialize`: the kind stands for the struct it is called on. */
  method Deserialize(kind: U16, data: seq<Byte>) returns (r: Option<Message>)
    requires KnownKind(kind)
    ensures r == Decode(kind, data)
  {
    var head := DeserializeHeader(data, 0, |data|);
    if head.None? {
      return None;
    }
    assert data[0..] == data;
    var (h, offset) := head.value;
    if h.kind != kind {
      return None;
    }
    var base := HEADER_SIZE - 2 + FixedPayload(kind);
    if (if kind == DATA_RESPONSE then h.size < base else h.size != base) {
      return None;
    }
    var expected := 2 + h.size + 1;
    if |data| < expected {
      return None;
    }
    var p := data[HEADER_SIZE..2 + h.size];
    var m: Message;
    if kind == ERROR_NOTIFICATION {
      m := ErrorNotification010(h, data[offset]);
      offset := offset + 1;
    } else if kind == LOGIN_REQUEST {
      m := LoginRequest020(h, Get16(data, offset), data[offset + 2], Get16(data, offset + 3));
      offset := offset + 5;
    } else if kind == LOGIN_RESPONSE {
      m := LoginResponse030(h, Get16(data, offset));
      offset := offset + 2;
    } else if kind == RETRANSMISSION_START {
      m := RetransmissionStart050(h);
    } else if kind == DATA_REQUEST {
      m := DataRequest101(h, Get16(data, offset), Get32(data, offset + 2), Get16(data, offset + 6));
      offset := offset + 8;
    } else if kind == DATA_RESPONSE {
      var variable := h.size - base;
      m := DataResponse102(h, Get16(data, offset), data[offset + 2], Get32(data, offset + 3),
                           Get16(data, offset + 7), data[offset + 9..offset + 9 + variable]);
      assert p[9..] == data[offset + 9..offset + 9 + variable];
      offset := offset + 9 + variable;
    } else if kind == HEARTBEAT_SERVER {
      m := HeartbeatServer104(h);
    } else {
      m := HeartbeatClient105(h);
    }
    assert m == Fields(h, p);
    var sum := CalculateRetransmissionChecksum(data[..2 + h.size]);
    if sum != data[offset] {
      return None;
    }
    return Some(m);
  }

  // ----- round trips

  lemma {:induction false} HeaderRoundTrip(h: Header, rest: seq<Byte>)
    ensures HeaderOf(HeaderBytes(h) + rest) == h
  {
    var s := HeaderBytes(h) + rest;
    var a, b, c := Put16(h.size), Put16(h.kind), Put32(h.seqNum);
    var d, e := Put32(h.time.epochSeconds), Put32(h.time.nanosecond);
    assert s == [] + a + s[2..] && s == a + b + s[4..] && s == a + b + c + s[8..];
    assert s == a + b + c + d + s[12..] && s == a + b + c + d + e + s[16..];
    GetPut16([], h.size, s[2..]);
    GetPut16(a, h.kind, s[4..]);
    GetPut32(a + b, h.seqNum, s[8..]);
    GetPut32(a + b + c, h.time.epochSeconds, s[12..]);
    GetPut32(a + b + c + d, h.time.nanosecond, s[16..]);
  }

  lemma {:induction false} HeaderCanonical(data: seq<Byte>)
    requires |data| >= HEADER_SIZE
    ensures HeaderBytes(HeaderOf(data)) == data[..HEADER_SIZE]
  {
    PutGet16(data, 0);
    PutGet16(data, 2);
    PutGet32(data, 4);
    PutGet32(data, 8);
    PutGet32(data, 12);
    assert data[..16] == data[0..2] + data[2..4] + data[4..8] + data[8..12] + data[12..16];
  }

  lemma {:induction false} PayloadRoundTrip(m: Message)
    requires m.header.kind == KindOf(m)
    ensures Fields(m.header, Payload(m)) == m
  {
    var p := Payload(m);
    match m {
      case LoginRequest020(_, op, code, session) =>
        assert p == [] + Put16(op) + p[2..] && p == Put16(op) + [code] + Put16(session) + [];
        GetPut16([], op, p[2..]);
        GetPut16(Put16(op) + [code], session, []);
      case DataRequest101(_, channel, begin, num) =>
        var a := Put16(channel);
        assert p == [] + a + p[2..] && p == a + Put32(begin) + Put16(num) + [];
        GetPut16([], channel, p[2..]);
        GetPut32(a, begin, Put16(num));
        GetPut16(a + Put32(begin), num, []);
      case DataResponse102(_, channel, status, begin, num, data) =>
        ResponseRoundTrip(m);
      case _ =>
    }
  }

  lemma {:induction false} ResponseRoundTrip(m: Message)
    requires m.DataResponse102? && m.header.kind == DATA_RESPONSE
    ensures Fields(m.header, Payload(m)) == m
  {
    var p := Payload(m);
    var a, b := Put16(m.channelId), [m.status];
    var c, d := Put32(m.beginSeqNo), Put16(m.recoverNum);
    assert p == [] + a + p[2..] && p == a + b + c + p[7..] && p == a + b + c + d + p[9..];
    GetPut16([], m.channelId, p[2..]);
    GetPut32(a + b, m.beginSeqNo, p[7..]);
    GetPut16(a + b + c, m.recoverNum, p[9..]);
    assert p[9..] == m.data;
  }

  lemma {:induction false} ResponseParts(p: seq<Byte>)
    requires |p| >= 9
    ensures Put16(Get16(p, 0)) + [p[2]] + Put32(Get32(p, 3)) + Put16(Get16(p, 7)) + p[9..] == p
  {
    PutGet16(p, 0);
    PutGet32(p, 3);
    PutGet16(p, 7);
    assert p == p[0..2] + [p[2]] + p[3..7] + p[7..9] + p[9..];
  }

  lemma {:induction false} RequestParts(p: seq<Byte>)
    requires |p| == 8
    ensures Put16(Get16(p, 0)) + Put32(Get32(p, 2)) + Put16(Get16(p, 6)) == p
  {
    PutGet16(p, 0);
    PutGet32(p, 2);
    PutGet16(p, 6);
    assert p == p[0..2] + p[2..6] + p[6..8];
  }

  lemma {:induction false} LoginParts(p: seq<Byte>)
    requires |p| == 5
    ensures Put16(Get16(p, 0)) + [p[2]] + Put16(Get16(p, 3)) == p
  {
    PutGet16(p, 0);
    PutGet16(p, 3);
    assert p == p[0..2] + [p[2]] + p[3..5];
  }

  lemma {:induction false} PayloadCanonical(h: Header, p: seq<Byte>)
    requires KnownKind(h.kind)
    requires |p| == FixedPayload(h.kind) || (h.kind == DATA_RESPONSE && |p| >= 9)
    ensures Payload(Fields(h, p)) == p
  {
    if h.kind == DATA_RESPONSE {
      ResponseParts(p);
    } else if h.kind == DATA_REQUEST {
      RequestParts(p);
    } else if h.kind == LOGIN_REQUEST {
      LoginParts(p);
    } else if h.kind == LOGIN_RESPONSE {
      PutGet16(p, 0);
    }
  }

  lemma {:induction false} SizeFits(m: Message)
    requires HEADER_SIZE - 2 + |Payload(m)| <= MAX_MSG_SIZE
    ensures 2 + SizeField(m) == HEADER_SIZE + |Payload(m)|
  {
  }

  lemma {:induction false} WholeContentSummed(m: Message)
    requires 2 + SizeField(m) == |Content(m)|
    ensures Frame(m) == Content(m) + [SumOf(Content(m)) % 0x100]
  {
    assert Content(m)[..|Content(m)|] == Content(m);
  }

  /** Where the parts of a frame sit when MsgSize did not wrap. */
  lemma {:induction false} FrameParts(m: Message, trailing: seq<Byte>)
    requires HEADER_SIZE - 2 + |Payload(m)| <= MAX_MSG_SIZE
    ensures var data, n := Frame(m) + trailing, HEADER_SIZE + |Payload(m)|;
            && 2 + SizeField(m) == n
            && data[..n] == Content(m)
            && data[HEADER_SIZE..n] == Payload(m)
            && data[n] == SumOf(Content(m)) % 0x100
  {
    SizeFits(m);
    WholeContentSummed(m);
    ConcatParts(HeaderBytes(Stamped(m).header), Payload(m), SumOf(Content(m)) % 0x100, trailing);
  }

  lemma {:induction false} ConcatParts(a: seq<Byte>, b: seq<Byte>, x: Byte, rest: seq<Byte>)
    ensures var d, n := a + b + [x] + rest, |a| + |b|;
            d[..n] == a + b && d[|a|..n] == b && d[n] == x
  {
  }

  lemma {:induction false} FrameHeader(m: Message, trailing: seq<Byte>)
    ensures HeaderOf(Frame(m) + trailing) == Stamped(m).header
  {
    var h := Stamped(m).header;
    var data := Frame(m) + trailing;
    assert data == HeaderBytes(h) + data[HEADER_SIZE..];
    HeaderRoundTrip(h, data[HEADER_SIZE..]);
  }

  /** A frame, even with bytes after it, decodes to the message it was made from
      exactly when MsgSize did not wrap (for message 102: at most 65512 data bytes). */
  lemma {:induction false} RoundTripIff(m: Message, trailing: seq<Byte>)
    ensures Decode(KindOf(m), Frame(m) + trailing) == Some(Stamped(m))
            <==> (m.DataResponse102? ==> |m.data| <= 65_512)
  {
    FrameHeader(m, trailing);
    if m.DataResponse102? ==> |m.data| <= 65_512 {
      FrameParts(m, trailing);
      PayloadRoundTrip(Stamped(m));
    }
  }

  /** The message type numbers of the service. */
  function TypeNumber(m: Message): nat {
    match m
    case ErrorNotification010(_, _) => 10
    case LoginRequest020(_, _, _, _) => 20
    case LoginResponse030(_, _) => 30
    case RetransmissionStart050(_) => 50
    case DataRequest101(_, _, _, _) => 101
    case DataResponse102(_, _, _, _, _, _) => 102
    case HeartbeatServer104(_) => 104
    case HeartbeatClient105(_) => 105
  }

  /** The payload of a message in `f`, field by field. */
  predicate PayloadAt(m: Message, f: seq<Byte>) {
    match m
    case ErrorNotification010(_, status) => |f| == 18 && f[16] == status
    case LoginRequest020(_, op, code, session) =>
      |f| == 22 && Get16(f, 16) == op && f[18] == code && Get16(f, 19) == session
    case LoginResponse030(_, channel) => |f| == 19 && Get16(f, 16) == channel
    case DataRequest101(_, channel, begin, num) =>
      |f| == 25 && Get16(f, 16) == channel && Get32(f, 18) == begin && Get16(f, 22) == num
    case DataResponse102(_, channel, status, begin, num, data) =>
      && |f| == 26 + |data| && Get16(f, 16) == channel && f[18] == status
      && Get32(f, 19) == begin && Get16(f, 23) == num && f[25..|f| - 1] == data
    case _ => |f| == 17
  }

  lemma {:induction false} PayloadInFrame(m: Message, h: Header, p: seq<Byte>, f: seq<Byte>)
    requires h.kind == KindOf(m) && |f| == 17 + |p| && f[16..|f| - 1] == p && |p| >= FixedPayload(h.kind)
    requires !m.DataResponse102? ==> |p| == FixedPayload(h.kind)
    requires Fields(h, p) == m.(header := h)
    ensures PayloadAt(m, f)
  {
    assert forall i | 0 <= i < |p| :: f[16 + i] == p[i];
    if m.DataResponse102? {
      assert f[25..|f| - 1] == p[9..];
    }
  }

  /** Where every field of a frame is: size and type number first, then sequence number and time, the
      payload from byte 16 on, and last the sum of all bytes before it modulo 256. */
  lemma {:induction false} FrameLayout(m: Message, f: seq<Byte>)
    requires (m.DataResponse102? ==> |m.data| <= 65_512) && f == Frame(m)
    ensures |f| >= 17 && Get16(f, 0) == |f| - 3 && Get16(f, 2) == TypeNumber(m)
    ensures Get32(f, 4) == m.header.seqNum
    ensures Get32(f, 8) == m.header.time.epochSeconds && Get32(f, 12) == m.header.time.nanosecond
    ensures PayloadAt(m, f)
    ensures f[|f| - 1] == SumOf(f[..|f| - 1]) % 256
  {
    FrameIsFramed(m);
    FrameHeader(m, []);
    FrameParts(m, []);
    assert f + [] == f;
    PayloadRoundTrip(Stamped(m));
    PayloadInFrame(m, Stamped(m).header, Payload(m), f);
  }

  /** Whatever decodes is a frame: re-serializing the result gives the bytes that were read. */
  lemma {:induction false} DecodedIsCanonical(kind: U16, data: seq<Byte>, m: Message)
    requires KnownKind(kind) && Decode(kind, data) == Some(m)
    ensures KindOf(m) == kind && Stamped(m) == m
    ensures |Frame(m)| <= |data| && Frame(m) == data[..|Frame(m)|]
  {
    var h := HeaderOf(data);
    var n := 2 + h.size;
    HeaderCanonical(data);
    CanonicalParts(h, data[HEADER_SIZE..n], m);
    PrefixSlices(data, HEADER_SIZE, n);
    FromParts(m, data[..n], data[n]);
  }

  lemma {:induction false} CanonicalParts(h: Header, p: seq<Byte>, m: Message)
    requires KnownKind(h.kind) && SizeAccepted(h.kind, h.size) && |p| == h.size + 2 - HEADER_SIZE
    requires m == Fields(h, p)
    ensures m.header == h && KindOf(m) == h.kind && Payload(m) == p
  {
    PayloadCanonical(h, p);
  }

  lemma {:induction false} FromParts(m: Message, content: seq<Byte>, sum: Byte)
    requires |content| == 2 + m.header.size >= HEADER_SIZE && m.header.kind == KindOf(m)
    requires HeaderBytes(m.header) == content[..HEADER_SIZE] && Payload(m) == content[HEADER_SIZE..]
    requires sum == SumOf(content) % 0x100
    ensures Stamped(m) == m && Frame(m) == content + [sum]
  {
    SizeFits(m);
    assert Stamped(m) == m;
    assert Content(m) == content[..HEADER_SIZE] + content[HEADER_SIZE..] == content;
    WholeContentSummed(m);
  }

  /** A whole frame by its bytes alone: MsgSize matches the length, the check sum the contents. */
  predicate Framed(f: seq<Byte>) {
    && |f| >= HEADER_SIZE + 1
    && |f| == 3 + Get16(f, 0)
    && f[|f| - 1] == SumOf(f[..|f| - 1]) % 0x100
  }

  lemma {:induction false} FrameIsFramed(m: Message)
    requires m.DataResponse102? ==> |m.data| <= 65_512
    ensures Framed(Frame(m)) && Get16(Frame(m), 0) == SizeField(m)
  {
    FrameHeader(m, []);
    FrameParts(m, []);
    assert Frame(m) + [] == Frame(m);
  }

  lemma {:induction false} SizeBytesDiffer(f: seq<Byte>, i: nat, b: Byte)
    requires |f| >= 2 && i < 2 && b != f[i]
    ensures Get16(f[i := b], 0) != Get16(f, 0)
  {
  }

  lemma {:induction false} CheckSumCatches(f: seq<Byte>, i: nat, b: Byte, rest: seq<Byte>, kind: U16)
    requires Framed(f) && 2 <= i < |f| && b != f[i]
    ensures !FrameAt(kind, f[i := b] + rest)
  {
    var data := f[i := b] + rest;
    var n := |f| - 1;
    assert Get16(data, 0) == Get16(f, 0) == n - 2;
    if i < n {
      assert data[..n] == f[..n][i := b];
      SumDetectsOneByte(f[..n], i, b);
    } else {
      assert data[..n] == f[..n];
    }
  }

  lemma {:induction false} SizeCheckCatches(f: seq<Byte>, i: nat, b: Byte, rest: seq<Byte>, kind: U16)
    requires Framed(f) && i < 2 && b != f[i]
    requires kind != DATA_RESPONSE && SizeAccepted(kind, Get16(f, 0))
    ensures !FrameAt(kind, f[i := b] + rest)
  {
    SizeBytesDiffer(f, i, b);
    assert Get16(f[i := b] + rest, 0) == Get16(f[i := b], 0);
  }

  lemma {:induction false} SumOfConcat(a: seq<Byte>, b: seq<Byte>)
    ensures SumOf(a + b) == SumOf(a) + SumOf(b)
    decreases |b|
  {
    if b == [] {
      assert a + b == a;
    } else {
      var n := |b| - 1;
      assert (a + b)[..|a| + n] == a + b[..n];
      SumOfConcat(a, b[..n]);
    }
  }

  lemma {:induction false} SizeByteOrder(f: seq<Byte>, i: nat, b: Byte)
    requires |f| >= 2 && i < 2
    ensures b < f[i] <==> Get16(f[i := b], 0) < Get16(f, 0)
    ensures b > f[i] <==> Get16(f[i := b], 0) > Get16(f, 0)
  {
  }

  /** What a reader of kind 102 finds after a byte of MsgSize changed to `b`. */
  lemma {:induction false} ResizedHeader(f: seq<Byte>, i: nat, b: Byte, rest: seq<Byte>)
    requires |f| >= HEADER_SIZE && i < 2 && Get16(f, 2) == DATA_RESPONSE
    ensures var data, n := f[i := b] + rest, Get16(f[i := b], 0);
            FrameAt(DATA_RESPONSE, data)
            <==> n >= 23 && |data| >= 3 + n && data[2 + n] == SumOf(data[..2 + n]) % 0x100
  {
    var data := f[i := b] + rest;
    assert Get16(data, 0) == Get16(f[i := b], 0) && Get16(data, 2) == Get16(f, 2);
  }

  lemma {:induction false} LoweredSizeIff(f: seq<Byte>, i: nat, b: Byte, rest: seq<Byte>, n: nat)
    requires Framed(f) && i < 2 && b < f[i] && Get16(f, 2) == DATA_RESPONSE && n == Get16(f[i := b], 0)
    ensures 2 + n < |f| - 1
    ensures FrameAt(DATA_RESPONSE, f[i := b] + rest)
            <==> n >= 23 && f[2 + n] == (SumOf(f[..2 + n]) - f[i] + b) % 0x100
  {
    SizeByteOrder(f, i, b);
    ResizedHeader(f, i, b, rest);
    var data := f[i := b] + rest;
    if n >= 23 {
      assert data[..2 + n] == f[..2 + n][i := b];
      SumAfterWrite(f[..2 + n], i, b);
    }
  }

  lemma {:induction false} SumBeyond(f: seq<Byte>, i: nat, b: Byte, rest: seq<Byte>, k: nat)
    requires i < |f| && k < |rest|
    ensures var data := f[i := b] + rest;
            SumOf(data[..|f| + k]) == SumOf(f) - f[i] + b + SumOf(rest[..k]) && data[|f| + k] == rest[k]
  {
    var data := f[i := b] + rest;
    assert data[..|f| + k] == f[i := b] + rest[..k];
    SumAfterWrite(f, i, b);
    SumOfConcat(f[i := b], rest[..k]);
  }

  lemma {:induction false} RaisedSizeIff(f: seq<Byte>, i: nat, b: Byte, rest: seq<Byte>, more: nat)
    requires Framed(f) && |f| >= 26 && i < 2 && b > f[i] && Get16(f, 2) == DATA_RESPONSE
    requires more == Get16(f[i := b], 0) - Get16(f, 0)
    ensures more > 0
    ensures FrameAt(DATA_RESPONSE, f[i := b] + rest)
            <==> |rest| >= more && rest[more - 1] == (SumOf(f) - f[i] + b + SumOf(rest[..more - 1])) % 0x100
  {
    SizeByteOrder(f, i, b);
    ResizedHeader(f, i, b, rest);
    if |rest| >= more {
      SumBeyond(f, i, b, rest, more - 1);
    }
  }

  /** When the frame `f` of a DataResponse102 that carries `data` still passes after byte `i` of
      MsgSize changed to `b`. With a lowered size some data byte stands where the check sum is read
      and must equal the sum of what precedes it; with a raised size it is some byte after the frame,
      so a lone frame never passes. */
  predicate SizeChangePasses(f: seq<Byte>, data: seq<Byte>, i: nat, b: Byte, trailing: seq<Byte>)
    requires |f| == 26 + |data| && i < 2
  {
    var n, size := Get16(f[i := b], 0), 23 + |data|;
    if n < size then
      n >= 23 && data[n - 23] == (SumOf(f[..2 + n]) - f[i] + b) % 0x100
    else
      && size < n <= size + |trailing|
      && trailing[n - size - 1] == (SumOf(f) - f[i] + b + SumOf(trailing[..n - size - 1])) % 0x100
  }

  predicate ResponseFrame(f: seq<Byte>, data: seq<Byte>) {
    && Framed(f)
    && |f| == 26 + |data|
    && Get16(f, 2) == DATA_RESPONSE
    && f[25..|f| - 1] == data
  }

  lemma {:induction false} FrameOfResponse(m: Message)
    requires m.DataResponse102? && |m.data| <= 65_512
    ensures ResponseFrame(Frame(m), m.data)
  {
    var f := Frame(m);
    FrameIsFramed(m);
    FrameHeader(m, []);
    FrameParts(m, []);
    assert f + [] == f;
    var p := Payload(m);
    assert p[9..] == m.data;
    assert f[16..|f| - 1] == p;
    assert f[16..|f| - 1][9..] == f[25..|f| - 1];
  }

  lemma {:induction false} ResizedResponse(f: seq<Byte>, data: seq<Byte>, i: nat, b: Byte, trailing: seq<Byte>)
    requires ResponseFrame(f, data) && i < 2 && b != f[i]
    ensures FrameAt(DATA_RESPONSE, f[i := b] + trailing) <==> SizeChangePasses(f, data, i, b, trailing)
  {
    var n := Get16(f[i := b], 0);
    SizeByteOrder(f, i, b);
    if b < f[i] {
      LoweredSizeIff(f, i, b, trailing, n);
      if n >= 23 {
        assert f[2 + n] == f[25..|f| - 1][n - 23];
      }
    } else {
      RaisedSizeIff(f, i, b, trailing, n - Get16(f, 0));
    }
  }

  /** Changing one byte of a frame is detected, whatever follows the frame, except exactly where a
      DataResponse102 has MsgSize changed so that another byte passes for its check sum. */
  lemma {:induction false} OneByteCorruption(m: Message, i: nat, b: Byte, trailing: seq<Byte>)
    requires m.DataResponse102? ==> |m.data| <= 65_512
    requires i < |Frame(m)| && b != Frame(m)[i]
    ensures Decode(KindOf(m), Frame(m)[i := b] + trailing).Some?
            <==> m.DataResponse102? && i < 2 && SizeChangePasses(Frame(m), m.data, i, b, trailing)
  {
    FrameIsFramed(m);
    if i >= 2 {
      CheckSumCatches(Frame(m), i, b, trailing, KindOf(m));
    } else if m.DataResponse102? {
      FrameOfResponse(m);
      ResizedResponse(Frame(m), m.data, i, b, trailing);
    } else {
      SizeCheckCatches(Frame(m), i, b, trailing, KindOf(m));
    }
  }

  lemma {:induction false} SumOfZeros(s: seq<Byte>)
    requires forall i | 0 <= i < |s| :: s[i] == 0
    ensures SumOf(s) == 0
  {
    if s != [] {
      SumOfZeros(s[..|s| - 1]);
    }
  }

  /** Bytes after `f` that make it pass once byte `i` of its size is raised to `b`: zeros up to where
      the check sum is read, and the sum there. */
  function Completion(f: seq<Byte>, i: nat, b: Byte): seq<Byte>
    requires |f| >= 2 && i < 2 && b > f[i]
  {
    SizeByteOrder(f, i, b);
    seq(Get16(f[i := b], 0) - Get16(f, 0) - 1, _ => 0) + [(SumOf(f) - f[i] + b) % 0x100]
  }

  lemma {:induction false} CompletionPasses(f: seq<Byte>, data: seq<Byte>, i: nat, b: Byte)
    requires ResponseFrame(f, data) && i < 2 && b > f[i]
    ensures SizeChangePasses(f, data, i, b, Completion(f, i, b)) && !SizeChangePasses(f, data, i, b, [])
  {
    SizeByteOrder(f, i, b);
    var more := Get16(f[i := b], 0) - Get16(f, 0);
    var trailing := Completion(f, i, b);
    assert trailing[..more - 1] == seq(more - 1, _ => 0);
    SumOfZeros(trailing[..more - 1]);
  }

  /** Whatever a size byte is raised to, some bytes after the frame make it pass; the lone frame with
      the raised size never decodes. */
  lemma {:induction false} RaisedSizeCanPass(m: Message, i: nat, b: Byte)
    requires m.DataResponse102? && |m.data| <= 65_512 && i < 2 && b > Frame(m)[i]
    ensures Decode(DATA_RESPONSE, Frame(m)[i := b] + Completion(Frame(m), i, b)).Some?
    ensures Decode(DATA_RESPONSE, Frame(m)[i := b]) == None
  {
    var f := Frame(m);
    FrameOfResponse(m);
    CompletionPasses(f, m.data, i, b);
    OneByteCorruption(m, i, b, Completion(f, i, b));
    OneByteCorruption(m, i, b, []);
    assert f[i := b] + [] == f[i := b];
  }

  const SMALL_RESPONSE := DataResponse102(Header(0, 0, 0, Time(0, 0)), 0, 0, 0, 0, [125])

  lemma {:induction false} SmallPayload()
    ensures Payload(SMALL_RESPONSE) == [0, 0, 0, 0, 0, 0, 0, 0, 0, 125]
    ensures SizeField(SMALL_RESPONSE) == 24
  {
    assert Put16(0) == [0, 0] && Put32(0) == [0, 0, 0, 0];
  }

  lemma {:induction false} ZeroBytes(f: seq<Byte>, at: nat)
    requires at + 4 <= |f| && Get32(f, at) == 0
    ensures f[at] == f[at + 1] == f[at + 2] == f[at + 3] == 0
  {
    assert Get16(f, at) == 0 && Get16(f, at + 2) == 0;
  }

  lemma {:induction false} SmallHeader(f: seq<Byte>)
    requires |f| >= HEADER_SIZE && HeaderOf(f) == Header(24, 102, 0, Time(0, 0))
    ensures f[..4] == [0, 24, 0, 102] && forall i | 4 <= i < 16 :: f[i] == 0
  {
    assert Get16(f, 0) == 24 && Get16(f, 2) == 102;
    assert f[0] == 0 && f[1] == 24 && f[2] == 0 && f[3] == 102;
    ZeroBytes(f, 4);
    ZeroBytes(f, 8);
    ZeroBytes(f, 12);
  }

  lemma {:induction false} SmallResponseBytes()
    ensures var f := Frame(SMALL_RESPONSE);
            && |f| == 27 && f[..4] == [0, 24, 0, 102] && f[25] == 125
            && forall i | 4 <= i < 25 :: f[i] == 0
  {
    var f := Frame(SMALL_RESPONSE);
    SmallPayload();
    FrameHeader(SMALL_RESPONSE, []);
    FrameParts(SMALL_RESPONSE, []);
    assert f + [] == f;
    SmallHeader(f);
    var p := f[16..26];
    assert p == [0, 0, 0, 0, 0, 0, 0, 0, 0, 125];
    assert forall i | 16 <= i < 26 :: f[i] == p[i - 16];
  }

  lemma {:induction false} DataByteAsCheckSum(data: seq<Byte>)
    requires |data| == 27 && data[..4] == [0, 23, 0, 102] && data[25] == 125
    requires forall i | 4 <= i < 25 :: data[i] == 0
    ensures FrameAt(DATA_RESPONSE, data)
  {
    var head: seq<Byte> := [0, 23, 0, 102];
    assert data[0] == head[0] && data[1] == head[1] && data[2] == head[2] && data[3] == head[3];
    assert data[..25] == head + data[4..25];
    SumOfZeros(data[4..25]);
    SumOfConcat(head, data[4..25]);
    SumOfFour(0, 23, 0, 102);
  }

  lemma {:induction false} SumSnoc(s: seq<Byte>, b: Byte)
    ensures SumOf(s + [b]) == SumOf(s) + b
  {
    assert (s + [b])[..|s|] == s;
  }

  lemma {:induction false} SumOfFour(a: Byte, b: Byte, c: Byte, d: Byte)
    ensures SumOf([a, b, c, d]) == a + b + c + d
  {
    SumSnoc([], a);
    SumSnoc([a], b);
    SumSnoc([a, b], c);
    SumSnoc([a, b, c], d);
    assert [] + [a] == [a] && [a] + [b] == [a, b];
    assert [a, b] + [c] == [a, b, c] && [a, b, c] + [d] == [a, b, c, d];
  }

  /** Lowering the size can pass without anything after the frame: this one still decodes after one
      byte of MsgSize changed, with its data byte taken for the check sum. */
  lemma {:induction false} LoweredSizeCanPass()
    ensures Frame(SMALL_RESPONSE)[1] == 24 && Decode(DATA_RESPONSE, Frame(SMALL_RESPONSE)[1 := 23]).Some?
  {
    SmallResponseBytes();
    var f := Frame(SMALL_RESPONSE);
    var data := f[1 := 23];
    assert data[..4] == f[..4][1 := 23];
    DataByteAsCheckSum(data);
  }
}

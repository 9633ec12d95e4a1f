/** The 19-byte header of every market message (common_header.cpp). */
module CommonHeader {
  import opened Bytes
  import opened PackBcd

  const HEADER_SIZE := 19

  datatype Header = Header(
    escCode: Byte,
    transmissionCode: Byte,
    messageKind: Byte,
    informationTime: seq<Byte>,
    channelId: seq<Byte>,
    channelSeq: seq<Byte>,
    versionNo: Byte,
    bodyLength: seq<Byte>)

  predicate WellSized(h: Header) {
    |h.informationTime| == 6 && |h.channelId| == 2 && |h.channelSeq| == 5 && |h.bodyLength| == 2
  }

  /** The wire image of a header. */
  function HeaderBytes(h: Header): (s: seq<Byte>)
    requires WellSized(h)
    ensures |s| == HEADER_SIZE
  {
    [h.escCode, h.transmissionCode, h.messageKind] + h.informationTime + h.channelId
    + h.channelSeq + [h.versionNo] + h.bodyLength
  }

  /** Parsing succeeds exactly on 19 bytes or more, and what it returns is those bytes. */
  method Parse(buffer: seq<Byte>) returns (h: Option<Header>)
    ensures h.None? <==> |buffer| < HEADER_SIZE
    ensures h.Some? ==> WellSized(h.value) && HeaderBytes(h.value) == buffer[..HEADER_SIZE]
    ensures h.Some? ==> h.value == HeaderOf(buffer)
    ensures h.Some? ==>
              && h.value.escCode == buffer[0] && h.value.transmissionCode == buffer[1]
              && h.value.messageKind == buffer[2] && h.value.informationTime == buffer[3..9]
              && h.value.channelId == buffer[9..11] && h.value.channelSeq == buffer[11..16]
              && h.value.versionNo == buffer[16] && h.value.bodyLength == buffer[17..19]
  {
    if |buffer| < HEADER_SIZE {
      return None;
    }
    var offset := 0;
    var esc := buffer[offset];
    offset := offset + 1;
    var code := buffer[offset];
    offset := offset + 1;
    var kind := buffer[offset];
    offset := offset + 1;
    var time := buffer[offset..offset + 6];
    offset := offset + 6;
    var channel := buffer[offset..offset + 2];
    offset := offset + 2;
    var number := buffer[offset..offset + 5];
    offset := offset + 5;
    var version := buffer[offset];
    offset := offset + 1;
    var length := buffer[offset..offset + 2];
    offset := offset + 2;
    return Some(Header(esc, code, kind, time, channel, number, version, length));
  }

  function HeaderOf(buffer: seq<Byte>): (h: Header)
    requires |buffer| >= HEADER_SIZE
    ensures WellSized(h) && HeaderBytes(h) == buffer[..HEADER_SIZE]
  {
    Header(buffer[0], buffer[1], buffer[2], buffer[3..9], buffer[9..11], buffer[11..16],
           buffer[16], buffer[17..19])
  }

  /** Every header is recovered from its wire image, whatever follows it. */
  lemma {:induction false} HeaderRoundTrip(h: Header, rest: seq<Byte>)
    requires WellSized(h)
    ensures HeaderOf(HeaderBytes(h) + rest) == h
  {
    var s := HeaderBytes(h) + rest;
    assert s[3..9] == h.informationTime && s[9..11] == h.channelId;
    assert s[11..16] == h.channelSeq && s[17..19] == h.bodyLength;
  }

  // The getters. Each throws on a bad nibble; the range guards that follow never fire.

  function GetChannelId(h: Header): (r: Result<nat>)
    requires WellSized(h)
    ensures r.Ok? <==> ValidBcd(h.channelId)
    ensures r.Ok? ==> r.value == BcdValue(h.channelId) && r.value < 10_000
  {
    match Number(h.channelId, 4)
    case Err => Err
    case Ok(v) =>
      WholeField(h.channelId);
      if v > 0xFFFF_FFFF then Err else Ok(v)
  }

  function GetChannelSeq(h: Header): (r: Result<nat>)
    requires WellSized(h)
    ensures r.Ok? <==> ValidBcd(h.channelSeq)
    ensures r.Ok? ==> r.value == BcdValue(h.channelSeq) && r.value < 10_000_000_000
  {
    match Number(h.channelSeq, 10)
    case Err => Err
    case Ok(v) =>
      WholeField(h.channelSeq);
      if v > 0xFFFF_FFFF_FFFF_FFFF then Err else Ok(v)
  }

  function GetBodyLength(h: Header): (r: Result<nat>)
    requires WellSized(h)
    ensures r.Ok? <==> ValidBcd(h.bodyLength)
    ensures r.Ok? ==> r.value == BcdValue(h.bodyLength) && r.value < 10_000
  {
    match Number(h.bodyLength, 4)
    case Err => Err
    case Ok(v) =>
      WholeField(h.bodyLength);
      if v > 0xFFFF then Err else Ok(v)
  }
}

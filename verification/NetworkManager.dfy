/** Dual-feed deduplication (network_manager.cpp). Packets handed to the SDK are recorded in
    `forwarded`; the time stamps stored in the log are never read and only its keys matter. */
module NetworkManager {
  import opened Bytes
  import H = CommonHeader

  const DEDUPLICATION_WINDOW_SIZE := 100

  datatype Config = Config(dualFeedEnabled: bool, feedCount: nat)

  function Capacity(config: Config): nat {
    DEDUPLICATION_WINDOW_SIZE * config.feedCount
  }

  // ----- the key

  /** Bitwise or. */
  function Or(a: nat, b: nat): nat {
    if a == 0 then b else 2 * Or(a / 2, b / 2) + if a % 2 == 1 || b % 2 == 1 then 1 else 0
  }

  /** `(channel << 32) | seq`: a sequence of more than 32 bits spills into the channel's bits. */
  function Key(channel: nat, channelSeq: nat): nat {
    Or(channel, channelSeq / 0x1_0000_0000) * 0x1_0000_0000 + channelSeq % 0x1_0000_0000
  }

  datatype Parsed = TooShort | Throws | Keyed(key: nat)

  function KeyOf(data: seq<Byte>): Parsed {
    if |data| < H.HEADER_SIZE then TooShort else
      var h := H.HeaderOf(data);
      match (H.GetChannelId(h), H.GetChannelSeq(h))
      case (Ok(channel), Ok(channelSeq)) => Keyed(Key(channel, channelSeq))
      case _ => Throws
  }

  /** A packet with what its header parses to. */
  datatype Packet = Packet(data: seq<Byte>, parsed: Parsed)

  function Received(data: seq<Byte>): Packet {
    Packet(data, KeyOf(data))
  }

  // ----- one packet

  function Smallest(s: set<nat>): (least: nat)
    requires s != {}
    ensures least in s && forall x | x in s :: least <= x
  {
    assert exists least :: least in s && forall x | x in s :: least <= x by {
      var any :| any in s;
      SmallestExists(s, any);
    }
    var least :| least in s && forall x | x in s :: least <= x;
    least
  }

  lemma {:induction false} SmallestExists(s: set<nat>, any: nat)
    requires any in s
    ensures exists least :: least in s && forall x | x in s :: least <= x
    decreases any
  {
    if x :| x in s && x < any {
      SmallestExists(s, x);
    }
  }

  /** Inserts, then evicts the smallest key if the log grew past its capacity. */
  function Remember(log: set<nat>, key: nat, capacity: nat): set<nat> {
    var grown := log + {key};
    if |grown| > capacity then grown - {Smallest(grown)} else grown
  }

  datatype State = State(
    running: bool, config: Config, log: set<nat>, forwarded: seq<seq<Byte>>)

  datatype Arrival = Arrival(packet: Packet, retransmitted: bool)

  function Deduplicated(s: State, a: Arrival): bool {
    s.config.dualFeedEnabled && !a.retransmitted
  }

  function Process(s: State, a: Arrival): State {
    if !s.running then s else
      match a.packet.parsed
      case TooShort => s
      case Throws => s
      case Keyed(key) =>
        if !Deduplicated(s, a) then s.(forwarded := s.forwarded + [a.packet.data])
        else if key in s.log then s
        else s.(log := Remember(s.log, key, Capacity(s.config)), forwarded := s.forwarded + [a.packet.data])
  }

  function Run(s: State, arrivals: seq<Arrival>): State {
    if arrivals == [] then s
    else Process(Run(s, arrivals[..|arrivals| - 1]), arrivals[|arrivals| - 1])
  }

  function Started(config: Config): State {
    State(true, config, {}, [])
  }

  class NetworkManager {
    const config: Config
    var running: bool
    var deduplicationLog: map<nat, int>
    var forwarded: seq<seq<Byte>>

    function View(): State
      reads this
    {
      State(running, config, deduplicationLog.Keys, forwarded)
    }

    constructor (config: Config)
      ensures View() == Started(config)
    {
      this.config := config;
      running, deduplicationLog, forwarded := true, map[], [];
    }

    method Stop()
      modifies `running
      ensures View() == old(View()).(running := false)
    {
      running := false;
    }

    method ForwardToSdk(data: seq<Byte>)
      modifies `forwarded
      ensures forwarded == old(forwarded) + [data]
    {
      forwarded := forwarded + [data];
    }

    /** `threw` is set when a header getter throws out of the call. */
    method ProcessIncomingPacket(data: seq<Byte>, isRetransmitted: bool, now: int) returns (threw: bool)
      modifies `deduplicationLog, `forwarded
      ensures View() == Process(old(View()), Arrival(Received(data), isRetransmitted))
      ensures threw <==> running && KeyOf(data).Throws?
    {
      if !running {
        return false;
      }
      var header := H.Parse(data);
      if header.None? {
        return false;
      }
      var channel := H.GetChannelId(header.value);
      if channel.Err? {
        return true;
      }
      var channelSeq := H.GetChannelSeq(header.value);
      if channelSeq.Err? {
        return true;
      }
      var key := Key(channel.value, channelSeq.value);
      if config.dualFeedEnabled && !isRetransmitted {
        if key in deduplicationLog {
          return false;
        }
        deduplicationLog := deduplicationLog[key := now];
        assert deduplicationLog.Keys == old(deduplicationLog).Keys + {key};
        if |deduplicationLog.Keys| > DEDUPLICATION_WINDOW_SIZE * config.feedCount {
          var first := Smallest(deduplicationLog.Keys);
          deduplicationLog := deduplicationLog - {first};
        }
      }
      ForwardToSdk(data);
      return false;
    }
  }
}

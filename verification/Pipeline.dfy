/** The two ends together: feeds into the deduplicator, its output into the SDK. */
module Pipeline {
  import opened Bytes
  import opened NetworkManager
  import opened Deduplication
  import opened TaifexSdk
  import T = SequenceTracking

  /** How frames are judged; the SDK's own judgement is `Validate`. */
  type Check = seq<Byte> -> Verdict

  /** The frames handed to `process_message` one after the other. */
  function Processed(check: Check, s: Sdk, frames: seq<seq<Byte>>): Sdk {
    if frames == [] then s
    else AfterVerdict(Processed(check, s, frames[..|frames| - 1]), check(frames[|frames| - 1]))
  }

  lemma {:induction false} ProcessedSnoc(check: Check, s: Sdk, frames: seq<seq<Byte>>, f: seq<Byte>)
    ensures Processed(check, s, frames + [f]) == AfterVerdict(Processed(check, s, frames), check(f))
  {
    assert (frames + [f])[..|frames|] == frames;
  }

  // ----- a frame seen once has no effect later

  predicate Absorbs(s: Sdk, verdict: Verdict) {
    verdict.Accepted? && s.initialized ==>
      verdict.channel in s.channels && verdict.channelSeq <= s.channels[verdict.channel]
  }

  lemma {:induction false} NoEffectIff(s: Sdk, verdict: Verdict)
    ensures AfterVerdict(s, verdict) == s <==> Absorbs(s, verdict)
  {
  }

  lemma {:induction false} StaysAbsorbed(s: Sdk, verdict: Verdict, next: Verdict)
    ensures Absorbs(AfterVerdict(s, verdict), verdict)
    ensures Absorbs(s, verdict) ==> Absorbs(AfterVerdict(s, next), verdict)
  {
  }

  lemma {:induction false} ProcessedAbsorbs(check: Check, s: Sdk, frames: seq<seq<Byte>>, i: nat)
    requires i < |frames|
    ensures Absorbs(Processed(check, s, frames), check(frames[i]))
    decreases |frames|
  {
    var n := |frames| - 1;
    StaysAbsorbed(Processed(check, s, frames[..n]), check(frames[i]), check(frames[n]));
    if i < n {
      ProcessedAbsorbs(check, s, frames[..n], i);
    }
  }

  // ----- deduplication does not show

  /** What arrived, dropped or not. */
  function DataOf(arrivals: seq<Arrival>): (ds: seq<seq<Byte>>)
    ensures |ds| == |arrivals|
    ensures forall i | 0 <= i < |ds| :: ds[i] == arrivals[i].packet.data
  {
    seq(|arrivals|, i requires 0 <= i < |arrivals| => arrivals[i].packet.data)
  }

  lemma {:induction false} DataSnoc(arrivals: seq<Arrival>, a: Arrival)
    ensures DataOf(arrivals + [a]) == DataOf(arrivals) + [a.packet.data]
  {
  }

  /** The SDK fed by the deduplicator stands where it would if every packet had reached it. */
  predicate Same(check: Check, config: Config, s: Sdk, arrivals: seq<Arrival>) {
    Processed(check, s, Run(Started(config), arrivals).forwarded) == Processed(check, s, DataOf(arrivals))
  }

  /** The packet repeats a multicast key with fewer than `100 * feeds` larger ones. */
  predicate Dropped(config: Config, before: seq<Arrival>, a: Arrival) {
    && config.dualFeedEnabled && Multicast(a) && a.packet.parsed.key in Seen(before)
    && |Larger(Seen(before), a.packet.parsed.key)| < 100 * config.feedCount
  }

  /** A valid frame of the same channel with this number or a higher one is among `data`. */
  predicate Known(check: Check, data: seq<seq<Byte>>, verdict: Verdict)
    requires verdict.Accepted?
  {
    exists f | f in data ::
      check(f).Accepted? && check(f).channel == verdict.channel && check(f).channelSeq >= verdict.channelSeq
  }

  /** A valid frame that would have been news is dropped. */
  predicate Hidden(check: Check, config: Config, before: seq<Arrival>, a: Arrival) {
    && Dropped(config, before, a)
    && check(a.packet.data).Accepted?
    && !Known(check, DataOf(before), check(a.packet.data))
  }

  predicate NeverHidden(check: Check, config: Config, arrivals: seq<Arrival>) {
    forall j: nat | j < |arrivals| :: !Hidden(check, config, arrivals[..j], arrivals[j])
  }

  /** What does not parse is not valid either. */
  predicate ParsesIfValid(check: Check, arrivals: seq<Arrival>) {
    forall a | a in arrivals && check(a.packet.data).Accepted? :: a.packet.parsed.Keyed?
  }

  lemma {:induction false} RunKeepsConfig(config: Config, arrivals: seq<Arrival>)
    ensures Run(Started(config), arrivals).running && Run(Started(config), arrivals).config == config
  {
    if arrivals != [] {
      RunKeepsConfig(config, arrivals[..|arrivals| - 1]);
    }
  }

  lemma {:induction false} ForwardedUnless(config: Config, before: seq<Arrival>, a: Arrival)
    ensures var out := Run(Started(config), before).forwarded;
            Run(Started(config), before + [a]).forwarded
            == if !a.packet.parsed.Keyed? || Dropped(config, before, a) then out else out + [a.packet.data]
  {
    if config.dualFeedEnabled {
      ArrivalStep(config, before, a);
    } else {
      RunKeepsConfig(config, before);
      RunSnoc(Started(config), before, a);
    }
  }

  lemma {:induction false} KnownIsAbsorbed(check: Check, s: Sdk, data: seq<seq<Byte>>, verdict: Verdict)
    requires verdict.Accepted? ==> Known(check, data, verdict)
    ensures Absorbs(Processed(check, s, data), verdict)
  {
    if verdict.Accepted? {
      var f :| f in data && check(f).Accepted? && check(f).channel == verdict.channel
               && check(f).channelSeq >= verdict.channelSeq;
      var i :| 0 <= i < |data| && data[i] == f;
      ProcessedAbsorbs(check, s, data, i);
    }
  }

  /** From the start, nothing is absorbed but what is known. */
  lemma {:induction false} AbsorbedIsKnown(check: Check, data: seq<seq<Byte>>, verdict: Verdict)
    requires verdict.Accepted? && Absorbs(Processed(check, INITIAL_SDK, data), verdict)
    ensures Known(check, data, verdict)
  {
    StaysInitialized(check, INITIAL_SDK, data);
    var f := LatestFrame(check, data, verdict.channel);
  }

  lemma {:induction false} StaysInitialized(check: Check, s: Sdk, frames: seq<seq<Byte>>)
    ensures Processed(check, s, frames).initialized == s.initialized
  {
    if frames != [] {
      StaysInitialized(check, s, frames[..|frames| - 1]);
    }
  }

  /** A tracked number came with some frame. */
  lemma {:induction false} LatestFrame(check: Check, data: seq<seq<Byte>>, channel: nat) returns (f: seq<Byte>)
    requires channel in Processed(check, INITIAL_SDK, data).channels
    ensures f in data && check(f) == Accepted(channel, Processed(check, INITIAL_SDK, data).channels[channel])
  {
    var n := |data| - 1;
    var s := Processed(check, INITIAL_SDK, data[..n]);
    if channel in s.channels && Processed(check, INITIAL_SDK, data).channels[channel] == s.channels[channel] {
      f := LatestFrame(check, data[..n], channel);
    } else {
      f := data[n];
    }
  }

  lemma {:induction false} SameAfter(check: Check, s: Sdk, out: seq<seq<Byte>>, all: seq<seq<Byte>>,
                                     data: seq<seq<Byte>>, f: seq<Byte>)
    requires Processed(check, s, out) == Processed(check, s, data)
    requires all == out + [f] || (all == out && Absorbs(Processed(check, s, data), check(f)))
    ensures Processed(check, s, all) == Processed(check, s, data + [f])
  {
    ProcessedSnoc(check, s, out, f);
    ProcessedSnoc(check, s, data, f);
    if all == out && Absorbs(Processed(check, s, data), check(f)) {
      NoEffectIff(Processed(check, s, data), check(f));
    }
  }

  lemma {:induction false} SameStep(check: Check, config: Config, s: Sdk, before: seq<Arrival>, a: Arrival)
    requires Same(check, config, s, before) && !Hidden(check, config, before, a)
    requires check(a.packet.data).Accepted? ==> a.packet.parsed.Keyed?
    ensures Same(check, config, s, before + [a])
  {
    ForwardedUnless(config, before, a);
    DataSnoc(before, a);
    if !a.packet.parsed.Keyed? || Dropped(config, before, a) {
      KnownIsAbsorbed(check, s, DataOf(before), check(a.packet.data));
    }
    SameAfter(check, s, Run(Started(config), before).forwarded, Run(Started(config), before + [a]).forwarded,
              DataOf(before), a.packet.data);
  }

  lemma {:induction false} SameThroughout(check: Check, config: Config, s: Sdk, arrivals: seq<Arrival>, j: nat)
    requires ParsesIfValid(check, arrivals) && NeverHidden(check, config, arrivals) && j <= |arrivals|
    ensures Same(check, config, s, arrivals[..j])
  {
    if j > 0 {
      SameThroughout(check, config, s, arrivals, j - 1);
      assert arrivals[j - 1] in arrivals;
      SameStep(check, config, s, arrivals[..j - 1], arrivals[j - 1]);
      assert arrivals[..j] == arrivals[..j - 1] + [arrivals[j - 1]];
    }
  }

  lemma {:induction false} HiddenShows(check: Check, config: Config, before: seq<Arrival>, a: Arrival)
    requires Hidden(check, config, before, a) && Same(check, config, INITIAL_SDK, before)
    ensures !Same(check, config, INITIAL_SDK, before + [a])
  {
    ForwardedUnless(config, before, a);
    DataSnoc(before, a);
    ProcessedSnoc(check, INITIAL_SDK, DataOf(before), a.packet.data);
    NoEffectIff(Processed(check, INITIAL_SDK, DataOf(before)), check(a.packet.data));
    if Absorbs(Processed(check, INITIAL_SDK, DataOf(before)), check(a.packet.data)) {
      AbsorbedIsKnown(check, DataOf(before), check(a.packet.data));
    }
  }

  /** The same at every moment and from every state. */
  ghost predicate AlwaysSame(check: Check, config: Config, arrivals: seq<Arrival>) {
    forall s, j: nat | j <= |arrivals| :: Same(check, config, s, arrivals[..j])
  }

  lemma {:induction false} HiddenShowsIn(check: Check, config: Config, arrivals: seq<Arrival>, j: nat)
    requires j < |arrivals| && Hidden(check, config, arrivals[..j], arrivals[j])
    ensures !AlwaysSame(check, config, arrivals)
  {
    assert arrivals[..j + 1] == arrivals[..j] + [arrivals[j]];
    if AlwaysSame(check, config, arrivals) {
      assert Same(check, config, INITIAL_SDK, arrivals[..j]) && Same(check, config, INITIAL_SDK, arrivals[..j + 1]);
      HiddenShows(check, config, arrivals[..j], arrivals[j]);
    }
  }

  lemma {:induction false} SameAlwaysIff(check: Check, config: Config, arrivals: seq<Arrival>)
    requires ParsesIfValid(check, arrivals)
    ensures AlwaysSame(check, config, arrivals) <==> NeverHidden(check, config, arrivals)
  {
    if NeverHidden(check, config, arrivals) {
      forall s, j: nat | j <= |arrivals|
        ensures Same(check, config, s, arrivals[..j])
      {
        SameThroughout(check, config, s, arrivals, j);
      }
    } else {
      var j: nat :| j < |arrivals| && Hidden(check, config, arrivals[..j], arrivals[j]);
      HiddenShowsIn(check, config, arrivals, j);
    }
  }

  lemma {:induction false} UnkeyedIsInvalid(raw: seq<Byte>)
    requires !KeyOf(raw).Keyed?
    ensures !Validate(raw).Accepted?
  {
  }

  /** All packets came off the wire. */
  predicate Genuine(arrivals: seq<Arrival>) {
    forall a | a in arrivals :: a.packet == Received(a.packet.data)
  }

  lemma {:induction false} GenuineParses(arrivals: seq<Arrival>)
    requires Genuine(arrivals)
    ensures ParsesIfValid(Validate, arrivals)
  {
    forall a | a in arrivals && Validate(a.packet.data).Accepted?
      ensures a.packet.parsed.Keyed?
    {
      if !a.packet.parsed.Keyed? {
        UnkeyedIsInvalid(a.packet.data);
      }
    }
  }

  /** Whatever number of feeds lose, repeat, delay, reorder, retransmit and damage packets, and however
      many repeats the log lets through: at every moment, and for every state it started from, the SDK
      stands where it would if every packet had reached it, with the same numbers and gap reports, if
      and only if the log never drops a valid frame of which no equal or later one of the channel came. */
  lemma {:induction false} DeduplicationInvisibleIff(config: Config, arrivals: seq<Arrival>)
    requires Genuine(arrivals)
    ensures AlwaysSame(Validate, config, arrivals) <==> NeverHidden(Validate, config, arrivals)
  {
    GenuineParses(arrivals);
    SameAlwaysIff(Validate, config, arrivals);
  }

  /** Multicast packets with one key are judged alike. */
  predicate CopiesAgree(check: Check, arrivals: seq<Arrival>) {
    forall a, b | a in arrivals && b in arrivals && Multicast(a) && Multicast(b)
                  && a.packet.parsed == b.packet.parsed :: check(a.packet.data) == check(b.packet.data)
  }

  lemma {:induction false} AgreeingNeverHide(check: Check, config: Config, arrivals: seq<Arrival>)
    requires CopiesAgree(check, arrivals)
    ensures NeverHidden(check, config, arrivals)
  {
    forall j: nat | j < |arrivals|
      ensures !Hidden(check, config, arrivals[..j], arrivals[j])
    {
      var before, a := arrivals[..j], arrivals[j];
      if Dropped(config, before, a) && check(a.packet.data).Accepted? {
        var b :| b in before && Multicast(b) && b.packet.parsed.key == a.packet.parsed.key;
        var i :| 0 <= i < j && before[i] == b;
        assert arrivals[i] == b && b in arrivals && a in arrivals;
        assert DataOf(before)[i] in DataOf(before);
      }
    }
  }

  /** So it is in particular when multicast copies of a packet are judged alike. */
  lemma {:induction false} DeduplicationIsInvisible(config: Config, s: Sdk, arrivals: seq<Arrival>)
    requires Genuine(arrivals) && CopiesAgree(Validate, arrivals)
    ensures Processed(Validate, s, Run(Started(config), arrivals).forwarded)
            == Processed(Validate, s, DataOf(arrivals))
  {
    GenuineParses(arrivals);
    AgreeingNeverHide(Validate, config, arrivals);
    SameThroughout(Validate, config, s, arrivals, |arrivals|);
    assert arrivals[..|arrivals|] == arrivals;
  }

  // ----- valid frames with 32-bit numbers

  lemma {:induction false} AcceptedKey(raw: seq<Byte>, channel: nat, number: nat)
    requires Validate(raw) == Accepted(channel, number)
    ensures KeyOf(raw) == Keyed(Key(channel, number))
  {
  }

  predicate Valid32(verdict: Verdict) {
    verdict.Accepted? && verdict.channelSeq < 0x1_0000_0000
  }

  predicate AllValid32(check: Check, frames: seq<seq<Byte>>) {
    forall f | f in frames :: Valid32(check(f))
  }

  lemma {:induction false} SameKeySameVerdict(x: seq<Byte>, y: seq<Byte>)
    requires Valid32(Validate(x)) && Valid32(Validate(y)) && KeyOf(x) == KeyOf(y)
    ensures Validate(x) == Validate(y)
  {
    var v, w := Validate(x), Validate(y);
    AcceptedKey(x, v.channel, v.channelSeq);
    AcceptedKey(y, w.channel, w.channelSeq);
    KeyInjective32(v.channel, v.channelSeq, w.channel, w.channelSeq);
  }

  lemma {:induction false} ValidCopiesAgree(arrivals: seq<Arrival>)
    requires Genuine(arrivals)
    requires forall a | a in arrivals && Multicast(a) :: Valid32(Validate(a.packet.data))
    ensures CopiesAgree(Validate, arrivals)
  {
    forall a, b | a in arrivals && b in arrivals && Multicast(a) && Multicast(b) && a.packet.parsed == b.packet.parsed
      ensures Validate(a.packet.data) == Validate(b.packet.data)
    {
      SameKeySameVerdict(a.packet.data, b.packet.data);
    }
  }

  // ----- two feeds with the same frames

  function Packets(frames: seq<seq<Byte>>): (ps: seq<Packet>)
    ensures |ps| == |frames|
  {
    seq(|frames|, i requires 0 <= i < |frames| => Received(frames[i]))
  }

  lemma {:induction false} InterleavedFrom(packets: seq<Packet>, schedule: seq<bool>, a: Arrival)
    requires a in Interleaved(packets, schedule)
    ensures !a.retransmitted && a.packet in packets
  {
    var n := |schedule| - 1;
    if a in Interleaved(packets, schedule[..n]) {
      InterleavedFrom(packets, schedule[..n], a);
    }
  }

  lemma {:induction false} NextOrAbsorbed(check: Check, s: Sdk, frames: seq<seq<Byte>>, out: seq<seq<Byte>>,
                                          front: nat, at: nat)
    requires at <= front <= |frames| && at < |frames|
    requires Processed(check, s, out) == Processed(check, s, frames[..front])
    ensures Processed(check, s, out + [frames[at]])
            == Processed(check, s, frames[..if at == front then front + 1 else front])
  {
    ProcessedSnoc(check, s, out, frames[at]);
    if at == front {
      assert frames[..front + 1] == frames[..front] + [frames[front]];
      ProcessedSnoc(check, s, frames[..front], frames[front]);
    } else {
      ProcessedAbsorbs(check, s, frames[..front], at);
      NoEffectIff(Processed(check, s, frames[..front]), check(frames[at]));
    }
  }

  lemma {:induction false} OneMoreArrival(check: Check, s: Sdk, frames: seq<seq<Byte>>, before: seq<Arrival>,
                                          all: seq<Arrival>, packet: Packet, front: nat, after: nat, at: nat)
    requires at <= front <= |frames| && (at < |frames| ==> packet.data == frames[at])
    requires after == if at < |frames| && at == front then front + 1 else front
    requires all == if at < |frames| then before + [Arrival(packet, false)] else before
    requires Processed(check, s, DataOf(before)) == Processed(check, s, frames[..front])
    ensures Processed(check, s, DataOf(all)) == Processed(check, s, frames[..after])
  {
    if at < |frames| {
      DataSnoc(before, Arrival(packet, false));
      NextOrAbsorbed(check, s, frames, DataOf(before), front, at);
    }
  }

  /** Two copies of a frame list, however interleaved, act like the list up to the leading feed. */
  lemma {:induction false} InterleavedProcessed(check: Check, s: Sdk, packets: seq<Packet>, frames: seq<seq<Byte>>,
                                                schedule: seq<bool>)
    requires Bodies(packets) == frames
    ensures Front(schedule, |frames|) <= |frames|
    ensures Processed(check, s, DataOf(Interleaved(packets, schedule)))
            == Processed(check, s, frames[..Front(schedule, |frames|)])
  {
    if schedule != [] {
      var before := schedule[..|schedule| - 1];
      var at := Position(before, schedule[|schedule| - 1], |packets|);
      InterleavedProcessed(check, s, packets, frames, before);
      InterleavedSnoc(packets, schedule);
      FrontSnoc(schedule, |packets|);
      var packet := if at < |packets| then packets[at] else Packet([], TooShort);
      assert at < |packets| ==> packets[at].data == Bodies(packets)[at];
      OneMoreArrival(check, s, frames, Interleaved(packets, before), Interleaved(packets, schedule), packet,
                     Front(before, |frames|), Front(schedule, |frames|), at);
    }
  }

  lemma {:induction false} PacketsInterleaved(frames: seq<seq<Byte>>, schedule: seq<bool>, a: Arrival)
    requires a in Interleaved(Packets(frames), schedule)
    ensures a.packet == Received(a.packet.data) && a.packet.data in frames
  {
    InterleavedFrom(Packets(frames), schedule, a);
    var i :| 0 <= i < |frames| && Packets(frames)[i] == a.packet;
    assert a.packet.data == frames[i];
  }

  lemma {:induction false} BodiesOfPackets(frames: seq<seq<Byte>>)
    ensures Bodies(Packets(frames)) == frames
  {
  }

  /** Two feeds that carry the same valid frames of any channels bring the SDK, however they interleave
      and however far one lags behind, exactly where a single perfect feed brings it. */
  lemma {:induction false} TwoFeedsAreOne(config: Config, s: Sdk, frames: seq<seq<Byte>>, schedule: seq<bool>)
    requires AllValid32(Validate, frames)
    ensures Front(schedule, |frames|) <= |frames|
    ensures Processed(Validate, s, Merged(config, Packets(frames), schedule))
            == Processed(Validate, s, frames[..Front(schedule, |frames|)])
  {
    var arrivals := Interleaved(Packets(frames), schedule);
    forall a | a in arrivals
      ensures a.packet == Received(a.packet.data) && Valid32(Validate(a.packet.data))
    {
      PacketsInterleaved(frames, schedule, a);
    }
    ValidCopiesAgree(arrivals);
    DeduplicationIsInvisible(config, s, arrivals);
    BodiesOfPackets(frames);
    InterleavedProcessed(Validate, s, Packets(frames), frames, schedule);
  }

  // ----- frames that continue their channels

  /** The latest number of each channel after the frames. */
  function Latest(check: Check, channels: map<nat, nat>, frames: seq<seq<Byte>>): map<nat, nat> {
    if frames == [] then channels else
      var before := Latest(check, channels, frames[..|frames| - 1]);
      match check(frames[|frames| - 1])
      case Accepted(channel, number) => before[channel := number]
      case _ => before
  }

  /** A valid frame that carries the next number of its channel, or any number of a new channel. */
  predicate Follows(verdict: Verdict, channels: map<nat, nat>) {
    verdict.Accepted? && (verdict.channel in channels ==> verdict.channelSeq == channels[verdict.channel] + 1)
  }

  /** Frames of any channels, each continuing its own channel. */
  predicate InSequence(check: Check, channels: map<nat, nat>, frames: seq<seq<Byte>>) {
    frames == []
    || (var n := |frames| - 1;
        InSequence(check, channels, frames[..n]) && Follows(check(frames[n]), Latest(check, channels, frames[..n])))
  }

  lemma {:induction false} InSequencePrefix(check: Check, channels: map<nat, nat>, frames: seq<seq<Byte>>, n: nat)
    requires InSequence(check, channels, frames) && n <= |frames|
    ensures InSequence(check, channels, frames[..n])
    decreases |frames|
  {
    if n == |frames| {
      assert frames[..n] == frames;
    } else {
      var m := |frames| - 1;
      InSequencePrefix(check, channels, frames[..m], n);
      assert frames[..m][..n] == frames[..n];
    }
  }

  lemma {:induction false} InSequenceProcessed(check: Check, s: Sdk, frames: seq<seq<Byte>>, n: nat)
    requires s.initialized && InSequence(check, s.channels, frames) && n <= |frames|
    ensures Processed(check, s, frames[..n]) == s.(channels := Latest(check, s.channels, frames[..n]))
    decreases n
  {
    if n > 0 {
      InSequencePrefix(check, s.channels, frames, n);
      InSequenceProcessed(check, s, frames, n - 1);
      assert frames[..n][..n - 1] == frames[..n - 1];
    }
  }

  /** If the frames continue their channels or start new ones, the SDK ends up at the latest numbers of
      the leading feed and no gap is ever reported, however late the other feed repeats a frame. */
  lemma {:induction false} RedundantFeedsAreGapless(config: Config, s: Sdk, frames: seq<seq<Byte>>,
                                                    schedule: seq<bool>)
    requires s.initialized && InSequence(Validate, s.channels, frames)
    requires AllValid32(Validate, frames)
    ensures Front(schedule, |frames|) <= |frames|
    ensures Processed(Validate, s, Merged(config, Packets(frames), schedule))
            == s.(channels := Latest(Validate, s.channels, frames[..Front(schedule, |frames|)]))
  {
    TwoFeedsAreOne(config, s, frames, schedule);
    InSequenceProcessed(Validate, s, frames, Front(schedule, |frames|));
  }

  // ----- one channel

  /** Valid frames of one channel, numbered consecutively from `first`. */
  predicate Consecutive(check: Check, frames: seq<seq<Byte>>, channel: nat, first: nat) {
    frames == []
    || (var n := |frames| - 1;
        Consecutive(check, frames[..n], channel, first) && check(frames[n]) == Accepted(channel, first + n))
  }

  lemma {:induction false} ConsecutivePrefix(check: Check, frames: seq<seq<Byte>>, channel: nat, first: nat, n: nat)
    requires Consecutive(check, frames, channel, first) && n <= |frames|
    ensures Consecutive(check, frames[..n], channel, first)
    decreases |frames|
  {
    if n == |frames| {
      assert frames[..n] == frames;
    } else {
      var m := |frames| - 1;
      ConsecutivePrefix(check, frames[..m], channel, first, n);
      assert frames[..m][..n] == frames[..n];
    }
  }

  lemma {:induction false} ConsecutiveInSequence(check: Check, channels: map<nat, nat>, frames: seq<seq<Byte>>,
                                                 channel: nat, first: nat)
    requires Consecutive(check, frames, channel, first)
    requires channel in channels ==> first == channels[channel] + 1
    ensures InSequence(check, channels, frames)
    ensures Latest(check, channels, frames)
            == if frames == [] then channels else channels[channel := first + |frames| - 1]
  {
    if frames != [] {
      ConsecutiveInSequence(check, channels, frames[..|frames| - 1], channel, first);
    }
  }

  lemma {:induction false} PrefixProcessed(check: Check, s: Sdk, frames: seq<seq<Byte>>, channel: nat, first: nat,
                                           n: nat, out: seq<seq<Byte>>)
    requires s.initialized && Consecutive(check, frames, channel, first) && n <= |frames|
    requires channel in s.channels ==> first == s.channels[channel] + 1
    requires Processed(check, s, out) == Processed(check, s, frames[..n])
    ensures Processed(check, s, out) == if n == 0 then s else s.(channels := s.channels[channel := first + n - 1])
  {
    ConsecutivePrefix(check, frames, channel, first, n);
    ConsecutiveInSequence(check, s.channels, frames, channel, first);
    ConsecutiveInSequence(check, s.channels, frames[..n], channel, first);
    InSequenceProcessed(check, s, frames, n);
  }

  lemma {:induction false} ConsecutiveValid(check: Check, frames: seq<seq<Byte>>, channel: nat, first: nat)
    requires Consecutive(check, frames, channel, first) && first + |frames| <= 0x1_0000_0000
    ensures AllValid32(check, frames)
  {
    if frames != [] {
      var n := |frames| - 1;
      ConsecutiveValid(check, frames[..n], channel, first);
      assert frames == frames[..n] + [frames[n]];
    }
  }

  lemma {:induction false} ConsecutiveIsOne(config: Config, s: Sdk, channel: nat, first: nat,
                                            frames: seq<seq<Byte>>, schedule: seq<bool>)
    requires Consecutive(Validate, frames, channel, first) && first + |frames| <= 0x1_0000_0000
    ensures Front(schedule, |frames|) <= |frames|
    ensures Processed(Validate, s, Merged(config, Packets(frames), schedule))
            == Processed(Validate, s, frames[..Front(schedule, |frames|)])
  {
    ConsecutiveValid(Validate, frames, channel, first);
    TwoFeedsAreOne(config, s, frames, schedule);
  }

  /** One channel, tracked or new: the SDK ends up at the number of the leading feed's last frame. */
  lemma {:induction false} OneChannelIsGapless(config: Config, s: Sdk, channel: nat, first: nat,
                                               frames: seq<seq<Byte>>, schedule: seq<bool>, front: nat)
    requires s.initialized && front == Front(schedule, |frames|)
    requires Consecutive(Validate, frames, channel, first) && first + |frames| <= 0x1_0000_0000
    requires channel in s.channels ==> first == s.channels[channel] + 1
    ensures Processed(Validate, s, Merged(config, Packets(frames), schedule))
            == if front == 0 then s else s.(channels := s.channels[channel := first + front - 1])
  {
    ConsecutiveIsOne(config, s, channel, first, frames, schedule);
    PrefixProcessed(Validate, s, frames, channel, first, front, Merged(config, Packets(frames), schedule));
  }

  // ----- a damaged copy

  lemma {:induction false} SecondIsDropped(config: Config, x: Packet, y: Packet)
    requires config.dualFeedEnabled && config.feedCount > 0 && x.parsed.Keyed? && y.parsed == x.parsed
    ensures Run(Started(config), [Arrival(x, false), Arrival(y, false)]).forwarded == [x.data]
  {
    var a, b := Arrival(x, false), Arrival(y, false);
    var key := x.parsed.key;
    RunSnoc(Started(config), [], a);
    RunSnoc(Started(config), [a], b);
    assert [] + [a] == [a] && [a] + [b] == [a, b];
    assert {} + {key} == {key} && |{key}| == 1 <= 100 * config.feedCount;
  }

  lemma {:induction false} TwoProcessed(check: Check, s: Sdk, x: seq<Byte>, y: seq<Byte>)
    ensures Processed(check, s, [x]) == AfterVerdict(s, check(x))
    ensures Processed(check, s, [x, y]) == AfterVerdict(AfterVerdict(s, check(x)), check(y))
  {
    ProcessedSnoc(check, s, [], x);
    ProcessedSnoc(check, s, [x], y);
    assert [] + [x] == [x] && [x] + [y] == [x, y];
  }

  lemma {:induction false} FirstDecides(s: Sdk, v: Verdict, w: Verdict)
    requires v.Accepted? && w.Accepted? ==> v == w
    ensures AfterVerdict(AfterVerdict(s, v), w) == AfterVerdict(s, v) <==> v.Accepted? || Absorbs(s, w)
  {
    NoEffectIff(AfterVerdict(s, v), w);
    StaysAbsorbed(s, v, w);
  }

  /** The key is logged before the frame is validated. Of two copies with one key the second is dropped;
      that does not show exactly when the first is valid, or the second would have had no effect. */
  lemma {:induction false} DroppedCopyIff(config: Config, s: Sdk, x: seq<Byte>, y: seq<Byte>)
    requires config.dualFeedEnabled && config.feedCount > 0 && KeyOf(x).Keyed? && KeyOf(y) == KeyOf(x)
    requires Validate(x).Accepted? ==> Valid32(Validate(x))
    requires Validate(y).Accepted? ==> Valid32(Validate(y))
    ensures var arrivals := [Arrival(Received(x), false), Arrival(Received(y), false)];
            Processed(Validate, s, Run(Started(config), arrivals).forwarded)
            == Processed(Validate, s, DataOf(arrivals))
            <==> Validate(x).Accepted? || Absorbs(s, Validate(y))
  {
    var arrivals := [Arrival(Received(x), false), Arrival(Received(y), false)];
    SecondIsDropped(config, Received(x), Received(y));
    assert DataOf(arrivals) == [x, y];
    TwoProcessed(Validate, s, x, y);
    if Validate(x).Accepted? && Validate(y).Accepted? {
      SameKeySameVerdict(x, y);
    }
    FirstDecides(s, Validate(x), Validate(y));
  }

  lemma {:induction false} ChangedCheckSum(good: seq<Byte>, b: Byte)
    requires Validate(good).Accepted? && b != good[|good| - 3]
    ensures var bad := good[|good| - 3 := b];
            KeyOf(bad) == KeyOf(good) && KeyOf(good).Keyed? && !Validate(bad).Accepted?
  {
    var bad := good[|good| - 3 := b];
    T.CheckSumByte(good, |good| - 3, b);
    assert bad[1..19] == good[1..19];
    T.SameFields(good, bad);
  }

  /** So a copy whose check sum was damaged on the faster feed hides the good one: the SDK never sees
      a frame that arrived intact. */
  lemma {:induction false} DamagedCopyHidesGood(config: Config, s: Sdk, good: seq<Byte>, b: Byte)
    requires config.dualFeedEnabled && config.feedCount > 0
    requires Validate(good).Accepted? && b != good[|good| - 3]
    ensures var bad := good[|good| - 3 := b];
            var out := Run(Started(config), [Arrival(Received(bad), false), Arrival(Received(good), false)]).forwarded;
            out == [bad] && Processed(Validate, s, out) == s
  {
    var bad := good[|good| - 3 := b];
    ChangedCheckSum(good, b);
    SecondIsDropped(config, Received(bad), Received(good));
    TwoProcessed(Validate, s, bad, good);
  }
}

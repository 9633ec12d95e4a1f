/** What the deduplication log remembers, which packets it drops, and what two redundant feeds
    turn into. */
module Deduplication {
  import opened Bytes
  import opened PackBcd
  import H = CommonHeader
  import opened NetworkManager

  // ----- the key

  lemma {:induction false} OrZero(a: nat)
    ensures Or(a, 0) == a
  {
    if a != 0 {
      OrZero(a / 2);
    }
  }

  lemma {:induction false} OrLowBits(a: nat, b: nat)
    requires b < 4
    ensures a % 4 == 0 ==> Or(a, b) == a + b
    ensures a % 2 == 1 ==> Or(a, 1) == a
    ensures a % 4 == 2 ==> Or(a, 2) == a
  {
    OrZero(a / 4);
    OrZero(a / 2);
    if a != 0 {
      assert a / 2 / 2 == a / 4;
      if a % 4 == 0 {
        assert Or(a / 2, b / 2) == a / 2 + b / 2 by {
          assert a / 2 != 0 && b / 2 / 2 == 0;
        }
      }
    }
  }

  lemma {:induction false} KeyParts(channel: nat, channelSeq: nat)
    ensures Key(channel, channelSeq) / 0x1_0000_0000 == Or(channel, channelSeq / 0x1_0000_0000)
    ensures Key(channel, channelSeq) % 0x1_0000_0000 == channelSeq % 0x1_0000_0000
  {
  }

  lemma {:induction false} OrBit(a: nat, b: nat, k: nat)
    ensures Bit(Or(a, b), k) <==> Bit(a, k) || Bit(b, k)
  {
    if a == 0 {
      NoBit(k);
    } else {
      BitOfDouble(Or(a / 2, b / 2), if a % 2 == 1 || b % 2 == 1 then 1 else 0, k);
      if k > 0 {
        OrBit(a / 2, b / 2, k - 1);
      }
    }
  }

  /** The key is `(channel << 32) | sequence`, bit by bit. */
  lemma {:induction false} KeyBits(channel: nat, channelSeq: nat, k: nat)
    ensures Bit(Key(channel, channelSeq), k)
            <==> Bit(channelSeq, k) || (k >= 32 && Bit(channel, k - 32))
  {
    var high, low := channelSeq / 0x1_0000_0000, channelSeq % 0x1_0000_0000;
    ThirtyTwoBits();
    BitOfParts(Or(channel, high), low, 32, k);
    BitOfParts(high, low, 32, k);
    if k >= 32 {
      OrBit(channel, high, k - 32);
    }
  }

  /** What the key of any packet is, from its bytes: channel and sequence are in bytes 9 to 15; fewer than
      19 bytes give none, and a bad nibble there throws. */
  lemma {:induction false} KeyFromBytes(data: seq<Byte>)
    ensures KeyOf(data) ==
            if |data| < 19 then TooShort
            else if !ValidBcd(data[9..11]) || !ValidBcd(data[11..16]) then Throws
            else Keyed(Key(BcdValue(data[9..11]), BcdValue(data[11..16])))
  {
  }

  /** A stopped manager forwards and remembers nothing. */
  lemma {:induction false} StoppedIsInert(s: State, arrivals: seq<Arrival>)
    requires !s.running
    ensures Run(s, arrivals) == s
  {
    if arrivals != [] {
      StoppedIsInert(s, arrivals[..|arrivals| - 1]);
    }
  }

  /** 32-bit sequences: the key tells every two (channel, sequence) pairs apart. */
  lemma {:induction false} KeyInjective32(c: nat, s: nat, d: nat, t: nat)
    requires s < 0x1_0000_0000 && t < 0x1_0000_0000 && Key(c, s) == Key(d, t)
    ensures c == d && s == t
  {
    KeyParts(c, s);
    KeyParts(d, t);
    OrZero(c);
    OrZero(d);
  }

  /** Two (channel, ten-digit sequence) pairs that share a key. */
  predicate Collide(c: nat, s: nat, d: nat, t: nat) {
    s < 10_000_000_000 && t < 10_000_000_000 && Key(c, s) == Key(d, t) && (c != d || s != t)
  }

  lemma {:induction false} HighParts(c: nat, h: nat, d: nat, k: nat)
    requires c % 4 == 0 && d % 4 == 0 && h < 4 && k < 4 && c + h == d + k
    ensures c == d && h == k
  {
  }

  lemma {:induction false} BothParts(s: nat, t: nat)
    requires s / 0x1_0000_0000 == t / 0x1_0000_0000 && s % 0x1_0000_0000 == t % 0x1_0000_0000
    ensures s == t
  {
  }

  lemma {:induction false} TenDigits(s: nat)
    requires s < 10_000_000_000
    ensures s / 0x1_0000_0000 < 4
  {
  }

  lemma {:induction false} MultiplesOfFour(c: nat, s: nat, d: nat, t: nat)
    requires c % 4 == 0 && d % 4 == 0
    ensures !Collide(c, s, d, t)
  {
    if Collide(c, s, d, t) {
      var h, k := s / 0x1_0000_0000, t / 0x1_0000_0000;
      TenDigits(s);
      TenDigits(t);
      SameParts(c, s, d, t);
      OrLowBits(c, h);
      OrLowBits(d, k);
      HighParts(c, h, d, k);
      BothParts(s, t);
    }
  }

  lemma {:induction false} SameParts(c: nat, s: nat, d: nat, t: nat)
    requires Key(c, s) == Key(d, t)
    ensures Or(c, s / 0x1_0000_0000) == Or(d, t / 0x1_0000_0000)
    ensures s % 0x1_0000_0000 == t % 0x1_0000_0000
  {
    KeyParts(c, s);
    KeyParts(d, t);
  }

  lemma {:induction false} KeyOfHigh(c: nat, h: nat, s: nat)
    requires s == h * 0x1_0000_0000
    ensures Key(c, s) == Or(c, h) * 0x1_0000_0000
  {
    ModOfSplit(s, h, 0x1_0000_0000, 0);
    assert s / 0x1_0000_0000 == h;
  }

  lemma {:induction false} SameKey(c: nat, h: nat)
    requires 0 < h <= 2 && Or(c, h) == c
    ensures Collide(c, 0, c, h * 0x1_0000_0000)
  {
    OrZero(c);
    KeyOfHigh(c, 0, 0);
    KeyOfHigh(c, h, h * 0x1_0000_0000);
  }

  /** A channel with a low bit set has two sequences with one key: 0 and the one whose high part
      is that bit. */
  lemma {:induction false} OddOneOut(c: nat)
    requires c % 4 != 0
    ensures Collide(c, 0, c, if c % 2 == 1 then 0x1_0000_0000 else 0x2_0000_0000)
  {
    var h := if c % 2 == 1 then 1 else 2;
    OrLowBits(c, h);
    SameKey(c, h);
  }

  /** Over ten-digit sequences, the key tells all pairs of the channels in use apart if and only if
      each of these channels is a multiple of four. */
  lemma {:induction false} KeyInjectiveIff(channels: set<nat>)
    ensures (forall c, s, d, t | c in channels && d in channels :: !Collide(c, s, d, t))
            <==> forall c | c in channels :: c % 4 == 0
  {
    forall c, s, d, t | c in channels && d in channels && c % 4 == 0 && d % 4 == 0
      ensures !Collide(c, s, d, t)
    {
      MultiplesOfFour(c, s, d, t);
    }
    forall c | c in channels && c % 4 != 0
      ensures exists s, t :: Collide(c, s, c, t)
    {
      OddOneOut(c);
    }
  }

  /** In particular the ten-digit sequences of one channel have different keys exactly when the
      channel is a multiple of four. */
  lemma {:induction false} OneChannelKeysIff(c: nat)
    ensures (forall s, t :: !Collide(c, s, c, t)) <==> c % 4 == 0
  {
    KeyInjectiveIff({c});
    if c % 4 == 0 {
      assert forall d | d in {c} :: d % 4 == 0;
    }
  }

  /** A multiple of four is not safe next to other channels: a ten-digit packet of channel 4 has the
      key of packet 0 of channel 5. */
  lemma {:induction false} NeighbourCollides()
    ensures Collide(4, 0x1_0000_0000, 5, 0)
  {
    OrLowBits(4, 1);
    OrZero(5);
    KeyOfHigh(4, 1, 0x1_0000_0000);
    KeyOfHigh(5, 0, 0);
  }

  // ----- the log holds the largest keys

  function Larger(seen: set<nat>, key: nat): set<nat> {
    set y | y in seen && y > key
  }

  /** `log` is the set of the `k` largest members of `seen` (all of them if there are fewer). */
  ghost predicate LargestOf(log: set<nat>, seen: set<nat>, k: nat) {
    && log <= seen
    && |log| == (if |seen| < k then |seen| else k)
    && forall x, y | x in log && y in seen && y !in log :: y < x
  }

  lemma {:induction false} EvictionKeepsLargest(log: set<nat>, seen: set<nat>, key: nat, k: nat)
    requires LargestOf(log, seen, k) && key !in log && |log| == k
    ensures LargestOf(log + {key} - {Smallest(log + {key})}, seen + {key}, k)
  {
    var grown := log + {key};
    var least := Smallest(grown);
    var kept := grown - {least};
    SubsetSize(log, seen);
    SubsetSize(kept, seen + {key});
    forall x, y | x in kept && y in seen + {key} && y !in kept
      ensures y < x
    {
      assert least <= x && least != x;
      if y != least && x == key {
        assert least in log && y in seen && y !in log;
      }
    }
  }

  lemma {:induction false} RememberKeepsLargest(log: set<nat>, seen: set<nat>, key: nat, k: nat)
    requires LargestOf(log, seen, k)
    ensures LargestOf(if key in log then log else Remember(log, key, k), seen + {key}, k)
  {
    if key in log {
      assert seen + {key} == seen;
    } else if |log + {key}| > k {
      EvictionKeepsLargest(log, seen, key, k);
    } else {
      SubsetSize(log, seen);
      assert log == seen;
    }
  }

  /** Being among the `k` largest, by counting. */
  lemma {:induction false} LargestByCount(log: set<nat>, seen: set<nat>, k: nat, x: nat)
    requires LargestOf(log, seen, k)
    ensures x in log <==> x in seen && |Larger(seen, x)| < k
  {
    if x in log {
      SubsetSize(Larger(seen, x), log - {x});
    } else if x in seen {
      SubsetSize(log, seen);
      SubsetSize(log, Larger(seen, x));
    }
  }

  /** The arrivals that go through the key test: they parse and are not retransmitted. */
  predicate Multicast(a: Arrival) {
    !a.retransmitted && a.packet.parsed.Keyed?
  }

  /** Keys of the multicast packets of a run. */
  function Seen(arrivals: seq<Arrival>): set<nat> {
    set a | a in arrivals && Multicast(a) :: a.packet.parsed.key
  }

  /** The key that one arrival adds. */
  function NewKeys(a: Arrival): set<nat> {
    if Multicast(a) then {a.packet.parsed.key} else {}
  }

  lemma {:induction false} SeenSnoc(arrivals: seq<Arrival>, a: Arrival)
    ensures Seen(arrivals + [a]) == Seen(arrivals) + NewKeys(a)
  {
    forall x | x in Seen(arrivals)
      ensures x in Seen(arrivals + [a])
    {
      var b :| b in arrivals && Multicast(b) && b.packet.parsed.key == x;
      assert b in arrivals + [a];
    }
    assert a in arrivals + [a];
  }

  lemma {:induction false} RunSnoc(s: State, arrivals: seq<Arrival>, a: Arrival)
    ensures Run(s, arrivals + [a]) == Process(Run(s, arrivals), a)
  {
    assert (arrivals + [a])[..|arrivals|] == arrivals;
  }

  /** A deduplicating state that remembers the largest of the keys seen. */
  ghost predicate Remembers(config: Config, s: State, seen: set<nat>) {
    s.running && s.config == config && LargestOf(s.log, seen, 100 * config.feedCount)
  }

  lemma {:induction false} ProcessKeepsLargest(config: Config, s: State, seen: set<nat>, a: Arrival)
    requires config.dualFeedEnabled && Remembers(config, s, seen)
    ensures Remembers(config, Process(s, a), seen + NewKeys(a))
  {
    if Multicast(a) {
      RememberKeepsLargest(s.log, seen, a.packet.parsed.key, 100 * config.feedCount);
    } else {
      assert seen + NewKeys(a) == seen;
    }
  }

  /** After every run the log holds exactly the `100 * feeds` largest distinct keys seen. */
  lemma {:induction false} LogHoldsLargest(config: Config, arrivals: seq<Arrival>)
    requires config.dualFeedEnabled
    ensures Remembers(config, Run(Started(config), arrivals), Seen(arrivals))
  {
    if arrivals != [] {
      var n := |arrivals| - 1;
      var before, a := arrivals[..n], arrivals[n];
      LogHoldsLargest(config, before);
      ProcessKeepsLargest(config, Run(Started(config), before), Seen(before), a);
      SeenSnoc(before, a);
      assert arrivals == before + [a];
    }
  }

  /** A multicast packet that parses is discarded exactly when its key was seen before and fewer
      than `100 * feeds` distinct larger keys have been; otherwise it is forwarded. */
  lemma {:induction false} DiscardedIff(config: Config, arrivals: seq<Arrival>, packet: Packet)
    requires config.dualFeedEnabled && packet.parsed.Keyed?
    ensures var key := packet.parsed.key;
            var before := Run(Started(config), arrivals);
            var after := Process(before, Arrival(packet, false));
            if key in Seen(arrivals) && |Larger(Seen(arrivals), key)| < 100 * config.feedCount
            then after == before
            else after.forwarded == before.forwarded + [packet.data]
  {
    LogHoldsLargest(config, arrivals);
    LargestByCount(Run(Started(config), arrivals).log, Seen(arrivals), 100 * config.feedCount, packet.parsed.key);
  }

  /** Retransmitted packets are always forwarded and leave the log alone. */
  lemma {:induction false} RetransmissionBypasses(config: Config, arrivals: seq<Arrival>, packet: Packet)
    requires config.dualFeedEnabled && packet.parsed.Keyed?
    ensures var before := Run(Started(config), arrivals);
            Process(before, Arrival(packet, true)) == before.(forwarded := before.forwarded + [packet.data])
  {
    LogHoldsLargest(config, arrivals);
  }

  function Multicasts(arrivals: seq<Arrival>): seq<Arrival> {
    if arrivals == [] then [] else
      var before, a := Multicasts(arrivals[..|arrivals| - 1]), arrivals[|arrivals| - 1];
      if Multicast(a) then before + [a] else before
  }

  lemma {:induction false} MulticastsLog(config: Config, arrivals: seq<Arrival>)
    requires config.dualFeedEnabled
    ensures var s, t := Run(Started(config), arrivals), Run(Started(config), Multicasts(arrivals));
            s.running && t.running && s.config == t.config == config && s.log == t.log
  {
    if arrivals != [] {
      var before, a := arrivals[..|arrivals| - 1], arrivals[|arrivals| - 1];
      MulticastsLog(config, before);
      if Multicast(a) {
        RunSnoc(Started(config), Multicasts(before), a);
      }
    }
  }

  /** Retransmitted and unparsable packets never matter to later ones: without them the log is the
      same, and so is the decision on any packet that comes next. */
  lemma {:induction false} OnlyMulticastMatters(config: Config, arrivals: seq<Arrival>, next: Arrival)
    requires config.dualFeedEnabled
    ensures var s, t := Run(Started(config), arrivals), Run(Started(config), Multicasts(arrivals));
            && s.log == t.log
            && (Process(s, next).forwarded == s.forwarded <==> Process(t, next).forwarded == t.forwarded)
  {
    MulticastsLog(config, arrivals);
  }

  // ----- any number of feeds, losing, repeating and reordering packets

  /** Multicast repeats that arrive after `k` distinct larger keys. */
  function LateRepeats(arrivals: seq<Arrival>, k: nat): nat {
    if arrivals == [] then 0 else
      var before, a := arrivals[..|arrivals| - 1], arrivals[|arrivals| - 1];
      if Multicast(a) && a.packet.parsed.key in Seen(before) && |Larger(Seen(before), a.packet.parsed.key)| >= k
      then LateRepeats(before, k) + 1
      else LateRepeats(before, k)
  }

  /** Retransmitted packets that parse. */
  function Bypasses(arrivals: seq<Arrival>): nat {
    if arrivals == [] then 0 else
      var before, a := arrivals[..|arrivals| - 1], arrivals[|arrivals| - 1];
      if a.retransmitted && a.packet.parsed.Keyed? then Bypasses(before) + 1 else Bypasses(before)
  }

  lemma {:induction false} ArrivalStep(config: Config, before: seq<Arrival>, a: Arrival)
    requires config.dualFeedEnabled
    ensures var out := Run(Started(config), before).forwarded;
            && Seen(before + [a]) == Seen(before) + NewKeys(a)
            && Run(Started(config), before + [a]).forwarded ==
               if !a.packet.parsed.Keyed?
                  || (!a.retransmitted && a.packet.parsed.key in Seen(before)
                      && |Larger(Seen(before), a.packet.parsed.key)| < 100 * config.feedCount) then out
               else out + [a.packet.data]
  {
    SeenSnoc(before, a);
    RunSnoc(Started(config), before, a);
    if Multicast(a) {
      DiscardedIff(config, before, a.packet);
    } else if a.packet.parsed.Keyed? {
      RetransmissionBypasses(config, before, a.packet);
    }
  }

  /** However packets are lost, repeated, reordered and retransmitted on the way, the SDK receives one
      packet per distinct multicast key, one more for every late repeat, and every retransmission. */
  lemma {:induction false} ForwardCount(config: Config, arrivals: seq<Arrival>)
    requires config.dualFeedEnabled
    ensures |Run(Started(config), arrivals).forwarded|
            == |Seen(arrivals)| + LateRepeats(arrivals, 100 * config.feedCount) + Bypasses(arrivals)
  {
    if arrivals != [] {
      var before, a := arrivals[..|arrivals| - 1], arrivals[|arrivals| - 1];
      ForwardCount(config, before);
      assert arrivals == before + [a];
      ArrivalStep(config, before, a);
      if NewKeys(a) <= Seen(before) {
        assert Seen(before) + NewKeys(a) == Seen(before);
      }
    }
  }

  /** No key is lost: some multicast packet that carried it was forwarded. */
  lemma {:induction false} NothingLost(config: Config, arrivals: seq<Arrival>, key: nat)
    requires config.dualFeedEnabled && key in Seen(arrivals)
    ensures exists a :: a in arrivals && Multicast(a) && a.packet.parsed.key == key
                        && a.packet.data in Run(Started(config), arrivals).forwarded
  {
    var before, last := arrivals[..|arrivals| - 1], arrivals[|arrivals| - 1];
    assert arrivals == before + [last];
    ArrivalStep(config, before, last);
    if key in Seen(before) {
      NothingLost(config, before, key);
      var a :| a in before && Multicast(a) && a.packet.parsed.key == key
               && a.packet.data in Run(Started(config), before).forwarded;
      assert a in arrivals;
    } else {
      assert last in arrivals;
    }
  }

  // ----- two feeds with the same packets

  /** Every packet parses and no key occurs twice. */
  predicate Distinct(packets: seq<Packet>) {
    && (forall i | 0 <= i < |packets| :: packets[i].parsed.Keyed?)
    && forall i, j | 0 <= i < j < |packets| :: packets[i].parsed.key != packets[j].parsed.key
  }

  /** In addition the keys increase strictly. */
  predicate Increasing(packets: seq<Packet>) {
    && (forall i | 0 <= i < |packets| :: packets[i].parsed.Keyed?)
    && forall i, j | 0 <= i < j < |packets| :: packets[i].parsed.key < packets[j].parsed.key
  }

  function Max(a: nat, b: nat): nat {
    if a < b then b else a
  }

  /** Both feeds carry `packets`; `schedule[i]` says that the i-th arrival comes from the primary.
      A feed that has delivered everything stays silent. */
  function Position(schedule: seq<bool>, primary: bool, total: nat): (at: nat)
    ensures at <= total
  {
    if schedule == [] then 0 else
      var n := |schedule| - 1;
      var at := Position(schedule[..n], primary, total);
      if schedule[n] == primary && at < total then at + 1 else at
  }

  function Interleaved(packets: seq<Packet>, schedule: seq<bool>): seq<Arrival> {
    if schedule == [] then [] else
      var n := |schedule| - 1;
      var before := Interleaved(packets, schedule[..n]);
      var at := Position(schedule[..n], schedule[n], |packets|);
      if at < |packets| then before + [Arrival(packets[at], false)] else before
  }

  /** How many packets the leading feed has delivered. */
  function Front(schedule: seq<bool>, total: nat): nat {
    Max(Position(schedule, true, total), Position(schedule, false, total))
  }

  /** Deliveries of a packet that trails the other feed by more than `k`. */
  function LateDeliveries(schedule: seq<bool>, total: nat, k: nat): nat {
    if schedule == [] then 0 else
      var n := |schedule| - 1;
      var at := Position(schedule[..n], schedule[n], total);
      var late := LateDeliveries(schedule[..n], total, k);
      if at < total && Front(schedule[..n], total) > at + k then late + 1 else late
  }

  /** The distinct keys of a list. */
  function Members(ks: seq<nat>): set<nat> {
    set k | k in ks
  }

  function Keys(packets: seq<Packet>): (ks: seq<nat>)
    requires Distinct(packets)
    ensures |ks| == |packets|
    ensures Increasing(packets) ==> Ascending(ks)
    ensures forall i | 0 <= i < |ks| :: ks[i] == packets[i].parsed.key
  {
    seq(|packets|, i requires 0 <= i < |packets| => packets[i].parsed.key)
  }

  function Bodies(packets: seq<Packet>): (out: seq<seq<Byte>>)
    ensures |out| == |packets|
  {
    seq(|packets|, i requires 0 <= i < |packets| => packets[i].data)
  }

  predicate Ascending(ks: seq<nat>) {
    forall i, j | 0 <= i < j < |ks| :: ks[i] < ks[j]
  }

  lemma {:induction false} MembersSnoc(ks: seq<nat>, n: nat)
    requires n < |ks|
    ensures Members(ks[..n + 1]) == Members(ks[..n]) + {ks[n]}
  {
    assert ks[..n + 1] == ks[..n] + [ks[n]];
  }

  lemma {:induction false} LargerSnoc(s: set<nat>, y: nat, x: nat)
    requires forall z | z in s :: z < y
    ensures x < y ==> |Larger(s + {y}, x)| == |Larger(s, x)| + 1
    ensures Larger(s + {y}, y) == {}
  {
    if x < y {
      assert Larger(s + {y}, x) == Larger(s, x) + {y};
    }
  }

  lemma {:induction false} Below(ks: seq<nat>, n: nat, k: nat)
    requires Ascending(ks) && n < |ks| && k in Members(ks[..n])
    ensures k < ks[n]
  {
    var j :| 0 <= j < n && ks[..n][j] == k;
  }

  lemma {:induction false} OneOfFirst(ks: seq<nat>, at: nat, m: nat)
    requires m <= |ks| && at < |ks|
    ensures at < m ==> ks[at] in Members(ks[..m])
    ensures m <= at && (forall j | 0 <= j < m :: ks[j] != ks[at]) ==> ks[at] !in Members(ks[..m])
  {
    if at < m {
      assert ks[..m][at] == ks[at];
    }
  }

  /** In the first `m` of an ascending list exactly `m - 1 - i` members exceed the i-th. */
  lemma {:induction false} LargerCount(ks: seq<nat>, i: nat, m: nat)
    requires Ascending(ks) && i < m <= |ks|
    ensures |Larger(Members(ks[..m]), ks[i])| == m - 1 - i
    decreases m
  {
    TopOfFirst(ks, m - 1, ks[i]);
    if i < m - 1 {
      LargerCount(ks, i, m - 1);
    }
  }

  lemma {:induction false} TopOfFirst(ks: seq<nat>, n: nat, x: nat)
    requires Ascending(ks) && n < |ks|
    ensures var s, t := Members(ks[..n]), Members(ks[..n + 1]);
            && (x < ks[n] ==> |Larger(t, x)| == |Larger(s, x)| + 1)
            && |Larger(t, ks[n])| == 0
  {
    var s := Members(ks[..n]);
    MembersSnoc(ks, n);
    forall k | k in s
      ensures k < ks[n]
    {
      Below(ks, n, k);
    }
    LargerSnoc(s, ks[n], x);
  }

  /** The keys seen are those of the leading feed. */
  lemma {:induction false} SeenIsFront(packets: seq<Packet>, schedule: seq<bool>)
    requires Distinct(packets)
    ensures Seen(Interleaved(packets, schedule)) == Members(Keys(packets)[..Front(schedule, |packets|)])
  {
    if schedule != [] {
      var n := |schedule| - 1;
      SeenIsFront(packets, schedule[..n]);
      var at := Position(schedule[..n], schedule[n], |packets|);
      var front := Front(schedule[..n], |packets|);
      if at < |packets| {
        SeenSnoc(Interleaved(packets, schedule[..n]), Arrival(packets[at], false));
        if at == front {
          MembersSnoc(Keys(packets), at);
        } else {
          OneOfFirst(Keys(packets), at, front);
        }
      }
    }
  }

  /** The packet at `at` repeats one that the leading feed brought `k` larger keys ago. */
  predicate IsLate(packets: seq<Packet>, schedule: seq<bool>, at: nat, k: nat)
    requires Distinct(packets)
  {
    && at < |packets|
    && at < Front(schedule, |packets|)
    && |Larger(Seen(Interleaved(packets, schedule)), packets[at].parsed.key)| >= k
  }

  /** One more arrival: the leading feed's packet is new; the trailing feed's packet is dropped
      unless it is late, and forwarded a second time otherwise. */
  lemma {:induction false} MergeStep(config: Config, packets: seq<Packet>, schedule: seq<bool>, at: nat)
    requires config.dualFeedEnabled && Distinct(packets) && at < |packets|
    requires at <= Front(schedule, |packets|)
    ensures packets[at].parsed.key in Seen(Interleaved(packets, schedule)) <==> at < Front(schedule, |packets|)
    ensures var before := Run(Started(config), Interleaved(packets, schedule));
            Process(before, Arrival(packets[at], false)).forwarded ==
            if at == Front(schedule, |packets|) || IsLate(packets, schedule, at, 100 * config.feedCount)
            then before.forwarded + [packets[at].data]
            else before.forwarded
  {
    SeenIsFront(packets, schedule);
    OneOfFirst(Keys(packets), at, Front(schedule, |packets|));
    DiscardedIff(config, Interleaved(packets, schedule), packets[at]);
  }

  lemma {:induction false} FrontSnoc(schedule: seq<bool>, total: nat)
    requires schedule != []
    ensures var before := schedule[..|schedule| - 1];
            var at := Position(before, schedule[|schedule| - 1], total);
            && at <= Front(before, total) <= total
            && Front(schedule, total) ==
               Front(before, total) + if at < total && at == Front(before, total) then 1 else 0
  {
  }

  /** What the SDK receives. */
  function Merged(config: Config, packets: seq<Packet>, schedule: seq<bool>): seq<seq<Byte>> {
    Run(Started(config), Interleaved(packets, schedule)).forwarded
  }

  lemma {:induction false} InterleavedSnoc(packets: seq<Packet>, schedule: seq<bool>)
    requires schedule != []
    ensures var before := schedule[..|schedule| - 1];
            var at := Position(before, schedule[|schedule| - 1], |packets|);
            && at <= Front(before, |packets|)
            && Interleaved(packets, schedule) ==
               if at < |packets| then Interleaved(packets, before) + [Arrival(packets[at], false)]
               else Interleaved(packets, before)
  {
  }

  /** Output and late count, one arrival later. */
  lemma {:induction false} MergedSnoc(config: Config, packets: seq<Packet>, before: seq<bool>,
                                      schedule: seq<bool>, at: nat)
    requires config.dualFeedEnabled && Distinct(packets) && schedule != []
    requires before == schedule[..|schedule| - 1]
    requires at == Position(before, schedule[|schedule| - 1], |packets|)
    ensures var late := IsLate(packets, before, at, 100 * config.feedCount);
            && Merged(config, packets, schedule) ==
               (if at < |packets| && (at == Front(before, |packets|) || late)
                then Merged(config, packets, before) + [packets[at].data]
                else Merged(config, packets, before))
            && LateRepeats(Interleaved(packets, schedule), 100 * config.feedCount) ==
               LateRepeats(Interleaved(packets, before), 100 * config.feedCount) + if late then 1 else 0
  {
    InterleavedSnoc(packets, schedule);
    if at < |packets| {
      var arrivals, a := Interleaved(packets, before), Arrival(packets[at], false);
      RunSnoc(Started(config), arrivals, a);
      MergeStep(config, packets, before, at);
      assert (arrivals + [a])[..|arrivals|] == arrivals;
    }
  }

  /** `out` holds the first `front` bodies and `repeats` more; without repeats it is just those. */
  predicate Counted<T(==)>(bodies: seq<T>, out: seq<T>, front: nat, repeats: nat) {
    front <= |bodies| && |out| == front + repeats && (repeats == 0 ==> out == bodies[..front])
  }

  lemma {:induction false} CountStep<T>(bodies: seq<T>, out: seq<T>, front: nat, repeats: nat, at: nat, late: bool)
    requires Counted(bodies, out, front, repeats) && at <= front && (late ==> at < front)
    ensures Counted(bodies, if at < |bodies| && (at == front || late) then out + [bodies[at]] else out,
                    front + if at < |bodies| && at == front then 1 else 0,
                    repeats + if late then 1 else 0)
  {
    if at < |bodies| && at == front {
      assert bodies[..at + 1] == bodies[..at] + [bodies[at]];
    }
  }

  lemma {:induction false} MergeCounts(config: Config, packets: seq<Packet>, schedule: seq<bool>)
    requires config.dualFeedEnabled && Distinct(packets)
    ensures Counted(Bodies(packets), Merged(config, packets, schedule), Front(schedule, |packets|),
                    LateRepeats(Interleaved(packets, schedule), 100 * config.feedCount))
  {
    if schedule != [] {
      var before := schedule[..|schedule| - 1];
      var at := Position(before, schedule[|schedule| - 1], |packets|);
      MergeCounts(config, packets, before);
      FrontSnoc(schedule, |packets|);
      MergedSnoc(config, packets, before, schedule, at);
      var bodies, out, front := Bodies(packets), Merged(config, packets, before), Front(before, |packets|);
      var repeats := LateRepeats(Interleaved(packets, before), 100 * config.feedCount);
      CountStep(bodies, out, front, repeats, at, IsLate(packets, before, at, 100 * config.feedCount));
      assert at < |packets| ==> bodies[at] == packets[at].data;
    }
  }

  /** Two feeds with the same packets of any channels, no key twice: the SDK receives that sequence
      exactly once and in order if and only if no packet is repeated after `100 * feeds` larger keys. */
  lemma {:induction false} AnyChannelsMergeIff(config: Config, packets: seq<Packet>, schedule: seq<bool>)
    requires config.dualFeedEnabled && Distinct(packets)
    ensures Front(schedule, |packets|) <= |packets|
    ensures Merged(config, packets, schedule) == Bodies(packets)[..Front(schedule, |packets|)]
            <==> LateRepeats(Interleaved(packets, schedule), 100 * config.feedCount) == 0
  {
    MergeCounts(config, packets, schedule);
  }

  /** When keys increase, `k` larger keys are `k` packets. */
  lemma {:induction false} IsLateIff(packets: seq<Packet>, schedule: seq<bool>, at: nat, k: nat)
    requires Increasing(packets) && at <= Front(schedule, |packets|)
    ensures IsLate(packets, schedule, at, k) <==> at < |packets| && Front(schedule, |packets|) > at + k
  {
    SeenIsFront(packets, schedule);
    if at < |packets| && at < Front(schedule, |packets|) {
      LargerCount(Keys(packets), at, Front(schedule, |packets|));
    }
  }

  lemma {:induction false} LateByPosition(config: Config, packets: seq<Packet>, schedule: seq<bool>)
    requires config.dualFeedEnabled && Increasing(packets)
    ensures LateRepeats(Interleaved(packets, schedule), 100 * config.feedCount)
            == LateDeliveries(schedule, |packets|, 100 * config.feedCount)
  {
    if schedule != [] {
      var before := schedule[..|schedule| - 1];
      var at := Position(before, schedule[|schedule| - 1], |packets|);
      LateByPosition(config, packets, before);
      MergedSnoc(config, packets, before, schedule, at);
      FrontSnoc(schedule, |packets|);
      IsLateIff(packets, before, at, 100 * config.feedCount);
    }
  }

  /** Two feeds with the same increasing packets: the SDK receives that sequence exactly once and in
      order if and only if no packet arrives on one feed after the other feed has already delivered
      more than `100 * feeds` packets from it on. */
  lemma {:induction false} DualFeedMergeIff(config: Config, packets: seq<Packet>, schedule: seq<bool>)
    requires config.dualFeedEnabled && Increasing(packets)
    ensures Front(schedule, |packets|) <= |packets|
    ensures Merged(config, packets, schedule) == Bodies(packets)[..Front(schedule, |packets|)]
            <==> LateDeliveries(schedule, |packets|, 100 * config.feedCount) == 0
  {
    AnyChannelsMergeIff(config, packets, schedule);
    LateByPosition(config, packets, schedule);
  }

  /** In particular it does so whenever neither feed is ever more than `100 * feeds` ahead. */
  lemma {:induction false} BoundedLagIsEnough(schedule: seq<bool>, total: nat, k: nat)
    requires forall i | 0 <= i <= |schedule| ::
               Position(schedule[..i], true, total) <= Position(schedule[..i], false, total) + k
               && Position(schedule[..i], false, total) <= Position(schedule[..i], true, total) + k
    ensures LateDeliveries(schedule, total, k) == 0
  {
    if schedule != [] {
      var n := |schedule| - 1;
      forall i | 0 <= i <= n
        ensures schedule[..n][..i] == schedule[..i]
      {
      }
      BoundedLagIsEnough(schedule[..n], total, k);
    }
  }

  // ----- how long a packet is remembered

  /** One feed that delivers every packet once. */
  function InOrder(packets: seq<Packet>): (arrivals: seq<Arrival>)
    ensures |arrivals| == |packets|
    ensures forall i | 0 <= i < |packets| :: arrivals[i] == Arrival(packets[i], false)
  {
    seq(|packets|, i requires 0 <= i < |packets| => Arrival(packets[i], false))
  }

  lemma {:induction false} SeenInOrder(packets: seq<Packet>)
    requires Increasing(packets)
    ensures Seen(InOrder(packets)) == Members(Keys(packets))
  {
    var ks, arrivals := Keys(packets), InOrder(packets);
    forall k | k in Members(ks)
      ensures k in Seen(arrivals)
    {
      var i :| 0 <= i < |ks| && ks[i] == k;
      assert arrivals[i] in arrivals && Multicast(arrivals[i]);
    }
    forall k | k in Seen(arrivals)
      ensures k in Members(ks)
    {
      var a :| a in arrivals && Multicast(a) && a.packet.parsed.key == k;
      var i :| 0 <= i < |arrivals| && arrivals[i] == a;
      assert ks[i] == k;
    }
  }

  /** How long a packet is remembered: after increasing packets in order, a repeat is forwarded again
      exactly when at least `100 * feeds` newer packets have come since. */
  lemma {:induction false} RepeatForwardedIff(config: Config, packets: seq<Packet>, i: nat)
    requires config.dualFeedEnabled && Increasing(packets) && i < |packets|
    ensures var before := Run(Started(config), InOrder(packets));
            var after := Process(before, Arrival(packets[i], false));
            if |packets| - 1 - i >= 100 * config.feedCount then after.forwarded == before.forwarded + [packets[i].data]
            else after == before
  {
    var ks := Keys(packets);
    SeenInOrder(packets);
    LargerCount(ks, i, |ks|);
    OneOfFirst(ks, i, |ks|);
    assert ks[..|ks|] == ks;
    DiscardedIff(config, InOrder(packets), packets[i]);
  }

  /** So after a hundred newer packets it has aged out exactly when there is at most one feed. */
  lemma {:induction false} HundredIsEnoughIff(config: Config, packets: seq<Packet>)
    requires config.dualFeedEnabled && Increasing(packets) && |packets| == 101
    ensures var before := Run(Started(config), InOrder(packets));
            Process(before, Arrival(packets[0], false)).forwarded == before.forwarded + [packets[0].data]
            <==> config.feedCount <= 1
  {
    RepeatForwardedIff(config, packets, 0);
  }

  // ----- channels that push each other out

  function ChannelOf(key: nat): nat {
    key / 0x1_0000_0000
  }

  /** Newer keys of the same channel. */
  function OwnNewer(seen: set<nat>, key: nat): set<nat> {
    set y | y in seen && y > key && ChannelOf(y) == ChannelOf(key)
  }

  function HigherChannels(seen: set<nat>, key: nat): set<nat> {
    set y | y in seen && ChannelOf(y) > ChannelOf(key)
  }

  lemma {:induction false} ChannelOrder(x: nat, y: nat)
    ensures y > x ==> ChannelOf(y) >= ChannelOf(x)
    ensures ChannelOf(y) > ChannelOf(x) ==> y > x
  {
  }

  lemma {:induction false} LargerByChannel(seen: set<nat>, key: nat)
    ensures |Larger(seen, key)| == |OwnNewer(seen, key)| + |HigherChannels(seen, key)|
  {
    forall y
      ensures y in Larger(seen, key) <==> y in OwnNewer(seen, key) + HigherChannels(seen, key)
    {
      if y in seen {
        ChannelOrder(key, y);
      }
    }
    assert Larger(seen, key) == OwnNewer(seen, key) + HigherChannels(seen, key);
  }

  /** The log is said to keep the last 100 numbers per channel. What counts instead is the newer keys
      of the channel and all keys of higher channels together: a repeat is dropped exactly when these
      are fewer than `100 * feeds`. */
  lemma {:induction false} ChannelWindowIff(config: Config, arrivals: seq<Arrival>, packet: Packet)
    requires config.dualFeedEnabled && packet.parsed.Keyed? && packet.parsed.key in Seen(arrivals)
    ensures var before, key := Run(Started(config), arrivals), packet.parsed.key;
            Process(before, Arrival(packet, false)) == before
            <==> |OwnNewer(Seen(arrivals), key)| + |HigherChannels(Seen(arrivals), key)| < 100 * config.feedCount
  {
    DiscardedIff(config, arrivals, packet);
    LargerByChannel(Seen(arrivals), packet.parsed.key);
  }

  lemma {:induction false} SeenGrows(arrivals: seq<Arrival>, more: seq<Arrival>)
    ensures Seen(arrivals) <= Seen(arrivals + more)
  {
    forall x | x in Seen(arrivals)
      ensures x in Seen(arrivals + more)
    {
      var a :| a in arrivals && Multicast(a) && a.packet.parsed.key == x;
      assert a in arrivals + more;
    }
  }

  /** Once higher channels have brought `100 * feeds` keys, a packet of a lower channel is never
      dropped again, however often it is repeated and whatever else arrives. */
  lemma {:induction false} LowChannelNeverDeduplicated(config: Config, arrivals: seq<Arrival>, more: seq<Arrival>,
                                                       packet: Packet)
    requires config.dualFeedEnabled && packet.parsed.Keyed?
    requires |HigherChannels(Seen(arrivals), packet.parsed.key)| >= 100 * config.feedCount
    ensures var before := Run(Started(config), arrivals + more);
            Process(before, Arrival(packet, false)).forwarded == before.forwarded + [packet.data]
  {
    var key := packet.parsed.key;
    SeenGrows(arrivals, more);
    SubsetSize(HigherChannels(Seen(arrivals), key), HigherChannels(Seen(arrivals + more), key));
    LargerByChannel(Seen(arrivals + more), key);
    DiscardedIff(config, arrivals + more, packet);
  }

  /** A header with the given channel and number, and nothing after it. */
  function HeaderFor(channel: nat, number: nat): seq<Byte> {
    H.HeaderBytes(H.Header(0x1B, 0, 0, [0, 0, 0, 0, 0, 0], EncodeNumber(channel, 2), EncodeNumber(number, 5),
                           0, [0, 0]))
  }

  lemma {:induction false} HeaderKey(channel: nat, number: nat)
    requires channel < 10_000 && number < 10_000_000_000
    ensures Received(HeaderFor(channel, number)).parsed == Keyed(Key(channel, number))
  {
    var h := H.Header(0x1B, 0, 0, [0, 0, 0, 0, 0, 0], EncodeNumber(channel, 2), EncodeNumber(number, 5), 0, [0, 0]);
    assert Pow10(4) == 10_000 && Pow10(10) == 10_000_000_000;
    EncodedValue(channel, 2);
    EncodedValue(number, 5);
    H.HeaderRoundTrip(h, []);
    assert H.HeaderBytes(h) + [] == HeaderFor(channel, number);
  }

  /** Packet 0 of channel 1, then packets 1 to `n` of channel 2. */
  function QuietThenBusy(n: nat): (packets: seq<Packet>)
    ensures |packets| == n + 1
    ensures forall i | 0 <= i <= n :: packets[i] == Received(if i == 0 then HeaderFor(1, 0) else HeaderFor(2, i))
  {
    seq(n + 1, (i: nat) => Received(if i == 0 then HeaderFor(1, 0) else HeaderFor(2, i)))
  }

  lemma {:induction false} SmallKey(c: nat, s: nat)
    requires s < 0x1_0000_0000
    ensures Key(c, s) == c * 0x1_0000_0000 + s && ChannelOf(Key(c, s)) == c
  {
    OrZero(c);
  }

  lemma {:induction false} QuietThenBusyKey(n: nat, i: nat)
    requires i <= n < 0x1_0000_0000
    ensures QuietThenBusy(n)[i].parsed == Keyed(if i == 0 then 0x1_0000_0000 else 0x2_0000_0000 + i)
    ensures ChannelOf(0x1_0000_0000) == 1 && ChannelOf(0x2_0000_0000 + i) == 2
  {
    HeaderKey(1, 0);
    HeaderKey(2, i);
    SmallKey(1, 0);
    SmallKey(2, i);
  }

  lemma {:induction false} QuietThenBusyKeys(n: nat, packets: seq<Packet>)
    requires n < 0x1_0000_0000 && packets == QuietThenBusy(n)
    ensures Increasing(packets)
    ensures OwnNewer(Members(Keys(packets)), packets[0].parsed.key) == {}
  {
    forall i | 0 <= i <= n
      ensures packets[i].parsed == Keyed(if i == 0 then 0x1_0000_0000 else 0x2_0000_0000 + i)
      ensures ChannelOf(0x1_0000_0000) == 1 && ChannelOf(0x2_0000_0000 + i) == 2
    {
      QuietThenBusyKey(n, i);
    }
  }

  /** So a channel's only packet can be forgotten with nothing newer on the channel: after
      `100 * feeds` packets of a higher channel its repeat is forwarded. */
  lemma {:induction false} QuietChannelForgotten(config: Config)
    requires config.dualFeedEnabled && 100 * config.feedCount < 0x1_0000_0000
    ensures var packets := QuietThenBusy(100 * config.feedCount);
            var before := Run(Started(config), InOrder(packets));
            && packets[0].parsed == Keyed(0x1_0000_0000)
            && OwnNewer(Seen(InOrder(packets)), 0x1_0000_0000) == {}
            && Process(before, Arrival(packets[0], false)).forwarded == before.forwarded + [packets[0].data]
  {
    var packets := QuietThenBusy(100 * config.feedCount);
    QuietThenBusyKey(100 * config.feedCount, 0);
    QuietThenBusyKeys(100 * config.feedCount, packets);
    SeenInOrder(packets);
    RepeatForwardedIff(config, packets, 0);
  }
}

/** What the gap reports of the SDK mean, and which frames reach sequence tracking at all. */
module SequenceTracking {
  import opened Bytes
  import opened Checksum
  import opened PackBcd
  import H = CommonHeader
  import opened MessageBodies
  import opened TaifexSdk
  import opened SdkRuns

  // ----- one channel between two resets

  function Numbers(channel: nat, events: seq<Event>): seq<nat> {
    if events == [] then [] else
      var before, e := Numbers(channel, events[..|events| - 1]), events[|events| - 1];
      if e.Header? && e.channel == channel then before + [e.number] else before
  }

  function GapsOf(channel: nat, reports: seq<Gap>): seq<Gap> {
    if reports == [] then [] else
      var before, g := GapsOf(channel, reports[..|reports| - 1]), reports[|reports| - 1];
      if g.channel == channel then before + [g] else before
  }

  function High(base: nat, ns: seq<nat>): nat {
    if ns == [] then base else
      var before := High(base, ns[..|ns| - 1]);
      if ns[|ns| - 1] > before then ns[|ns| - 1] else before
  }

  function Gaps(channel: nat, base: nat, ns: seq<nat>): seq<Gap> {
    if ns == [] then [] else
      var high, n := High(base, ns[..|ns| - 1]), ns[|ns| - 1];
      var before := Gaps(channel, base, ns[..|ns| - 1]);
      if n > high + 1 then before + [Gap(channel, high + 1, n - 1)] else before
  }

  lemma {:induction false} TrackSnoc(channel: nat, base: nat, ns: seq<nat>, n: nat)
    ensures High(base, ns + [n]) == if n > High(base, ns) then n else High(base, ns)
    ensures Gaps(channel, base, ns + [n]) ==
            if n > High(base, ns) + 1 then Gaps(channel, base, ns) + [Gap(channel, High(base, ns) + 1, n - 1)]
            else Gaps(channel, base, ns)
  {
    assert (ns + [n])[..|ns|] == ns;
  }

  predicate NoReset(channel: nat, events: seq<Event>) {
    forall i | 0 <= i < |events| :: events[i] != SequenceReset(channel)
  }

  lemma {:induction false} GapsOfSnoc(channel: nat, reports: seq<Gap>, g: Gap)
    ensures GapsOf(channel, reports + [g]) ==
            if g.channel == channel then GapsOf(channel, reports) + [g] else GapsOf(channel, reports)
  {
    assert (reports + [g])[..|reports|] == reports;
  }

  lemma {:induction false} TrackOnChannel(s: Sdk, other: nat, number: nat, channel: nat)
    requires channel in s.channels
    ensures var t := Track(s, other, number);
            && channel in t.channels
            && t.channels[channel]
               == (if other == channel && number > s.channels[channel] then number else s.channels[channel])
            && GapsOf(channel, t.reports) ==
               if other == channel && number > s.channels[channel] + 1
               then GapsOf(channel, s.reports) + [Gap(channel, s.channels[channel] + 1, number - 1)]
               else GapsOf(channel, s.reports)
  {
    if other in s.channels && number > s.channels[other] + 1 {
      GapsOfSnoc(channel, s.reports, Gap(other, s.channels[other] + 1, number - 1));
    }
  }

  /** Nothing but a header or a reset of the same channel touches what is tracked for it. */
  lemma {:induction false} OtherSteps(s: Sdk, e: Event, channel: nat)
    requires !e.Header? && e != SequenceReset(channel)
    ensures var t := Next(s, e);
            && t.reports == s.reports
            && (channel in s.channels ==> channel in t.channels && t.channels[channel] == s.channels[channel])
  {
  }

  /** From `s` to `t` the channel has seen `ns`. */
  predicate Tracked(s: Sdk, t: Sdk, channel: nat, ns: seq<nat>) {
    && channel in s.channels
    && channel in t.channels
    && t.channels[channel] == High(s.channels[channel], ns)
    && GapsOf(channel, t.reports) == GapsOf(channel, s.reports) + Gaps(channel, s.channels[channel], ns)
  }

  lemma {:induction false} ValuesTracked(channel: nat, base: nat, ns: seq<nat>, n: nat, earlier: seq<Gap>,
                                         high: nat, all: seq<Gap>, high': nat, all': seq<Gap>)
    requires high == High(base, ns) && all == earlier + Gaps(channel, base, ns)
    requires high' == if n > high then n else high
    requires all' == if n > high + 1 then all + [Gap(channel, high + 1, n - 1)] else all
    ensures high' == High(base, ns + [n]) && all' == earlier + Gaps(channel, base, ns + [n])
  {
    TrackSnoc(channel, base, ns, n);
    if n > high + 1 {
      ConcatSlices(earlier, Gaps(channel, base, ns), [Gap(channel, high + 1, n - 1)], 0);
    }
  }

  lemma {:induction false} HeaderTracked(s: Sdk, t: Sdk, channel: nat, ns: seq<nat>, other: nat, n: nat)
    requires Tracked(s, t, channel, ns)
    ensures Tracked(s, Track(t, other, n), channel, if other == channel then ns + [n] else ns)
  {
    TrackOnChannel(t, other, n, channel);
    if other == channel {
      var u := Track(t, other, n);
      ValuesTracked(channel, s.channels[channel], ns, n, GapsOf(channel, s.reports), t.channels[channel],
                    GapsOf(channel, t.reports), u.channels[channel], GapsOf(channel, u.reports));
    }
  }

  lemma {:induction false} StepTracked(s: Sdk, t: Sdk, channel: nat, ns: seq<nat>, e: Event)
    requires Tracked(s, t, channel, ns) && e != SequenceReset(channel)
    ensures Tracked(s, Next(t, e), channel,
                    if e.Header? && e.channel == channel then ns + [e.number] else ns)
  {
    if e.Header? {
      HeaderTracked(s, t, channel, ns, e.channel, e.number);
    } else {
      OtherSteps(t, e, channel);
    }
  }

  lemma {:induction false} ChannelRun(s: Sdk, events: seq<Event>, channel: nat)
    requires channel in s.channels && NoReset(channel, events)
    ensures Tracked(s, Run(s, events), channel, Numbers(channel, events))
  {
    if events == [] {
      assert GapsOf(channel, s.reports) + [] == GapsOf(channel, s.reports);
    } else {
      var n := |events| - 1;
      ChannelRun(s, events[..n], channel);
      StepTracked(s, Run(s, events[..n]), channel, Numbers(channel, events[..n]), events[n]);
    }
  }

  // ----- the partition

  /** A number that exceeded everything before it on the channel. */
  predicate Advances(base: nat, ns: seq<nat>, n: nat) {
    exists i | 0 <= i < |ns| :: ns[i] == n && n > base && forall j | 0 <= j < i :: ns[j] < n
  }

  predicate InGap(gaps: seq<Gap>, n: nat) {
    exists i | 0 <= i < |gaps| :: gaps[i].first <= n <= gaps[i].last
  }

  /** Gaps are non-empty, lie strictly between the base and the high mark, and do not overlap. */
  predicate Ordered(gaps: seq<Gap>, base: nat, high: nat) {
    && (forall i | 0 <= i < |gaps| :: base < gaps[i].first <= gaps[i].last < high)
    && forall i, j | 0 <= i < j < |gaps| :: gaps[i].last < gaps[j].first
  }

  lemma {:induction false} HighIsMaximum(base: nat, ns: seq<nat>)
    ensures High(base, ns) >= base
    ensures forall i | 0 <= i < |ns| :: ns[i] <= High(base, ns)
    ensures High(base, ns) == base || High(base, ns) in ns
  {
    if ns != [] {
      HighIsMaximum(base, ns[..|ns| - 1]);
    }
  }

  lemma {:induction false} AdvancesAgain(base: nat, ns: seq<nat>, last: nat, n: nat)
    requires Advances(base, ns, n)
    ensures Advances(base, ns + [last], n)
  {
    var all := ns + [last];
    var i :| 0 <= i < |ns| && ns[i] == n && n > base && forall j | 0 <= j < i :: ns[j] < n;
    assert all[i] == n && forall j | 0 <= j < i :: all[j] == ns[j];
  }

  lemma {:induction false} AdvancesLast(base: nat, ns: seq<nat>, last: nat)
    requires last > High(base, ns)
    ensures Advances(base, ns + [last], last)
  {
    var all := ns + [last];
    HighIsMaximum(base, ns);
    assert all[|ns|] == last && forall j | 0 <= j < |ns| :: all[j] == ns[j];
  }

  lemma {:induction false} AdvancesSnoc(base: nat, ns: seq<nat>, last: nat, n: nat)
    ensures Advances(base, ns + [last], n) <==>
            Advances(base, ns, n) || (n == last && last > High(base, ns))
  {
    var all := ns + [last];
    if Advances(base, ns, n) {
      AdvancesAgain(base, ns, last, n);
    } else if n == last && last > High(base, ns) {
      AdvancesLast(base, ns, last);
    } else if Advances(base, all, n) {
      var i :| 0 <= i < |all| && all[i] == n && n > base && forall j | 0 <= j < i :: all[j] < n;
      assert forall j | 0 <= j < |ns| :: ns[j] == all[j];
      HighIsMaximum(base, ns);
    }
  }

  lemma {:induction false} InGapSnoc(gaps: seq<Gap>, g: Gap, n: nat)
    ensures InGap(gaps + [g], n) <==> InGap(gaps, n) || g.first <= n <= g.last
  {
    var all := gaps + [g];
    if InGap(all, n) {
      var i :| 0 <= i < |all| && all[i].first <= n <= all[i].last;
      if i < |gaps| {
        assert gaps[i] == all[i];
      }
    }
    if InGap(gaps, n) {
      var i :| 0 <= i < |gaps| && gaps[i].first <= n <= gaps[i].last;
      assert all[i] == gaps[i];
    }
    if g.first <= n <= g.last {
      assert all[|gaps|] == g;
    }
  }

  lemma {:induction false} GapsOrdered(channel: nat, base: nat, ns: seq<nat>)
    ensures Ordered(Gaps(channel, base, ns), base, High(base, ns))
  {
    HighIsMaximum(base, ns);
    if ns != [] {
      HighIsMaximum(base, ns[..|ns| - 1]);
      GapsOrdered(channel, base, ns[..|ns| - 1]);
    }
  }

  lemma {:induction false} Partition(channel: nat, base: nat, ns: seq<nat>, n: nat)
    ensures base < n <= High(base, ns) <==> Advances(base, ns, n) || InGap(Gaps(channel, base, ns), n)
    ensures !(Advances(base, ns, n) && InGap(Gaps(channel, base, ns), n))
  {
    if ns != [] {
      var m := |ns| - 1;
      var before, last := ns[..m], ns[m];
      Partition(channel, base, before, n);
      HighIsMaximum(base, before);
      assert ns == before + [last];
      AdvancesSnoc(base, before, last, n);
      TrackSnoc(channel, base, before, last);
      var high := High(base, before);
      if last > high + 1 {
        InGapSnoc(Gaps(channel, base, before), Gap(channel, high + 1, last - 1), n);
      }
    }
  }

  /** A channel that started at `base`, has seen `ns` and reported `gaps` stands at the maximum; every
      number above the base and up to it either advanced the channel or lies in a reported gap, never
      both; and gaps are disjoint, so the one it lies in is unique. */
  ghost predicate Partitioned(base: nat, high: nat, ns: seq<nat>, gaps: seq<Gap>) {
    && high >= base && (forall i | 0 <= i < |ns| :: ns[i] <= high) && (high == base || high in ns)
    && Ordered(gaps, base, high)
    && forall n: nat :: && (base < n <= high <==> Advances(base, ns, n) || InGap(gaps, n))
                        && !(Advances(base, ns, n) && InGap(gaps, n))
  }

  lemma {:induction false} GapsPartition(channel: nat, base: nat, ns: seq<nat>)
    ensures Partitioned(base, High(base, ns), ns, Gaps(channel, base, ns))
  {
    var gaps := Gaps(channel, base, ns);
    HighIsMaximum(base, ns);
    GapsOrdered(channel, base, ns);
    forall n: nat
      ensures base < n <= High(base, ns) <==> Advances(base, ns, n) || InGap(gaps, n)
      ensures !(Advances(base, ns, n) && InGap(gaps, n))
    {
      Partition(channel, base, ns, n);
    }
  }

  /** Between two resets of a channel, from any state that tracks it: earlier reports stay, and the
      new ones partition the numbers seen since. */
  lemma {:induction false} GapPartition(s: Sdk, events: seq<Event>, channel: nat)
    requires channel in s.channels && NoReset(channel, events)
    ensures var t := Run(s, events);
            var earlier, all := GapsOf(channel, s.reports), GapsOf(channel, t.reports);
            && channel in t.channels
            && earlier <= all
            && Partitioned(s.channels[channel], t.channels[channel], Numbers(channel, events), all[|earlier|..])
  {
    var base, ns := s.channels[channel], Numbers(channel, events);
    ChannelRun(s, events, channel);
    var earlier, all := GapsOf(channel, s.reports), GapsOf(channel, Run(s, events).reports);
    assert all[|earlier|..] == Gaps(channel, base, ns);
    GapsPartition(channel, base, ns);
  }

  // ----- whole runs

  /** The i-th event starts the channel's current epoch: it is the channel's last reset or, if there
      is none, its first message. */
  predicate StartsEpoch(channel: nat, events: seq<Event>, i: nat) {
    && i < |events|
    && NoReset(channel, events[i + 1..])
    && (events[i] == SequenceReset(channel)
        || (events[i].Header? && events[i].channel == channel
            && NoReset(channel, events[..i]) && Numbers(channel, events[..i]) == []))
  }

  function BaseOf(e: Event): nat {
    if e.Header? then e.number else 0
  }

  /** Only messages and resets of a channel make it tracked. */
  lemma {:induction false} UntrackedIff(events: seq<Event>, channel: nat)
    ensures channel !in Run(INITIAL_SDK, events).channels
            <==> NoReset(channel, events) && Numbers(channel, events) == []
    ensures channel !in Run(INITIAL_SDK, events).channels ==> GapsOf(channel, Run(INITIAL_SDK, events).reports) == []
  {
    if events != [] {
      var n := |events| - 1;
      var s, e := Run(INITIAL_SDK, events[..n]), events[n];
      UntrackedIff(events[..n], channel);
      assert NoReset(channel, events) <==> NoReset(channel, events[..n]) && e != SequenceReset(channel) by {
        assert events == events[..n] + [e];
      }
      UntrackedStep(s, e, channel);
    }
  }

  lemma {:induction false} UntrackedStep(s: Sdk, e: Event, channel: nat)
    ensures channel in Next(s, e).channels
            <==> channel in s.channels || e == SequenceReset(channel) || (e.Header? && e.channel == channel)
    ensures channel !in Next(s, e).channels ==> GapsOf(channel, Next(s, e).reports) == GapsOf(channel, s.reports)
  {
    if e.Header? && e.channel in s.channels && e.number > s.channels[e.channel] + 1 {
      GapsOfSnoc(channel, s.reports, Gap(e.channel, s.channels[e.channel] + 1, e.number - 1));
    }
  }

  /** The channels tracked after a run are exactly those with an epoch. */
  lemma {:induction false} TrackedIff(events: seq<Event>, channel: nat)
    ensures channel in Run(INITIAL_SDK, events).channels <==> exists i :: StartsEpoch(channel, events, i)
  {
    if i :| StartsEpoch(channel, events, i) {
      EpochIsTracked(events, channel, i);
    }
    if channel in Run(INITIAL_SDK, events).channels {
      var i := CurrentEpoch(events, channel);
    }
  }

  lemma {:induction false} CurrentEpoch(events: seq<Event>, channel: nat) returns (i: nat)
    requires channel in Run(INITIAL_SDK, events).channels
    ensures StartsEpoch(channel, events, i)
  {
    var n := |events| - 1;
    var before := events[..n];
    UntrackedStep(Run(INITIAL_SDK, before), events[n], channel);
    if events[n] != SequenceReset(channel) && channel in Run(INITIAL_SDK, before).channels {
      i := CurrentEpoch(before, channel);
      assert events[i + 1..] == before[i + 1..] + [events[n]] && events[..i] == before[..i];
    } else {
      i := n;
      UntrackedIff(before, channel);
    }
  }

  /** The state in which an epoch begins. */
  lemma {:induction false} EpochIsTracked(events: seq<Event>, channel: nat, i: nat)
    requires StartsEpoch(channel, events, i)
    ensures var s := Run(INITIAL_SDK, events[..i + 1]);
            && channel in s.channels && s.channels[channel] == BaseOf(events[i])
            && (events[i].Header? ==> GapsOf(channel, s.reports) == [])
            && Run(INITIAL_SDK, events) == Run(s, events[i + 1..])
    ensures channel in Run(INITIAL_SDK, events).channels
  {
    var before := events[..i];
    assert events[..i + 1] == before + [events[i]] && (before + [events[i]])[..i] == before;
    UntrackedIff(before, channel);
    assert events == events[..i + 1] + events[i + 1..];
    RunConcat(INITIAL_SDK, events[..i + 1], events[i + 1..]);
    ChannelRun(Run(INITIAL_SDK, events[..i + 1]), events[i + 1..], channel);
  }

  /** In every run from the start: a channel's gaps since its last reset, or since its first message
      if it was never reset, partition the numbers above 0 or above that message's number. */
  lemma {:induction false} EpochPartition(events: seq<Event>, channel: nat, i: nat)
    requires StartsEpoch(channel, events, i)
    ensures var s, t := Run(INITIAL_SDK, events[..i + 1]), Run(INITIAL_SDK, events);
            var earlier, all := GapsOf(channel, s.reports), GapsOf(channel, t.reports);
            && channel in t.channels
            && earlier <= all
            && (events[i].Header? ==> earlier == [])
            && Partitioned(BaseOf(events[i]), t.channels[channel], Numbers(channel, events[i + 1..]), all[|earlier|..])
  {
    EpochIsTracked(events, channel, i);
    GapPartition(Run(INITIAL_SDK, events[..i + 1]), events[i + 1..], channel);
  }

  // ----- consecutive runs

  /** `is_sequence_valid` returns true for every message of the channel. */
  predicate VerdictsTrue(s: Sdk, events: seq<Event>, channel: nat) {
    forall i | 0 <= i < |events| && events[i].Header? && events[i].channel == channel ::
      SequenceValid(Run(s, events[..i]), channel, events[i].number)
  }

  lemma {:induction false} VerdictsSnoc(s: Sdk, before: seq<Event>, e: Event, channel: nat)
    ensures VerdictsTrue(s, before + [e], channel)
            <==> && VerdictsTrue(s, before, channel)
                 && (e.Header? && e.channel == channel ==> SequenceValid(Run(s, before), channel, e.number))
  {
    var all := before + [e];
    assert all[..|before|] == before && all[|before|] == e;
    assert forall i | 0 <= i < |before| :: all[i] == before[i] && all[..i] == before[..i];
    if VerdictsTrue(s, all, channel) {
      forall i | 0 <= i < |before| && before[i].Header? && before[i].channel == channel
        ensures SequenceValid(Run(s, before[..i]), channel, before[i].number)
      {
        assert SequenceValid(Run(s, all[..i]), channel, all[i].number);
      }
    }
  }

  /** The same, by the numbers alone. */
  predicate AllValid(base: nat, ns: seq<nat>) {
    forall i | 0 <= i < |ns| :: ns[i] == High(base, ns[..i]) + 1
  }

  predicate Consecutive(base: nat, ns: seq<nat>) {
    forall i | 0 <= i < |ns| :: ns[i] == base + 1 + i
  }

  lemma {:induction false} AllValidSnoc(base: nat, ns: seq<nat>, n: nat)
    ensures AllValid(base, ns + [n]) <==> AllValid(base, ns) && n == High(base, ns) + 1
  {
    var all := ns + [n];
    assert all[..|ns|] == ns;
    assert forall i | 0 <= i < |ns| :: all[i] == ns[i] && all[..i] == ns[..i];
    if AllValid(base, all) {
      assert all[|ns|] == High(base, all[..|ns|]) + 1;
      forall i | 0 <= i < |ns|
        ensures ns[i] == High(base, ns[..i]) + 1
      {
        assert all[i] == High(base, all[..i]) + 1;
      }
    }
  }

  lemma {:induction false} ConsecutiveSnoc(base: nat, ns: seq<nat>, n: nat)
    ensures Consecutive(base, ns + [n]) <==> Consecutive(base, ns) && n == base + 1 + |ns|
  {
    var all := ns + [n];
    assert all[|ns|] == n && forall i | 0 <= i < |ns| :: all[i] == ns[i];
  }

  lemma {:induction false} AllValidIffConsecutive(channel: nat, base: nat, ns: seq<nat>)
    ensures AllValid(base, ns) <==> Consecutive(base, ns)
    ensures AllValid(base, ns) ==> Gaps(channel, base, ns) == [] && High(base, ns) == base + |ns|
  {
    if ns != [] {
      var before, n := ns[..|ns| - 1], ns[|ns| - 1];
      assert ns == before + [n];
      AllValidIffConsecutive(channel, base, before);
      AllValidSnoc(base, before, n);
      ConsecutiveSnoc(base, before, n);
      TrackSnoc(channel, base, before, n);
    }
  }

  lemma {:induction false} VerdictsAreAllValid(s: Sdk, events: seq<Event>, channel: nat)
    requires channel in s.channels && NoReset(channel, events)
    ensures VerdictsTrue(s, events, channel) <==> AllValid(s.channels[channel], Numbers(channel, events))
  {
    if events != [] {
      var n := |events| - 1;
      var before, e := events[..n], events[n];
      VerdictsAreAllValid(s, before, channel);
      assert events == before + [e];
      VerdictsSnoc(s, before, e, channel);
      ChannelRun(s, before, channel);
      if e.Header? && e.channel == channel {
        AllValidSnoc(s.channels[channel], Numbers(channel, before), e.number);
      }
    }
  }

  /** Between two resets of a channel every verdict on it is true if and only if its numbers are
      consecutive; and then it stands at the last of them with no new gap reported. */
  lemma {:induction false} VerdictsTrueIff(s: Sdk, events: seq<Event>, channel: nat)
    requires channel in s.channels && NoReset(channel, events)
    ensures VerdictsTrue(s, events, channel) <==> Consecutive(s.channels[channel], Numbers(channel, events))
    ensures var t := Run(s, events);
            VerdictsTrue(s, events, channel) ==>
              && channel in t.channels
              && t.channels[channel] == s.channels[channel] + |Numbers(channel, events)|
              && GapsOf(channel, t.reports) == GapsOf(channel, s.reports)
  {
    VerdictsAreAllValid(s, events, channel);
    AllValidIffConsecutive(channel, s.channels[channel], Numbers(channel, events));
    ChannelRun(s, events, channel);
  }

  /** Consecutive from the first one, whatever it is. */
  predicate FromFirst(ns: seq<nat>) {
    forall i | 0 <= i < |ns| :: ns[i] == ns[0] + i
  }

  lemma {:induction false} FromFirstSnoc(ns: seq<nat>, n: nat)
    ensures FromFirst(ns + [n]) <==> FromFirst(ns) && (ns == [] || n == ns[0] + |ns|)
  {
    var all := ns + [n];
    assert all[|ns|] == n && forall i | 0 <= i < |ns| :: all[i] == ns[i];
  }

  lemma {:induction false} HighFromFirst(ns: seq<nat>)
    requires ns != [] && FromFirst(ns)
    ensures High(ns[0], ns[1..]) == ns[0] + |ns| - 1
  {
    AllValidIffConsecutive(0, ns[0], ns[1..]);
  }

  /** A channel that was not tracked takes its first number and goes on from there. */
  lemma {:induction false} NewChannelRun(s: Sdk, events: seq<Event>, channel: nat)
    requires channel !in s.channels && NoReset(channel, events)
    ensures var t, ns := Run(s, events), Numbers(channel, events);
            if ns == [] then channel !in t.channels
            else channel in t.channels && t.channels[channel] == High(ns[0], ns[1..])
  {
    if events != [] {
      var n := |events| - 1;
      var before, e := events[..n], events[n];
      NewChannelRun(s, before, channel);
      var t, ns := Run(s, before), Numbers(channel, before);
      UntrackedStep(t, e, channel);
      if e.Header? && channel in t.channels {
        TrackOnChannel(t, e.channel, e.number, channel);
        TrackSnoc(channel, ns[0], ns[1..], e.number);
        assert (ns + [e.number])[1..] == ns[1..] + [e.number];
      } else if !e.Header? {
        OtherSteps(t, e, channel);
      }
    }
  }

  /** On a channel that is not tracked yet and not reset, every verdict is true if and only if its
      numbers are consecutive from its first one, and the first one is always accepted. */
  lemma {:induction false} NewChannelVerdictsIff(s: Sdk, events: seq<Event>, channel: nat)
    requires channel !in s.channels && NoReset(channel, events)
    ensures VerdictsTrue(s, events, channel) <==> FromFirst(Numbers(channel, events))
  {
    if events != [] {
      var n := |events| - 1;
      var before, e := events[..n], events[n];
      var ns := Numbers(channel, before);
      NewChannelVerdictsIff(s, before, channel);
      NewChannelRun(s, before, channel);
      assert events == before + [e];
      VerdictsSnoc(s, before, e, channel);
      if e.Header? && e.channel == channel {
        FromFirstSnoc(ns, e.number);
        if ns != [] && FromFirst(ns) {
          HighFromFirst(ns);
        }
      }
    }
  }

  // ----- frames

  lemma {:induction false} FrameLayout(head: seq<Byte>, body: seq<Byte>, sum: Byte, rest: seq<Byte>, raw: seq<Byte>)
    requires raw == head + body + [sum] + rest && |head| == 19
    ensures raw[..19] == head && raw[1..19 + |body|] == (head + body)[1..] && raw[19 + |body|] == sum
  {
  }

  lemma {:induction false} NumberFields(raw: seq<Byte>)
    requires |raw| >= 19
    ensures ValidBcd(raw[9..16]) <==> ValidBcd(raw[9..11]) && ValidBcd(raw[11..16])
  {
    assert raw[9..16] == raw[9..11] + raw[11..16];
    ValidBcdConcat(raw[9..11], raw[11..16]);
  }

  /** The verdict on any bytes, from the bytes: the length is in bytes 17 and 18, channel and number in
      bytes 9 to 15, and the check code is the XOR of everything from byte 1 to the byte before it. */
  lemma {:induction false} VerdictOn(raw: seq<Byte>)
    ensures Validate(raw) ==
            if |raw| < 22 then Rejected
            else if !ValidBcd(raw[17..19]) then Thrown
            else if |raw| != 22 + BcdValue(raw[17..19]) || XorOf(raw[1..|raw| - 3]) != raw[|raw| - 3] then Rejected
            else if !ValidBcd(raw[9..16]) then Thrown
            else Accepted(BcdValue(raw[9..11]), BcdValue(raw[11..16]))
  {
    if |raw| >= 22 {
      NumberFields(raw);
    }
  }

  /** A frame built the way the manual prescribes is accepted, with the channel and sequence number
      its header says. */
  lemma {:induction false} BuiltFrameAccepted(h: H.Header, body: seq<Byte>, terminal: seq<Byte>, raw: seq<Byte>)
    requires H.WellSized(h) && |terminal| == 2
    requires ValidBcd(h.channelId) && ValidBcd(h.channelSeq)
    requires ValidBcd(h.bodyLength) && BcdValue(h.bodyLength) == |body|
    requires raw == H.HeaderBytes(h) + body + [XorOf((H.HeaderBytes(h) + body)[1..])] + terminal
    ensures Validate(raw) == Accepted(BcdValue(h.channelId), BcdValue(h.channelSeq))
  {
    var head, sum := H.HeaderBytes(h), XorOf((H.HeaderBytes(h) + body)[1..]);
    FrameLayout(head, body, sum, terminal, raw);
    assert raw == head + (body + [sum] + terminal);
    H.HeaderRoundTrip(h, body + [sum] + terminal);
  }

  /** Replacing one byte of an accepted frame leaves it acceptable exactly when the byte is the
      leading ESC or one of the two terminal-code bytes: those are never looked at. */
  lemma {:induction false} OneByteChangeIff(raw: seq<Byte>, i: nat, b: Byte)
    requires Validate(raw).Accepted? && i < |raw| && b != raw[i]
    ensures Validate(raw[i := b]).Accepted? <==> i == 0 || i >= |raw| - 2
  {
    var body := BcdValue(raw[17..19]);
    assert H.HeaderOf(raw).bodyLength == raw[17..19];
    assert |raw| == 22 + body;
    if i == 0 || i >= |raw| - 2 {
      OutsideFrame(raw, i, b);
    } else if i == |raw| - 3 {
      CheckSumByte(raw, i, b);
    } else if i == 17 || i == 18 {
      LengthByte(raw, i, b);
    } else {
      CoveredByte(raw, i, b);
    }
  }

  lemma {:induction false} OutsideFrame(raw: seq<Byte>, i: nat, b: Byte)
    requires Validate(raw).Accepted? && i < |raw| && (i == 0 || i >= |raw| - 2)
    ensures Validate(raw[i := b]) == Validate(raw)
  {
    var changed := raw[i := b];
    SameFields(raw, changed);
    assert changed[1..|raw| - 3] == raw[1..|raw| - 3];
  }

  lemma {:induction false} SameFields(raw: seq<Byte>, changed: seq<Byte>)
    requires |raw| == |changed| >= 19 && raw[1..19] == changed[1..19]
    ensures H.GetBodyLength(H.HeaderOf(changed)) == H.GetBodyLength(H.HeaderOf(raw))
    ensures H.GetChannelId(H.HeaderOf(changed)) == H.GetChannelId(H.HeaderOf(raw))
    ensures H.GetChannelSeq(H.HeaderOf(changed)) == H.GetChannelSeq(H.HeaderOf(raw))
  {
    SubSlice(raw, 1, 19, 16, 18);
    SubSlice(changed, 1, 19, 16, 18);
    SubSlice(raw, 1, 19, 8, 10);
    SubSlice(changed, 1, 19, 8, 10);
    SubSlice(raw, 1, 19, 10, 15);
    SubSlice(changed, 1, 19, 10, 15);
  }

  lemma {:induction false} SubSlice<T>(s: seq<T>, a: nat, b: nat, c: nat, d: nat)
    requires a <= b <= |s| && c <= d <= b - a
    ensures s[a..b][c..d] == s[a + c..a + d]
  {
    assert forall k | 0 <= k < d - c :: s[a..b][c..d][k] == s[a..b][c + k] == s[a + c + k];
  }

  lemma {:induction false} SameLength(raw: seq<Byte>, changed: seq<Byte>)
    requires |raw| == |changed| >= 19 && raw[17..19] == changed[17..19]
    ensures H.GetBodyLength(H.HeaderOf(changed)) == H.GetBodyLength(H.HeaderOf(raw))
  {
  }

  lemma {:induction false} CheckSumByte(raw: seq<Byte>, i: nat, b: Byte)
    requires Validate(raw).Accepted? && i == |raw| - 3 && b != raw[i]
    ensures !Validate(raw[i := b]).Accepted?
  {
    var changed := raw[i := b];
    assert changed[17..19] == raw[17..19];
    SameLength(raw, changed);
    assert changed[1..i] == raw[1..i];
  }

  lemma {:induction false} LengthByte(raw: seq<Byte>, i: nat, b: Byte)
    requires Validate(raw).Accepted? && (i == 17 || i == 18) && b != raw[i]
    ensures !Validate(raw[i := b]).Accepted?
  {
    var changed := raw[i := b];
    var x, y := raw[17..19], changed[17..19];
    assert x[i - 17] == raw[i] && y[i - 17] == b;
    if ValidBcd(y) && BcdValue(y) == BcdValue(x) {
      BcdValueInjective(x, y);
    }
  }

  lemma {:induction false} CoveredByte(raw: seq<Byte>, i: nat, b: Byte)
    requires Validate(raw).Accepted? && 1 <= i < |raw| - 3 && i != 17 && i != 18 && b != raw[i]
    ensures !Validate(raw[i := b]).Accepted?
  {
    var changed := raw[i := b];
    assert changed[17..19] == raw[17..19];
    SameLength(raw, changed);
    var n := |raw| - 3;
    assert changed[1..n] == raw[1..n][i - 1 := b];
    XorDetectsOneByte(raw[1..n], i - 1, b);
  }
}

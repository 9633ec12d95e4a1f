/** What the receive loop of the retransmission client does to a whole byte stream. */
module StreamReassembly {
  import opened Bytes
  import opened Checksum
  import opened PackBcd
  import H = CommonHeader
  import opened RetransmissionProtocol
  import opened RetransmissionClient

  // ----- independence from chunking

  function Concat(parts: seq<seq<Byte>>): seq<Byte> {
    if parts == [] then [] else parts[0] + Concat(parts[1..])
  }

  function FeedAll(env: Env, c: Client, chunks: seq<seq<Byte>>): Client
    decreases |chunks|
  {
    if chunks == [] then c else FeedAll(env, Feed(env, c, chunks[0]), chunks[1..])
  }

  /** Same frames delivered, same session, same Failed flag and, unless failed, same leftover. */
  predicate Agree(c: Client, d: Client) {
    && c.running == d.running
    && c.failed == d.failed
    && c.session == d.session
    && (!c.failed ==> c.buffer == d.buffer)
  }

  /** No whole frame is waiting; true after every `ProcessIncomingData`. */
  ghost predicate Settled(env: Env, c: Client) {
    Drain(env, c) == c
  }

  /** Once the front of the buffer can be cut, more bytes do not change the cut. */
  lemma {:induction false} CutIsStable(buffer: seq<Byte>, more: seq<Byte>)
    requires buffer != [] && !NextCut(buffer).Incomplete?
    ensures NextCut(buffer + more) == NextCut(buffer)
  {
    if buffer[0] == ESC {
      assert H.HeaderOf(buffer + more) == H.HeaderOf(buffer);
    } else {
      assert Get16(buffer + more, 0) == Get16(buffer, 0);
    }
  }

  lemma {:induction false} AppendSlices<T>(a: seq<T>, b: seq<T>, n: nat)
    requires n <= |a|
    ensures (a + b)[n..] == a[n..] + b && (a + b)[..n] == a[..n]
  {
  }

  lemma {:induction false} CutThenAppend(env: Env, c: Client, more: seq<Byte>)
    requires c.buffer != [] && HasFrame(NextCut(c.buffer))
    ensures NextCut(c.buffer + more) == NextCut(c.buffer)
    ensures AfterCut(env, Append(c, more)) == Append(AfterCut(env, c), more)
  {
    CutIsStable(c.buffer, more);
    var n := NextCut(c.buffer).n;
    AppendSlices(c.buffer, more, n);
  }

  lemma {:induction false} DrainAppend(env: Env, c: Client, more: seq<Byte>)
    ensures Agree(Drain(env, Append(c, more)), Drain(env, Append(Drain(env, c), more)))
    decreases |c.buffer|
  {
    if c.running && !c.failed && c.buffer != [] && !NextCut(c.buffer).Incomplete? {
      if NextCut(c.buffer).BadLength? {
        CutIsStable(c.buffer, more);
      } else {
        CutThenAppend(env, c, more);
        DrainAppend(env, AfterCut(env, c), more);
      }
    }
  }

  lemma {:induction false} DrainSettles(env: Env, c: Client)
    ensures Settled(env, Drain(env, c))
    decreases |c.buffer|
  {
    if c.running && !c.failed && c.buffer != [] && HasFrame(NextCut(c.buffer)) {
      DrainSettles(env, AfterCut(env, c));
    }
  }

  lemma {:induction false} AppendTwice(c: Client, a: seq<Byte>, b: seq<Byte>)
    ensures Append(Append(c, a), b) == Append(c, a + b)
  {
    assert c.buffer + a + b == c.buffer + (a + b);
  }

  lemma {:induction false} FeedTwice(env: Env, c: Client, a: seq<Byte>, b: seq<Byte>)
    ensures Agree(Feed(env, Feed(env, c, a), b), Feed(env, c, a + b))
  {
    DrainAppend(env, Append(c, a), b);
    AppendTwice(c, a, b);
  }

  /** However a stream is split into chunks, the result is that of the whole stream at once. */
  lemma {:induction false} ChunkingIndependence(env: Env, c: Client, chunks: seq<seq<Byte>>)
    requires chunks != [] || Settled(env, c)
    ensures Agree(FeedAll(env, c, chunks), Feed(env, c, Concat(chunks)))
    decreases |chunks|
  {
    if chunks == [] {
      assert Append(c, []) == c by {
        assert c.buffer + [] == c.buffer;
      }
    } else {
      var d := Feed(env, c, chunks[0]);
      DrainSettles(env, Append(c, chunks[0]));
      ChunkingIndependence(env, d, chunks[1..]);
      FeedTwice(env, c, chunks[0], Concat(chunks[1..]));
    }
  }

  /** Two ways of splitting one stream lead to the same place. */
  lemma {:induction false} AnyTwoSplitsAgree(env: Env, c: Client, xs: seq<seq<Byte>>, ys: seq<seq<Byte>>)
    requires (xs != [] && ys != []) || Settled(env, c)
    requires Concat(xs) == Concat(ys)
    ensures Agree(FeedAll(env, c, xs), FeedAll(env, c, ys))
  {
    ChunkingIndependence(env, c, xs);
    ChunkingIndependence(env, c, ys);
  }

  // ----- recovery of a frame list

  predicate MarketFrame(f: seq<Byte>) {
    && |f| >= 22
    && f[0] == 0x1B
    && ValidBcd(f[17..19])
    && |f| == 22 + BcdValue(f[17..19])
  }

  predicate ProtocolFrame(f: seq<Byte>) {
    && |f| >= 16
    && f[0] != 0x1B
    && |f| == 3 + Get16(f, 0)
  }

  /** Too short to hold a protocol header. */
  predicate RuntFrame(f: seq<Byte>) {
    && 3 <= |f| < 16
    && f[0] != 0x1B
    && |f| == 3 + Get16(f, 0)
  }

  predicate WellFormed(frames: seq<seq<Byte>>) {
    forall i | 0 <= i < |frames| :: MarketFrame(frames[i]) || ProtocolFrame(frames[i]) || RuntFrame(frames[i])
  }

  /** The frames without the runts. */
  function Visible(frames: seq<seq<Byte>>): seq<seq<Byte>> {
    if frames == [] then []
    else if RuntFrame(frames[0]) then Visible(frames[1..])
    else [frames[0]] + Visible(frames[1..])
  }

  /** What one frame does to the session. */
  function Deliver(env: Env, s: Session, f: seq<Byte>): Session {
    if MarketFrame(f) then Logged(s, MarketData(f))
    else if ProtocolFrame(f) then Handle(env, s, f)
    else s
  }

  type Delivery = (Session, seq<Byte>) -> Session

  function DeliveryIn(env: Env): (step: Delivery)
    ensures forall s, f :: step(s, f) == Deliver(env, s, f)
  {
    (s, f) => Deliver(env, s, f)
  }

  function DeliverAll(step: Delivery, s: Session, frames: seq<seq<Byte>>): Session
    decreases |frames|
  {
    if frames == [] then s else DeliverAll(step, step(s, frames[0]), frames[1..])
  }

  /** The frames a log shows to have reached a callback or the protocol handler, in order. */
  function Delivered(log: seq<Event>): seq<seq<Byte>> {
    if log == [] then [] else
      var e := log[|log| - 1];
      Delivered(log[..|log| - 1]) + if e.MarketData? || e.ProtocolData? then [e.frame] else []
  }

  lemma {:induction false} CutsAFrame(f: seq<Byte>, rest: seq<Byte>)
    requires MarketFrame(f) || ProtocolFrame(f) || RuntFrame(f)
    ensures NextCut(f + rest) ==
            if MarketFrame(f) then Market(|f|) else if ProtocolFrame(f) then Protocol(|f|) else Runt(|f|)
  {
    var s := f + rest;
    if MarketFrame(f) {
      assert H.HeaderOf(s).bodyLength == f[17..19];
    } else {
      assert Get16(s, 0) == Get16(f, 0);
    }
  }

  lemma {:induction false} CutDelivers(env: Env, c: Client, f: seq<Byte>, rest: seq<Byte>)
    requires (MarketFrame(f) || ProtocolFrame(f) || RuntFrame(f)) && c.buffer == f + rest
    ensures HasFrame(NextCut(c.buffer))
    ensures AfterCut(env, c) == c.(buffer := rest, session := Deliver(env, c.session, f))
  {
    CutsAFrame(f, rest);
    assert c.buffer[..|f|] == f && c.buffer[|f|..] == rest;
  }

  /** Whatever follows a list of frames is drained from where the frames lead. */
  lemma {:induction false} DrainPieces(env: Env, step: Delivery, c: Client, frames: seq<seq<Byte>>, rest: seq<Byte>)
    requires c.running && !c.failed && WellFormed(frames) && c.buffer == Concat(frames) + rest
    requires step == DeliveryIn(env)
    ensures Drain(env, c) == Drain(env, c.(buffer := rest, session := DeliverAll(step, c.session, frames)))
    decreases |frames|
  {
    if frames == [] {
      assert [] + rest == rest;
    } else {
      var f, more := frames[0], Concat(frames[1..]) + rest;
      ConcatSlices(f, Concat(frames[1..]), rest, 0);
      CutDelivers(env, c, f, more);
      DrainPieces(env, step, c.(buffer := more, session := step(c.session, f)), frames[1..], rest);
    }
  }

  lemma {:induction false} DrainFrames(env: Env, step: Delivery, c: Client, frames: seq<seq<Byte>>)
    requires c.running && !c.failed && WellFormed(frames) && c.buffer == Concat(frames)
    requires step == DeliveryIn(env)
    ensures Drain(env, c) == c.(buffer := [], session := DeliverAll(step, c.session, frames))
  {
    assert Concat(frames) + [] == Concat(frames);
    DrainPieces(env, step, c, frames, []);
  }

  predicate Quiet(e: Event) {
    !e.MarketData? && !e.ProtocolData?
  }

  lemma {:induction false} DeliveredAppend(log: seq<Event>, tail: seq<Event>)
    requires forall i | 0 <= i < |tail| :: Quiet(tail[i])
    ensures Delivered(log + tail) == Delivered(log)
    decreases |tail|
  {
    if tail == [] {
      assert log + tail == log;
    } else {
      var n := |tail| - 1;
      assert (log + tail)[..|log| + n] == log + tail[..n];
      DeliveredAppend(log, tail[..n]);
    }
  }

  /** Beyond noting the frame, handling it only adds events of other kinds. */
  lemma {:induction false} ReactIsQuiet(env: Env, s: Session, m: Message)
    ensures s.log <= React(env, s, m).log
    ensures forall i | |s.log| <= i < |React(env, s, m).log| :: Quiet(React(env, s, m).log[i])
  {
  }

  lemma {:induction false} HandleIsQuiet(env: Env, s: Session, f: seq<Byte>)
    requires |f| >= HEADER_SIZE
    ensures s.log + [ProtocolData(f)] <= Handle(env, s, f).log
    ensures forall i | |s.log| < i < |Handle(env, s, f).log| :: Quiet(Handle(env, s, f).log[i])
  {
    var t := Logged(s, ProtocolData(f));
    var kind := HeaderOf(f).kind;
    if KnownKind(kind) && Decode(kind, f).Some? {
      ReactIsQuiet(env, t, Decode(kind, f).value);
    }
  }

  lemma {:induction false} HandleLogs(env: Env, s: Session, f: seq<Byte>)
    requires |f| >= HEADER_SIZE
    ensures Delivered(Handle(env, s, f).log) == Delivered(s.log) + [f]
  {
    var noted, all := s.log + [ProtocolData(f)], Handle(env, s, f).log;
    assert noted[..|s.log|] == s.log;
    HandleIsQuiet(env, s, f);
    assert all == noted + all[|noted|..];
    DeliveredAppend(noted, all[|noted|..]);
  }

  lemma {:induction false} MarketLogs(s: Session, f: seq<Byte>)
    ensures Delivered(Logged(s, MarketData(f)).log) == Delivered(s.log) + [f]
  {
    assert (s.log + [MarketData(f)])[..|s.log|] == s.log;
  }

  lemma {:induction false} DeliverLogs(env: Env, s: Session, f: seq<Byte>)
    requires MarketFrame(f) || ProtocolFrame(f)
    ensures Delivered(Deliver(env, s, f).log) == Delivered(s.log) + [f]
  {
    if MarketFrame(f) {
      MarketLogs(s, f);
    } else {
      HandleLogs(env, s, f);
    }
  }

  lemma {:induction false} DeliverAllLogs(step: Delivery, s: Session, frames: seq<seq<Byte>>)
    requires WellFormed(frames)
    requires forall t, f | MarketFrame(f) || ProtocolFrame(f) ::
               Delivered(step(t, f).log) == Delivered(t.log) + [f]
    requires forall t, f | RuntFrame(f) :: step(t, f) == t
    ensures Delivered(DeliverAll(step, s, frames).log) == Delivered(s.log) + Visible(frames)
    decreases |frames|
  {
    if frames != [] {
      DeliverAllLogs(step, step(s, frames[0]), frames[1..]);
    }
  }

  lemma {:induction false} FeedFrames(env: Env, step: Delivery, c: Client,
                                      frames: seq<seq<Byte>>, chunks: seq<seq<Byte>>)
    requires c.running && !c.failed && c.buffer == []
    requires WellFormed(frames) && Concat(chunks) == Concat(frames) && step == DeliveryIn(env)
    ensures FeedAll(env, c, chunks) == c.(session := DeliverAll(step, c.session, frames))
  {
    ChunkingIndependence(env, c, chunks);
    assert [] + Concat(frames) == Concat(frames);
    DrainFrames(env, step, Append(c, Concat(frames)), frames);
  }

  /** Any list of well-formed frames, concatenated and split arbitrarily, is delivered as
      exactly that list without the runts, in order, and leaves the buffer empty. */
  lemma {:induction false} FramesRecovered(env: Env, c: Client, frames: seq<seq<Byte>>, chunks: seq<seq<Byte>>)
    requires c.running && !c.failed && c.buffer == []
    requires WellFormed(frames) && Concat(chunks) == Concat(frames)
    ensures var d := FeedAll(env, c, chunks);
            && d == c.(session := DeliverAll(DeliveryIn(env), c.session, frames))
            && Delivered(d.session.log) == Delivered(c.session.log) + Visible(frames)
  {
    var step := DeliveryIn(env);
    FeedFrames(env, step, c, frames, chunks);
    forall t, f | MarketFrame(f) || ProtocolFrame(f)
      ensures Delivered(step(t, f).log) == Delivered(t.log) + [f]
    {
      DeliverLogs(env, t, f);
    }
    DeliverAllLogs(step, c.session, frames);
  }

  // ----- bytes left over from an earlier connection

  /** The front of the buffer is not a whole frame yet. */
  predicate Waiting(buffer: seq<Byte>) {
    if buffer == [] then true
    else if buffer[0] == 0x1B then
      |buffer| < 19 || (ValidBcd(buffer[17..19]) && |buffer| < 22 + BcdValue(buffer[17..19]))
    else |buffer| < 2 || |buffer| < 3 + Get16(buffer, 0)
  }

  /** A market header whose length has a bad nibble. */
  predicate BadStart(buffer: seq<Byte>) {
    |buffer| >= 19 && buffer[0] == 0x1B && !ValidBcd(buffer[17..19])
  }

  /** What the loop finds at the front of any buffer. */
  lemma {:induction false} CutKinds(buffer: seq<Byte>)
    requires buffer != []
    ensures NextCut(buffer).Incomplete? <==> Waiting(buffer)
    ensures NextCut(buffer).BadLength? <==> BadStart(buffer)
    ensures NextCut(buffer).Market? ==> MarketFrame(buffer[..NextCut(buffer).n])
    ensures NextCut(buffer).Protocol? ==> ProtocolFrame(buffer[..NextCut(buffer).n])
    ensures NextCut(buffer).Runt? ==> RuntFrame(buffer[..NextCut(buffer).n])
  {
    if buffer[0] == ESC && |buffer| >= 19 {
      assert H.HeaderOf(buffer).bodyLength == buffer[17..19];
      if NextCut(buffer).Market? {
        assert buffer[..NextCut(buffer).n][17..19] == buffer[17..19];
      }
    }
  }

  lemma {:induction false} DrainStops(env: Env, c: Client)
    requires c.running && !c.failed && (Waiting(c.buffer) || BadStart(c.buffer))
    ensures Drain(env, c) == c.(failed := BadStart(c.buffer))
  {
    if c.buffer != [] {
      CutKinds(c.buffer);
    }
  }

  /** Every buffer is a list of frames and a rest, which is not a whole frame yet or has a bad length;
      draining delivers the frames, keeps the rest, and fails exactly in the second case. */
  lemma {:induction false} DrainOutcome(env: Env, step: Delivery, c: Client)
    returns (frames: seq<seq<Byte>>, rest: seq<Byte>)
    requires c.running && !c.failed && step == DeliveryIn(env)
    ensures c.buffer == Concat(frames) + rest && WellFormed(frames) && (Waiting(rest) || BadStart(rest))
    ensures Drain(env, c)
            == c.(buffer := rest, session := DeliverAll(step, c.session, frames), failed := BadStart(rest))
  {
    frames, rest := Pieces(c.buffer);
    DrainPieces(env, step, c, frames, rest);
    DrainStops(env, c.(buffer := rest, session := DeliverAll(step, c.session, frames)));
  }

  lemma {:induction false} Pieces(buffer: seq<Byte>) returns (frames: seq<seq<Byte>>, rest: seq<Byte>)
    ensures buffer == Concat(frames) + rest && WellFormed(frames) && (Waiting(rest) || BadStart(rest))
    decreases |buffer|
  {
    if buffer == [] || Waiting(buffer) || BadStart(buffer) {
      frames, rest := [], buffer;
    } else {
      CutKinds(buffer);
      var n := NextCut(buffer).n;
      var more, last := Pieces(buffer[n..]);
      frames, rest := [buffer[..n]] + more, last;
      OnePieceMore(buffer[..n], more, last);
      assert buffer == buffer[..n] + buffer[n..];
    }
  }

  lemma {:induction false} OnePieceMore(f: seq<Byte>, more: seq<seq<Byte>>, last: seq<Byte>)
    ensures Concat([f] + more) + last == f + (Concat(more) + last)
  {
    assert ([f] + more)[1..] == more;
    ConcatSlices(f, Concat(more), last, 0);
  }

  /** The stream is some frames and then a market header with a bad length. */
  ghost predicate Derails(stream: seq<Byte>) {
    exists frames, rest :: WellFormed(frames) && BadStart(rest) && stream == Concat(frames) + rest
  }

  lemma {:induction false} DrainFailsIff(env: Env, c: Client)
    requires c.running && !c.failed
    ensures Drain(env, c).failed <==> Derails(c.buffer)
  {
    var step := DeliveryIn(env);
    var frames, rest := DrainOutcome(env, step, c);
    if Derails(c.buffer) {
      var fs, r :| WellFormed(fs) && BadStart(r) && c.buffer == Concat(fs) + r;
      DrainPieces(env, step, c, fs, r);
      DrainStops(env, c.(buffer := r, session := DeliverAll(step, c.session, fs)));
    }
  }

  /** However a stream is split, the client fails on it if and only if, after some whole frames, a market
      header comes whose length has a bad nibble. */
  lemma {:induction false} ClientFailsIff(env: Env, c: Client, chunks: seq<seq<Byte>>)
    requires c.running && !c.failed && c.buffer == []
    ensures FeedAll(env, c, chunks).failed <==> Derails(Concat(chunks))
  {
    ChunkingIndependence(env, c, chunks);
    assert [] + Concat(chunks) == Concat(chunks);
    DrainFailsIff(env, Append(c, Concat(chunks)));
  }

  /** A stopped client only collects bytes. */
  lemma {:induction false} StoppedClientCollects(env: Env, c: Client, chunks: seq<seq<Byte>>)
    requires !c.running
    ensures FeedAll(env, c, chunks) == Append(c, Concat(chunks))
    decreases |chunks|
  {
    if chunks == [] {
      assert c.buffer + [] == c.buffer;
    } else {
      StoppedClientCollects(env, Append(c, chunks[0]), chunks[1..]);
      AppendTwice(c, chunks[0], Concat(chunks[1..]));
    }
  }

  lemma {:induction false} CutLogs(env: Env, c: Client, cut: Cut)
    requires c.buffer != [] && cut == NextCut(c.buffer) && HasFrame(cut)
    ensures AfterCut(env, c).buffer == c.buffer[cut.n..]
    ensures Delivered(AfterCut(env, c).session.log)
            == if cut.Runt? then Delivered(c.session.log) else Delivered(c.session.log) + [c.buffer[..cut.n]]
  {
    var f := c.buffer[..cut.n];
    if cut.Market? {
      MarketLogs(c.session, f);
    } else if cut.Protocol? {
      HandleLogs(env, c.session, f);
    }
  }

  lemma {:induction false} OneMoreDelivered(before: seq<seq<Byte>>, f: seq<Byte>, more: seq<seq<Byte>>)
    ensures before + [f] + more == before + ([f] + more) && |Concat([f] + more)| == |f| + |Concat(more)|
  {
    assert ([f] + more)[1..] == more;
  }

  /** One round of draining. */
  lemma {:induction false} CutStep(env: Env, c: Client) returns (t: Client)
    requires c.running && !c.failed && c.buffer != [] && HasFrame(NextCut(c.buffer))
    ensures Drain(env, c) == Drain(env, t) && t.buffer == c.buffer[NextCut(c.buffer).n..]
    ensures Delivered(t.session.log)
            == if NextCut(c.buffer).Runt? then Delivered(c.session.log)
               else Delivered(c.session.log) + [c.buffer[..NextCut(c.buffer).n]]
  {
    t := AfterCut(env, c);
    CutLogs(env, c, NextCut(c.buffer));
  }

  /** What draining delivers fits into the buffer. */
  lemma {:induction false} DrainDelivers(env: Env, c: Client) returns (ds: seq<seq<Byte>>)
    ensures Delivered(Drain(env, c).session.log) == Delivered(c.session.log) + ds
    ensures |Concat(ds)| <= |c.buffer|
    decreases |c.buffer|
  {
    if c.running && !c.failed && c.buffer != [] && HasFrame(NextCut(c.buffer)) {
      var cut := NextCut(c.buffer);
      var t := CutStep(env, c);
      var more := DrainDelivers(env, t);
      if cut.Runt? {
        ds := more;
      } else {
        ds := [c.buffer[..cut.n]] + more;
        OneMoreDelivered(Delivered(c.session.log), c.buffer[..cut.n], more);
      }
    } else {
      ds := [];
    }
  }

  lemma {:induction false} LaterCut(p: seq<Byte>, f: seq<Byte>)
    requires p != [] && Waiting(p) && HasFrame(NextCut(p + f))
    ensures NextCut(p + f).n > |p|
  {
    CutKinds(p);
    if p[0] == ESC && |p| >= H.HEADER_SIZE {
      assert H.HeaderOf(p + f) == H.HeaderOf(p);
    } else if p[0] != ESC && |p| >= 2 {
      assert Get16(p + f, 0) == Get16(p, 0);
    }
  }

  lemma {:induction false} ConcatOne(f: seq<Byte>)
    ensures Concat([f]) == f
  {
    assert [f][1..] == [];
  }

  lemma {:induction false} VisibleOne(f: seq<Byte>)
    requires !RuntFrame(f)
    ensures Visible([f]) == [f]
  {
    assert [f][1..] == [];
  }

  /** A frame that starts unlike the leftover is not delivered as such. */
  lemma {:induction false} OtherStartIsLost(env: Env, c: Client, f: seq<Byte>)
    requires c.running && !c.failed && c.buffer != [] && Waiting(c.buffer)
    requires f != [] && f[0] != c.buffer[0]
    ensures Delivered(Feed(env, c, f).session.log) != Delivered(c.session.log) + [f]
  {
    var d := Append(c, f);
    var before := Delivered(c.session.log);
    if HasFrame(NextCut(d.buffer)) {
      var cut := NextCut(d.buffer);
      LaterCut(c.buffer, f);
      var t := CutStep(env, d);
      var more := DrainDelivers(env, t);
      if cut.Runt? {
        ConcatOne(f);
        NotThat(before, more, f);
      } else {
        var g := d.buffer[..cut.n];
        assert g[0] == c.buffer[0];
        assert (before + [g] + more)[|before|] == g;
      }
    }
  }

  lemma {:induction false} NotThat(before: seq<seq<Byte>>, ds: seq<seq<Byte>>, f: seq<Byte>)
    requires |Concat(ds)| < |f|
    ensures before + ds != before + [f]
  {
    ConcatOne(f);
    assert (before + ds)[|before|..] == ds && (before + [f])[|before|..] == [f];
  }

  /** The shortest frames of both kinds. */
  function EmptyMarketFrame(): (f: seq<Byte>)
    ensures MarketFrame(f) && f[0] == ESC
  {
    var f: seq<Byte> := [ESC] + seq(21, _ => 0);
    assert f[17..19] == [0, 0] && [0, 0][..1] == [0] && [0][..0] == [];
    f
  }

  function EmptyProtocolFrame(): (f: seq<Byte>)
    ensures ProtocolFrame(f) && f[0] != ESC
  {
    [0, 13] + seq(14, _ => 0)
  }

  /** The buffer is not cleared when the client reconnects. Whatever frames the new connection brings
      are delivered as such, runts apart, if and only if the old one left nothing over. */
  lemma {:induction false} LeftoverMattersIff(env: Env, c: Client)
    requires c.running && !c.failed && Waiting(c.buffer)
    ensures (forall frames | WellFormed(frames) ::
               Delivered(Feed(env, c, Concat(frames)).session.log) == Delivered(c.session.log) + Visible(frames))
            <==> c.buffer == []
  {
    if c.buffer == [] {
      forall frames | WellFormed(frames)
        ensures Delivered(Feed(env, c, Concat(frames)).session.log) == Delivered(c.session.log) + Visible(frames)
      {
        FramesRecovered(env, c, frames, [Concat(frames)]);
        ConcatOne(Concat(frames));
        assert FeedAll(env, c, [Concat(frames)]) == Feed(env, c, Concat(frames));
      }
    } else {
      var f := if c.buffer[0] == ESC then EmptyProtocolFrame() else EmptyMarketFrame();
      OtherStartIsLost(env, c, f);
      ConcatOne(f);
      VisibleOne(f);
      assert WellFormed([f]);
    }
  }

  // ----- frames with a bad check sum

  /** The session with `log` put before its own. */
  function Prefixed(log: seq<Event>, s: Session): Session {
    s.(log := log + s.log)
  }

  function Fresh(s: Session): Session {
    s.(log := [])
  }

  /** What a step does, and what it adds to the log, does not depend on the log. */
  ghost predicate LogBlind(step: Delivery) {
    forall s, f :: step(s, f) == Prefixed(s.log, step(Fresh(s), f))
  }

  lemma {:induction false} PrefixedTwice(a: seq<Event>, b: seq<Event>, s: Session)
    ensures Prefixed(a, Prefixed(b, s)) == Prefixed(a + b, s)
  {
    assert a + (b + s.log) == a + b + s.log;
  }

  lemma {:induction false} SendIsBlind(env: Env, s: Session, m: Message)
    ensures Send(env, s, m) == Prefixed(s.log, Send(env, Fresh(s), m))
  {
    TransmitIsBlind(env, Numbered(s, m), Frame(m));
    TransmitIsBlind(env, Numbered(Fresh(s), m), Frame(m));
    PrefixedTwice(s.log, [Built(m)], Transmit(env, Fresh(Numbered(s, m)), Frame(m)));
    assert [] + [Built(m)] == [Built(m)];
  }

  lemma {:induction false} TransmitIsBlind(env: Env, s: Session, bytes: seq<Byte>)
    ensures Transmit(env, s, bytes) == Prefixed(s.log, Transmit(env, Fresh(s), bytes))
  {
    assert forall e :: s.log + ([] + [e]) == s.log + [e];
    assert s.log + [] == s.log;
  }

  lemma {:induction false} ReactIsBlind(env: Env, s: Session, m: Message)
    ensures React(env, s, m) == Prefixed(s.log, React(env, Fresh(s), m))
  {
    if m.HeartbeatServer104? {
      SendIsBlind(env, s, HeartbeatClient105(NextHeader(env, s)));
    }
    assert s.log + [] == s.log;
  }

  lemma {:induction false} HandleIsBlind(env: Env, s: Session, f: seq<Byte>)
    requires |f| >= HEADER_SIZE
    ensures Handle(env, s, f) == Prefixed(s.log, Handle(env, Fresh(s), f))
  {
    var e, kind := ProtocolData(f), HeaderOf(f).kind;
    assert [] + [e] == [e];
    if KnownKind(kind) && Decode(kind, f).Some? {
      var m := Decode(kind, f).value;
      ReactIsBlind(env, Logged(s, e), m);
      ReactIsBlind(env, Logged(Fresh(s), e), m);
      PrefixedTwice(s.log, [e], React(env, Fresh(s), m));
    }
  }

  lemma {:induction false} DeliveryIsBlind(env: Env)
    ensures LogBlind(DeliveryIn(env))
  {
    var step := DeliveryIn(env);
    forall s, f
      ensures step(s, f) == Prefixed(s.log, step(Fresh(s), f))
    {
      assert s.log + ([] + [MarketData(f)]) == s.log + [MarketData(f)] && s.log + [] == s.log;
      if ProtocolFrame(f) {
        HandleIsBlind(env, s, f);
      }
    }
  }

  lemma {:induction false} DeliverAllIsBlind(step: Delivery, s: Session, frames: seq<seq<Byte>>)
    requires LogBlind(step)
    ensures DeliverAll(step, s, frames) == Prefixed(s.log, DeliverAll(step, Fresh(s), frames))
    decreases |frames|
  {
    if frames == [] {
      assert s.log + [] == s.log;
    } else {
      var t, t0 := step(s, frames[0]), step(Fresh(s), frames[0]);
      assert t == Prefixed(s.log, t0);
      DeliverAllIsBlind(step, t, frames[1..]);
      DeliverAllIsBlind(step, t0, frames[1..]);
      PrefixedTwice(s.log, t0.log, DeliverAll(step, Fresh(t), frames[1..]));
    }
  }

  lemma {:induction false} DeliverConcat(step: Delivery, s: Session, xs: seq<seq<Byte>>, ys: seq<seq<Byte>>)
    ensures DeliverAll(step, s, xs + ys) == DeliverAll(step, DeliverAll(step, s, xs), ys)
    decreases |xs|
  {
    if xs == [] {
      assert xs + ys == ys;
    } else {
      assert (xs + ys)[1..] == xs[1..] + ys;
      DeliverConcat(step, step(s, xs[0]), xs[1..], ys);
    }
  }

  predicate BadCheckSum(f: seq<Byte>) {
    ProtocolFrame(f) && f[|f| - 1] != SumOf(f[..|f| - 1]) % 0x100
  }

  lemma {:induction false} BadFrameIsNoted(env: Env, s: Session, f: seq<Byte>)
    requires BadCheckSum(f)
    ensures Deliver(env, s, f) == Logged(s, ProtocolData(f))
  {
    assert HeaderOf(f).size == |f| - 3;
  }

  /** `t` is `s` with one more event, noted when the log was `log`. */
  predicate NotedAfter(t: Session, s: Session, log: seq<Event>, e: Event) {
    log <= s.log && t == s.(log := log + [e] + s.log[|log|..])
  }

  lemma {:induction false} InsertedFrame(step: Delivery, s: Session,
                                         xs: seq<seq<Byte>>, bad: seq<Byte>, ys: seq<seq<Byte>>)
    requires LogBlind(step) && forall t :: step(t, bad) == Logged(t, ProtocolData(bad))
    ensures NotedAfter(DeliverAll(step, s, xs + [bad] + ys), DeliverAll(step, s, xs + ys),
                       DeliverAll(step, s, xs).log, ProtocolData(bad))
  {
    var a := DeliverAll(step, s, xs);
    var b := Logged(a, ProtocolData(bad));
    DeliverConcat(step, s, xs, ys);
    DeliverConcat(step, s, xs + [bad], ys);
    DeliverConcat(step, s, xs, [bad]);
    assert [bad][1..] == [];
    assert DeliverAll(step, a, [bad]) == DeliverAll(step, step(a, bad), []) == b;
    DeliverAllIsBlind(step, a, ys);
    DeliverAllIsBlind(step, b, ys);
    assert Fresh(a) == Fresh(b);
  }

  /** A protocol frame with a bad check sum, anywhere among well-formed frames and however the stream
      is split, costs nothing but itself: the client ends where it would have ended without the frame,
      except that the log shows the frame in its place. */
  lemma {:induction false} BadCheckSumSkipped(env: Env, c: Client, xs: seq<seq<Byte>>, bad: seq<Byte>,
                                              ys: seq<seq<Byte>>, chunks: seq<seq<Byte>>, rest: seq<seq<Byte>>)
    requires c.running && !c.failed && c.buffer == []
    requires WellFormed(xs) && BadCheckSum(bad) && WellFormed(ys)
    requires Concat(chunks) == Concat(xs + [bad] + ys) && Concat(rest) == Concat(xs + ys)
    ensures var d, e := FeedAll(env, c, chunks), FeedAll(env, c, rest);
            && d == e.(session := d.session)
            && NotedAfter(d.session, e.session, DeliverAll(DeliveryIn(env), c.session, xs).log, ProtocolData(bad))
  {
    var step := DeliveryIn(env);
    FeedFrames(env, step, c, xs + [bad] + ys, chunks);
    FeedFrames(env, step, c, xs + ys, rest);
    DeliveryIsBlind(env);
    forall t
      ensures step(t, bad) == Logged(t, ProtocolData(bad))
    {
      BadFrameIsNoted(env, t, bad);
    }
    InsertedFrame(step, c.session, xs, bad, ys);
  }

  // ----- which serialized messages survive

  /** A serialized message followed by anything is cut out as one protocol frame, except that a
      DataResponse102 whose MsgSize has the high byte 0x1B is taken for market data, and one whose
      MsgSize wrapped is cut short. */
  lemma {:induction false} SerializedIsCutIff(m: Message, rest: seq<Byte>)
    ensures NextCut(Frame(m) + rest) == Protocol(|Frame(m)|)
            <==> !(m.DataResponse102? && (6889 <= |m.data| <= 7144 || |m.data| > 65_512))
  {
    if m.DataResponse102? && |m.data| > 65_512 {
      WrappedIsCutShort(m, rest);
    } else {
      FrameIsFramed(m);
      SizeFits(m);
      FramedIsCutIff(Frame(m), rest);
    }
  }

  lemma {:induction false} WrappedIsCutShort(m: Message, rest: seq<Byte>)
    requires m.DataResponse102? && |m.data| > 65_512
    ensures NextCut(Frame(m) + rest) != Protocol(|Frame(m)|)
  {
    FrameHeader(m, rest);
    var s := Frame(m) + rest;
    assert Get16(s, 0) == SizeField(m) < |Frame(m)| - 3;
  }

  lemma {:induction false} FramedIsCutIff(f: seq<Byte>, rest: seq<Byte>)
    requires Framed(f)
    ensures f[0] == ESC <==> 0x1B00 <= Get16(f, 0) < 0x1C00
    ensures NextCut(f + rest) == Protocol(|f|) <==> f[0] != ESC
  {
    assert Get16(f + rest, 0) == Get16(f, 0);
  }

  lemma {:induction false} DeliverDecoded(env: Env, s: Session, f: seq<Byte>, m: Message)
    requires ProtocolFrame(f) && HeaderOf(f).kind == KindOf(m) && Decode(KindOf(m), f) == Some(m)
    ensures Deliver(env, s, f) == React(env, Logged(s, ProtocolData(f)), m)
  {
  }

  lemma {:induction false} Cuttable(m: Message)
    requires m.DataResponse102? ==> |m.data| <= 65_512 && !(6889 <= |m.data| <= 7144)
    ensures Framed(Frame(m)) && Frame(m)[0] != ESC
  {
    FrameIsFramed(m);
    SizeFits(m);
    FramedIsCutIff(Frame(m), []);
  }

  lemma {:induction false} DecodesAlone(m: Message)
    requires m.DataResponse102? ==> |m.data| <= 65_512
    ensures HeaderOf(Frame(m)).kind == KindOf(m) && Decode(KindOf(m), Frame(m)) == Some(Stamped(m))
  {
    FrameHeader(m, []);
    RoundTripIff(m, []);
    assert Frame(m) + [] == Frame(m);
  }

  lemma {:induction false} ServerFrameHandled(env: Env, s: Session, m: Message)
    requires m.DataResponse102? ==> |m.data| <= 65_512 && !(6889 <= |m.data| <= 7144)
    ensures ProtocolFrame(Frame(m))
    ensures Deliver(env, s, Frame(m)) == React(env, Logged(s, ProtocolData(Frame(m))), Stamped(m))
  {
    Cuttable(m);
    DecodesAlone(m);
    DeliverDecoded(env, s, Frame(m), Stamped(m));
  }

  /** `t` after the answer was built and sent, or after sending it lost the connection. */
  function Answered(env: Env, t: Session, answer: Message): Session {
    var r := t.(nextSeq := (t.nextSeq + 1) % 0x1_0000_0000, built := t.built + 1);
    if env(t.built).delivered then r.(log := t.log + [Built(answer), Transmitted(Frame(answer))])
    else r.(connected := false, loggedIn := false, log := t.log + [Built(answer), Disconnected])
  }

  lemma {:induction false} SendIsAnswer(env: Env, t: Session, answer: Message)
    requires t.connected
    ensures Send(env, t, answer) == Answered(env, t, answer)
  {
    var bytes := Frame(answer);
    assert t.log + [Built(answer)] + [Transmitted(bytes)] == t.log + [Built(answer), Transmitted(bytes)];
    assert t.log + [Built(answer)] + [Disconnected] == t.log + [Built(answer), Disconnected];
  }

  lemma {:induction false} ReactionTo(env: Env, t: Session, m: Message)
    ensures React(env, t, m) ==
            if m.RetransmissionStart050? then t.(loggedIn := true, log := t.log + [LoggedIn])
            else if m.ErrorNotification010? then t.(loggedIn := false, log := t.log + [ErrorReported(m)])
            else if m.DataResponse102? then t.(log := t.log + [Status(m)])
            else if m.HeartbeatServer104? && t.connected
            then Answered(env, t, HeartbeatClient105(Header(0, 0, t.nextSeq, env(t.built).time)))
            else t
  {
    if m.HeartbeatServer104? && t.connected {
      SendIsAnswer(env, t, HeartbeatClient105(NextHeader(env, t)));
    }
  }

  /** Once delivered, a start message opens the login, an error closes it, a data response reaches the
      status callback with the fields it was sent with, and a server heartbeat is answered with the
      next sequence number; nothing else changes the session. */
  lemma {:induction false} ServerMessageTakesEffect(env: Env, s: Session, m: Message, t: Session)
    requires m.DataResponse102? ==> |m.data| <= 65_512 && !(6889 <= |m.data| <= 7144)
    requires t == s.(log := s.log + [ProtocolData(Frame(m))])
    ensures ProtocolFrame(Frame(m))
    ensures Deliver(env, s, Frame(m)) ==
            if m.RetransmissionStart050? then t.(loggedIn := true, log := t.log + [LoggedIn])
            else if m.ErrorNotification010? then t.(loggedIn := false, log := t.log + [ErrorReported(Stamped(m))])
            else if m.DataResponse102? then t.(log := t.log + [Status(Stamped(m))])
            else if m.HeartbeatServer104? && s.connected
            then Answered(env, t, HeartbeatClient105(Header(0, 0, s.nextSeq, env(s.built).time)))
            else t
  {
    ServerFrameHandled(env, s, m);
    ReactionTo(env, t, Stamped(m));
  }

  // ----- one changed byte in a stream

  lemma {:induction false} ChangedIsBad(f: seq<Byte>, i: nat, b: Byte)
    requires Framed(f) && f[0] != ESC && 2 <= i < |f| && b != f[i]
    ensures BadCheckSum(f[i := b])
  {
    var n := |f| - 1;
    var changed := f[i := b];
    assert Get16(changed, 0) == Get16(f, 0);
    if i < n {
      assert changed[..n] == f[..n][i := b];
      SumDetectsOneByte(f[..n], i, b);
    } else {
      assert changed[..n] == f[..n];
    }
  }

  /** One changed byte after MsgSize, in any serialized message that can be cut out, costs the stream
      only that message: wherever it is among other frames and however the stream is split, the client
      ends where it would have ended without the message, but for the log entry of the changed frame. */
  lemma {:induction false} ChangedByteCostsOneFrame(env: Env, c: Client, xs: seq<seq<Byte>>, m: Message, i: nat,
                                                    b: Byte, ys: seq<seq<Byte>>, chunks: seq<seq<Byte>>,
                                                    rest: seq<seq<Byte>>)
    requires c.running && !c.failed && c.buffer == [] && WellFormed(xs) && WellFormed(ys)
    requires m.DataResponse102? ==> |m.data| <= 65_512 && !(6889 <= |m.data| <= 7144)
    requires 2 <= i < |Frame(m)| && b != Frame(m)[i]
    requires Concat(chunks) == Concat(xs + [Frame(m)[i := b]] + ys) && Concat(rest) == Concat(xs + ys)
    ensures var d, e := FeedAll(env, c, chunks), FeedAll(env, c, rest);
            && d == e.(session := d.session)
            && NotedAfter(d.session, e.session, DeliverAll(DeliveryIn(env), c.session, xs).log,
                          ProtocolData(Frame(m)[i := b]))
  {
    Cuttable(m);
    ChangedIsBad(Frame(m), i, b);
    BadCheckSumSkipped(env, c, xs, Frame(m)[i := b], ys, chunks, rest);
  }
}

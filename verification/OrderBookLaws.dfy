/** The algebra of the order book: who decides each level, what a snapshot is worth,
    and what can be restored from the queries. */
module OrderBookLaws {
  import opened Bytes
  import opened PackBcd
  import opened MessageBodies
  import opened OrderBook

  // ----- last writer wins

  /** A place in the book that an entry can address. */
  datatype Slot = BidAt(price: int) | AskAt(price: int) | DerivedBid | DerivedAsk

  function LevelAt(side: Side, p: int): Option<Level> {
    if p in side then Some(Level(p, side[p])) else None
  }

  /** What the book shows at a slot. */
  function At(b: Book, s: Slot): Option<Level> {
    match s
    case BidAt(p) => LevelAt(b.bids, p)
    case AskAt(p) => LevelAt(b.asks, p)
    case DerivedBid => b.derivedBid
    case DerivedAsk => b.derivedAsk
  }

  /** The price an entry means: negative under the sign '-'. */
  function MeantPrice(q: Quote): int {
    if q.sign == 0x2D && q.price > 0 then -q.price else q.price
  }

  /** Its quantity, as an unsigned 64-bit number. */
  function MeantQuantity(q: Quote): nat {
    q.size % 0x1_0000_0000_0000_0000
  }

  /** Whether the entry addresses the slot with an action that takes effect there: '0' (New) with a
      quantity, '1' (Change) or '2' (Delete) on a bid '0' or ask '1'; '5' (Overlay) on a derived quote,
      'E' or 'F'. */
  predicate Writes(e: UpdateEntry, s: Slot) {
    var effective := (e.action == 0x30 && MeantQuantity(e.quote) > 0) || e.action == 0x31 || e.action == 0x32;
    match s
    case BidAt(p) => e.quote.kind == 0x30 && MeantPrice(e.quote) == p && effective
    case AskAt(p) => e.quote.kind == 0x31 && MeantPrice(e.quote) == p && effective
    case DerivedBid => e.quote.kind == 0x45 && e.action == 0x35
    case DerivedAsk => e.quote.kind == 0x46 && e.action == 0x35
  }

  /** What a writing entry leaves behind: nothing for Delete, for Change to zero and for an
      all-zero Overlay; its own price and quantity otherwise. */
  function Outcome(e: UpdateEntry): Option<Level> {
    var price, quantity := MeantPrice(e.quote), MeantQuantity(e.quote);
    if e.action == 0x32 || (quantity == 0 && (e.action != 0x35 || price == 0)) then None
    else Some(Level(price, quantity))
  }

  /** The entries that write a slot, in order. */
  function Writers(es: seq<UpdateEntry>, s: Slot): seq<UpdateEntry> {
    if es == [] then [] else
      var e := es[|es| - 1];
      Writers(es[..|es| - 1], s) + if Writes(e, s) then [e] else []
  }

  lemma {:induction false} EntryEffect(b: Book, e: UpdateEntry, s: Slot)
    ensures At(ApplyEntry(b, e), s) == if Writes(e, s) then Outcome(e) else At(b, s)
  {
  }

  /** After any list of entries each slot shows the outcome of the last entry that writes it,
      and what it showed before if none does. */
  lemma {:induction false} LastWriterWins(b: Book, es: seq<UpdateEntry>, s: Slot)
    ensures var ws := Writers(es, s);
            At(ApplyEntries(b, es), s) == if ws == [] then At(b, s) else Outcome(ws[|ws| - 1])
  {
    if es != [] {
      var n := |es| - 1;
      LastWriterWins(b, es[..n], s);
      EntryEffect(ApplyEntries(b, es[..n]), es[n], s);
    }
  }

  lemma {:induction false} EntriesKeepRest(b: Book, es: seq<UpdateEntry>)
    ensures var c := ApplyEntries(b, es);
            c.productId == b.productId && c.decimalLocator == b.decimalLocator && c.lastSeq == b.lastSeq
  {
    if es != [] {
      EntriesKeepRest(b, es[..|es| - 1]);
    }
  }

  lemma {:induction false} LevelsDetermineSide(x: Side, y: Side)
    requires forall p :: LevelAt(x, p) == LevelAt(y, p)
    ensures x == y
  {
    forall p
      ensures p in x <==> p in y
      ensures p in x ==> x[p] == y[p]
    {
      assert LevelAt(x, p) == LevelAt(y, p);
    }
  }

  /** A book is determined by its identity, its sequence and what its slots show. */
  lemma {:induction false} SlotsDetermineBook(b: Book, c: Book)
    requires b.productId == c.productId && b.decimalLocator == c.decimalLocator && b.lastSeq == c.lastSeq
    requires forall s: Slot :: At(b, s) == At(c, s)
    ensures b == c
  {
    forall p
      ensures LevelAt(b.bids, p) == LevelAt(c.bids, p) && LevelAt(b.asks, p) == LevelAt(c.asks, p)
    {
      assert At(b, BidAt(p)) == At(c, BidAt(p)) && At(b, AskAt(p)) == At(c, AskAt(p));
    }
    LevelsDetermineSide(b.bids, c.bids);
    LevelsDetermineSide(b.asks, c.asks);
    assert At(b, DerivedBid) == At(c, DerivedBid) && At(b, DerivedAsk) == At(c, DerivedAsk);
  }

  /** Entries may be reordered freely as long as each slot's own writers keep their order. */
  lemma {:induction false} ReorderAcrossSlots(b: Book, es: seq<UpdateEntry>, fs: seq<UpdateEntry>)
    requires forall s: Slot :: Writers(es, s) == Writers(fs, s)
    ensures ApplyEntries(b, es) == ApplyEntries(b, fs)
  {
    EntriesKeepRest(b, es);
    EntriesKeepRest(b, fs);
    forall s: Slot
      ensures At(ApplyEntries(b, es), s) == At(ApplyEntries(b, fs), s)
    {
      LastWriterWins(b, es, s);
      LastWriterWins(b, fs, s);
    }
    SlotsDetermineBook(ApplyEntries(b, es), ApplyEntries(b, fs));
  }

  /** In particular two neighbouring entries on different prices or sides commute. */
  lemma {:induction false} DifferentSlotsCommute(b: Book, es: seq<UpdateEntry>, e: UpdateEntry, f: UpdateEntry)
    requires forall s: Slot :: !(Writes(e, s) && Writes(f, s))
    ensures ApplyEntries(b, es + [e] + [f]) == ApplyEntries(b, es + [f] + [e])
  {
    forall s: Slot
      ensures Writers(es + [e] + [f], s) == Writers(es + [f] + [e], s)
    {
      WritersSnoc(es, e, s);
      WritersSnoc(es, f, s);
      WritersSnoc(es + [e], f, s);
      WritersSnoc(es + [f], e, s);
    }
    ReorderAcrossSlots(b, es + [e] + [f], es + [f] + [e]);
  }

  lemma {:induction false} WritersSnoc(es: seq<UpdateEntry>, e: UpdateEntry, s: Slot)
    ensures Writers(es + [e], s) == Writers(es, s) + if Writes(e, s) then [e] else []
  {
    assert (es + [e])[..|es|] == es;
  }

  /** An update with an old sequence number still changes the book, unless every slot it writes
      already shows what it leaves there. */
  lemma {:induction false} OldUpdateIgnoredIff(b: Book, m: UpdateMessage)
    requires m.prodMsgSeq <= b.lastSeq
    ensures Update(b, m) == b <==>
            forall s: Slot :: var ws := Writers(m.entries, s); ws == [] || Outcome(ws[|ws| - 1]) == At(b, s)
  {
    EntriesKeepRest(b, m.entries);
    forall s: Slot
      ensures var ws := Writers(m.entries, s);
              At(Update(b, m), s) == if ws == [] then At(b, s) else Outcome(ws[|ws| - 1])
    {
      LastWriterWins(b, m.entries, s);
    }
    if forall s: Slot :: var ws := Writers(m.entries, s); ws == [] || Outcome(ws[|ws| - 1]) == At(b, s) {
      SlotsDetermineBook(Update(b, m), b);
    }
  }

  /** A concrete book that an older update does change. */
  lemma {:induction false} OldUpdateApplied()
    ensures var b := NewBook([], 0).(lastSeq := 7);
            var m := UpdateMessage([], 3, [UpdateEntry(NEW, Quote(BUY, PLUS, 100, 5, 1))]);
            Update(b, m).bids == map[100 := 5] && Update(b, m).lastSeq == 7
  {
    var b := NewBook([], 0).(lastSeq := 7);
    var e := UpdateEntry(NEW, Quote(BUY, PLUS, 100, 5, 1));
    assert [e][..0] == [];
    assert ApplyEntries(b, []) == b;
    assert ApplyEntries(b, [e]) == ApplyEntry(b, e);
  }

  // ----- runs

  datatype Op = DoUpdate(update: UpdateMessage) | DoSnapshot(snapshot: SnapshotMessage) | DoReset

  function Apply(b: Book, op: Op): Book {
    match op
    case DoUpdate(m) => Update(b, m)
    case DoSnapshot(m) => Snapshot(b, m)
    case DoReset => Cleared(b)
  }

  function Run(b: Book, ops: seq<Op>): Book {
    if ops == [] then b else Apply(Run(b, ops[..|ops| - 1]), ops[|ops| - 1])
  }

  lemma {:induction false} RunConcat(b: Book, xs: seq<Op>, ys: seq<Op>)
    ensures Run(b, xs + ys) == Run(Run(b, xs), ys)
    decreases |ys|
  {
    if ys == [] {
      assert xs + ys == xs;
    } else {
      var n := |ys| - 1;
      assert (xs + ys)[..|xs| + n] == xs + ys[..n];
      RunConcat(b, xs, ys[..n]);
    }
  }

  lemma {:induction false} QuotesKeepRest(b: Book, flag: Byte, qs: seq<Quote>)
    ensures var c := PlaceQuotes(b, flag, qs);
            c.productId == b.productId && c.decimalLocator == b.decimalLocator && c.lastSeq == b.lastSeq
  {
    if qs != [] {
      QuotesKeepRest(b, flag, qs[..|qs| - 1]);
    }
  }

  /** No operation changes which product a book is for. */
  lemma {:induction false} RunKeepsIdentity(b: Book, ops: seq<Op>)
    ensures Run(b, ops).productId == b.productId && Run(b, ops).decimalLocator == b.decimalLocator
  {
    if ops != [] {
      var n := |ops| - 1;
      RunKeepsIdentity(b, ops[..n]);
      var c := Run(b, ops[..n]);
      match ops[n] {
        case DoUpdate(m) => EntriesKeepRest(c.(lastSeq := Update(c, m).lastSeq), m.entries);
                            EntriesKeepRest(c.(lastSeq := m.prodMsgSeq), m.entries);
                            EntriesKeepRest(c, m.entries);
        case DoSnapshot(m) => QuotesKeepRest(Cleared(c).(lastSeq := m.prodMsgSeq), m.calculatedFlag, m.entries);
        case DoReset =>
      }
    }
  }

  // ----- a snapshot is a reset followed by an update

  /** A snapshot entry as an update entry: New for the two sides, Overlay for the derived quotes,
      which count only under the flag '0'. */
  function AsUpdate(flag: Byte, q: Quote): seq<UpdateEntry> {
    if q.kind == 0x30 || q.kind == 0x31 then [UpdateEntry(0x30, q)]
    else if flag == 0x30 then [UpdateEntry(0x35, q)]
    else []
  }

  function AsUpdates(flag: Byte, qs: seq<Quote>): seq<UpdateEntry> {
    if qs == [] then [] else AsUpdates(flag, qs[..|qs| - 1]) + AsUpdate(flag, qs[|qs| - 1])
  }

  function Replay(m: SnapshotMessage): UpdateMessage {
    UpdateMessage(m.prodId, m.prodMsgSeq, AsUpdates(m.calculatedFlag, m.entries))
  }

  lemma {:induction false} ApplySnoc(b: Book, es: seq<UpdateEntry>, e: UpdateEntry)
    ensures ApplyEntries(b, es + [e]) == ApplyEntry(ApplyEntries(b, es), e)
  {
    assert (es + [e])[..|es|] == es;
  }

  lemma {:induction false} QuoteIsUpdate(b: Book, flag: Byte, q: Quote)
    ensures PlaceQuote(b, flag, q) ==
            var es := AsUpdate(flag, q); if es == [] then b else ApplyEntry(b, es[0])
  {
  }

  lemma {:induction false} QuotesAreUpdates(b: Book, flag: Byte, qs: seq<Quote>)
    ensures PlaceQuotes(b, flag, qs) == ApplyEntries(b, AsUpdates(flag, qs))
  {
    if qs != [] {
      var n := |qs| - 1;
      var es, last := AsUpdates(flag, qs[..n]), AsUpdate(flag, qs[n]);
      QuotesAreUpdates(b, flag, qs[..n]);
      QuoteIsUpdate(PlaceQuotes(b, flag, qs[..n]), flag, qs[n]);
      AppendAtMostOne(b, es, last);
    }
  }

  lemma {:induction false} AppendAtMostOne(b: Book, es: seq<UpdateEntry>, last: seq<UpdateEntry>)
    requires |last| <= 1
    ensures ApplyEntries(b, es + last) ==
            if last == [] then ApplyEntries(b, es) else ApplyEntry(ApplyEntries(b, es), last[0])
  {
    if last == [] {
      assert es + last == es;
    } else {
      assert last == [last[0]];
      ApplySnoc(b, es, last[0]);
    }
  }

  lemma {:induction false} SnapshotIsReplay(b: Book, m: SnapshotMessage)
    ensures Snapshot(b, m) == Update(Cleared(b), Replay(m))
  {
    QuotesAreUpdates(Cleared(b).(lastSeq := m.prodMsgSeq), m.calculatedFlag, m.entries);
  }

  /** Whatever came before a snapshot or a reset, only it and what follows decide the book. */
  lemma {:induction false} SuffixDecides(b: Book, before: seq<Op>, op: Op, after: seq<Op>)
    requires op.DoSnapshot? || op.DoReset?
    ensures Run(b, before + [op] + after) == Run(NewBook(b.productId, b.decimalLocator), [op] + after)
  {
    var blank := NewBook(b.productId, b.decimalLocator);
    RunConcat(b, before + [op], after);
    RunConcat(b, before, [op]);
    RunConcat(blank, [op], after);
    RunKeepsIdentity(b, before);
    assert [op][..0] == [];
    assert Run(blank, []) == blank && Run(Run(b, before), []) == Run(b, before);
    assert Run(blank, [op]) == Apply(blank, op);
    assert Run(Run(b, before), [op]) == Apply(Run(b, before), op);
  }

  /** After updates alone the stored sequence is the largest of the starting one and theirs. */
  lemma {:induction false} SequenceIsMaximum(b: Book, ms: seq<UpdateMessage>, ops: seq<Op>)
    requires |ops| == |ms| && forall i | 0 <= i < |ms| :: ops[i] == DoUpdate(ms[i])
    ensures var last := Run(b, ops).lastSeq;
            && last >= b.lastSeq
            && (forall i | 0 <= i < |ms| :: last >= ms[i].prodMsgSeq)
            && (last == b.lastSeq || exists i :: 0 <= i < |ms| && last == ms[i].prodMsgSeq)
  {
    if ms != [] {
      var n := |ms| - 1;
      SequenceIsMaximum(b, ms[..n], ops[..n]);
      var c, m := Run(b, ops[..n]), ms[n];
      EntriesKeepRest(c.(lastSeq := m.prodMsgSeq), m.entries);
      EntriesKeepRest(c, m.entries);
      assert ops[n] == DoUpdate(m);
      var last := Run(b, ops).lastSeq;
      assert last == if m.prodMsgSeq > c.lastSeq then m.prodMsgSeq else c.lastSeq;
      if last == m.prodMsgSeq {
        assert last == ms[n].prodMsgSeq;
      } else if c.lastSeq != b.lastSeq {
        var i :| 0 <= i < n && c.lastSeq == ms[..n][i].prodMsgSeq;
        assert last == ms[i].prodMsgSeq;
      }
    }
  }

  /** In any run that ends in updates after a snapshot or reset, the stored sequence is the largest
      since then: the snapshot's own (0 after a reset) or a later update's. */
  lemma {:induction false} SequenceSinceSnapshot(b: Book, before: seq<Op>, op: Op, ms: seq<UpdateMessage>,
                                                 ops: seq<Op>, base: U32)
    requires op.DoSnapshot? || op.DoReset?
    requires base == if op.DoSnapshot? then op.snapshot.prodMsgSeq else 0
    requires |ops| == |ms| && forall i | 0 <= i < |ms| :: ops[i] == DoUpdate(ms[i])
    ensures var last := Run(b, before + [op] + ops).lastSeq;
            && last >= base
            && (forall i | 0 <= i < |ms| :: last >= ms[i].prodMsgSeq)
            && (last == base || exists i :: 0 <= i < |ms| && last == ms[i].prodMsgSeq)
  {
    RunConcat(b, before + [op], ops);
    RunConcat(b, before, [op]);
    var c := Run(b, before);
    assert [op][..0] == [] && Run(c, []) == c;
    assert Run(c, [op]) == Apply(c, op);
    if op.DoSnapshot? {
      var m := op.snapshot;
      QuotesKeepRest(Cleared(c).(lastSeq := m.prodMsgSeq), m.calculatedFlag, m.entries);
    }
    SequenceIsMaximum(Apply(c, op), ms, ops);
  }

  // ----- the decimal locator

  function Relabelled(b: Book, id: seq<Byte>, locator: Byte): Book {
    b.(productId := id, decimalLocator := locator)
  }

  lemma {:induction false} EntriesRelabelled(b: Book, es: seq<UpdateEntry>, id: seq<Byte>, locator: Byte)
    ensures ApplyEntries(Relabelled(b, id, locator), es) == Relabelled(ApplyEntries(b, es), id, locator)
  {
    if es != [] {
      EntriesRelabelled(b, es[..|es| - 1], id, locator);
    }
  }

  lemma {:induction false} QuotesRelabelled(b: Book, flag: Byte, qs: seq<Quote>, id: seq<Byte>, locator: Byte)
    ensures PlaceQuotes(Relabelled(b, id, locator), flag, qs) == Relabelled(PlaceQuotes(b, flag, qs), id, locator)
  {
    if qs != [] {
      QuotesRelabelled(b, flag, qs[..|qs| - 1], id, locator);
    }
  }

  lemma {:induction false} ApplyRelabelled(b: Book, op: Op, id: seq<Byte>, locator: Byte)
    ensures Apply(Relabelled(b, id, locator), op) == Relabelled(Apply(b, op), id, locator)
  {
    match op {
      case DoUpdate(m) =>
        var last := if m.prodMsgSeq > b.lastSeq || b.lastSeq == 0 then m.prodMsgSeq else b.lastSeq;
        EntriesRelabelled(b.(lastSeq := last), m.entries, id, locator);
      case DoSnapshot(m) =>
        QuotesRelabelled(Cleared(b).(lastSeq := m.prodMsgSeq), m.calculatedFlag, m.entries, id, locator);
      case DoReset =>
    }
  }

  /** Product and locator play no part in what a run does: books that differ in nothing else show the
      same sequence, levels and derived quotes after every run. */
  lemma {:induction false} LocatorPlaysNoPart(b: Book, ops: seq<Op>, id: seq<Byte>, locator: Byte)
    ensures Run(Relabelled(b, id, locator), ops) == Relabelled(Run(b, ops), id, locator)
  {
    if ops != [] {
      var n := |ops| - 1;
      LocatorPlaysNoPart(b, ops[..n], id, locator);
      ApplyRelabelled(Run(b, ops[..n]), ops[n], id, locator);
    }
  }

  lemma {:induction false} ScalesToItselfIff(price: int, locator: nat)
    ensures price * Pow10(locator) == price <==> locator == 0 || price == 0
  {
    if locator > 0 && price != 0 {
      MultipleIsLarge(price, Pow10(locator) - 1);
      assert Pow10(locator) == 10 * Pow10(locator - 1);
      assert price * Pow10(locator) == price * (Pow10(locator) - 1) + price;
    }
  }

  function ScaledQuote(locator: nat, q: Quote): Quote {
    q.(price := q.price * Pow10(locator))
  }

  /** The operation with every price multiplied by 10^locator. */
  function ScaledOp(locator: nat, op: Op): Op {
    match op
    case DoUpdate(m) =>
      var es := m.entries;
      DoUpdate(m.(entries := seq(|es|, i requires 0 <= i < |es| =>
        es[i].(quote := ScaledQuote(locator, es[i].quote)))))
    case DoSnapshot(m) =>
      var qs := m.entries;
      DoSnapshot(m.(entries := seq(|qs|, i requires 0 <= i < |qs| => ScaledQuote(locator, qs[i]))))
    case DoReset => DoReset
  }

  function Scaled(locator: nat, ops: seq<Op>): (r: seq<Op>)
    ensures |r| == |ops| && forall i | 0 <= i < |ops| :: r[i] == ScaledOp(locator, ops[i])
  {
    seq(|ops|, i requires 0 <= i < |ops| => ScaledOp(locator, ops[i]))
  }

  lemma {:induction false} ScaledByZero(ops: seq<Op>)
    ensures Scaled(0, ops) == ops
  {
    forall i | 0 <= i < |ops|
      ensures ScaledOp(0, ops[i]) == ops[i]
    {
      match ops[i] {
        case DoUpdate(m) => assert ScaledOp(0, ops[i]).update.entries == m.entries;
        case DoSnapshot(m) => assert ScaledOp(0, ops[i]).snapshot.entries == m.entries;
        case DoReset =>
      }
    }
  }

  /** A snapshot of the product with one bid of quantity 1. */
  function OneBid(id: seq<Byte>, price: int): Op {
    DoSnapshot(SnapshotMessage(id, 1, NOT_CALCULATED, [Quote(BUY, PLUS, price, 1, 1)]))
  }

  lemma {:induction false} OneBidBook(b: Book, id: seq<Byte>, price: int)
    ensures Run(b, [OneBid(id, price)]).bids == map[price := 1]
  {
    var q := Quote(BUY, PLUS, price, 1, 1);
    var blank := Cleared(b).(lastSeq := 1);
    assert [OneBid(id, price)][..0] == [] && [q][..0] == [];
    assert Run(b, []) == b && PlaceQuotes(blank, NOT_CALCULATED, []) == blank;
    assert PlaceQuotes(blank, NOT_CALCULATED, [q]) == PlaceQuote(blank, NOT_CALCULATED, q);
  }

  lemma {:induction false} OneBidScaled(locator: nat, id: seq<Byte>, price: int)
    ensures Scaled(locator, [OneBid(id, price)]) == [OneBid(id, price * Pow10(locator))]
  {
    var m := ScaledOp(locator, OneBid(id, price));
    assert m.snapshot.entries == [Quote(BUY, PLUS, price * Pow10(locator), 1, 1)];
  }

  /** With any other locator than 0 a single bid at price 1 tells the two apart. */
  lemma {:induction false} ScalingShows(b: Book)
    requires b.decimalLocator != 0
    ensures Run(b, [OneBid(b.productId, 1)]) != Run(b, Scaled(b.decimalLocator, [OneBid(b.productId, 1)]))
  {
    var p := Pow10(b.decimalLocator);
    ScalesToItselfIff(1, b.decimalLocator);
    OneBidScaled(b.decimalLocator, b.productId, 1);
    OneBidBook(b, b.productId, 1);
    OneBidBook(b, b.productId, p);
    assert 1 * p == p && 1 !in map[p := 1];
  }

  /** Prices are said to be scaled by the locator. They are not, and it makes no difference to any run
      exactly when the locator is 0. */
  lemma {:induction false} ScalingIff(b: Book)
    ensures (forall ops :: Run(b, ops) == Run(b, Scaled(b.decimalLocator, ops))) <==> b.decimalLocator == 0
  {
    var k := b.decimalLocator;
    if k == 0 {
      forall ops
        ensures Run(b, ops) == Run(b, Scaled(k, ops))
      {
        ScaledByZero(ops);
      }
    } else {
      ScalingShows(b);
    }
  }
}

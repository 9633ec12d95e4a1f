/** What every reachable book looks like, and how a book is rebuilt from its own queries. */
module OrderBookRecovery {
  import opened Bytes
  import opened MessageBodies
  import opened OrderBook
  import opened OrderBookLaws

  // ----- invariants of reachable books

  /** A shown level has a quantity; a derived quote is never price 0 with quantity 0. */
  predicate CellSound(s: Slot, cell: Option<Level>) {
    cell.Some? ==>
      && cell.value.quantity < 0x1_0000_0000_0000_0000
      && (cell.value.quantity > 0 || (cell.value.price != 0 && (s.DerivedBid? || s.DerivedAsk?)))
      && (s.BidAt? || s.AskAt? ==> cell.value.price == s.price)
  }

  /** The ranges that the wire format imposes. */
  predicate CellInRange(s: Slot, cell: Option<Level>) {
    CellSound(s, cell) &&
    (cell.Some? ==> -999_999_999 <= cell.value.price <= 999_999_999 && cell.value.quantity <= 99_999_999)
  }

  ghost predicate Sound(b: Book) {
    forall s: Slot :: CellSound(s, At(b, s))
  }

  ghost predicate InRange(b: Book) {
    forall s: Slot :: CellInRange(s, At(b, s))
  }

  predicate EntriesInRange(es: seq<UpdateEntry>) {
    forall i | 0 <= i < |es| :: QuoteInRange(es[i].quote)
  }

  lemma {:induction false} OutcomeSound(e: UpdateEntry, s: Slot)
    requires Writes(e, s)
    ensures CellSound(s, Outcome(e))
    ensures QuoteInRange(e.quote) ==> CellInRange(s, Outcome(e))
  {
  }

  lemma {:induction false} WriterIsEntry(es: seq<UpdateEntry>, s: Slot)
    ensures var ws := Writers(es, s);
            ws != [] ==> Writes(ws[|ws| - 1], s) && ws[|ws| - 1] in es
  {
    if es != [] {
      var n := |es| - 1;
      WriterIsEntry(es[..n], s);
      assert es[n] in es && forall e | e in es[..n] :: e in es;
    }
  }

  /** Each slot of the result is one the book had before or the outcome of one of the entries. */
  lemma {:induction false} EntriesKeepSound(b: Book, es: seq<UpdateEntry>)
    ensures Sound(b) ==> Sound(ApplyEntries(b, es))
    ensures InRange(b) && EntriesInRange(es) ==> InRange(ApplyEntries(b, es))
  {
    forall s: Slot
      ensures CellSound(s, At(b, s)) ==> CellSound(s, At(ApplyEntries(b, es), s))
      ensures CellInRange(s, At(b, s)) && EntriesInRange(es) ==> CellInRange(s, At(ApplyEntries(b, es), s))
    {
      LastWriterWins(b, es, s);
      WriterIsEntry(es, s);
      var ws := Writers(es, s);
      if ws != [] {
        OutcomeSound(ws[|ws| - 1], s);
      }
    }
  }

  lemma {:induction false} EmptyIsSound(b: Book)
    requires b.bids == map[] && b.asks == map[] && b.derivedBid == None && b.derivedAsk == None
    ensures Sound(b) && InRange(b)
  {
    forall s: Slot
      ensures At(b, s) == None
    {
    }
  }

  lemma {:induction false} SequenceIsNotShown(b: Book, n: U32)
    ensures Sound(b) ==> Sound(b.(lastSeq := n))
    ensures InRange(b) ==> InRange(b.(lastSeq := n))
  {
    forall s: Slot
      ensures At(b.(lastSeq := n), s) == At(b, s)
    {
    }
  }

  lemma {:induction false} UpdateKeepsSound(b: Book, m: UpdateMessage)
    ensures Sound(b) ==> Sound(Update(b, m))
    ensures InRange(b) && EntriesInRange(m.entries) ==> InRange(Update(b, m))
  {
    var n := if m.prodMsgSeq > b.lastSeq || b.lastSeq == 0 then m.prodMsgSeq else b.lastSeq;
    SequenceIsNotShown(b, n);
    EntriesKeepSound(b.(lastSeq := n), m.entries);
  }

  predicate QuotesInRange(qs: seq<Quote>) {
    forall i | 0 <= i < |qs| :: QuoteInRange(qs[i])
  }

  lemma {:induction false} ReplayInRange(flag: Byte, qs: seq<Quote>)
    requires QuotesInRange(qs)
    ensures EntriesInRange(AsUpdates(flag, qs))
  {
    if qs != [] {
      ReplayInRange(flag, qs[..|qs| - 1]);
    }
  }

  lemma {:induction false} SnapshotIsSound(b: Book, m: SnapshotMessage)
    ensures Sound(Snapshot(b, m))
    ensures QuotesInRange(m.entries) ==> InRange(Snapshot(b, m))
  {
    SnapshotIsReplay(b, m);
    EmptyIsSound(Cleared(b));
    UpdateKeepsSound(Cleared(b), Replay(m));
    if QuotesInRange(m.entries) {
      ReplayInRange(m.calculatedFlag, m.entries);
    }
  }

  predicate OpInRange(op: Op) {
    match op
    case DoUpdate(m) => EntriesInRange(m.entries)
    case DoSnapshot(m) => QuotesInRange(m.entries)
    case DoReset => true
  }

  lemma {:induction false} OpKeepsSound(b: Book, op: Op)
    ensures Sound(b) ==> Sound(Apply(b, op))
    ensures InRange(b) && OpInRange(op) ==> InRange(Apply(b, op))
  {
    match op
    case DoUpdate(m) => UpdateKeepsSound(b, m);
    case DoSnapshot(m) => SnapshotIsSound(b, m);
    case DoReset => EmptyIsSound(Cleared(b));
  }

  /** In every run, whatever the messages, levels have a quantity and derived quotes are not (0, 0). */
  lemma {:induction false} EveryRunIsSound(id: seq<Byte>, locator: Byte, ops: seq<Op>)
    ensures Sound(Run(NewBook(id, locator), ops))
  {
    if ops == [] {
      EmptyIsSound(NewBook(id, locator));
    } else {
      EveryRunIsSound(id, locator, ops[..|ops| - 1]);
      OpKeepsSound(Run(NewBook(id, locator), ops[..|ops| - 1]), ops[|ops| - 1]);
    }
  }

  // ----- rebuilding a book from its queries

  function MapOf(ls: seq<Level>): Side {
    if ls == [] then map[] else MapOf(ls[..|ls| - 1])[ls[|ls| - 1].price := ls[|ls| - 1].quantity]
  }

  predicate DistinctPrices(ls: seq<Level>) {
    forall i, j | 0 <= i < j < |ls| :: ls[i].price != ls[j].price
  }

  predicate OnSide(side: Side, ls: seq<Level>) {
    forall i | 0 <= i < |ls| :: ls[i].price in side && ls[i].quantity == side[ls[i].price]
  }

  lemma {:induction false} OtherPrice(ls: seq<Level>, p: int)
    requires forall i | 0 <= i < |ls| :: ls[i].price != p
    ensures p !in MapOf(ls)
  {
    if ls != [] {
      OtherPrice(ls[..|ls| - 1], p);
    }
  }

  /** Distinct levels of a side form a part of it, one level each. */
  lemma {:induction false} LevelsOfSide(side: Side, ls: seq<Level>)
    requires DistinctPrices(ls) && OnSide(side, ls)
    ensures MapOf(ls).Keys <= side.Keys && |MapOf(ls).Keys| == |ls|
    ensures forall p | p in MapOf(ls) :: MapOf(ls)[p] == side[p]
  {
    if ls != [] {
      var n := |ls| - 1;
      LevelsOfSide(side, ls[..n]);
      OtherPrice(ls[..n], ls[n].price);
      assert MapOf(ls).Keys == MapOf(ls[..n]).Keys + {ls[n].price};
    }
  }

  lemma {:induction false} PartOfSameSize(part: Side, side: Side)
    requires part.Keys <= side.Keys && |part.Keys| == |side.Keys|
    requires forall p | p in part :: part[p] == side[p]
    ensures part == side
  {
    SubsetSize(part.Keys, side.Keys);
    forall p
      ensures LevelAt(part, p) == LevelAt(side, p)
    {
      assert p in part.Keys <==> p in side.Keys;
    }
    LevelsDetermineSide(part, side);
  }

  /** A query that asks for at least the whole side returns it completely. */
  lemma {:induction false} FullQueryIsSide(side: Side, highestFirst: bool, n: nat, out: seq<Level>)
    requires TopLevels(side, highestFirst, n, out) && n >= |side|
    ensures OnSide(side, out) && MapOf(out) == side
  {
    LevelsOfSide(side, out);
    assert |side| == |side.Keys|;
    PartOfSameSize(MapOf(out), side);
  }

  /** A level written as a snapshot entry, sign and magnitude apart. */
  function LevelQuote(kind: Byte, l: Level): (q: Quote)
    ensures PriceOf(q) == l.price
  {
    if l.price < 0 then Quote(kind, MINUS, -l.price, l.quantity, 0)
    else Quote(kind, PLUS, l.price, l.quantity, 0)
  }

  function LevelQuotes(kind: Byte, ls: seq<Level>): (qs: seq<Quote>)
    ensures |qs| == |ls|
    ensures forall i | 0 <= i < |ls| :: qs[i] == LevelQuote(kind, ls[i])
  {
    seq(|ls|, i requires 0 <= i < |ls| => LevelQuote(kind, ls[i]))
  }

  function DerivedQuotes(kind: Byte, cell: Option<Level>): seq<Quote> {
    match cell
    case None => []
    case Some(l) => [LevelQuote(kind, l)]
  }

  /** A snapshot message made of query results. */
  function Restoring(id: seq<Byte>, number: U32, bids: seq<Level>, asks: seq<Level>,
                     derivedBid: Option<Level>, derivedAsk: Option<Level>): SnapshotMessage
  {
    SnapshotMessage(id, number, NOT_CALCULATED,
                    LevelQuotes(BUY, bids) + LevelQuotes(SELL, asks)
                    + DerivedQuotes(DERIVED_BUY, derivedBid) + DerivedQuotes(DERIVED_SELL, derivedAsk))
  }

  lemma {:induction false} PlaceConcat(b: Book, flag: Byte, xs: seq<Quote>, ys: seq<Quote>)
    ensures PlaceQuotes(b, flag, xs + ys) == PlaceQuotes(PlaceQuotes(b, flag, xs), flag, ys)
    decreases |ys|
  {
    if ys == [] {
      assert xs + ys == xs;
    } else {
      var n := |ys| - 1;
      assert (xs + ys)[..|xs| + n] == xs + ys[..n];
      PlaceConcat(b, flag, xs, ys[..n]);
    }
  }

  predicate Quantities(ls: seq<Level>) {
    forall i | 0 <= i < |ls| :: 0 < ls[i].quantity < 0x1_0000_0000_0000_0000
  }

  lemma {:induction false} PlaceLevel(b: Book, l: Level)
    requires 0 < l.quantity < 0x1_0000_0000_0000_0000
    ensures PlaceQuote(b, NOT_CALCULATED, LevelQuote(BUY, l)) == b.(bids := b.bids[l.price := l.quantity])
    ensures PlaceQuote(b, NOT_CALCULATED, LevelQuote(SELL, l)) == b.(asks := b.asks[l.price := l.quantity])
  {
  }

  lemma {:induction false} MergeSnoc(side: Side, ls: seq<Level>)
    requires ls != []
    ensures side + MapOf(ls)
            == (side + MapOf(ls[..|ls| - 1]))[ls[|ls| - 1].price := ls[|ls| - 1].quantity]
  {
  }

  lemma {:induction false} PlaceBids(b: Book, ls: seq<Level>)
    requires Quantities(ls)
    ensures PlaceQuotes(b, NOT_CALCULATED, LevelQuotes(BUY, ls)) == b.(bids := b.bids + MapOf(ls))
  {
    if ls == [] {
      assert b.bids + map[] == b.bids;
    } else {
      var n := |ls| - 1;
      PlaceBids(b, ls[..n]);
      assert LevelQuotes(BUY, ls)[..n] == LevelQuotes(BUY, ls[..n]);
      PlaceLevel(b.(bids := b.bids + MapOf(ls[..n])), ls[n]);
      MergeSnoc(b.bids, ls);
    }
  }

  lemma {:induction false} PlaceAsks(b: Book, ls: seq<Level>)
    requires Quantities(ls)
    ensures PlaceQuotes(b, NOT_CALCULATED, LevelQuotes(SELL, ls)) == b.(asks := b.asks + MapOf(ls))
  {
    if ls == [] {
      assert b.asks + map[] == b.asks;
    } else {
      var n := |ls| - 1;
      PlaceAsks(b, ls[..n]);
      assert LevelQuotes(SELL, ls)[..n] == LevelQuotes(SELL, ls[..n]);
      PlaceLevel(b.(asks := b.asks + MapOf(ls[..n])), ls[n]);
      MergeSnoc(b.asks, ls);
    }
  }

  lemma {:induction false} PlaceOne(b: Book, q: Quote)
    ensures PlaceQuotes(b, NOT_CALCULATED, [q]) == PlaceQuote(b, NOT_CALCULATED, q)
    ensures PlaceQuotes(b, NOT_CALCULATED, []) == b
  {
    assert [q][..0] == [];
  }

  lemma {:induction false} PlaceDerived(b: Book, bid: Option<Level>, ask: Option<Level>)
    requires b.derivedBid == None && b.derivedAsk == None
    requires CellSound(DerivedBid, bid) && CellSound(DerivedAsk, ask)
    ensures PlaceQuotes(PlaceQuotes(b, NOT_CALCULATED, DerivedQuotes(DERIVED_BUY, bid)),
                        NOT_CALCULATED, DerivedQuotes(DERIVED_SELL, ask))
            == b.(derivedBid := bid, derivedAsk := ask)
  {
    var c := PlaceQuotes(b, NOT_CALCULATED, DerivedQuotes(DERIVED_BUY, bid));
    PlaceOne(b, if bid.Some? then LevelQuote(DERIVED_BUY, bid.value) else Quote(0, 0, 0, 0, 0));
    assert c == b.(derivedBid := bid);
    PlaceOne(c, if ask.Some? then LevelQuote(DERIVED_SELL, ask.value) else Quote(0, 0, 0, 0, 0));
  }

  lemma {:induction false} SideQuantities(b: Book, bids: seq<Level>, asks: seq<Level>)
    requires Sound(b) && OnSide(b.bids, bids) && OnSide(b.asks, asks)
    ensures Quantities(bids) && Quantities(asks)
  {
    forall i | 0 <= i < |bids|
      ensures 0 < bids[i].quantity < 0x1_0000_0000_0000_0000
    {
      assert CellSound(BidAt(bids[i].price), At(b, BidAt(bids[i].price)));
    }
    forall i | 0 <= i < |asks|
      ensures 0 < asks[i].quantity < 0x1_0000_0000_0000_0000
    {
      assert CellSound(AskAt(asks[i].price), At(b, AskAt(asks[i].price)));
    }
  }

  lemma {:induction false} PlaceAll(b: Book, bids: seq<Level>, asks: seq<Level>,
                                    derivedBid: Option<Level>, derivedAsk: Option<Level>)
    requires Quantities(bids) && Quantities(asks) && b.derivedBid == None && b.derivedAsk == None
    requires CellSound(DerivedBid, derivedBid) && CellSound(DerivedAsk, derivedAsk)
    ensures PlaceQuotes(b, NOT_CALCULATED,
                        LevelQuotes(BUY, bids) + LevelQuotes(SELL, asks)
                        + DerivedQuotes(DERIVED_BUY, derivedBid) + DerivedQuotes(DERIVED_SELL, derivedAsk))
            == b.(bids := b.bids + MapOf(bids), asks := b.asks + MapOf(asks),
                  derivedBid := derivedBid, derivedAsk := derivedAsk)
  {
    var xs, ys := LevelQuotes(BUY, bids), LevelQuotes(SELL, asks);
    var zs, ws := DerivedQuotes(DERIVED_BUY, derivedBid), DerivedQuotes(DERIVED_SELL, derivedAsk);
    PlaceConcat(b, NOT_CALCULATED, xs + ys + zs, ws);
    PlaceConcat(b, NOT_CALCULATED, xs + ys, zs);
    PlaceConcat(b, NOT_CALCULATED, xs, ys);
    PlaceBids(b, bids);
    var withBids := b.(bids := b.bids + MapOf(bids));
    PlaceAsks(withBids, asks);
    PlaceDerived(withBids.(asks := b.asks + MapOf(asks)), derivedBid, derivedAsk);
  }

  lemma {:induction false} LevelsRestoreBook(b: Book, c: Book, number: U32, bids: seq<Level>, asks: seq<Level>)
    requires Sound(b) && OnSide(b.bids, bids) && OnSide(b.asks, asks)
    requires MapOf(bids) == b.bids && MapOf(asks) == b.asks
    ensures Snapshot(c, Restoring(b.productId, number, bids, asks, b.derivedBid, b.derivedAsk))
            == b.(productId := c.productId, decimalLocator := c.decimalLocator, lastSeq := number)
  {
    SideQuantities(b, bids, asks);
    assert CellSound(DerivedBid, At(b, DerivedBid)) && CellSound(DerivedAsk, At(b, DerivedAsk));
    PlaceAll(Cleared(c).(lastSeq := number), bids, asks, b.derivedBid, b.derivedAsk);
    assert map[] + b.bids == b.bids && map[] + b.asks == b.asks;
  }

  /** A snapshot built from the full queries and the derived quotes of a reachable book reproduces
      its bids, asks and derived quotes in any book it is applied to. */
  lemma {:induction false} QueriesRestoreBook(b: Book, c: Book, number: U32, n: nat, m: nat,
                                              bids: seq<Level>, asks: seq<Level>)
    requires Sound(b)
    requires TopLevels(b.bids, true, n, bids) && n >= |b.bids|
    requires TopLevels(b.asks, false, m, asks) && m >= |b.asks|
    ensures Snapshot(c, Restoring(b.productId, number, bids, asks, b.derivedBid, b.derivedAsk))
            == b.(productId := c.productId, decimalLocator := c.decimalLocator, lastSeq := number)
  {
    FullQueryIsSide(b.bids, true, n, bids);
    FullQueryIsSide(b.asks, false, m, asks);
    LevelsRestoreBook(b, c, number, bids, asks);
  }

  lemma {:induction false} QuoteOfLevelInRange(b: Book, s: Slot, kind: Byte)
    requires InRange(b) && At(b, s).Some?
    ensures QuoteInRange(LevelQuote(kind, At(b, s).value))
  {
    assert CellInRange(s, At(b, s));
  }

  lemma {:induction false} DerivedInRange(b: Book, s: Slot, kind: Byte)
    requires InRange(b)
    ensures QuotesInRange(DerivedQuotes(kind, At(b, s)))
  {
    if At(b, s).Some? {
      QuoteOfLevelInRange(b, s, kind);
    }
  }

  lemma {:induction false} SidesInRange(b: Book, bids: seq<Level>, asks: seq<Level>)
    requires InRange(b)
    requires OnSide(b.bids, bids) && OnSide(b.asks, asks)
    ensures QuotesInRange(LevelQuotes(BUY, bids)) && QuotesInRange(LevelQuotes(SELL, asks))
  {
    forall i | 0 <= i < |bids|
      ensures QuoteInRange(LevelQuote(BUY, bids[i]))
    {
      assert At(b, BidAt(bids[i].price)) == Some(bids[i]);
      QuoteOfLevelInRange(b, BidAt(bids[i].price), BUY);
    }
    forall i | 0 <= i < |asks|
      ensures QuoteInRange(LevelQuote(SELL, asks[i]))
    {
      assert At(b, AskAt(asks[i].price)) == Some(asks[i]);
      QuoteOfLevelInRange(b, AskAt(asks[i].price), SELL);
    }
  }

  lemma {:induction false} RestoringInRange(b: Book, number: U32, bids: seq<Level>, asks: seq<Level>,
                                            snap: SnapshotMessage)
    requires InRange(b) && |b.productId| == PROD_ID_SIZE && |snap.entries| < 100
    requires OnSide(b.bids, bids) && OnSide(b.asks, asks)
    requires snap == Restoring(b.productId, number, bids, asks, b.derivedBid, b.derivedAsk)
    ensures SnapshotInRange(snap)
  {
    SidesInRange(b, bids, asks);
    DerivedInRange(b, DerivedBid, DERIVED_BUY);
    DerivedInRange(b, DerivedAsk, DERIVED_SELL);
  }

  lemma {:induction false} RestoringParses(b: Book, number: U32, bids: seq<Level>, asks: seq<Level>,
                                           trailing: seq<Byte>, snap: SnapshotMessage)
    requires InRange(b) && |b.productId| == PROD_ID_SIZE && |snap.entries| < 100
    requires OnSide(b.bids, bids) && OnSide(b.asks, asks)
    requires snap == Restoring(b.productId, number, bids, asks, b.derivedBid, b.derivedAsk)
    ensures SnapshotInRange(snap) && SnapshotOf(SnapshotBytes(snap, number) + trailing) == Some(snap)
  {
    RestoringInRange(b, number, bids, asks, snap);
    assert snap.prodMsgSeq == number;
    SnapshotUnchanged(snap, trailing);
  }

  /** The same through the wire format, as long as the two-digit entry count can tell the entries:
      encode the snapshot, parse it, apply it. */
  lemma {:induction false} RestoreOverTheWire(b: Book, c: Book, number: U32, n: nat, m: nat, bids: seq<Level>,
                                              asks: seq<Level>, trailing: seq<Byte>, snap: SnapshotMessage)
    requires InRange(b) && |b.productId| == PROD_ID_SIZE && |snap.entries| < 100
    requires TopLevels(b.bids, true, n, bids) && n >= |b.bids|
    requires TopLevels(b.asks, false, m, asks) && m >= |b.asks|
    requires snap == Restoring(b.productId, number, bids, asks, b.derivedBid, b.derivedAsk)
    ensures SnapshotInRange(snap) && SnapshotOf(SnapshotBytes(snap, number) + trailing) == Some(snap)
    ensures Snapshot(c, snap)
            == b.(productId := c.productId, decimalLocator := c.decimalLocator, lastSeq := number)
  {
    FullQueryIsSide(b.bids, true, n, bids);
    FullQueryIsSide(b.asks, false, m, asks);
    RestoringParses(b, number, bids, asks, trailing, snap);
    assert Sound(b);
    LevelsRestoreBook(b, c, number, bids, asks);
  }
}

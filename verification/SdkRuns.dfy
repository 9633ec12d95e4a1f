/** Whole runs of the SDK: each book depends only on its own product's messages. */
module SdkRuns {
  import opened Bytes
  import opened PackBcd
  import H = CommonHeader
  import opened MessageBodies
  import opened ProductBody
  import opened OrderBook
  import L = OrderBookLaws
  import R = OrderBookRecovery
  import opened TaifexSdk

  /** I010, I081 and I083 arrive as what their bodies parse to. */
  datatype Event =
    | I010(product: Option<ProductMessage>)
    | I081(update: Option<UpdateMessage>)
    | I083(snapshot: Option<SnapshotMessage>)
    | SequenceReset(channel: nat)
    | Header(channel: nat, number: nat)

  /** The message bodies of the event came off the wire. */
  ghost predicate FromWire(e: Event) {
    && (e.I010? ==> exists body :: e.product == ProductOf(body))
    && (e.I081? ==> exists body :: e.update == UpdateOf(body))
    && (e.I083? ==> exists body :: e.snapshot == SnapshotOf(body))
  }

  ghost predicate AllFromWire(events: seq<Event>) {
    forall i | 0 <= i < |events| :: FromWire(events[i])
  }

  function Next(s: Sdk, e: Event): Sdk {
    match e
    case I010(product) => if product.Some? then ProductCached(s, product.value) else s
    case I081(update) => if update.Some? then BookUpdated(s, update.value) else s
    case I083(snapshot) => if snapshot.Some? then BookReplaced(s, snapshot.value) else s
    case SequenceReset(channel) => ChannelReset(s, channel)
    case Header(channel, number) => Track(s, channel, number)
  }

  /** The handlers for raw bodies are these steps; an I002 whose channel throws is none. */
  lemma {:induction false} HandlersAreSteps(s: Sdk, body: seq<Byte>, h: H.Header)
    requires H.WellSized(h)
    ensures HandleProduct(s, body) == Next(s, I010(ProductOf(body))) && FromWire(I010(ProductOf(body)))
    ensures HandleUpdate(s, body) == Next(s, I081(UpdateOf(body))) && FromWire(I081(UpdateOf(body)))
    ensures HandleSnapshot(s, body) == Next(s, I083(SnapshotOf(body))) && FromWire(I083(SnapshotOf(body)))
    ensures HandleReset(s, h) ==
            if ValidBcd(h.channelId) then Next(s, SequenceReset(BcdValue(h.channelId))) else s
  {
  }

  function Run(s: Sdk, events: seq<Event>): Sdk {
    if events == [] then s else Next(Run(s, events[..|events| - 1]), events[|events| - 1])
  }

  lemma {:induction false} RunConcat(s: Sdk, xs: seq<Event>, ys: seq<Event>)
    ensures Run(s, xs + ys) == Run(Run(s, xs), ys)
    decreases |ys|
  {
    if ys == [] {
      assert xs + ys == xs;
    } else {
      var n := |ys| - 1;
      assert (xs + ys)[..|xs| + n] == xs + ys[..n];
      RunConcat(s, xs, ys[..n]);
    }
  }

  // ----- one product's share of a run

  /** What an event means to the book of `id`, if anything. */
  function OwnOp(id: ProductId, e: Event): Option<L.Op> {
    match e
    case I081(update) =>
      if update.Some? && update.value.prodId == id then Some(L.DoUpdate(update.value)) else None
    case I083(snapshot) =>
      if snapshot.Some? && snapshot.value.prodId == id then Some(L.DoSnapshot(snapshot.value)) else None
    case SequenceReset(_) => Some(L.DoReset)
    case _ => None
  }

  /** The operations a run performs on the book of `id`. */
  function OwnOps(id: ProductId, events: seq<Event>): seq<L.Op> {
    if events == [] then [] else
      var op := OwnOp(id, events[|events| - 1]);
      OwnOps(id, events[..|events| - 1]) + if op.Some? then [op.value] else []
  }

  /** An I081 or I083 for `id`. */
  predicate OwnMessage(id: ProductId, e: Event) {
    OwnOp(id, e).Some? && !OwnOp(id, e).value.DoReset?
  }

  /** The locator of the latest I010 for `key`. */
  function LatestLocator(key: ProductId, events: seq<Event>): Option<Byte> {
    if events == [] then None else
      var e := events[|events| - 1];
      if e.I010? && e.product.Some? && e.product.value.prodId == key then Some(e.product.value.decimalLocator)
      else LatestLocator(key, events[..|events| - 1])
  }

  /** The i-th event is a message for `id` that arrives after the base product's I010. */
  predicate CanCreate(id: ProductId, events: seq<Event>, i: nat) {
    i < |events| && OwnMessage(id, events[i]) && LatestLocator(BaseProduct(id), events[..i]).Some?
  }

  function Lookup<K, V>(m: map<K, V>, k: K): Option<V> {
    if k in m then Some(m[k]) else None
  }

  function CachedLocator(s: Sdk, key: ProductId): Option<Byte> {
    if key in s.products then Some(s.products[key].decimalLocator) else None
  }

  /** How one event changes one product's book, given its base product's cached locator. */
  function OwnNext(id: ProductId, locator: Option<Byte>, book: Option<Book>, e: Event): Option<Book> {
    match OwnOp(id, e)
    case None => book
    case Some(op) =>
      if book.Some? then Some(L.Apply(book.value, op))
      else if op.DoReset? || locator.None? then None
      else Some(L.Apply(NewBook(id, locator.value), op))
  }

  lemma {:induction false} UpdateProjects(s: Sdk, m: UpdateMessage, id: ProductId)
    ensures Lookup(BookUpdated(s, m).books, id)
            == OwnNext(id, CachedLocator(s, BaseProduct(id)), Lookup(s.books, id), I081(Some(m)))
  {
  }

  lemma {:induction false} SnapshotProjects(s: Sdk, m: SnapshotMessage, id: ProductId)
    ensures Lookup(BookReplaced(s, m).books, id)
            == OwnNext(id, CachedLocator(s, BaseProduct(id)), Lookup(s.books, id), I083(Some(m)))
  {
  }

  /** Non-interference, one step: the book of `id` sees nothing but its own events. */
  lemma {:induction false} StepProjects(s: Sdk, e: Event, id: ProductId)
    ensures Lookup(Next(s, e).books, id)
            == OwnNext(id, CachedLocator(s, BaseProduct(id)), Lookup(s.books, id), e)
  {
    if e.I081? && e.update.Some? {
      UpdateProjects(s, e.update.value, id);
    } else if e.I083? && e.snapshot.Some? {
      SnapshotProjects(s, e.snapshot.value, id);
    }
  }

  lemma {:induction false} CacheStep(s: Sdk, e: Event, key: ProductId)
    ensures CachedLocator(Next(s, e), key) ==
            if e.I010? && e.product.Some? && e.product.value.prodId == key then Some(e.product.value.decimalLocator)
            else CachedLocator(s, key)
  {
  }

  lemma {:induction false} CacheIsLatest(events: seq<Event>, key: ProductId)
    ensures CachedLocator(Run(INITIAL_SDK, events), key) == LatestLocator(key, events)
  {
    if events != [] {
      var n := |events| - 1;
      CacheIsLatest(events[..n], key);
      CacheStep(Run(INITIAL_SDK, events[..n]), events[n], key);
    }
  }

  lemma {:induction false} RunProjects(events: seq<Event>, id: ProductId)
    requires events != []
    ensures var n := |events| - 1;
            Lookup(Run(INITIAL_SDK, events).books, id)
            == OwnNext(id, LatestLocator(BaseProduct(id), events[..n]),
                       Lookup(Run(INITIAL_SDK, events[..n]).books, id), events[n])
  {
    var n := |events| - 1;
    CacheIsLatest(events[..n], BaseProduct(id));
    StepProjects(Run(INITIAL_SDK, events[..n]), events[n], id);
  }

  /** Without a message that can create it, a book does not exist. */
  lemma {:induction false} NoBookBeforeCreation(events: seq<Event>, id: ProductId)
    requires forall j: nat | j < |events| :: !CanCreate(id, events, j)
    ensures id !in Run(INITIAL_SDK, events).books
  {
    if events != [] {
      var n := |events| - 1;
      forall j: nat | j < n
        ensures !CanCreate(id, events[..n], j)
      {
        assert !CanCreate(id, events, j);
        assert events[..n][..j] == events[..j];
      }
      NoBookBeforeCreation(events[..n], id);
      RunProjects(events, id);
      assert !CanCreate(id, events, n);
    }
  }

  lemma {:induction false} OneOp(b: Book, op: L.Op)
    ensures L.Run(b, [op]) == L.Apply(b, op)
  {
    assert [op][..0] == [];
    assert L.Run(b, []) == b;
  }

  lemma {:induction false} OpsSnoc(b: Book, ops: seq<L.Op>, op: L.Op)
    ensures L.Run(b, ops + [op]) == L.Apply(L.Run(b, ops), op)
  {
    assert (ops + [op])[..|ops|] == ops;
  }

  /** Every book equals the fold of its own messages alone: it starts empty at the first I081 or I083
      for it that finds the base product's I010 cached, with the locator cached then, and takes its
      own I081, I083 and every I002 from there on. */
  lemma {:induction false} BookIsOwnFold(events: seq<Event>, id: ProductId, i: nat, locator: Byte)
    requires CanCreate(id, events, i) && (forall j: nat | j < i :: !CanCreate(id, events, j))
    requires LatestLocator(BaseProduct(id), events[..i]) == Some(locator)
    ensures Lookup(Run(INITIAL_SDK, events).books, id)
            == Some(L.Run(NewBook(id, locator), OwnOps(id, events[i..])))
    decreases |events|
  {
    var n := |events| - 1;
    RunProjects(events, id);
    if i == n {
      NoBookYet(events, id, n);
      assert events[n..] == [events[n]] && [events[n]][..0] == [];
      assert OwnOps(id, []) == [];
      OneOp(NewBook(id, locator), OwnOp(id, events[n]).value);
    } else {
      CreationInPrefix(events, id, i);
      BookIsOwnFold(events[..n], id, i, locator);
      OwnOpsSnoc(id, events, i);
      OneMoreEvent(id, LatestLocator(BaseProduct(id), events[..n]), NewBook(id, locator),
                   OwnOps(id, events[..n][i..]), events[n]);
    }
  }

  lemma {:induction false} OneMoreEvent(id: ProductId, locator: Option<Byte>, b: Book, ops: seq<L.Op>, e: Event)
    ensures OwnNext(id, locator, Some(L.Run(b, ops)), e)
            == Some(L.Run(b, if OwnOp(id, e).Some? then ops + [OwnOp(id, e).value] else ops))
  {
    if OwnOp(id, e).Some? {
      OpsSnoc(b, ops, OwnOp(id, e).value);
    }
  }

  lemma {:induction false} OwnOpsSnoc(id: ProductId, events: seq<Event>, i: nat)
    requires i < |events| - 1
    ensures var n := |events| - 1;
            var before := OwnOps(id, events[..n][i..]);
            var op := OwnOp(id, events[n]);
            OwnOps(id, events[i..]) == if op.Some? then before + [op.value] else before
  {
    var n := |events| - 1;
    assert events[i..][..n - i] == events[..n][i..];
    assert events[i..][n - i] == events[n];
  }

  lemma {:induction false} CreationInPrefix(events: seq<Event>, id: ProductId, i: nat)
    requires i < |events| - 1 && CanCreate(id, events, i)
    requires forall j: nat | j < i :: !CanCreate(id, events, j)
    ensures var before := events[..|events| - 1];
            && CanCreate(id, before, i)
            && before[..i] == events[..i]
            && forall j: nat | j < i :: !CanCreate(id, before, j)
  {
    var before := events[..|events| - 1];
    assert before[..i] == events[..i];
    forall j: nat | j < i
      ensures !CanCreate(id, before, j)
    {
      assert !CanCreate(id, events, j);
      assert before[..j] == events[..j];
    }
  }

  lemma {:induction false} NoBookYet(events: seq<Event>, id: ProductId, n: nat)
    requires n <= |events| && forall j: nat | j < n :: !CanCreate(id, events, j)
    ensures id !in Run(INITIAL_SDK, events[..n]).books
  {
    var before := events[..n];
    forall j: nat | j < n
      ensures !CanCreate(id, before, j)
    {
      assert !CanCreate(id, events, j);
      assert before[..j] == events[..j];
    }
    NoBookBeforeCreation(before, id);
  }

  // ----- ranges, from raw bodies to books

  lemma {:induction false} ParsedUpdateInRange(body: seq<Byte>, m: UpdateMessage)
    requires UpdateOf(body) == Some(m)
    ensures R.EntriesInRange(m.entries)
  {
    var item := UpdateItems(body);
    GroupItems(item, |m.entries|);
    forall i | 0 <= i < |m.entries|
      ensures QuoteInRange(m.entries[i].quote)
    {
      assert item(i) == UpdateItem(body, i) == Some(m.entries[i]);
    }
  }

  lemma {:induction false} ParsedSnapshotInRange(body: seq<Byte>, m: SnapshotMessage)
    requires SnapshotOf(body) == Some(m)
    ensures R.QuotesInRange(m.entries)
  {
    var item := SnapshotItems(body);
    GroupItems(item, |m.entries|);
    forall i | 0 <= i < |m.entries|
      ensures QuoteInRange(m.entries[i])
    {
      assert item(i) == SnapshotItem(body, i) == Some(m.entries[i]);
    }
  }

  lemma {:induction false} OwnOpInRange(id: ProductId, e: Event, op: L.Op)
    requires OwnOp(id, e) == Some(op) && FromWire(e)
    ensures R.OpInRange(op)
  {
    if e.I081? {
      var body :| e.update == UpdateOf(body);
      ParsedUpdateInRange(body, op.update);
    } else if e.I083? {
      var body :| e.snapshot == SnapshotOf(body);
      ParsedSnapshotInRange(body, op.snapshot);
    }
  }

  lemma {:induction false} LocatorIsDigit(events: seq<Event>, key: ProductId)
    requires AllFromWire(events)
    ensures var locator := LatestLocator(key, events);
            locator.Some? ==> locator.value < 10
  {
    if events != [] {
      var n := |events| - 1;
      LocatorIsDigit(events[..n], key);
      var e := events[n];
      if e.I010? && e.product.Some? {
        assert FromWire(e);
        var body :| e.product == ProductOf(body);
        ProductParsesIff(body);
      }
    }
  }

  lemma {:induction false} ApplyKeepsLocator(b: Book, op: L.Op)
    ensures L.Apply(b, op).decimalLocator == b.decimalLocator
  {
    OneOp(b, op);
    L.RunKeepsIdentity(b, [op]);
  }

  /** In every book that raw message bodies can produce, prices lie within 999,999,999 of zero, level
      quantities between 1 and 99,999,999, no derived quote is (0, 0), and the locator is one digit. */
  lemma {:induction false} EveryBookInRange(events: seq<Event>, id: ProductId)
    requires AllFromWire(events)
    ensures var book := Lookup(Run(INITIAL_SDK, events).books, id);
            book.Some? ==> R.InRange(book.value) && book.value.decimalLocator < 10
  {
    if events != [] {
      var n := |events| - 1;
      EveryBookInRange(events[..n], id);
      RunProjects(events, id);
      var op := OwnOp(id, events[n]);
      if op.Some? {
        OwnOpInRange(id, events[n], op.value);
        var before := Lookup(Run(INITIAL_SDK, events[..n]).books, id);
        var locator := LatestLocator(BaseProduct(id), events[..n]);
        var start := if before.Some? then before.value else NewBook(id, if locator.Some? then locator.value else 0);
        R.EmptyIsSound(NewBook(id, if locator.Some? then locator.value else 0));
        R.OpKeepsSound(start, op.value);
        LocatorIsDigit(events[..n], BaseProduct(id));
        ApplyKeepsLocator(start, op.value);
      }
    }
  }

  // ----- which products can have a book

  lemma {:induction false} WireIdSize(id: ProductId, e: Event)
    requires FromWire(e) && OwnMessage(id, e)
    ensures |id| == PROD_ID_SIZE
  {
    if e.I081? {
      var body :| e.update == UpdateOf(body);
    } else {
      var body :| e.snapshot == SnapshotOf(body);
    }
  }

  lemma {:induction false} WireKeySize(events: seq<Event>, key: ProductId)
    requires AllFromWire(events) && LatestLocator(key, events).Some?
    ensures |key| == PRODUCT_KEY_SIZE
  {
    var n := |events| - 1;
    var e := events[n];
    if e.I010? && e.product.Some? && e.product.value.prodId == key {
      assert FromWire(e);
      var body :| e.product == ProductOf(body);
    } else {
      WireKeySize(events[..n], key);
    }
  }

  lemma {:induction false} BookNeedsKey(events: seq<Event>, id: ProductId)
    requires AllFromWire(events) && id in Run(INITIAL_SDK, events).books
    ensures |id| == PROD_ID_SIZE && |BaseProduct(id)| == PRODUCT_KEY_SIZE
  {
    if forall j: nat | j < |events| :: !CanCreate(id, events, j) {
      NoBookBeforeCreation(events, id);
    }
    var j: nat :| j < |events| && CanCreate(id, events, j);
    WireIdSize(id, events[j]);
    WireKeySize(events[..j], BaseProduct(id));
  }

  lemma {:induction false} ProductFromWire(m: ProductMessage, body: seq<Byte>)
    requires ProductOf(body) == Some(m)
    ensures FromWire(I010(Some(m)))
  {
  }

  lemma {:induction false} UpdateFromWire(m: UpdateMessage, body: seq<Byte>)
    requires UpdateOf(body) == Some(m)
    ensures FromWire(I081(Some(m)))
  {
  }

  lemma {:induction false} WireUpdate(id: ProductId) returns (m: UpdateMessage)
    requires |id| == PROD_ID_SIZE
    ensures m.prodId == id && FromWire(I081(Some(m)))
  {
    m := UpdateMessage(id, 0, []);
    UpdateRoundTrip(m, 0, []);
    UpdateFromWire(m, UpdateBytes(m, 0) + []);
  }

  lemma {:induction false} TwoSteps(s: Sdk, a: Event, b: Event)
    ensures Run(s, [a, b]) == Next(Next(s, a), b)
  {
    assert [a, b][..1] == [a] && [a][..0] == [];
    assert Run(s, []) == s && Run(s, [a]) == Next(s, a);
  }

  lemma {:induction false} CachedThenUpdated(s: Sdk, product: ProductMessage, update: UpdateMessage)
    requires product.prodId == BaseProduct(update.prodId)
    ensures update.prodId in Run(s, [I010(Some(product)), I081(Some(update))]).books
  {
    var t := ProductCached(s, product);
    TwoSteps(s, I010(Some(product)), I081(Some(update)));
    assert BaseProduct(update.prodId) in t.products;
    assert update.prodId in WithBook(t, update.prodId).books;
  }

  lemma {:induction false} BothFromWire(a: Event, b: Event)
    requires FromWire(a) && FromWire(b)
    ensures AllFromWire([a, b])
  {
  }

  lemma {:induction false} KeyGivesBook(id: ProductId) returns (events: seq<Event>)
    requires |id| == PROD_ID_SIZE && |BaseProduct(id)| == PRODUCT_KEY_SIZE
    ensures AllFromWire(events) && id in Run(INITIAL_SDK, events).books
  {
    var product, body := KeyHasBody(BaseProduct(id));
    ProductFromWire(product, body);
    var update := WireUpdate(id);
    BothFromWire(I010(Some(product)), I081(Some(update)));
    CachedThenUpdated(INITIAL_SDK, product, update);
    events := [I010(Some(product)), I081(Some(update))];
  }

  /** Cached keys are the ten untrimmed bytes of an I010, while the key looked up for a product is
      what precedes its first slash. So, over all runs on raw bodies, a product can get a book exactly
      when its identifier has no slash or its first slash is the eleventh byte. */
  lemma {:induction false} BookPossibleIff(id: ProductId)
    ensures (exists events :: AllFromWire(events) && id in Run(INITIAL_SDK, events).books)
            <==> |id| == PROD_ID_SIZE && (SlashAt(id) == 10 || SlashAt(id) == |id|)
  {
    if events :| AllFromWire(events) && id in Run(INITIAL_SDK, events).books {
      BookNeedsKey(events, id);
    }
    if |id| == PROD_ID_SIZE && (SlashAt(id) == 10 || SlashAt(id) == |id|) {
      var events := KeyGivesBook(id);
    }
  }

  /** So the first leg of a spread like "TXFF3/I3" is never found. */
  lemma {:induction false} SpreadHasNoBook(events: seq<Event>, id: ProductId, i: nat)
    requires AllFromWire(events) && i < 10 && i < |id| && id[i] == SLASH
    ensures id !in Run(INITIAL_SDK, events).books
  {
    if id in Run(INITIAL_SDK, events).books {
      BookNeedsKey(events, id);
      SlashBefore(id, i);
    }
  }

  lemma {:induction false} SlashBefore(id: ProductId, i: nat)
    requires i < |id| && id[i] == SLASH
    ensures SlashAt(id) <= i
  {
    if i > 0 && id[0] != SLASH {
      SlashBefore(id[1..], i - 1);
    }
  }

  // ----- whose locator a book has

  lemma {:induction false} SlashIs(id: ProductId, i: nat)
    requires i <= |id| && (forall j | 0 <= j < i :: id[j] != 0x2F) && (i < |id| ==> id[i] == 0x2F)
    ensures SlashAt(id) == i
  {
    if i > 0 {
      SlashIs(id[1..], i - 1);
    }
  }

  /** The key looked up for a product: what precedes its first '/', and without one its first ten
      bytes. */
  lemma {:induction false} BaseProductIs(id: ProductId, i: nat)
    requires i <= |id| && (forall j | 0 <= j < i :: id[j] != 0x2F) && (i < |id| ==> id[i] == 0x2F)
    ensures BaseProduct(id) == if i < |id| then id[..i] else if |id| > 10 then id[..10] else id
  {
    SlashIs(id, i);
  }

  lemma {:induction false} LatestIsSome(key: ProductId, events: seq<Event>, locator: Byte) returns (i: nat)
    requires LatestLocator(key, events) == Some(locator)
    ensures i < |events| && events[i].I010? && events[i].product.Some?
    ensures events[i].product.value.prodId == key && events[i].product.value.decimalLocator == locator
  {
    var n := |events| - 1;
    var e := events[n];
    if e.I010? && e.product.Some? && e.product.value.prodId == key {
      i := n;
    } else {
      i := LatestIsSome(key, events[..n], locator);
    }
  }

  lemma {:induction false} FirstCreation(events: seq<Event>, id: ProductId, n: nat) returns (i: nat)
    requires n < |events| && CanCreate(id, events, n)
    ensures CanCreate(id, events, i) && forall j: nat | j < i :: !CanCreate(id, events, j)
    decreases n
  {
    if j: nat :| j < n && CanCreate(id, events, j) {
      i := FirstCreation(events, id, j);
    } else {
      i := n;
    }
  }

  /** Every book that raw bodies can produce has the locator of an I010 whose key is the first ten bytes
      of the book's own identifier. */
  lemma {:induction false} LocatorFromOwnPrefix(events: seq<Event>, id: ProductId) returns (i: nat)
    requires AllFromWire(events) && id in Run(INITIAL_SDK, events).books
    ensures |id| == 20 && i < |events| && events[i].I010? && events[i].product.Some?
    ensures events[i].product.value.prodId == id[..10]
    ensures events[i].product.value.decimalLocator == Run(INITIAL_SDK, events).books[id].decimalLocator
  {
    BookNeedsKey(events, id);
    if forall j: nat | j < |events| :: !CanCreate(id, events, j) {
      NoBookBeforeCreation(events, id);
    }
    var n: nat :| n < |events| && CanCreate(id, events, n);
    var first := FirstCreation(events, id, n);
    var locator := LatestLocator(BaseProduct(id), events[..first]).value;
    BookIsOwnFold(events, id, first, locator);
    L.RunKeepsIdentity(NewBook(id, locator), OwnOps(id, events[first..]));
    i := LatestIsSome(BaseProduct(id), events[..first], locator);
  }
}

/** The SDK state machine (taifex_sdk.cpp): frame validation, channel sequence tracking, the
    product cache and one order book per product. The dispatch at the end of `process_message` is
    disabled in the program, so the handlers are steps of their own. Gap warnings are recorded in
    `reports`. */
module TaifexSdk {
  import opened Bytes
  import opened Checksum
  import opened MessageBodies
  import opened ProductBody
  import opened OrderBook
  import H = CommonHeader

  type ProductId = seq<Byte>

  const SLASH: Byte := 0x2F

  /** The channel sequence numbers `first` to `last` were skipped. */
  datatype Gap = Gap(channel: nat, first: nat, last: nat)

  datatype Sdk = Sdk(
    initialized: bool,
    products: map<ProductId, ProductMessage>,
    books: map<ProductId, Book>,
    channels: map<nat, nat>,
    reports: seq<Gap>)

  const INITIAL_SDK := Sdk(true, map[], map[], map[], [])

  // ----- frame validation

  datatype Verdict = Rejected | Thrown | Accepted(channel: nat, channelSeq: nat)

  /** The checks of `process_message` up to sequence validation. */
  function Validate(raw: seq<Byte>): Verdict {
    if |raw| < H.HEADER_SIZE + 1 + 2 then Rejected else
      var h := H.HeaderOf(raw);
      match H.GetBodyLength(h)
      case Err => Thrown
      case Ok(body) =>
        if |raw| != H.HEADER_SIZE + body + 1 + 2 then Rejected
        else if XorOf(raw[1..H.HEADER_SIZE + body]) != raw[H.HEADER_SIZE + body] then Rejected
        else
          match (H.GetChannelId(h), H.GetChannelSeq(h))
          case (Ok(channel), Ok(channelSeq)) => Accepted(channel, channelSeq)
          case _ => Thrown
  }

  // ----- channel sequence

  /** The verdict of `is_sequence_valid`. */
  predicate SequenceValid(s: Sdk, channel: nat, number: nat) {
    channel !in s.channels || number == s.channels[channel] + 1
  }

  function Track(s: Sdk, channel: nat, number: nat): Sdk {
    if channel !in s.channels then s.(channels := s.channels[channel := number])
    else
      var last := s.channels[channel];
      if number == last + 1 then s.(channels := s.channels[channel := number])
      else if number <= last then s
      else s.(channels := s.channels[channel := number],
              reports := s.reports + [Gap(channel, last + 1, number - 1)])
  }

  function AfterVerdict(s: Sdk, verdict: Verdict): Sdk {
    match verdict
    case Accepted(channel, number) => if s.initialized then Track(s, channel, number) else s
    case _ => s
  }

  function AfterMessage(s: Sdk, raw: seq<Byte>): Sdk {
    AfterVerdict(s, Validate(raw))
  }

  // ----- books

  /** The position of the first slash, or the length. */
  function SlashAt(id: ProductId): (n: nat)
    ensures n <= |id|
  {
    if id == [] || id[0] == SLASH then 0 else 1 + SlashAt(id[1..])
  }

  /** `get_base_prod_id_for_i010_lookup`. */
  function BaseProduct(id: ProductId): ProductId {
    if SlashAt(id) < |id| then id[..SlashAt(id)]
    else if |id| > 10 then id[..10]
    else id
  }

  function WithBook(s: Sdk, id: ProductId): Sdk {
    if id in s.books || BaseProduct(id) !in s.products then s
    else s.(books := s.books[id := NewBook(id, s.products[BaseProduct(id)].decimalLocator)])
  }

  function ProductCached(s: Sdk, m: ProductMessage): Sdk {
    s.(products := s.products[m.prodId := m])
  }

  function HandleProduct(s: Sdk, body: seq<Byte>): Sdk {
    match ProductOf(body)
    case None => s
    case Some(m) => ProductCached(s, m)
  }

  function BookUpdated(s: Sdk, m: UpdateMessage): Sdk {
    var t := WithBook(s, m.prodId);
    if m.prodId in t.books then t.(books := t.books[m.prodId := Update(t.books[m.prodId], m)]) else t
  }

  function BookReplaced(s: Sdk, m: SnapshotMessage): Sdk {
    var t := WithBook(s, m.prodId);
    if m.prodId in t.books then t.(books := t.books[m.prodId := Snapshot(t.books[m.prodId], m)]) else t
  }

  function HandleUpdate(s: Sdk, body: seq<Byte>): Sdk {
    match UpdateOf(body)
    case None => s
    case Some(m) => BookUpdated(s, m)
  }

  function HandleSnapshot(s: Sdk, body: seq<Byte>): Sdk {
    match SnapshotOf(body)
    case None => s
    case Some(m) => BookReplaced(s, m)
  }

  function AllCleared(books: map<ProductId, Book>): map<ProductId, Book> {
    map id | id in books :: Cleared(books[id])
  }

  function ChannelReset(s: Sdk, channel: nat): Sdk {
    s.(books := AllCleared(s.books), channels := s.channels[channel := 0])
  }

  /** The channel is read before anything is cleared. */
  function HandleReset(s: Sdk, h: H.Header): Sdk
    requires H.WellSized(h)
  {
    match H.GetChannelId(h)
    case Err => s
    case Ok(channel) => ChannelReset(s, channel)
  }

  // ----- the object

  class TaifexSdk {
    var initialized: bool
    var productInfoCache: map<ProductId, ProductMessage>
    var orderBooks: map<ProductId, OrderBook>
    var channelSequences: map<nat, nat>
    var reports: seq<Gap>

    /** Books live in the map: no two products share one. */
    ghost predicate Valid()
      reads this
    {
      forall a, b | a in orderBooks && b in orderBooks && a != b :: orderBooks[a] != orderBooks[b]
    }

    ghost function Books(): map<ProductId, Book>
      reads this, orderBooks.Values
    {
      map id | id in orderBooks :: orderBooks[id].View()
    }

    ghost function View(): Sdk
      reads this, orderBooks.Values
    {
      Sdk(initialized, productInfoCache, Books(), channelSequences, reports)
    }

    constructor ()
      ensures Valid() && View() == INITIAL_SDK.(initialized := false)
    {
      initialized, productInfoCache, orderBooks, channelSequences, reports := false, map[], map[], map[], [];
    }

    method Initialize()
      modifies `initialized
      ensures initialized
    {
      initialized := true;
    }

    method IsSequenceValid(channel: nat, number: nat) returns (valid: bool)
      requires Valid()
      modifies `channelSequences, `reports
      ensures Valid() && View() == Track(old(View()), channel, number)
      ensures valid == SequenceValid(old(View()), channel, number)
    {
      if channel !in channelSequences {
        channelSequences := channelSequences[channel := number];
        return true;
      }
      var last := channelSequences[channel];
      if number == last + 1 {
        channelSequences := channelSequences[channel := number];
        return true;
      } else if number <= last {
        return false;
      } else {
        reports := reports + [Gap(channel, last + 1, number - 1)];
        channelSequences := channelSequences[channel := number];
        return false;
      }
    }

    /** `threw` is set when a header getter throws out of the call. */
    method ProcessMessage(raw: seq<Byte>) returns (threw: bool)
      requires Valid()
      modifies `channelSequences, `reports
      ensures Valid() && View() == AfterMessage(old(View()), raw)
      ensures threw <==> initialized && Validate(raw).Thrown?
    {
      if !initialized || |raw| == 0 {
        return false;
      }
      if |raw| < H.HEADER_SIZE + 1 + 2 {
        return false;
      }
      var header := H.Parse(raw);
      var body := H.GetBodyLength(header.value);
      if body.Err? {
        return true;
      }
      var expected := H.HEADER_SIZE + body.value + 1 + 2;
      if |raw| != expected {
        return false;
      }
      var received := raw[H.HEADER_SIZE + body.value];
      var calculated := CalculateXorChecksum(raw[1..H.HEADER_SIZE + body.value]);
      if calculated != received {
        return false;
      }
      var channel := H.GetChannelId(header.value);
      var number := H.GetChannelSeq(header.value);
      if channel.Err? || number.Err? {
        return true;
      }
      var _ := IsSequenceValid(channel.value, number.value);
      return false;
    }

    method ApplyI010(m: ProductMessage)
      requires Valid()
      modifies `productInfoCache
      ensures Valid() && View() == ProductCached(old(View()), m)
    {
      productInfoCache := productInfoCache[m.prodId := m];
    }

    method HandleI010(body: seq<Byte>)
      requires Valid()
      modifies `productInfoCache
      ensures Valid() && View() == HandleProduct(old(View()), body)
    {
      var m := ParseI010Body(body);
      if m.Some? {
        ApplyI010(m.value);
      }
    }

    method GetOrCreateOrderBook(id: ProductId) returns (book: OrderBook?)
      requires Valid()
      modifies `orderBooks
      ensures Valid() && View() == WithBook(old(View()), id)
      ensures book == null <==> id !in orderBooks
      ensures book != null ==> orderBooks[id] == book
      ensures forall k | k in orderBooks ::
                (k in old(orderBooks) && orderBooks[k] == old(orderBooks)[k]) || fresh(orderBooks[k])
    {
      if id in orderBooks {
        return orderBooks[id];
      }
      var base := BaseProduct(id);
      if base in productInfoCache {
        var created := new OrderBook(id, productInfoCache[base].decimalLocator);
        orderBooks := orderBooks[id := created];
        assert Books() == old(Books())[id := created.View()];
        return created;
      }
      return null;
    }

    /** Writing to one book changes one entry of the abstract map. */
    twostate lemma OneBookWritten(id: ProductId)
      requires orderBooks == old(orderBooks) && id in orderBooks
      requires forall k | k in orderBooks && k != id :: orderBooks[k].View() == old(orderBooks[k].View())
      ensures Books() == old(Books())[id := orderBooks[id].View()]
    {
    }

    method ApplyI081(m: UpdateMessage)
      requires Valid()
      modifies `orderBooks, orderBooks.Values
      ensures Valid() && View() == BookUpdated(old(View()), m)
    {
      var book := GetOrCreateOrderBook(m.prodId);
      if book != null {
        label before:
        book.ApplyUpdate(m);
        OneBookWritten@before(m.prodId);
      }
    }

    method HandleI081(body: seq<Byte>)
      requires Valid()
      modifies `orderBooks, orderBooks.Values
      ensures Valid() && View() == HandleUpdate(old(View()), body)
    {
      var m := ParseI081Body(body);
      if m.Some? {
        ApplyI081(m.value);
      }
    }

    method ApplyI083(m: SnapshotMessage)
      requires Valid()
      modifies `orderBooks, orderBooks.Values
      ensures Valid() && View() == BookReplaced(old(View()), m)
    {
      var book := GetOrCreateOrderBook(m.prodId);
      if book != null {
        label before:
        book.ApplySnapshot(m);
        OneBookWritten@before(m.prodId);
      }
    }

    method HandleI083(body: seq<Byte>)
      requires Valid()
      modifies `orderBooks, orderBooks.Values
      ensures Valid() && View() == HandleSnapshot(old(View()), body)
    {
      var m := ParseI083Body(body);
      if m.Some? {
        ApplyI083(m.value);
      }
    }

    method ResetAll(channel: nat)
      requires Valid()
      modifies `channelSequences, orderBooks.Values
      ensures Valid() && View() == ChannelReset(old(View()), channel)
    {
      var todo := orderBooks.Keys;
      while todo != {}
        invariant todo <= orderBooks.Keys && channelSequences == old(channelSequences)
        invariant forall k | k in orderBooks ::
                    orderBooks[k].View() ==
                    if k in todo then old(orderBooks[k].View()) else Cleared(old(orderBooks[k].View()))
        decreases todo
      {
        var k :| k in todo;
        orderBooks[k].Reset();
        todo := todo - {k};
      }
      channelSequences := channelSequences[channel := 0];
      assert Books() == AllCleared(old(Books()));
    }

    /** `threw` is set when the channel's nibbles make the header getter throw out of the call. */
    method HandleI002(header: H.Header) returns (threw: bool)
      requires Valid() && H.WellSized(header)
      modifies `channelSequences, orderBooks.Values
      ensures Valid() && View() == HandleReset(old(View()), header)
      ensures threw <==> H.GetChannelId(header).Err?
    {
      var channel := H.GetChannelId(header);
      if channel.Err? {
        return true;
      }
      ResetAll(channel.value);
      return false;
    }
  }
}

/** The order book of one product (order_book.cpp): snapshot, differential update, reset, queries.
    Prices are only compared and negated from positive values, so `int` stands for int64_t. */
module OrderBook {
  import opened Bytes
  import opened MessageBodies

  // MD-ENTRY-TYPE
  const BUY: Byte := 0x30
  const SELL: Byte := 0x31
  const DERIVED_BUY: Byte := 0x45
  const DERIVED_SELL: Byte := 0x46
  // MD-UPDATE-ACTION
  const NEW: Byte := 0x30
  const CHANGE: Byte := 0x31
  const DELETE: Byte := 0x32
  const OVERLAY: Byte := 0x35
  // SIGN and CALCULATED-FLAG
  const PLUS: Byte := 0x30
  const MINUS: Byte := 0x2D
  const NOT_CALCULATED: Byte := 0x30

  datatype Level = Level(price: int, quantity: nat)

  type Side = map<int, nat>

  datatype Book = Book(
    productId: seq<Byte>, decimalLocator: Byte, lastSeq: U32,
    bids: Side, asks: Side, derivedBid: Option<Level>, derivedAsk: Option<Level>)

  function NewBook(productId: seq<Byte>, decimalLocator: Byte): Book {
    Book(productId, decimalLocator, 0, map[], map[], None, None)
  }

  function SignedPrice(magnitude: int, sign: Byte): int {
    if sign == MINUS then (if magnitude > 0 then -magnitude else magnitude) else magnitude
  }

  /** The cast from int64_t to uint64_t. */
  function Quantity(size: int): nat {
    size % 0x1_0000_0000_0000_0000
  }

  function PriceOf(q: Quote): int {
    SignedPrice(q.price, q.sign)
  }

  // ----- differential update

  function UpdateSide(side: Side, action: Byte, price: int, quantity: nat): Side {
    if action == NEW then
      if quantity > 0 then side[price := quantity] else side
    else if action == CHANGE then
      if quantity > 0 then side[price := quantity] else side - {price}
    else if action == DELETE then side - {price}
    else side
  }

  function Overlaid(price: int, quantity: nat): Option<Level> {
    if quantity > 0 || price != 0 then Some(Level(price, quantity)) else None
  }

  function ApplyEntry(b: Book, e: UpdateEntry): Book {
    var price, quantity := PriceOf(e.quote), Quantity(e.quote.size);
    if e.quote.kind == BUY then b.(bids := UpdateSide(b.bids, e.action, price, quantity))
    else if e.quote.kind == SELL then b.(asks := UpdateSide(b.asks, e.action, price, quantity))
    else if e.quote.kind == DERIVED_BUY && e.action == OVERLAY then b.(derivedBid := Overlaid(price, quantity))
    else if e.quote.kind == DERIVED_SELL && e.action == OVERLAY then b.(derivedAsk := Overlaid(price, quantity))
    else b
  }

  function ApplyEntries(b: Book, es: seq<UpdateEntry>): Book {
    if es == [] then b else ApplyEntry(ApplyEntries(b, es[..|es| - 1]), es[|es| - 1])
  }

  /** An older message does not lower the sequence, but its entries are still applied. */
  function Update(b: Book, m: UpdateMessage): Book {
    var lastSeq := if m.prodMsgSeq > b.lastSeq || b.lastSeq == 0 then m.prodMsgSeq else b.lastSeq;
    ApplyEntries(b.(lastSeq := lastSeq), m.entries)
  }

  // ----- reset and snapshot

  function Cleared(b: Book): Book {
    NewBook(b.productId, b.decimalLocator)
  }

  function PlaceQuote(b: Book, flag: Byte, q: Quote): Book {
    var price, quantity := PriceOf(q), Quantity(q.size);
    if q.kind == BUY then (if quantity > 0 then b.(bids := b.bids[price := quantity]) else b)
    else if q.kind == SELL then (if quantity > 0 then b.(asks := b.asks[price := quantity]) else b)
    else if q.kind == DERIVED_BUY && flag == NOT_CALCULATED then b.(derivedBid := Overlaid(price, quantity))
    else if q.kind == DERIVED_SELL && flag == NOT_CALCULATED then b.(derivedAsk := Overlaid(price, quantity))
    else b
  }

  function PlaceQuotes(b: Book, flag: Byte, qs: seq<Quote>): Book {
    if qs == [] then b else PlaceQuote(PlaceQuotes(b, flag, qs[..|qs| - 1]), flag, qs[|qs| - 1])
  }

  function Snapshot(b: Book, m: SnapshotMessage): Book {
    PlaceQuotes(Cleared(b).(lastSeq := m.prodMsgSeq), m.calculatedFlag, m.entries)
  }

  // ----- queries

  /** Bids are best when highest, asks when lowest. */
  predicate Better(highestFirst: bool, p: int, q: int) {
    if highestFirst then p > q else p < q
  }

  /** `out` lists the best `n` levels of `side` (or all of them), best first, nothing skipped. */
  ghost predicate TopLevels(side: Side, highestFirst: bool, n: nat, out: seq<Level>) {
    && |out| == (if n < |side| then n else |side|)
    && (forall i | 0 <= i < |out| :: out[i].price in side && out[i].quantity == side[out[i].price])
    && (forall i, j | 0 <= i < j < |out| :: Better(highestFirst, out[i].price, out[j].price))
    && (forall p, i | p in side && 0 <= i < |out| && (forall j | 0 <= j < |out| :: out[j].price != p) ::
          Better(highestFirst, out[i].price, p))
  }

  function BetterThan(prices: set<int>, highestFirst: bool, p: int): set<int> {
    set q | q in prices && Better(highestFirst, q, p)
  }

  lemma {:induction false} EmptyOrInhabited(s: set<int>)
    ensures s == {} || exists x :: x in s
  {
    if forall x :: x !in s {
      assert s == {};
    }
  }

  lemma {:induction false} BestExists(prices: set<int>, highestFirst: bool, any: int)
    requires any in prices
    ensures exists p :: p in prices && BetterThan(prices, highestFirst, p) == {}
    decreases BetterThan(prices, highestFirst, any)
  {
    if q :| q in prices && Better(highestFirst, q, any) {
      assert q in BetterThan(prices, highestFirst, any);
      assert q !in BetterThan(prices, highestFirst, q);
      BestExists(prices, highestFirst, q);
    }
  }

  /** The first key of the ordered map. */
  method First(prices: set<int>, highestFirst: bool) returns (best: int)
    requires prices != {}
    ensures best in prices && forall q | q in prices && q != best :: Better(highestFirst, best, q)
  {
    assert exists p :: p in prices && BetterThan(prices, highestFirst, p) == {} by {
      EmptyOrInhabited(prices);
      var any :| any in prices;
      BestExists(prices, highestFirst, any);
    }
    best :| best in prices && BetterThan(prices, highestFirst, best) == {};
    forall q | q in prices && q != best
      ensures Better(highestFirst, best, q)
    {
      assert q !in BetterThan(prices, highestFirst, best);
    }
  }

  /** `out` lists the members of `side` outside `rest`, best first, all better than `rest`. */
  ghost predicate Taken(side: Side, highestFirst: bool, out: seq<Level>, rest: set<int>) {
    && rest <= side.Keys
    && |rest| + |out| == |side.Keys|
    && (forall i | 0 <= i < |out| :: out[i].price in side && out[i].quantity == side[out[i].price])
    && (forall p | p in side.Keys && p !in rest :: exists j :: 0 <= j < |out| && out[j].price == p)
    && (forall i, j | 0 <= i < j < |out| :: Better(highestFirst, out[i].price, out[j].price))
    && (forall p, i | p in rest && 0 <= i < |out| :: Better(highestFirst, out[i].price, p))
  }

  lemma {:induction false} TakeOne(side: Side, highestFirst: bool, out: seq<Level>, rest: set<int>, best: int)
    requires Taken(side, highestFirst, out, rest) && best in rest
    requires forall q | q in rest && q != best :: Better(highestFirst, best, q)
    ensures Taken(side, highestFirst, out + [Level(best, side[best])], rest - {best})
  {
    var more := out + [Level(best, side[best])];
    forall p | p in side.Keys && p !in rest - {best}
      ensures exists j :: 0 <= j < |more| && more[j].price == p
    {
      if p == best {
        assert more[|out|].price == p;
      } else {
        var j :| 0 <= j < |out| && out[j].price == p;
        assert more[j].price == p;
      }
    }
  }

  lemma {:induction false} TakenIsTop(side: Side, highestFirst: bool, n: nat, out: seq<Level>, rest: set<int>)
    requires Taken(side, highestFirst, out, rest) && |out| <= n && (rest == {} || |out| == n)
    ensures TopLevels(side, highestFirst, n, out)
  {
    assert |side| == |side.Keys|;
  }

  lemma {:induction false} BestFirst(side: Side, highestFirst: bool, n: nat, out: seq<Level>)
    requires TopLevels(side, highestFirst, n, out)
    ensures forall i, j | 0 <= i < j < |out| ::
              if highestFirst then out[i].price > out[j].price else out[i].price < out[j].price
    ensures forall p, i | p in side && 0 <= i < |out| && (forall j | 0 <= j < |out| :: out[j].price != p) ::
              if highestFirst then p < out[i].price else p > out[i].price
  {
  }

  /** Iterates the ordered map from its first key, at most `n` times. */
  method TakeBest(side: Side, highestFirst: bool, n: nat) returns (out: seq<Level>)
    ensures TopLevels(side, highestFirst, n, out)
    ensures forall i, j | 0 <= i < j < |out| ::
              if highestFirst then out[i].price > out[j].price else out[i].price < out[j].price
    ensures forall p, i | p in side && 0 <= i < |out| && (forall j | 0 <= j < |out| :: out[j].price != p) ::
              if highestFirst then p < out[i].price else p > out[i].price
  {
    out := [];
    if n == 0 {
      BestFirst(side, highestFirst, n, out);
      return;
    }
    var rest := side.Keys;
    while rest != {} && |out| < n
      invariant |out| <= n && Taken(side, highestFirst, out, rest)
      decreases rest
    {
      var best := First(rest, highestFirst);
      TakeOne(side, highestFirst, out, rest, best);
      out := out + [Level(best, side[best])];
      rest := rest - {best};
    }
    TakenIsTop(side, highestFirst, n, out, rest);
    BestFirst(side, highestFirst, n, out);
  }

  // ----- the object

  class OrderBook {
    const productId: seq<Byte>
    const decimalLocator: Byte
    var lastProdMsgSeq: U32
    var bids: Side
    var asks: Side
    var derivedBid: Option<Level>
    var derivedAsk: Option<Level>

    function View(): Book
      reads this
    {
      Book(productId, decimalLocator, lastProdMsgSeq, bids, asks, derivedBid, derivedAsk)
    }

    constructor (productId: seq<Byte>, decimalLocator: Byte)
      ensures View() == NewBook(productId, decimalLocator)
    {
      this.productId, this.decimalLocator := productId, decimalLocator;
      lastProdMsgSeq, bids, asks, derivedBid, derivedAsk := 0, map[], map[], None, None;
    }

    method Reset()
      modifies this
      ensures View() == Cleared(old(View()))
    {
      bids, asks := map[], map[];
      derivedBid, derivedAsk := None, None;
      lastProdMsgSeq := 0;
    }

    method PlaceSnapshotEntry(flag: Byte, q: Quote)
      modifies this
      ensures View() == PlaceQuote(old(View()), flag, q)
    {
      var price := SignedPrice(q.price, q.sign);
      var quantity := Quantity(q.size);
      if q.kind == BUY {
        if quantity > 0 {
          bids := bids[price := quantity];
        }
      } else if q.kind == SELL {
        if quantity > 0 {
          asks := asks[price := quantity];
        }
      } else if q.kind == DERIVED_BUY {
        if flag == NOT_CALCULATED {
          if quantity > 0 || price != 0 {
            derivedBid := Some(Level(price, quantity));
          } else {
            derivedBid := None;
          }
        }
      } else if q.kind == DERIVED_SELL {
        if flag == NOT_CALCULATED {
          if quantity > 0 || price != 0 {
            derivedAsk := Some(Level(price, quantity));
          } else {
            derivedAsk := None;
          }
        }
      }
    }

    method ApplySnapshot(m: SnapshotMessage)
      modifies this
      ensures View() == Snapshot(old(View()), m)
    {
      Reset();
      lastProdMsgSeq := m.prodMsgSeq;
      ghost var start := View();
      for i := 0 to |m.entries|
        invariant View() == PlaceQuotes(start, m.calculatedFlag, m.entries[..i])
      {
        assert m.entries[..i + 1][..i] == m.entries[..i];
        PlaceSnapshotEntry(m.calculatedFlag, m.entries[i]);
      }
      assert m.entries[..|m.entries|] == m.entries;
    }

    method ApplyUpdateEntry(e: UpdateEntry)
      modifies this
      ensures View() == ApplyEntry(old(View()), e)
    {
      var price := SignedPrice(e.quote.price, e.quote.sign);
      var quantity := Quantity(e.quote.size);
      if e.quote.kind == BUY {
        if e.action == NEW {
          if quantity > 0 {
            bids := bids[price := quantity];
          }
        } else if e.action == CHANGE {
          if price in bids {
            if quantity > 0 {
              bids := bids[price := quantity];
            } else {
              bids := bids - {price};
            }
          } else {
            assert bids - {price} == bids;
            if quantity > 0 {
              bids := bids[price := quantity];
            }
          }
        } else if e.action == DELETE {
          bids := bids - {price};
        }
      } else if e.quote.kind == SELL {
        if e.action == NEW {
          if quantity > 0 {
            asks := asks[price := quantity];
          }
        } else if e.action == CHANGE {
          if price in asks {
            if quantity > 0 {
              asks := asks[price := quantity];
            } else {
              asks := asks - {price};
            }
          } else {
            assert asks - {price} == asks;
            if quantity > 0 {
              asks := asks[price := quantity];
            }
          }
        } else if e.action == DELETE {
          asks := asks - {price};
        }
      } else if e.quote.kind == DERIVED_BUY {
        if e.action == OVERLAY {
          if quantity > 0 || price != 0 {
            derivedBid := Some(Level(price, quantity));
          } else {
            derivedBid := None;
          }
        }
      } else if e.quote.kind == DERIVED_SELL {
        if e.action == OVERLAY {
          if quantity > 0 || price != 0 {
            derivedAsk := Some(Level(price, quantity));
          } else {
            derivedAsk := None;
          }
        }
      }
    }

    method ApplyUpdate(m: UpdateMessage)
      modifies this
      ensures View() == Update(old(View()), m)
    {
      if m.prodMsgSeq > lastProdMsgSeq || lastProdMsgSeq == 0 {
        lastProdMsgSeq := m.prodMsgSeq;
      }
      ghost var start := View();
      for i := 0 to |m.entries|
        invariant View() == ApplyEntries(start, m.entries[..i])
      {
        assert m.entries[..i + 1][..i] == m.entries[..i];
        ApplyUpdateEntry(m.entries[i]);
      }
      assert m.entries[..|m.entries|] == m.entries;
    }

    method GetTopBids(n: nat) returns (out: seq<Level>)
      ensures TopLevels(bids, true, n, out)
      ensures |out| == if n < |bids| then n else |bids|
      ensures forall i | 0 <= i < |out| :: out[i].price in bids && out[i].quantity == bids[out[i].price]
      ensures forall i, j | 0 <= i < j < |out| :: out[i].price > out[j].price
      ensures forall p, i | p in bids && 0 <= i < |out| && (forall j | 0 <= j < |out| :: out[j].price != p) ::
                p < out[i].price
    {
      out := TakeBest(bids, true, n);
    }

    method GetTopAsks(n: nat) returns (out: seq<Level>)
      ensures TopLevels(asks, false, n, out)
      ensures |out| == if n < |asks| then n else |asks|
      ensures forall i | 0 <= i < |out| :: out[i].price in asks && out[i].quantity == asks[out[i].price]
      ensures forall i, j | 0 <= i < j < |out| :: out[i].price < out[j].price
      ensures forall p, i | p in asks && 0 <= i < |out| && (forall j | 0 <= j < |out| :: out[j].price != p) ::
                p > out[i].price
    {
      out := TakeBest(asks, false, n);
    }
  }
}

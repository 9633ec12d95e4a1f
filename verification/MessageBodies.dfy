/** The bodies of I081 (order book update) and I083 (order book snapshot):
    message_i081.cpp and message_i083.cpp. */
module MessageBodies {
  import opened Bytes
  import opened PackBcd

  const PROD_ID_SIZE := 20
  const UPDATE_FIXED_SIZE := 26
  const SNAPSHOT_FIXED_SIZE := 27
  /** KIND, SIGN, price (9 digits), size (8 digits) and level (2 digits). */
  const QUOTE_SIZE := 12
  const UPDATE_ENTRY_SIZE := 13

  /** The fields that entries of both messages share. */
  datatype Quote = Quote(kind: Byte, sign: Byte, price: int, size: int, level: int)

  datatype UpdateEntry = UpdateEntry(action: Byte, quote: Quote)

  datatype UpdateMessage = UpdateMessage(prodId: seq<Byte>, prodMsgSeq: U32, entries: seq<UpdateEntry>)

  datatype SnapshotMessage = SnapshotMessage(
    prodId: seq<Byte>, prodMsgSeq: U32, calculatedFlag: Byte, entries: seq<Quote>)

  predicate QuoteInRange(q: Quote) {
    0 <= q.price < 1_000_000_000 && 0 <= q.size < 100_000_000 && 0 <= q.level < 100
  }

  // ----- one entry

  /** The entry at `at`, unless one of its BCD fields has a bad nibble. */
  function QuoteAt(body: seq<Byte>, at: nat): (r: Option<Quote>)
    requires at + QUOTE_SIZE <= |body|
    ensures r.Some? ==> QuoteInRange(r.value)
  {
    match (Number(body[at + 2..at + 7], 9), Number(body[at + 7..at + 11], 8), Number(body[at + 11..at + 12], 2))
    case (Ok(price), Ok(size), Ok(level)) =>
      NumberBound(body[at + 2..at + 7], 9);
      NumberBound(body[at + 7..at + 11], 8);
      NumberBound(body[at + 11..at + 12], 2);
      Some(Quote(body[at], body[at + 1], price, size, level))
    case _ => None
  }

  method ParseQuote(body: seq<Byte>, at: nat) returns (r: Option<Quote>)
    requires at + QUOTE_SIZE <= |body|
    ensures r == QuoteAt(body, at)
  {
    var offset := at;
    var kind := body[offset];
    offset := offset + 1;
    var sign := body[offset];
    offset := offset + 1;
    var price := DecodeNumber(body[offset..offset + 5], 9);
    if price.Err? {
      return None;
    }
    offset := offset + 5;
    var size := DecodeNumber(body[offset..offset + 4], 8);
    if size.Err? {
      return None;
    }
    offset := offset + 4;
    var level := DecodeNumber(body[offset..offset + 1], 2);
    if level.Err? {
      return None;
    }
    return Some(Quote(kind, sign, price.value, size.value, level.value));
  }

  // ----- repeating groups

  /** The first `n` items of a repeating group, unless one of them is bad. */
  function Group<T>(item: nat -> Option<T>, n: nat): (r: Option<seq<T>>)
    ensures r.Some? ==> |r.value| == n
  {
    if n == 0 then Some([]) else
      match (Group(item, n - 1), item(n - 1))
      case (Some(es), Some(e)) => Some(es + [e])
      case _ => None
  }

  lemma {:induction false} GroupIff<T>(item: nat -> Option<T>, n: nat)
    ensures Group(item, n).Some? <==> forall i: nat | i < n :: item(i).Some?
  {
    if n > 0 {
      GroupIff(item, n - 1);
    }
  }

  lemma {:induction false} GroupIs<T>(item: nat -> Option<T>, es: seq<T>)
    requires forall i: nat | i < |es| :: item(i) == Some(es[i])
    ensures Group(item, |es|) == Some(es)
  {
    if es != [] {
      var n := |es| - 1;
      GroupIs(item, es[..n]);
      assert es == es[..n] + [es[n]];
    }
  }

  lemma {:induction false} GroupItems<T>(item: nat -> Option<T>, n: nat)
    requires Group(item, n).Some?
    ensures forall i: nat | i < n :: item(i) == Some(Group(item, n).value[i])
  {
    if n > 0 {
      GroupItems(item, n - 1);
    }
  }

  // ----- I081

  function UpdateItem(body: seq<Byte>, i: nat): Option<UpdateEntry> {
    var at := UPDATE_FIXED_SIZE + UPDATE_ENTRY_SIZE * i;
    if at + UPDATE_ENTRY_SIZE > |body| then None else
      match QuoteAt(body, at + 1)
      case None => None
      case Some(q) => Some(UpdateEntry(body[at], q))
  }

  function UpdateItems(body: seq<Byte>): (items: nat -> Option<UpdateEntry>)
    ensures forall i: nat :: items(i) == UpdateItem(body, i)
  {
    (i: nat) => UpdateItem(body, i)
  }

  function UpdateEntriesOf(body: seq<Byte>, n: nat): Option<seq<UpdateEntry>> {
    Group(UpdateItems(body), n)
  }

  /** What `parse_i081_body` returns; the ten-digit sequence is cut to 32 bits. */
  function UpdateOf(body: seq<Byte>): Option<UpdateMessage> {
    if |body| < UPDATE_FIXED_SIZE then None else
      match (Number(body[20..25], 10), Number(body[25..26], 2))
      case (Ok(number), Ok(n)) =>
        if |body| < UPDATE_FIXED_SIZE + UPDATE_ENTRY_SIZE * n then None else
          (match UpdateEntriesOf(body, n)
           case None => None
           case Some(es) => Some(UpdateMessage(body[..20], number % 0x1_0000_0000, es)))
      case _ => None
  }

  /** One entry of the loop. */
  method ParseUpdateEntry(body: seq<Byte>, offset: nat, ghost i: nat) returns (r: Option<UpdateEntry>)
    requires offset == UPDATE_FIXED_SIZE + UPDATE_ENTRY_SIZE * i && offset + UPDATE_ENTRY_SIZE <= |body|
    ensures r == UpdateItem(body, i)
  {
    var quote := ParseQuote(body, offset + 1);
    if quote.None? {
      return None;
    }
    return Some(UpdateEntry(body[offset], quote.value));
  }

  /** The loop over the repeating group. */
  method ParseUpdateEntries(body: seq<Byte>, start: nat, n: nat) returns (r: Option<seq<UpdateEntry>>)
    requires start == UPDATE_FIXED_SIZE && |body| >= start + UPDATE_ENTRY_SIZE * n
    ensures r == UpdateEntriesOf(body, n)
  {
    ghost var item := UpdateItems(body);
    var offset := start;
    var entries := [];
    for i := 0 to n
      invariant offset == start + UPDATE_ENTRY_SIZE * i
      invariant Group(item, i) == Some(entries)
    {
      var entry := ParseUpdateEntry(body, offset, i);
      if entry.None? {
        GroupIff(item, n);
        return None;
      }
      offset := offset + UPDATE_ENTRY_SIZE;
      entries := entries + [entry.value];
    }
    return Some(entries);
  }

  method ParseI081Body(body: seq<Byte>) returns (r: Option<UpdateMessage>)
    ensures r == UpdateOf(body)
  {
    if |body| < UPDATE_FIXED_SIZE {
      return None;
    }
    var offset := 0;
    var prodId := body[..PROD_ID_SIZE];
    offset := offset + PROD_ID_SIZE;
    var number := DecodeNumber(body[offset..offset + 5], 10);
    if number.Err? {
      return None;
    }
    offset := offset + 5;
    var count := DecodeNumber(body[offset..offset + 1], 2);
    if count.Err? {
      return None;
    }
    offset := offset + 1;
    if |body| < offset + count.value * UPDATE_ENTRY_SIZE {
      return None;
    }
    var entries := ParseUpdateEntries(body, offset, count.value);
    if entries.None? {
      return None;
    }
    return Some(UpdateMessage(prodId, number.value % 0x1_0000_0000, entries.value));
  }

  // ----- I083

  function SnapshotItem(body: seq<Byte>, i: nat): Option<Quote> {
    var at := SNAPSHOT_FIXED_SIZE + QUOTE_SIZE * i;
    if at + QUOTE_SIZE > |body| then None else QuoteAt(body, at)
  }

  function SnapshotItems(body: seq<Byte>): (items: nat -> Option<Quote>)
    ensures forall i: nat :: items(i) == SnapshotItem(body, i)
  {
    (i: nat) => SnapshotItem(body, i)
  }

  function SnapshotEntriesOf(body: seq<Byte>, n: nat): Option<seq<Quote>> {
    Group(SnapshotItems(body), n)
  }

  function SnapshotOf(body: seq<Byte>): Option<SnapshotMessage> {
    if |body| < SNAPSHOT_FIXED_SIZE then None else
      match (Number(body[20..25], 10), Number(body[26..27], 2))
      case (Ok(number), Ok(n)) =>
        if |body| < SNAPSHOT_FIXED_SIZE + QUOTE_SIZE * n then None else
          (match SnapshotEntriesOf(body, n)
           case None => None
           case Some(es) => Some(SnapshotMessage(body[..20], number % 0x1_0000_0000, body[25], es)))
      case _ => None
  }

  method ParseSnapshotEntry(body: seq<Byte>, offset: nat, ghost i: nat) returns (r: Option<Quote>)
    requires offset == SNAPSHOT_FIXED_SIZE + QUOTE_SIZE * i && offset + QUOTE_SIZE <= |body|
    ensures r == SnapshotItem(body, i)
  {
    r := ParseQuote(body, offset);
  }

  method ParseSnapshotEntries(body: seq<Byte>, start: nat, n: nat) returns (r: Option<seq<Quote>>)
    requires start == SNAPSHOT_FIXED_SIZE && |body| >= start + QUOTE_SIZE * n
    ensures r == SnapshotEntriesOf(body, n)
  {
    ghost var item := SnapshotItems(body);
    var offset := start;
    var entries := [];
    for i := 0 to n
      invariant offset == start + QUOTE_SIZE * i
      invariant Group(item, i) == Some(entries)
    {
      var quote := ParseSnapshotEntry(body, offset, i);
      if quote.None? {
        GroupIff(item, n);
        return None;
      }
      offset := offset + QUOTE_SIZE;
      entries := entries + [quote.value];
    }
    return Some(entries);
  }

  method ParseI083Body(body: seq<Byte>) returns (r: Option<SnapshotMessage>)
    ensures r == SnapshotOf(body)
  {
    if |body| < SNAPSHOT_FIXED_SIZE {
      return None;
    }
    var offset := 0;
    var prodId := body[..PROD_ID_SIZE];
    offset := offset + PROD_ID_SIZE;
    var number := DecodeNumber(body[offset..offset + 5], 10);
    if number.Err? {
      return None;
    }
    offset := offset + 5;
    var flag := body[offset];
    offset := offset + 1;
    var count := DecodeNumber(body[offset..offset + 1], 2);
    if count.Err? {
      return None;
    }
    offset := offset + 1;
    if |body| < offset + count.value * QUOTE_SIZE {
      return None;
    }
    var entries := ParseSnapshotEntries(body, offset, count.value);
    if entries.None? {
      return None;
    }
    return Some(SnapshotMessage(prodId, number.value % 0x1_0000_0000, flag, entries.value));
  }

  // ----- exactly which bodies parse

  lemma {:induction false} ValidBcdConcat(a: seq<Byte>, b: seq<Byte>)
    ensures ValidBcd(a + b) <==> ValidBcd(a) && ValidBcd(b)
  {
    if ValidBcd(a + b) {
      forall i | 0 <= i < |a|
        ensures ValidByte(a[i])
      {
        assert a[i] == (a + b)[i];
      }
      forall i | 0 <= i < |b|
        ensures ValidByte(b[i])
      {
        assert b[i] == (a + b)[|a| + i];
      }
    }
  }

  lemma {:induction false} QuoteValidIff(body: seq<Byte>, at: nat)
    requires at + QUOTE_SIZE <= |body|
    ensures QuoteAt(body, at).Some? <==> ValidBcd(body[at + 2..at + 12])
  {
    var a, b, c := body[at + 2..at + 7], body[at + 7..at + 11], body[at + 11..at + 12];
    assert body[at + 2..at + 12] == a + b + c;
    ValidBcdConcat(a, b);
    ValidBcdConcat(a + b, c);
  }

  /** The BCD bytes of the i-th I081 entry are all valid. */
  predicate UpdateEntryNibbles(body: seq<Byte>, i: nat) {
    26 + 13 * i + 13 <= |body| && ValidBcd(body[26 + 13 * i + 3..26 + 13 * i + 13])
  }

  lemma {:induction false} UpdateItemIff(body: seq<Byte>, i: nat)
    ensures UpdateItem(body, i).Some? <==> UpdateEntryNibbles(body, i)
  {
    if 26 + 13 * i + 13 <= |body| {
      QuoteValidIff(body, 26 + 13 * i + 1);
    }
  }

  lemma {:induction false} UpdateEntriesIff(body: seq<Byte>, n: nat)
    ensures UpdateEntriesOf(body, n).Some? <==> forall i: nat | i < n :: UpdateEntryNibbles(body, i)
  {
    var item := UpdateItems(body);
    GroupIff(item, n);
    forall i: nat
      ensures item(i).Some? <==> UpdateEntryNibbles(body, i)
    {
      UpdateItemIff(body, i);
    }
  }

  /** An I081 body parses exactly when it is long enough for what it declares and every
      BCD nibble in the declared part is a decimal digit. */
  lemma {:induction false} UpdateParsesIff(body: seq<Byte>)
    ensures UpdateOf(body).Some? <==>
            && |body| >= 26
            && ValidBcd(body[20..26])
            && |body| >= 26 + 13 * Number(body[25..26], 2).value
            && forall i: nat | i < Number(body[25..26], 2).value :: UpdateEntryNibbles(body, i)
  {
    if |body| >= 26 {
      assert body[20..26] == body[20..25] + body[25..26];
      ValidBcdConcat(body[20..25], body[25..26]);
      if ValidBcd(body[20..26]) {
        var n := Number(body[25..26], 2).value;
        if |body| >= 26 + 13 * n {
          UpdateEntriesIff(body, n);
        }
      }
    }
  }

  predicate SnapshotEntryNibbles(body: seq<Byte>, i: nat) {
    27 + 12 * i + 12 <= |body| && ValidBcd(body[27 + 12 * i + 2..27 + 12 * i + 12])
  }

  lemma {:induction false} SnapshotItemIff(body: seq<Byte>, i: nat)
    ensures SnapshotItem(body, i).Some? <==> SnapshotEntryNibbles(body, i)
  {
    if 27 + 12 * i + 12 <= |body| {
      QuoteValidIff(body, 27 + 12 * i);
    }
  }

  lemma {:induction false} SnapshotEntriesIff(body: seq<Byte>, n: nat)
    ensures SnapshotEntriesOf(body, n).Some? <==> forall i: nat | i < n :: SnapshotEntryNibbles(body, i)
  {
    var item := SnapshotItems(body);
    GroupIff(item, n);
    forall i: nat
      ensures item(i).Some? <==> SnapshotEntryNibbles(body, i)
    {
      SnapshotItemIff(body, i);
    }
  }

  /** The same for I083. */
  lemma {:induction false} SnapshotParsesIff(body: seq<Byte>)
    ensures SnapshotOf(body).Some? <==>
            && |body| >= 27
            && ValidBcd(body[20..25])
            && ValidBcd(body[26..27])
            && |body| >= 27 + 12 * Number(body[26..27], 2).value
            && forall i: nat | i < Number(body[26..27], 2).value :: SnapshotEntryNibbles(body, i)
  {
    if |body| >= 27 && ValidBcd(body[20..25]) && ValidBcd(body[26..27]) {
      var n := Number(body[26..27], 2).value;
      if |body| >= 27 + 12 * n {
        SnapshotEntriesIff(body, n);
      }
    }
  }

  // ----- the wire encoding and its round trip

  function QuoteBytes(q: Quote): (s: seq<Byte>)
    requires QuoteInRange(q)
    ensures |s| == QUOTE_SIZE
  {
    [q.kind, q.sign] + EncodeNumber(q.price, 5) + EncodeNumber(q.size, 4) + EncodeNumber(q.level, 1)
  }

  lemma {:induction false} QuoteRoundTrip(q: Quote, before: seq<Byte>, after: seq<Byte>)
    requires QuoteInRange(q)
    ensures QuoteAt(before + QuoteBytes(q) + after, |before|) == Some(q)
  {
    var body, at := before + QuoteBytes(q) + after, |before|;
    var head: seq<Byte> := [q.kind, q.sign];
    var a, b, c := EncodeNumber(q.price, 5), EncodeNumber(q.size, 4), EncodeNumber(q.level, 1);
    Sliced(before + head, a, b + c + after, body);
    Sliced(before + head + a, b, c + after, body);
    Sliced(before + head + a + b, c, after, body);
    NumberRoundTrip(q.price, 5, 9);
    NumberRoundTrip(q.size, 4, 8);
    NumberRoundTrip(q.level, 1, 2);
  }

  lemma {:induction false} Sliced<T>(a: seq<T>, b: seq<T>, c: seq<T>, whole: seq<T>)
    requires whole == a + b + c
    ensures whole[|a|..|a| + |b|] == b
  {
  }

  predicate UpdateInRange(m: UpdateMessage) {
    && |m.prodId| == PROD_ID_SIZE
    && |m.entries| < 100
    && forall i | 0 <= i < |m.entries| :: QuoteInRange(m.entries[i].quote)
  }

  function UpdateEntriesBytes(es: seq<UpdateEntry>): (s: seq<Byte>)
    requires forall i | 0 <= i < |es| :: QuoteInRange(es[i].quote)
    ensures |s| == UPDATE_ENTRY_SIZE * |es|
  {
    if es == [] then [] else
      var e := es[|es| - 1];
      UpdateEntriesBytes(es[..|es| - 1]) + ([e.action] + QuoteBytes(e.quote))
  }

  /** The wire image of an I081 whose PROD-MSG-SEQ field holds the ten-digit `number`. */
  function UpdateBytes(m: UpdateMessage, number: nat): seq<Byte>
    requires UpdateInRange(m)
  {
    m.prodId + EncodeNumber(number, 5) + EncodeNumber(|m.entries|, 1) + UpdateEntriesBytes(m.entries)
  }

  /** Where the i-th encoded entry sits. */
  lemma {:induction false} UpdateEntrySlice(es: seq<UpdateEntry>, i: nat)
    requires i < |es| && forall j | 0 <= j < |es| :: QuoteInRange(es[j].quote)
    ensures var s, at := UpdateEntriesBytes(es), UPDATE_ENTRY_SIZE * i;
            s == s[..at] + ([es[i].action] + QuoteBytes(es[i].quote)) + s[at + UPDATE_ENTRY_SIZE..]
    decreases |es|
  {
    var n := |es| - 1;
    var s, at := UpdateEntriesBytes(es), UPDATE_ENTRY_SIZE * i;
    if i < n {
      UpdateEntrySlice(es[..n], i);
      Extend(UpdateEntriesBytes(es[..n]), s, at, at + UPDATE_ENTRY_SIZE,
             [es[i].action] + QuoteBytes(es[i].quote));
    }
  }

  lemma {:induction false} Extend<T>(short: seq<T>, long: seq<T>, i: nat, j: nat, middle: seq<T>)
    requires short <= long && i <= j <= |short| && |middle| == j - i
    requires short == short[..i] + middle + short[j..]
    ensures long == long[..i] + middle + long[j..]
  {
    assert forall k | i <= k < j :: long[k] == short[k] == middle[k - i];
  }

  lemma {:induction false} UpdateItemAt(body: seq<Byte>, i: nat, e: UpdateEntry)
    requires 26 + 13 * i + 13 <= |body|
    requires body[26 + 13 * i] == e.action && QuoteAt(body, 27 + 13 * i) == Some(e.quote)
    ensures UpdateItem(body, i) == Some(e)
  {
  }

  lemma {:induction false} UpdateItemRoundTrip(es: seq<UpdateEntry>, i: nat, before: seq<Byte>, after: seq<Byte>)
    requires |before| == UPDATE_FIXED_SIZE
    requires i < |es| && forall j | 0 <= j < |es| :: QuoteInRange(es[j].quote)
    ensures UpdateItem(before + UpdateEntriesBytes(es) + after, i) == Some(es[i])
  {
    var s, at := UpdateEntriesBytes(es), UPDATE_ENTRY_SIZE * i;
    var quote := QuoteBytes(es[i].quote);
    var start := before + s[..at] + [es[i].action];
    UpdateEntrySlice(es, i);
    Regroup(before, s[..at], [es[i].action], quote, s[at + UPDATE_ENTRY_SIZE..], after, s);
    QuoteRoundTrip(es[i].quote, start, s[at + UPDATE_ENTRY_SIZE..] + after);
    UpdateItemAt(before + s + after, i, es[i]);
  }

  lemma {:induction false} Regroup<T>(before: seq<T>, a: seq<T>, b: seq<T>, c: seq<T>, d: seq<T>,
                                      after: seq<T>, s: seq<T>)
    requires s == a + (b + c) + d
    ensures before + s + after == before + a + b + c + (d + after)
  {
  }

  lemma {:induction false} UpdateEntriesRoundTrip(es: seq<UpdateEntry>, before: seq<Byte>, after: seq<Byte>)
    requires |before| == UPDATE_FIXED_SIZE
    requires forall j | 0 <= j < |es| :: QuoteInRange(es[j].quote)
    ensures UpdateEntriesOf(before + UpdateEntriesBytes(es) + after, |es|) == Some(es)
  {
    var body := before + UpdateEntriesBytes(es) + after;
    var item := UpdateItems(body);
    forall i: nat | i < |es|
      ensures item(i) == Some(es[i])
    {
      UpdateItemRoundTrip(es, i, before, after);
    }
    GroupIs(item, es);
  }

  lemma {:induction false} UpdateHead(id: seq<Byte>, a: seq<Byte>, b: seq<Byte>, rest: seq<Byte>, body: seq<Byte>)
    requires |id| == 20 && |a| == 5 && |b| == 1 && body == id + a + b + rest
    ensures body[..20] == id && body[20..25] == a && body[25..26] == b
  {
  }

  lemma {:induction false} UpdateAssembled(body: seq<Byte>, id: seq<Byte>, number: nat, es: seq<UpdateEntry>)
    requires |body| >= 26 + 13 * |es| && body[..20] == id
    requires Number(body[20..25], 10) == Ok(number) && Number(body[25..26], 2) == Ok(|es|)
    requires UpdateEntriesOf(body, |es|) == Some(es)
    ensures UpdateOf(body) == Some(UpdateMessage(id, number % 0x1_0000_0000, es))
  {
  }

  /** Parsing the wire image of any I081 in range, with anything after it, returns that message;
      a ten-digit sequence number comes back modulo 2^32. */
  lemma {:induction false} UpdateRoundTrip(m: UpdateMessage, number: nat, trailing: seq<Byte>)
    requires UpdateInRange(m) && number < 10_000_000_000
    ensures UpdateOf(UpdateBytes(m, number) + trailing)
            == Some(m.(prodMsgSeq := number % 0x1_0000_0000))
  {
    var body := UpdateBytes(m, number) + trailing;
    var a, b := EncodeNumber(number, 5), EncodeNumber(|m.entries|, 1);
    var es := UpdateEntriesBytes(m.entries);
    var head := m.prodId + a + b;
    ConcatSlices(head, es, trailing, 0);
    UpdateHead(m.prodId, a, b, es + trailing, body);
    NumberRoundTrip(number, 5, 10);
    NumberRoundTrip(|m.entries|, 1, 2);
    UpdateEntriesRoundTrip(m.entries, head, trailing);
    UpdateAssembled(body, m.prodId, number, m.entries);
  }

  predicate SnapshotInRange(m: SnapshotMessage) {
    && |m.prodId| == PROD_ID_SIZE
    && |m.entries| < 100
    && forall i | 0 <= i < |m.entries| :: QuoteInRange(m.entries[i])
  }

  function SnapshotEntriesBytes(es: seq<Quote>): (s: seq<Byte>)
    requires forall i | 0 <= i < |es| :: QuoteInRange(es[i])
    ensures |s| == QUOTE_SIZE * |es|
  {
    if es == [] then [] else SnapshotEntriesBytes(es[..|es| - 1]) + QuoteBytes(es[|es| - 1])
  }

  function SnapshotBytes(m: SnapshotMessage, number: nat): seq<Byte>
    requires SnapshotInRange(m)
  {
    m.prodId + EncodeNumber(number, 5) + [m.calculatedFlag] + EncodeNumber(|m.entries|, 1)
    + SnapshotEntriesBytes(m.entries)
  }

  lemma {:induction false} SnapshotEntrySlice(es: seq<Quote>, i: nat)
    requires i < |es| && forall j | 0 <= j < |es| :: QuoteInRange(es[j])
    ensures var s, at := SnapshotEntriesBytes(es), QUOTE_SIZE * i;
            s == s[..at] + QuoteBytes(es[i]) + s[at + QUOTE_SIZE..]
    decreases |es|
  {
    var n := |es| - 1;
    var s, at := SnapshotEntriesBytes(es), QUOTE_SIZE * i;
    if i < n {
      SnapshotEntrySlice(es[..n], i);
      Extend(SnapshotEntriesBytes(es[..n]), s, at, at + QUOTE_SIZE, QuoteBytes(es[i]));
    }
  }

  lemma {:induction false} RegroupOne<T>(before: seq<T>, a: seq<T>, b: seq<T>, c: seq<T>, after: seq<T>, s: seq<T>)
    requires s == a + b + c
    ensures before + s + after == before + a + b + (c + after)
  {
  }

  lemma {:induction false} SnapshotItemAt(body: seq<Byte>, i: nat, q: Quote)
    requires 27 + 12 * i + 12 <= |body| && QuoteAt(body, 27 + 12 * i) == Some(q)
    ensures SnapshotItem(body, i) == Some(q)
  {
  }

  lemma {:induction false} SnapshotItemRoundTrip(es: seq<Quote>, i: nat, before: seq<Byte>, after: seq<Byte>)
    requires |before| == SNAPSHOT_FIXED_SIZE
    requires i < |es| && forall j | 0 <= j < |es| :: QuoteInRange(es[j])
    ensures SnapshotItem(before + SnapshotEntriesBytes(es) + after, i) == Some(es[i])
  {
    var s, at := SnapshotEntriesBytes(es), QUOTE_SIZE * i;
    var quote := QuoteBytes(es[i]);
    SnapshotEntrySlice(es, i);
    RegroupOne(before, s[..at], quote, s[at + QUOTE_SIZE..], after, s);
    QuoteRoundTrip(es[i], before + s[..at], s[at + QUOTE_SIZE..] + after);
    SnapshotItemAt(before + s + after, i, es[i]);
  }

  lemma {:induction false} SnapshotEntriesRoundTrip(es: seq<Quote>, before: seq<Byte>, after: seq<Byte>)
    requires |before| == SNAPSHOT_FIXED_SIZE
    requires forall j | 0 <= j < |es| :: QuoteInRange(es[j])
    ensures SnapshotEntriesOf(before + SnapshotEntriesBytes(es) + after, |es|) == Some(es)
  {
    var body := before + SnapshotEntriesBytes(es) + after;
    var item := SnapshotItems(body);
    forall i: nat | i < |es|
      ensures item(i) == Some(es[i])
    {
      SnapshotItemRoundTrip(es, i, before, after);
    }
    GroupIs(item, es);
  }

  lemma {:induction false} SnapshotHead(id: seq<Byte>, a: seq<Byte>, flag: Byte, b: seq<Byte>,
                                        rest: seq<Byte>, body: seq<Byte>)
    requires |id| == 20 && |a| == 5 && |b| == 1 && body == id + a + [flag] + b + rest
    ensures body[..20] == id && body[20..25] == a && body[25] == flag && body[26..27] == b
  {
  }

  lemma {:induction false} SnapshotAssembled(body: seq<Byte>, id: seq<Byte>, number: nat, flag: Byte, es: seq<Quote>)
    requires |body| >= 27 + 12 * |es| && body[..20] == id && body[25] == flag
    requires Number(body[20..25], 10) == Ok(number) && Number(body[26..27], 2) == Ok(|es|)
    requires SnapshotEntriesOf(body, |es|) == Some(es)
    ensures SnapshotOf(body) == Some(SnapshotMessage(id, number % 0x1_0000_0000, flag, es))
  {
  }

  /** The same round trip for I083. */
  lemma {:induction false} SnapshotRoundTrip(m: SnapshotMessage, number: nat, trailing: seq<Byte>)
    requires SnapshotInRange(m) && number < 10_000_000_000
    ensures SnapshotOf(SnapshotBytes(m, number) + trailing)
            == Some(m.(prodMsgSeq := number % 0x1_0000_0000))
  {
    var body := SnapshotBytes(m, number) + trailing;
    var a, b := EncodeNumber(number, 5), EncodeNumber(|m.entries|, 1);
    var es := SnapshotEntriesBytes(m.entries);
    var head := m.prodId + a + [m.calculatedFlag] + b;
    ConcatSlices(head, es, trailing, 0);
    SnapshotHead(m.prodId, a, m.calculatedFlag, b, es + trailing, body);
    NumberRoundTrip(number, 5, 10);
    NumberRoundTrip(|m.entries|, 1, 2);
    SnapshotEntriesRoundTrip(m.entries, head, trailing);
    SnapshotAssembled(body, m.prodId, number, m.calculatedFlag, m.entries);
  }

  /** A 32-bit sequence number makes the round trip exact. */
  lemma {:induction false} SnapshotUnchanged(m: SnapshotMessage, trailing: seq<Byte>)
    requires SnapshotInRange(m)
    ensures SnapshotOf(SnapshotBytes(m, m.prodMsgSeq) + trailing) == Some(m)
  {
    KeepsNumber(m);
    SnapshotRoundTrip(m, m.prodMsgSeq, trailing);
  }

  lemma {:induction false} KeepsNumber(m: SnapshotMessage)
    ensures m.(prodMsgSeq := m.prodMsgSeq % 0x1_0000_0000) == m
  {
  }

  // ----- where the fields are

  /** The entry at byte `at`, field by field: nine digits of the price count. */
  predicate QuoteFieldsAt(q: Quote, body: seq<Byte>, at: nat) {
    && at + 12 <= |body|
    && q.kind == body[at] && q.sign == body[at + 1]
    && q.price == BcdValue(body[at + 2..at + 7]) % 1_000_000_000
    && q.size == BcdValue(body[at + 7..at + 11])
    && q.level == BcdValue(body[at + 11..at + 12])
  }

  lemma {:induction false} NineDigits(d: seq<Byte>)
    requires Number(d, 9).Ok?
    ensures Number(d, 9).value == BcdValue(d) % 1_000_000_000
  {
    LastDigitsIsMod(BcdValue(d), 9);
    assert Pow10(9) == 1_000_000_000;
  }

  lemma {:induction false} WholeNumber(d: seq<Byte>, digits: nat)
    requires Number(d, digits).Ok? && digits == 2 * |d|
    ensures Number(d, digits).value == BcdValue(d)
  {
    WholeField(d);
  }

  lemma {:induction false} QuoteFields(body: seq<Byte>, at: nat, q: Quote)
    requires at + QUOTE_SIZE <= |body| && QuoteAt(body, at) == Some(q)
    ensures QuoteFieldsAt(q, body, at)
  {
    NineDigits(body[at + 2..at + 7]);
    WholeNumber(body[at + 7..at + 11], 8);
    WholeNumber(body[at + 11..at + 12], 2);
  }

  lemma {:induction false} UpdateHeadFields(body: seq<Byte>, m: UpdateMessage)
    requires UpdateOf(body) == Some(m)
    ensures |body| >= 26 + 13 * |m.entries| && m.prodId == body[..20]
    ensures m.prodMsgSeq == BcdValue(body[20..25]) % 0x1_0000_0000 && |m.entries| == BcdValue(body[25..26])
    ensures UpdateEntriesOf(body, |m.entries|) == Some(m.entries)
  {
    WholeNumber(body[20..25], 10);
    WholeNumber(body[25..26], 2);
  }

  /** Where the fields of a parsed I081 come from. */
  lemma {:induction false} UpdateFields(body: seq<Byte>, m: UpdateMessage)
    requires UpdateOf(body) == Some(m)
    ensures |body| >= 26 + 13 * |m.entries| && m.prodId == body[..20]
    ensures m.prodMsgSeq == BcdValue(body[20..25]) % 0x1_0000_0000 && |m.entries| == BcdValue(body[25..26])
    ensures forall i | 0 <= i < |m.entries| ::
              m.entries[i].action == body[26 + 13 * i] && QuoteFieldsAt(m.entries[i].quote, body, 27 + 13 * i)
  {
    UpdateHeadFields(body, m);
    GroupItems(UpdateItems(body), |m.entries|);
    forall i | 0 <= i < |m.entries|
      ensures |body| >= 26 + 13 * i + 13
      ensures m.entries[i].action == body[26 + 13 * i] && QuoteFieldsAt(m.entries[i].quote, body, 27 + 13 * i)
    {
      assert UpdateItems(body)(i) == UpdateItem(body, i);
      UpdateItemFields(body, i, m.entries[i]);
    }
  }

  lemma {:induction false} UpdateItemFields(body: seq<Byte>, i: nat, e: UpdateEntry)
    requires UpdateItem(body, i) == Some(e)
    ensures |body| >= 26 + 13 * i + 13
    ensures e.action == body[26 + 13 * i] && QuoteFieldsAt(e.quote, body, 27 + 13 * i)
  {
    QuoteFields(body, 27 + 13 * i, e.quote);
  }

  lemma {:induction false} SnapshotHeadFields(body: seq<Byte>, m: SnapshotMessage)
    requires SnapshotOf(body) == Some(m)
    ensures |body| >= 27 && m.prodId == body[..20] && m.calculatedFlag == body[25]
    ensures m.prodMsgSeq == BcdValue(body[20..25]) % 0x1_0000_0000 && |m.entries| == BcdValue(body[26..27])
    ensures SnapshotEntriesOf(body, |m.entries|) == Some(m.entries)
  {
    WholeNumber(body[20..25], 10);
    WholeNumber(body[26..27], 2);
  }

  /** Where the fields of a parsed I083 come from. */
  lemma {:induction false} SnapshotFields(body: seq<Byte>, m: SnapshotMessage)
    requires SnapshotOf(body) == Some(m)
    ensures |body| >= 27 && m.prodId == body[..20] && m.calculatedFlag == body[25]
    ensures m.prodMsgSeq == BcdValue(body[20..25]) % 0x1_0000_0000 && |m.entries| == BcdValue(body[26..27])
    ensures forall i | 0 <= i < |m.entries| :: QuoteFieldsAt(m.entries[i], body, 27 + 12 * i)
  {
    SnapshotHeadFields(body, m);
    GroupItems(SnapshotItems(body), |m.entries|);
    forall i | 0 <= i < |m.entries|
      ensures QuoteFieldsAt(m.entries[i], body, 27 + 12 * i)
    {
      assert SnapshotItems(body)(i) == SnapshotItem(body, i);
      QuoteFields(body, 27 + 12 * i, m.entries[i]);
    }
  }
}

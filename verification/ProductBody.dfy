/** The body of I010 (product information): message_i010.cpp. */
module ProductBody {
  import opened Bytes
  import opened PackBcd
  import opened MessageBodies

  const PRODUCT_BODY_SIZE := 32
  const PRODUCT_KEY_SIZE := 10
  const DATE_DIGITS := 8

  datatype ProductMessage = ProductMessage(
    prodId: seq<Byte>, referencePrice: nat, prodKind: Byte, decimalLocator: Byte, strikeLocator: Byte,
    beginDate: string, endDate: string, flowGroup: Byte, deliveryDate: string, dynamicBanding: Byte)

  /** A number stored in a byte. */
  function ByteNumber(d: seq<Byte>, digits: nat): Result<Byte> {
    match Number(d, digits)
    case Ok(v) => Ok(v % 0x100)
    case Err => Err
  }

  method DecodeByte(d: seq<Byte>, digits: nat) returns (r: Result<Byte>)
    ensures r == ByteNumber(d, digits)
  {
    var number := DecodeNumber(d, digits);
    if number.Err? {
      return Err;
    }
    return Ok(number.value % 0x100);
  }

  /** Reference price, decimal locator and strike locator. */
  function HeadOf(body: seq<Byte>): Option<(nat, Byte, Byte)>
    requires |body| >= PRODUCT_BODY_SIZE
  {
    match (Number(body[10..15], 9), ByteNumber(body[16..17], 1), ByteNumber(body[17..18], 1))
    case (Ok(price), Ok(locator), Ok(strike)) => Some((price, locator, strike))
    case _ => None
  }

  /** Begin date, end date, flow group and delivery date; dates stay strings. */
  function TailOf(body: seq<Byte>): Option<(string, string, Byte, string)>
    requires |body| >= PRODUCT_BODY_SIZE
  {
    match (SizedDecode(body[18..22], DATE_DIGITS), SizedDecode(body[22..26], DATE_DIGITS),
           ByteNumber(body[26..27], 2), SizedDecode(body[27..31], DATE_DIGITS))
    case (Ok(begin), Ok(end), Ok(group), Ok(delivery)) => Some((begin, end, group, delivery))
    case _ => None
  }

  /** The message, unless a part of it did not parse. */
  function Assembled(body: seq<Byte>, head: Option<(nat, Byte, Byte)>,
                     tail: Option<(string, string, Byte, string)>): (r: Option<ProductMessage>)
    requires |body| >= PRODUCT_BODY_SIZE
    ensures r.Some? <==> head.Some? && tail.Some?
  {
    match (head, tail)
    case (Some(h), Some(t)) =>
      Some(ProductMessage(body[..10], h.0, body[15], h.1, h.2, t.0, t.1, t.2, t.3, body[31]))
    case _ => None
  }

  /** What `parse_i010_body` returns. */
  function ProductOf(body: seq<Byte>): Option<ProductMessage> {
    if |body| < PRODUCT_BODY_SIZE then None else Assembled(body, HeadOf(body), TailOf(body))
  }

  method ParseHead(body: seq<Byte>, start: nat) returns (r: Option<(nat, Byte, Byte)>)
    requires |body| >= PRODUCT_BODY_SIZE && start == PRODUCT_KEY_SIZE
    ensures r == HeadOf(body)
  {
    var offset := start;
    var price := DecodeNumber(body[offset..offset + 5], 9);
    if price.Err? {
      return None;
    }
    offset := offset + 5 + 1;
    var locator := DecodeByte(body[offset..offset + 1], 1);
    if locator.Err? {
      return None;
    }
    offset := offset + 1;
    var strike := DecodeByte(body[offset..offset + 1], 1);
    if strike.Err? {
      return None;
    }
    return Some((price.value, locator.value, strike.value));
  }

  method ParseTail(body: seq<Byte>, start: nat) returns (r: Option<(string, string, Byte, string)>)
    requires |body| >= PRODUCT_BODY_SIZE && start == 18
    ensures r == TailOf(body)
  {
    var offset := start;
    var begin := PackBcdToAscii(body[offset..offset + 4], DATE_DIGITS);
    if begin.Err? {
      return None;
    }
    offset := offset + 4;
    var end := PackBcdToAscii(body[offset..offset + 4], DATE_DIGITS);
    if end.Err? {
      return None;
    }
    offset := offset + 4;
    var group := DecodeByte(body[offset..offset + 1], 2);
    if group.Err? {
      return None;
    }
    offset := offset + 1;
    var delivery := PackBcdToAscii(body[offset..offset + 4], DATE_DIGITS);
    if delivery.Err? {
      return None;
    }
    return Some((begin.value, end.value, group.value, delivery.value));
  }

  method ParseI010Body(body: seq<Byte>) returns (r: Option<ProductMessage>)
    ensures r == ProductOf(body)
  {
    if |body| < PRODUCT_BODY_SIZE {
      return None;
    }
    var head := ParseHead(body, PRODUCT_KEY_SIZE);
    if head.None? {
      return None;
    }
    var tail := ParseTail(body, PRODUCT_KEY_SIZE + 8);
    return Assembled(body, head, tail);
  }

  // ----- exactly which bodies parse

  lemma {:induction false} OneDigit(d: seq<Byte>)
    requires ByteNumber(d, 1).Ok?
    ensures ByteNumber(d, 1).value < 10
  {
    NumberBound(d, 1);
    assert Pow10(1) == 10;
    ModOfSplit(Number(d, 1).value, 0, 0x100, Number(d, 1).value);
  }

  lemma {:induction false} HeadIff(body: seq<Byte>)
    requires |body| >= 32
    ensures HeadOf(body).Some? <==> ValidBcd(body[10..15]) && ValidBcd(body[16..17]) && ValidBcd(body[17..18])
    ensures HeadOf(body).Some? ==> HeadOf(body).value.1 < 10
  {
    if HeadOf(body).Some? {
      OneDigit(body[16..17]);
    }
  }

  lemma {:induction false} TailIff(body: seq<Byte>)
    requires |body| >= 32
    ensures TailOf(body).Some?
            <==> && ValidBcd(body[18..22]) && ValidBcd(body[22..26])
                 && ValidBcd(body[26..27]) && ValidBcd(body[27..31])
  {
  }

  lemma {:induction false} ProductParts(body: seq<Byte>)
    requires |body| >= 32
    ensures ProductOf(body).Some? <==> HeadOf(body).Some? && TailOf(body).Some?
    ensures ProductOf(body).Some? ==> ProductOf(body).value.decimalLocator == HeadOf(body).value.1
  {
  }

  /** A body parses exactly when it has 32 bytes and the nibbles of its BCD fields are decimal; the
      locator is then a single digit. */
  lemma {:induction false} ProductParsesIff(body: seq<Byte>)
    ensures ProductOf(body).Some?
            <==> |body| >= 32 && ValidBcd(body[10..15]) && ValidBcd(body[16..31])
    ensures ProductOf(body).Some? ==> ProductOf(body).value.decimalLocator < 10
  {
    if |body| >= 32 {
      MiddleNibbles(body);
      HeadIff(body);
      TailIff(body);
      ProductParts(body);
    }
  }

  lemma {:induction false} MiddleNibbles(body: seq<Byte>)
    requires |body| >= 32
    ensures ValidBcd(body[16..31])
            <==> && ValidBcd(body[16..17]) && ValidBcd(body[17..18]) && ValidBcd(body[18..22])
                 && ValidBcd(body[22..26]) && ValidBcd(body[26..27]) && ValidBcd(body[27..31])
  {
    NibblesSplit(body, 16, 17, 31);
    NibblesSplit(body, 17, 18, 31);
    NibblesSplit(body, 18, 22, 31);
    NibblesSplit(body, 22, 26, 31);
    NibblesSplit(body, 26, 27, 31);
  }

  lemma {:induction false} NibblesSplit(body: seq<Byte>, a: nat, b: nat, c: nat)
    requires a <= b <= c <= |body|
    ensures ValidBcd(body[a..c]) <==> ValidBcd(body[a..b]) && ValidBcd(body[b..c])
  {
    assert body[a..c] == body[a..b] + body[b..c];
    ValidBcdConcat(body[a..b], body[b..c]);
  }

  lemma {:induction false} LastDigit(d: seq<Byte>)
    requires ByteNumber(d, 1).Ok?
    ensures ByteNumber(d, 1).value == BcdValue(d) % 10
  {
    var v := Number(d, 1).value;
    LastDigitsIsMod(BcdValue(d), 1);
    assert Pow10(1) == 10;
    ModOfSplit(v, 0, 0x100, v);
  }

  lemma {:induction false} BothDigits(d: seq<Byte>)
    requires ByteNumber(d, 2).Ok? && |d| == 1
    ensures ByteNumber(d, 2).value == BcdValue(d)
  {
    WholeField(d);
    assert Pow10(2) == 100;
    ModOfSplit(BcdValue(d), 0, 0x100, BcdValue(d));
  }

  lemma {:induction false} AllDigits(d: seq<Byte>)
    requires |d| == 4 && ValidBcd(d)
    ensures SizedDecode(d, DATE_DIGITS) == Ok(Unpacked(d))
  {
    assert Unpacked(d)[0..] == Unpacked(d);
  }

  lemma {:induction false} HeadFields(body: seq<Byte>, h: (nat, Byte, Byte))
    requires |body| >= 32 && HeadOf(body) == Some(h)
    ensures h.0 == BcdValue(body[10..15]) % 1_000_000_000
    ensures h.1 == BcdValue(body[16..17]) % 10 && h.2 == BcdValue(body[17..18]) % 10
  {
    NineDigits(body[10..15]);
    LastDigit(body[16..17]);
    LastDigit(body[17..18]);
  }

  lemma {:induction false} TailFields(body: seq<Byte>, t: (string, string, Byte, string))
    requires |body| >= 32 && TailOf(body) == Some(t)
    ensures ValidBcd(body[18..22]) && ValidBcd(body[22..26]) && ValidBcd(body[27..31])
    ensures t.0 == Unpacked(body[18..22]) && t.1 == Unpacked(body[22..26])
    ensures t.2 == BcdValue(body[26..27]) && t.3 == Unpacked(body[27..31])
  {
    TailIff(body);
    AllDigits(body[18..22]);
    AllDigits(body[22..26]);
    BothDigits(body[26..27]);
    AllDigits(body[27..31]);
  }

  /** Where the fields of a parsed I010 come from. */
  lemma {:induction false} ProductFields(body: seq<Byte>, m: ProductMessage)
    requires ProductOf(body) == Some(m)
    ensures |body| >= 32 && m.prodId == body[..10] && m.prodKind == body[15] && m.dynamicBanding == body[31]
    ensures m.referencePrice == BcdValue(body[10..15]) % 1_000_000_000
    ensures m.decimalLocator == BcdValue(body[16..17]) % 10 && m.strikeLocator == BcdValue(body[17..18]) % 10
    ensures m.flowGroup == BcdValue(body[26..27])
    ensures ValidBcd(body[18..22]) && m.beginDate == Unpacked(body[18..22])
    ensures ValidBcd(body[22..26]) && m.endDate == Unpacked(body[22..26])
    ensures ValidBcd(body[27..31]) && m.deliveryDate == Unpacked(body[27..31])
  {
    ProductParts(body);
    HeadFields(body, HeadOf(body).value);
    TailFields(body, TailOf(body).value);
  }

  // ----- round trip

  predicate Date(s: string) {
    |s| == DATE_DIGITS && Digits(s)
  }

  predicate ProductInRange(m: ProductMessage) {
    && |m.prodId| == PRODUCT_KEY_SIZE
    && m.referencePrice < 1_000_000_000
    && m.decimalLocator < 10 && m.strikeLocator < 10 && m.flowGroup < 100
    && Date(m.beginDate) && Date(m.endDate) && Date(m.deliveryDate)
  }

  function DateBytes(date: string): (d: seq<Byte>)
    requires Date(date)
    ensures |d| == 4 && SizedDecode(d, DATE_DIGITS) == Ok(date)
  {
    UnpackPacked(date, 4);
    AsciiRoundTrip(date);
    assert Even(date) == date;
    Packed(date)
  }

  /** The wire image of an I010 body: up to the strike locator, and from the dates on. */
  function ProductBytes(m: ProductMessage): (s: seq<Byte>)
    requires ProductInRange(m)
    ensures |s| == PRODUCT_BODY_SIZE
  {
    ProductHead(m) + ProductTail(m)
  }

  function ProductHead(m: ProductMessage): (s: seq<Byte>)
    requires ProductInRange(m)
    ensures |s| == 18
  {
    m.prodId + EncodeNumber(m.referencePrice, 5) + [m.prodKind]
    + EncodeNumber(m.decimalLocator, 1) + EncodeNumber(m.strikeLocator, 1)
  }

  function ProductTail(m: ProductMessage): (s: seq<Byte>)
    requires ProductInRange(m)
    ensures |s| == 14
  {
    DateBytes(m.beginDate) + DateBytes(m.endDate) + EncodeNumber(m.flowGroup, 1)
    + DateBytes(m.deliveryDate) + [m.dynamicBanding]
  }

  lemma {:induction false} FiveParts(a: seq<Byte>, b: seq<Byte>, c: seq<Byte>, d: seq<Byte>, e: seq<Byte>,
                                     before: seq<Byte>, rest: seq<Byte>)
    ensures var s := before + (a + b + c + d + e) + rest;
            var i := |before|;
            var j, k := i + |a|, i + |a| + |b|;
            var l, n := k + |c|, k + |c| + |d|;
            && s[i..j] == a && s[j..k] == b && s[k..l] == c && s[l..n] == d && s[n..n + |e|] == e
  {
  }

  lemma {:induction false} HeadLayout(m: ProductMessage, rest: seq<Byte>, s: seq<Byte>)
    requires ProductInRange(m) && s == ProductHead(m) + rest
    ensures s[..10] == m.prodId && s[10..15] == EncodeNumber(m.referencePrice, 5) && s[15] == m.prodKind
    ensures s[16..17] == EncodeNumber(m.decimalLocator, 1) && s[17..18] == EncodeNumber(m.strikeLocator, 1)
  {
    FiveParts(m.prodId, EncodeNumber(m.referencePrice, 5), [m.prodKind],
              EncodeNumber(m.decimalLocator, 1), EncodeNumber(m.strikeLocator, 1), [], rest);
    assert s == [] + ProductHead(m) + rest;
    assert s[15] == s[15..16][0];
  }

  lemma {:induction false} TailLayout(m: ProductMessage, head: seq<Byte>, rest: seq<Byte>, s: seq<Byte>)
    requires ProductInRange(m) && |head| == 18 && s == head + ProductTail(m) + rest
    ensures s[18..22] == DateBytes(m.beginDate) && s[22..26] == DateBytes(m.endDate)
    ensures s[26..27] == EncodeNumber(m.flowGroup, 1) && s[27..31] == DateBytes(m.deliveryDate)
    ensures s[31] == m.dynamicBanding
  {
    FiveParts(DateBytes(m.beginDate), DateBytes(m.endDate), EncodeNumber(m.flowGroup, 1),
              DateBytes(m.deliveryDate), [m.dynamicBanding], head, rest);
    assert s[31] == s[31..32][0];
  }

  lemma {:induction false} NumberBack(v: nat, bytes: nat, digits: nat, bound: nat, field: seq<Byte>)
    requires field == EncodeNumber(v, bytes) && v < bound == Pow10(digits) && 0 < digits <= 2 * bytes
    ensures Number(field, digits) == Ok(v) && (v < 0x100 ==> v % 0x100 == v)
  {
    NumberRoundTrip(v, bytes, digits);
  }

  lemma {:induction false} HeadBack(body: seq<Byte>, price: nat, locator: Byte, strike: Byte)
    requires |body| >= PRODUCT_BODY_SIZE && price < 1_000_000_000 && locator < 10 && strike < 10
    requires body[10..15] == EncodeNumber(price, 5)
    requires body[16..17] == EncodeNumber(locator, 1) && body[17..18] == EncodeNumber(strike, 1)
    ensures HeadOf(body) == Some((price, locator, strike))
  {
    assert Pow10(1) == 10 && Pow10(4) == 10_000 && Pow10(9) == 1_000_000_000;
    NumberBack(price, 5, 9, 1_000_000_000, body[10..15]);
    NumberBack(locator, 1, 1, 10, body[16..17]);
    NumberBack(strike, 1, 1, 10, body[17..18]);
  }

  lemma {:induction false} TailBack(body: seq<Byte>, begin: string, end: string, group: Byte, delivery: string)
    requires |body| >= PRODUCT_BODY_SIZE && Date(begin) && Date(end) && group < 100 && Date(delivery)
    requires body[18..22] == DateBytes(begin) && body[22..26] == DateBytes(end)
    requires body[26..27] == EncodeNumber(group, 1) && body[27..31] == DateBytes(delivery)
    ensures TailOf(body) == Some((begin, end, group, delivery))
  {
    assert Pow10(2) == 100;
    NumberBack(group, 1, 2, 100, body[26..27]);
  }

  lemma {:induction false} FieldsBack(m: ProductMessage, body: seq<Byte>)
    requires |body| >= PRODUCT_BODY_SIZE && body[..10] == m.prodId && body[15] == m.prodKind
    requires HeadOf(body) == Some((m.referencePrice, m.decimalLocator, m.strikeLocator))
    requires TailOf(body) == Some((m.beginDate, m.endDate, m.flowGroup, m.deliveryDate))
    requires body[31] == m.dynamicBanding
    ensures ProductOf(body) == Some(m)
  {
  }

  /** Every I010 in range is parsed back from its wire image, whatever follows it. */
  lemma {:induction false} ProductRoundTrip(m: ProductMessage, rest: seq<Byte>)
    requires ProductInRange(m)
    ensures ProductOf(ProductBytes(m) + rest) == Some(m)
  {
    var body := ProductBytes(m) + rest;
    ConcatSlices(ProductHead(m), ProductTail(m), rest, 0);
    HeadLayout(m, ProductTail(m) + rest, body);
    TailLayout(m, ProductHead(m), rest, body);
    HeadBack(body, m.referencePrice, m.decimalLocator, m.strikeLocator);
    TailBack(body, m.beginDate, m.endDate, m.flowGroup, m.deliveryDate);
    FieldsBack(m, body);
  }

  /** Any ten bytes are the key of some body. */
  lemma {:induction false} KeyHasBody(key: seq<Byte>) returns (m: ProductMessage, body: seq<Byte>)
    requires |key| == PRODUCT_KEY_SIZE
    ensures m.prodId == key && ProductOf(body) == Some(m)
  {
    var date := "00000000";
    assert Date(date);
    m := ProductMessage(key, 0, 0, 0, 0, date, date, 0, date, 0);
    body := ProductBytes(m) + [];
    ProductRoundTrip(m, []);
  }
}

/** Packed BCD (pack_bcd.cpp): two decimal digits per byte, the high nibble first. */
module PackBcd {
  import opened Bytes

  predicate IsDigit(c: char) {
    '0' <= c <= '9'
  }

  predicate Digits(s: string) {
    forall i | 0 <= i < |s| :: IsDigit(s[i])
  }

  function DigitChar(n: nat): (c: char)
    requires n <= 9
    ensures IsDigit(c) && DigitValue(c) == n
  {
    '0' + n as char
  }

  function DigitValue(c: char): (n: nat)
    requires IsDigit(c)
    ensures n <= 9
  {
    c as int - '0' as int
  }

  predicate ValidByte(b: Byte) {
    b / 16 <= 9 && b % 16 <= 9
  }

  predicate ValidBcd(d: seq<Byte>) {
    forall i | 0 <= i < |d| :: ValidByte(d[i])
  }

  function Pow10(n: nat): (p: nat)
    ensures p >= 1
  {
    if n == 0 then 1 else 10 * Pow10(n - 1)
  }

  /** The number a digit string denotes (what std::stoul returns for it). */
  function Value(s: string): nat
    requires Digits(s)
  {
    if s == [] then 0 else 10 * Value(s[..|s| - 1]) + DigitValue(s[|s| - 1])
  }

  /** The number a BCD field denotes, read directly off its nibbles. */
  function BcdValue(d: seq<Byte>): nat {
    if d == [] then 0
    else 100 * BcdValue(d[..|d| - 1]) + 10 * (d[|d| - 1] / 16) + d[|d| - 1] % 16
  }

  /** All digits of a BCD field. */
  function Unpacked(d: seq<Byte>): (s: string)
    requires ValidBcd(d)
    ensures |s| == 2 * |d| && Digits(s)
  {
    if d == [] then [] else
      var b := d[|d| - 1];
      Unpacked(d[..|d| - 1]) + [DigitChar(b / 16), DigitChar(b % 16)]
  }

  /** Pads on the left with zeros, or keeps the last `n` digits; 0 means "all of them". */
  function Fit(s: string, n: nat): string {
    if n == 0 then s
    else if |s| < n then seq(n - |s|, _ => '0') + s
    else s[|s| - n..]
  }

  function SizedDecode(d: seq<Byte>, n: nat): Result<string> {
    if ValidBcd(d) then Ok(Fit(Unpacked(d), n)) else Err
  }

  method PackBcdToAscii(d: seq<Byte>, numDigits: nat) returns (r: Result<string>)
    ensures r == SizedDecode(d, numDigits)
  {
    var s := [];
    for i := 0 to |d|
      invariant ValidBcd(d[..i])
      invariant s == Unpacked(d[..i])
    {
      if d[i] / 16 > 9 || d[i] % 16 > 9 {
        assert !ValidByte(d[i]);
        return Err;
      }
      assert d[..i + 1][..i] == d[..i];
      s := s + [DigitChar(d[i] / 16), DigitChar(d[i] % 16)];
    }
    assert d[..|d|] == d;
    if numDigits == 0 {
      return Ok(s);
    }
    if |s| < numDigits {
      return Ok(seq(numDigits - |s|, _ => '0') + s);
    } else if |s| > numDigits {
      return Ok(s[|s| - numDigits..]);
    }
    return Ok(s);
  }

  /** The overload without a digit count. */
  method PackBcdToAsciiAll(d: seq<Byte>) returns (r: Result<string>)
    ensures r == SizedDecode(d, 0)
  {
    if d == [] {
      return Ok("");
    }
    var s := [];
    for i := 0 to |d|
      invariant ValidBcd(d[..i])
      invariant s == Unpacked(d[..i])
    {
      if d[i] / 16 > 9 {
        assert !ValidByte(d[i]);
        return Err;
      }
      if d[i] % 16 > 9 {
        assert !ValidByte(d[i]);
        return Err;
      }
      assert d[..i + 1][..i] == d[..i];
      s := s + [DigitChar(d[i] / 16), DigitChar(d[i] % 16)];
    }
    assert d[..|d|] == d;
    return Ok(s);
  }

  function Even(s: string): (e: string)
    ensures |e| % 2 == 0
    ensures Digits(s) ==> Digits(e)
  {
    if |s| % 2 == 0 then s else "0" + s
  }

  function Packed(s: string): (d: seq<Byte>)
    requires Digits(s)
  {
    if |s| < 2 then [] else
      var n := |s| - 2;
      Packed(s[..n]) + [16 * DigitValue(s[n]) + DigitValue(s[n + 1])]
  }

  method AsciiToPackBcd(s: string) returns (r: Result<seq<Byte>>)
    ensures r == if Digits(s) then Ok(Packed(Even(s))) else Err
  {
    if !Digits(s) {
      return Err;
    }
    var e := s;
    if |e| % 2 != 0 {
      e := "0" + e;
    }
    var d: seq<Byte> := [];
    var i := 0;
    while i < |e|
      invariant 0 <= i <= |e| && i % 2 == 0
      invariant d == Packed(e[..i])
    {
      assert e[..i + 2][..i] == e[..i];
      d := d + [16 * DigitValue(e[i]) + DigitValue(e[i + 1])];
      i := i + 2;
    }
    assert e[..|e|] == e;
    return Ok(d);
  }

  // ----- round trips

  lemma {:induction false} DigitBack(c: char)
    requires IsDigit(c)
    ensures DigitChar(DigitValue(c)) == c
  {
  }

  lemma {:induction false} NibblePair(hi: nat, lo: nat)
    requires hi <= 9 && lo <= 9
    ensures (16 * hi + lo) / 16 == hi && (16 * hi + lo) % 16 == lo
  {
  }

  lemma {:induction false} UnpackSnoc(d: seq<Byte>, hi: nat, lo: nat)
    requires ValidBcd(d) && hi <= 9 && lo <= 9
    ensures ValidBcd(d + [16 * hi + lo])
    ensures Unpacked(d + [16 * hi + lo]) == Unpacked(d) + [DigitChar(hi), DigitChar(lo)]
  {
    NibblePair(hi, lo);
    var e: seq<Byte> := d + [16 * hi + lo];
    assert e[..|e| - 1] == d;
  }

  lemma {:induction false} PackSnoc(s: string)
    requires Digits(s) && |s| >= 2
    ensures Packed(s) == Packed(s[..|s| - 2]) + [16 * DigitValue(s[|s| - 2]) + DigitValue(s[|s| - 1])]
  {
  }

  lemma {:induction false} UnpackDigits(s: string, d: seq<Byte>)
    requires Digits(s) && |s| >= 2 && ValidBcd(d) && Unpacked(d) == s[..|s| - 2]
    ensures ValidBcd(d + [16 * DigitValue(s[|s| - 2]) + DigitValue(s[|s| - 1])])
    ensures Unpacked(d + [16 * DigitValue(s[|s| - 2]) + DigitValue(s[|s| - 1])]) == s
  {
    var n := |s| - 2;
    UnpackSnoc(d, DigitValue(s[n]), DigitValue(s[n + 1]));
    DigitBack(s[n]);
    DigitBack(s[n + 1]);
  }

  lemma {:induction false} UnpackPacked(s: string, pairs: nat)
    requires Digits(s) && |s| == 2 * pairs
    ensures ValidBcd(Packed(s)) && Unpacked(Packed(s)) == s
  {
    if pairs == 0 {
      assert s == [];
    } else {
      UnpackPacked(s[..|s| - 2], pairs - 1);
      PackSnoc(s);
      UnpackDigits(s, Packed(s[..|s| - 2]));
    }
  }

  lemma {:induction false} PackUnpacked(d: seq<Byte>)
    requires ValidBcd(d)
    ensures Packed(Unpacked(d)) == d
  {
    if d != [] {
      var n := |d| - 1;
      PackUnpacked(d[..n]);
      var s := Unpacked(d);
      assert s[..|s| - 2] == Unpacked(d[..n]);
      assert Packed(s) == d[..n] + [d[n]];
    }
  }

  /** Packing any digit string and decoding it at its own length gives it back. */
  lemma {:induction false} AsciiRoundTrip(s: string)
    requires Digits(s)
    ensures SizedDecode(Packed(Even(s)), |s|) == Ok(s)
  {
    UnpackPacked(Even(s), |Even(s)| / 2);
  }

  /** Decoding without a size and packing again restores every valid BCD vector. */
  lemma {:induction false} BcdRoundTrip(d: seq<Byte>)
    requires ValidBcd(d)
    ensures SizedDecode(d, 0).Ok? && Packed(Even(SizedDecode(d, 0).value)) == d
  {
    var s := Unpacked(d);
    assert Even(s) == s;
    PackUnpacked(d);
  }

  // ----- numeric value

  lemma {:induction false} UnpackedValue(d: seq<Byte>)
    requires ValidBcd(d)
    ensures Value(Unpacked(d)) == BcdValue(d)
  {
    if d != [] {
      var n := |d| - 1;
      UnpackedValue(d[..n]);
      var s := Unpacked(d);
      assert s[..|s| - 1][..|s| - 2] == Unpacked(d[..n]);
    }
  }

  /** Packing keeps the number a digit string denotes, whatever its length. */
  lemma {:induction false} PackedValue(s: string)
    requires Digits(s)
    ensures BcdValue(Packed(Even(s))) == Value(s)
  {
    var e := Even(s);
    UnpackPacked(e, |e| / 2);
    UnpackedValue(Packed(e));
    if |s| % 2 == 1 {
      PaddedValue(s, e);
    }
  }

  lemma {:induction false} PaddedValue(s: string, e: string)
    requires Digits(s) && Digits(e) && e == "0" + s
    ensures Value(e) == Value(s)
  {
    ValueSplit(e, 1);
    assert e[1..] == s && e[..1] == "0";
    OnlyZero("0");
  }

  lemma {:induction false} OnlyZero(z: string)
    requires z == "0"
    ensures Digits(z) && Value(z) == 0
  {
    assert z[..0] == [];
  }

  /** Each byte holds two digits of the padded string, the earlier one in its high half. */
  lemma {:induction false} PackedByte(s: string, i: nat)
    requires Digits(s) && |s| % 2 == 0 && 2 * i < |s|
    ensures |Packed(s)| == |s| / 2
    ensures Packed(s)[i] == 16 * (s[2 * i] as int - 48) + (s[2 * i + 1] as int - 48)
  {
    var n := |s| - 2;
    if 2 * i < n {
      PackedByte(s[..n], i);
    } else if n > 0 {
      PackedByte(s[..n], 0);
    }
  }

  lemma {:induction false} ValueBound(s: string)
    requires Digits(s)
    ensures Value(s) < Pow10(|s|)
  {
    if s != [] {
      ValueBound(s[..|s| - 1]);
    }
  }

  lemma {:induction false} ValueSplit(s: string, k: nat)
    requires Digits(s) && k <= |s|
    ensures Value(s) == Value(s[..k]) * Pow10(|s| - k) + Value(s[k..])
  {
    if k == |s| {
      assert s[..k] == s;
    } else {
      var n := |s| - 1;
      ValueSplit(s[..n], k);
      assert s[..n][..k] == s[..k] && s[..n][k..] == s[k..][..n - k];
      TimesTen(Value(s[..k]), Pow10(n - k), Pow10(|s| - k));
    }
  }

  lemma {:induction false} TimesTen(v: nat, p: nat, q: nat)
    requires q == 10 * p
    ensures v * q == 10 * (v * p)
  {
  }

  lemma {:induction false} ValueOfZeros(n: nat)
    ensures Digits(seq(n, _ => '0')) && Value(seq(n, _ => '0')) == 0
  {
    if n > 0 {
      ValueOfZeros(n - 1);
      assert seq(n, _ => '0')[..n - 1] == seq(n - 1, _ => '0');
    }
  }

  lemma {:induction false} Pow10Monotone(m: nat, n: nat)
    requires m <= n
    ensures Pow10(m) <= Pow10(n)
  {
    if m < n {
      Pow10Monotone(m, n - 1);
    }
  }

  /** Cutting or padding a digit string to `n > 0` digits takes its value modulo 10^n. */
  lemma {:induction false} FitValue(s: string, n: nat)
    requires Digits(s) && n > 0
    ensures Digits(Fit(s, n)) && |Fit(s, n)| == n
    ensures Value(Fit(s, n)) == Value(s) % Pow10(n)
  {
    var f := Fit(s, n);
    if |s| < n {
      var k := n - |s|;
      ValueOfZeros(k);
      assert f[..k] == seq(k, _ => '0') && f[k..] == s;
      ValueSplit(f, k);
      ValueBound(s);
      Pow10Monotone(|s|, n);
      ModOfSplit(Value(s), 0, Pow10(n), Value(s));
    } else {
      var k := |s| - n;
      ValueSplit(s, k);
      ValueBound(s[k..]);
      ModOfSplit(Value(s), Value(s[..k]), Pow10(n), Value(s[k..]));
    }
  }

  /** A decode at `n > 0` digits denotes the whole field modulo 10^n. */
  lemma {:induction false} SizedValue(d: seq<Byte>, n: nat)
    requires ValidBcd(d) && n > 0
    ensures Digits(Fit(Unpacked(d), n))
    ensures |Fit(Unpacked(d), n)| == n
    ensures Value(Fit(Unpacked(d), n)) == BcdValue(d) % Pow10(n)
  {
    UnpackedValue(d);
    FitValue(Unpacked(d), n);
  }

  /** The number formed by the last `n` decimal digits of `v`. */
  function LastDigits(v: nat, n: nat): nat {
    if n == 0 then 0 else 10 * LastDigits(v / 10, n - 1) + v % 10
  }

  lemma {:induction false} DivMod(w: nat, p: nat)
    requires p > 0
    ensures w == w / p * p + w % p && w % p < p
  {
  }

  lemma {:induction false} ModTen(v: nat, p: nat, q: nat)
    requires p > 0 && q == 10 * p
    ensures v % q == 10 * (v / 10 % p) + v % 10
  {
    var w := v / 10;
    DivMod(w, p);
    TimesTen(w / p, p, q);
    ModOfSplit(v, w / p, q, 10 * (w % p) + v % 10);
  }

  lemma {:induction false} LastDigitsIsMod(v: nat, n: nat)
    ensures LastDigits(v, n) == v % Pow10(n)
  {
    if n == 0 {
      ModOfSplit(v, v, 1, 0);
    } else {
      LastDigitsIsMod(v / 10, n - 1);
      ModTen(v, Pow10(n - 1), Pow10(n));
    }
  }

  /** What `bcdBytesToAsciiStringHelper` followed by a string-to-number conversion yields: it fails
      on an empty field, too. */
  function Number(d: seq<Byte>, digits: nat): Result<nat> {
    if d == [] || !ValidBcd(d) then Err
    else Ok(if digits == 0 then BcdValue(d) else LastDigits(BcdValue(d), digits))
  }

  lemma {:induction false} NumberBound(d: seq<Byte>, digits: nat)
    requires Number(d, digits).Ok? && digits > 0
    ensures Number(d, digits).value < Pow10(digits)
  {
    LastDigitsIsMod(BcdValue(d), digits);
  }

  method DecodeNumber(d: seq<Byte>, digits: nat) returns (r: Result<nat>)
    ensures r == Number(d, digits)
  {
    if d == [] {
      return Err;
    }
    var s := PackBcdToAscii(d, digits);
    if s.Err? {
      return Err;
    }
    if digits == 0 {
      UnpackedValue(d);
    } else {
      SizedValue(d, digits);
      LastDigitsIsMod(BcdValue(d), digits);
    }
    return Ok(Value(s.value));
  }

  /** A field decoded at its full width denotes its BCD value. */
  lemma {:induction false} WholeField(d: seq<Byte>)
    requires d != [] && ValidBcd(d)
    ensures BcdValue(d) < Pow10(2 * |d|)
    ensures Number(d, 2 * |d|) == Ok(BcdValue(d))
  {
    UnpackedValue(d);
    ValueBound(Unpacked(d));
    LastDigitsIsMod(BcdValue(d), 2 * |d|);
    ModOfSplit(BcdValue(d), 0, Pow10(2 * |d|), BcdValue(d));
  }

  // ----- encoding numbers, the inverse direction

  function EncodeNumber(v: nat, bytes: nat): (d: seq<Byte>)
    ensures |d| == bytes && ValidBcd(d)
  {
    if bytes == 0 then [] else
      EncodeNumber(v / 100, bytes - 1) + [v % 100 / 10 * 16 + v % 10]
  }

  lemma {:induction false} EncodedByte(v: nat)
    ensures var b := v % 100 / 10 * 16 + v % 10; 10 * (b / 16) + b % 16 == v % 100
  {
    var hi, lo := v % 100 / 10, v % 100 % 10;
    ModOfSplit(v, 10 * (v / 100) + hi, 10, lo);
    NibblePair(hi, lo);
  }

  lemma {:induction false} EncodedValue(v: nat, bytes: nat)
    requires v < Pow10(2 * bytes)
    ensures BcdValue(EncodeNumber(v, bytes)) == v
  {
    if bytes > 0 {
      assert Pow10(2 * bytes) == 10 * Pow10(2 * bytes - 1) == 100 * Pow10(2 * (bytes - 1));
      EncodedValue(v / 100, bytes - 1);
      var d := EncodeNumber(v, bytes);
      assert d[..bytes - 1] == EncodeNumber(v / 100, bytes - 1);
      EncodedByte(v);
    }
  }

  /** Any number that fits the declared digits survives the wire. */
  lemma {:induction false} NumberRoundTrip(v: nat, bytes: nat, digits: nat)
    requires v < Pow10(digits) && 0 < digits <= 2 * bytes
    ensures Number(EncodeNumber(v, bytes), digits) == Ok(v)
  {
    Pow10Monotone(digits, 2 * bytes);
    EncodedValue(v, bytes);
    LastDigitsIsMod(v, digits);
    ModOfSplit(v, 0, Pow10(digits), v);
  }

  lemma {:induction false} LastByte(u: nat, x: Byte, v: nat, y: Byte)
    requires ValidByte(x) && ValidByte(y)
    requires 100 * u + 10 * (x / 16) + x % 16 == 100 * v + 10 * (y / 16) + y % 16
    ensures u == v && x == y
  {
  }

  /** Two valid fields of the same width denote the same number only if they are equal. */
  lemma {:induction false} BcdValueInjective(c: seq<Byte>, d: seq<Byte>)
    requires |c| == |d| && ValidBcd(c) && ValidBcd(d) && BcdValue(c) == BcdValue(d)
    ensures c == d
  {
    if c != [] {
      var n := |c| - 1;
      var x, y := c[n], d[n];
      assert ValidByte(x) && ValidByte(y);
      LastByte(BcdValue(c[..n]), x, BcdValue(d[..n]), y);
      BcdValueInjective(c[..n], d[..n]);
      assert c == c[..n] + [x] && d == d[..n] + [y];
    }
  }
}

/** Bytes, machine-width integers and the two-way results shared by every component. */
module Bytes {

  type Byte = b: int | 0 <= b < 0x100
  type U16 = n: int | 0 <= n < 0x1_0000
  type U32 = n: int | 0 <= n < 0x1_0000_0000

  datatype Option<+T> = None | Some(value: T)

  /** `Err` stands for the C++ exception that the operation throws. */
  datatype Result<+T> = Ok(value: T) | Err

  // Network byte order, as htons/htonl produce it and ntohs/ntohl read it.

  function Put16(n: U16): (s: seq<Byte>)
    ensures |s| == 2 && Get16(s, 0) == n
  {
    [n / 0x100, n % 0x100]
  }

  function Get16(s: seq<Byte>, at: nat): (n: U16)
    requires at + 2 <= |s|
  {
    s[at] as int * 0x100 + s[at + 1]
  }

  function Put32(n: U32): (s: seq<Byte>)
    ensures |s| == 4 && Get32(s, 0) == n
  {
    Put16(n / 0x1_0000) + Put16(n % 0x1_0000)
  }

  function Get32(s: seq<Byte>, at: nat): (n: U32)
    requires at + 4 <= |s|
  {
    Get16(s, at) as int * 0x1_0000 + Get16(s, at + 2)
  }

  /** The k-th binary digit, counted from the lowest. */
  predicate Bit(n: nat, k: nat) {
    if k == 0 then n % 2 == 1 else Bit(n / 2, k - 1)
  }

  function Pow2(n: nat): nat {
    if n == 0 then 1 else 2 * Pow2(n - 1)
  }

  /** The most significant byte comes first. */
  lemma {:induction false} NetworkOrder(a: Byte, b: Byte, c: Byte, d: Byte)
    ensures Get16([a, b], 0) == 256 * a + b
    ensures Get32([a, b, c, d], 0) == 16_777_216 * a + 65_536 * b + 256 * c + d
  {
  }

  lemma {:induction false} BitOfDouble(n: nat, low: nat, k: nat)
    requires low < 2
    ensures Bit(2 * n + low, k) <==> if k == 0 then low == 1 else Bit(n, k - 1)
  {
    ModOfSplit(2 * n + low, n, 2, low);
    assert (2 * n + low) / 2 == n;
  }

  lemma {:induction false} NoBit(k: nat)
    ensures !Bit(0, k)
  {
    if k > 0 {
      NoBit(k - 1);
    }
  }

  /** Reading an integer and writing it again restores the bytes. */
  lemma {:induction false} PutGet16(s: seq<Byte>, at: nat)
    requires at + 2 <= |s|
    ensures Put16(Get16(s, at)) == s[at..at + 2]
  {
  }

  lemma {:induction false} PutGet32(s: seq<Byte>, at: nat)
    requires at + 4 <= |s|
    ensures Put32(Get32(s, at)) == s[at..at + 4]
  {
    PutGet16(s, at);
    PutGet16(s, at + 2);
    assert s[at..at + 4] == s[at..at + 2] + s[at + 2..at + 4];
  }

  /** An integer written in the middle of a byte string is read back from there. */
  lemma {:induction false} GetPut16(a: seq<Byte>, n: U16, c: seq<Byte>)
    ensures Get16(a + Put16(n) + c, |a|) == n
  {
    var s := a + Put16(n) + c;
    assert s[|a|] == Put16(n)[0] && s[|a| + 1] == Put16(n)[1];
  }

  lemma {:induction false} GetPut32(a: seq<Byte>, n: U32, c: seq<Byte>)
    ensures Get32(a + Put32(n) + c, |a|) == n
  {
    var hi: U16, lo: U16 := n / 0x1_0000, n % 0x1_0000;
    GetPut16(a, hi, Put16(lo) + c);
    GetPut16(a + Put16(hi), lo, c);
    assert a + Put32(n) + c == a + Put16(hi) + (Put16(lo) + c) == a + Put16(hi) + Put16(lo) + c;
  }

  lemma {:induction false} ConcatSlices<T>(a: seq<T>, b: seq<T>, c: seq<T>, n: nat)
    ensures a + b + c == a + (b + c)
    ensures n <= |b| ==> (a + b)[|a|..|a| + n] == b[..n]
  {
  }

  lemma {:induction false} PrefixSlices<T>(s: seq<T>, k: nat, n: nat)
    requires k <= n < |s|
    ensures s[..n][..k] == s[..k] && s[..n][k..] == s[k..n] && s[..n + 1] == s[..n] + [s[n]]
  {
  }

  lemma {:induction false} MultipleIsLarge(x: int, p: int)
    requires p > 0
    ensures x == 0 || x * p >= p || x * p <= -p
  {
    if x >= 1 {
      assert (x - 1) * p >= 0;
    } else if x <= -1 {
      assert (-x - 1) * p >= 0;
    }
  }

  lemma {:induction false} ModOfSplit(v: nat, q: nat, p: nat, r: nat)
    requires v == q * p + r && r < p
    ensures v % p == r
  {
    assert (v / p - q) * p == r - v % p;
    MultipleIsLarge(v / p - q, p);
  }

  lemma {:induction false} SubsetSize<T>(a: set<T>, b: set<T>)
    requires a <= b
    ensures |a| <= |b|
    ensures |a| == |b| ==> a == b
  {
    assert b == a + (b - a);
    if |a| == |b| {
      assert b - a == {};
    }
  }

  lemma {:induction false} Pow2Sum(a: nat, b: nat)
    ensures Pow2(a + b) == Pow2(a) * Pow2(b)
  {
    if a > 0 {
      Pow2Sum(a - 1, b);
      assert Pow2(a) * Pow2(b) == 2 * (Pow2(a - 1) * Pow2(b));
    }
  }

  lemma {:induction false} ThirtyTwoBits()
    ensures Pow2(32) == 0x1_0000_0000
  {
    assert Pow2(8) == 0x100;
    Pow2Sum(8, 8);
    Pow2Sum(16, 16);
  }

  /** The bits of a number put together from a high part and a low part of `w` bits. */
  lemma {:induction false} BitOfParts(high: nat, low: nat, w: nat, k: nat)
    requires low < Pow2(w)
    ensures Bit(high * Pow2(w) + low, k) <==> if k < w then Bit(low, k) else Bit(high, k - w)
  {
    if w > 0 {
      var p := Pow2(w - 1);
      var n := high * Pow2(w) + low;
      assert high * Pow2(w) == 2 * (high * p);
      assert n == 2 * (high * p + low / 2) + low % 2;
      BitOfDouble(high * p + low / 2, low % 2, k);
      if k > 0 {
        BitOfParts(high, low / 2, w - 1, k - 1);
      }
    }
  }
}

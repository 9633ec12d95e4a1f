/** The two check codes: XOR for market frames (checksum.cpp) and byte sum for
    retransmission frames (retransmission_protocol.cpp). */
module Checksum {
  import opened Bytes

  /** Exclusive or of the low `width` bits, one bit at a time. */
  function XorBits(a: nat, b: nat, width: nat): (x: nat)
    ensures x < Pow2(width)
  {
    if width == 0 then 0 else 2 * XorBits(a / 2, b / 2, width - 1) + (a + b) % 2
  }

  function Xor(a: Byte, b: Byte): Byte {
    assert Pow2(8) == 0x100;
    XorBits(a, b, 8)
  }

  lemma {:induction false} SameParity(a: nat, b: nat, c: nat)
    requires (a + c) % 2 == (b + c) % 2 && a / 2 == b / 2
    ensures a == b
  {
    assert a == 2 * (a / 2) + a % 2 && b == 2 * (b / 2) + b % 2;
  }

  lemma {:induction false} XorBitsCommute(a: nat, b: nat, width: nat)
    ensures XorBits(a, b, width) == XorBits(b, a, width)
  {
    if width > 0 {
      XorBitsCommute(a / 2, b / 2, width - 1);
    }
  }

  lemma {:induction false} XorBitsCancel(a: nat, b: nat, c: nat, width: nat)
    requires a < Pow2(width) && b < Pow2(width)
    requires XorBits(a, c, width) == XorBits(b, c, width)
    ensures a == b
  {
    if width > 0 {
      XorBitsCancel(a / 2, b / 2, c / 2, width - 1);
      SameParity(a, b, c);
    }
  }

  /** Changing one operand of an XOR always changes the result. */
  lemma {:induction false} XorCancel(a: Byte, b: Byte, c: Byte)
    ensures Xor(a, c) == Xor(b, c) ==> a == b
    ensures Xor(c, a) == Xor(c, b) ==> a == b
  {
    XorBitsCommute(a, c, 8);
    XorBitsCommute(b, c, 8);
    if Xor(a, c) == Xor(b, c) {
      XorBitsCancel(a, b, c, 8);
    }
  }

  lemma {:induction false} ParityOfSum(a: nat, b: nat)
    ensures (a + b) % 2 == 1 <==> (a % 2 == 1) != (b % 2 == 1)
  {
  }

  lemma {:induction false} XorBit(a: nat, b: nat, width: nat, k: nat)
    requires k < width
    ensures Bit(XorBits(a, b, width), k) <==> Bit(a, k) != Bit(b, k)
  {
    BitOfDouble(XorBits(a / 2, b / 2, width - 1), (a + b) % 2, k);
    if k > 0 {
      XorBit(a / 2, b / 2, width - 1, k - 1);
    } else {
      ParityOfSum(a, b);
    }
  }

  /** How many bytes have bit k set. */
  function BytesWithBit(s: seq<Byte>, k: nat): nat {
    if s == [] then 0
    else if Bit(s[|s| - 1], k) then BytesWithBit(s[..|s| - 1], k) + 1
    else BytesWithBit(s[..|s| - 1], k)
  }

  /** Bit k of the check code is the parity of the number of bytes that have it set. */
  lemma {:induction false} XorIsParity(s: seq<Byte>, k: nat)
    requires k < 8
    ensures Bit(XorOf(s), k) <==> BytesWithBit(s, k) % 2 == 1
  {
    if s == [] {
      NoBit(k);
    } else {
      XorIsParity(s[..|s| - 1], k);
      XorBit(XorOf(s[..|s| - 1]), s[|s| - 1], 8, k);
      ParityOfSum(BytesWithBit(s[..|s| - 1], k), 1);
    }
  }

  function XorOf(s: seq<Byte>): Byte {
    if s == [] then 0 else Xor(XorOf(s[..|s| - 1]), s[|s| - 1])
  }

  method CalculateXorChecksum(data: seq<Byte>) returns (checksum: Byte)
    ensures checksum == XorOf(data)
    ensures forall k: nat | k < 8 :: Bit(checksum, k) <==> BytesWithBit(data, k) % 2 == 1
  {
    forall k: nat | k < 8
      ensures Bit(XorOf(data), k) <==> BytesWithBit(data, k) % 2 == 1
    {
      XorIsParity(data, k);
    }
    checksum := 0;
    if data == [] {
      return;
    }
    for i := 0 to |data|
      invariant checksum == XorOf(data[..i])
    {
      assert data[..i + 1][..i] == data[..i];
      checksum := Xor(checksum, data[i]);
    }
    assert data[..|data|] == data;
  }

  /** Replacing a single byte keeps the XOR exactly when it writes the same byte back. */
  lemma {:induction false} XorDetectsOneByte(s: seq<Byte>, i: nat, b: Byte)
    requires i < |s|
    ensures XorOf(s[i := b]) == XorOf(s) <==> b == s[i]
  {
    var n := |s| - 1;
    var t := s[i := b];
    if i == n {
      assert t[..n] == s[..n];
      XorCancel(s[n], b, XorOf(s[..n]));
    } else {
      assert t[..n] == s[..n][i := b];
      XorDetectsOneByte(s[..n], i, b);
      XorCancel(XorOf(t[..n]), XorOf(s[..n]), s[n]);
    }
    if b == s[i] {
      assert t == s;
    }
  }

  function SumOf(s: seq<Byte>): nat {
    if s == [] then 0 else SumOf(s[..|s| - 1]) + s[|s| - 1]
  }

  lemma {:induction false} WrapIsHarmless(x: nat, b: Byte)
    ensures (x % 0x1_0000_0000 + b) % 0x1_0000_0000 == (x + b) % 0x1_0000_0000
    ensures x % 0x1_0000_0000 % 0x100 == x % 0x100
  {
    var q, r := x / 0x1_0000_0000, x % 0x1_0000_0000;
    if r + b < 0x1_0000_0000 {
      ModOfSplit(x + b, q, 0x1_0000_0000, r + b);
    } else {
      ModOfSplit(r + b, 1, 0x1_0000_0000, r + b - 0x1_0000_0000);
      ModOfSplit(x + b, q + 1, 0x1_0000_0000, r + b - 0x1_0000_0000);
    }
    ModOfSplit(x, q * 0x100_0000 + r / 0x100, 0x100, r % 0x100);
  }

  /** The 32-bit accumulator may wrap on a huge segment; the low byte is still right. */
  method CalculateRetransmissionChecksum(data: seq<Byte>) returns (checksum: Byte)
    ensures checksum == SumOf(data) % 0x100
  {
    var sum: U32 := 0;
    for i := 0 to |data|
      invariant sum == SumOf(data[..i]) % 0x1_0000_0000
    {
      assert data[..i + 1][..i] == data[..i];
      WrapIsHarmless(SumOf(data[..i]), data[i]);
      sum := (sum + data[i]) % 0x1_0000_0000;
    }
    assert data[..|data|] == data;
    WrapIsHarmless(SumOf(data), 0);
    return sum % 0x100;
  }

  lemma {:induction false} SumAfterWrite(s: seq<Byte>, i: nat, b: Byte)
    requires i < |s|
    ensures SumOf(s[i := b]) == SumOf(s) - s[i] + b
  {
    var n := |s| - 1;
    if i == n {
      assert s[i := b][..n] == s[..n];
    } else {
      assert s[i := b][..n] == s[..n][i := b];
      SumAfterWrite(s[..n], i, b);
    }
  }

  /** Replacing a single byte keeps the sum modulo 256 exactly when it writes the same byte back. */
  lemma {:induction false} SumDetectsOneByte(s: seq<Byte>, i: nat, b: Byte)
    requires i < |s|
    ensures SumOf(s[i := b]) % 0x100 == SumOf(s) % 0x100 <==> b == s[i]
  {
    SumAfterWrite(s, i, b);
  }
}

// Bytes, big-endian numbers and exclusive or.
module Bytes {

  type byte = x: int | 0 <= x < 256

  function Pow256(width: nat): (p: nat)
    ensures p > 0
  {
    if width == 0 then 1 else 256 * Pow256(width - 1)
  }

  /** The number that big-endian bytes stand for. */
  function BigEndian(bytes: seq<byte>): (n: nat)
  {
    if bytes == [] then 0 else 256 * BigEndian(bytes[..|bytes| - 1]) + bytes[|bytes| - 1]
  }

  /** The `width` low bytes of a number, most significant first. */
  function ToBigEndian(n: nat, width: nat): (bytes: seq<byte>)
    ensures |bytes| == width
  {
    if width == 0 then [] else ToBigEndian(n / 256, width - 1) + [n % 256]
  }

  lemma {:induction false} BigEndianInverse(n: nat, width: nat)
    requires n < Pow256(width)
    ensures BigEndian(ToBigEndian(n, width)) == n
  {
    if width > 0 {
      BigEndianInverse(n / 256, width - 1);
      var bytes := ToBigEndian(n, width);
      assert bytes[..width - 1] == ToBigEndian(n / 256, width - 1);
    }
  }

  lemma {:induction false} BigEndianBound(bytes: seq<byte>)
    ensures BigEndian(bytes) < Pow256(|bytes|)
  {
    if bytes != [] {
      BigEndianBound(bytes[..|bytes| - 1]);
    }
  }

  lemma {:induction false} ToBigEndianInverse(bytes: seq<byte>)
    ensures ToBigEndian(BigEndian(bytes), |bytes|) == bytes
  {
    if bytes != [] {
      var front := bytes[..|bytes| - 1];
      ToBigEndianInverse(front);
      assert BigEndian(bytes) / 256 == BigEndian(front);
      assert bytes == front + [bytes[|bytes| - 1]];
    }
  }

  lemma SplitStep(n: nat, q: nat, r: nat, high: nat, low: nat)
    requires n % 256 == r % 256
    requires ToBigEndian(n / 256, high + low) == ToBigEndian(q, high) + ToBigEndian(r / 256, low)
    ensures ToBigEndian(n, high + (low + 1)) == ToBigEndian(q, high) + ToBigEndian(r, low + 1)
  {
    var a, b, c := ToBigEndian(q, high), ToBigEndian(r / 256, low), [n % 256];
    assert ToBigEndian(n, high + low + 1) == (a + b) + c;
    assert ToBigEndian(r, low + 1) == b + c;
    assert a + (b + c) == (a + b) + c;
  }

  lemma TimesAssociates(q: nat, p: nat)
    ensures q * (256 * p) == 256 * (q * p)
  {
  }

  /** Writing a number as a high part and a low part is writing it whole. */
  lemma {:induction false} ToBigEndianSplit(n: nat, q: nat, r: nat, high: nat, low: nat)
    requires n == q * Pow256(low) + r && r < Pow256(low)
    ensures ToBigEndian(n, high + low) == ToBigEndian(q, high) + ToBigEndian(r, low)
    decreases low
  {
    if low == 0 {
      assert ToBigEndian(q, high) + [] == ToBigEndian(q, high);
    } else {
      TimesAssociates(q, Pow256(low - 1));
      var x := q * Pow256(low - 1);
      assert n == 256 * x + r;
      ToBigEndianSplit(n / 256, q, r / 256, high, low - 1);
      SplitStep(n, q, r, high, low - 1);
    }
  }

  /** DataView.setUint32. */
  method WriteUint32(bytes: array<byte>, offset: nat, value: nat)
    requires offset + 4 <= bytes.Length && value < 0x1_0000_0000
    modifies bytes
    ensures bytes[..] == old(bytes[..offset]) + ToBigEndian(value, 4) + old(bytes[offset + 4..])
  {
    bytes[offset] := value / 0x100_0000;
    bytes[offset + 1] := value / 0x1_0000 % 256;
    bytes[offset + 2] := value / 0x100 % 256;
    bytes[offset + 3] := value % 256;
    assert ToBigEndian(value, 4) == [value / 256 / 256 / 256 % 256, value / 256 / 256 % 256, value / 256 % 256, value % 256];
  }

  // ---- Exclusive or ----

  function XorBits(a: nat, b: nat, bits: nat): (r: nat) {
    if bits == 0 then 0 else (if a % 2 == b % 2 then 0 else 1) + 2 * XorBits(a / 2, b / 2, bits - 1)
  }

  function Pow2(n: nat): (p: nat)
    ensures p > 0
  {
    if n == 0 then 1 else 2 * Pow2(n - 1)
  }

  lemma {:induction false} XorBitsBound(a: nat, b: nat, bits: nat)
    ensures XorBits(a, b, bits) < Pow2(bits)
  {
    if bits > 0 {
      XorBitsBound(a / 2, b / 2, bits - 1);
    }
  }

  lemma XorDigits(low: nat, high: nat)
    requires low < 2
    ensures (low + 2 * high) % 2 == low && (low + 2 * high) / 2 == high
  {
  }

  lemma {:induction false} XorBitsInvolution(a: nat, b: nat, bits: nat)
    requires a < Pow2(bits)
    ensures XorBits(XorBits(a, b, bits), b, bits) == a
  {
    if bits > 0 {
      XorBitsInvolution(a / 2, b / 2, bits - 1);
      XorDigits(if a % 2 == b % 2 then 0 else 1, XorBits(a / 2, b / 2, bits - 1));
    }
  }

  /** The `^` of two bytes. */
  function Xor(a: byte, b: byte): (r: byte) {
    XorBitsBound(a, b, 8);
    assert Pow2(8) == 256;
    XorBits(a, b, 8)
  }

  lemma XorInvolution(a: byte, b: byte)
    ensures Xor(Xor(a, b), b) == a
  {
    assert Pow2(8) == 256;
    XorBitsInvolution(a, b, 8);
  }
}

// Crockford base32 with a carry buffer (toCrockfordBase32 in
// packages/protocol-ts/src/identity.ts).
module Base32 {
  import opened Bytes

  type Digit32 = x: int | 0 <= x < 32

  // ---- Numbers in base 32 ----

  function Number32(digits: seq<Digit32>): (n: nat) {
    if digits == [] then 0 else 32 * Number32(digits[..|digits| - 1]) + digits[|digits| - 1]
  }

  /** The `width` low base-32 digits of a number, most significant first. */
  function Numeral32(n: nat, width: nat): (digits: seq<Digit32>)
    ensures |digits| == width
  {
    if width == 0 then [] else Numeral32(n / 32, width - 1) + [n % 32]
  }

  lemma {:induction false} NumeralOfNumber(digits: seq<Digit32>)
    ensures Numeral32(Number32(digits), |digits|) == digits
  {
    if digits != [] {
      var front := digits[..|digits| - 1];
      NumeralOfNumber(front);
      assert Number32(digits) / 32 == Number32(front);
      assert digits == front + [digits[|digits| - 1]];
    }
  }

  lemma Pow2Adds(n: nat)
    ensures Pow2(n + 5) == 32 * Pow2(n) && Pow2(n + 8) == 256 * Pow2(n)
  {
    assert Pow2(n + 4) == 16 * Pow2(n) by {
      assert Pow2(n + 2) == 4 * Pow2(n);
    }
    assert Pow2(n + 8) == 16 * Pow2(n + 4) by {
      assert Pow2(n + 6) == 4 * Pow2(n + 4);
    }
  }

  lemma {:induction false} NumberOfNumeral(n: nat, width: nat)
    requires n < Pow2(5 * width)
    ensures Number32(Numeral32(n, width)) == n
  {
    if width > 0 {
      Pow2Adds(5 * (width - 1));
      NumberOfNumeral(n / 32, width - 1);
      assert Numeral32(n, width)[..width - 1] == Numeral32(n / 32, width - 1);
    }
  }

  lemma {:induction false} Pow256IsPow2(n: nat)
    ensures Pow256(n) == Pow2(8 * n)
  {
    if n > 0 {
      Pow256IsPow2(n - 1);
      Pow2Adds(8 * (n - 1));
    }
  }

  // ---- The encoding as a number ----

  function Width(n: nat): (w: nat)
    ensures 5 * w - 8 < 8 * n + 4 && 8 * n <= 5 * w < 8 * n + 5
  {
    (8 * n + 4) / 5
  }

  /** The zero bits behind the last byte. */
  function PadBits(n: nat): (bits: nat)
    ensures bits < 5 && 8 * n + bits == 5 * Width(n)
  {
    5 * Width(n) - 8 * n
  }

  function ShiftLeft(n: nat, bits: nat): (r: nat) {
    if bits == 0 then n else 2 * ShiftLeft(n, bits - 1)
  }

  lemma {:induction false} ShiftFits(n: nat, k: nat, bits: nat)
    requires n < Pow2(k)
    ensures ShiftLeft(n, bits) < Pow2(k + bits)
  {
    if bits > 0 {
      ShiftFits(n, k, bits - 1);
    }
  }

  lemma {:induction false} ShiftInjective(m: nat, n: nat, bits: nat)
    requires ShiftLeft(m, bits) == ShiftLeft(n, bits)
    ensures m == n
  {
    if bits > 0 {
      ShiftInjective(m, n, bits - 1);
    }
  }

  /** The bytes read as one number, shifted by the padding bits, in base 32. */
  function Digits32(bytes: seq<byte>): (digits: seq<Digit32>)
    ensures |digits| == Width(|bytes|)
  {
    Numeral32(ShiftLeft(BigEndian(bytes), PadBits(|bytes|)), Width(|bytes|))
  }

  lemma ShiftedValue(bytes: seq<byte>, pad: nat, width: nat)
    requires 8 * |bytes| + pad == 5 * width
    ensures Number32(Numeral32(ShiftLeft(BigEndian(bytes), pad), width)) == ShiftLeft(BigEndian(bytes), pad)
  {
    BigEndianBound(bytes);
    Pow256IsPow2(|bytes|);
    ShiftFits(BigEndian(bytes), 8 * |bytes|, pad);
    NumberOfNumeral(ShiftLeft(BigEndian(bytes), pad), width);
  }

  lemma Digits32Value(bytes: seq<byte>)
    ensures Number32(Digits32(bytes)) == ShiftLeft(BigEndian(bytes), PadBits(|bytes|))
  {
    ShiftedValue(bytes, PadBits(|bytes|), Width(|bytes|));
  }

  /** Different bytes have different digits. */
  lemma Digits32Injective(a: seq<byte>, b: seq<byte>)
    requires Digits32(a) == Digits32(b)
    ensures a == b
  {
    Digits32Value(a);
    Digits32Value(b);
    assert |a| == |b|;
    ShiftInjective(BigEndian(a), BigEndian(b), PadBits(|a|));
    ToBigEndianInverse(a);
    ToBigEndianInverse(b);
  }

  // ---- Characters ----

  /** The digits and the letters without I, L, O and U. */
  function Char32(d: Digit32): (c: char) {
    if d < 10 then '0' + d as char
    else if d < 18 then 'A' + (d - 10) as char
    else if d < 20 then 'J' + (d - 18) as char
    else if d < 22 then 'M' + (d - 20) as char
    else if d < 27 then 'P' + (d - 22) as char
    else 'V' + (d - 27) as char
  }

  predicate IsChar32(c: char) {
    ('0' <= c <= '9' || 'A' <= c <= 'Z') && c != 'I' && c != 'L' && c != 'O' && c != 'U'
  }

  lemma Char32Injective(d: Digit32, e: Digit32)
    ensures IsChar32(Char32(d)) && (Char32(d) == Char32(e) ==> d == e)
  {
  }

  function Text32(digits: seq<Digit32>): (text: string)
    ensures |text| == |digits|
  {
    if digits == [] then "" else Text32(digits[..|digits| - 1]) + [Char32(digits[|digits| - 1])]
  }

  lemma {:induction false} Text32Injective(d: seq<Digit32>, e: seq<Digit32>)
    requires Text32(d) == Text32(e)
    ensures d == e
  {
    if d != [] {
      var m := |d| - 1;
      assert Text32(d)[..m] == Text32(d[..m]) && Text32(e)[..m] == Text32(e[..m]);
      Text32Injective(d[..m], e[..m]);
      assert Text32(d)[m] == Text32(e)[m];
      Char32Injective(d[m], e[m]);
      assert d == d[..m] + [d[m]] && e == e[..m] + [e[m]];
    }
  }

  lemma {:induction false} Text32Chars(digits: seq<Digit32>)
    ensures forall i :: 0 <= i < |digits| ==> IsChar32(Text32(digits)[i])
  {
    if digits != [] {
      Text32Chars(digits[..|digits| - 1]);
      Char32Injective(digits[|digits| - 1], 0);
    }
  }

  function Encode(bytes: seq<byte>): (text: string)
    ensures |text| == Width(|bytes|)
  {
    Text32(Digits32(bytes))
  }

  lemma EncodeChars(bytes: seq<byte>)
    ensures forall i :: 0 <= i < |Encode(bytes)| ==> IsChar32(Encode(bytes)[i])
  {
    Text32Chars(Digits32(bytes));
  }

  lemma EncodeInjective(a: seq<byte>, b: seq<byte>)
    requires Encode(a) == Encode(b)
    ensures a == b
  {
    Text32Injective(Digits32(a), Digits32(b));
    Digits32Injective(a, b);
  }

  // ---- The loop ----

  /** `buffer >>> bits`. */
  function ShiftRight(n: nat, bits: nat): (r: nat) {
    if bits == 0 then n else ShiftRight(n / 2, bits - 1)
  }

  /** `buffer & ((1 << bits) - 1)`. */
  function Low(n: nat, bits: nat): (r: nat)
    ensures r < Pow2(bits)
  {
    if bits == 0 then 0 else 2 * Low(n / 2, bits - 1) + n % 2
  }

  lemma {:induction false} LowOfSmall(n: nat, bits: nat)
    requires n < Pow2(bits)
    ensures Low(n, bits) == n
  {
    if bits > 0 {
      LowOfSmall(n / 2, bits - 1);
    }
  }

  /** The low bits of a buffer are a digit and the bits below it. */
  lemma {:induction false} LowSplits(n: nat, bits: nat)
    ensures Low(n, bits + 5) == ShiftLeft(Low(ShiftRight(n, bits), 5), bits) + Low(n, bits)
  {
    if bits > 0 {
      LowSplits(n / 2, bits - 1);
    }
  }

  lemma {:induction false} ShiftSum(m: nat, n: nat, bits: nat)
    ensures ShiftLeft(m + n, bits) == ShiftLeft(m, bits) + ShiftLeft(n, bits)
  {
    if bits > 0 {
      ShiftSum(m, n, bits - 1);
    }
  }

  lemma {:induction false} ShiftTwice(n: nat, i: nat, j: nat)
    ensures ShiftLeft(ShiftLeft(n, i), j) == ShiftLeft(n, i + j)
  {
    if j > 0 {
      ShiftTwice(n, i, j - 1);
    }
  }

  lemma ShiftFive(n: nat)
    ensures ShiftLeft(n, 5) == 32 * n
  {
    assert ShiftLeft(n, 3) == 8 * n by {
      assert ShiftLeft(n, 1) == 2 * n;
    }
  }

  lemma ShiftEight(n: nat)
    ensures ShiftLeft(n, 8) == 256 * n
  {
    ShiftFive(n);
    assert ShiftLeft(n, 7) == 4 * ShiftLeft(n, 5);
  }

  /** The digits so far and the low bits of the buffer make up the bytes so far. */
  ghost predicate Carries(digits: seq<Digit32>, buffer: nat, bits: nat, total: nat) {
    ShiftLeft(Number32(digits), bits) + Low(buffer, bits) == total
  }

  /** `& 31`. */
  function LowDigit(n: nat): (d: Digit32) {
    assert Pow2(5) == 32;
    Low(n, 5)
  }

  lemma EmitDigit(digits: seq<Digit32>, buffer: nat, bits: nat, total: nat)
    requires Carries(digits, buffer, bits + 5, total)
    ensures Carries(digits + [LowDigit(ShiftRight(buffer, bits))], buffer, bits, total)
  {
    var n, d := Number32(digits), LowDigit(ShiftRight(buffer, bits));
    LowSplits(buffer, bits);
    ShiftFive(n);
    ShiftTwice(n, 5, bits);
    ShiftSum(32 * n, d, bits);
  }

  lemma TakeByte(digits: seq<Digit32>, buffer: nat, bits: nat, total: nat, b: byte)
    requires buffer < Pow2(bits) && ShiftLeft(Number32(digits), bits) + buffer == total
    ensures Carries(digits, buffer * 256 + b, bits + 8, 256 * total + b)
  {
    Pow2Adds(bits);
    LowOfSmall(buffer * 256 + b, bits + 8);
    ShiftTwice(Number32(digits), bits, 8);
    ShiftEight(ShiftLeft(Number32(digits), bits));
  }

  lemma LastDigit(digits: seq<Digit32>, buffer: nat, bits: nat, total: nat)
    requires bits < 5 && buffer < Pow2(bits) && ShiftLeft(Number32(digits), bits) + buffer == total
    ensures Number32(digits + [LowDigit(ShiftLeft(buffer, 5 - bits))]) == ShiftLeft(total, 5 - bits)
    ensures bits == 0 ==> Number32(digits) == total
  {
    var n := Number32(digits);
    ShiftSum(ShiftLeft(n, bits), buffer, 5 - bits);
    ShiftTwice(n, bits, 5 - bits);
    ShiftFive(n);
    ShiftFits(buffer, bits, 5 - bits);
    LowOfSmall(ShiftLeft(buffer, 5 - bits), 5);
  }

  lemma NumeralIs(digits: seq<Digit32>, bytes: seq<byte>, pad: nat)
    requires 5 * |digits| == 8 * |bytes| + pad && pad < 5 && Number32(digits) == ShiftLeft(BigEndian(bytes), pad)
    ensures digits == Digits32(bytes)
  {
    NumeralOfNumber(digits);
    assert |digits| == Width(|bytes|) && pad == PadBits(|bytes|);
  }

  /** What the loop keeps after `n` bytes that make up `total`: the output is
      the digits so far, and fewer than five bits are carried. */
  ghost predicate Coding(output: string, buffer: nat, bits: nat, digits: seq<Digit32>, n: nat, total: nat) {
    && output == Text32(digits) && 8 * n == 5 * |digits| + bits
    && bits < 5 && buffer < Pow2(bits) && ShiftLeft(Number32(digits), bits) + buffer == total
  }

  /** The first `i` bytes as one number. */
  function PrefixNumber(value: seq<byte>, i: nat): (n: nat)
    requires i <= |value|
  {
    if i == 0 then 0 else 256 * PrefixNumber(value, i - 1) + value[i - 1]
  }

  lemma {:induction false} PrefixIsBigEndian(value: seq<byte>, i: nat)
    requires i <= |value|
    ensures PrefixNumber(value, i) == BigEndian(value[..i])
  {
    if i > 0 {
      PrefixIsBigEndian(value, i - 1);
      assert value[..i][..i - 1] == value[..i - 1];
    }
  }

  /** The body of the outer loop, for byte `i`. */
  method PushByte(output: string, buffer: nat, bits: nat, value: seq<byte>, i: nat, ghost digits: seq<Digit32>)
    returns (pushed: string, carried: nat, left: nat, ghost more: seq<Digit32>)
    requires i < |value| && Coding(output, buffer, bits, digits, i, PrefixNumber(value, i))
    ensures Coding(pushed, carried, left, more, i + 1, PrefixNumber(value, i + 1))
  {
    ghost var total := PrefixNumber(value, i + 1);
    TakeByte(digits, buffer, bits, PrefixNumber(value, i), value[i]);
    carried := buffer * 256 + value[i];
    pushed, left, more := output, bits + 8, digits;
    while left >= 5
      invariant 8 * i + 8 == 5 * |more| + left
      invariant Carries(more, carried, left, total) && pushed == Text32(more)
    {
      left := left - 5;
      var d := LowDigit(ShiftRight(carried, left));
      EmitDigit(more, carried, left, total);
      more := more + [d];
      pushed := pushed + [Char32(d)];
    }
    LowOfSmall(Low(carried, left), left);
    carried := Low(carried, left);
  }

  lemma WholePrefix(value: seq<byte>)
    ensures PrefixNumber(value, |value|) == BigEndian(value)
  {
    PrefixIsBigEndian(value, |value|);
    assert value[..|value|] == value;
  }

  /** The last digit carries the bits that are left, with zero bits behind them. */
  method PushLast(output: string, buffer: nat, bits: nat, ghost digits: seq<Digit32>, ghost bytes: seq<byte>)
    returns (pushed: string)
    requires Coding(output, buffer, bits, digits, |bytes|, PrefixNumber(bytes, |bytes|))
    ensures pushed == Encode(bytes)
  {
    pushed := output;
    WholePrefix(bytes);
    LastDigit(digits, buffer, bits, BigEndian(bytes));
    if bits > 0 {
      var d := LowDigit(ShiftLeft(buffer, 5 - bits));
      NumeralIs(digits + [d], bytes, 5 - bits);
      pushed := pushed + [Char32(d)];
    } else {
      NumeralIs(digits, bytes, 0);
    }
  }

  lemma CodingStarts(value: seq<byte>)
    ensures Coding("", 0, 0, [], 0, PrefixNumber(value, 0))
  {
  }

  method ToCrockfordBase32(value: seq<byte>) returns (output: string)
    ensures output == Encode(value)
  {
    output := "";
    var buffer: nat, bits: nat := 0, 0;
    ghost var digits: seq<Digit32> := [];
    CodingStarts(value);
    for i := 0 to |value|
      invariant Coding(output, buffer, bits, digits, i, PrefixNumber(value, i))
    {
      output, buffer, bits, digits := PushByte(output, buffer, bits, value, i, digits);
    }
    output := PushLast(output, buffer, bits, digits, value);
  }
}
// Base64url without padding (toBase64Url and fromBase64Url in
// packages/protocol-ts/src/identity.ts; section 5 of RFC 4648).
module Base64UrlSpec {
  import opened Bytes

  type Sextet = x: int | 0 <= x < 64

  // ---- The two alphabets ----

  /** The base64 alphabet, with the characters given for 62 and 63. */
  function AlphabetDigit(d: Sextet, last: (char, char)): (c: char) {
    if d < 26 then 'A' + d as char
    else if d < 52 then 'a' + (d - 26) as char
    else if d < 62 then '0' + (d - 52) as char
    else if d == 62 then last.0
    else last.1
  }

  /** The place of a character in the alphabet, or -1. */
  function AlphabetIndex(c: char, last: (char, char)): (d: int)
    ensures -1 <= d < 64
  {
    if 'A' <= c <= 'Z' then c as int - 'A' as int
    else if 'a' <= c <= 'z' then c as int - 'a' as int + 26
    else if '0' <= c <= '9' then c as int - '0' as int + 52
    else if c == last.0 then 62
    else if c == last.1 then 63
    else -1
  }

  const PLAIN: (char, char) := ('+', '/')
  const URL: (char, char) := ('-', '_')

  function Digit(d: Sextet): (c: char) {
    AlphabetDigit(d, URL)
  }

  function IndexOf(c: char): (d: int)
    ensures -1 <= d < 64
  {
    AlphabetIndex(c, URL)
  }

  predicate IsDigit(c: char) {
    IndexOf(c) >= 0
  }

  function Text(digits: seq<Sextet>): (text: string)
    ensures |text| == |digits|
  {
    seq(|digits|, i requires 0 <= i < |digits| => Digit(digits[i]))
  }

  predicate AllDigits(text: string) {
    forall i :: 0 <= i < |text| ==> IsDigit(text[i])
  }

  function Indices(text: string): (digits: seq<Sextet>)
    requires AllDigits(text)
    ensures |digits| == |text|
  {
    seq(|text|, i requires 0 <= i < |text| => IndexOf(text[i]))
  }

  lemma IndicesOfText(digits: seq<Sextet>)
    ensures AllDigits(Text(digits)) && Indices(Text(digits)) == digits
  {
    forall i | 0 <= i < |digits|
      ensures IndexOf(Text(digits)[i]) == digits[i]
    {
    }
  }

  lemma TextOfIndices(text: string)
    requires AllDigits(text)
    ensures Text(Indices(text)) == text
  {
    forall i | 0 <= i < |text|
      ensures Text(Indices(text))[i] == text[i]
    {
    }
  }

  // ---- Between bytes and digits ----

  function Second(a: byte, b: byte): (d: Sextet) {
    a % 4 * 16 + b / 16
  }

  function Third(b: byte, c: byte): (d: Sextet) {
    b % 16 * 4 + c / 64
  }

  function FirstByte(v: Sextet, w: Sextet): (a: byte) {
    v * 4 + w / 16
  }

  function SecondByte(w: Sextet, x: Sextet): (b: byte) {
    w % 16 * 16 + x / 4
  }

  function ThirdByte(x: Sextet, y: Sextet): (c: byte) {
    x % 4 * 64 + y
  }

  lemma BytesFromDigits(a: byte, b: byte, c: byte)
    ensures FirstByte(a / 4, Second(a, b)) == a
    ensures SecondByte(Second(a, b), Third(b, c)) == b
    ensures ThirdByte(Third(b, c), c % 64) == c
  {
  }

  lemma DigitsFromBytes(v: Sextet, w: Sextet, x: Sextet, y: Sextet)
    ensures FirstByte(v, w) / 4 == v
    ensures Second(FirstByte(v, w), SecondByte(w, x)) == w
    ensures Third(SecondByte(w, x), ThirdByte(x, y)) == x
    ensures ThirdByte(x, y) % 64 == y
    ensures Second(FirstByte(v, w), 0) == w <==> w % 16 == 0
    ensures Third(SecondByte(w, x), 0) == x <==> x % 4 == 0
  {
  }

  function Triple(t: seq<byte>): (digits: seq<Sextet>)
    requires |t| == 3
    ensures |digits| == 4
  {
    [t[0] / 4, Second(t[0], t[1]), Third(t[1], t[2]), t[2] % 64]
  }

  function Quadruple(q: seq<Sextet>): (bytes: seq<byte>)
    requires |q| == 4
    ensures |bytes| == 3
  {
    [FirstByte(q[0], q[1]), SecondByte(q[1], q[2]), ThirdByte(q[2], q[3])]
  }

  /** One or two bytes at the end, as if zero bits followed. */
  function LastDigits(t: seq<byte>): (digits: seq<Sextet>)
    requires |t| < 3
    ensures |digits| == if t == [] then 0 else |t| + 1
  {
    if t == [] then []
    else if |t| == 1 then [t[0] / 4, Second(t[0], 0)]
    else [t[0] / 4, Second(t[0], t[1]), Third(t[1], 0)]
  }

  function LastBytes(q: seq<Sextet>): (bytes: seq<byte>)
    requires |q| < 4
    ensures |bytes| == if q == [] then 0 else |q| - 1
  {
    if |q| < 2 then []
    else if |q| == 2 then [FirstByte(q[0], q[1])]
    else [FirstByte(q[0], q[1]), SecondByte(q[1], q[2])]
  }

  /** Three bytes give four digits; one or two bytes at the end give two or three. */
  function Digits(bytes: seq<byte>): (digits: seq<Sextet>) {
    if |bytes| < 3 then LastDigits(bytes) else Triple(bytes[..3]) + Digits(bytes[3..])
  }

  function Undigits(d: seq<Sextet>): (bytes: seq<byte>) {
    if |d| < 4 then LastBytes(d) else Quadruple(d[..4]) + Undigits(d[4..])
  }

  lemma TripleAndBack(t: seq<byte>)
    requires |t| == 3
    ensures Quadruple(Triple(t)) == t
  {
    BytesFromDigits(t[0], t[1], t[2]);
  }

  lemma QuadrupleAndBack(q: seq<Sextet>)
    requires |q| == 4
    ensures Triple(Quadruple(q)) == q
  {
    DigitsFromBytes(q[0], q[1], q[2], q[3]);
  }

  // ---- Spellings ----

  function LastSpellings(n: nat): (count: nat)
    requires n < 3
  {
    if n == 0 then 1 else if n == 1 then 16 else 4
  }

  /** How many texts decode to `n` bytes: the last digit may have four or two bits that no byte uses. */
  function Spellings(n: nat): (count: nat)
    ensures count > 0
  {
    if n < 3 then LastSpellings(n) else Spellings(n - 3)
  }

  /** The digits of bytes, with a number in the unused bits of the last one. */
  function SpelledDigits(bytes: seq<byte>, spare: nat): (digits: seq<Sextet>)
    requires spare < Spellings(|bytes|)
  {
    if |bytes| < 3 then SpelledLast(bytes, spare) else Triple(bytes[..3]) + SpelledDigits(bytes[3..], spare)
  }

  function SpelledLast(t: seq<byte>, spare: nat): (digits: seq<Sextet>)
    requires |t| < 3 && spare < LastSpellings(|t|)
    ensures |digits| == if t == [] then 0 else |t| + 1
  {
    if t == [] then []
    else if |t| == 1 then [t[0] / 4, Second(t[0], 0) + spare]
    else [t[0] / 4, Second(t[0], t[1]), Third(t[1], 0) + spare]
  }

  /** The bits of the last digit that no byte uses. */
  function Unused(d: seq<Sextet>): (spare: nat) {
    match |d| % 4
    case 2 => d[|d| - 1] % 16
    case 3 => d[|d| - 1] % 4
    case _ => 0
  }

  lemma UnusedOfTail(g: seq<Sextet>, r: seq<Sextet>)
    requires |g| == 4
    ensures Unused(g + r) == Unused(r)
  {
    assert r != [] ==> (g + r)[|g + r| - 1] == r[|r| - 1];
  }

  /** Three bytes in front, or four digits, change nothing at the end. */
  lemma SpelledBehind(t: seq<byte>, bytes: seq<byte>, spare: nat)
    requires |t| == 3 && spare < Spellings(|bytes|)
    ensures Spellings(|t + bytes|) == Spellings(|bytes|)
    ensures SpelledDigits(t + bytes, spare) == Triple(t) + SpelledDigits(bytes, spare)
  {
    assert (t + bytes)[..3] == t && (t + bytes)[3..] == bytes;
  }

  lemma UndigitsBehind(g: seq<Sextet>, r: seq<Sextet>)
    requires |g| == 4
    ensures Undigits(g + r) == Quadruple(g) + Undigits(r)
  {
    assert (g + r)[..4] == g && (g + r)[4..] == r;
  }

  lemma {:induction false} PlainSpelling(bytes: seq<byte>)
    ensures SpelledDigits(bytes, 0) == Digits(bytes)
  {
    if |bytes| >= 3 {
      PlainSpelling(bytes[3..]);
    }
  }

  lemma LastIsRead(t: seq<byte>, spare: nat)
    requires |t| < 3 && spare < LastSpellings(|t|)
    ensures LastBytes(SpelledLast(t, spare)) == t && Unused(SpelledLast(t, spare)) == spare
  {
    var q := SpelledLast(t, spare);
    if |t| == 1 {
      assert q[1] % 16 == spare && q[1] / 16 == t[0] % 4;
    } else if |t| == 2 {
      assert q[2] % 4 == spare && q[2] / 4 == t[1] % 16;
      assert q[1] / 16 == t[0] % 4 && q[1] % 16 == t[1] / 16;
    }
  }

  /** However the unused bits are set, the digits stand for the bytes. */
  lemma {:induction false} SpellingIsRead(bytes: seq<byte>, spare: nat)
    requires spare < Spellings(|bytes|)
    ensures Undigits(SpelledDigits(bytes, spare)) == bytes && Unused(SpelledDigits(bytes, spare)) == spare
  {
    if |bytes| < 3 {
      LastIsRead(bytes, spare);
    } else {
      var t, rest := bytes[..3], bytes[3..];
      assert bytes == t + rest;
      SpellingIsRead(rest, spare);
      SpelledBehind(t, rest, spare);
      TripleAndBack(t);
      UnusedOfTail(Triple(t), SpelledDigits(rest, spare));
      UndigitsBehind(Triple(t), SpelledDigits(rest, spare));
    }
  }

  lemma {:induction false} SpelledLength(bytes: seq<byte>, spare: nat)
    requires spare < Spellings(|bytes|)
    ensures |SpelledDigits(bytes, spare)| == (4 * |bytes| + 2) / 3
    ensures |SpelledDigits(bytes, spare)| % 4 != 1
  {
    if |bytes| >= 3 {
      SpelledLength(bytes[3..], spare);
    }
  }

  lemma LastIsSpelled(q: seq<Sextet>)
    requires |q| < 4 && |q| != 1
    ensures Unused(q) < Spellings(|LastBytes(q)|) && SpelledLast(LastBytes(q), Unused(q)) == q
  {
    if |q| == 2 {
      DigitsFromBytes(q[0], q[1], 0, 0);
      assert Second(FirstByte(q[0], q[1]), 0) + q[1] % 16 == q[1];
    } else if |q| == 3 {
      DigitsFromBytes(q[0], q[1], q[2], 0);
      assert Third(SecondByte(q[1], q[2]), 0) + q[2] % 4 == q[2];
    }
  }

  /** There are no other digits that stand for the bytes. */
  lemma {:induction false} DigitsAreSpelled(d: seq<Sextet>)
    requires |d| % 4 != 1
    ensures Unused(d) < Spellings(|Undigits(d)|) && SpelledDigits(Undigits(d), Unused(d)) == d
  {
    if |d| < 4 {
      LastIsSpelled(d);
    } else {
      var g, r := d[..4], d[4..];
      DigitsAreSpelled(r);
      QuadrupleAndBack(g);
      assert d == g + r;
      UnusedOfTail(g, r);
      UndigitsBehind(g, r);
      SpelledBehind(Quadruple(g), Undigits(r), Unused(r));
    }
  }

  // ---- The codec ----

  function Encode(bytes: seq<byte>): (text: string) {
    Text(Digits(bytes))
  }

  predicate Decodable(text: string) {
    text != "" && AllDigits(text) && |text| % 4 != 1
  }

  function Decode(text: string): (bytes: seq<byte>)
    requires Decodable(text)
  {
    Undigits(Indices(text))
  }

  /** The encoding with a number in the bits of its last character that no byte uses. */
  function Spelled(bytes: seq<byte>, spare: nat): (text: string)
    requires spare < Spellings(|bytes|)
  {
    Text(SpelledDigits(bytes, spare))
  }

  function UnusedBits(text: string): (spare: nat)
    requires Decodable(text)
  {
    match |text| % 4
    case 2 => IndexOf(text[|text| - 1]) % 16
    case 3 => IndexOf(text[|text| - 1]) % 4
    case _ => 0
  }

  /** Each number in the unused bits gives a text of its own for the same
      bytes: 16 texts for the 64 bytes of a signature, 4 for the 32 of a key. */
  lemma SpellingsOfBytes(bytes: seq<byte>, spare: nat)
    requires bytes != [] && spare < Spellings(|bytes|)
    ensures Decodable(Spelled(bytes, spare)) && Decode(Spelled(bytes, spare)) == bytes
    ensures UnusedBits(Spelled(bytes, spare)) == spare
    ensures |Spelled(bytes, spare)| == (4 * |bytes| + 2) / 3
  {
    SpellingIsRead(bytes, spare);
    SpelledLength(bytes, spare);
    IndicesOfText(SpelledDigits(bytes, spare));
    UnusedOfText(Spelled(bytes, spare));
  }

  lemma UnusedOfText(text: string)
    requires Decodable(text)
    ensures UnusedBits(text) == Unused(Indices(text))
  {
  }

  /** A text is determined by its bytes and its unused bits. */
  lemma TextIsSpelled(text: string)
    requires Decodable(text)
    ensures UnusedBits(text) < Spellings(|Decode(text)|) && text == Spelled(Decode(text), UnusedBits(text))
  {
    DigitsAreSpelled(Indices(text));
    TextOfIndices(text);
  }

  /** Decoding inverts encoding on nonempty bytes. */
  lemma DecodeInvertsEncode(bytes: seq<byte>)
    requires bytes != []
    ensures Decodable(Encode(bytes)) && Decode(Encode(bytes)) == bytes
    ensures |Encode(bytes)| == (4 * |bytes| + 2) / 3
  {
    PlainSpelling(bytes);
    SpellingsOfBytes(bytes, 0);
  }

  lemma DecodesToSomething(text: string)
    requires Decodable(text)
    ensures Decode(text) != []
  {
    assert |Indices(text)| >= 2;
  }

  /** Encoding again gives the text back exactly when the bits of its last
      character that no byte uses are zero. */
  lemma ReencodesExactly(text: string)
    requires Decodable(text)
    ensures Encode(Decode(text)) == text <==> UnusedBits(text) == 0
  {
    TextIsSpelled(text);
    DecodesToSomething(text);
    PlainSpelling(Decode(text));
    SpellingsOfBytes(Decode(text), 0);
  }
}

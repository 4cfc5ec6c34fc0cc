// The base64url encoders and decoder as they run: toBase64Url and fromBase64Url
// (packages/protocol-ts/src/identity.ts) and base64UrlEncode
// (app/src/features/auth/hmacSha256.ts).
module Base64Url {
  import opened Bytes
  import opened Options
  import opened Base64UrlSpec
  import opened Sequences

  // ---- Padded base64 ----

  function PlainText(digits: seq<Sextet>): (text: string)
    ensures |text| == |digits|
  {
    seq(|digits|, i requires 0 <= i < |digits| => AlphabetDigit(digits[i], PLAIN))
  }

  function Equals(n: nat): (text: string)
    ensures |text| == n && forall i :: 0 <= i < n ==> text[i] == '='
  {
    seq(n, _ => '=')
  }

  /** Base64 with the plain alphabet and padding. */
  function Padded(bytes: seq<byte>): (text: string) {
    if bytes == [] then ""
    else if |bytes| < 3 then PlainText(LastDigits(bytes)) + Equals(3 - |bytes|)
    else PlainText(Triple(bytes[..3])) + Padded(bytes[3..])
  }

  function ReplaceAll(text: string, c: char, d: char): (r: string)
    ensures |r| == |text|
  {
    seq(|text|, i requires 0 <= i < |text| => if text[i] == c then d else text[i])
  }

  function StripEquals(text: string): (r: string) {
    if text != "" && text[|text| - 1] == '=' then StripEquals(text[..|text| - 1]) else text
  }

  lemma {:induction false} PaddedIsDigits(bytes: seq<byte>) returns (n: nat)
    ensures Padded(bytes) == PlainText(Digits(bytes)) + Equals(n)
  {
    if |bytes| < 3 {
      n := if bytes == [] then 0 else 3 - |bytes|;
      assert bytes == [] ==> PlainText([]) + Equals(0) == "";
    } else {
      n := PaddedIsDigits(bytes[3..]);
    }
  }

  lemma {:induction false} StripPadding(text: string, n: nat)
    requires text == "" || text[|text| - 1] != '='
    ensures StripEquals(text + Equals(n)) == text
  {
    if n == 0 {
      assert text + Equals(0) == text;
    } else {
      StripPadding(text, n - 1);
      assert (text + Equals(n))[..|text| + n - 1] == text + Equals(n - 1);
    }
  }

  lemma CleanedDigits(d: seq<Sextet>, n: nat)
    ensures ReplaceAll(ReplaceAll(PlainText(d) + Equals(n), '+', '-'), '/', '_') == Text(d) + Equals(n)
    ensures d == [] || Text(d)[|d| - 1] != '='
  {
    assert d != [] ==> Text(d)[|d| - 1] == Digit(d[|d| - 1]);
  }

  lemma CleanedPadded(bytes: seq<byte>)
    ensures StripEquals(ReplaceAll(ReplaceAll(Padded(bytes), '+', '-'), '/', '_')) == Encode(bytes)
  {
    var n := PaddedIsDigits(bytes);
    CleanedDigits(Digits(bytes), n);
    StripPadding(Text(Digits(bytes)), n);
  }

  // ---- Encoding, once with padding and once without ----

  function AtOr0(bytes: seq<byte>, i: nat): (b: byte) {
    if i < |bytes| then bytes[i] else 0
  }

  function FromIndex(bytes: seq<byte>, i: nat): (rest: seq<byte>) {
    if i < |bytes| then bytes[i..] else []
  }

  /** The four padded characters of one, two or three bytes. */
  function PlainGroup(a: byte, b: byte, c: byte, n: nat): (text: string) {
    [AlphabetDigit(a / 4, PLAIN), AlphabetDigit(Second(a, b), PLAIN),
     if n > 1 then AlphabetDigit(Third(b, c), PLAIN) else '=',
     if n > 2 then AlphabetDigit(c % 64, PLAIN) else '=']
  }

  lemma PaddedAhead(bytes: seq<byte>, i: nat)
    requires i < |bytes|
    ensures Padded(FromIndex(bytes, i)) ==
            PlainGroup(bytes[i], AtOr0(bytes, i + 1), AtOr0(bytes, i + 2), |bytes| - i) + Padded(FromIndex(bytes, i + 3))
  {
    var rest := bytes[i..];
    assert |rest| >= 3 ==> rest[3..] == FromIndex(bytes, i + 3);
  }

  method PushPlain(output: string, first: byte, second: byte, third: byte, n: nat) returns (pushed: string)
    ensures pushed == output + PlainGroup(first, second, third, n)
  {
    pushed := output + [AlphabetDigit(first / 4, PLAIN)];
    pushed := pushed + [AlphabetDigit(first % 4 * 16 + second / 16, PLAIN)];
    pushed := pushed + [if n <= 1 then '=' else AlphabetDigit(second % 16 * 4 + third / 64, PLAIN)];
    pushed := pushed + [if n <= 2 then '=' else AlphabetDigit(third % 64, PLAIN)];
  }

  method ToBase64Url(value: seq<byte>) returns (text: string)
    ensures text == Encode(value)
  {
    var output := "";
    var index := 0;
    assert "" + Padded(value) == Padded(value) && FromIndex(value, 0) == value;
    while index < |value|
      invariant Padded(value) == output + Padded(FromIndex(value, index))
    {
      PaddedAhead(value, index);
      var first, second, third := value[index], AtOr0(value, index + 1), AtOr0(value, index + 2);
      Regroup(output, PlainGroup(first, second, third, |value| - index), Padded(FromIndex(value, index + 3)));
      output := PushPlain(output, first, second, third, |value| - index);
      index := index + 3;
    }
    assert output + "" == output;
    CleanedPadded(value);
    text := StripEquals(ReplaceAll(ReplaceAll(output, '+', '-'), '/', '_'));
  }

  /** The characters of one, two or three bytes, without padding. */
  function UrlGroup(a: byte, b: byte, c: byte, n: nat): (text: string) {
    [Digit(a / 4), Digit(Second(a, b))]
    + (if n > 1 then [Digit(Third(b, c))] else [])
    + (if n > 2 then [Digit(c % 64)] else [])
  }

  lemma TextConcat(d: seq<Sextet>, e: seq<Sextet>)
    ensures Text(d + e) == Text(d) + Text(e)
  {
  }

  lemma EncodeAhead(bytes: seq<byte>, i: nat)
    requires i < |bytes|
    ensures Encode(FromIndex(bytes, i)) ==
            UrlGroup(bytes[i], AtOr0(bytes, i + 1), AtOr0(bytes, i + 2), |bytes| - i) + Encode(FromIndex(bytes, i + 3))
  {
    var rest := bytes[i..];
    if |rest| >= 3 {
      assert rest[3..] == FromIndex(bytes, i + 3);
      TextConcat(Triple(rest[..3]), Digits(rest[3..]));
    }
  }

  method PushUrl(encoded: string, a: byte, b: byte, c: byte, n: nat) returns (pushed: string)
    ensures pushed == encoded + UrlGroup(a, b, c, n)
  {
    pushed := encoded + [Digit(a / 4)];
    pushed := pushed + [Digit(a % 4 * 16 + b / 16)];
    if n > 1 {
      pushed := pushed + [Digit(b % 16 * 4 + c / 64)];
    }
    if n > 2 {
      pushed := pushed + [Digit(c % 64)];
    }
  }

  method Base64UrlEncode(bytes: seq<byte>) returns (encoded: string)
    ensures encoded == Encode(bytes)
  {
    encoded := "";
    var index := 0;
    assert "" + Encode(bytes) == Encode(bytes) && FromIndex(bytes, 0) == bytes;
    while index < |bytes|
      invariant Encode(bytes) == encoded + Encode(FromIndex(bytes, index))
    {
      EncodeAhead(bytes, index);
      var a, b, c := bytes[index], AtOr0(bytes, index + 1), AtOr0(bytes, index + 2);
      Regroup(encoded, UrlGroup(a, b, c, |bytes| - index), Encode(FromIndex(bytes, index + 3)));
      encoded := PushUrl(encoded, a, b, c, |bytes| - index);
      index := index + 3;
    }
    assert Encode([]) == "" && encoded + "" == encoded;
  }

  // ---- Decoding ----

  /** Text in the plain alphabet for some digits, with padding behind them. */
  predicate Holds(text: string, d: seq<Sextet>) {
    |d| <= |text|
    && forall i :: 0 <= i < |text| ==>
      (if i < |d| then AlphabetIndex(text[i], PLAIN) == d[i] && text[i] != '=' else text[i] == '=')
  }

  lemma PlainHolds(value: string, n: nat)
    requires AllDigits(value)
    ensures Holds(ReplaceAll(ReplaceAll(value, '-', '+'), '_', '/') + Equals(n), Indices(value))
  {
  }

  /** The bytes of two, three or four digits. */
  function BytesOf(v: Sextet, w: Sextet, x: Sextet, y: Sextet, n: nat): (bytes: seq<byte>) {
    [FirstByte(v, w)]
    + (if n > 2 then [SecondByte(w, x)] else [])
    + (if n > 3 then [ThirdByte(x, y)] else [])
  }

  function DigitOr0(d: seq<Sextet>, i: nat): (x: Sextet) {
    if i < |d| then d[i] else 0
  }

  function DigitsFrom(d: seq<Sextet>, i: nat): (rest: seq<Sextet>) {
    if i < |d| then d[i..] else []
  }

  lemma UndigitsAhead(d: seq<Sextet>, i: nat)
    requires i + 2 <= |d|
    ensures Undigits(DigitsFrom(d, i)) ==
            BytesOf(d[i], d[i + 1], DigitOr0(d, i + 2), DigitOr0(d, i + 3), if |d| - i < 4 then |d| - i else 4)
            + Undigits(DigitsFrom(d, i + 4))
  {
    var rest := d[i..];
    if |rest| >= 4 {
      assert rest[4..] == DigitsFrom(d, i + 4);
    } else {
      assert LastBytes(rest) + [] == LastBytes(rest);
    }
  }

  method Base64Index(c: char) returns (r: Option<Sextet>)
    ensures r == if AlphabetIndex(c, PLAIN) < 0 then None else Some(AlphabetIndex(c, PLAIN))
  {
    var index := AlphabetIndex(c, PLAIN);
    return if index < 0 then None else Some(index);
  }

  /** The digits of a chunk; a chunk without two digits is thrown out. */
  method ReadChunk(chunk: string, ghost q: seq<Sextet>) returns (r: Option<(Sextet, Sextet, Sextet, Sextet)>)
    requires |chunk| == 4 && Holds(chunk, q)
    ensures r == if |q| < 2 then None else Some((q[0], q[1], DigitOr0(q, 2), DigitOr0(q, 3)))
  {
    var first := Base64Index(chunk[0]);
    var second := Base64Index(chunk[1]);
    if first.None? || second.None? {
      return None;
    }
    var third := Some(0);
    if chunk[2] != '=' {
      third := Base64Index(chunk[2]);
    }
    var fourth := Some(0);
    if chunk[3] != '=' {
      fourth := Base64Index(chunk[3]);
    }
    if third.None? || fourth.None? {
      return None;
    }
    return Some((first.value, second.value, third.value, fourth.value));
  }

  /** One chunk of four characters; `n` of them are not padding. */
  method PushBytes(bytes: seq<byte>, first: Sextet, second: Sextet, third: Sextet, fourth: Sextet, n: nat)
    returns (pushed: seq<byte>)
    ensures pushed == bytes + BytesOf(first, second, third, fourth, n)
  {
    pushed := bytes + [first * 4 + second / 16];
    if n > 2 {
      pushed := pushed + [second % 16 * 16 + third / 4];
    }
    if n > 3 {
      pushed := pushed + [third % 4 * 64 + fourth];
    }
  }

  /** Decoding succeeds on exactly the nonempty texts over the alphabet whose
      length is not 1 modulo 4; anything else is thrown out. */
  method FromBase64Url(value: string) returns (r: Option<seq<byte>>)
    ensures r.Some? <==> value != "" && (forall i :: 0 <= i < |value| ==> IsDigit(value[i])) && |value| % 4 != 1
    ensures r.Some? ==> r.value == Decode(value)
  {
    if value == "" || exists i :: 0 <= i < |value| && !IsDigit(value[i]) {
      return None;
    }
    var base64 := ReplaceAll(ReplaceAll(value, '-', '+'), '_', '/');
    var padded := base64 + Equals((4 - |base64| % 4) % 4);
    PlainHolds(value, (4 - |base64| % 4) % 4);
    r := DecodeChunks(padded, Indices(value));
  }

  /** The body of the loop: the bytes of the chunk at `index` are pushed. */
  method DecodeChunk(bytes: seq<byte>, padded: string, index: nat, ghost d: seq<Sextet>)
    returns (r: Option<seq<byte>>)
    requires Holds(padded, d) && index + 4 <= |padded| < |d| + 4
    ensures r.None? <==> |d| < index + 2
    ensures r.Some? ==> r.value + Undigits(DigitsFrom(d, index + 4)) == bytes + Undigits(DigitsFrom(d, index))
  {
    ghost var q := if |d| <= index then [] else if |d| < index + 4 then d[index..] else d[index..index + 4];
    var chunk := padded[index..index + 4];
    var digits := ReadChunk(chunk, q);
    if digits.None? {
      return None;
    }
    var (first, second, third, fourth) := digits.value;
    var n := if chunk[2] == '=' then 2 else if chunk[3] == '=' then 3 else 4;
    assert n == |q|;
    UndigitsAhead(d, index);
    Regroup(bytes, BytesOf(first, second, third, fourth, n), Undigits(DigitsFrom(d, index + 4)));
    var pushed := PushBytes(bytes, first, second, third, fourth, n);
    return Some(pushed);
  }

  lemma WholeChunks(index: nat, n: nat)
    requires index % 4 == 0
    ensures (index + 4) % 4 == 0
    ensures index + 2 <= n < index + 4 ==> n % 4 != 1
    ensures index < n < index + 2 ==> n % 4 == 1
  {
  }

  lemma NoneAhead(d: seq<Sextet>, index: nat, bytes: seq<byte>)
    requires index >= |d|
    ensures bytes + Undigits(DigitsFrom(d, index)) == bytes
  {
  }

  method DecodeChunks(padded: string, ghost d: seq<Sextet>) returns (r: Option<seq<byte>>)
    requires Holds(padded, d) && |padded| % 4 == 0 && |padded| < |d| + 4
    ensures r == if |d| % 4 == 1 then None else Some(Undigits(d))
  {
    var bytes: seq<byte> := [];
    var index := 0;
    while index < |padded|
      invariant index % 4 == 0 && index <= |padded|
      invariant index > |d| ==> |d| % 4 != 1
      invariant Undigits(d) == bytes + Undigits(DigitsFrom(d, index))
    {
      var pushed := DecodeChunk(bytes, padded, index, d);
      WholeChunks(index, |d|);
      if pushed.None? {
        return None;
      }
      bytes := pushed.value;
      index := index + 4;
    }
    NoneAhead(d, index, bytes);
    return Some(bytes);
  }
}

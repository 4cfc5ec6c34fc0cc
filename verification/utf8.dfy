// utf8Bytes (app/src/features/auth/hmacSha256.ts; section 3 of RFC 3629).
// A JavaScript string is a sequence of UTF-16 code units, not all of them paired.
module Utf8 {
  import opened Bytes
  import opened Options

  type Unit = x: int | 0 <= x < 0x1_0000
  type CodePoint = x: int | 0 <= x < 0x11_0000

  predicate High(u: int) {
    0xd800 <= u <= 0xdbff
  }

  predicate Low(u: int) {
    0xdc00 <= u <= 0xdfff
  }

  predicate PairAhead(units: seq<Unit>) {
    |units| >= 2 && High(units[0]) && Low(units[1])
  }

  function Combine(high: Unit, low: Unit): (p: CodePoint)
    requires High(high) && Low(low)
    ensures p >= 0x1_0000
  {
    0x1_0000 + (high - 0xd800) * 0x400 + (low - 0xdc00)
  }

  /** Pairs combined; a lone surrogate stands for itself. */
  function CodePoints(units: seq<Unit>): (points: seq<CodePoint>)
    ensures |points| <= |units|
  {
    if units == [] then []
    else if PairAhead(units) then [Combine(units[0], units[1])] + CodePoints(units[2..])
    else [units[0]] + CodePoints(units[1..])
  }

  function EncodePoint(p: CodePoint): (bytes: seq<byte>)
    ensures 1 <= |bytes| <= 4
  {
    if p < 0x80 then [p]
    else if p < 0x800 then [0xc0 + p / 64, 0x80 + p % 64]
    else if p < 0x1_0000 then [0xe0 + p / 4096, 0x80 + p / 64 % 64, 0x80 + p % 64]
    else [0xf0 + p / 0x4_0000, 0x80 + p / 4096 % 64, 0x80 + p / 64 % 64, 0x80 + p % 64]
  }

  function EncodePoints(points: seq<CodePoint>): (bytes: seq<byte>)
    ensures |bytes| <= 4 * |points|
  {
    if points == [] then [] else EncodePoint(points[0]) + EncodePoints(points[1..])
  }

  /** The bytes of a string. */
  function Encode(units: seq<Unit>): (bytes: seq<byte>) {
    EncodePoints(CodePoints(units))
  }

  const REPLACEMENT: CodePoint := 0xfffd

  function Replaced(p: CodePoint): CodePoint {
    if 0xd800 <= p < 0xe000 then REPLACEMENT else p
  }

  /** What the platform's own encoders write (TextEncoder, Buffer.from): lone surrogates are replaced. */
  function PlatformBytes(units: seq<Unit>): (bytes: seq<byte>)
    ensures |bytes| <= 4 * |units|
  {
    var points := CodePoints(units);
    EncodePoints(seq(|points|, i requires 0 <= i < |points| => Replaced(points[i])))
  }

  /** A literal of the source as code units. */
  function Literal(text: string): (units: seq<Unit>)
    ensures |units| == |text|
  {
    seq(|text|, i requires 0 <= i < |text| => text[i] as int % 0x1_0000)
  }

  // ---- Decoding ----

  predicate Trail(b: byte) {
    0x80 <= b < 0xc0
  }

  predicate Trails(bytes: seq<byte>, n: nat) {
    |bytes| > n && (n >= 1 ==> Trail(bytes[1])) && (n >= 2 ==> Trail(bytes[2])) && (n >= 3 ==> Trail(bytes[3]))
  }

  function Less(b: byte, marker: int): (bits: int) {
    b - marker
  }

  /** The code point that bytes start with, in its shortest form, and its length. */
  function ReadPoint(bytes: seq<byte>): (r: Option<(CodePoint, nat)>)
    ensures r.Some? ==> 1 <= r.value.1 <= |bytes|
  {
    if bytes == [] then None
    else if bytes[0] < 0x80 then Some((bytes[0], 1))
    else if 0xc2 <= bytes[0] < 0xe0 && Trails(bytes, 1) then
      Some((Less(bytes[0], 0xc0) * 64 + Less(bytes[1], 0x80), 2))
    else if 0xe0 <= bytes[0] < 0xf0 && Trails(bytes, 2) then
      var p := Less(bytes[0], 0xe0) * 4096 + Less(bytes[1], 0x80) * 64 + Less(bytes[2], 0x80);
      if p < 0x800 then None else Some((p, 3))
    else if 0xf0 <= bytes[0] < 0xf5 && Trails(bytes, 3) then
      var p := Less(bytes[0], 0xf0) * 0x4_0000 + Less(bytes[1], 0x80) * 4096
               + Less(bytes[2], 0x80) * 64 + Less(bytes[3], 0x80);
      if p < 0x1_0000 || p >= 0x11_0000 then None else Some((p, 4))
    else None
  }

  function ReadPoints(bytes: seq<byte>): (r: Option<seq<CodePoint>>) {
    if bytes == [] then Some([])
    else
      var first := ReadPoint(bytes);
      if first.None? then None
      else
        var rest := ReadPoints(bytes[first.value.1..]);
        if rest.None? then None else Some([first.value.0] + rest.value)
  }

  function UnitsOf(p: CodePoint): (units: seq<Unit>) {
    if p < 0x1_0000 then [p]
    else [0xd800 + (p - 0x1_0000) / 0x400, 0xdc00 + (p - 0x1_0000) % 0x400]
  }

  function ToUnits(points: seq<CodePoint>): (units: seq<Unit>) {
    if points == [] then [] else UnitsOf(points[0]) + ToUnits(points[1..])
  }

  function Decode(bytes: seq<byte>): (r: Option<seq<Unit>>) {
    var points := ReadPoints(bytes);
    if points.None? then None else Some(ToUnits(points.value))
  }

  lemma PointDigits(p: CodePoint)
    ensures p == p / 64 * 64 + p % 64
    ensures p == p / 4096 * 4096 + p / 64 % 64 * 64 + p % 64
    ensures p == p / 0x4_0000 * 0x4_0000 + p / 4096 % 64 * 4096 + p / 64 % 64 * 64 + p % 64
  {
  }

  lemma ReadPointInvertsEncode(p: CodePoint, rest: seq<byte>)
    ensures ReadPoint(EncodePoint(p) + rest) == Some((p, |EncodePoint(p)|))
  {
    PointDigits(p);
  }

  lemma {:induction false} ReadPointsInvertsEncode(points: seq<CodePoint>)
    ensures ReadPoints(EncodePoints(points)) == Some(points)
  {
    if points != [] {
      var first, rest := EncodePoint(points[0]), EncodePoints(points[1..]);
      ReadPointInvertsEncode(points[0], rest);
      assert (first + rest)[|first|..] == rest;
      ReadPointsInvertsEncode(points[1..]);
      assert points == [points[0]] + points[1..];
    }
  }

  lemma {:induction false} ToUnitsInvertsCodePoints(units: seq<Unit>)
    ensures ToUnits(CodePoints(units)) == units
  {
    if units != [] {
      var n := if PairAhead(units) then 2 else 1;
      ToUnitsInvertsCodePoints(units[n..]);
      assert CodePoints(units)[1..] == CodePoints(units[n..]);
      assert units == units[..n] + units[n..];
      if n == 2 {
        assert units[..n] == UnitsOf(Combine(units[0], units[1]));
      }
    }
  }

  /** The decoder gives every string back, lone surrogates included. */
  lemma DecodeInvertsEncode(units: seq<Unit>)
    ensures Decode(Encode(units)) == Some(units)
  {
    ReadPointsInvertsEncode(CodePoints(units));
    ToUnitsInvertsCodePoints(units);
  }

  /** So no two strings have the same bytes. */
  lemma EncodeInjective(s: seq<Unit>, t: seq<Unit>)
    requires Encode(s) == Encode(t)
    ensures s == t
  {
    DecodeInvertsEncode(s);
    DecodeInvertsEncode(t);
  }

  // ---- Which strings give UTF-8 in the sense of RFC 3629 ----

  predicate Surrogate(u: int) {
    0xd800 <= u <= 0xdfff
  }

  /** Shortest forms of code points that are not surrogates. */
  predicate IsUtf8(bytes: seq<byte>) {
    var points := ReadPoints(bytes);
    points.Some? && forall p :: p in points.value ==> !Surrogate(p)
  }

  /** Each high surrogate comes right before a low one, and each low one right after a high one. */
  predicate WellPaired(units: seq<Unit>) {
    && (forall i :: 0 <= i < |units| && High(units[i]) ==> i + 1 < |units| && Low(units[i + 1]))
    && (forall i :: 0 <= i < |units| && Low(units[i]) ==> i > 0 && High(units[i - 1]))
  }

  lemma DropWellPaired(units: seq<Unit>)
    requires units != []
    ensures PairAhead(units) ==> (WellPaired(units) <==> WellPaired(units[2..]))
    ensures !PairAhead(units) && !Surrogate(units[0]) ==> (WellPaired(units) <==> WellPaired(units[1..]))
    ensures !PairAhead(units) && Surrogate(units[0]) ==> !WellPaired(units)
  {
    if PairAhead(units) || !Surrogate(units[0]) {
      var n := if PairAhead(units) then 2 else 1;
      var rest := units[n..];
      if WellPaired(rest) {
        forall i | 0 <= i < |units| && High(units[i])
          ensures i + 1 < |units| && Low(units[i + 1])
        {
          assert i >= n ==> units[i] == rest[i - n];
          if i >= n {
            assert Low(rest[i - n + 1]);
          }
        }
        forall i | 0 <= i < |units| && Low(units[i])
          ensures i > 0 && High(units[i - 1])
        {
          assert i >= n ==> units[i] == rest[i - n];
          if i >= n {
            assert High(rest[i - n - 1]);
          }
        }
      }
      if WellPaired(units) {
        forall i | 0 <= i < |rest| && High(rest[i])
          ensures i + 1 < |rest| && Low(rest[i + 1])
        {
          assert Low(units[i + n + 1]);
        }
        forall i | 0 <= i < |rest| && Low(rest[i])
          ensures i > 0 && High(rest[i - 1])
        {
          assert Low(units[i + n]) && High(units[i + n - 1]);
        }
      }
    }
  }

  lemma {:induction false} PointsWithoutSurrogates(units: seq<Unit>)
    ensures (forall p :: p in CodePoints(units) ==> !Surrogate(p)) <==> WellPaired(units)
  {
    if units != [] {
      DropWellPaired(units);
      var n := if PairAhead(units) then 2 else 1;
      PointsWithoutSurrogates(units[n..]);
      var first, rest := CodePoints(units)[0], CodePoints(units[n..]);
      assert CodePoints(units) == [first] + rest;
      assert first in CodePoints(units);
      assert forall p :: p in CodePoints(units) <==> p == first || p in rest;
    }
  }

  /** The bytes are UTF-8 exactly when the string has no lone surrogate. */
  lemma Utf8Exactly(units: seq<Unit>)
    ensures IsUtf8(Encode(units)) <==> WellPaired(units)
  {
    ReadPointsInvertsEncode(CodePoints(units));
    PointsWithoutSurrogates(units);
  }

  // ---- The loop ----

  method PushPoint(bytes: seq<byte>, codePoint: CodePoint) returns (pushed: seq<byte>)
    ensures pushed == bytes + EncodePoint(codePoint)
  {
    if codePoint < 0x80 {
      pushed := bytes + [codePoint];
    } else if codePoint < 0x800 {
      pushed := bytes + [0xc0 + codePoint / 64, 0x80 + codePoint % 64];
    } else if codePoint < 0x1_0000 {
      pushed := bytes + [0xe0 + codePoint / 4096, 0x80 + codePoint / 64 % 64, 0x80 + codePoint % 64];
    } else {
      pushed := bytes + [0xf0 + codePoint / 0x4_0000, 0x80 + codePoint / 4096 % 64,
                         0x80 + codePoint / 64 % 64, 0x80 + codePoint % 64];
    }
  }

  predicate PairAt(value: seq<Unit>, i: nat) {
    i + 1 < |value| && High(value[i]) && Low(value[i + 1])
  }

  function PointAt(value: seq<Unit>, i: nat): (p: CodePoint)
    requires i < |value|
  {
    if PairAt(value, i) then Combine(value[i], value[i + 1]) else value[i]
  }

  lemma EncodeAhead(value: seq<Unit>, i: nat)
    requires i < |value|
    ensures var next := i + (if PairAt(value, i) then 2 else 1);
            next <= |value| && Encode(value[i..]) == EncodePoint(PointAt(value, i)) + Encode(value[next..])
  {
    var rest, n := value[i..], if PairAt(value, i) then 2 else 1;
    assert rest[n..] == value[i + n..];
    assert CodePoints(rest) == [PointAt(value, i)] + CodePoints(value[i + n..]);
  }

  /** One more code point pushed. */
  lemma PushAhead(value: seq<Unit>, bytes: seq<byte>, i: nat)
    requires i < |value| && Encode(value) == bytes + Encode(value[i..])
    ensures var next := i + (if PairAt(value, i) then 2 else 1);
            next <= |value| && Encode(value) == bytes + EncodePoint(PointAt(value, i)) + Encode(value[next..])
  {
    EncodeAhead(value, i);
  }

  method Utf8Bytes(value: seq<Unit>) returns (bytes: seq<byte>)
    ensures bytes == Encode(value)
  {
    bytes := [];
    var index := 0;
    assert value[0..] == value;
    while index < |value|
      invariant 0 <= index <= |value|
      invariant Encode(value) == bytes + Encode(value[index..])
    {
      PushAhead(value, bytes, index);
      ghost var point := PointAt(value, index);
      var codePoint: CodePoint := value[index];
      if High(codePoint) && index + 1 < |value| {
        var next := value[index + 1];
        if Low(next) {
          codePoint := Combine(codePoint, next);
          index := index + 1;
        }
      }
      index := index + 1;
      assert codePoint == point;
      bytes := PushPoint(bytes, codePoint);
    }
  }
}

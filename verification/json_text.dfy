// How JSON.stringify writes a value, and that the text can be read back
// (canonicalJson in packages/protocol-ts/src/authSignatures.ts signs this text).
module JsonText {
  import opened Options
  import opened Sequences
  import opened Utf8

  type Text = seq<Unit>

  /** JavaScript objects keep their members in order; a member may be present
      with the value undefined. A number stands as the text that its type gives it. */
  datatype Json =
    | Null
    | Bool(b: bool)
    | Number(text: Text)
    | Str(s: Text)
    | Arr(items: seq<Json>)
    | Obj(members: seq<Member>)

  datatype Member = Member(key: Text, value: Option<Json>)

  const QUOTE: Unit := 0x22
  const COMMA: Unit := 0x2c
  const COLON: Unit := 0x3a
  const BACKSLASH: Unit := 0x5c
  const OPEN_ARRAY: Unit := 0x5b
  const CLOSE_ARRAY: Unit := 0x5d
  const OPEN_OBJECT: Unit := 0x7b
  const CLOSE_OBJECT: Unit := 0x7d
  const LETTER_U: Unit := 0x75

  // ---- Strings ----

  function HexDigit(n: int): (u: Unit)
    requires 0 <= n < 16
  {
    if n < 10 then 0x30 + n else 0x61 + n - 10
  }

  function HexValue(u: Unit): (n: int) {
    if 0x30 <= u < 0x3a then u - 0x30 else if 0x61 <= u < 0x67 then u - 0x61 + 10 else 0
  }

  function Hex(u: Unit): (text: Text)
    ensures |text| == 6
  {
    [BACKSLASH, LETTER_U, HexDigit(u / 4096), HexDigit(u / 256 % 16), HexDigit(u / 16 % 16), HexDigit(u % 16)]
  }

  /** The letter after a backslash for the characters that have one, or 0. */
  function ShortEscape(u: Unit): (letter: Unit) {
    if u == QUOTE || u == BACKSLASH then u
    else if u == 0x08 then 0x62
    else if u == 0x09 then 0x74
    else if u == 0x0a then 0x6e
    else if u == 0x0c then 0x66
    else if u == 0x0d then 0x72
    else 0
  }

  function Unescaped(letter: Unit): (u: Unit) {
    if letter == 0x62 then 0x08
    else if letter == 0x74 then 0x09
    else if letter == 0x6e then 0x0a
    else if letter == 0x66 then 0x0c
    else if letter == 0x72 then 0x0d
    else letter
  }

  /** A unit within a string; lone surrogates and control characters are spelled out. */
  function Escape(u: Unit, lone: bool): (text: Text)
    ensures 1 <= |text| <= 6
  {
    if ShortEscape(u) != 0 then [BACKSLASH, ShortEscape(u)]
    else if u < 0x20 || lone then Hex(u)
    else [u]
  }

  function Escaped(s: Text): (text: Text) {
    if s == [] then []
    else if PairAhead(s) then [s[0], s[1]] + Escaped(s[2..])
    else Escape(s[0], Surrogate(s[0])) + Escaped(s[1..])
  }

  function Quote(s: Text): (text: Text) {
    [QUOTE] + Escaped(s) + [QUOTE]
  }

  /** Reads on to the closing quote: the string, and what follows it. */
  function ReadQuoted(text: Text): (r: (Text, Text)) {
    if text == [] then ([], [])
    else if text[0] == QUOTE then ([], text[1..])
    else if text[0] != BACKSLASH then var (s, rest) := ReadQuoted(text[1..]); ([text[0]] + s, rest)
    else if |text| >= 6 && text[1] == LETTER_U then
      var u := HexValue(text[2]) * 4096 + HexValue(text[3]) * 256 + HexValue(text[4]) * 16 + HexValue(text[5]);
      var (s, rest) := ReadQuoted(text[6..]);
      ([u] + s, rest)
    else if |text| >= 2 then var (s, rest) := ReadQuoted(text[2..]); ([Unescaped(text[1])] + s, rest)
    else ([], [])
  }

  lemma HexIsRead(u: Unit, rest: Text)
    ensures ReadQuoted(Hex(u) + rest) == ([u] + ReadQuoted(rest).0, ReadQuoted(rest).1)
  {
    var text := Hex(u) + rest;
    assert text[6..] == rest;
    HexValues(u);
  }

  lemma Nibbles(u: Unit)
    ensures u / 4096 * 4096 + u / 256 % 16 * 256 + u / 16 % 16 * 16 + u % 16 == u
  {
    assert u / 256 == u / 4096 * 16 + u / 256 % 16;
    assert u / 16 == u / 256 * 16 + u / 16 % 16;
  }

  lemma HexValues(u: Unit)
    ensures HexValue(HexDigit(u / 4096)) * 4096 + HexValue(HexDigit(u / 256 % 16)) * 256
            + HexValue(HexDigit(u / 16 % 16)) * 16 + HexValue(HexDigit(u % 16)) == u
  {
    Nibbles(u);
  }

  lemma EscapeIsRead(u: Unit, lone: bool, rest: Text)
    ensures ReadQuoted(Escape(u, lone) + rest) == ([u] + ReadQuoted(rest).0, ReadQuoted(rest).1)
  {
    if ShortEscape(u) != 0 {
      assert ([BACKSLASH, ShortEscape(u)] + rest)[2..] == rest;
      assert Unescaped(ShortEscape(u)) == u;
    } else if u < 0x20 || lone {
      HexIsRead(u, rest);
    } else {
      assert ([u] + rest)[1..] == rest;
    }
  }

  /** What a pair or a single unit adds in front of the rest. */
  lemma EscapedAhead(s: Text, tail: Text)
    requires s != []
    ensures PairAhead(s) ==> Escaped(s) + tail == [s[0]] + ([s[1]] + (Escaped(s[2..]) + tail))
                             && s == [s[0]] + ([s[1]] + s[2..])
    ensures !PairAhead(s) ==> Escaped(s) + tail == Escape(s[0], Surrogate(s[0])) + (Escaped(s[1..]) + tail)
                              && s == [s[0]] + s[1..]
  {
    if PairAhead(s) {
      Regroup([s[0], s[1]], Escaped(s[2..]), tail);
      Regroup([s[0]], [s[1]], Escaped(s[2..]) + tail);
      assert [s[0]] + [s[1]] == [s[0], s[1]];
    } else {
      Regroup(Escape(s[0], Surrogate(s[0])), Escaped(s[1..]), tail);
    }
  }

  lemma {:induction false} EscapedIsRead(s: Text, rest: Text)
    ensures ReadQuoted(Escaped(s) + ([QUOTE] + rest)) == (s, rest)
  {
    var tail := [QUOTE] + rest;
    if s == [] {
      assert Escaped(s) + tail == tail && tail[1..] == rest;
    } else {
      EscapedAhead(s, tail);
      if PairAhead(s) {
        EscapedIsRead(s[2..], rest);
      } else {
        EscapedIsRead(s[1..], rest);
        EscapeIsRead(s[0], Surrogate(s[0]), Escaped(s[1..]) + tail);
      }
    }
  }

  lemma QuoteShape(a: Text, s: Text)
    ensures Quote(a) + s == [QUOTE] + (Escaped(a) + ([QUOTE] + s))
  {
    Regroup([QUOTE], Escaped(a), [QUOTE]);
    Regroup([QUOTE], Escaped(a) + [QUOTE], s);
    Regroup(Escaped(a), [QUOTE], s);
  }

  /** Two quoted strings with the same text are the same string, and so is what follows. */
  lemma QuoteReads(a: Text, s: Text, b: Text, t: Text)
    requires Quote(a) + s == Quote(b) + t
    ensures a == b && s == t
  {
    QuoteShape(a, s);
    QuoteShape(b, t);
    DropSame([QUOTE], Escaped(a) + ([QUOTE] + s), [QUOTE], Escaped(b) + ([QUOTE] + t));
    EscapedIsRead(a, s);
    EscapedIsRead(b, t);
  }

  // ---- Values ----

  predicate NumberUnit(u: Unit) {
    0x30 <= u < 0x3a || u == 0x2b || u == 0x2d || u == 0x2e || u == 0x45 || u == 0x65
  }

  /** Number text is made of digits, signs, dot and exponent mark, and starts with a digit or a minus. */
  predicate NumberText(text: Text) {
    text != [] && (0x30 <= text[0] < 0x3a || text[0] == 0x2d)
    && forall i :: 0 <= i < |text| ==> NumberUnit(text[i])
  }

  /** What JSON.stringify is given here: proper number texts and no undefined members. */
  predicate Writable(v: Json) {
    match v
    case Number(text) => NumberText(text)
    case Arr(items) => forall i :: 0 <= i < |items| ==> Writable(items[i])
    case Obj(members) => forall i :: 0 <= i < |members| ==> members[i].value.Some? && Writable(members[i].value.value)
    case _ => true
  }

  const NULL_TEXT: Text := [0x6e, 0x75, 0x6c, 0x6c]
  const TRUE_TEXT: Text := [0x74, 0x72, 0x75, 0x65]
  const FALSE_TEXT: Text := [0x66, 0x61, 0x6c, 0x73, 0x65]

  function Stringify(v: Json): (text: Text)
    requires Writable(v)
    decreases v, 2, 0
  {
    match v
    case Null => NULL_TEXT
    case Bool(b) => if b then TRUE_TEXT else FALSE_TEXT
    case Number(text) => text
    case Str(s) => Quote(s)
    case Arr(_) => [OPEN_ARRAY] + ItemsFrom(v, 0)
    case Obj(_) => [OPEN_OBJECT] + MembersFrom(v, 0)
  }

  /** From item `i` on, with the comma before it and the closing bracket. */
  function ItemsFrom(v: Json, i: nat): (text: Text)
    requires v.Arr? && Writable(v) && i <= |v.items|
    decreases v, 1, |v.items| - i
  {
    if i == |v.items| then [CLOSE_ARRAY]
    else (if i == 0 then [] else [COMMA]) + (Stringify(v.items[i]) + ItemsFrom(v, i + 1))
  }

  function MembersFrom(v: Json, i: nat): (text: Text)
    requires v.Obj? && Writable(v) && i <= |v.members|
    decreases v, 1, |v.members| - i
  {
    if i == |v.members| then [CLOSE_OBJECT]
    else (if i == 0 then [] else [COMMA])
         + (Quote(v.members[i].key) + ([COLON] + (Stringify(v.members[i].value.value) + MembersFrom(v, i + 1))))
  }

  // ---- Reading back ----

  /** What can follow a value: nothing, a comma or a closing bracket. */
  predicate Stops(s: Text) {
    s == [] || s[0] == COMMA || s[0] == CLOSE_ARRAY || s[0] == CLOSE_OBJECT
  }

  lemma NumbersRead(a: Text, s: Text, b: Text, t: Text)
    requires NumberText(a) && NumberText(b) && Stops(s) && Stops(t) && a + s == b + t
    ensures a == b && s == t
  {
    NumberEnds(a, s, |b|);
    NumberEnds(b, t, |a|);
    assert |a| == |b|;
    assert (a + s)[..|a|] == a && (b + t)[..|b|] == b;
    assert (a + s)[|a|..] == s && (b + t)[|b|..] == t;
  }

  lemma NumberEnds(a: Text, s: Text, k: nat)
    requires NumberText(a) && Stops(s) && k <= |a + s|
    ensures (k == |a + s| || !NumberUnit((a + s)[k])) ==> k >= |a|
  {
    if k < |a| {
      assert NumberUnit(a[k]);
    }
  }

  lemma DropSame(a: Text, s: Text, b: Text, t: Text)
    requires |a| == |b| && a + s == b + t
    ensures a == b && s == t
  {
    assert (a + s)[..|a|] == a && (b + t)[..|b|] == b;
    assert (a + s)[|a|..] == s && (b + t)[|b|..] == t;
  }

  lemma SameFirst(a: Text, s: Text, b: Text, t: Text)
    requires a != [] && b != [] && a + s == b + t
    ensures a[0] == b[0]
  {
    assert (a + s)[0] == a[0] && (b + t)[0] == b[0];
  }

  /** Two texts that go on alike carry the same value and the same rest. */
  lemma {:induction false} ValuesRead(v: Json, s: Text, w: Json, t: Text)
    requires Writable(v) && Writable(w) && Stops(s) && Stops(t) && Stringify(v) + s == Stringify(w) + t
    ensures v == w && s == t
    decreases v, 2, 0
  {
    SameFirst(Stringify(v), s, Stringify(w), t);
    match v
    case Null => DropSame(Stringify(v), s, Stringify(w), t);
    case Bool(_) => DropSame(Stringify(v), s, Stringify(w), t);
    case Number(text) => NumbersRead(text, s, w.text, t);
    case Str(a) => QuoteReads(a, s, w.s, t);
    case Arr(_) =>
      Regroup([OPEN_ARRAY], ItemsFrom(v, 0), s);
      Regroup([OPEN_ARRAY], ItemsFrom(w, 0), t);
      DropSame([OPEN_ARRAY], ItemsFrom(v, 0) + s, [OPEN_ARRAY], ItemsFrom(w, 0) + t);
      ItemsRead(v, s, w, t, 0);
      assert v.items[0..] == v.items && w.items[0..] == w.items;
    case Obj(_) =>
      Regroup([OPEN_OBJECT], MembersFrom(v, 0), s);
      Regroup([OPEN_OBJECT], MembersFrom(w, 0), t);
      DropSame([OPEN_OBJECT], MembersFrom(v, 0) + s, [OPEN_OBJECT], MembersFrom(w, 0) + t);
      MembersRead(v, s, w, t, 0);
      assert v.members[0..] == v.members && w.members[0..] == w.members;
  }

  function Separator(i: nat): (text: Text) {
    if i == 0 then [] else [COMMA]
  }

  /** Closing brackets are not separators, and start no value. */
  lemma ItemsShape(v: Json, i: nat, s: Text)
    requires v.Arr? && Writable(v) && i <= |v.items|
    ensures i < |v.items| ==>
              ItemsFrom(v, i) + s == Separator(i) + (Stringify(v.items[i]) + (ItemsFrom(v, i + 1) + s))
    ensures i > 0 || i == |v.items| ==> Stops(ItemsFrom(v, i) + s)
    ensures ItemsFrom(v, i) != []
    ensures ItemsFrom(v, i)[0] == CLOSE_ARRAY <==> i == |v.items|
  {
    if i < |v.items| {
      Regroup(Stringify(v.items[i]), ItemsFrom(v, i + 1), s);
      Regroup(Separator(i), Stringify(v.items[i]) + ItemsFrom(v, i + 1), s);
    }
  }

  lemma {:induction false} ItemRead(v: Json, s: Text, w: Json, t: Text, i: nat)
    requires v.Arr? && w.Arr? && Writable(v) && Writable(w) && i < |v.items| && i < |w.items|
    requires ItemsFrom(v, i) + s == ItemsFrom(w, i) + t
    ensures v.items[i] == w.items[i] && ItemsFrom(v, i + 1) + s == ItemsFrom(w, i + 1) + t
    decreases v, 0, 0
  {
    var p, q := ItemsFrom(v, i + 1) + s, ItemsFrom(w, i + 1) + t;
    ItemsShape(v, i, s);
    ItemsShape(w, i, t);
    ItemsShape(v, i + 1, s);
    ItemsShape(w, i + 1, t);
    DropSame(Separator(i), Stringify(v.items[i]) + p, Separator(i), Stringify(w.items[i]) + q);
    ValuesRead(v.items[i], p, w.items[i], q);
  }

  /** Both lists of items end here, or neither does. */
  lemma ItemsEnd(v: Json, s: Text, w: Json, t: Text, i: nat)
    requires v.Arr? && w.Arr? && Writable(v) && Writable(w) && i <= |v.items| && i <= |w.items|
    requires ItemsFrom(v, i) + s == ItemsFrom(w, i) + t
    ensures i == |v.items| <==> i == |w.items|
    ensures i == |v.items| ==> s == t
  {
    ItemsShape(v, i, s);
    ItemsShape(w, i, t);
    SameFirst(ItemsFrom(v, i), s, ItemsFrom(w, i), t);
    if i == |v.items| {
      DropSame([CLOSE_ARRAY], s, [CLOSE_ARRAY], t);
    }
  }

  lemma {:induction false} ItemsRead(v: Json, s: Text, w: Json, t: Text, i: nat)
    requires v.Arr? && w.Arr? && Writable(v) && Writable(w) && i <= |v.items| && i <= |w.items|
    requires ItemsFrom(v, i) + s == ItemsFrom(w, i) + t
    ensures v.items[i..] == w.items[i..] && s == t
    decreases v, 1, |v.items| - i
  {
    ItemsEnd(v, s, w, t, i);
    if i == |v.items| {
      assert v.items[i..] == [] && w.items[i..] == [];
    } else {
      ItemRead(v, s, w, t, i);
      ItemsRead(v, s, w, t, i + 1);
      TailsMeet(v.items, w.items, i);
    }
  }

  lemma MembersShape(v: Json, i: nat, s: Text)
    requires v.Obj? && Writable(v) && i <= |v.members|
    ensures i < |v.members| ==>
              var m := v.members[i];
              MembersFrom(v, i) + s
              == Separator(i) + (Quote(m.key) + ([COLON] + (Stringify(m.value.value) + (MembersFrom(v, i + 1) + s))))
    ensures i > 0 || i == |v.members| ==> Stops(MembersFrom(v, i) + s)
    ensures MembersFrom(v, i) != []
    ensures MembersFrom(v, i)[0] == CLOSE_OBJECT <==> i == |v.members|
  {
    if i < |v.members| {
      var m, later := v.members[i], MembersFrom(v, i + 1);
      Regroup(Stringify(m.value.value), later, s);
      Regroup([COLON], Stringify(m.value.value) + later, s);
      Regroup(Quote(m.key), [COLON] + (Stringify(m.value.value) + later), s);
      Regroup(Separator(i), Quote(m.key) + ([COLON] + (Stringify(m.value.value) + later)), s);
    }
  }

  lemma KeysRead(separator: Text, k: Text, x: Text, l: Text, y: Text)
    requires separator + (Quote(k) + ([COLON] + x)) == separator + (Quote(l) + ([COLON] + y))
    ensures k == l && x == y
  {
    DropSame(separator, Quote(k) + ([COLON] + x), separator, Quote(l) + ([COLON] + y));
    QuoteReads(k, [COLON] + x, l, [COLON] + y);
    DropSame([COLON], x, [COLON], y);
  }

  lemma {:induction false} MemberRead(v: Json, s: Text, w: Json, t: Text, i: nat)
    requires v.Obj? && w.Obj? && Writable(v) && Writable(w) && i < |v.members| && i < |w.members|
    requires MembersFrom(v, i) + s == MembersFrom(w, i) + t
    ensures v.members[i] == w.members[i] && MembersFrom(v, i + 1) + s == MembersFrom(w, i + 1) + t
    decreases v, 0, 0
  {
    var m, n := v.members[i], w.members[i];
    var p, q := MembersFrom(v, i + 1) + s, MembersFrom(w, i + 1) + t;
    MembersShape(v, i, s);
    MembersShape(w, i, t);
    MembersShape(v, i + 1, s);
    MembersShape(w, i + 1, t);
    KeysRead(Separator(i), m.key, Stringify(m.value.value) + p, n.key, Stringify(n.value.value) + q);
    ValuesRead(m.value.value, p, n.value.value, q);
  }

  /** Both lists of members end here, or neither does. */
  lemma MembersEnd(v: Json, s: Text, w: Json, t: Text, i: nat)
    requires v.Obj? && w.Obj? && Writable(v) && Writable(w) && i <= |v.members| && i <= |w.members|
    requires MembersFrom(v, i) + s == MembersFrom(w, i) + t
    ensures i == |v.members| <==> i == |w.members|
    ensures i == |v.members| ==> s == t
  {
    MembersShape(v, i, s);
    MembersShape(w, i, t);
    SameFirst(MembersFrom(v, i), s, MembersFrom(w, i), t);
    if i == |v.members| {
      DropSame([CLOSE_OBJECT], s, [CLOSE_OBJECT], t);
    }
  }

  lemma {:induction false} MembersRead(v: Json, s: Text, w: Json, t: Text, i: nat)
    requires v.Obj? && w.Obj? && Writable(v) && Writable(w) && i <= |v.members| && i <= |w.members|
    requires MembersFrom(v, i) + s == MembersFrom(w, i) + t
    ensures v.members[i..] == w.members[i..] && s == t
    decreases v, 1, |v.members| - i
  {
    MembersEnd(v, s, w, t, i);
    if i == |v.members| {
      assert v.members[i..] == [] && w.members[i..] == [];
    } else {
      MemberRead(v, s, w, t, i);
      MembersRead(v, s, w, t, i + 1);
      TailsMeet(v.members, w.members, i);
    }
  }

  /** No two values have the same text. */
  lemma StringifyInjective(v: Json, w: Json)
    requires Writable(v) && Writable(w) && Stringify(v) == Stringify(w)
    ensures v == w
  {
    assert Stringify(v) + [] == Stringify(v) && Stringify(w) + [] == Stringify(w);
    ValuesRead(v, [], w, []);
  }
}

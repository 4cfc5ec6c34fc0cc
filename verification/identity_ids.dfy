// Identity ids: deriving, formatting and normalising
// (packages/protocol-ts/src/identity.ts).
module IdentityIds {
  import opened Bytes
  import opened Options
  import Base32
  import Base64UrlSpec
  import Sha256Spec
  import Utf8

  const BODY_BYTES: nat := 20
  const BODY_CHARS: nat := 32
  const CHECKSUM_CHARS: nat := 4
  const PAYLOAD_CHARS: nat := 36

  datatype Role = Agent | App

  function Prefix(role: Role): (p: string)
    ensures |p| == 4
  {
    match role
    case Agent => "DEV1"
    case App => "APP1"
  }

  // ---- What the platform does to characters ----

  /** `toUpperCase` of a character, and what `\s` matches. */
  datatype Platform = Platform(upper: char -> string, space: char -> bool)

  function AsciiUpper(c: char): (u: char) {
    if 'a' <= c <= 'z' then 'A' + (c - 'a') else c
  }

  predicate AsciiSpace(c: char) {
    c == ' ' || 9 <= c as int <= 13
  }

  /** ASCII is as usual, and uppercasing leaves space as it is. */
  ghost predicate Standard(p: Platform) {
    && (forall c: char :: c as int < 128 ==> p.upper(c) == [AsciiUpper(c)])
    && (forall c: char :: c as int < 128 ==> p.space(c) == AsciiSpace(c))
    && (forall c: char :: p.space(c) ==> p.upper(c) == [c])
  }

  // ---- Reading ----

  function TrimStart(p: Platform, s: string): (r: string) {
    if s != "" && p.space(s[0]) then TrimStart(p, s[1..]) else s
  }

  function TrimEnd(p: Platform, s: string): (r: string) {
    if s != "" && p.space(s[|s| - 1]) then TrimEnd(p, s[..|s| - 1]) else s
  }

  function Upper(p: Platform, s: string): (r: string) {
    if s == "" then "" else p.upper(s[0]) + Upper(p, s[1..])
  }

  predicate Separator(p: Platform, c: char) {
    p.space(c) || c == '-'
  }

  function DropSeparators(p: Platform, s: string): (r: string) {
    if s == "" then "" else (if Separator(p, s[0]) then "" else [s[0]]) + DropSeparators(p, s[1..])
  }

  function Compact(p: Platform, s: string): (r: string) {
    DropSeparators(p, Upper(p, TrimEnd(p, TrimStart(p, s))))
  }

  // ---- Writing ----

  function Utf8Text(s: string): (bytes: seq<byte>) {
    Utf8.PlatformBytes(Utf8.Literal(s))
  }

  function Checksum(prefix: string, body: string): (c: string)
    ensures |c| == CHECKSUM_CHARS
  {
    var digest := Sha256Spec.Digest(Utf8Text("omniwork-id-check-v1") + [0] + Utf8Text(prefix) + [0] + Utf8Text(body));
    Base32.Encode(digest)[..CHECKSUM_CHARS]
  }

  /** Groups of six with hyphens between them. */
  function Groups(payload: string): (r: string) {
    if |payload| <= 6 then payload else payload[..6] + "-" + Groups(payload[6..])
  }

  function Format(prefix: string, payload: string): (id: string) {
    prefix + "-" + Groups(payload)
  }

  predicate AllChars32(s: string) {
    forall i :: 0 <= i < |s| ==> Base32.IsChar32(s[i])
  }

  predicate IsPrefix(prefix: string) {
    prefix == "DEV1" || prefix == "APP1"
  }

  /** A prefix, a body and the checksum that goes with them. */
  predicate GoodParts(prefix: string, payload: string) {
    && IsPrefix(prefix) && |payload| == PAYLOAD_CHARS && AllChars32(payload)
    && payload[BODY_CHARS..] == Checksum(prefix, payload[..BODY_CHARS])
  }

  function Normalize(p: Platform, value: string): (id: Option<string>) {
    var compact := Compact(p, value);
    if |compact| != 4 + PAYLOAD_CHARS then None
    else if !GoodParts(compact[..4], compact[4..]) then None
    else Some(Format(compact[..4], compact[4..]))
  }

  /** The id of a public key, or None where the code throws; `valid` is what
      the curve library says about the key's bytes. */
  function DeriveId(role: Role, publicKey: string, valid: seq<byte> -> bool): (id: Option<string>) {
    if !Base64UrlSpec.Decodable(publicKey) then None
    else
      var key := Base64UrlSpec.Decode(publicKey);
      if |key| != 32 || !valid(key) then None
      else
        var name := match role case Agent => "agent" case App => "app";
        var digest := Sha256Spec.Digest(Utf8Text("omniwork-identity-v1") + [0] + Utf8Text(name) + [0] + Utf8Text("ed25519") + [0] + key);
        var body := Base32.Encode(digest[..BODY_BYTES]);
        Some(Format(Prefix(role), body + Checksum(Prefix(role), body)))
  }

  // ---- Case, spaces and hyphens do not matter ----

  /** What a character contributes to the compact form. */
  function Kept(p: Platform, c: char): (r: string) {
    DropSeparators(p, p.upper(c))
  }

  function KeptAll(p: Platform, s: string): (r: string) {
    if s == "" then "" else Kept(p, s[0]) + KeptAll(p, s[1..])
  }

  lemma {:induction false} DropConcat(p: Platform, s: string, t: string)
    ensures DropSeparators(p, s + t) == DropSeparators(p, s) + DropSeparators(p, t)
  {
    if s == "" {
      assert s + t == t;
    } else {
      assert (s + t)[1..] == s[1..] + t;
      DropConcat(p, s[1..], t);
    }
  }

  lemma {:induction false} KeptConcat(p: Platform, s: string, t: string)
    ensures KeptAll(p, s + t) == KeptAll(p, s) + KeptAll(p, t)
  {
    if s == "" {
      assert s + t == t;
    } else {
      assert (s + t)[1..] == s[1..] + t;
      KeptConcat(p, s[1..], t);
    }
  }

  lemma SpaceIsNotKept(p: Platform, c: char)
    requires Standard(p) && Separator(p, c)
    ensures Kept(p, c) == ""
  {
    assert p.upper('-') == [AsciiUpper('-')];
    assert p.upper(c) == [c] && [c][1..] == "";
    assert DropSeparators(p, [c]) == "" + DropSeparators(p, "");
  }

  lemma {:induction false} UpperIsKept(p: Platform, s: string)
    ensures DropSeparators(p, Upper(p, s)) == KeptAll(p, s)
  {
    if s != "" {
      UpperIsKept(p, s[1..]);
      DropConcat(p, p.upper(s[0]), Upper(p, s[1..]));
    }
  }

  lemma {:induction false} TrimStartIsKept(p: Platform, s: string)
    requires Standard(p)
    ensures KeptAll(p, TrimStart(p, s)) == KeptAll(p, s)
  {
    if s != "" && p.space(s[0]) {
      TrimStartIsKept(p, s[1..]);
      SpaceIsNotKept(p, s[0]);
    }
  }

  lemma {:induction false} TrimEndIsKept(p: Platform, s: string)
    requires Standard(p)
    ensures KeptAll(p, TrimEnd(p, s)) == KeptAll(p, s)
  {
    if s != "" && p.space(s[|s| - 1]) {
      var front, c := s[..|s| - 1], s[|s| - 1];
      TrimEndIsKept(p, front);
      KeptConcat(p, front, [c]);
      SpaceIsNotKept(p, c);
      assert s == front + [c];
    }
  }

  lemma CompactIsKept(p: Platform, s: string)
    requires Standard(p)
    ensures Compact(p, s) == KeptAll(p, s)
  {
    TrimStartIsKept(p, s);
    TrimEndIsKept(p, TrimStart(p, s));
    UpperIsKept(p, TrimEnd(p, TrimStart(p, s)));
  }

  lemma KeptAround(p: Platform, s: string, c: char, t: string)
    ensures KeptAll(p, s + [c] + t) == KeptAll(p, s) + Kept(p, c) + KeptAll(p, t)
  {
    KeptConcat(p, s + [c], t);
    KeptConcat(p, s, [c]);
  }

  /** A space or hyphen put anywhere makes no difference. */
  lemma NormalizeIgnoresSeparators(p: Platform, s: string, c: char, t: string)
    requires Standard(p) && Separator(p, c)
    ensures Normalize(p, s + [c] + t) == Normalize(p, s + t)
  {
    CompactIsKept(p, s + [c] + t);
    CompactIsKept(p, s + t);
    KeptAround(p, s, c, t);
    SpaceIsNotKept(p, c);
    KeptConcat(p, s, t);
    assert KeptAll(p, s) + "" == KeptAll(p, s);
  }

  /** Nor does the case of a letter. */
  lemma NormalizeIgnoresCase(p: Platform, s: string, c: char, d: char, t: string)
    requires Standard(p) && p.upper(c) == p.upper(d)
    ensures Normalize(p, s + [c] + t) == Normalize(p, s + [d] + t)
  {
    CompactIsKept(p, s + [c] + t);
    CompactIsKept(p, s + [d] + t);
    KeptAround(p, s, c, t);
    KeptAround(p, s, d, t);
  }

  // ---- Formatted ids are their own normal form ----

  /** Letters in capitals and digits. */
  predicate Plain(s: string) {
    forall i :: 0 <= i < |s| ==> '0' <= s[i] <= '9' || 'A' <= s[i] <= 'Z'
  }

  lemma PlainCharIsKept(p: Platform, c: char)
    requires Standard(p) && Plain([c])
    ensures Kept(p, c) == [c]
  {
    assert [c][0] == c && [c][1..] == "";
    assert p.upper(c) == [AsciiUpper(c)] && !Separator(p, c);
    assert DropSeparators(p, [c]) == [c] + DropSeparators(p, "");
  }

  lemma {:induction false} PlainIsKept(p: Platform, s: string)
    requires Standard(p) && Plain(s)
    ensures KeptAll(p, s) == s
  {
    if s != "" {
      PlainIsKept(p, s[1..]);
      PlainCharIsKept(p, s[0]);
      assert s == [s[0]] + s[1..];
    }
  }

  lemma {:induction false} GroupsAreKept(p: Platform, payload: string)
    requires Standard(p) && Plain(payload)
    ensures KeptAll(p, Groups(payload)) == payload
  {
    if |payload| <= 6 {
      PlainIsKept(p, payload);
    } else {
      GroupsAreKept(p, payload[6..]);
      PlainIsKept(p, payload[..6]);
      KeptAround(p, payload[..6], '-', Groups(payload[6..]));
      SpaceIsNotKept(p, '-');
      assert payload == payload[..6] + "" + payload[6..];
    }
  }

  /** A formatted id reads back as its parts. */
  lemma FormatIsRead(p: Platform, prefix: string, payload: string)
    requires Standard(p) && Plain(prefix) && Plain(payload)
    ensures Compact(p, Format(prefix, payload)) == prefix + payload
  {
    CompactIsKept(p, Format(prefix, payload));
    KeptAround(p, prefix, '-', Groups(payload));
    PlainIsKept(p, prefix);
    GroupsAreKept(p, payload);
    SpaceIsNotKept(p, '-');
  }

  lemma PartsOf(prefix: string, payload: string)
    ensures (prefix + payload)[..|prefix|] == prefix && (prefix + payload)[|prefix|..] == payload
  {
  }

  /** What a compact form that is accepted looks like, whatever its checksum function. */
  lemma ReadBack(p: Platform, prefix: string, payload: string)
    requires Standard(p) && IsPrefix(prefix) && AllChars32(payload) && |payload| == PAYLOAD_CHARS
    ensures var compact := Compact(p, Format(prefix, payload));
            |compact| == 4 + PAYLOAD_CHARS && compact[..4] == prefix && compact[4..] == payload
  {
    FormatIsRead(p, prefix, payload);
    PartsOf(prefix, payload);
  }

  lemma GoodPartsAreFixed(p: Platform, prefix: string, payload: string)
    requires Standard(p) && GoodParts(prefix, payload)
    ensures Normalize(p, Format(prefix, payload)) == Some(Format(prefix, payload))
  {
    ReadBack(p, prefix, payload);
  }

  /** Normalising twice is normalising once. */
  lemma NormalizeIsIdempotent(p: Platform, value: string)
    requires Standard(p) && Normalize(p, value).Some?
    ensures Normalize(p, Normalize(p, value).value) == Normalize(p, value)
  {
    GoodPartsAreFixed(p, Compact(p, value)[..4], Compact(p, value)[4..]);
  }

  lemma PlainIsCompact(p: Platform, s: string)
    requires Standard(p) && Plain(s)
    ensures Compact(p, s) == s
  {
    CompactIsKept(p, s);
    PlainIsKept(p, s);
  }

  lemma NormalizeCompact(p: Platform, value: string, prefix: string, payload: string)
    requires Compact(p, value) == prefix + payload && |prefix| == 4 && |payload| == PAYLOAD_CHARS
    ensures Normalize(p, value).Some? <==> GoodParts(prefix, payload)
  {
    PartsOf(prefix, payload);
  }

  lemma GoodPartsExactly(prefix: string, body: string, check: string)
    requires AllChars32(body) && |body| == BODY_CHARS && AllChars32(check) && |check| == CHECKSUM_CHARS
    ensures GoodParts(prefix, body + check) <==> (prefix == "DEV1" || prefix == "APP1") && check == Checksum(prefix, body)
  {
    PartsOf(body, check);
  }

  lemma PlainParts(prefix: string, body: string, check: string)
    requires Plain(prefix) && AllChars32(body) && AllChars32(check)
    ensures Plain(prefix + (body + check))
  {
  }

  /** A text of prefix, body and checksum characters is an id if and only if
      the prefix is one of the two and the checksum is that of prefix and body:
      of the 2^20 checksums one is accepted. */
  lemma ChecksumDecides(p: Platform, prefix: string, body: string, check: string)
    requires Standard(p) && AllChars32(body) && |body| == BODY_CHARS && AllChars32(check) && |check| == CHECKSUM_CHARS
    requires |prefix| == 4 && Plain(prefix)
    ensures Normalize(p, prefix + (body + check)).Some? <==>
            (prefix == "DEV1" || prefix == "APP1") && check == Checksum(prefix, body)
  {
    PlainParts(prefix, body, check);
    PlainIsCompact(p, prefix + (body + check));
    NormalizeCompact(p, prefix + (body + check), prefix, body + check);
    GoodPartsExactly(prefix, body, check);
  }

  /** Every derived id is its own normal form. */
  lemma DerivedIdsAreNormal(p: Platform, role: Role, publicKey: string, valid: seq<byte> -> bool)
    requires Standard(p) && DeriveId(role, publicKey, valid).Some?
    ensures Normalize(p, DeriveId(role, publicKey, valid).value) == DeriveId(role, publicKey, valid)
  {
    var key := Base64UrlSpec.Decode(publicKey);
    var name := match role case Agent => "agent" case App => "app";
    var digest := Sha256Spec.Digest(Utf8Text("omniwork-identity-v1") + [0] + Utf8Text(name) + [0] + Utf8Text("ed25519") + [0] + key);
    DerivedParts(role, digest[..BODY_BYTES]);
    var body := Base32.Encode(digest[..BODY_BYTES]);
    GoodPartsAreFixed(p, Prefix(role), body + Checksum(Prefix(role), body));
  }

  lemma DerivedParts(role: Role, bytes: seq<byte>)
    requires |bytes| == BODY_BYTES
    ensures var body := Base32.Encode(bytes); GoodParts(Prefix(role), body + Checksum(Prefix(role), body))
  {
    var body := Base32.Encode(bytes);
    Base32.EncodeChars(bytes);
    ChecksumChars(Prefix(role), body);
    PartsOf(body, Checksum(Prefix(role), body));
  }

  lemma ChecksumChars(prefix: string, body: string)
    ensures AllChars32(Checksum(prefix, body))
  {
    Base32.EncodeChars(Sha256Spec.Digest(Utf8Text("omniwork-id-check-v1") + [0] + Utf8Text(prefix) + [0] + Utf8Text(body)));
  }

  /** Two ids are written alike only when they have the same prefix and payload. */
  lemma FormatInjective(p: Platform, prefix: string, payload: string, prefix': string, payload': string)
    requires Standard(p) && IsPrefix(prefix) && IsPrefix(prefix') && AllChars32(payload) && AllChars32(payload')
    requires Format(prefix, payload) == Format(prefix', payload')
    ensures prefix == prefix' && payload == payload'
  {
    FormatIsRead(p, prefix, payload);
    FormatIsRead(p, prefix', payload');
    PartsOf(prefix, payload);
    PartsOf(prefix', payload');
  }
}

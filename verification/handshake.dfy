// The signed key exchange that starts an end-to-end session
// (packages/e2e-noise/src/index.ts, packages/protocol-ts/src/authSignatures.ts).
// Cryptography is ideal: signatures verify exactly what their key signed,
// Diffie-Hellman commutes, and hashing and key derivation are injective. Keys
// and signatures travel as base64url texts, and a text has bits that no byte
// uses (Base64UrlSpec.SpellingsOfBytes): `spare` stands for them, 0 as the
// encoder writes them. Decoding ignores them; comparing and hashing texts does not.
module Handshakes {
  import opened Options
  import opened DecimalText
  import opened Utf8
  import E2E = E2ESessions
  import J = JsonText
  import CanonicalJson

  // ---- Ideal cryptography ----

  datatype PublicKey = PublicKey(exponent: nat)

  /** A Diffie-Hellman key as it travels: well formed, or not 32 bytes long. */
  datatype KeyText = Point(key: PublicKey, spare: nat) | Malformed(text: string)

  /** The public key of an identity as it travels: well formed, or no Ed25519 key. */
  datatype IdentityKey = IdentityKey(key: string, spare: nat) | NoKey(text: string)

  /** The id of an identity as it travels: what it normalises to, and which of the spellings with that normal form it is. */
  datatype IdText = IdText(normal: string, spelling: nat)

  /** One element of the string lists that are signed and hashed. */
  datatype Field =
    | Text(text: string)
    | Id(id: IdText)
    | Identity(identityKey: IdentityKey)
    | Canonical(units: J.Text)
    | Ephemeral(keyText: KeyText)
    | Mark(signature: Signature)

  datatype Signature = Signed(publicKey: string, domain: string, fields: seq<Field>, spare: nat) | Forged(text: string)

  datatype Digest = Digest(input: seq<Field>)

  datatype SessionKey = SessionKey(secret: set<nat>, salt: Digest, half: nat)

  function SharedSecret(privateKey: nat, remote: PublicKey): set<nat> {
    {privateKey, remote.exponent}
  }

  /** The decoded signature is the key's own; the spare bits of its text do not matter. */
  predicate Verify(publicKey: IdentityKey, domain: string, fields: seq<Field>, signature: Signature) {
    && publicKey.IdentityKey? && signature.Signed?
    && signature.publicKey == publicKey.key && signature.domain == domain && signature.fields == fields
  }

  /** A signature spelled as its signer wrote it. */
  function AsWritten(signature: Signature): (r: Signature) {
    if signature.Signed? then signature.(spare := 0) else signature
  }

  // ---- Payloads ----

  const PROTOCOL_VERSION: nat := 2
  const E2E_PROTOCOL_VERSION: nat := 2
  const INNER_PROTOCOL_VERSION: nat := 1
  const SUITE := "OmniWork_SignedX25519_ChaChaPoly_SHA256_v2"
  const INIT_DOMAIN := "e2e-init"
  const REPLY_DOMAIN := "e2e-reply"

  datatype Protocol = Protocol(outerV: nat, innerV: nat, e2eV: nat)

  const OWN_PROTOCOL := Protocol(PROTOCOL_VERSION, INNER_PROTOCOL_VERSION, E2E_PROTOCOL_VERSION)

  datatype InitPayload = InitPayload(
    v: nat, e2eVersion: nat, agentConnectionId: string, appConnectionId: string, handshakeId: string,
    suite: string, deviceId: IdText, appId: IdText, appPublicKey: IdentityKey,
    appEphemeralKey: KeyText, appProtocol: Protocol, signature: Signature)

  datatype ReplyPayload = ReplyPayload(
    v: nat, e2eVersion: nat, agentConnectionId: string, appConnectionId: string, handshakeId: string,
    suite: string, deviceId: IdText, agentPublicKey: IdentityKey, appId: IdText,
    agentEphemeralKey: KeyText, agentProtocol: Protocol, signature: Signature)

  function InitAsWritten(init: InitPayload): (r: InitPayload) {
    init.(signature := AsWritten(init.signature))
  }

  function ReplyAsWritten(reply: ReplyPayload): (r: ReplyPayload) {
    reply.(signature := AsWritten(reply.signature))
  }

  const E2E_V: J.Text := Literal("e2e_v")
  const INNER_V: J.Text := Literal("inner_v")
  const OUTER_V: J.Text := Literal("outer_v")

  function Digits(n: nat): (text: J.Text)
    ensures |text| == |Decimal(n)| && forall i :: 0 <= i < |text| ==> text[i] == Decimal(n)[i] as int && 0x30 <= text[i] < 0x3a
  {
    assert forall i :: 0 <= i < |Decimal(n)| ==> Decimal(n)[i] in Decimal(n);
    Literal(Decimal(n))
  }

  function Version(key: J.Text, n: nat): J.Member {
    J.Member(key, Some(J.Number(Digits(n))))
  }

  function ProtocolRecord(p: Protocol): (v: J.Json)
    ensures CanonicalJson.Proper(v)
  {
    var v := J.Obj([Version(OUTER_V, p.outerV), Version(INNER_V, p.innerV), Version(E2E_V, p.e2eV)]);
    assert OUTER_V[0] != INNER_V[0] && OUTER_V[0] != E2E_V[0] && INNER_V[0] != E2E_V[0];
    v
  }

  function CanonicalProtocol(p: Protocol): (text: J.Text) {
    CanonicalJson.Canonical(ProtocolRecord(p))
  }

  function InitFields(init: InitPayload): (fields: seq<Field>)
    ensures |fields| == 11
  {
    [Text(Decimal(init.v)), Text(Decimal(init.e2eVersion)), Text(init.suite),
     Id(init.deviceId), Id(init.appId), Identity(init.appPublicKey), Text(init.agentConnectionId),
     Text(init.appConnectionId), Text(init.handshakeId), Ephemeral(init.appEphemeralKey),
     Canonical(CanonicalProtocol(init.appProtocol))]
  }

  function ReplyFields(reply: ReplyPayload, appEphemeralKey: KeyText): (fields: seq<Field>)
    ensures |fields| == 12
  {
    [Text(Decimal(reply.v)), Text(Decimal(reply.e2eVersion)), Text(reply.suite),
     Id(reply.deviceId), Identity(reply.agentPublicKey), Id(reply.appId), Text(reply.agentConnectionId),
     Text(reply.appConnectionId), Text(reply.handshakeId), Ephemeral(appEphemeralKey),
     Ephemeral(reply.agentEphemeralKey), Canonical(CanonicalProtocol(reply.agentProtocol))]
  }

  function TranscriptHash(init: InitPayload, reply: ReplyPayload): Digest {
    Digest([Text("omniwork:e2e-transcript:v2")] + InitFields(init) + [Mark(init.signature)]
           + ReplyFields(reply, init.appEphemeralKey) + [Mark(reply.signature)])
  }

  // ---- The three steps ----

  datatype Role = Agent | App

  datatype Context = Context(
    deviceId: IdText, agentPublicKey: IdentityKey, appId: IdText, appPublicKey: IdentityKey,
    agentConnectionId: string, appConnectionId: string)

  datatype ErrorCode = InvalidHandshakeMessage | IdentityMismatch | InvalidSignature | HandshakeFailed | UnsupportedSuite

  datatype Result<+T> = Ok(value: T) | Err(code: ErrorCode)

  datatype SessionId = SessionId(transcript: Digest)

  datatype Established = Established(
    role: E2E.Role, handshakeId: string, sessionId: SessionId, appConnectionId: string,
    transcriptHash: Digest, txKey: SessionKey, rxKey: SessionKey)

  /** Normal ids are derived from the bytes of public keys, one to one. */
  function DerivedId(role: Role, key: string): string {
    (if role == Agent then "DEV1-" else "APP1-") + key
  }

  predicate IdMatchesKey(role: Role, id: IdText, publicKey: IdentityKey) {
    publicKey.IdentityKey? && id.normal == DerivedId(role, publicKey.key)
  }

  predicate ValidContext(c: Context) {
    IdMatchesKey(Agent, c.deviceId, c.agentPublicKey) && IdMatchesKey(App, c.appId, c.appPublicKey)
  }

  /** The bytes of a public key, which is what names it as a signing key. */
  function KeyOf(publicKey: IdentityKey): (key: string) {
    if publicKey.IdentityKey? then publicKey.key else ""
  }

  function CreateInit(c: Context, handshakeId: string, ephemeral: nat, appSigningKey: string): Result<InitPayload> {
    if !ValidContext(c) then Err(IdentityMismatch)
    else
      var unsigned := InitPayload(PROTOCOL_VERSION, E2E_PROTOCOL_VERSION, c.agentConnectionId, c.appConnectionId,
        handshakeId, SUITE, c.deviceId, c.appId, c.appPublicKey, Point(PublicKey(ephemeral), 0), OWN_PROTOCOL, Forged(""));
      Ok(unsigned.(signature := Signed(appSigningKey, INIT_DOMAIN, InitFields(unsigned), 0)))
  }

  function CheckInit(c: Context, init: InitPayload): Option<ErrorCode> {
    if init.suite != SUITE then Some(UnsupportedSuite)
    else if || init.v != PROTOCOL_VERSION || init.e2eVersion != E2E_PROTOCOL_VERSION
            || init.deviceId != c.deviceId || init.appId != c.appId || init.appPublicKey != c.appPublicKey
            || init.agentConnectionId != c.agentConnectionId || init.appConnectionId != c.appConnectionId
    then Some(HandshakeFailed)
    else if !Verify(init.appPublicKey, INIT_DOMAIN, InitFields(init), init.signature) then Some(InvalidSignature)
    else None
  }

  function CheckReply(c: Context, init: InitPayload, reply: ReplyPayload): Option<ErrorCode> {
    if reply.suite != SUITE then Some(UnsupportedSuite)
    else if || reply.v != PROTOCOL_VERSION || reply.e2eVersion != E2E_PROTOCOL_VERSION
            || reply.deviceId != c.deviceId || reply.agentPublicKey != c.agentPublicKey || reply.appId != c.appId
            || reply.agentConnectionId != c.agentConnectionId || reply.appConnectionId != c.appConnectionId
            || reply.handshakeId != init.handshakeId
    then Some(HandshakeFailed)
    else if !Verify(reply.agentPublicKey, REPLY_DOMAIN, ReplyFields(reply, init.appEphemeralKey), reply.signature)
    then Some(InvalidSignature)
    else None
  }

  function InitiatorKey(secret: set<nat>, transcript: Digest): SessionKey {
    SessionKey(secret, transcript, 0)
  }

  function ResponderKey(secret: set<nat>, transcript: Digest): SessionKey {
    SessionKey(secret, transcript, 1)
  }

  function Accept(c: Context, init: InitPayload, ephemeral: nat, agentSigningKey: string): Result<(ReplyPayload, Established)> {
    if !ValidContext(c) then Err(IdentityMismatch)
    else if CheckInit(c, init).Some? then Err(CheckInit(c, init).value)
    else if init.appEphemeralKey.Malformed? then Err(InvalidHandshakeMessage)
    else
      var unsigned := ReplyPayload(PROTOCOL_VERSION, E2E_PROTOCOL_VERSION, c.agentConnectionId, c.appConnectionId,
        init.handshakeId, SUITE, c.deviceId, c.agentPublicKey, c.appId, Point(PublicKey(ephemeral), 0), OWN_PROTOCOL, Forged(""));
      var reply := unsigned.(signature := Signed(agentSigningKey, REPLY_DOMAIN, ReplyFields(unsigned, init.appEphemeralKey), 0));
      var transcript := TranscriptHash(init, reply);
      var secret := SharedSecret(ephemeral, init.appEphemeralKey.key);
      Ok((reply, Established(E2E.Responder, init.handshakeId, SessionId(transcript), c.appConnectionId, transcript,
                             ResponderKey(secret, transcript), InitiatorKey(secret, transcript))))
  }

  function Complete(c: Context, init: InitPayload, ephemeral: nat, reply: ReplyPayload): Result<Established> {
    if CheckReply(c, init, reply).Some? then Err(CheckReply(c, init, reply).value)
    else if reply.agentEphemeralKey.Malformed? then Err(InvalidHandshakeMessage)
    else
      var transcript := TranscriptHash(init, reply);
      var secret := SharedSecret(ephemeral, reply.agentEphemeralKey.key);
      Ok(Established(E2E.Initiator, init.handshakeId, SessionId(transcript), c.appConnectionId, transcript,
                     InitiatorKey(secret, transcript), ResponderKey(secret, transcript)))
  }

  /** The two ends of one session: same identities, and each end's sending key is the other's receiving key. */
  predicate Paired(app: Established, agent: Established) {
    && app.sessionId == agent.sessionId && app.handshakeId == agent.handshakeId
    && app.appConnectionId == agent.appConnectionId && app.transcriptHash == agent.transcriptHash
    && app.txKey == agent.rxKey && app.rxKey == agent.txKey && app.txKey != app.rxKey
  }

  // ---- Agreement ----

  lemma CreatedInitVerifies(c: Context, handshakeId: string, ephemeral: nat)
    requires ValidContext(c)
    ensures var init := CreateInit(c, handshakeId, ephemeral, KeyOf(c.appPublicKey));
            init.Ok? && Verify(init.value.appPublicKey, INIT_DOMAIN, InitFields(init.value), init.value.signature)
  {
    var init := CreateInit(c, handshakeId, ephemeral, KeyOf(c.appPublicKey)).value;
    var unsigned := init.(signature := Forged(""));
    assert init.signature.fields == InitFields(unsigned);
    assert InitFields(unsigned) == InitFields(init);
  }

  lemma HonestInitIsAccepted(c: Context, handshakeId: string, appEphemeral: nat, agentEphemeral: nat)
    requires ValidContext(c)
    ensures var init := CreateInit(c, handshakeId, appEphemeral, KeyOf(c.appPublicKey));
            && init.Ok? && Accept(c, init.value, agentEphemeral, KeyOf(c.agentPublicKey)).Ok?
            && init.value.appEphemeralKey == Point(PublicKey(appEphemeral), 0) && init.value.appConnectionId == c.appConnectionId
  {
    CreatedInitVerifies(c, handshakeId, appEphemeral);
    assert CheckInit(c, CreateInit(c, handshakeId, appEphemeral, KeyOf(c.appPublicKey)).value).None?;
  }

  lemma AcceptedReplyVerifies(c: Context, init: InitPayload, ephemeral: nat)
    requires Accept(c, init, ephemeral, KeyOf(c.agentPublicKey)).Ok?
    ensures var reply := Accept(c, init, ephemeral, KeyOf(c.agentPublicKey)).value.0;
            Verify(reply.agentPublicKey, REPLY_DOMAIN, ReplyFields(reply, init.appEphemeralKey), reply.signature)
  {
    var reply := Accept(c, init, ephemeral, KeyOf(c.agentPublicKey)).value.0;
    var unsigned := reply.(signature := Forged(""));
    assert reply.signature.fields == ReplyFields(unsigned, init.appEphemeralKey);
    assert ReplyFields(unsigned, init.appEphemeralKey) == ReplyFields(reply, init.appEphemeralKey);
  }

  lemma HonestReplyCompletes(c: Context, init: InitPayload, appEphemeral: nat, agentEphemeral: nat)
    requires Accept(c, init, agentEphemeral, KeyOf(c.agentPublicKey)).Ok?
    ensures Complete(c, init, appEphemeral, Accept(c, init, agentEphemeral, KeyOf(c.agentPublicKey)).value.0).Ok?
  {
    AcceptedReplyVerifies(c, init, agentEphemeral);
    assert CheckReply(c, init, Accept(c, init, agentEphemeral, KeyOf(c.agentPublicKey)).value.0).None?;
  }

  /** Run without interference, the exchange succeeds on both sides and pairs them. */
  lemma HonestExchangePairs(c: Context, handshakeId: string, appEphemeral: nat, agentEphemeral: nat)
    requires ValidContext(c)
    ensures var init := CreateInit(c, handshakeId, appEphemeral, KeyOf(c.appPublicKey));
            init.Ok? &&
            var accepted := Accept(c, init.value, agentEphemeral, KeyOf(c.agentPublicKey));
            accepted.Ok? &&
            var completed := Complete(c, init.value, appEphemeral, accepted.value.0);
            completed.Ok? && Paired(completed.value, accepted.value.1)
  {
    HonestInitIsAccepted(c, handshakeId, appEphemeral, agentEphemeral);
    var init := CreateInit(c, handshakeId, appEphemeral, KeyOf(c.appPublicKey)).value;
    HonestReplyCompletes(c, init, appEphemeral, agentEphemeral);
    SamePayloadsPair(c, init, appEphemeral, c, agentEphemeral, KeyOf(c.agentPublicKey));
  }

  lemma DigitsInjective(m: nat, n: nat)
    requires Digits(m) == Digits(n)
    ensures m == n
  {
    assert forall i :: 0 <= i < |Decimal(m)| ==> Decimal(m)[i] == Decimal(n)[i];
    DecimalInjective(m, n);
  }

  /** The members of two protocol records that canonical JSON cannot tell apart. */
  lemma SameVersion(p: Protocol, q: Protocol, i: nat)
    requires i < 3 && CanonicalJson.SameMembers(ProtocolRecord(p), ProtocolRecord(q))
    ensures ProtocolRecord(p).members[i] == ProtocolRecord(q).members[i]
  {
    var v, w := ProtocolRecord(p), ProtocolRecord(q);
    assert OUTER_V[0] != INNER_V[0] && OUTER_V[0] != E2E_V[0] && INNER_V[0] != E2E_V[0];
    assert CanonicalJson.Present(v, i);
    var j :| CanonicalJson.SameMember(v, i, w, j);
    assert j == i;
    var x, y := v.members[i].value.value, w.members[i].value.value;
    assert x.Number? && CanonicalJson.Same(x, y);
    assert v.members[i] == J.Member(v.members[i].key, Some(x)) && w.members[i] == J.Member(w.members[i].key, Some(y));
  }

  lemma ProtocolTextInjective(p: Protocol, q: Protocol)
    requires CanonicalProtocol(p) == CanonicalProtocol(q)
    ensures p == q
  {
    CanonicalJson.CanonicalExactly(ProtocolRecord(p), ProtocolRecord(q));
    SameVersion(p, q, 0);
    SameVersion(p, q, 1);
    SameVersion(p, q, 2);
    DigitsInjective(p.outerV, q.outerV);
    DigitsInjective(p.innerV, q.innerV);
    DigitsInjective(p.e2eV, q.e2eV);
  }

  lemma InitFieldsCoverPayload(a: InitPayload, b: InitPayload)
    requires InitFields(a) == InitFields(b)
    ensures a == b.(signature := a.signature)
  {
    var f, g := InitFields(a), InitFields(b);
    assert forall i :: 0 <= i < 11 ==> f[i] == g[i];
    DecimalInjective(a.v, b.v);
    DecimalInjective(a.e2eVersion, b.e2eVersion);
    ProtocolTextInjective(a.appProtocol, b.appProtocol);
  }

  lemma ReplyFieldsCoverPayload(a: ReplyPayload, aKey: KeyText, b: ReplyPayload, bKey: KeyText)
    requires ReplyFields(a, aKey) == ReplyFields(b, bKey)
    ensures a == b.(signature := a.signature) && aKey == bKey
  {
    var f, g := ReplyFields(a, aKey), ReplyFields(b, bKey);
    assert forall i :: 0 <= i < 12 ==> f[i] == g[i];
    DecimalInjective(a.v, b.v);
    DecimalInjective(a.e2eVersion, b.e2eVersion);
    ProtocolTextInjective(a.agentProtocol, b.agentProtocol);
  }

  /** Where the payloads stand in the list that is hashed. */
  lemma TranscriptParts(init: InitPayload, reply: ReplyPayload)
    ensures var t := TranscriptHash(init, reply).input;
            && |t| == 26 && t[1..12] == InitFields(init) && t[12] == Mark(init.signature)
            && t[13..25] == ReplyFields(reply, init.appEphemeralKey) && t[25] == Mark(reply.signature)
  {
  }

  /** Equal transcript hashes force agreement on every field of both payloads, signatures included. */
  lemma TranscriptAgreement(init: InitPayload, reply: ReplyPayload, init': InitPayload, reply': ReplyPayload)
    ensures TranscriptHash(init, reply) == TranscriptHash(init', reply') <==> init == init' && reply == reply'
  {
    if TranscriptHash(init, reply) == TranscriptHash(init', reply') {
      TranscriptParts(init, reply);
      TranscriptParts(init', reply');
      InitFieldsCoverPayload(init, init');
      ReplyFieldsCoverPayload(reply, init.appEphemeralKey, reply', init'.appEphemeralKey);
    }
  }

  /** An App that completes with the very reply that was made for its init is paired with the Agent. */
  lemma SamePayloadsPair(c: Context, init: InitPayload, appEphemeral: nat, c': Context, agentEphemeral: nat, agentSigningKey: string)
    requires init.appEphemeralKey == Point(PublicKey(appEphemeral), 0) && init.appConnectionId == c.appConnectionId
    requires Accept(c', init, agentEphemeral, agentSigningKey).Ok?
    requires Complete(c, init, appEphemeral, Accept(c', init, agentEphemeral, agentSigningKey).value.0).Ok?
    ensures var (reply, agent) := Accept(c', init, agentEphemeral, agentSigningKey).value;
            Paired(Complete(c, init, appEphemeral, reply).value, agent)
  {
    var (reply, agent) := Accept(c', init, agentEphemeral, agentSigningKey).value;
    assert reply.agentEphemeralKey == Point(PublicKey(agentEphemeral), 0);
    assert SharedSecret(appEphemeral, reply.agentEphemeralKey.key) == SharedSecret(agentEphemeral, init.appEphemeralKey.key);
    assert reply.appConnectionId == c'.appConnectionId == c.appConnectionId;
  }

  /** Whatever the network did to the payloads: an App that completes with the
      ephemeral key of its own init and an Agent that accepted some init are
      paired exactly when their transcript hashes are equal, and exactly when
      neither the init nor the reply was changed on the way. */
  lemma TranscriptDecidesPairing(c: Context, init: InitPayload, appEphemeral: nat, reply: ReplyPayload,
                                 c': Context, init': InitPayload, agentEphemeral: nat, agentSigningKey: string)
    requires init.appEphemeralKey == Point(PublicKey(appEphemeral), 0) && init.appConnectionId == c.appConnectionId
    requires Complete(c, init, appEphemeral, reply).Ok?
    requires Accept(c', init', agentEphemeral, agentSigningKey).Ok?
    ensures var app := Complete(c, init, appEphemeral, reply).value;
            var (reply', agent) := Accept(c', init', agentEphemeral, agentSigningKey).value;
            && (Paired(app, agent) <==> app.transcriptHash == agent.transcriptHash)
            && (Paired(app, agent) <==> init == init' && reply == reply')
  {
    var app := Complete(c, init, appEphemeral, reply).value;
    var (reply', agent) := Accept(c', init', agentEphemeral, agentSigningKey).value;
    assert app.transcriptHash == TranscriptHash(init, reply) && agent.transcriptHash == TranscriptHash(init', reply');
    TranscriptAgreement(init, reply, init', reply');
    if init == init' && reply == reply' {
      SamePayloadsPair(c, init, appEphemeral, c', agentEphemeral, agentSigningKey);
    } else {
      assert !Paired(app, agent);
    }
  }

  /** A reply that the App accepts was signed by the Agent over the App's own
      ephemeral key: if the signature is one that Accept made, however spelled,
      then so is the reply, and the init it answered has that ephemeral key and handshake id. */
  lemma AcceptedReplyAnswersThisApp(c: Context, init: InitPayload, appEphemeral: nat, reply: ReplyPayload,
                                    c': Context, init': InitPayload, agentEphemeral: nat)
    requires Complete(c, init, appEphemeral, reply).Ok?
    requires Accept(c', init', agentEphemeral, KeyOf(c.agentPublicKey)).Ok?
    requires AsWritten(reply.signature) == Accept(c', init', agentEphemeral, KeyOf(c.agentPublicKey)).value.0.signature
    ensures ReplyAsWritten(reply) == Accept(c', init', agentEphemeral, KeyOf(c.agentPublicKey)).value.0
    ensures init'.appEphemeralKey == init.appEphemeralKey && init'.handshakeId == init.handshakeId
    ensures init'.appId == c.appId && init'.appConnectionId == c.appConnectionId
  {
    var reply' := Accept(c', init', agentEphemeral, KeyOf(c.agentPublicKey)).value.0;
    var unsigned := reply'.(signature := Forged(""));
    assert reply'.signature.fields == ReplyFields(unsigned, init'.appEphemeralKey);
    assert CheckReply(c, init, reply).None?;
    ReplyFieldsCoverPayload(reply, init.appEphemeralKey, unsigned, init'.appEphemeralKey);
    assert ReplyAsWritten(reply) == unsigned.(signature := reply'.signature);
  }

  /** The sessions of a pair deliver prefixes in both directions over any
      network, and every run of them can be continued until all has arrived. */
  lemma PairedSessionsDeliver<M>(app: Established, agent: Established, sessionText: string,
                                 start: E2E.Net<SessionKey, M>, steps: seq<E2E.Step<SessionKey, M>>, net: E2E.Net<SessionKey, M>)
    returns (more: seq<E2E.Step<SessionKey, M>>, end: E2E.Net<SessionKey, M>)
    requires Paired(app, agent)
    requires start.app == E2E.Session(E2E.Initiator, sessionText, app.appConnectionId, app.txKey, app.rxKey, 0, 1)
    requires start.agent == E2E.Session(E2E.Responder, sessionText, agent.appConnectionId, agent.txKey, agent.rxKey, 0, 1)
    requires start.seen == [] && start.appSent == start.agentSent == start.appGot == start.agentGot == []
    requires E2E.Reaches(start, steps, net)
    ensures net.agentGot <= net.appSent && net.appGot <= net.agentSent
    ensures E2E.Reaches(net, more, end)
    ensures end.agentGot == end.appSent == net.appSent && end.appGot == end.agentSent == net.agentSent
  {
    E2E.PrefixDelivery(sessionText, app.appConnectionId, app.txKey, app.rxKey, steps, net);
    more, end := E2E.EveryRunCanComplete(sessionText, app.appConnectionId, app.txKey, app.rxKey, steps, net);
  }
}

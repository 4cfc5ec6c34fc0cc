// Encrypted sessions over an arbitrary network
// (E2ESession in packages/e2e-noise/src/index.ts), with the cipher taken as
// an ideal one: a box opens only under the key, nonce and associated data
// that sealed it.
module E2ESessions {
  import opened Bytes
  import opened DecimalText
  import opened Options

  // ---- Numbers as JavaScript holds them ----

  const MAX_SAFE_INTEGER: nat := 0x1F_FFFF_FFFF_FFFF

  /** `n + 1` in double precision: beyond the safe integers the counter sticks. */
  function Increment(n: nat): nat {
    if n > MAX_SAFE_INTEGER then n else n + 1
  }

  // ---- Nonces ----

  /** Twelve bytes: four zeros, then the sequence number in two 32-bit halves; unsafe numbers are refused. */
  function Nonce(number: nat): (nonce: Option<seq<byte>>)
    ensures nonce.Some? <==> number <= MAX_SAFE_INTEGER
    ensures nonce.Some? ==> |nonce.value| == 12
  {
    if number > MAX_SAFE_INTEGER then None
    else Some([0, 0, 0, 0] + ToBigEndian(number / 0x1_0000_0000, 4) + ToBigEndian(number % 0x1_0000_0000, 4))
  }

  lemma NonceIsBigEndian(number: nat)
    requires number <= MAX_SAFE_INTEGER
    ensures Nonce(number).value == [0, 0, 0, 0] + ToBigEndian(number, 8)
  {
    assert Pow256(4) == 0x1_0000_0000;
    ToBigEndianSplit(number, number / 0x1_0000_0000, number % 0x1_0000_0000, 4, 4);
  }

  /** Different safe sequence numbers get different nonces. */
  lemma NonceInjective(m: nat, n: nat)
    requires m <= MAX_SAFE_INTEGER && n <= MAX_SAFE_INTEGER && Nonce(m) == Nonce(n)
    ensures m == n
  {
    NonceIsBigEndian(m);
    NonceIsBigEndian(n);
    assert ToBigEndian(m, 8) == Nonce(m).value[4..] == ToBigEndian(n, 8);
    assert Pow256(8) == 0x1_0000_0000_0000_0000;
    BigEndianInverse(m, 8);
    BigEndianInverse(n, 8);
  }

  /** The nonce as the code builds it: two 32-bit writes into a zeroed buffer. */
  method WriteNonce(number: nat) returns (nonce: Option<array<byte>>)
    ensures nonce.None? <==> Nonce(number).None?
    ensures nonce.Some? ==> fresh(nonce.value) && nonce.value[..] == Nonce(number).value
  {
    if number > MAX_SAFE_INTEGER {
      return None;
    }
    var bytes := new byte[12](_ => 0);
    WriteUint32(bytes, 4, number / 0x1_0000_0000);
    WriteUint32(bytes, 8, number % 0x1_0000_0000);
    nonce := Some(bytes);
    assert bytes[..] == bytes[..4] + bytes[4..8] + bytes[8..];
  }

  // ---- Sessions ----

  datatype Role = Initiator | Responder

  datatype Direction = AppToAgent | AgentToApp

  datatype ErrorCode = DecryptFailed | ReplayDetected

  datatype Result<+T> = Ok(value: T) | Err(code: ErrorCode)

  /** The bytes of a ciphertext: sealed by the ideal cipher, or such that no key opens them. */
  datatype Box<K, M> = Sealed(key: K, nonce: seq<byte>, aad: string, plaintext: M) | Junk(length: nat)

  /** `spare` is what the ciphertext's base64url text has in the bits that no
      byte uses, 0 as the encoder writes it. */
  datatype Payload<K, M> = Payload(appConnectionId: string, sessionId: string, number: nat, ciphertext: Box<K, M>, spare: nat)

  datatype Session<K> = Session(
    role: Role,
    sessionId: string,
    appConnectionId: string,
    txKey: K,
    rxKey: K,
    txSeq: nat,
    expectedRxSeq: nat)

  const TAG_LENGTH: nat := 16

  function DirectionName(direction: Direction): string {
    if direction == AppToAgent then "app_to_agent" else "agent_to_app"
  }

  function TxDirection(role: Role): Direction {
    if role == Initiator then AppToAgent else AgentToApp
  }

  function RxDirection(role: Role): Direction {
    if role == Initiator then AgentToApp else AppToAgent
  }

  function MessageAad<K>(s: Session<K>, direction: Direction, number: nat): string {
    "omniwork:e2e-message:v2|" + s.sessionId + "|" + s.appConnectionId + "|"
    + DirectionName(direction) + "|" + Decimal(number)
  }

  /** Behind its last bar a text is what it is, and so is it before. */
  lemma LastBar(a: string, x: string, b: string, y: string)
    requires a + "|" + x == b + "|" + y && '|' !in x && '|' !in y
    ensures a == b && x == y
  {
    var t := a + "|" + x;
    assert t[|a|] == '|' && t[|b|] == '|';
    assert forall i :: |a| < i < |t| ==> t[i] == x[i - |a| - 1];
    assert forall i :: |b| < i < |t| ==> t[i] == y[i - |b| - 1];
    if |a| != |b| {
      assert false;
    }
    assert t[..|a|] == a && t[..|a|] == b;
    assert t[|a| + 1..] == x && t[|a| + 1..] == y;
  }

  /** The same of its first bar. */
  lemma FirstBar(a: string, x: string, b: string, y: string)
    requires a + "|" + x == b + "|" + y && '|' !in a && '|' !in b
    ensures a == b && x == y
  {
    var t := a + "|" + x;
    assert t[|a|] == '|' && t[|b|] == '|';
    assert forall i :: 0 <= i < |a| ==> t[i] == a[i];
    assert forall i :: 0 <= i < |b| ==> t[i] == b[i];
    if |a| != |b| {
      assert false;
    }
    assert t[..|a|] == a && t[..|a|] == b;
    assert t[|a| + 1..] == x && t[|a| + 1..] == y;
  }

  /** A header's parts: what stands before direction and number, and those. */
  function HeaderFront(sessionId: string, appConnectionId: string): (front: string) {
    "omniwork:e2e-message:v2|" + (sessionId + "|" + appConnectionId)
  }

  lemma HeaderParts<K>(s: Session<K>, d: Direction, n: nat)
    ensures MessageAad(s, d, n) == HeaderFront(s.sessionId, s.appConnectionId) + "|" + DirectionName(d) + "|" + Decimal(n)
    ensures '|' !in DirectionName(d) && '|' !in Decimal(n)
  {
  }

  lemma FrontBinds(sessionId: string, appConnectionId: string, sessionId': string, appConnectionId': string)
    requires HeaderFront(sessionId, appConnectionId) == HeaderFront(sessionId', appConnectionId')
    requires '|' !in sessionId && '|' !in sessionId'
    ensures sessionId == sessionId' && appConnectionId == appConnectionId'
  {
    var rest, rest' := sessionId + "|" + appConnectionId, sessionId' + "|" + appConnectionId';
    assert HeaderFront(sessionId, appConnectionId)[24..] == rest;
    assert HeaderFront(sessionId', appConnectionId')[24..] == rest';
    FirstBar(sessionId, appConnectionId, sessionId', appConnectionId');
  }

  /** The header binds session, connection, direction and number: equal headers
      come from equal ones, as long as no session id has a bar in it. Session
      ids are base64url, so none has. */
  lemma HeaderBinds<K>(s: Session<K>, d: Direction, m: nat, t: Session<K>, e: Direction, n: nat)
    requires '|' !in s.sessionId && '|' !in t.sessionId
    ensures MessageAad(s, d, m) == MessageAad(t, e, n) <==>
            s.sessionId == t.sessionId && s.appConnectionId == t.appConnectionId && d == e && m == n
  {
    HeaderParts(s, d, m);
    HeaderParts(t, e, n);
    if MessageAad(s, d, m) == MessageAad(t, e, n) {
      var front, front' := HeaderFront(s.sessionId, s.appConnectionId), HeaderFront(t.sessionId, t.appConnectionId);
      LastBar(front + "|" + DirectionName(d), Decimal(m), front' + "|" + DirectionName(e), Decimal(n));
      LastBar(front, DirectionName(d), front', DirectionName(e));
      DecimalInjective(m, n);
      FrontBinds(s.sessionId, s.appConnectionId, t.sessionId, t.appConnectionId);
    }
  }

  function OpenBox<K(==), M>(key: K, nonce: seq<byte>, aad: string, box: Box<K, M>): (plaintext: Option<M>) {
    if box.Sealed? && box.key == key && box.nonce == nonce && box.aad == aad then Some(box.plaintext) else None
  }

  function Encrypt<K, M>(s: Session<K>, inner: M): (Session<K>, Result<Payload<K, M>>) {
    var number := Increment(s.txSeq);
    var t := s.(txSeq := number);
    var nonce := Nonce(number);
    if nonce.None? then (t, Err(DecryptFailed))
    else
      var aad := MessageAad(s, TxDirection(s.role), number);
      (t, Ok(Payload(s.appConnectionId, s.sessionId, number, Sealed(s.txKey, nonce.value, aad, inner), 0)))
  }

  function Decrypt<K(==), M>(s: Session<K>, p: Payload<K, M>): (Session<K>, Result<M>) {
    if p.sessionId != s.sessionId || p.appConnectionId != s.appConnectionId then (s, Err(DecryptFailed))
    else if p.number != s.expectedRxSeq then (s, Err(ReplayDetected))
    else if p.ciphertext.Junk? && p.ciphertext.length < TAG_LENGTH then (s, Err(DecryptFailed))
    else
      var nonce := Nonce(p.number);
      if nonce.None? then (s, Err(DecryptFailed))
      else
        var plain := OpenBox(s.rxKey, nonce.value, MessageAad(s, RxDirection(s.role), p.number), p.ciphertext);
        if plain.None? then (s, Err(DecryptFailed))
        else (s.(expectedRxSeq := Increment(s.expectedRxSeq)), Ok(plain.value))
  }

  /** The session object; its two counters are all that changes. */
  class E2ESession<K(==), M> {
    const role: Role
    const sessionId: string
    const appConnectionId: string
    const txKey: K
    const rxKey: K
    var txSeq: nat
    var expectedRxSeq: nat

    ghost function View(): Session<K>
      reads this
    {
      Session(role, sessionId, appConnectionId, txKey, rxKey, txSeq, expectedRxSeq)
    }

    constructor (role: Role, sessionId: string, appConnectionId: string, txKey: K, rxKey: K)
      ensures View() == Session(role, sessionId, appConnectionId, txKey, rxKey, 0, 1)
    {
      this.role, this.sessionId, this.appConnectionId := role, sessionId, appConnectionId;
      this.txKey, this.rxKey, this.txSeq, this.expectedRxSeq := txKey, rxKey, 0, 1;
    }

    method EncryptInner(inner: M) returns (frame: Result<Payload<K, M>>)
      modifies this
      ensures (View(), frame) == Encrypt(old(View()), inner)
    {
      txSeq := Increment(txSeq);
      var nonce := WriteNonce(txSeq);
      if nonce.None? {
        return Err(DecryptFailed);
      }
      var aad := MessageAad(Session(role, sessionId, appConnectionId, txKey, rxKey, txSeq, expectedRxSeq),
                            TxDirection(role), txSeq);
      return Ok(Payload(appConnectionId, sessionId, txSeq, Sealed(txKey, nonce.value[..], aad, inner), 0));
    }

    method DecryptPayload(p: Payload<K, M>) returns (inner: Result<M>)
      modifies this
      ensures (View(), inner) == Decrypt(old(View()), p)
      ensures inner.Err? ==> View() == old(View())
    {
      if p.sessionId != sessionId || p.appConnectionId != appConnectionId {
        return Err(DecryptFailed);
      }
      if p.number != expectedRxSeq {
        return Err(ReplayDetected);
      }
      if p.ciphertext.Junk? && p.ciphertext.length < TAG_LENGTH {
        return Err(DecryptFailed);
      }
      var nonce := WriteNonce(p.number);
      if nonce.None? {
        return Err(DecryptFailed);
      }
      var aad := MessageAad(Session(role, sessionId, appConnectionId, txKey, rxKey, txSeq, expectedRxSeq),
                            RxDirection(role), p.number);
      var plain := OpenBox(rxKey, nonce.value[..], aad, p.ciphertext);
      if plain.None? {
        return Err(DecryptFailed);
      }
      expectedRxSeq := Increment(expectedRxSeq);
      return Ok(plain.value);
    }
  }

  // ---- Two sessions and the network between them ----

  /** `seen` is every payload that was ever put on the network; `...Sent` and
      `...Got` are what each side encrypted and what its decrypts returned. */
  datatype Net<K, M> = Net(
    app: Session<K>,
    agent: Session<K>,
    seen: seq<Payload<K, M>>,
    appSent: seq<M>,
    agentSent: seq<M>,
    appGot: seq<M>,
    agentGot: seq<M>)

  datatype Step<K, M> =
    | AppEncrypts(inner: M)
    | AgentEncrypts(inner: M)
    | AppReceives(payload: Payload<K, M>)
    | AgentReceives(payload: Payload<K, M>)

  function Start<K, M>(sessionId: string, appConnectionId: string, appKey: K, agentKey: K): Net<K, M> {
    Net(Session(Initiator, sessionId, appConnectionId, appKey, agentKey, 0, 1),
        Session(Responder, sessionId, appConnectionId, agentKey, appKey, 0, 1), [], [], [], [], [])
  }

  /** The network may drop, repeat, reorder and forge payloads with any header,
      but it can seal under neither session key: a box under one was seen before. */
  ghost predicate Deliverable<K, M>(net: Net<K, M>, p: Payload<K, M>) {
    p.ciphertext.Sealed? && p.ciphertext.key in {net.app.txKey, net.agent.txKey} ==>
      exists i :: 0 <= i < |net.seen| && net.seen[i].ciphertext == p.ciphertext
  }

  ghost predicate Possible<K, M>(net: Net<K, M>, step: Step<K, M>) {
    match step
    case AppReceives(p) => Deliverable(net, p)
    case AgentReceives(p) => Deliverable(net, p)
    case _ => true
  }

  ghost function Apply<K, M>(net: Net<K, M>, step: Step<K, M>): Net<K, M> {
    match step
    case AppEncrypts(inner) =>
      var (s, frame) := Encrypt<K, M>(net.app, inner);
      if frame.Err? then net.(app := s)
      else net.(app := s, seen := net.seen + [frame.value], appSent := net.appSent + [inner])
    case AgentEncrypts(inner) =>
      var (s, frame) := Encrypt<K, M>(net.agent, inner);
      if frame.Err? then net.(agent := s)
      else net.(agent := s, seen := net.seen + [frame.value], agentSent := net.agentSent + [inner])
    case AppReceives(p) =>
      var (s, inner) := Decrypt<K, M>(net.app, p);
      if inner.Err? then net.(app := s) else net.(app := s, appGot := net.appGot + [inner.value])
    case AgentReceives(p) =>
      var (s, inner) := Decrypt<K, M>(net.agent, p);
      if inner.Err? then net.(agent := s) else net.(agent := s, agentGot := net.agentGot + [inner.value])
  }

  /** `net` is reached from `start` by the steps, each possible when taken. */
  ghost predicate Reaches<K, M>(start: Net<K, M>, steps: seq<Step<K, M>>, net: Net<K, M>)
    decreases |steps|
  {
    if steps == [] then net == start
    else Possible(start, steps[0]) && Reaches(Apply(start, steps[0]), steps[1..], net)
  }

  // ---- One direction ----

  ghost predicate SealedUnder<K, M>(p: Payload<K, M>, key: K) {
    p.ciphertext.Sealed? && p.ciphertext.key == key
  }

  /** The payload that carries the n-th message of a sender. */
  function FrameOf<K, M>(tx: Session<K>, sent: seq<M>, n: nat): (p: Payload<K, M>)
    requires 1 <= n <= |sent| && n <= MAX_SAFE_INTEGER
  {
    Payload(tx.appConnectionId, tx.sessionId, n,
            Sealed(tx.txKey, Nonce(n).value, MessageAad(tx, TxDirection(tx.role), n), sent[n - 1]), 0)
  }

  ghost predicate IsFrame<K, M>(p: Payload<K, M>, tx: Session<K>, sent: seq<M>, n: nat) {
    1 <= n <= |sent| && n <= MAX_SAFE_INTEGER && p == FrameOf(tx, sent, n)
  }

  /** A payload whose ciphertext is spelled as its sender wrote it. */
  function AsWritten<K, M>(p: Payload<K, M>): (r: Payload<K, M>) {
    p.(spare := 0)
  }

  ghost predicate Carries<K, M>(p: Payload<K, M>, tx: Session<K>, sent: seq<M>) {
    exists n: nat :: IsFrame(p, tx, sent, n)
  }

  /** Everything sealed under the sender's key carries one of its messages, and each message was put on the network. */
  ghost predicate SentInv<K, M>(tx: Session<K>, seen: seq<Payload<K, M>>, sent: seq<M>) {
    && (tx.txSeq == |sent| || (tx.txSeq == MAX_SAFE_INTEGER + 1 && |sent| == MAX_SAFE_INTEGER))
    && |sent| <= MAX_SAFE_INTEGER
    && (forall i :: 0 <= i < |seen| && SealedUnder(seen[i], tx.txKey) ==> Carries(seen[i], tx, sent))
    && (forall n: nat :: 1 <= n <= |sent| ==> FrameOf(tx, sent, n) in seen)
    && (forall i, j :: (0 <= i < j < |seen| && SealedUnder(seen[i], tx.txKey) && SealedUnder(seen[j], tx.txKey)) ==>
          seen[i].ciphertext.nonce != seen[j].ciphertext.nonce)
  }

  /** The receiver has the first messages so far and waits for the next one. */
  ghost predicate GotInv<K, M>(rx: Session<K>, sent: seq<M>, got: seq<M>) {
    got <= sent && rx.expectedRxSeq == |got| + 1
  }

  /** The two ends of one direction. */
  predicate Facing<K(==)>(tx: Session<K>, rx: Session<K>) {
    && tx.txKey == rx.rxKey && tx.sessionId == rx.sessionId && tx.appConnectionId == rx.appConnectionId
    && TxDirection(tx.role) == RxDirection(rx.role)
  }

  ghost predicate DirectionInv<K, M>(tx: Session<K>, rx: Session<K>, seen: seq<Payload<K, M>>, sent: seq<M>, got: seq<M>) {
    Facing(tx, rx) && SentInv(tx, seen, sent) && GotInv(rx, sent, got)
  }

  ghost predicate NetInv<K, M>(net: Net<K, M>) {
    && net.app.txKey != net.agent.txKey
    && (forall i :: 0 <= i < |net.seen| ==>
          net.seen[i].ciphertext.Sealed? && net.seen[i].ciphertext.key in {net.app.txKey, net.agent.txKey})
    && DirectionInv(net.app, net.agent, net.seen, net.appSent, net.agentGot)
    && DirectionInv(net.agent, net.app, net.seen, net.agentSent, net.appGot)
  }

  /** One more message: the payloads of the earlier ones stay what they are. */
  lemma FrameStays<K, M>(tx: Session<K>, number: nat, sent: seq<M>, n: nat, inner: M)
    requires 1 <= n <= |sent| && n <= MAX_SAFE_INTEGER
    ensures FrameOf(tx.(txSeq := number), sent + [inner], n) == FrameOf(tx, sent, n)
  {
  }

  /** `tx` after it sent `inner`. */
  predicate SentOneMore<K(==), M(==)>(tx: Session<K>, sent: seq<M>, inner: M, tx': Session<K>, sent': seq<M>) {
    |sent| < MAX_SAFE_INTEGER && sent' == sent + [inner] && tx' == tx.(txSeq := |sent'|)
  }

  lemma OldFrameStays<K, M>(tx: Session<K>, sent: seq<M>, inner: M, tx': Session<K>, sent': seq<M>, p: Payload<K, M>)
    requires SentOneMore(tx, sent, inner, tx', sent') && Carries(p, tx, sent)
    ensures Carries(p, tx', sent')
    ensures p.ciphertext.nonce != Nonce(|sent'|).value
  {
    var n: nat :| IsFrame(p, tx, sent, n);
    FrameStays(tx, |sent'|, sent, n, inner);
    assert IsFrame(p, tx', sent', n);
    if Nonce(n) == Nonce(|sent'|) {
      NonceInjective(n, |sent'|);
    }
  }

  lemma AllOnNetwork<K, M>(tx: Session<K>, seen: seq<Payload<K, M>>, sent: seq<M>, inner: M, tx': Session<K>, sent': seq<M>)
    requires SentInv(tx, seen, sent) && SentOneMore(tx, sent, inner, tx', sent')
    ensures forall n: nat :: 1 <= n <= |sent'| ==> FrameOf(tx', sent', n) in seen + [FrameOf(tx', sent', |sent'|)]
  {
    forall n: nat | 1 <= n <= |sent'|
      ensures FrameOf(tx', sent', n) in seen + [FrameOf(tx', sent', |sent'|)]
    {
      if n < |sent'| {
        FrameStays(tx, |sent'|, sent, n, inner);
      }
    }
  }

  lemma SendKeepsFrames<K, M>(tx: Session<K>, seen: seq<Payload<K, M>>, sent: seq<M>, inner: M, tx': Session<K>, sent': seq<M>)
    requires SentInv(tx, seen, sent) && SentOneMore(tx, sent, inner, tx', sent')
    ensures SentInv(tx', seen + [FrameOf(tx', sent', |sent'|)], sent')
  {
    var frame := FrameOf(tx', sent', |sent'|);
    var seen' := seen + [frame];
    assert IsFrame(frame, tx', sent', |sent'|);
    forall i | 0 <= i < |seen'| && SealedUnder(seen'[i], tx'.txKey)
      ensures Carries(seen'[i], tx', sent')
      ensures i < |seen| ==> seen'[i].ciphertext.nonce != frame.ciphertext.nonce
    {
      if i < |seen| {
        assert seen'[i] == seen[i];
        OldFrameStays(tx, sent, inner, tx', sent', seen[i]);
      }
    }
    AllOnNetwork(tx, seen, sent, inner, tx', sent');
  }

  lemma SendKeepsDirection<K, M>(tx: Session<K>, rx: Session<K>, seen: seq<Payload<K, M>>,
                                 sent: seq<M>, got: seq<M>, inner: M)
    requires DirectionInv(tx, rx, seen, sent, got)
    ensures var (s, frame) := Encrypt<K, M>(tx, inner);
            if frame.Err? then DirectionInv(s, rx, seen, sent, got)
            else DirectionInv(s, rx, seen + [frame.value], sent + [inner], got)
  {
    var (s, frame) := Encrypt<K, M>(tx, inner);
    if frame.Ok? {
      SendKeepsFrames(tx, seen, sent, inner, s, sent + [inner]);
      assert frame.value == FrameOf(s, sent + [inner], |sent| + 1);
    } else {
      SameFrames(tx, s.txSeq, seen, sent);
    }
  }

  /** The counter alone does not matter to the payloads. */
  lemma SameFrames<K, M>(tx: Session<K>, number: nat, seen: seq<Payload<K, M>>, sent: seq<M>)
    requires SentInv(tx, seen, sent) && |sent| == MAX_SAFE_INTEGER && number == MAX_SAFE_INTEGER + 1
    ensures SentInv(tx.(txSeq := number), seen, sent)
  {
    var tx' := tx.(txSeq := number);
    forall n: nat | 1 <= n <= |sent|
      ensures FrameOf(tx', sent, n) == FrameOf(tx, sent, n)
    {
    }
    forall i | 0 <= i < |seen| && SealedUnder(seen[i], tx'.txKey)
      ensures Carries(seen[i], tx', sent)
    {
      var n: nat :| IsFrame(seen[i], tx, sent, n);
      assert IsFrame(seen[i], tx', sent, n);
    }
  }

  lemma OtherKeyKeepsDirection<K, M>(tx: Session<K>, rx: Session<K>, seen: seq<Payload<K, M>>,
                                     sent: seq<M>, got: seq<M>, p: Payload<K, M>)
    requires DirectionInv(tx, rx, seen, sent, got)
    requires !SealedUnder(p, tx.txKey)
    ensures DirectionInv(tx, rx, seen + [p], sent, got)
  {
  }

  /** A receiver opens exactly the next payload of its sender, however spelled, whatever else the network shows it. */
  lemma OpensExactlyNext<K, M>(tx: Session<K>, rx: Session<K>, seen: seq<Payload<K, M>>,
                               sent: seq<M>, got: seq<M>, p: Payload<K, M>)
    requires DirectionInv(tx, rx, seen, sent, got)
    requires SealedUnder(p, tx.txKey) ==> exists i :: 0 <= i < |seen| && seen[i].ciphertext == p.ciphertext
    ensures Decrypt<K, M>(rx, p).1.Ok? <==> IsFrame(AsWritten(p), tx, sent, |got| + 1)
    ensures Decrypt<K, M>(rx, p).1.Ok? ==> Decrypt<K, M>(rx, p).1.value == sent[|got|]
  {
    if IsFrame(AsWritten(p), tx, sent, |got| + 1) {
      assert MessageAad(tx, TxDirection(tx.role), p.number) == MessageAad(rx, RxDirection(rx.role), p.number);
    } else if Decrypt<K, M>(rx, p).1.Ok? {
      var i :| 0 <= i < |seen| && seen[i].ciphertext == p.ciphertext;
      assert SealedUnder(seen[i], tx.txKey);
      var n: nat :| IsFrame(seen[i], tx, sent, n);
      NonceInjective(n, p.number);
      assert false;
    }
  }

  lemma ReceiveKeepsDirection<K, M>(tx: Session<K>, rx: Session<K>, seen: seq<Payload<K, M>>,
                                    sent: seq<M>, got: seq<M>, p: Payload<K, M>)
    requires DirectionInv(tx, rx, seen, sent, got)
    requires SealedUnder(p, tx.txKey) ==> exists i :: 0 <= i < |seen| && seen[i].ciphertext == p.ciphertext
    ensures var (s, inner) := Decrypt<K, M>(rx, p);
            if inner.Err? then s == rx
            else s == rx.(expectedRxSeq := |got| + 2) && GotInv(s, sent, got + [inner.value])
  {
    var (s, inner) := Decrypt<K, M>(rx, p);
    OpensExactlyNext(tx, rx, seen, sent, got, p);
    if inner.Ok? {
      assert got + [inner.value] == sent[..|got| + 1];
    }
  }

  lemma ReceiverMoves<K, M>(tx: Session<K>, rx: Session<K>, seen: seq<Payload<K, M>>, sent: seq<M>, got: seq<M>, number: nat)
    requires DirectionInv(tx, rx, seen, sent, got)
    ensures SentInv(tx.(expectedRxSeq := number), seen, sent)
  {
    var tx' := tx.(expectedRxSeq := number);
    forall n: nat | 1 <= n <= |sent|
      ensures FrameOf(tx', sent, n) == FrameOf(tx, sent, n)
    {
    }
    forall i | 0 <= i < |seen| && SealedUnder(seen[i], tx'.txKey)
      ensures Carries(seen[i], tx', sent)
    {
      var n: nat :| IsFrame(seen[i], tx, sent, n);
      assert IsFrame(seen[i], tx', sent, n);
    }
  }

  lemma AppEncryptsKeeps<K, M>(net: Net<K, M>, inner: M)
    requires NetInv(net)
    ensures NetInv(Apply(net, AppEncrypts(inner)))
  {
    SendKeepsDirection(net.app, net.agent, net.seen, net.appSent, net.agentGot, inner);
    var (s, frame) := Encrypt<K, M>(net.app, inner);
    if frame.Ok? {
      OtherKeyKeepsDirection(net.agent, net.app, net.seen, net.agentSent, net.appGot, frame.value);
    }
  }

  lemma AgentEncryptsKeeps<K, M>(net: Net<K, M>, inner: M)
    requires NetInv(net)
    ensures NetInv(Apply(net, AgentEncrypts(inner)))
  {
    SendKeepsDirection(net.agent, net.app, net.seen, net.agentSent, net.appGot, inner);
    var (s, frame) := Encrypt<K, M>(net.agent, inner);
    if frame.Ok? {
      OtherKeyKeepsDirection(net.app, net.agent, net.seen, net.appSent, net.agentGot, frame.value);
    }
  }

  lemma AppReceivesKeeps<K, M>(net: Net<K, M>, p: Payload<K, M>)
    requires NetInv(net) && Deliverable(net, p)
    ensures NetInv(Apply(net, AppReceives(p)))
  {
    ReceiveKeepsDirection(net.agent, net.app, net.seen, net.agentSent, net.appGot, p);
    ReceiverMoves(net.app, net.agent, net.seen, net.appSent, net.agentGot, |net.appGot| + 2);
    if Decrypt<K, M>(net.app, p).1.Err? {
      assert Apply(net, AppReceives(p)) == net;
    }
  }

  lemma AgentReceivesKeeps<K, M>(net: Net<K, M>, p: Payload<K, M>)
    requires NetInv(net) && Deliverable(net, p)
    ensures NetInv(Apply(net, AgentReceives(p)))
  {
    ReceiveKeepsDirection(net.app, net.agent, net.seen, net.appSent, net.agentGot, p);
    ReceiverMoves(net.agent, net.app, net.seen, net.agentSent, net.appGot, |net.agentGot| + 2);
    if Decrypt<K, M>(net.agent, p).1.Err? {
      assert Apply(net, AgentReceives(p)) == net;
    }
  }

  lemma StepKeepsNet<K, M>(net: Net<K, M>, step: Step<K, M>)
    requires NetInv(net) && Possible(net, step)
    ensures NetInv(Apply(net, step))
  {
    match step
    case AppEncrypts(inner) => AppEncryptsKeeps(net, inner);
    case AgentEncrypts(inner) => AgentEncryptsKeeps(net, inner);
    case AppReceives(p) => AppReceivesKeeps(net, p);
    case AgentReceives(p) => AgentReceivesKeeps(net, p);
  }

  lemma {:induction false} ReachableNets<K, M>(start: Net<K, M>, steps: seq<Step<K, M>>, net: Net<K, M>)
    requires NetInv(start) && Reaches(start, steps, net)
    ensures NetInv(net)
    decreases |steps|
  {
    if steps != [] {
      StepKeepsNet(start, steps[0]);
      ReachableNets(Apply(start, steps[0]), steps[1..], net);
    }
  }

  /** Prefix delivery, in both directions, against any network: what a side
      returns from decrypt is always a prefix of what the other side
      encrypted, and no key ever seals two payloads under one nonce. */
  lemma PrefixDelivery<K, M>(sessionId: string, appConnectionId: string, appKey: K, agentKey: K,
                             steps: seq<Step<K, M>>, net: Net<K, M>)
    requires appKey != agentKey
    requires Reaches(Start(sessionId, appConnectionId, appKey, agentKey), steps, net)
    ensures net.agentGot <= net.appSent && net.appGot <= net.agentSent
    ensures forall i :: 0 <= i < |net.seen| ==> net.seen[i].ciphertext.Sealed?
    ensures forall i, j :: 0 <= i < j < |net.seen| ==>
              (net.seen[i].ciphertext.key, net.seen[i].ciphertext.nonce)
              != (net.seen[j].ciphertext.key, net.seen[j].ciphertext.nonce)
  {
    ReachableNets(Start(sessionId, appConnectionId, appKey, agentKey), steps, net);
  }

  // ---- What gets through ----

  /** After any run, whatever the network shows a side, decrypt succeeds
      exactly on the payload that carries the next message of the other side,
      up to the spelling of its ciphertext. */
  lemma OnlyTheNextOpens<K, M>(sessionId: string, appConnectionId: string, appKey: K, agentKey: K,
                               steps: seq<Step<K, M>>, net: Net<K, M>, p: Payload<K, M>)
    requires appKey != agentKey && Deliverable(net, p)
    requires Reaches(Start(sessionId, appConnectionId, appKey, agentKey), steps, net)
    ensures Decrypt<K, M>(net.agent, p).1.Ok? <==> IsFrame(AsWritten(p), net.app, net.appSent, |net.agentGot| + 1)
    ensures Decrypt<K, M>(net.app, p).1.Ok? <==> IsFrame(AsWritten(p), net.agent, net.agentSent, |net.appGot| + 1)
  {
    ReachableNets(Start(sessionId, appConnectionId, appKey, agentKey), steps, net);
    OpensExactlyNext(net.app, net.agent, net.seen, net.appSent, net.agentGot, p);
    OpensExactlyNext(net.agent, net.app, net.seen, net.agentSent, net.appGot, p);
  }

  /** After any run, a replay is reported exactly for a payload of the session
      whose number is not the next; every other failure is reported as one to decrypt. */
  lemma ReplayIsReportedExactly<K, M>(sessionId: string, appConnectionId: string, appKey: K, agentKey: K,
                                      steps: seq<Step<K, M>>, net: Net<K, M>, p: Payload<K, M>)
    requires appKey != agentKey && Reaches(Start(sessionId, appConnectionId, appKey, agentKey), steps, net)
    ensures Decrypt<K, M>(net.agent, p).1 == Err(ReplayDetected) <==>
            p.sessionId == net.app.sessionId && p.appConnectionId == net.app.appConnectionId && p.number != |net.agentGot| + 1
    ensures Decrypt<K, M>(net.app, p).1 == Err(ReplayDetected) <==>
            p.sessionId == net.agent.sessionId && p.appConnectionId == net.agent.appConnectionId && p.number != |net.appGot| + 1
  {
    ReachableNets(Start(sessionId, appConnectionId, appKey, agentKey), steps, net);
  }

  /** The next payload that a side misses, delivered. */
  lemma NextIsDelivered<K, M>(net: Net<K, M>) returns (step: Step<K, M>)
    requires NetInv(net) && !(net.agentGot == net.appSent && net.appGot == net.agentSent)
    ensures Possible(net, step)
    ensures var next := Apply(net, step);
            && next.appSent == net.appSent && next.agentSent == net.agentSent
            && |next.agentGot| + |next.appGot| == |net.agentGot| + |net.appGot| + 1
  {
    if net.agentGot != net.appSent {
      var p := FrameOf(net.app, net.appSent, |net.agentGot| + 1);
      assert p in net.seen && AsWritten(p) == p;
      OpensExactlyNext(net.app, net.agent, net.seen, net.appSent, net.agentGot, p);
      step := AgentReceives(p);
    } else {
      var p := FrameOf(net.agent, net.agentSent, |net.appGot| + 1);
      assert p in net.seen && AsWritten(p) == p;
      OpensExactlyNext(net.agent, net.app, net.seen, net.agentSent, net.appGot, p);
      step := AppReceives(p);
    }
  }

  lemma {:induction false} CatchesUp<K, M>(net: Net<K, M>) returns (more: seq<Step<K, M>>, end: Net<K, M>)
    requires NetInv(net)
    ensures Reaches(net, more, end)
    ensures end.agentGot == end.appSent == net.appSent && end.appGot == end.agentSent == net.agentSent
    decreases |net.appSent| + |net.agentSent| - |net.agentGot| - |net.appGot|
  {
    if net.agentGot == net.appSent && net.appGot == net.agentSent {
      more, end := [], net;
    } else {
      var step := NextIsDelivered(net);
      var next := Apply(net, step);
      StepKeepsNet(net, step);
      var rest;
      rest, end := CatchesUp(next);
      more := [step] + rest;
      assert more[0] == step && more[1..] == rest;
    }
  }

  /** Nothing an attacker did can stop delivery for good: every run can be
      continued, without encrypting anything, until each side has all that the other encrypted. */
  lemma EveryRunCanComplete<K, M>(sessionId: string, appConnectionId: string, appKey: K, agentKey: K,
                                  steps: seq<Step<K, M>>, net: Net<K, M>)
    returns (more: seq<Step<K, M>>, end: Net<K, M>)
    requires appKey != agentKey
    requires Reaches(Start(sessionId, appConnectionId, appKey, agentKey), steps, net)
    ensures Reaches(net, more, end)
    ensures end.agentGot == end.appSent == net.appSent && end.appGot == end.agentSent == net.agentSent
  {
    ReachableNets(Start(sessionId, appConnectionId, appKey, agentKey), steps, net);
    more, end := CatchesUp(net);
  }
}

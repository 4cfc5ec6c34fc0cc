// The sending half of the mobile relay session as values and functions
// (app/src/lib/relay-client/mobileRelaySession.ts).
module SecureSessionSpec {
  import opened Messages
  import opened Options

  /** One end-to-end session object: its identity and the last sequence number it used. */
  datatype Crypto = Crypto(id: nat, txSeq: nat)

  datatype Body = Plain(env: Envelope) | Sealed(session: nat, number: nat, inner: Envelope)

  datatype Lane = RelayLane | PeerLane(channel: Channel)

  /** A frame that left the device, and the way it left. */
  datatype Frame = Frame(body: Body, lane: Lane)

  /** `sent` and `wire` are observations: what `send` was asked to carry, and what left on either path. */
  datatype Session = Session(
    closed: bool,
    crypto: Option<Crypto>,
    peerReady: bool,
    pending: seq<Envelope>,
    sent: seq<Envelope>,
    wire: seq<Frame>)

  datatype Outcome<S> = Outcome(state: S, threw: bool)

  const NO_SESSION := Session(false, None, false, [], [], [])

  predicate Ready(s: Session) {
    s.crypto.Some? && s.peerReady
  }

  /** Seals business messages, lets the others through, and answers None when a session is not ready. */
  function Encode(s: Session, env: Envelope, queueIfNotReady: bool): (Session, Option<Body>) {
    if !IsBusiness(env) then (s, Some(Plain(env)))
    else if !Ready(s) then (if queueIfNotReady then s.(pending := s.pending + [env]) else s, None)
    else
      var number := s.crypto.value.txSeq + 1;
      (s.(crypto := Some(s.crypto.value.(txSeq := number))),
       Some(Sealed(s.crypto.value.id, number, env)))
  }

  function EncodeForP2p(s: Session, env: Envelope): (Session, Option<Body>) {
    if s.closed then (s, None) else Encode(s, env, false)
  }

  function Emit(s: Session, body: Body, lane: Lane): Session {
    s.(wire := s.wire + [Frame(body, lane)])
  }

  function SessionSend(s: Session, env: Envelope): Outcome<Session> {
    if s.closed then Outcome(s, true)
    else
      var (s1, body) := Encode(s.(sent := s.sent + [env]), env, true);
      Outcome(if body.None? then s1 else Emit(s1, body.value, RelayLane), false)
  }

  function SendAll(s: Session, envs: seq<Envelope>): Outcome<Session>
    decreases |envs|
  {
    if envs == [] then Outcome(s, false)
    else
      var o := SessionSend(s, envs[0]);
      if o.threw then o else SendAll(o.state, envs[1..])
  }

  /** Messages held before readiness are sent again; they were already counted in `sent`. */
  function FlushPending(s: Session): Outcome<Session> {
    var o := SendAll(s.(pending := []), s.pending);
    Outcome(o.state.(sent := s.sent), o.threw)
  }

  /** A valid handshake reply installs a new session object and answers e2e.ready in the clear. */
  function CompleteHandshake(s: Session, id: nat, readyMessage: Envelope): Session {
    Emit(s.(crypto := Some(Crypto(id, 0))), Plain(readyMessage), RelayLane)
  }

  function Clear(s: Session): Session {
    s.(closed := true, crypto := None, peerReady := false, pending := [])
  }

  function SessionClose(s: Session, goodbye: Envelope): Session {
    if s.closed then s
    else if s.peerReady then Clear(SessionSend(s, goodbye).state)
    else Clear(s)
  }
}

// The mobile session transport as a step system
// (app/src/lib/transport/sessionTransport.ts). A call of switchPath is two
// steps, split at its await: BeginSwitch opens a drain window, EndSwitch is
// the continuation that runs when one of the open windows elapses.
module StrictTransportSpec {
  import opened Messages
  import opened Options
  import opened SecureSessionSpec

  const PENDING_LIMIT: nat := 256

  datatype Path = Relay | P2p

  datatype Item = Item(env: Envelope, channel: Option<Channel>)

  /** `relayCalls` and `offered` are observations: the envelopes handed to
      relayPath.send, and the gated business messages given to an open transport. */
  datatype State = State(
    strict: bool,
    path: Path,
    closed: bool,
    forceClosed: bool,
    paused: bool,
    peer: Option<nat>,
    switching: bool,
    windows: seq<Path>,
    outbound: Option<seq<Item>>,
    pending: seq<Item>,
    session: Session,
    relayCalls: seq<Envelope>,
    offered: seq<Envelope>)

  function Initial(strict: bool): State {
    State(strict, Relay, false, false, false, None, false, [], None, [], NO_SESSION, [], [])
  }

  function Envelopes(items: seq<Item>): (r: seq<Envelope>)
    ensures |r| == |items|
    ensures forall i :: 0 <= i < |items| ==> r[i] == items[i].env
  {
    seq(|items|, i requires 0 <= i < |items| => items[i].env)
  }

  // ---- Path and peer ----

  function DetachPeer(t: State): State {
    t.(peer := None)
  }

  function ResetPath(t: State): State {
    t.(outbound := None, switching := false, path := Relay)
  }

  function ForceClose(t: State): State {
    if !t.strict || t.forceClosed then t
    else ResetPath(DetachPeer(t.(forceClosed := true))).(pending := [])
  }

  // ---- Sending ----

  function QueuePending(t: State, item: Item): State {
    if |t.pending| >= PENDING_LIMIT then ForceClose(t.(pending := []))
    else t.(pending := t.pending + [item])
  }

  function PeerChannel(item: Item, body: Body): Channel {
    if body.Sealed? then Control
    else if item.channel.Some? then item.channel.value
    else ChannelForKind(item.env.kind)
  }

  function Dispatch(t: State, item: Item): Outcome<State> {
    if t.path == P2p && t.peer.Some? then
      var (s, body) := EncodeForP2p(t.session, item.env);
      if body.None? then Outcome(QueuePending(t.(session := s), item), false)
      else Outcome(t.(session := Emit(s, body.value, PeerLane(PeerChannel(item, body.value)))), false)
    else if t.strict && t.path == P2p then
      Outcome(ForceClose(t), false)
    else
      var o := SessionSend(t.session, item.env);
      Outcome(t.(relayCalls := t.relayCalls + [item.env], session := o.state), o.threw)
  }

  function DispatchAll(t: State, items: seq<Item>): Outcome<State>
    decreases |items|
  {
    if items == [] then Outcome(t, false)
    else
      var o := Dispatch(t, items[0]);
      if o.threw then o else DispatchAll(o.state, items[1..])
  }

  function FlushPendingP2p(t: State): Outcome<State> {
    DispatchAll(t.(pending := []), t.pending)
  }

  function Send(t: State, item: Item): Outcome<State> {
    if t.closed then Outcome(t, true)
    else
      var u := if !t.forceClosed && IsGatedBusiness(item.env) then t.(offered := t.offered + [item.env]) else t;
      if u.strict && u.path != P2p && !IsControl(item.env) then
        if u.forceClosed then Outcome(u, false)
        else if |u.pending| >= PENDING_LIMIT then Outcome(ForceClose(u.(pending := [])), false)
        else Outcome(QueuePending(u, item), false)
      else if u.outbound.Some? then
        Outcome(u.(outbound := Some(u.outbound.value + [item])), false)
      else
        Dispatch(u, item)
  }

  // ---- Switching ----

  function BeginSwitch(t: State, target: Path): State {
    if t.closed || t.path == target || t.switching then t
    else if target == P2p && t.peer.None? then t
    else if t.strict && target == Relay then t
    else t.(switching := true, outbound := Some([]), windows := t.windows + [target])
  }

  function WithoutWindow(t: State, i: nat): State
    requires i < |t.windows|
  {
    t.(windows := t.windows[..i] + t.windows[i + 1..])
  }

  function DrainOutbound(t: State): Outcome<State> {
    DispatchAll(t.(outbound := None), if t.outbound.Some? then t.outbound.value else [])
  }

  function EndSwitch(t: State, i: nat): Outcome<State>
    requires i < |t.windows|
  {
    var target := t.windows[i];
    var u := WithoutWindow(t, i);
    if u.closed || u.forceClosed then Outcome(u.(switching := false), false)
    else
      var drained := DrainOutbound(u.(path := target));
      var flushed :=
        if drained.threw || target == Relay || |drained.state.pending| == 0 then drained
        else FlushPendingP2p(drained.state);
      Outcome(flushed.state.(switching := false), flushed.threw)
  }

  // ---- Health, lifecycle ----

  function HealthDowngrade(t: State): State {
    if t.path != P2p then t
    else if t.strict then ForceClose(t)
    else DetachPeer(BeginSwitch(t, Relay))
  }

  function PeerClosed(t: State): State {
    if t.peer.None? then t
    else if t.path == P2p then HealthDowngrade(t)
    else DetachPeer(t)
  }

  function PauseForBackground(t: State): State {
    if t.paused || !t.strict then t
    else DetachPeer(t.(paused := true)).(path := Relay)
  }

  function PrepareForReconnect(t: State): State {
    ResetPath(DetachPeer(t))
  }

  function CloseTransport(t: State): State {
    if t.closed then t
    else DetachPeer(t.(closed := true)).(pending := [], outbound := None)
  }

  // ---- The secure session behind the transport ----

  /** A matching e2e.ready: the transport flushes first, then the session. */
  function PeerReady(t: State, matching: bool): State {
    if t.session.crypto.None? || !matching then t.(session := Clear(t.session))
    else if t.session.peerReady then t
    else
      var u := t.(session := t.session.(peerReady := true));
      var flushed := if u.path == P2p then FlushPendingP2p(u) else Outcome(u, false);
      if flushed.threw then flushed.state.(session := Clear(flushed.state.session))
      else flushed.state.(session := FlushPending(flushed.state.session).state)
  }

  function Heartbeat(t: State, env: Envelope): State {
    if t.peer.None? || t.path != P2p then t
    else t.(session := Emit(t.session, Plain(env), PeerLane(Control)))
  }

  // ---- Runs ----

  datatype Step =
    | SendStep(item: Item)
    | AttachStep(peer: nat)
    | DetachStep
    | BeginSwitchStep(target: Path)
    | EndSwitchStep(window: nat)
    | HealthStep
    | PeerClosedStep
    | PauseStep
    | ResumeStep
    | ReconnectStep
    | ForceCloseStep
    | CloseStep
    | HeartbeatStep(ping: Envelope)
    | SessionSendStep(env: Envelope)
    | ClientSendStep(clear: Envelope)
    | HandshakeStep(id: nat, readyMessage: Envelope)
    | PeerReadyStep(matching: bool)
    | SessionLostStep
    | SessionCloseStep(goodbye: Envelope)

  const CLEAR_KINDS: seq<string> := ["mobile.connect", "auth.proof", "e2e.handshake.init"]

  /** No frame so far carries this session identity. */
  predicate FreshSession(s: Session, id: nat) {
    && (forall f :: f in s.wire && f.body.Sealed? ==> f.body.session != id)
    && (s.crypto.Some? ==> s.crypto.value.id != id)
  }

  predicate Enabled(t: State, step: Step) {
    match step
    case EndSwitchStep(i) => i < |t.windows|
    case HeartbeatStep(ping) => ping.kind in [Transport("ping"), Transport("pong")]
    case ClientSendStep(clear) => !t.session.closed && clear.kind.Other? && clear.kind.name in CLEAR_KINDS
    case HandshakeStep(id, ready) =>
      !t.session.closed && FreshSession(t.session, id) && ready.kind == Other("e2e.ready")
    case PeerReadyStep(_) => !t.session.closed
    case SessionCloseStep(goodbye) => goodbye.kind == Business("app.connection.", "goodbye")
    case _ => true
  }

  function Apply(t: State, step: Step): State
    requires Enabled(t, step)
  {
    match step
    case SendStep(item) => Send(t, item).state
    case AttachStep(peer) => DetachPeer(t).(peer := Some(peer))
    case DetachStep => DetachPeer(t)
    case BeginSwitchStep(target) => BeginSwitch(t, target)
    case EndSwitchStep(i) => EndSwitch(t, i).state
    case HealthStep => HealthDowngrade(t)
    case PeerClosedStep => PeerClosed(t)
    case PauseStep => PauseForBackground(t)
    case ResumeStep => t.(paused := false)
    case ReconnectStep => PrepareForReconnect(t)
    case ForceCloseStep => ForceClose(t)
    case CloseStep => CloseTransport(t)
    case HeartbeatStep(ping) => Heartbeat(t, ping)
    case SessionSendStep(env) => t.(session := SessionSend(t.session, env).state)
    case ClientSendStep(clear) => t.(session := Emit(t.session, Plain(clear), RelayLane))
    case HandshakeStep(id, ready) => t.(session := CompleteHandshake(t.session, id, ready))
    case PeerReadyStep(matching) => PeerReady(t, matching)
    case SessionLostStep => t.(session := Clear(t.session))
    case SessionCloseStep(goodbye) => t.(session := SessionClose(t.session, goodbye))
  }

  /** A run is the sequence of steps taken from a fresh transport; every step was enabled. */
  predicate ValidRun(strict: bool, steps: seq<Step>)
    decreases |steps|, 0
  {
    steps == [] ||
    (ValidRun(strict, steps[..|steps| - 1]) &&
     Enabled(Final(strict, steps[..|steps| - 1]), steps[|steps| - 1]))
  }

  function Final(strict: bool, steps: seq<Step>): State
    requires ValidRun(strict, steps)
    decreases |steps|, 1
  {
    if steps == [] then Initial(strict)
    else Apply(Final(strict, steps[..|steps| - 1]), steps[|steps| - 1])
  }

  // ---- The side condition ----

  /** The step takes the peer away from an open strict transport. */
  predicate Detaches(t: State, step: Step) {
    match step
    case DetachStep => true
    case PeerClosedStep => t.peer.Some? && t.path != P2p
    case PauseStep => !t.paused
    case ReconnectStep => true
    case _ => false
  }

  /** The step takes the peer away inside a drain window, or from under the
      peer-to-peer path without taking the path down. */
  predicate Hazard(t: State, step: Step) {
    !t.closed && !t.forceClosed && Detaches(t, step) &&
    (t.windows != [] || (step.DetachStep? && t.path == P2p))
  }

  predicate HazardFree(strict: bool, steps: seq<Step>)
    requires ValidRun(strict, steps)
  {
    steps == [] ||
    (HazardFree(strict, steps[..|steps| - 1]) &&
     !Hazard(Final(strict, steps[..|steps| - 1]), steps[|steps| - 1]))
  }
}

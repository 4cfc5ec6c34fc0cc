// The relay's gate on end-to-end traffic as a step system
// (relay/server/src/relayE2EController.ts). The relay reads no plaintext; it
// only forwards frames of pairs whose two ends have said they are ready.
module RelayGateSpec {
  import opened Options

  datatype Role = Unknown | Agent | Mobile

  datatype ConnState =
    | SocketConnected | RegisteredAgent | MobileConnected
    | PairingVerified | Handshaking | Ready | Closed

  /** What an agent connection remembers about one App connection. */
  datatype Peer = Peer(handshakeId: string, transcriptHash: Option<string>, sessionId: Option<string>, ready: bool)

  datatype Connection = Connection(
    role: Role,
    state: ConnState,
    deviceId: Option<string>,
    authenticated: bool,
    handshakeId: Option<string>,
    transcriptHash: Option<string>,
    sessionId: Option<string>,
    peers: map<string, Peer>)

  const NEW_CONNECTION := Connection(Unknown, SocketConnected, None, false, None, None, None, map[])

  datatype Message =
    | Init(app: string, handshakeId: string)
    | Reply(app: string, handshakeId: string)
    | ReadyMessage(app: string, handshakeId: string, transcriptHash: string)
    | Sealed(app: string, sessionId: string)
    | Failed(failedApp: Option<string>)

  datatype Delivery = Delivery(to: string, message: Message) | Refusal(to: string) | Authenticated(deviceId: string, app: string)

  /** Accepted messages, in order. */
  datatype Event =
    | AppInit(app: string, handshakeId: string)
    | AppReady(app: string, handshakeId: string, transcriptHash: string)
    | AppFailed(app: string)
    | AppFrame(app: string, sessionId: string)
    | AgentReply(agent: string, app: string, handshakeId: string)
    | AgentReady(agent: string, app: string, handshakeId: string, transcriptHash: string)
    | AgentFrame(agent: string, app: string, sessionId: string)
    | AgentFailed(agent: string, app: string)

  /** `all` holds every connection object by id, `live` those in the connection
      table, `primary` the current agent of each device. */
  datatype Gate = Gate(
    all: map<string, Connection>,
    live: set<string>,
    primary: map<string, string>,
    sent: seq<Delivery>,
    log: seq<Event>)

  const EMPTY := Gate(map[], {}, map[], [], [])

  /** JavaScript truthiness of an optional string. */
  predicate Truthy(o: Option<string>) {
    o.Some? && o.value != ""
  }

  function Update(g: Gate, id: string, c: Connection): Gate {
    g.(all := g.all[id := c])
  }

  function Deliver(g: Gate, d: Delivery): Gate {
    g.(sent := g.sent + [d])
  }

  function Note(g: Gate, e: Event): Gate {
    g.(log := g.log + [e])
  }

  function RouteToAgent(g: Gate, deviceId: Option<string>, message: Message): Gate {
    if Truthy(deviceId) && deviceId.value in g.primary then Deliver(g, Delivery(g.primary[deviceId.value], message))
    else g
  }

  /** The App connection an agent may address: live, mobile, and of the agent's device. */
  predicate Addressable(g: Gate, agent: Connection, app: string) {
    && app in g.live && app in g.all && g.all[app].role == Mobile
    && Truthy(agent.deviceId) && g.all[app].deviceId == agent.deviceId
  }

  predicate PairReady(g: Gate, app: string, deviceId: Option<string>) {
    && Truthy(deviceId)
    && app in g.live && app in g.all
    && deviceId.value in g.primary && g.primary[deviceId.value] in g.all
    && var mobile, agent := g.all[app], g.all[g.primary[deviceId.value]];
    && app in agent.peers
    && var peer := agent.peers[app];
    && mobile.role == Mobile && mobile.deviceId == deviceId && mobile.state == Ready
    && peer.ready
    && Truthy(mobile.handshakeId) && mobile.handshakeId == Some(peer.handshakeId)
    && Truthy(mobile.transcriptHash) && mobile.transcriptHash == peer.transcriptHash
  }

  // ---- Handlers ----

  function HandleInit(g: Gate, id: string, app: string, handshakeId: string): Gate
    requires id in g.all
  {
    var c := g.all[id];
    if c.role != Mobile || !c.authenticated || c.state != PairingVerified || app != id then Deliver(g, Refusal(id))
    else
      var d := c.(handshakeId := Some(handshakeId), transcriptHash := None, sessionId := None, state := Handshaking);
      RouteToAgent(Note(Update(g, id, d), AppInit(id, handshakeId)), c.deviceId, Init(app, handshakeId))
  }

  function HandleReply(g: Gate, id: string, app: string, handshakeId: string): Gate
    requires id in g.all
  {
    var c := g.all[id];
    if c.role != Agent || !Addressable(g, c, app) || g.all[app].handshakeId != Some(handshakeId) then Deliver(g, Refusal(id))
    else
      var d := c.(peers := c.peers[app := Peer(handshakeId, None, None, false)]);
      Deliver(Note(Update(g, id, d), AgentReply(id, app, handshakeId)), Delivery(app, Reply(app, handshakeId)))
  }

  function HandleReady(g: Gate, id: string, app: string, handshakeId: string, transcriptHash: string): Gate
    requires id in g.all
  {
    var c := g.all[id];
    var message := ReadyMessage(app, handshakeId, transcriptHash);
    if c.role == Mobile then
      if c.state != Handshaking || app != id || c.handshakeId != Some(handshakeId) then Deliver(g, Refusal(id))
      else
        var d := c.(transcriptHash := Some(transcriptHash), state := Ready);
        RouteToAgent(Note(Update(g, id, d), AppReady(id, handshakeId, transcriptHash)), c.deviceId, message)
    else if || c.role != Agent || !Addressable(g, c, app) || app !in c.peers
            || c.peers[app].handshakeId != handshakeId then Deliver(g, Refusal(id))
    else
      var peer := c.peers[app].(transcriptHash := Some(transcriptHash), ready := true);
      var h := Note(Update(g, id, c.(peers := c.peers[app := peer])), AgentReady(id, app, handshakeId, transcriptHash));
      Deliver(Deliver(h, Authenticated(c.deviceId.value, app)), Delivery(app, message))
  }

  function HandleSealed(g: Gate, id: string, app: string, sessionId: string): Gate
    requires id in g.all
  {
    var c := g.all[id];
    if c.role == Mobile then
      if || c.state != Ready || app != id || !PairReady(g, id, c.deviceId)
         || (Truthy(c.sessionId) && c.sessionId != Some(sessionId)) then Deliver(g, Refusal(id))
      else
        RouteToAgent(Note(Update(g, id, c.(sessionId := Some(sessionId))), AppFrame(id, sessionId)),
                     c.deviceId, Sealed(app, sessionId))
    else if || c.role != Agent || !Addressable(g, c, app) || app !in c.peers || !c.peers[app].ready
            || (Truthy(c.peers[app].sessionId) && c.peers[app].sessionId != Some(sessionId)) then Deliver(g, Refusal(id))
    else
      var peer := c.peers[app].(sessionId := Some(sessionId));
      Deliver(Note(Update(g, id, c.(peers := c.peers[app := peer])), AgentFrame(id, app, sessionId)),
              Delivery(app, Sealed(app, sessionId)))
  }

  function HandleFailed(g: Gate, id: string, app: Option<string>): Gate
    requires id in g.all
  {
    var c := g.all[id];
    if c.role == Mobile then
      var d := c.(state := if c.authenticated then PairingVerified else c.state,
                  handshakeId := None, transcriptHash := None, sessionId := None);
      RouteToAgent(Note(Update(g, id, d), AppFailed(id)), c.deviceId, Failed(app))
    else if c.role == Agent && Truthy(app) then
      var h := Note(Update(g, id, c.(peers := c.peers - {app.value})), AgentFailed(id, app.value));
      if Addressable(h, h.all[id], app.value) then Deliver(h, Delivery(app.value, Failed(app))) else h
    else g
  }

  // ---- Steps ----

  /** The last five are the environment: sockets, admission, authentication and
      the choice of the primary agent, which never touch the end-to-end fields. */
  datatype Step =
    | InitStep(id: string, app: string, handshakeId: string)
    | ReplyStep(id: string, app: string, handshakeId: string)
    | ReadyStep(id: string, app: string, handshakeId: string, transcriptHash: string)
    | SealedStep(id: string, app: string, sessionId: string)
    | FailedStep(id: string, failedApp: Option<string>)
    | RegisterStep(id: string)
    | AdmitStep(id: string, role: Role, state: ConnState, deviceId: Option<string>, authenticated: bool)
    | UnregisterStep(id: string)
    | PrimaryStep(device: string, agent: string)
    | NoPrimaryStep(device: string)

  predicate Possible(g: Gate, step: Step) {
    match step
    case RegisterStep(id) => id !in g.all
    case AdmitStep(id, _, state, _, _) => id in g.all && state != Handshaking && state != Ready
    case PrimaryStep(_, agent) => agent in g.all
    case NoPrimaryStep(_) => true
    case SealedStep(id, _, sessionId) => id in g.all && sessionId != ""
    case _ => step.id in g.all
  }

  function Apply(g: Gate, step: Step): Gate
    requires Possible(g, step)
  {
    match step
    case InitStep(id, app, h) => HandleInit(g, id, app, h)
    case ReplyStep(id, app, h) => HandleReply(g, id, app, h)
    case ReadyStep(id, app, h, t) => HandleReady(g, id, app, h, t)
    case SealedStep(id, app, s) => HandleSealed(g, id, app, s)
    case FailedStep(id, app) => HandleFailed(g, id, app)
    case RegisterStep(id) => Update(g, id, NEW_CONNECTION).(live := g.live + {id})
    case AdmitStep(id, role, state, device, authenticated) =>
      Update(g, id, g.all[id].(role := role, state := state, deviceId := device, authenticated := authenticated))
    case UnregisterStep(id) => Update(g, id, g.all[id].(state := Closed)).(live := g.live - {id})
    case PrimaryStep(device, agent) => g.(primary := g.primary[device := agent])
    case NoPrimaryStep(device) => g.(primary := g.primary - {device})
  }

  /** `g` is reached from `start` by the steps, each possible when taken. */
  predicate Reaches(start: Gate, steps: seq<Step>, g: Gate)
    decreases |steps|
  {
    if steps == [] then g == start
    else Possible(start, steps[0]) && Reaches(Apply(start, steps[0]), steps[1..], g)
  }
}

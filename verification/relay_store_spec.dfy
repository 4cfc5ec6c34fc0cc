// The relay's bookkeeping of devices, connections, links and traffic
// (relay/server/src/relayStateStore.ts). Times, addresses, statuses and
// snapshots are not part of this model.
module RelayStoreSpec {
  import opened Options

  // ---- Counters ----

  datatype Direction = In | Out

  datatype Counters = Counters(
    bytesIn: nat, bytesOut: nat, messagesIn: nat, messagesOut: nat,
    inByType: map<string, nat>, outByType: map<string, nat>)

  const NO_TRAFFIC: Counters := Counters(0, 0, 0, 0, map[], map[])

  function CountOf(m: map<string, nat>, key: string): (n: nat) {
    if key in m then m[key] else 0
  }

  function Increment(c: Counters, direction: Direction, kind: string, bytes: nat): (r: Counters) {
    match direction
    case In => c.(bytesIn := c.bytesIn + bytes, messagesIn := c.messagesIn + 1,
                  inByType := c.inByType[kind := CountOf(c.inByType, kind) + 1])
    case Out => c.(bytesOut := c.bytesOut + bytes, messagesOut := c.messagesOut + 1,
                   outByType := c.outByType[kind := CountOf(c.outByType, kind) + 1])
  }

  datatype Delta = Delta(bytesIn: nat, bytesOut: nat, messagesIn: nat, messagesOut: nat)

  const NO_DELTA: Delta := Delta(0, 0, 0, 0)

  function AddDelta(c: Delta, d: Delta): (r: Delta) {
    Delta(c.bytesIn + d.bytesIn, c.bytesOut + d.bytesOut, c.messagesIn + d.messagesIn, c.messagesOut + d.messagesOut)
  }

  function OneMessage(direction: Direction, bytes: nat): (d: Delta) {
    match direction
    case In => Delta(bytes, 0, 1, 0)
    case Out => Delta(0, bytes, 0, 1)
  }

  function DeltaOf(m: map<string, Delta>, device: string): (d: Delta) {
    if device in m then m[device] else NO_DELTA
  }

  // ---- The store ----

  datatype Role = AgentRole | MobileRole | OtherRole

  /** A connection as the store is shown it; an absent device is the empty string. */
  datatype Connection = Connection(id: string, role: Role, deviceId: string)

  datatype Device = Device(agents: set<string>, apps: set<string>, links: set<string>, counters: Counters)

  datatype ConnectionState = ConnectionState(deviceId: string, counters: Counters)

  datatype Link = Link(deviceId: string, agentId: string, appId: string, counters: Counters,
                       appToAgentBytes: nat, agentToAppBytes: nat)

  /** `flushed` is what the device status store was handed, if there is one. */
  datatype Store = Store(
    hasStatusStore: bool,
    counters: Counters,
    devices: map<string, Device>,
    agents: map<string, ConnectionState>,
    apps: map<string, ConnectionState>,
    links: map<string, Link>,
    linkByApp: map<string, string>,
    pending: map<string, Delta>,
    flushed: map<string, Delta>)

  function EmptyStore(hasStatusStore: bool): (s: Store) {
    Store(hasStatusStore, NO_TRAFFIC, map[], map[], map[], map[], map[], map[], map[])
  }

  const NEW_DEVICE: Device := Device({}, {}, {}, NO_TRAFFIC)

  function DeviceOf(s: Store, device: string): (d: Device) {
    if device in s.devices then s.devices[device] else NEW_DEVICE
  }

  function PutDevice(s: Store, device: string, d: Device): (r: Store) {
    s.(devices := s.devices[device := d])
  }

  function RegisterAgent(s: Store, c: Connection): (r: Store) {
    if c.deviceId == "" then s
    else
      var d := DeviceOf(s, c.deviceId);
      PutDevice(s, c.deviceId, d.(agents := d.agents + {c.id}))
      .(agents := s.agents[c.id := ConnectionState(c.deviceId, NO_TRAFFIC)])
  }

  function RegisterApp(s: Store, c: Connection): (r: Store) {
    if c.deviceId == "" then s
    else
      var d := DeviceOf(s, c.deviceId);
      PutDevice(s, c.deviceId, d.(apps := d.apps + {c.id}))
      .(apps := s.apps[c.id := ConnectionState(c.deviceId, NO_TRAFFIC)])
  }

  function LinkId(device: string, agent: string, app: string): (id: string) {
    "link_" + device + "_" + agent + "_" + app
  }

  /** The id an app's link has, or the one it gets. */
  function LinkIdFor(s: Store, device: string, agent: string, app: string): (id: string) {
    if app in s.linkByApp then s.linkByApp[app] else LinkId(device, agent, app)
  }

  function CreateOrUpdateLink(s: Store, device: string, agent: string, app: string): (r: Store) {
    var id := LinkIdFor(s, device, agent, app);
    var link := if id in s.links then s.links[id] else Link(device, agent, app, NO_TRAFFIC, 0, 0);
    var d := DeviceOf(s, device);
    PutDevice(s, device, d.(links := d.links + {id}))
    .(links := s.links[id := link], linkByApp := s.linkByApp[app := id])
  }

  /** authenticateApp: the app is registered, and linked when its agent is there. */
  function AuthenticateApp(s: Store, c: Connection, agent: Option<string>): (r: Store) {
    var t := RegisterApp(s, c);
    if c.deviceId != "" && agent.Some? && agent.value != "" then CreateOrUpdateLink(t, c.deviceId, agent.value, c.id)
    else t
  }

  /** refreshDeviceStatus forgets a device with nothing left. */
  function Refresh(s: Store, device: string): (r: Store) {
    if device in s.devices && s.devices[device].agents == {} && s.devices[device].apps == {}
       && s.devices[device].links == {} then s.(devices := s.devices - {device})
    else s
  }

  function WithoutAgent(s: Store, id: string, device: string): (r: Store) {
    var t := s.(agents := s.agents - {id});
    if device !in t.devices then t
    else PutDevice(t, device, t.devices[device].(agents := t.devices[device].agents - {id}))
  }

  function CloseAgent(s: Store, id: string): (r: Store) {
    if id !in s.agents then s
    else Refresh(WithoutAgent(s, id, s.agents[id].deviceId), s.agents[id].deviceId)
  }

  /** The link of an app is forgotten, also by the device given. */
  function DropLink(s: Store, app: string, device: string): (r: Store) {
    if app !in s.linkByApp then s
    else
      var id := s.linkByApp[app];
      var t := s.(links := s.links - {id}, linkByApp := s.linkByApp - {app});
      if device !in t.devices then t
      else PutDevice(t, device, t.devices[device].(links := t.devices[device].links - {id}))
  }

  function WithoutApp(s: Store, id: string, device: string): (r: Store) {
    var t := s.(apps := s.apps - {id});
    if device !in t.devices then t
    else PutDevice(t, device, t.devices[device].(apps := t.devices[device].apps - {id}))
  }

  function CloseApp(s: Store, id: string): (r: Store) {
    if id !in s.apps then s
    else
      var device := s.apps[id].deviceId;
      Refresh(DropLink(WithoutApp(s, id, device), id, device), device)
  }

  function CloseConnection(s: Store, id: string): (r: Store) {
    CloseApp(CloseAgent(s, id), id)
  }

  // ---- Traffic ----

  function LinkForTraffic(s: Store, c: Connection, appConnectionId: string): (id: Option<string>) {
    var app := match c.role case MobileRole => c.id case AgentRole => appConnectionId case OtherRole => "";
    if c.role.OtherRole? || (c.role.AgentRole? && app == "") || app !in s.linkByApp then None
    else Some(s.linkByApp[app])
  }

  function CountOnDevice(s: Store, device: string, direction: Direction, kind: string, bytes: nat): (r: Store) {
    if device == "" then s
    else
      var d := DeviceOf(s, device);
      PutDevice(s, device, d.(counters := Increment(d.counters, direction, kind, bytes)))
      .(pending := s.pending[device := AddDelta(DeltaOf(s.pending, device), OneMessage(direction, bytes))])
  }

  function CountOnConnection(s: Store, c: Connection, direction: Direction, kind: string, bytes: nat): (r: Store) {
    match c.role
    case AgentRole =>
      if c.id !in s.agents then s
      else s.(agents := s.agents[c.id := s.agents[c.id].(counters := Increment(s.agents[c.id].counters, direction, kind, bytes))])
    case MobileRole =>
      if c.id !in s.apps then s
      else s.(apps := s.apps[c.id := s.apps[c.id].(counters := Increment(s.apps[c.id].counters, direction, kind, bytes))])
    case OtherRole => s
  }

  function CountedLink(link: Link, c: Connection, direction: Direction, kind: string, bytes: nat): (r: Link) {
    var counted := link.(counters := Increment(link.counters, direction, kind, bytes));
    if direction.Out? then counted
    else if c.role.MobileRole? then counted.(appToAgentBytes := link.appToAgentBytes + bytes)
    else if c.role.AgentRole? then counted.(agentToAppBytes := link.agentToAppBytes + bytes)
    else counted
  }

  function CountOnLink(s: Store, id: Option<string>, c: Connection, direction: Direction, kind: string, bytes: nat): (r: Store) {
    if id.None? || id.value !in s.links then s
    else s.(links := s.links[id.value := CountedLink(s.links[id.value], c, direction, kind, bytes)])
  }

  function RecordTraffic(s: Store, c: Connection, direction: Direction, kind: string, appConnectionId: string, bytes: nat)
    : (r: Store)
  {
    var counted := s.(counters := Increment(s.counters, direction, kind, bytes));
    var t := CountOnConnection(CountOnDevice(counted, c.deviceId, direction, kind, bytes), c, direction, kind, bytes);
    CountOnLink(t, LinkForTraffic(t, c, appConnectionId), c, direction, kind, bytes)
  }

  /** Pending traffic is handed over device by device, or dropped when there is no status store. */
  function Flush(s: Store): (r: Store) {
    if !s.hasStatusStore then s.(pending := map[])
    else
      s.(flushed := map d | d in s.flushed.Keys + s.pending.Keys :: AddDelta(DeltaOf(s.flushed, d), DeltaOf(s.pending, d)),
         pending := map[])
  }

  // ---- Runs ----

  datatype Step =
    | AgentRegistered(c: Connection)
    | AppAuthenticated(c: Connection, primary: Option<string>)
    | AppRegistered(c: Connection)
    | LinkUpdated(device: string, agent: string, app: string)
    | Closed(id: string)
    | Traffic(c: Connection, direction: Direction, kind: string, appConnectionId: string, bytes: nat)
    | Flushed

  function Apply(s: Store, step: Step): (r: Store) {
    match step
    case AgentRegistered(c) => RegisterAgent(s, c)
    case AppAuthenticated(c, primary) => AuthenticateApp(s, c, primary)
    case AppRegistered(c) => RegisterApp(s, c)
    case LinkUpdated(device, agent, app) => CreateOrUpdateLink(s, device, agent, app)
    case Closed(id) => CloseConnection(s, id)
    case Traffic(c, direction, kind, app, bytes) => RecordTraffic(s, c, direction, kind, app, bytes)
    case Flushed => Flush(s)
  }

  function Run(hasStatusStore: bool, steps: seq<Step>): (s: Store) {
    if steps == [] then EmptyStore(hasStatusStore)
    else Apply(Run(hasStatusStore, steps[..|steps| - 1]), steps[|steps| - 1])
  }
}

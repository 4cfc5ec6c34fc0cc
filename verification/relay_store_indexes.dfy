// The indexes of the relay's bookkeeping agree with each other.
module RelayStoreIndexes {
  import opened Options
  import opened RelayStoreSpec

  // ---- Links and devices ----

  /** Each link is known to its device, each connection to its own. */
  predicate KnownToDevices(s: Store) {
    && (forall id :: id in s.links ==> id in DeviceOf(s, s.links[id].deviceId).links)
    && (forall id :: id in s.agents ==> id in DeviceOf(s, s.agents[id].deviceId).agents)
    && (forall id :: id in s.apps ==> id in DeviceOf(s, s.apps[id].deviceId).apps)
  }

  lemma RegisteringAgentKnown(s: Store, c: Connection)
    requires KnownToDevices(s)
    ensures KnownToDevices(RegisterAgent(s, c))
  {
  }

  lemma RegisteringAppKnown(s: Store, c: Connection)
    requires KnownToDevices(s)
    ensures KnownToDevices(RegisterApp(s, c))
  {
  }

  lemma LinkingKnown(s: Store, device: string, agent: string, app: string)
    requires KnownToDevices(s)
    ensures KnownToDevices(CreateOrUpdateLink(s, device, agent, app))
  {
  }

  lemma RefreshKnown(s: Store, device: string)
    requires KnownToDevices(s)
    ensures KnownToDevices(Refresh(s, device))
  {
  }

  lemma WithoutAgentKnown(s: Store, id: string, device: string)
    requires KnownToDevices(s) && id in s.agents && s.agents[id].deviceId == device
    ensures KnownToDevices(WithoutAgent(s, id, device))
  {
  }

  lemma ClosingAgentKnown(s: Store, id: string)
    requires KnownToDevices(s)
    ensures KnownToDevices(CloseAgent(s, id))
  {
    if id in s.agents {
      var device := s.agents[id].deviceId;
      WithoutAgentKnown(s, id, device);
      RefreshKnown(WithoutAgent(s, id, device), device);
    }
  }

  lemma DroppingKnown(s: Store, app: string, device: string)
    requires KnownToDevices(s)
    ensures KnownToDevices(DropLink(s, app, device))
  {
  }

  lemma WithoutAppKnown(s: Store, id: string, device: string)
    requires KnownToDevices(s) && id in s.apps && s.apps[id].deviceId == device
    ensures KnownToDevices(WithoutApp(s, id, device))
  {
  }

  lemma ClosingAppKnown(s: Store, id: string)
    requires KnownToDevices(s)
    ensures KnownToDevices(CloseApp(s, id))
  {
    if id in s.apps {
      var device := s.apps[id].deviceId;
      var u := WithoutApp(s, id, device);
      WithoutAppKnown(s, id, device);
      DroppingKnown(u, id, device);
      RefreshKnown(DropLink(u, id, device), device);
    }
  }

  /** What knowing depends on. */
  ghost predicate SameIndexes(s: Store, r: Store) {
    && r.links.Keys == s.links.Keys && r.agents.Keys == s.agents.Keys && r.apps.Keys == s.apps.Keys
    && r.linkByApp == s.linkByApp
    && (forall id :: id in s.links ==> r.links[id].deviceId == s.links[id].deviceId && r.links[id].appId == s.links[id].appId
                                       && r.links[id].agentId == s.links[id].agentId)
    && (forall id :: id in s.agents ==> r.agents[id].deviceId == s.agents[id].deviceId)
    && (forall id :: id in s.apps ==> r.apps[id].deviceId == s.apps[id].deviceId)
    && (forall d :: var before, after := DeviceOf(s, d), DeviceOf(r, d);
          after.agents == before.agents && after.apps == before.apps && after.links == before.links)
  }

  lemma CountingDeviceKeepsIndexes(s: Store, device: string, direction: Direction, kind: string, bytes: nat)
    ensures SameIndexes(s, CountOnDevice(s, device, direction, kind, bytes))
  {
    if device == "" {
      // no device: nothing changes
    } else {
      assert CountOnDevice(s, device, direction, kind, bytes).links == s.links;
    }
  }

  lemma AgentsKeepIndexes(s: Store, agents: map<string, ConnectionState>)
    requires agents.Keys == s.agents.Keys
    requires forall id :: id in agents ==> agents[id].deviceId == s.agents[id].deviceId
    ensures SameIndexes(s, s.(agents := agents))
  {
  }

  lemma AppsKeepIndexes(s: Store, apps: map<string, ConnectionState>)
    requires apps.Keys == s.apps.Keys
    requires forall id :: id in apps ==> apps[id].deviceId == s.apps[id].deviceId
    ensures SameIndexes(s, s.(apps := apps))
  {
  }

  lemma CountingConnectionKeepsIndexes(s: Store, c: Connection, direction: Direction, kind: string, bytes: nat)
    ensures SameIndexes(s, CountOnConnection(s, c, direction, kind, bytes))
  {
    var r := CountOnConnection(s, c, direction, kind, bytes);
    if c.role.AgentRole? && c.id in s.agents {
      assert r == s.(agents := r.agents);
      AgentsKeepIndexes(s, r.agents);
    } else if c.role.MobileRole? && c.id in s.apps {
      assert r == s.(apps := r.apps);
      AppsKeepIndexes(s, r.apps);
    } else {
      assert r == s;
    }
  }

  lemma CountingLinkKeepsIndexes(s: Store, id: Option<string>, c: Connection, direction: Direction, kind: string, bytes: nat)
    ensures SameIndexes(s, CountOnLink(s, id, c, direction, kind, bytes))
  {
    if id.Some? && id.value in s.links {
      CountedLinkKeepsEnds(s.links[id.value], c, direction, kind, bytes);
      LinksKeepIndexes(s, s.links[id.value := CountedLink(s.links[id.value], c, direction, kind, bytes)]);
    } else {
      assert CountOnLink(s, id, c, direction, kind, bytes) == s;
    }
  }

  lemma CountedLinkKeepsEnds(link: Link, c: Connection, direction: Direction, kind: string, bytes: nat)
    ensures var r := CountedLink(link, c, direction, kind, bytes);
            r.deviceId == link.deviceId && r.appId == link.appId && r.agentId == link.agentId
  {
  }

  lemma LinksKeepIndexes(s: Store, links: map<string, Link>)
    requires links.Keys == s.links.Keys
    requires forall id :: id in links ==> links[id].deviceId == s.links[id].deviceId && links[id].appId == s.links[id].appId
                                          && links[id].agentId == s.links[id].agentId
    ensures SameIndexes(s, s.(links := links))
  {
  }

  lemma SameIndexesChain(s: Store, t: Store, u: Store)
    requires SameIndexes(s, t) && SameIndexes(t, u)
    ensures SameIndexes(s, u)
  {
  }

  lemma OwnCountersKeepIndexes(s: Store, counters: Counters)
    ensures SameIndexes(s, s.(counters := counters))
  {
  }

  lemma TrafficKeepsIndexes(s: Store, c: Connection, direction: Direction, kind: string, app: string, bytes: nat)
    ensures SameIndexes(s, RecordTraffic(s, c, direction, kind, app, bytes))
  {
    var counted := s.(counters := Increment(s.counters, direction, kind, bytes));
    var t := CountOnDevice(counted, c.deviceId, direction, kind, bytes);
    var u := CountOnConnection(t, c, direction, kind, bytes);
    var v := CountOnLink(u, LinkForTraffic(u, c, app), c, direction, kind, bytes);
    assert RecordTraffic(s, c, direction, kind, app, bytes) == v;
    CountingDeviceKeepsIndexes(counted, c.deviceId, direction, kind, bytes);
    CountingConnectionKeepsIndexes(t, c, direction, kind, bytes);
    CountingLinkKeepsIndexes(u, LinkForTraffic(u, c, app), c, direction, kind, bytes);
    SameIndexesChain(counted, t, u);
    SameIndexesChain(counted, u, v);
    OwnCountersKeepIndexes(s, Increment(s.counters, direction, kind, bytes));
    SameIndexesChain(s, counted, v);
  }

  lemma IndexesKeepKnown(s: Store, r: Store)
    requires KnownToDevices(s) && SameIndexes(s, r)
    ensures KnownToDevices(r)
  {
  }

  lemma StepKnown(s: Store, step: Step)
    requires KnownToDevices(s)
    ensures KnownToDevices(Apply(s, step))
  {
    match step
    case AgentRegistered(c) => RegisteringAgentKnown(s, c);
    case AppRegistered(c) => RegisteringAppKnown(s, c);
    case AppAuthenticated(c, primary) =>
      RegisteringAppKnown(s, c);
      if primary.Some? {
        LinkingKnown(RegisterApp(s, c), c.deviceId, primary.value, c.id);
      }
    case LinkUpdated(device, agent, app) => LinkingKnown(s, device, agent, app);
    case Closed(id) =>
      ClosingAgentKnown(s, id);
      ClosingAppKnown(CloseAgent(s, id), id);
    case Traffic(c, direction, kind, app, bytes) =>
      TrafficKeepsIndexes(s, c, direction, kind, app, bytes);
      IndexesKeepKnown(s, Apply(s, step));
    case Flushed =>
  }

  /** In every run, each link is in its device's set of links, and each agent and app in its device's sets. */
  lemma {:induction false} AlwaysKnownToDevices(hasStatusStore: bool, steps: seq<Step>)
    ensures KnownToDevices(Run(hasStatusStore, steps))
  {
    if steps != [] {
      AlwaysKnownToDevices(hasStatusStore, steps[..|steps| - 1]);
      StepKnown(Run(hasStatusStore, steps[..|steps| - 1]), steps[|steps| - 1]);
    }
  }

  // ---- Links and apps ----

  /** `links` and `linkByApp` are mutually inverse. */
  predicate Inverse(s: Store) {
    && (forall app :: app in s.linkByApp ==> s.linkByApp[app] in s.links && s.links[s.linkByApp[app]].appId == app)
    && (forall id :: id in s.links ==> s.links[id].appId in s.linkByApp && s.linkByApp[s.links[id].appId] == id)
  }

  /** An app without a link would get an id that another app's link has. */
  predicate Clash(s: Store, device: string, agent: string, app: string) {
    app !in s.linkByApp && LinkId(device, agent, app) in s.links
  }

  predicate Clashes(s: Store, step: Step) {
    match step
    case LinkUpdated(device, agent, app) => Clash(s, device, agent, app)
    case AppAuthenticated(c, primary) =>
      c.deviceId != "" && primary.Some? && primary.value != "" && Clash(s, c.deviceId, primary.value, c.id)
    case _ => false
  }

  lemma UpdateKeepsInverseExactly(s: Store, device: string, agent: string, app: string)
    requires Inverse(s)
    ensures Inverse(CreateOrUpdateLink(s, device, agent, app)) <==> !Clash(s, device, agent, app)
  {
    var r := CreateOrUpdateLink(s, device, agent, app);
    var id := LinkIdFor(s, device, agent, app);
    if Clash(s, device, agent, app) {
      assert r.linkByApp[app] == id && r.links[id] == s.links[id];
      assert s.links[id].appId in s.linkByApp;
    }
  }

  lemma DroppingKeepsInverse(s: Store, app: string, device: string)
    requires Inverse(s)
    ensures Inverse(DropLink(s, app, device))
  {
  }

  predicate SameLinks(s: Store, r: Store) {
    r.links == s.links && r.linkByApp == s.linkByApp
  }

  lemma RefreshKeepsLinks(s: Store, device: string)
    ensures SameLinks(s, Refresh(s, device))
  {
    if Refresh(s, device) == s {
      // the device stays
    } else {
      // an empty device goes, its links are elsewhere
    }
  }

  lemma WithoutKeepsLinks(s: Store, id: string, device: string)
    ensures SameLinks(s, WithoutAgent(s, id, device)) && SameLinks(s, WithoutApp(s, id, device))
  {
    if device in s.devices {
      // the device forgets the connection
    } else {
      // no such device: only the connection goes
    }
  }

  lemma ClosingAgentKeepsLinks(s: Store, id: string)
    ensures SameLinks(s, CloseAgent(s, id))
  {
    if id in s.agents {
      WithoutKeepsLinks(s, id, s.agents[id].deviceId);
      RefreshKeepsLinks(WithoutAgent(s, id, s.agents[id].deviceId), s.agents[id].deviceId);
    } else {
      // not an agent: nothing changes
    }
  }

  lemma ClosingAppKeepsInverse(s: Store, id: string)
    requires Inverse(s)
    ensures Inverse(CloseApp(s, id))
  {
    if id in s.apps {
      var device := s.apps[id].deviceId;
      var u := WithoutApp(s, id, device);
      WithoutKeepsLinks(s, id, device);
      DroppingKeepsInverse(u, id, device);
      RefreshKeepsLinks(DropLink(u, id, device), device);
    } else {
      // not an app: nothing changes
    }
  }

  lemma RegisteringAgentKeepsLinks(s: Store, c: Connection)
    ensures SameLinks(s, RegisterAgent(s, c))
  {
    if c.deviceId == "" {
      // no device: nothing changes
    } else {
      // device and agent change, not the links
    }
  }

  lemma FlushKeepsLinks(s: Store)
    ensures SameLinks(s, Flush(s))
  {
    if s.hasStatusStore {
      // the pending traffic is handed over
    } else {
      // the pending traffic is dropped
    }
  }

  /** A step that makes no link keeps the two maps inverse. */
  lemma UnlinkingKeepsInverse(s: Store, step: Step)
    requires Inverse(s) && !step.LinkUpdated? && !step.AppAuthenticated?
    ensures Inverse(Apply(s, step))
  {
    match step
    case Closed(id) =>
      ClosingAgentKeepsLinks(s, id);
      ClosingAppKeepsInverse(CloseAgent(s, id), id);
    case Traffic(c, direction, kind, app, bytes) =>
      TrafficKeepsIndexes(s, c, direction, kind, app, bytes);
      IndexesKeepInverse(s, Apply(s, step));
    case AgentRegistered(c) => RegisteringAgentKeepsLinks(s, c);
    case AppRegistered(c) => RegisteringKeepsLinks(s, c);
    case Flushed => FlushKeepsLinks(s);
  }

  /** A step keeps the two maps inverse exactly when its link id does not clash. */
  lemma StepKeepsInverseExactly(s: Store, step: Step)
    requires Inverse(s)
    ensures Inverse(Apply(s, step)) <==> !Clashes(s, step)
  {
    match step
    case LinkUpdated(device, agent, app) => UpdateKeepsInverseExactly(s, device, agent, app);
    case AppAuthenticated(c, primary) => AuthenticateKeepsInverseExactly(s, c, primary);
    case _ => UnlinkingKeepsInverse(s, step);
  }

  lemma IndexesKeepInverse(s: Store, r: Store)
    requires SameIndexes(s, r) && Inverse(s)
    ensures Inverse(r)
  {
  }

  lemma RegisteringKeepsLinks(s: Store, c: Connection)
    ensures var r := RegisterApp(s, c); r.links == s.links && r.linkByApp == s.linkByApp
  {
  }

  lemma AuthenticateKeepsInverseExactly(s: Store, c: Connection, primary: Option<string>)
    requires Inverse(s)
    ensures Inverse(AuthenticateApp(s, c, primary)) <==> !Clashes(s, AppAuthenticated(c, primary))
  {
    RegisteringKeepsLinks(s, c);
    if c.deviceId != "" && primary.Some? && primary.value != "" {
      UpdateKeepsInverseExactly(RegisterApp(s, c), c.deviceId, primary.value, c.id);
    }
  }

  predicate ClashFree(hasStatusStore: bool, steps: seq<Step>) {
    steps == []
    || (ClashFree(hasStatusStore, steps[..|steps| - 1])
        && !Clashes(Run(hasStatusStore, steps[..|steps| - 1]), steps[|steps| - 1]))
  }

  lemma {:induction false} LinksStayInverse(hasStatusStore: bool, steps: seq<Step>)
    requires ClashFree(hasStatusStore, steps)
    ensures Inverse(Run(hasStatusStore, steps))
  {
    if steps != [] {
      LinksStayInverse(hasStatusStore, steps[..|steps| - 1]);
      StepKeepsInverseExactly(Run(hasStatusStore, steps[..|steps| - 1]), steps[|steps| - 1]);
    }
  }

  // ---- Ids that cannot clash ----

  /** Every link is kept under the id made from its own parts. */
  predicate KeyedByParts(s: Store) {
    forall id :: id in s.links ==> id == LinkId(s.links[id].deviceId, s.links[id].agentId, s.links[id].appId)
  }

  lemma SameLinksKeyed(s: Store, r: Store)
    requires KeyedByParts(s)
    requires forall id :: id in r.links ==> id in s.links && r.links[id].deviceId == s.links[id].deviceId
                                            && r.links[id].agentId == s.links[id].agentId && r.links[id].appId == s.links[id].appId
    ensures KeyedByParts(r)
  {
  }

  lemma LinkingKeyed(s: Store, device: string, agent: string, app: string)
    requires KeyedByParts(s) && Inverse(s)
    ensures KeyedByParts(CreateOrUpdateLink(s, device, agent, app))
  {
    var r := CreateOrUpdateLink(s, device, agent, app);
    var id := LinkIdFor(s, device, agent, app);
    if id in s.links {
      assert r.links[id] == s.links[id];
    } else {
      assert app !in s.linkByApp;
      assert r.links[id].deviceId == device && r.links[id].agentId == agent && r.links[id].appId == app;
    }
  }

  lemma ClosingAppOnlyDrops(s: Store, id: string)
    ensures CloseApp(s, id).links.Keys <= s.links.Keys
    ensures forall key :: key in CloseApp(s, id).links ==> CloseApp(s, id).links[key] == s.links[key]
  {
    if id in s.apps {
      var device := s.apps[id].deviceId;
      var u := WithoutApp(s, id, device);
      WithoutKeepsLinks(s, id, device);
      RefreshKeepsLinks(DropLink(u, id, device), device);
      if id in u.linkByApp {
        assert DropLink(u, id, device).links == u.links - {u.linkByApp[id]};
      } else {
        assert DropLink(u, id, device) == u;
      }
    } else {
      // not an app: nothing changes
    }
  }

  lemma StepKeyed(s: Store, step: Step)
    requires KeyedByParts(s) && Inverse(s)
    ensures KeyedByParts(Apply(s, step))
  {
    match step
    case LinkUpdated(device, agent, app) => LinkingKeyed(s, device, agent, app);
    case AppAuthenticated(c, primary) =>
      RegisteringKeepsLinks(s, c);
      if c.deviceId != "" && primary.Some? && primary.value != "" {
        LinkingKeyed(RegisterApp(s, c), c.deviceId, primary.value, c.id);
      } else {
        // registered only
      }
    case AppRegistered(c) => RegisteringKeepsLinks(s, c);
    case Closed(id) =>
      ClosingAgentKeepsLinks(s, id);
      ClosingAppOnlyDrops(CloseAgent(s, id), id);
      SameLinksKeyed(s, Apply(s, step));
    case Traffic(c, direction, kind, app, bytes) =>
      TrafficKeepsIndexes(s, c, direction, kind, app, bytes);
      SameLinksKeyed(s, Apply(s, step));
    case _ =>
  }

  predicate AppsOfLength(s: Store, n: nat) {
    forall id :: id in s.links ==> |s.links[id].appId| == n
  }

  /** The app a step would link, if any. */
  predicate LinksAppOfLength(step: Step, n: nat) {
    match step
    case LinkUpdated(device, agent, app) => |app| == n
    case AppAuthenticated(c, primary) => |c.id| == n
    case _ => true
  }

  lemma IdTellsApp(device: string, agent: string, app: string, device': string, agent': string, app': string)
    requires |app| == |app'| && LinkId(device, agent, app) == LinkId(device', agent', app')
    ensures app == app'
  {
    var id := LinkId(device, agent, app);
    assert id[|id| - |app|..] == app && id[|id| - |app'|..] == app';
  }

  lemma SameLengthNoClash(s: Store, device: string, agent: string, app: string, n: nat)
    requires KeyedByParts(s) && Inverse(s) && AppsOfLength(s, n) && |app| == n
    ensures !Clash(s, device, agent, app)
  {
    var id := LinkId(device, agent, app);
    if id in s.links {
      var link := s.links[id];
      IdTellsApp(device, agent, app, link.deviceId, link.agentId, link.appId);
    }
  }

  lemma StepKeepsLengths(s: Store, step: Step, n: nat)
    requires AppsOfLength(s, n) && LinksAppOfLength(step, n)
    ensures AppsOfLength(Apply(s, step), n)
  {
    match step
    case LinkUpdated(device, agent, app) => LinkingKeepsLengths(s, device, agent, app, n);
    case AppAuthenticated(c, primary) =>
      RegisteringKeepsLinks(s, c);
      if c.deviceId != "" && primary.Some? && primary.value != "" {
        LinkingKeepsLengths(RegisterApp(s, c), c.deviceId, primary.value, c.id, n);
      } else {
        // registered only
      }
    case AppRegistered(c) => RegisteringKeepsLinks(s, c);
    case Closed(id) =>
      ClosingAgentKeepsLinks(s, id);
      ClosingAppOnlyDrops(CloseAgent(s, id), id);
    case Traffic(c, direction, kind, app, bytes) => TrafficKeepsIndexes(s, c, direction, kind, app, bytes);
    case _ =>
  }

  lemma LinkingKeepsLengths(s: Store, device: string, agent: string, app: string, n: nat)
    requires AppsOfLength(s, n) && |app| == n
    ensures AppsOfLength(CreateOrUpdateLink(s, device, agent, app), n)
  {
  }

  /** When all app connection ids have one length, link ids never clash, so in
      every such run `links` and `linkByApp` are mutually inverse. */
  lemma {:induction false} EqualLengthsStayInverse(hasStatusStore: bool, steps: seq<Step>, n: nat)
    requires forall i :: 0 <= i < |steps| ==> LinksAppOfLength(steps[i], n)
    ensures ClashFree(hasStatusStore, steps) && Inverse(Run(hasStatusStore, steps))
    ensures KeyedByParts(Run(hasStatusStore, steps)) && AppsOfLength(Run(hasStatusStore, steps), n)
  {
    if steps != [] {
      var front, step := steps[..|steps| - 1], steps[|steps| - 1];
      EqualLengthsStayInverse(hasStatusStore, front, n);
      var s := Run(hasStatusStore, front);
      StepHasNoClash(s, step, n);
      StepKeepsInverseExactly(s, step);
      StepKeyed(s, step);
      StepKeepsLengths(s, step, n);
    }
  }

  lemma StepHasNoClash(s: Store, step: Step, n: nat)
    requires KeyedByParts(s) && Inverse(s) && AppsOfLength(s, n) && LinksAppOfLength(step, n)
    ensures !Clashes(s, step)
  {
    match step
    case LinkUpdated(device, agent, app) => SameLengthNoClash(s, device, agent, app, n);
    case AppAuthenticated(c, primary) =>
      if primary.Some? {
        SameLengthNoClash(s, c.deviceId, primary.value, c.id, n);
      }
    case _ =>
  }

  lemma SameText(device: string, x: string, y: string, z: string)
    ensures LinkId(device, x, y + "_" + z) == LinkId(device, x + "_" + y, z)
    ensures z != y + "_" + z
  {
    assert |y + "_" + z| > |z|;
  }

  /** The equal lengths are what keeps links apart: joining alone does not. An
      underscore within an id makes the agent `x` with the app `y_z` and the agent `x_y` with the
      app `z` share one link id, and the second app is then shown the first
      app's link. The relay's own connection ids, a prefix and a UUID, all have
      one length, so these runs are none of the relay's. */
  lemma UnderscoresClash(hasStatusStore: bool, device: string, x: string, y: string, z: string)
    ensures var id := LinkId(device, x, y + "_" + z);
            var s := Run(hasStatusStore, [LinkUpdated(device, x, y + "_" + z), LinkUpdated(device, x + "_" + y, z)]);
            && id == LinkId(device, x + "_" + y, z) && z != y + "_" + z
            && z in s.linkByApp && s.linkByApp[z] == id && id in s.links && s.links[id].appId == y + "_" + z
            && !Inverse(s)
  {
    SameText(device, x, y, z);
    var first, second := LinkUpdated(device, x, y + "_" + z), LinkUpdated(device, x + "_" + y, z);
    var none, one, two: seq<Step> := [], [first], [first, second];
    assert one[..0] == none && two[..1] == one;
    var s := Run(hasStatusStore, one);
    assert Run(hasStatusStore, none) == EmptyStore(hasStatusStore);
    assert s == CreateOrUpdateLink(EmptyStore(hasStatusStore), device, x, y + "_" + z);
    assert s.linkByApp == map[y + "_" + z := LinkId(device, x, y + "_" + z)];
    assert Run(hasStatusStore, two) == CreateOrUpdateLink(s, device, x + "_" + y, z);
  }

  // ---- Device sets hold nothing stale ----

  /** The links, agents and apps of each device are ones that are there and are its own. */
  predicate NothingStale(s: Store) {
    OwnLinks(s.devices, s.links) && OwnAgents(s.devices, s.agents) && OwnApps(s.devices, s.apps)
  }

  predicate OwnLinks(devices: map<string, Device>, links: map<string, Link>) {
    forall d, id :: d in devices && id in devices[d].links ==> id in links && links[id].deviceId == d
  }

  predicate OwnAgents(devices: map<string, Device>, agents: map<string, ConnectionState>) {
    forall d, id :: d in devices && id in devices[d].agents ==> id in agents && agents[id].deviceId == d
  }

  predicate OwnApps(devices: map<string, Device>, apps: map<string, ConnectionState>) {
    forall d, id :: d in devices && id in devices[d].apps ==> id in apps && apps[id].deviceId == d
  }

  /** An app and its link belong to the same device. */
  predicate SameDevice(s: Store) {
    forall app :: app in s.apps && app in s.linkByApp && s.linkByApp[app] in s.links ==>
      s.links[s.linkByApp[app]].deviceId == s.apps[app].deviceId
  }

  /** The step uses the device that the store already has for the connection and for its link. */
  predicate StableDevice(s: Store, step: Step) {
    match step
    case AgentRegistered(c) => c.deviceId == "" || c.id !in s.agents || s.agents[c.id].deviceId == c.deviceId
    case AppRegistered(c) => c.deviceId == "" || StableApp(s, c.id, c.deviceId)
    case AppAuthenticated(c, primary) => c.deviceId == "" || StableApp(s, c.id, c.deviceId)
    case LinkUpdated(device, agent, app) => StableApp(s, app, device)
    case _ => true
  }

  predicate StableApp(s: Store, app: string, device: string) {
    && (app in s.apps ==> s.apps[app].deviceId == device)
    && (app in s.linkByApp && s.linkByApp[app] in s.links ==> s.links[s.linkByApp[app]].deviceId == device)
  }

  predicate Tidy(s: Store) {
    NothingStale(s) && SameDevice(s) && Inverse(s)
  }

  lemma AgentAdded(devices: map<string, Device>, agents: map<string, ConnectionState>, device: string, d: Device,
                   id: string, agent: ConnectionState)
    requires OwnAgents(devices, agents) && agent.deviceId == device && (id in agents ==> agents[id].deviceId == device)
    requires d.agents == (if device in devices then devices[device].agents else {}) + {id}
    ensures OwnAgents(devices[device := d], agents[id := agent])
  {
  }

  lemma AppAdded(devices: map<string, Device>, apps: map<string, ConnectionState>, device: string, d: Device,
                 id: string, app: ConnectionState)
    requires OwnApps(devices, apps) && app.deviceId == device && (id in apps ==> apps[id].deviceId == device)
    requires d.apps == (if device in devices then devices[device].apps else {}) + {id}
    ensures OwnApps(devices[device := d], apps[id := app])
  {
  }

  lemma RegisteringAgentTidy(s: Store, c: Connection)
    requires Tidy(s) && StableDevice(s, AgentRegistered(c))
    ensures Tidy(RegisterAgent(s, c))
  {
    if c.deviceId == "" {
      // no device: nothing changes
    } else {
      var known := DeviceOf(s, c.deviceId);
      var d := known.(agents := known.agents + {c.id});
      var agent := ConnectionState(c.deviceId, NO_TRAFFIC);
      AgentAdded(s.devices, s.agents, c.deviceId, d, c.id, agent);
      SameMembers(s.devices, c.deviceId, d, s);
      assert RegisterAgent(s, c) == s.(devices := s.devices[c.deviceId := d], agents := s.agents[c.id := agent]);
    }
  }

  lemma RegisteringAppTidy(s: Store, c: Connection)
    requires Tidy(s) && (c.deviceId == "" || StableApp(s, c.id, c.deviceId))
    ensures Tidy(RegisterApp(s, c))
  {
    if c.deviceId == "" {
      // no device: nothing changes
    } else {
      var known := DeviceOf(s, c.deviceId);
      var d := known.(apps := known.apps + {c.id});
      var app := ConnectionState(c.deviceId, NO_TRAFFIC);
      AppAdded(s.devices, s.apps, c.deviceId, d, c.id, app);
      SameMembers(s.devices, c.deviceId, d, s);
      assert RegisterApp(s, c) == s.(devices := s.devices[c.deviceId := d], apps := s.apps[c.id := app]);
    }
  }

  lemma LinkAdded(devices: map<string, Device>, links: map<string, Link>, device: string, d: Device, id: string, link: Link)
    requires OwnLinks(devices, links) && link.deviceId == device && (id in links ==> links[id].deviceId == device)
    requires d.links == (if device in devices then devices[device].links else {}) + {id}
    ensures OwnLinks(devices[device := d], links[id := link])
  {
  }

  lemma SameMembers(devices: map<string, Device>, device: string, d: Device, s: Store)
    ensures d.agents == (if device in devices then devices[device].agents else {}) && OwnAgents(devices, s.agents) ==>
              OwnAgents(devices[device := d], s.agents)
    ensures d.apps == (if device in devices then devices[device].apps else {}) && OwnApps(devices, s.apps) ==>
              OwnApps(devices[device := d], s.apps)
    ensures d.links == (if device in devices then devices[device].links else {}) && OwnLinks(devices, s.links) ==>
              OwnLinks(devices[device := d], s.links)
  {
  }

  lemma LinkingTidy(s: Store, device: string, agent: string, app: string)
    requires Tidy(s) && StableApp(s, app, device) && !Clash(s, device, agent, app)
    ensures Tidy(CreateOrUpdateLink(s, device, agent, app))
  {
    UpdateKeepsInverseExactly(s, device, agent, app);
    var r := CreateOrUpdateLink(s, device, agent, app);
    var id := LinkIdFor(s, device, agent, app);
    var d := DeviceOf(s, device).(links := DeviceOf(s, device).links + {id});
    LinkAdded(s.devices, s.links, device, d, id, r.links[id]);
    SameMembers(s.devices, device, d, s);
    assert r == s.(devices := s.devices[device := d], links := s.links[id := r.links[id]], linkByApp := s.linkByApp[app := id]);
  }

  lemma RefreshTidy(s: Store, device: string)
    requires Tidy(s)
    ensures Tidy(Refresh(s, device))
  {
    if Refresh(s, device) == s {
      // the device stays
    } else {
      // an empty device goes
    }
  }

  lemma ClosingAgentTidy(s: Store, id: string)
    requires Tidy(s)
    ensures Tidy(CloseAgent(s, id))
  {
    if id in s.agents {
      var device := s.agents[id].deviceId;
      WithoutAgentTidy(s, id, device);
      RefreshTidy(WithoutAgent(s, id, device), device);
    } else {
      // not an agent: nothing changes
    }
  }

  /** A device that gives up members stays without stale ones. */
  lemma FewerMembers(devices: map<string, Device>, device: string, d: Device, s: Store)
    requires device in devices && d.links <= devices[device].links
    requires d.agents <= devices[device].agents && d.apps <= devices[device].apps
    ensures OwnLinks(devices, s.links) ==> OwnLinks(devices[device := d], s.links)
    ensures OwnAgents(devices, s.agents) ==> OwnAgents(devices[device := d], s.agents)
    ensures OwnApps(devices, s.apps) ==> OwnApps(devices[device := d], s.apps)
  {
  }

  lemma AgentGone(devices: map<string, Device>, agents: map<string, ConnectionState>, id: string, device: string)
    requires OwnAgents(devices, agents) && id in agents && agents[id].deviceId == device
    requires device in devices ==> id !in devices[device].agents
    ensures OwnAgents(devices, agents - {id})
  {
  }

  lemma AppGone(devices: map<string, Device>, apps: map<string, ConnectionState>, id: string, device: string)
    requires OwnApps(devices, apps) && id in apps && apps[id].deviceId == device
    requires device in devices ==> id !in devices[device].apps
    ensures OwnApps(devices, apps - {id})
  {
  }

  lemma LinkGone(devices: map<string, Device>, links: map<string, Link>, id: string, device: string)
    requires OwnLinks(devices, links) && id in links && links[id].deviceId == device
    requires device in devices ==> id !in devices[device].links
    ensures OwnLinks(devices, links - {id})
  {
  }

  lemma WithoutAgentTidy(s: Store, id: string, device: string)
    requires Tidy(s) && id in s.agents && s.agents[id].deviceId == device
    ensures Tidy(WithoutAgent(s, id, device))
  {
    if device in s.devices {
      var d := s.devices[device].(agents := s.devices[device].agents - {id});
      FewerMembers(s.devices, device, d, s);
      AgentGone(s.devices[device := d], s.agents, id, device);
      assert WithoutAgent(s, id, device) == s.(devices := s.devices[device := d], agents := s.agents - {id});
    } else {
      AgentGone(s.devices, s.agents, id, device);
      assert WithoutAgent(s, id, device) == s.(agents := s.agents - {id});
    }
  }

  lemma WithoutAppTidy(s: Store, id: string, device: string)
    requires Tidy(s) && id in s.apps && s.apps[id].deviceId == device
    ensures Tidy(WithoutApp(s, id, device))
    ensures id in s.linkByApp ==> s.links[s.linkByApp[id]].deviceId == device
  {
    if device in s.devices {
      var d := s.devices[device].(apps := s.devices[device].apps - {id});
      FewerMembers(s.devices, device, d, s);
      AppGone(s.devices[device := d], s.apps, id, device);
      assert WithoutApp(s, id, device) == s.(devices := s.devices[device := d], apps := s.apps - {id});
    } else {
      AppGone(s.devices, s.apps, id, device);
      assert WithoutApp(s, id, device) == s.(apps := s.apps - {id});
    }
  }

  lemma DroppingTidy(s: Store, app: string, device: string)
    requires Tidy(s) && (app in s.linkByApp ==> s.links[s.linkByApp[app]].deviceId == device)
    ensures Tidy(DropLink(s, app, device))
  {
    DroppingKeepsInverse(s, app, device);
    if app in s.linkByApp {
      var id := s.linkByApp[app];
      if device in s.devices {
        var d := s.devices[device].(links := s.devices[device].links - {id});
        FewerMembers(s.devices, device, d, s);
        LinkGone(s.devices[device := d], s.links, id, device);
        assert DropLink(s, app, device) ==
               s.(devices := s.devices[device := d], links := s.links - {id}, linkByApp := s.linkByApp - {app});
      } else {
        LinkGone(s.devices, s.links, id, device);
        assert DropLink(s, app, device) == s.(links := s.links - {id}, linkByApp := s.linkByApp - {app});
      }
    } else {
      // no link: nothing changes
    }
  }

  lemma ClosingAppTidy(s: Store, id: string)
    requires Tidy(s)
    ensures Tidy(CloseApp(s, id))
  {
    if id in s.apps {
      var device := s.apps[id].deviceId;
      var u := WithoutApp(s, id, device);
      WithoutAppTidy(s, id, device);
      WithoutKeepsLinks(s, id, device);
      DroppingTidy(u, id, device);
      RefreshTidy(DropLink(u, id, device), device);
    } else {
      // not an app: nothing changes
    }
  }

  lemma IndexesKeepTidy(s: Store, r: Store)
    requires Tidy(s) && SameIndexes(s, r)
    ensures Tidy(r)
  {
    forall d, id | d in r.devices && id in r.devices[d].links
      ensures id in r.links && r.links[id].deviceId == d
    {
      assert DeviceOf(r, d).links == DeviceOf(s, d).links;
    }
    forall d, id | d in r.devices && id in r.devices[d].agents
      ensures id in r.agents && r.agents[id].deviceId == d
    {
      assert DeviceOf(r, d).agents == DeviceOf(s, d).agents;
    }
    forall d, id | d in r.devices && id in r.devices[d].apps
      ensures id in r.apps && r.apps[id].deviceId == d
    {
      assert DeviceOf(r, d).apps == DeviceOf(s, d).apps;
    }
  }

  lemma AuthenticatingTidy(s: Store, c: Connection, primary: Option<string>)
    requires Tidy(s) && StableDevice(s, AppAuthenticated(c, primary)) && !Clashes(s, AppAuthenticated(c, primary))
    ensures Tidy(AuthenticateApp(s, c, primary))
  {
    RegisteringAppTidy(s, c);
    RegisteringKeepsLinks(s, c);
    if c.deviceId != "" && primary.Some? && primary.value != "" {
      LinkingTidy(RegisterApp(s, c), c.deviceId, primary.value, c.id);
    } else {
      // registered only
    }
  }

  lemma StepTidy(s: Store, step: Step)
    requires Tidy(s) && StableDevice(s, step) && !Clashes(s, step)
    ensures Tidy(Apply(s, step))
  {
    match step
    case AgentRegistered(c) => RegisteringAgentTidy(s, c);
    case AppRegistered(c) => RegisteringAppTidy(s, c);
    case AppAuthenticated(c, primary) => AuthenticatingTidy(s, c, primary);
    case LinkUpdated(device, agent, app) => LinkingTidy(s, device, agent, app);
    case Closed(id) =>
      ClosingAgentTidy(s, id);
      ClosingAppTidy(CloseAgent(s, id), id);
    case Traffic(c, direction, kind, app, bytes) =>
      TrafficKeepsIndexes(s, c, direction, kind, app, bytes);
      IndexesKeepTidy(s, Apply(s, step));
    case Flushed =>
  }

  predicate Stable(hasStatusStore: bool, steps: seq<Step>) {
    steps == []
    || (Stable(hasStatusStore, steps[..|steps| - 1])
        && StableDevice(Run(hasStatusStore, steps[..|steps| - 1]), steps[|steps| - 1]))
  }

  lemma {:induction false} ClashFreeIndexesAgree(hasStatusStore: bool, steps: seq<Step>)
    requires ClashFree(hasStatusStore, steps) && Stable(hasStatusStore, steps)
    ensures Tidy(Run(hasStatusStore, steps))
  {
    if steps != [] {
      ClashFreeIndexesAgree(hasStatusStore, steps[..|steps| - 1]);
      StepTidy(Run(hasStatusStore, steps[..|steps| - 1]), steps[|steps| - 1]);
    }
  }

  /** In every run with stable devices whose app connection ids have one length,
      as the relay's do, all indexes agree: `links` and `linkByApp` are inverse,
      and the sets of each device hold exactly its links, agents and apps. */
  lemma IndexesAgree(hasStatusStore: bool, steps: seq<Step>, n: nat)
    requires (forall i :: 0 <= i < |steps| ==> LinksAppOfLength(steps[i], n)) && Stable(hasStatusStore, steps)
    ensures Tidy(Run(hasStatusStore, steps)) && KnownToDevices(Run(hasStatusStore, steps))
  {
    AlwaysKnownToDevices(hasStatusStore, steps);
    EqualLengthsStayInverse(hasStatusStore, steps, n);
    ClashFreeIndexesAgree(hasStatusStore, steps);
  }
}

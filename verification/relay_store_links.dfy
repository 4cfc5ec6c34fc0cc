// The two directional counters of a link count what came in from each of its ends.
module RelayStoreLinks {
  import opened Options
  import opened RelayStoreSpec

  /** The app whose link a message of this connection travels on, if it names one. */
  function AppOf(c: Connection, named: string): (app: Option<string>) {
    if c.role.MobileRole? then Some(c.id)
    else if c.role.AgentRole? && named != "" then Some(named)
    else None
  }

  /** The bytes that the step brings in from the given end over the link with this id. */
  function BytesFrom(linkByApp: map<string, string>, step: Step, id: string, end: Role): (n: nat) {
    if step.Traffic? && step.direction.In? && step.c.role == end && AppOf(step.c, step.appConnectionId).Some?
       && AppOf(step.c, step.appConnectionId).value in linkByApp
       && linkByApp[AppOf(step.c, step.appConnectionId).value] == id
    then step.bytes
    else 0
  }

  /** The same for a run, from the step on that created the link as it stands. */
  function ReceivedFrom(hasStatusStore: bool, steps: seq<Step>, id: string, end: Role): (n: nat) {
    if steps == [] then 0
    else
      var before, step := steps[..|steps| - 1], steps[|steps| - 1];
      var s := Run(hasStatusStore, before);
      if id !in s.links then 0
      else ReceivedFrom(hasStatusStore, before, id, end) + BytesFrom(s.linkByApp, step, id, end)
  }

  // ---- Steps ----

  /** The link is there afterwards: it is new and has counted nothing, or its counters grew by this much. */
  predicate Grew(before: map<string, Link>, after: map<string, Link>, id: string, fromApp: nat, fromAgent: nat) {
    id in after ==>
      if id in before
      then after[id].appToAgentBytes == before[id].appToAgentBytes + fromApp
           && after[id].agentToAppBytes == before[id].agentToAppBytes + fromAgent
      else after[id].appToAgentBytes == 0 && after[id].agentToAppBytes == 0
  }

  predicate SameLinks(s: Store, r: Store) {
    r.links == s.links && r.linkByApp == s.linkByApp
  }

  lemma LinkingGrows(s: Store, device: string, agent: string, app: string, id: string)
    ensures Grew(s.links, CreateOrUpdateLink(s, device, agent, app).links, id, 0, 0)
  {
  }

  lemma RefreshKeepsLinks(s: Store, device: string)
    ensures SameLinks(s, Refresh(s, device))
  {
  }

  lemma ClosingAgentKeepsLinks(s: Store, closed: string)
    ensures SameLinks(s, CloseAgent(s, closed))
  {
    if closed in s.agents {
      var device := s.agents[closed].deviceId;
      RefreshKeepsLinks(WithoutAgent(s, closed, device), device);
    }
  }

  lemma DroppingGrows(s: Store, app: string, device: string, id: string)
    ensures Grew(s.links, DropLink(s, app, device).links, id, 0, 0)
  {
  }

  lemma ClosingAppGrows(s: Store, closed: string, id: string)
    ensures Grew(s.links, CloseApp(s, closed).links, id, 0, 0)
  {
    if closed in s.apps {
      var device := s.apps[closed].deviceId;
      var t := WithoutApp(s, closed, device);
      DroppingGrows(t, closed, device, id);
      RefreshKeepsLinks(DropLink(t, closed, device), device);
    }
  }

  lemma CountingDeviceKeepsLinks(s: Store, device: string, direction: Direction, kind: string, bytes: nat)
    ensures SameLinks(s, CountOnDevice(s, device, direction, kind, bytes))
  {
    var r := CountOnDevice(s, device, direction, kind, bytes);
    if device != "" {
      assert r == s.(devices := r.devices, pending := r.pending);
    } else {
      assert r == s;
    }
  }

  lemma CountingConnectionKeepsLinks(s: Store, c: Connection, direction: Direction, kind: string, bytes: nat)
    ensures SameLinks(s, CountOnConnection(s, c, direction, kind, bytes))
  {
    var r := CountOnConnection(s, c, direction, kind, bytes);
    if c.role.AgentRole? {
      assert r == s.(agents := r.agents);
    } else if c.role.MobileRole? {
      assert r == s.(apps := r.apps);
    } else {
      assert r == s;
    }
  }

  lemma CountedLinkGrows(link: Link, c: Connection, direction: Direction, kind: string, bytes: nat)
    ensures var r := CountedLink(link, c, direction, kind, bytes);
            && r.appToAgentBytes == link.appToAgentBytes + (if direction.In? && c.role.MobileRole? then bytes else 0)
            && r.agentToAppBytes == link.agentToAppBytes + (if direction.In? && c.role.AgentRole? then bytes else 0)
  {
  }

  lemma BytesGoOverLink(s: Store, c: Connection, direction: Direction, kind: string, named: string, bytes: nat, id: string, end: Role)
    ensures BytesFrom(s.linkByApp, Traffic(c, direction, kind, named, bytes), id, end)
            == if LinkForTraffic(s, c, named) == Some(id) && direction.In? && c.role == end then bytes else 0
  {
  }

  lemma CountingLinkGrows(s: Store, over: Option<string>, c: Connection, direction: Direction, kind: string, bytes: nat, id: string)
    ensures var n := if over == Some(id) && direction.In? then bytes else 0;
            Grew(s.links, CountOnLink(s, over, c, direction, kind, bytes).links, id,
                 if c.role.MobileRole? then n else 0, if c.role.AgentRole? then n else 0)
  {
    if over.Some? && over.value in s.links {
      CountedLinkGrows(s.links[over.value], c, direction, kind, bytes);
    } else {
      assert CountOnLink(s, over, c, direction, kind, bytes) == s;
    }
  }

  lemma TrafficGrows(s: Store, c: Connection, direction: Direction, kind: string, named: string, bytes: nat, id: string)
    ensures var step := Traffic(c, direction, kind, named, bytes);
            Grew(s.links, RecordTraffic(s, c, direction, kind, named, bytes).links, id,
                 BytesFrom(s.linkByApp, step, id, MobileRole), BytesFrom(s.linkByApp, step, id, AgentRole))
  {
    var counted := s.(counters := Increment(s.counters, direction, kind, bytes));
    CountingDeviceKeepsLinks(counted, c.deviceId, direction, kind, bytes);
    var t := CountOnDevice(counted, c.deviceId, direction, kind, bytes);
    CountingConnectionKeepsLinks(t, c, direction, kind, bytes);
    var u := CountOnConnection(t, c, direction, kind, bytes);
    CountingLinkGrows(u, LinkForTraffic(u, c, named), c, direction, kind, bytes, id);
    BytesGoOverLink(u, c, direction, kind, named, bytes, id, MobileRole);
    BytesGoOverLink(u, c, direction, kind, named, bytes, id, AgentRole);
  }

  lemma StepGrows(s: Store, step: Step, id: string)
    ensures Grew(s.links, Apply(s, step).links, id,
                 BytesFrom(s.linkByApp, step, id, MobileRole), BytesFrom(s.linkByApp, step, id, AgentRole))
  {
    match step {
      case Traffic(c, direction, kind, named, bytes) =>
        TrafficGrows(s, c, direction, kind, named, bytes, id);
        assert Apply(s, step) == RecordTraffic(s, c, direction, kind, named, bytes);
      case _ =>
        QuietStepGrows(s, step, id);
        assert BytesFrom(s.linkByApp, step, id, MobileRole) == 0 && BytesFrom(s.linkByApp, step, id, AgentRole) == 0;
    }
  }

  lemma RegisteringAgentKeepsLinks(s: Store, c: Connection)
    ensures SameLinks(s, RegisterAgent(s, c))
  {
    var r := RegisterAgent(s, c);
    if c.deviceId == "" {
      assert r == s;
    } else {
      assert r == s.(devices := r.devices, agents := r.agents);
    }
  }

  lemma RegisteringAppKeepsLinks(s: Store, c: Connection)
    ensures SameLinks(s, RegisterApp(s, c))
  {
    var r := RegisterApp(s, c);
    if c.deviceId == "" {
      assert r == s;
    } else {
      assert r == s.(devices := r.devices, apps := r.apps);
    }
  }

  lemma QuietStepGrows(s: Store, step: Step, id: string)
    requires !step.Traffic?
    ensures Grew(s.links, Apply(s, step).links, id, 0, 0)
  {
    var r := Apply(s, step);
    match step {
      case AgentRegistered(c) =>
        RegisteringAgentKeepsLinks(s, c);
        assert r == RegisterAgent(s, c);
      case AppRegistered(c) =>
        RegisteringAppKeepsLinks(s, c);
        assert r == RegisterApp(s, c);
      case AppAuthenticated(c, primary) =>
        AuthenticatingGrows(s, c, primary, id);
        assert r == AuthenticateApp(s, c, primary);
      case LinkUpdated(device, agent, app) =>
        LinkingGrows(s, device, agent, app, id);
        assert r == CreateOrUpdateLink(s, device, agent, app);
      case Closed(closed) =>
        ClosingAgentKeepsLinks(s, closed);
        ClosingAppGrows(CloseAgent(s, closed), closed, id);
        assert r == CloseConnection(s, closed);
      case Flushed =>
        assert r == Flush(s) && r.links == s.links;
    }
  }

  lemma AuthenticatingGrows(s: Store, c: Connection, agent: Option<string>, id: string)
    ensures Grew(s.links, AuthenticateApp(s, c, agent).links, id, 0, 0)
  {
    RegisteringAppKeepsLinks(s, c);
    if agent.Some? {
      LinkingGrows(RegisterApp(s, c), c.deviceId, agent.value, c.id, id);
    }
  }

  /** In every run each directional counter of a link is the number of bytes
      that came in from that end over the link since it was created. */
  lemma {:induction false} DirectionsCountTheirEnds(hasStatusStore: bool, steps: seq<Step>, id: string)
    ensures var links := Run(hasStatusStore, steps).links;
            id in links ==>
              links[id].appToAgentBytes == ReceivedFrom(hasStatusStore, steps, id, MobileRole)
              && links[id].agentToAppBytes == ReceivedFrom(hasStatusStore, steps, id, AgentRole)
  {
    if steps != [] {
      DirectionsCountTheirEnds(hasStatusStore, steps[..|steps| - 1], id);
      StepGrows(Run(hasStatusStore, steps[..|steps| - 1]), steps[|steps| - 1], id);
    }
  }
}

// The counters of the relay's bookkeeping add up.
module RelayStoreCounters {
  import opened Options
  import opened RelayStoreSpec

  // ---- Sums over types ----

  ghost function Sum(m: map<string, nat>): (n: nat) {
    if m == map[] then 0 else var k :| k in m; m[k] + Sum(m - {k})
  }

  lemma {:induction false} SumWithout(m: map<string, nat>, k: string)
    requires k in m
    ensures Sum(m) == m[k] + Sum(m - {k})
    decreases |m|
  {
    var j :| j in m && Sum(m) == m[j] + Sum(m - {j});
    if j != k {
      SumWithout(m - {j}, k);
      SumWithout(m - {k}, j);
      assert m - {j} - {k} == m - {k} - {j};
    }
  }

  lemma SumCounts(m: map<string, nat>, k: string)
    ensures Sum(m[k := CountOf(m, k) + 1]) == Sum(m) + 1
  {
    var n := m[k := CountOf(m, k) + 1];
    SumWithout(n, k);
    if k in m {
      SumWithout(m, k);
      assert n - {k} == m - {k};
    } else {
      assert n - {k} == m;
    }
  }

  // ---- Counters ----

  ghost predicate TypesSum(c: Counters) {
    Sum(c.inByType) == c.messagesIn && Sum(c.outByType) == c.messagesOut
  }

  lemma IncrementKeepsTypes(c: Counters, direction: Direction, kind: string, bytes: nat)
    requires TypesSum(c)
    ensures TypesSum(Increment(c, direction, kind, bytes))
  {
    SumCounts(c.inByType, kind);
    SumCounts(c.outByType, kind);
  }

  /** The bytes that came in over a link came from one of its two ends. */
  predicate DirectionsSum(l: Link) {
    l.counters.bytesIn == l.appToAgentBytes + l.agentToAppBytes
  }

  ghost predicate DevicesAgree(devices: map<string, Device>) {
    forall d :: d in devices ==> TypesSum(devices[d].counters)
  }

  ghost predicate ConnectionsAgree(connections: map<string, ConnectionState>) {
    forall id :: id in connections ==> TypesSum(connections[id].counters)
  }

  ghost predicate LinksAgree(links: map<string, Link>) {
    forall id :: id in links ==> TypesSum(links[id].counters) && DirectionsSum(links[id])
  }

  ghost predicate CountersAgree(s: Store) {
    && TypesSum(s.counters) && DevicesAgree(s.devices)
    && ConnectionsAgree(s.agents) && ConnectionsAgree(s.apps) && LinksAgree(s.links)
  }

  lemma NothingSums()
    ensures TypesSum(NO_TRAFFIC)
  {
  }

  lemma RegisteringAgentAgrees(s: Store, c: Connection)
    requires CountersAgree(s)
    ensures CountersAgree(RegisterAgent(s, c))
  {
    NothingSums();
  }

  lemma RegisteringAppAgrees(s: Store, c: Connection)
    requires CountersAgree(s)
    ensures CountersAgree(RegisterApp(s, c))
  {
    NothingSums();
  }

  lemma LinkingAgrees(s: Store, device: string, agent: string, app: string)
    requires CountersAgree(s)
    ensures CountersAgree(CreateOrUpdateLink(s, device, agent, app))
  {
    NothingSums();
    var r := CreateOrUpdateLink(s, device, agent, app);
    assert r.counters == s.counters && r.agents == s.agents && r.apps == s.apps;
    assert DevicesAgree(r.devices);
    assert LinksAgree(r.links);
  }

  lemma RefreshAgrees(s: Store, device: string)
    requires CountersAgree(s)
    ensures CountersAgree(Refresh(s, device))
  {
  }

  lemma WithoutAgentAgrees(s: Store, id: string, device: string)
    requires CountersAgree(s)
    ensures CountersAgree(WithoutAgent(s, id, device))
  {
  }

  lemma ClosingAgentAgrees(s: Store, id: string)
    requires CountersAgree(s)
    ensures CountersAgree(CloseAgent(s, id))
  {
    if id in s.agents {
      var device := s.agents[id].deviceId;
      WithoutAgentAgrees(s, id, device);
      RefreshAgrees(WithoutAgent(s, id, device), device);
    }
  }

  lemma DroppingAgrees(s: Store, app: string, device: string)
    requires CountersAgree(s)
    ensures CountersAgree(DropLink(s, app, device))
  {
  }

  lemma ClosingAppAgrees(s: Store, id: string)
    requires CountersAgree(s)
    ensures CountersAgree(CloseApp(s, id))
  {
    if id in s.apps {
      var device := s.apps[id].deviceId;
      var u := WithoutApp(s, id, device);
      DroppingAgrees(u, id, device);
      RefreshAgrees(DropLink(u, id, device), device);
    }
  }

  lemma CountingDeviceAgrees(s: Store, device: string, direction: Direction, kind: string, bytes: nat)
    requires CountersAgree(s)
    ensures CountersAgree(CountOnDevice(s, device, direction, kind, bytes))
  {
    var r := CountOnDevice(s, device, direction, kind, bytes);
    if device == "" {
      assert r == s;
    } else {
      var d := DeviceOf(s, device);
      IncrementKeepsTypes(d.counters, direction, kind, bytes);
      var counted := d.(counters := Increment(d.counters, direction, kind, bytes));
      assert r == s.(devices := s.devices[device := counted], pending := r.pending);
    }
  }

  lemma CountingConnectionAgrees(s: Store, c: Connection, direction: Direction, kind: string, bytes: nat)
    requires CountersAgree(s)
    ensures CountersAgree(CountOnConnection(s, c, direction, kind, bytes))
  {
    if c.role.AgentRole? && c.id in s.agents {
      IncrementKeepsTypes(s.agents[c.id].counters, direction, kind, bytes);
    } else if c.role.MobileRole? && c.id in s.apps {
      IncrementKeepsTypes(s.apps[c.id].counters, direction, kind, bytes);
    }
  }

  lemma CountedLinkAgrees(link: Link, c: Connection, direction: Direction, kind: string, bytes: nat)
    requires TypesSum(link.counters) && DirectionsSum(link) && !c.role.OtherRole?
    ensures var r := CountedLink(link, c, direction, kind, bytes); TypesSum(r.counters) && DirectionsSum(r)
  {
    IncrementKeepsTypes(link.counters, direction, kind, bytes);
  }

  lemma CountingLinkAgrees(s: Store, id: Option<string>, c: Connection, direction: Direction, kind: string, bytes: nat)
    requires CountersAgree(s) && (id.Some? ==> !c.role.OtherRole?)
    ensures CountersAgree(CountOnLink(s, id, c, direction, kind, bytes))
  {
    if id.Some? && id.value in s.links {
      CountedLinkAgrees(s.links[id.value], c, direction, kind, bytes);
      assert LinksAgree(s.links[id.value := CountedLink(s.links[id.value], c, direction, kind, bytes)]);
    } else {
      // an unknown link: nothing is counted
    }
  }

  lemma TrafficAgrees(s: Store, c: Connection, direction: Direction, kind: string, app: string, bytes: nat)
    requires CountersAgree(s)
    ensures CountersAgree(RecordTraffic(s, c, direction, kind, app, bytes))
  {
    IncrementKeepsTypes(s.counters, direction, kind, bytes);
    var counted := s.(counters := Increment(s.counters, direction, kind, bytes));
    CountingDeviceAgrees(counted, c.deviceId, direction, kind, bytes);
    var t := CountOnDevice(counted, c.deviceId, direction, kind, bytes);
    CountingConnectionAgrees(t, c, direction, kind, bytes);
    var u := CountOnConnection(t, c, direction, kind, bytes);
    CountingLinkAgrees(u, LinkForTraffic(u, c, app), c, direction, kind, bytes);
  }

  lemma StepAgrees(s: Store, step: Step)
    requires CountersAgree(s)
    ensures CountersAgree(Apply(s, step))
  {
    match step
    case AgentRegistered(c) => RegisteringAgentAgrees(s, c);
    case AppRegistered(c) => RegisteringAppAgrees(s, c);
    case AppAuthenticated(c, primary) =>
      RegisteringAppAgrees(s, c);
      if primary.Some? {
        LinkingAgrees(RegisterApp(s, c), c.deviceId, primary.value, c.id);
      }
    case LinkUpdated(device, agent, app) => LinkingAgrees(s, device, agent, app);
    case Closed(id) =>
      ClosingAgentAgrees(s, id);
      ClosingAppAgrees(CloseAgent(s, id), id);
    case Traffic(c, direction, kind, app, bytes) => TrafficAgrees(s, c, direction, kind, app, bytes);
    case Flushed =>
  }

  /** In every run and for every counter record, the counts by type add up to the
      message totals, and the incoming bytes of each link to those of its two directions. */
  lemma {:induction false} CountersAlwaysAgree(hasStatusStore: bool, steps: seq<Step>)
    ensures CountersAgree(Run(hasStatusStore, steps))
  {
    if steps != [] {
      CountersAlwaysAgree(hasStatusStore, steps[..|steps| - 1]);
      StepAgrees(Run(hasStatusStore, steps[..|steps| - 1]), steps[|steps| - 1]);
    }
  }
}

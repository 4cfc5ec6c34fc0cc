// Every counter record of the relay's bookkeeping is the tally of the traffic
// recorded for it since it came to be.
module RelayStoreTallies {
  import opened Options
  import opened RelayStoreSpec
  import opened RelayStoreLinks

  /** The five kinds of counter records. */
  datatype Record = OfStore | OfDevice(id: string) | OfAgent(id: string) | OfApp(id: string) | OfLink(id: string)

  predicate Exists(s: Store, r: Record) {
    match r
    case OfStore => true
    case OfDevice(id) => id in s.devices
    case OfAgent(id) => id in s.agents
    case OfApp(id) => id in s.apps
    case OfLink(id) => id in s.links
  }

  function CountersOf(s: Store, r: Record): (c: Counters)
    requires Exists(s, r)
  {
    match r
    case OfStore => s.counters
    case OfDevice(id) => s.devices[id].counters
    case OfAgent(id) => s.agents[id].counters
    case OfApp(id) => s.apps[id].counters
    case OfLink(id) => s.links[id].counters
  }

  // ---- The traffic of a record ----

  /** Registering a connection again starts its record anew. */
  predicate Renews(step: Step, r: Record) {
    match step
    case AgentRegistered(c) => r == OfAgent(c.id) && c.deviceId != ""
    case AppRegistered(c) => r == OfApp(c.id) && c.deviceId != ""
    case AppAuthenticated(c, _) => r == OfApp(c.id) && c.deviceId != ""
    case _ => false
  }

  /** The step is traffic that the record counts: a device is made up when it
      is not there, an unknown connection or link counts nothing. */
  predicate Concerns(s: Store, step: Step, r: Record) {
    step.Traffic? &&
    match r
    case OfStore => true
    case OfDevice(id) => step.c.deviceId == id && id != ""
    case OfAgent(id) => step.c.role.AgentRole? && step.c.id == id && id in s.agents
    case OfApp(id) => step.c.role.MobileRole? && step.c.id == id && id in s.apps
    case OfLink(id) => id in s.links && OverLink(s.linkByApp, step.c, step.appConnectionId, id)
  }

  predicate OverLink(linkByApp: map<string, string>, c: Connection, named: string, id: string) {
    var app := AppOf(c, named);
    app.Some? && app.value in linkByApp && linkByApp[app.value] == id
  }

  /** The traffic of a run since the record came to be. */
  function TrafficOf(hasStatusStore: bool, steps: seq<Step>, r: Record): (traffic: seq<Step>)
    ensures forall step :: step in traffic ==> step.Traffic?
  {
    if steps == [] then []
    else
      var before, step := steps[..|steps| - 1], steps[|steps| - 1];
      var s := Run(hasStatusStore, before);
      (if Exists(s, r) && !Renews(step, r) then TrafficOf(hasStatusStore, before, r) else [])
      + (if Concerns(s, step, r) then [step] else [])
  }

  // ---- Tallies ----

  function Bytes(traffic: seq<Step>, direction: Direction): (n: nat) {
    if traffic == [] then 0
    else
      var last := traffic[|traffic| - 1];
      Bytes(traffic[..|traffic| - 1], direction) + (if last.Traffic? && last.direction == direction then last.bytes else 0)
  }

  function Messages(traffic: seq<Step>, direction: Direction): (n: nat) {
    if traffic == [] then 0
    else
      var last := traffic[|traffic| - 1];
      Messages(traffic[..|traffic| - 1], direction) + (if last.Traffic? && last.direction == direction then 1 else 0)
  }

  function OfType(traffic: seq<Step>, direction: Direction, kind: string): (n: nat) {
    if traffic == [] then 0
    else
      var last := traffic[|traffic| - 1];
      OfType(traffic[..|traffic| - 1], direction, kind)
      + (if last.Traffic? && last.direction == direction && last.kind == kind then 1 else 0)
  }

  ghost predicate Tallies(c: Counters, traffic: seq<Step>) {
    && c.bytesIn == Bytes(traffic, In) && c.bytesOut == Bytes(traffic, Out)
    && c.messagesIn == Messages(traffic, In) && c.messagesOut == Messages(traffic, Out)
    && (forall kind :: CountOf(c.inByType, kind) == OfType(traffic, In, kind))
    && (forall kind :: CountOf(c.outByType, kind) == OfType(traffic, Out, kind))
  }

  lemma NothingTallies()
    ensures Tallies(NO_TRAFFIC, [])
  {
  }

  lemma OneMoreTallies(c: Counters, traffic: seq<Step>, step: Step)
    requires Tallies(c, traffic) && step.Traffic?
    ensures Tallies(Increment(c, step.direction, step.kind, step.bytes), traffic + [step])
  {
    assert (traffic + [step])[..|traffic|] == traffic;
  }

  // ---- Steps ----

  /** What the record held before the step, as far as the step lets it be. */
  function Held(s: Store, step: Step, r: Record): (c: Counters) {
    if Exists(s, r) && !Renews(step, r) then CountersOf(s, r) else NO_TRAFFIC
  }

  /** From the one store to the other the step counts on the record, or leaves it as it was. */
  predicate Counts(s: Store, t: Store, step: Step, r: Record) {
    Exists(t, r) ==>
      CountersOf(t, r) ==
        if Concerns(s, step, r) then Increment(Held(s, step, r), step.direction, step.kind, step.bytes) else Held(s, step, r)
  }

  // ---- Traffic ----

  lemma DeviceShape(s: Store, device: string, direction: Direction, kind: string, bytes: nat)
    ensures var r := CountOnDevice(s, device, direction, kind, bytes);
            r == s.(devices := r.devices, pending := r.pending)
  {
    if device == "" {
      assert CountOnDevice(s, device, direction, kind, bytes) == s;
    } else {
      var r := CountOnDevice(s, device, direction, kind, bytes);
      assert r.flushed == s.flushed && r.counters == s.counters && r.hasStatusStore == s.hasStatusStore;
    }
  }

  lemma ConnectionShape(s: Store, c: Connection, direction: Direction, kind: string, bytes: nat)
    ensures var r := CountOnConnection(s, c, direction, kind, bytes);
            r == s.(agents := r.agents, apps := r.apps)
  {
    var r := CountOnConnection(s, c, direction, kind, bytes);
    if c.role.AgentRole? {
      assert r == s.(agents := r.agents);
    } else if c.role.MobileRole? {
      assert r == s.(apps := r.apps);
    } else {
      assert r == s;
    }
  }

  lemma LinkShape(s: Store, over: Option<string>, c: Connection, direction: Direction, kind: string, bytes: nat)
    ensures var r := CountOnLink(s, over, c, direction, kind, bytes);
            r == s.(links := r.links)
  {
    if over.Some? && over.value in s.links {
      assert CountOnLink(s, over, c, direction, kind, bytes).devices == s.devices;
    } else {
      assert CountOnLink(s, over, c, direction, kind, bytes) == s;
    }
  }

  lemma DeviceCounted(s: Store, device: string, direction: Direction, kind: string, bytes: nat, id: string)
    ensures var r := CountOnDevice(s, device, direction, kind, bytes);
            id in r.devices ==>
              r.devices[id].counters ==
                if id == device && id != "" then Increment(DeviceOf(s, id).counters, direction, kind, bytes)
                else DeviceOf(s, id).counters
  {
    if device == "" {
      assert CountOnDevice(s, device, direction, kind, bytes) == s;
    } else {
      var d := DeviceOf(s, device);
      assert CountOnDevice(s, device, direction, kind, bytes).devices
          == s.devices[device := d.(counters := Increment(d.counters, direction, kind, bytes))];
    }
  }

  lemma AgentCounted(s: Store, c: Connection, direction: Direction, kind: string, bytes: nat, id: string)
    ensures var r := CountOnConnection(s, c, direction, kind, bytes);
            id in r.agents ==>
              id in s.agents && r.agents[id].counters ==
                if c.role.AgentRole? && c.id == id then Increment(s.agents[id].counters, direction, kind, bytes)
                else s.agents[id].counters
  {
    var r := CountOnConnection(s, c, direction, kind, bytes);
    if c.role.AgentRole? && c.id in s.agents {
      assert r.agents == s.agents[c.id := s.agents[c.id].(counters := Increment(s.agents[c.id].counters, direction, kind, bytes))];
    } else {
      assert r.agents == s.agents;
    }
  }

  lemma AppCounted(s: Store, c: Connection, direction: Direction, kind: string, bytes: nat, id: string)
    ensures var r := CountOnConnection(s, c, direction, kind, bytes);
            id in r.apps ==>
              id in s.apps && r.apps[id].counters ==
                if c.role.MobileRole? && c.id == id then Increment(s.apps[id].counters, direction, kind, bytes)
                else s.apps[id].counters
  {
    var r := CountOnConnection(s, c, direction, kind, bytes);
    if c.role.MobileRole? && c.id in s.apps {
      assert r.apps == s.apps[c.id := s.apps[c.id].(counters := Increment(s.apps[c.id].counters, direction, kind, bytes))];
    } else {
      assert r.apps == s.apps;
    }
  }

  lemma LinkCounted(s: Store, over: Option<string>, c: Connection, direction: Direction, kind: string, bytes: nat, id: string)
    ensures var r := CountOnLink(s, over, c, direction, kind, bytes);
            id in r.links ==>
              id in s.links && r.links[id].counters ==
                if over == Some(id) then Increment(s.links[id].counters, direction, kind, bytes) else s.links[id].counters
  {
    var r := CountOnLink(s, over, c, direction, kind, bytes);
    if over.Some? && over.value in s.links {
      assert r.links == s.links[over.value := CountedLink(s.links[over.value], c, direction, kind, bytes)];
    } else {
      assert r.links == s.links;
    }
  }

  lemma GoesOverLink(s: Store, c: Connection, named: string, id: string)
    ensures LinkForTraffic(s, c, named) == Some(id) <==> OverLink(s.linkByApp, c, named, id)
  {
  }

  /** The store after each of the four countings of one message. */
  lemma TrafficStages(s: Store, c: Connection, direction: Direction, kind: string, named: string, bytes: nat)
    returns (onDevice: Store, onConnection: Store)
    ensures var r := RecordTraffic(s, c, direction, kind, named, bytes);
            var counted := s.(counters := Increment(s.counters, direction, kind, bytes));
            && onDevice == CountOnDevice(counted, c.deviceId, direction, kind, bytes)
            && onConnection == CountOnConnection(onDevice, c, direction, kind, bytes)
            && r == CountOnLink(onConnection, LinkForTraffic(onConnection, c, named), c, direction, kind, bytes)
            && onDevice == counted.(devices := onDevice.devices, pending := onDevice.pending)
            && onConnection == onDevice.(agents := onConnection.agents, apps := onConnection.apps)
            && r == onConnection.(links := r.links)
  {
    var counted := s.(counters := Increment(s.counters, direction, kind, bytes));
    onDevice := CountOnDevice(counted, c.deviceId, direction, kind, bytes);
    onConnection := CountOnConnection(onDevice, c, direction, kind, bytes);
    DeviceShape(counted, c.deviceId, direction, kind, bytes);
    ConnectionShape(onDevice, c, direction, kind, bytes);
    LinkShape(onConnection, LinkForTraffic(onConnection, c, named), c, direction, kind, bytes);
  }

  lemma DeviceTraffic(s: Store, c: Connection, direction: Direction, kind: string, named: string, bytes: nat, id: string)
    ensures Counts(s, RecordTraffic(s, c, direction, kind, named, bytes), Traffic(c, direction, kind, named, bytes), OfDevice(id))
  {
    var u, v := TrafficStages(s, c, direction, kind, named, bytes);
    var counted := s.(counters := Increment(s.counters, direction, kind, bytes));
    DeviceCounted(counted, c.deviceId, direction, kind, bytes, id);
    assert RecordTraffic(s, c, direction, kind, named, bytes).devices == u.devices;
    assert DeviceOf(counted, id) == DeviceOf(s, id);
  }

  lemma AgentTraffic(s: Store, c: Connection, direction: Direction, kind: string, named: string, bytes: nat, id: string)
    ensures Counts(s, RecordTraffic(s, c, direction, kind, named, bytes), Traffic(c, direction, kind, named, bytes), OfAgent(id))
  {
    var u, v := TrafficStages(s, c, direction, kind, named, bytes);
    assert u.agents == s.agents && RecordTraffic(s, c, direction, kind, named, bytes).agents == v.agents;
    AgentCounted(u, c, direction, kind, bytes, id);
  }

  lemma AppTraffic(s: Store, c: Connection, direction: Direction, kind: string, named: string, bytes: nat, id: string)
    ensures Counts(s, RecordTraffic(s, c, direction, kind, named, bytes), Traffic(c, direction, kind, named, bytes), OfApp(id))
  {
    var u, v := TrafficStages(s, c, direction, kind, named, bytes);
    assert u.apps == s.apps && RecordTraffic(s, c, direction, kind, named, bytes).apps == v.apps;
    AppCounted(u, c, direction, kind, bytes, id);
  }

  lemma LinkTraffic(s: Store, c: Connection, direction: Direction, kind: string, named: string, bytes: nat, id: string)
    ensures Counts(s, RecordTraffic(s, c, direction, kind, named, bytes), Traffic(c, direction, kind, named, bytes), OfLink(id))
  {
    var u, v := TrafficStages(s, c, direction, kind, named, bytes);
    assert v.links == s.links && v.linkByApp == s.linkByApp;
    GoesOverLink(v, c, named, id);
    LinkCounted(v, LinkForTraffic(v, c, named), c, direction, kind, bytes, id);
  }

  lemma TrafficCounts(s: Store, c: Connection, direction: Direction, kind: string, named: string, bytes: nat, r: Record)
    ensures Counts(s, RecordTraffic(s, c, direction, kind, named, bytes), Traffic(c, direction, kind, named, bytes), r)
  {
    match r {
      case OfStore =>
        var u, v := TrafficStages(s, c, direction, kind, named, bytes);
      case OfDevice(id) => DeviceTraffic(s, c, direction, kind, named, bytes, id);
      case OfAgent(id) => AgentTraffic(s, c, direction, kind, named, bytes, id);
      case OfApp(id) => AppTraffic(s, c, direction, kind, named, bytes, id);
      case OfLink(id) => LinkTraffic(s, c, direction, kind, named, bytes, id);
    }
  }

  // ---- The other steps ----

  /** The record is what it was, or new and empty. */
  predicate Stays(s: Store, t: Store, r: Record) {
    && (Exists(s, r) && Exists(t, r) ==> CountersOf(t, r) == CountersOf(s, r))
    && (!Exists(s, r) && Exists(t, r) ==> CountersOf(t, r) == NO_TRAFFIC)
  }

  /** No record is new. */
  predicate Shrinks(s: Store, t: Store, r: Record) {
    Exists(t, r) ==> Exists(s, r) && CountersOf(t, r) == CountersOf(s, r)
  }

  lemma RegisteringAgentStays(s: Store, c: Connection, r: Record)
    ensures var t := RegisterAgent(s, c);
            if c.deviceId != "" && r == OfAgent(c.id) then Exists(t, r) && CountersOf(t, r) == NO_TRAFFIC else Stays(s, t, r)
  {
    var t := RegisterAgent(s, c);
    if c.deviceId == "" {
      assert t == s;
    } else {
      assert t == s.(devices := t.devices, agents := s.agents[c.id := ConnectionState(c.deviceId, NO_TRAFFIC)]);
    }
  }

  lemma RegisteringAppStays(s: Store, c: Connection, r: Record)
    ensures var t := RegisterApp(s, c);
            && (Exists(s, r) ==> Exists(t, r))
            && if c.deviceId != "" && r == OfApp(c.id) then Exists(t, r) && CountersOf(t, r) == NO_TRAFFIC else Stays(s, t, r)
  {
    var t := RegisterApp(s, c);
    if c.deviceId == "" {
      assert t == s;
    } else {
      assert t == s.(devices := t.devices, apps := s.apps[c.id := ConnectionState(c.deviceId, NO_TRAFFIC)]);
    }
  }

  lemma LinkingStays(s: Store, device: string, agent: string, app: string, r: Record)
    ensures Stays(s, CreateOrUpdateLink(s, device, agent, app), r)
    ensures r.OfApp? ==> Exists(CreateOrUpdateLink(s, device, agent, app), r) == Exists(s, r)
  {
    var t := CreateOrUpdateLink(s, device, agent, app);
    assert t == s.(devices := t.devices, links := t.links, linkByApp := t.linkByApp);
  }

  lemma AuthenticatingStays(s: Store, c: Connection, agent: Option<string>, r: Record)
    ensures var t := AuthenticateApp(s, c, agent);
            if c.deviceId != "" && r == OfApp(c.id) then Exists(t, r) && CountersOf(t, r) == NO_TRAFFIC else Stays(s, t, r)
  {
    RegisteringAppStays(s, c, r);
    if agent.Some? {
      LinkingStays(RegisterApp(s, c), c.deviceId, agent.value, c.id, r);
    }
  }

  lemma RefreshShrinks(s: Store, device: string, r: Record)
    ensures Shrinks(s, Refresh(s, device), r)
  {
    var t := Refresh(s, device);
    assert t == s.(devices := t.devices);
  }

  lemma ClosingAgentShrinks(s: Store, id: string, r: Record)
    ensures Shrinks(s, CloseAgent(s, id), r)
  {
    if id in s.agents {
      var device := s.agents[id].deviceId;
      var t := WithoutAgent(s, id, device);
      assert t == s.(agents := s.agents - {id}, devices := t.devices);
      RefreshShrinks(t, device, r);
    }
  }

  lemma DroppingShrinks(s: Store, app: string, device: string, r: Record)
    ensures Shrinks(s, DropLink(s, app, device), r)
  {
    var t := DropLink(s, app, device);
    if app in s.linkByApp {
      assert t == s.(links := s.links - {s.linkByApp[app]}, linkByApp := s.linkByApp - {app}, devices := t.devices);
    } else {
      assert t == s;
    }
  }

  lemma ClosingAppShrinks(s: Store, id: string, r: Record)
    ensures Shrinks(s, CloseApp(s, id), r)
  {
    if id in s.apps {
      var device := s.apps[id].deviceId;
      var t := WithoutApp(s, id, device);
      assert t == s.(apps := s.apps - {id}, devices := t.devices);
      DroppingShrinks(t, id, device, r);
      RefreshShrinks(DropLink(t, id, device), device, r);
    }
  }

  lemma QuietStepCounts(s: Store, step: Step, r: Record)
    requires !step.Traffic?
    ensures Counts(s, Apply(s, step), step, r)
  {
    match step {
      case AgentRegistered(c) => RegisteringAgentStays(s, c, r);
      case AppRegistered(c) => RegisteringAppStays(s, c, r);
      case AppAuthenticated(c, primary) => AuthenticatingStays(s, c, primary, r);
      case LinkUpdated(device, agent, app) => LinkingStays(s, device, agent, app, r);
      case Closed(id) =>
        ClosingAgentShrinks(s, id, r);
        ClosingAppShrinks(CloseAgent(s, id), id, r);
      case Flushed =>
        assert Flush(s) == s.(pending := Flush(s).pending, flushed := Flush(s).flushed);
    }
  }

  lemma StepCounts(s: Store, step: Step, r: Record)
    ensures Counts(s, Apply(s, step), step, r)
  {
    match step {
      case Traffic(c, direction, kind, named, bytes) =>
        TrafficCounts(s, c, direction, kind, named, bytes, r);
        assert Apply(s, step) == RecordTraffic(s, c, direction, kind, named, bytes);
      case _ =>
        QuietStepCounts(s, step, r);
    }
  }

  /** In every run each counter record (of the relay, a device, a connection or
      a link) holds the bytes, the messages and the messages of each type, each
      way, of exactly the traffic recorded for it since it came to be. */
  lemma {:induction false} RecordsAreTallies(hasStatusStore: bool, steps: seq<Step>, r: Record)
    requires Exists(Run(hasStatusStore, steps), r)
    ensures Tallies(CountersOf(Run(hasStatusStore, steps), r), TrafficOf(hasStatusStore, steps, r))
  {
    NothingTallies();
    if steps != [] {
      var before, step := steps[..|steps| - 1], steps[|steps| - 1];
      var s := Run(hasStatusStore, before);
      StepCounts(s, step, r);
      var earlier := if Exists(s, r) && !Renews(step, r) then TrafficOf(hasStatusStore, before, r) else [];
      if Exists(s, r) {
        RecordsAreTallies(hasStatusStore, before, r);
      }
      assert Tallies(Held(s, step, r), earlier);
      if Concerns(s, step, r) {
        OneMoreTallies(Held(s, step, r), earlier, step);
        assert TrafficOf(hasStatusStore, steps, r) == earlier + [step];
      } else {
        assert TrafficOf(hasStatusStore, steps, r) == earlier;
      }
    }
  }
}

// No device traffic gets lost between recording and handing over.
module RelayStoreTraffic {
  import opened Options
  import opened RelayStoreSpec

  function RecordedBy(before: Delta, step: Step, device: string): (d: Delta) {
    if step.Traffic? && step.c.deviceId == device then AddDelta(before, OneMessage(step.direction, step.bytes))
    else before
  }

  /** Everything a run recorded for a device. */
  function Recorded(steps: seq<Step>, device: string): (d: Delta) {
    if steps == [] then NO_DELTA
    else RecordedBy(Recorded(steps[..|steps| - 1], device), steps[|steps| - 1], device)
  }

  /** What was handed over for a device and what is pending for it make up a total. */
  predicate Conserves(s: Store, device: string, total: Delta) {
    s.hasStatusStore && AddDelta(DeltaOf(s.flushed, device), DeltaOf(s.pending, device)) == total
  }

  predicate SameTraffic(s: Store, r: Store) {
    r.hasStatusStore == s.hasStatusStore && r.pending == s.pending && r.flushed == s.flushed
  }

  lemma RegisteringAgentKeepsTraffic(s: Store, c: Connection)
    ensures SameTraffic(s, RegisterAgent(s, c))
  {
    if c.deviceId == "" {
      // no device: nothing changes
    } else {
      // device and agent change, not the traffic
    }
  }

  lemma RegisteringAppKeepsTraffic(s: Store, c: Connection)
    ensures SameTraffic(s, RegisterApp(s, c))
  {
    if c.deviceId == "" {
      // no device: nothing changes
    } else {
      // device and app change, not the traffic
    }
  }

  lemma LinkingKeepsTraffic(s: Store, device: string, agent: string, app: string)
    ensures SameTraffic(s, CreateOrUpdateLink(s, device, agent, app))
  {
  }

  lemma RefreshKeepsTraffic(s: Store, device: string)
    ensures SameTraffic(s, Refresh(s, device))
  {
    if Refresh(s, device) == s {
      // the device stays
    } else {
      // an empty device goes, its traffic is elsewhere
    }
  }

  lemma ClosingAgentKeepsTraffic(s: Store, id: string)
    ensures SameTraffic(s, CloseAgent(s, id))
  {
    if id in s.agents {
      var device := s.agents[id].deviceId;
      RefreshKeepsTraffic(WithoutAgent(s, id, device), device);
    } else {
      // not an agent: nothing changes
    }
  }

  lemma ClosingAppKeepsTraffic(s: Store, id: string)
    ensures SameTraffic(s, CloseApp(s, id))
  {
    if id in s.apps {
      var device := s.apps[id].deviceId;
      var u := WithoutApp(s, id, device);
      RefreshKeepsTraffic(DropLink(u, id, device), device);
    }
  }

  lemma OthersKeepTraffic(s: Store, step: Step)
    requires !step.Traffic? && !step.Flushed?
    ensures SameTraffic(s, Apply(s, step))
  {
    match step
    case AgentRegistered(c) => RegisteringAgentKeepsTraffic(s, c);
    case AppRegistered(c) => RegisteringAppKeepsTraffic(s, c);
    case AppAuthenticated(c, primary) =>
      RegisteringAppKeepsTraffic(s, c);
      if primary.Some? {
        LinkingKeepsTraffic(RegisterApp(s, c), c.deviceId, primary.value, c.id);
      }
    case LinkUpdated(device, agent, app) => LinkingKeepsTraffic(s, device, agent, app);
    case Closed(id) =>
      ClosingAgentKeepsTraffic(s, id);
      ClosingAppKeepsTraffic(CloseAgent(s, id), id);
  }

  lemma CountingConnectionKeepsTraffic(s: Store, c: Connection, direction: Direction, kind: string, bytes: nat)
    ensures SameTraffic(s, CountOnConnection(s, c, direction, kind, bytes))
  {
    if c.role.AgentRole? && c.id in s.agents {
      // the agent's own counters
    } else if c.role.MobileRole? && c.id in s.apps {
      // the app's own counters
    } else {
      // an unknown connection: nothing is counted
    }
  }

  lemma CountingLinkKeepsTraffic(s: Store, c: Connection, id: Option<string>, direction: Direction, kind: string, bytes: nat)
    ensures SameTraffic(s, CountOnLink(s, id, c, direction, kind, bytes))
  {
    if id.Some? && id.value in s.links {
      // the link's own counters
    } else {
      // an unknown link: nothing is counted
    }
  }

  lemma CountingDeviceConserves(s: Store, of: string, direction: Direction, kind: string, bytes: nat, device: string, total: Delta)
    requires device != "" && Conserves(s, device, total)
    ensures Conserves(CountOnDevice(s, of, direction, kind, bytes), device,
                      if of == device then AddDelta(total, OneMessage(direction, bytes)) else total)
  {
  }

  lemma TrafficConserves(s: Store, step: Step, device: string, total: Delta)
    requires step.Traffic? && device != "" && Conserves(s, device, total)
    ensures Conserves(Apply(s, step), device, RecordedBy(total, step, device))
  {
    var Traffic(c, direction, kind, app, bytes) := step;
    var counted := s.(counters := Increment(s.counters, direction, kind, bytes));
    CountingDeviceConserves(counted, c.deviceId, direction, kind, bytes, device, total);
    var t := CountOnDevice(counted, c.deviceId, direction, kind, bytes);
    CountingConnectionKeepsTraffic(t, c, direction, kind, bytes);
    var u := CountOnConnection(t, c, direction, kind, bytes);
    CountingLinkKeepsTraffic(u, c, LinkForTraffic(u, c, app), direction, kind, bytes);
  }

  lemma FlushConserves(s: Store, device: string, total: Delta)
    requires Conserves(s, device, total)
    ensures Conserves(Flush(s), device, total) && Flush(s).pending == map[]
  {
  }

  lemma StepConserves(s: Store, step: Step, device: string, total: Delta)
    requires device != "" && Conserves(s, device, total)
    ensures Conserves(Apply(s, step), device, RecordedBy(total, step, device))
  {
    if step.Traffic? {
      TrafficConserves(s, step, device, total);
    } else if step.Flushed? {
      FlushConserves(s, device, total);
    } else {
      OthersKeepTraffic(s, step);
    }
  }

  lemma NothingRecorded(device: string)
    ensures Conserves(EmptyStore(true), device, NO_DELTA)
  {
    var s := EmptyStore(true);
    assert DeltaOf(s.flushed, device) == NO_DELTA && DeltaOf(s.pending, device) == NO_DELTA;
  }

  /** In every run, what the status store was handed for a device and what is
      pending for it are together all that was recorded for it. */
  lemma {:induction false} DeviceTrafficIsConserved(steps: seq<Step>, device: string)
    requires device != ""
    ensures Conserves(Run(true, steps), device, Recorded(steps, device))
  {
    if steps != [] {
      var front, step := steps[..|steps| - 1], steps[|steps| - 1];
      DeviceTrafficIsConserved(front, device);
      var s, total := Run(true, front), Recorded(front, device);
      StepConserves(s, step, device, total);
      assert Run(true, steps) == Apply(s, step);
      assert Recorded(steps, device) == RecordedBy(total, step, device);
    } else {
      NothingRecorded(device);
    }
  }
}

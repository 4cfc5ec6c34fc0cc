// RelayStateStore (relay/server/src/relayStateStore.ts).
module RelayStores {
  import opened Options
  import opened RelayStoreSpec

  class RelayStateStore {
    const hasStatusStore: bool
    var counters: Counters
    var devices: map<string, Device>
    var agents: map<string, ConnectionState>
    var apps: map<string, ConnectionState>
    var links: map<string, Link>
    var linkByApp: map<string, string>
    var pendingDeviceTraffic: map<string, Delta>
    var flushedDeviceTraffic: map<string, Delta>

    function View(): Store
      reads this
    {
      Store(hasStatusStore, counters, devices, agents, apps, links, linkByApp, pendingDeviceTraffic, flushedDeviceTraffic)
    }

    constructor (hasStatusStore: bool)
      ensures View() == EmptyStore(hasStatusStore)
    {
      this.hasStatusStore := hasStatusStore;
      counters := NO_TRAFFIC;
      devices, agents, apps, links, linkByApp := map[], map[], map[], map[], map[];
      pendingDeviceTraffic, flushedDeviceTraffic := map[], map[];
    }

    method EnsureDevice(device: string)
      modifies this`devices
      ensures devices == old(devices)[device := DeviceOf(old(View()), device)]
    {
      if device in devices {
        assert devices == devices[device := devices[device]];
        return;
      }
      devices := devices[device := NEW_DEVICE];
    }

    method RegisterAgentConnection(c: Connection)
      modifies this`devices, this`agents
      ensures View() == RegisterAgent(old(View()), c)
    {
      if c.deviceId == "" {
        return;
      }
      EnsureDevice(c.deviceId);
      devices := devices[c.deviceId := devices[c.deviceId].(agents := devices[c.deviceId].agents + {c.id})];
      agents := agents[c.id := ConnectionState(c.deviceId, NO_TRAFFIC)];
    }

    method RegisterAppConnection(c: Connection)
      modifies this`devices, this`apps
      ensures View() == RegisterApp(old(View()), c)
    {
      if c.deviceId == "" {
        return;
      }
      EnsureDevice(c.deviceId);
      devices := devices[c.deviceId := devices[c.deviceId].(apps := devices[c.deviceId].apps + {c.id})];
      apps := apps[c.id := ConnectionState(c.deviceId, NO_TRAFFIC)];
    }

    method AddLinkToDevice(device: string, linkId: string)
      modifies this`devices
      ensures devices == old(devices)[device :=
                DeviceOf(old(View()), device).(links := DeviceOf(old(View()), device).links + {linkId})]
    {
      EnsureDevice(device);
      devices := devices[device := devices[device].(links := devices[device].links + {linkId})];
    }

    method CreateOrUpdate(device: string, agent: string, app: string)
      modifies this`devices, this`links, this`linkByApp
      ensures View() == CreateOrUpdateLink(old(View()), device, agent, app)
    {
      ghost var before := View();
      var linkId := LinkId(device, agent, app);
      if app in linkByApp {
        linkId := linkByApp[app];
      }
      assert linkId == LinkIdFor(before, device, agent, app);
      var link := Link(device, agent, app, NO_TRAFFIC, 0, 0);
      if linkId in links {
        link := links[linkId];
      }
      LinkingIs(before, device, agent, app, linkId, link);
      links := links[linkId := link];
      linkByApp := linkByApp[app := linkId];
      assert DeviceOf(View(), device) == DeviceOf(before, device);
      AddLinkToDevice(device, linkId);
    }

    method Authenticate(c: Connection, primary: Option<string>)
      modifies this`devices, this`apps, this`links, this`linkByApp
      ensures View() == AuthenticateApp(old(View()), c, primary)
    {
      RegisterAppConnection(c);
      if c.deviceId != "" && primary.Some? && primary.value != "" {
        CreateOrUpdate(c.deviceId, primary.value, c.id);
      }
    }

    method RefreshDevice(device: string)
      modifies this`devices
      ensures View() == Refresh(old(View()), device)
    {
      if device !in devices {
        return;
      }
      if devices[device].agents == {} && devices[device].apps == {} && devices[device].links == {} {
        devices := devices - {device};
      }
    }

    method CloseAsAgent(id: string)
      modifies this`devices, this`agents
      ensures View() == CloseAgent(old(View()), id)
    {
      if id in agents {
        var device := agents[id].deviceId;
        agents := agents - {id};
        if device in devices {
          devices := devices[device := devices[device].(agents := devices[device].agents - {id})];
        }
        RefreshDevice(device);
      }
    }

    method DropLinkOf(app: string, device: string)
      modifies this`devices, this`links, this`linkByApp
      ensures View() == DropLink(old(View()), app, device)
    {
      if app in linkByApp {
        var linkId := linkByApp[app];
        links := links - {linkId};
        linkByApp := linkByApp - {app};
        if device in devices {
          devices := devices[device := devices[device].(links := devices[device].links - {linkId})];
        }
      }
    }

    method CloseAsApp(id: string)
      modifies this`devices, this`apps, this`links, this`linkByApp
      ensures View() == CloseApp(old(View()), id)
    {
      if id in apps {
        var device := apps[id].deviceId;
        apps := apps - {id};
        if device in devices {
          devices := devices[device := devices[device].(apps := devices[device].apps - {id})];
        }
        assert View() == WithoutApp(old(View()), id, device);
        DropLinkOf(id, device);
        RefreshDevice(device);
      }
    }

    method Close(id: string)
      modifies this`devices, this`agents, this`apps, this`links, this`linkByApp
      ensures View() == CloseConnection(old(View()), id)
    {
      CloseAsAgent(id);
      CloseAsApp(id);
    }

    method AddPendingDeviceTraffic(device: string, direction: Direction, bytes: nat)
      modifies this`pendingDeviceTraffic
      ensures pendingDeviceTraffic == old(pendingDeviceTraffic)[device :=
                AddDelta(DeltaOf(old(pendingDeviceTraffic), device), OneMessage(direction, bytes))]
    {
      var delta := DeltaOf(pendingDeviceTraffic, device);
      if direction == In {
        delta := delta.(bytesIn := delta.bytesIn + bytes, messagesIn := delta.messagesIn + 1);
      } else {
        delta := delta.(bytesOut := delta.bytesOut + bytes, messagesOut := delta.messagesOut + 1);
      }
      pendingDeviceTraffic := pendingDeviceTraffic[device := delta];
    }

    method CountDevice(device: string, direction: Direction, kind: string, bytes: nat)
      modifies this`devices, this`pendingDeviceTraffic
      ensures View() == CountOnDevice(old(View()), device, direction, kind, bytes)
    {
      if device != "" {
        EnsureDevice(device);
        devices := devices[device := devices[device].(counters := Increment(devices[device].counters, direction, kind, bytes))];
        AddPendingDeviceTraffic(device, direction, bytes);
      }
    }

    method CountConnection(c: Connection, direction: Direction, kind: string, bytes: nat)
      modifies this`agents, this`apps
      ensures View() == CountOnConnection(old(View()), c, direction, kind, bytes)
    {
      if c.role.AgentRole? && c.id in agents {
        agents := agents[c.id := agents[c.id].(counters := Increment(agents[c.id].counters, direction, kind, bytes))];
      } else if c.role.MobileRole? && c.id in apps {
        apps := apps[c.id := apps[c.id].(counters := Increment(apps[c.id].counters, direction, kind, bytes))];
      }
    }

    method CountLink(linkId: string, c: Connection, direction: Direction, kind: string, bytes: nat)
      requires linkId in links
      modifies this`links
      ensures View() == CountOnLink(old(View()), Some(linkId), c, direction, kind, bytes)
    {
      var link := links[linkId];
      link := link.(counters := Increment(link.counters, direction, kind, bytes));
      if direction == In {
        if c.role.MobileRole? {
          link := link.(appToAgentBytes := link.appToAgentBytes + bytes);
        } else if c.role.AgentRole? {
          link := link.(agentToAppBytes := link.agentToAppBytes + bytes);
        }
      }
      links := links[linkId := link];
    }

    method Record(c: Connection, direction: Direction, kind: string, appConnectionId: string, bytes: nat)
      modifies this
      ensures View() == RecordTraffic(old(View()), c, direction, kind, appConnectionId, bytes)
    {
      counters := Increment(counters, direction, kind, bytes);
      CountDevice(c.deviceId, direction, kind, bytes);
      CountConnection(c, direction, kind, bytes);
      var linkId := LinkForTraffic(View(), c, appConnectionId);
      if linkId.Some? && linkId.value in links {
        CountLink(linkId.value, c, direction, kind, bytes);
      }
    }

    /** The loop hands each pending delta to the status store once. */
    method HandOver()
      modifies this`flushedDeviceTraffic
      ensures flushedDeviceTraffic == FlushedSoFar(old(flushedDeviceTraffic), pendingDeviceTraffic, pendingDeviceTraffic.Keys)
    {
      ghost var before := flushedDeviceTraffic;
      var pending := pendingDeviceTraffic;
      var left := pending.Keys;
      HandingStarts(before, pending);
      while left != {}
        invariant Handing(before, pending, flushedDeviceTraffic, left)
        decreases |left|
      {
        var device :| device in left;
        HandingGoesOn(before, pending, flushedDeviceTraffic, left, device);
        flushedDeviceTraffic := flushedDeviceTraffic[device :=
          AddDelta(DeltaOf(flushedDeviceTraffic, device), pending[device])];
        left := left - {device};
      }
      HandingEnds(before, pending, flushedDeviceTraffic);
    }

    method FlushDeviceStatus()
      modifies this`pendingDeviceTraffic, this`flushedDeviceTraffic
      ensures View() == Flush(old(View()))
    {
      if !hasStatusStore {
        pendingDeviceTraffic := map[];
        return;
      }
      HandOver();
      AllFlushed(old(View()));
      pendingDeviceTraffic := map[];
    }
  }

  lemma LinkingIs(s: Store, device: string, agent: string, app: string, id: string, link: Link)
    requires id == LinkIdFor(s, device, agent, app)
    requires link == if id in s.links then s.links[id] else Link(device, agent, app, NO_TRAFFIC, 0, 0)
    ensures CreateOrUpdateLink(s, device, agent, app) ==
            s.(devices := s.devices[device := DeviceOf(s, device).(links := DeviceOf(s, device).links + {id})],
               links := s.links[id := link], linkByApp := s.linkByApp[app := id])
  {
  }

  /** The status store after some of the pending deltas were handed over. */
  function FlushedSoFar(before: map<string, Delta>, pending: map<string, Delta>, done: set<string>): (r: map<string, Delta>)
    requires done <= pending.Keys
  {
    map d | d in before.Keys + done :: if d in done then AddDelta(DeltaOf(before, d), pending[d]) else before[d]
  }

  /** The loop of `HandOver`, with some devices left. */
  predicate Handing(before: map<string, Delta>, pending: map<string, Delta>, flushed: map<string, Delta>, left: set<string>) {
    left <= pending.Keys && flushed == FlushedSoFar(before, pending, pending.Keys - left)
  }

  lemma HandingStarts(before: map<string, Delta>, pending: map<string, Delta>)
    ensures Handing(before, pending, before, pending.Keys)
  {
    assert pending.Keys - pending.Keys == {};
    assert FlushedSoFar(before, pending, {}) == before;
  }

  lemma HandingGoesOn(before: map<string, Delta>, pending: map<string, Delta>, flushed: map<string, Delta>,
                      left: set<string>, device: string)
    requires Handing(before, pending, flushed, left) && device in left
    ensures Handing(before, pending, flushed[device := AddDelta(DeltaOf(flushed, device), pending[device])], left - {device})
  {
    var done := pending.Keys - left;
    assert pending.Keys - (left - {device}) == done + {device};
    assert DeltaOf(flushed, device) == DeltaOf(before, device);
    assert flushed[device := AddDelta(DeltaOf(flushed, device), pending[device])]
        == FlushedSoFar(before, pending, done + {device});
  }

  lemma HandingEnds(before: map<string, Delta>, pending: map<string, Delta>, flushed: map<string, Delta>)
    requires Handing(before, pending, flushed, {})
    ensures flushed == FlushedSoFar(before, pending, pending.Keys)
  {
    assert pending.Keys - {} == pending.Keys;
  }

  lemma AllFlushed(s: Store)
    requires s.hasStatusStore
    ensures FlushedSoFar(s.flushed, s.pending, s.pending.Keys) == Flush(s).flushed
  {
  }
}

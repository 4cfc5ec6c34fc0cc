// The relay's controller of end-to-end handshakes, each handler tied to a
// function of the step system (relay/server/src/relayE2EController.ts).
module RelayGateController {
  import opened Options
  import opened RelayGateSpec

  class RelayE2EController {
    // Connection records by id; a handler updates the record it was called for.
    var all: map<string, Connection>
    var live: set<string>
    var primaryAgents: map<string, string>
    var sent: seq<Delivery>
    ghost var log: seq<Event>

    ghost function View(): Gate
      reads this
    {
      Gate(all, live, primaryAgents, sent, log)
    }

    constructor ()
      ensures View() == EMPTY
    {
      all, live, primaryAgents, sent, log := map[], {}, map[], [], [];
    }

    method Send(d: Delivery)
      modifies this
      ensures View() == Deliver(old(View()), d)
    {
      sent := sent + [d];
    }

    method RouteMobileToAgent(deviceId: Option<string>, message: Message)
      modifies this
      ensures View() == RouteToAgent(old(View()), deviceId, message)
    {
      if deviceId.None? || deviceId.value == "" {
        return;
      }
      if deviceId.value in primaryAgents {
        Send(Delivery(primaryAgents[deviceId.value], message));
      }
    }

    method FindMobile(agent: Connection, app: string) returns (found: bool)
      ensures found <==> Addressable(View(), agent, app)
    {
      if app !in live || app !in all || all[app].role != Mobile {
        return false;
      }
      return agent.deviceId.Some? && agent.deviceId.value != "" && all[app].deviceId == agent.deviceId;
    }

    method IsPairReadyForApp(app: string, deviceId: Option<string>) returns (ready: bool)
      ensures ready <==> PairReady(View(), app, deviceId)
    {
      if deviceId.None? || deviceId.value == "" {
        return false;
      }
      if app !in live || app !in all || deviceId.value !in primaryAgents || primaryAgents[deviceId.value] !in all {
        return false;
      }
      var mobile := all[app];
      var agent := all[primaryAgents[deviceId.value]];
      if app !in agent.peers {
        return false;
      }
      var peer := agent.peers[app];
      return mobile.role == Mobile && mobile.deviceId == deviceId && mobile.state == Ready && peer.ready
          && Truthy(mobile.handshakeId) && mobile.handshakeId == Some(peer.handshakeId)
          && Truthy(mobile.transcriptHash) && mobile.transcriptHash == peer.transcriptHash;
    }

    method HandleHandshakeInit(id: string, app: string, handshakeId: string)
      requires id in all
      modifies this
      ensures View() == HandleInit(old(View()), id, app, handshakeId)
    {
      var c := all[id];
      if c.role != Mobile {
        Send(Refusal(id));
        return;
      }
      if !c.authenticated || c.state != PairingVerified {
        Send(Refusal(id));
        return;
      }
      if app != id {
        Send(Refusal(id));
        return;
      }
      all := all[id := c.(handshakeId := Some(handshakeId), transcriptHash := None, sessionId := None, state := Handshaking)];
      log := log + [AppInit(id, handshakeId)];
      RouteMobileToAgent(c.deviceId, Init(app, handshakeId));
    }

    method HandleHandshakeReply(id: string, app: string, handshakeId: string)
      requires id in all
      modifies this
      ensures View() == HandleReply(old(View()), id, app, handshakeId)
    {
      var c := all[id];
      if c.role != Agent {
        Send(Refusal(id));
        return;
      }
      var found := FindMobile(c, app);
      if !found || all[app].handshakeId != Some(handshakeId) {
        Send(Refusal(id));
        return;
      }
      all := all[id := c.(peers := c.peers[app := Peer(handshakeId, None, None, false)])];
      log := log + [AgentReply(id, app, handshakeId)];
      Send(Delivery(app, Reply(app, handshakeId)));
    }

    method HandleE2EReady(id: string, app: string, handshakeId: string, transcriptHash: string)
      requires id in all
      modifies this
      ensures View() == HandleReady(old(View()), id, app, handshakeId, transcriptHash)
    {
      var c := all[id];
      var message := ReadyMessage(app, handshakeId, transcriptHash);
      if c.role == Mobile {
        if c.state != Handshaking || app != id || c.handshakeId != Some(handshakeId) {
          Send(Refusal(id));
          return;
        }
        all := all[id := c.(transcriptHash := Some(transcriptHash), state := Ready)];
        log := log + [AppReady(id, handshakeId, transcriptHash)];
        RouteMobileToAgent(c.deviceId, message);
        return;
      }
      if c.role != Agent {
        Send(Refusal(id));
        return;
      }
      var found := FindMobile(c, app);
      if !found || app !in c.peers || c.peers[app].handshakeId != handshakeId {
        Send(Refusal(id));
        return;
      }
      var peer := c.peers[app].(transcriptHash := Some(transcriptHash), ready := true);
      all := all[id := c.(peers := c.peers[app := peer])];
      log := log + [AgentReady(id, app, handshakeId, transcriptHash)];
      Send(Authenticated(c.deviceId.value, app));
      Send(Delivery(app, message));
    }

    method HandleE2EMessage(id: string, app: string, sessionId: string)
      requires id in all
      modifies this
      ensures View() == HandleSealed(old(View()), id, app, sessionId)
    {
      var c := all[id];
      if c.role == Mobile {
        var ready := IsPairReadyForApp(id, c.deviceId);
        if c.state != Ready || app != id || !ready {
          Send(Refusal(id));
          return;
        }
        if Truthy(c.sessionId) && c.sessionId != Some(sessionId) {
          Send(Refusal(id));
          return;
        }
        all := all[id := c.(sessionId := Some(sessionId))];
        log := log + [AppFrame(id, sessionId)];
        RouteMobileToAgent(c.deviceId, Sealed(app, sessionId));
        return;
      }
      if c.role != Agent {
        Send(Refusal(id));
        return;
      }
      var found := FindMobile(c, app);
      if !found || app !in c.peers || !c.peers[app].ready {
        Send(Refusal(id));
        return;
      }
      if Truthy(c.peers[app].sessionId) && c.peers[app].sessionId != Some(sessionId) {
        Send(Refusal(id));
        return;
      }
      all := all[id := c.(peers := c.peers[app := c.peers[app].(sessionId := Some(sessionId))])];
      log := log + [AgentFrame(id, app, sessionId)];
      Send(Delivery(app, Sealed(app, sessionId)));
    }

    method HandleE2EFailed(id: string, app: Option<string>)
      requires id in all
      modifies this
      ensures View() == HandleFailed(old(View()), id, app)
    {
      var c := all[id];
      if c.role == Mobile {
        all := all[id := c.(state := if c.authenticated then PairingVerified else c.state,
                            handshakeId := None, transcriptHash := None, sessionId := None)];
        log := log + [AppFailed(id)];
        RouteMobileToAgent(c.deviceId, Failed(app));
        return;
      }
      if c.role == Agent && app.Some? && app.value != "" {
        all := all[id := c.(peers := c.peers - {app.value})];
        log := log + [AgentFailed(id, app.value)];
        var found := FindMobile(all[id], app.value);
        if found {
          Send(Delivery(app.value, Failed(app)));
        }
      }
    }
  }
}

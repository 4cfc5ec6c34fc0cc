// What a ready pair says about the past, in every run of the relay.
module RelayGateHistory {
  import opened Options
  import opened RelayGateSpec

  /** The last accepted init of the App is at `i` and carries `h`. */
  predicate LastInitAt(log: seq<Event>, i: nat, app: string, h: string) {
    && i < |log| && log[i] == AppInit(app, h)
    && forall n :: i < n < |log| ==> !(log[n].AppInit? && log[n].app == app)
  }

  ghost predicate Occurs(log: seq<Event>, after: nat, e: Event) {
    exists n :: after < n < |log| && log[n] == e
  }

  ghost predicate MobileInv(log: seq<Event>, app: string, c: Connection) {
    c.handshakeId.Some? ==>
      exists i: nat :: LastInitAt(log, i, app, c.handshakeId.value)
        && (c.transcriptHash.Some? ==> Occurs(log, i, AppReady(app, c.handshakeId.value, c.transcriptHash.value)))
  }

  /** The reply at `j` answers the init at `i`. */
  predicate AnsweredAt(log: seq<Event>, i: nat, j: nat, agent: string, app: string, h: string) {
    i < j < |log| && log[i] == AppInit(app, h) && log[j] == AgentReply(agent, app, h)
  }

  /** The last reply of the agent to the App is at `j`. */
  predicate LastReplyAt(log: seq<Event>, j: nat, agent: string, app: string) {
    && j < |log| && log[j].AgentReply? && log[j].agent == agent && log[j].app == app
    && forall n :: j < n < |log| ==> !(log[n].AgentReply? && log[n].agent == agent && log[n].app == app)
  }

  ghost predicate PeerInv(log: seq<Event>, agent: string, app: string, peer: Peer) {
    exists i: nat, j: nat :: AnsweredAt(log, i, j, agent, app, peer.handshakeId) && LastReplyAt(log, j, agent, app)
      && (peer.transcriptHash.Some? ==> Occurs(log, j, AgentReady(agent, app, peer.handshakeId, peer.transcriptHash.value)))
  }

  ghost predicate ConnectionInv(log: seq<Event>, id: string, c: Connection) {
    && MobileInv(log, id, c)
    && forall app :: app in c.peers ==> PeerInv(log, id, app, c.peers[app])
  }

  /** Since the App's last init or failure, all of its frames carried one session identity. */
  predicate FramesInv(log: seq<Event>, id: string, c: Connection) {
    forall n :: 0 <= n < |log| && log[n].AppFrame? && log[n].app == id && Current(log, n, id) ==>
      Truthy(c.sessionId) && log[n].sessionId == c.sessionId.value
  }

  /** No handshake of the App began or failed between the two positions. */
  predicate SameHandshake(log: seq<Event>, from: nat, to: nat, app: string)
    requires to <= |log|
  {
    forall m :: from < m < to ==> !((log[m].AppInit? || log[m].AppFailed?) && log[m].app == app)
  }

  predicate Current(log: seq<Event>, n: nat, app: string) {
    SameHandshake(log, n, |log|, app)
  }

  /** Frames of one App under one handshake agree on the session identity. */
  predicate FramesAgree(log: seq<Event>) {
    forall m, n :: (0 <= m < n < |log| && log[m].AppFrame? && log[n].AppFrame? && log[m].app == log[n].app
                    && SameHandshake(log, m, n, log[m].app)) ==>
      log[m].sessionId == log[n].sessionId
  }

  ghost predicate GateInv(g: Gate) {
    && (forall id :: id in g.all ==> ConnectionInv(g.log, id, g.all[id]) && FramesInv(g.log, id, g.all[id]))
    && FramesAgree(g.log)
    && (forall n :: 0 <= n < |g.log| && g.log[n].AppFrame? ==> g.log[n].app in g.all)
  }

  // ---- Growing the log ----

  lemma PeerInvStays(log: seq<Event>, e: Event, agent: string, app: string, peer: Peer)
    requires PeerInv(log, agent, app, peer) && !(e.AgentReply? && e.agent == agent && e.app == app)
    ensures PeerInv(log + [e], agent, app, peer)
  {
    var i: nat, j: nat :| AnsweredAt(log, i, j, agent, app, peer.handshakeId) && LastReplyAt(log, j, agent, app)
      && (peer.transcriptHash.Some? ==> Occurs(log, j, AgentReady(agent, app, peer.handshakeId, peer.transcriptHash.value)));
    if peer.transcriptHash.Some? {
      OccursStays(log, e, j, AgentReady(agent, app, peer.handshakeId, peer.transcriptHash.value));
    }
    assert AnsweredAt(log + [e], i, j, agent, app, peer.handshakeId) && LastReplyAt(log + [e], j, agent, app);
  }

  lemma OccursStays(log: seq<Event>, e: Event, after: nat, x: Event)
    requires Occurs(log, after, x)
    ensures Occurs(log + [e], after, x)
  {
    var n :| after < n < |log| && log[n] == x;
    assert (log + [e])[n] == x;
  }

  lemma MobileInvStays(log: seq<Event>, e: Event, app: string, c: Connection)
    requires MobileInv(log, app, c) && !(e.AppInit? && e.app == app)
    ensures MobileInv(log + [e], app, c)
  {
    if c.handshakeId.Some? {
      var i: nat :| LastInitAt(log, i, app, c.handshakeId.value)
        && (c.transcriptHash.Some? ==> Occurs(log, i, AppReady(app, c.handshakeId.value, c.transcriptHash.value)));
      assert LastInitAt(log + [e], i, app, c.handshakeId.value);
      if c.transcriptHash.Some? {
        OccursStays(log, e, i, AppReady(app, c.handshakeId.value, c.transcriptHash.value));
      }
    }
  }

  lemma ConnectionInvStays(log: seq<Event>, e: Event, id: string, c: Connection)
    requires ConnectionInv(log, id, c) && !(e.AppInit? && e.app == id)
    requires e.AgentReply? && e.agent == id ==> e.app !in c.peers
    ensures ConnectionInv(log + [e], id, c)
  {
    MobileInvStays(log, e, id, c);
    forall app | app in c.peers
      ensures PeerInv(log + [e], id, app, c.peers[app])
    {
      PeerInvStays(log, e, id, app, c.peers[app]);
    }
  }

  lemma FramesInvStays(log: seq<Event>, e: Event, id: string, c: Connection)
    requires FramesInv(log, id, c) && !(e.AppFrame? && e.app == id)
    ensures FramesInv(log + [e], id, c)
  {
    var grown := log + [e];
    forall n | 0 <= n < |grown| && grown[n].AppFrame? && grown[n].app == id && Current(grown, n, id)
      ensures Truthy(c.sessionId) && grown[n].sessionId == c.sessionId.value
    {
      assert n < |log| && grown[n] == log[n];
      assert SameHandshake(grown, n, |log|, id);
      SameHandshakeStays(log, e, n, |log|, id);
    }
  }

  /** One connection changes and one event is noted: the others keep their invariants. */
  lemma NoteKeepsOthers(g: Gate, id: string, d: Connection, e: Event)
    requires GateInv(g) && id in g.all
    requires e.AppInit? || e.AppFrame? ==> e.app == id
    requires e.AgentReply? ==> e.agent == id
    requires e.AppFrame? ==> Truthy(g.all[id].sessionId) ==> g.all[id].sessionId == Some(e.sessionId)
    requires ConnectionInv(g.log + [e], id, d) && FramesInv(g.log + [e], id, d)
    ensures GateInv(Note(Update(g, id, d), e))
  {
    var h := Note(Update(g, id, d), e);
    forall other | other in h.all
      ensures ConnectionInv(h.log, other, h.all[other]) && FramesInv(h.log, other, h.all[other])
    {
      if other != id {
        ConnectionInvStays(g.log, e, other, g.all[other]);
        FramesInvStays(g.log, e, other, g.all[other]);
      }
    }
    FramesAgreeStays(g.log, e, id, g.all[id]);
  }

  lemma SameHandshakeStays(log: seq<Event>, e: Event, from: nat, to: nat, app: string)
    requires to <= |log|
    ensures SameHandshake(log + [e], from, to, app) <==> SameHandshake(log, from, to, app)
  {
    forall m | from < m < to
      ensures (log + [e])[m] == log[m]
    {
    }
  }

  lemma FramesAgreeStays(log: seq<Event>, e: Event, id: string, c: Connection)
    requires FramesAgree(log) && FramesInv(log, id, c)
    requires e.AppFrame? ==> e.app == id && (Truthy(c.sessionId) ==> c.sessionId == Some(e.sessionId))
    ensures FramesAgree(log + [e])
  {
    var grown := log + [e];
    forall m, n | 0 <= m < n < |grown| && grown[m].AppFrame? && grown[n].AppFrame? && grown[m].app == grown[n].app
        && SameHandshake(grown, m, n, grown[m].app)
      ensures grown[m].sessionId == grown[n].sessionId
    {
      SameHandshakeStays(log, e, m, n, grown[m].app);
    }
  }

  lemma UpdateKeepsOthers(g: Gate, id: string, d: Connection)
    requires GateInv(g) && ConnectionInv(g.log, id, d) && FramesInv(g.log, id, d)
    ensures GateInv(Update(g, id, d))
  {
  }

  // ---- Handlers ----

  lemma InitKeeps(g: Gate, id: string, app: string, h: string)
    requires GateInv(g) && id in g.all
    ensures GateInv(HandleInit(g, id, app, h))
  {
    var c := g.all[id];
    if c.role == Mobile && c.authenticated && c.state == PairingVerified && app == id {
      var e := AppInit(id, h);
      var d := c.(handshakeId := Some(h), transcriptHash := None, sessionId := None, state := Handshaking);
      assert LastInitAt(g.log + [e], |g.log|, id, h);
      forall a | a in d.peers
        ensures PeerInv(g.log + [e], id, a, d.peers[a])
      {
        PeerInvStays(g.log, e, id, a, c.peers[a]);
      }
      assert FramesInv(g.log + [e], id, d) by {
        forall n | 0 <= n < |g.log + [e]| && (g.log + [e])[n].AppFrame?
          ensures !Current(g.log + [e], n, id)
        {
          assert (g.log + [e])[|g.log|] == e;
        }
      }
      NoteKeepsOthers(g, id, d, e);
    }
  }

  lemma PeerReplaced(log: seq<Event>, id: string, c: Connection, app: string, peer: Peer)
    requires ConnectionInv(log, id, c.(peers := c.peers - {app})) && PeerInv(log, id, app, peer)
    ensures ConnectionInv(log, id, c.(peers := c.peers[app := peer]))
  {
    var d := c.(peers := c.peers[app := peer]);
    forall a | a in d.peers
      ensures PeerInv(log, id, a, d.peers[a])
    {
      if a != app {
        assert a in c.peers - {app};
      }
    }
  }

  lemma ReplyKeeps(g: Gate, id: string, app: string, h: string)
    requires GateInv(g) && id in g.all
    ensures GateInv(HandleReply(g, id, app, h))
  {
    var c := g.all[id];
    if c.role == Agent && Addressable(g, c, app) && g.all[app].handshakeId == Some(h) {
      var e := AgentReply(id, app, h);
      var peer := Peer(h, None, None, false);
      var d := c.(peers := c.peers[app := peer]);
      ConnectionInvStays(g.log, e, id, c.(peers := c.peers - {app}));
      FramesInvStays(g.log, e, id, c);
      var i: nat :| LastInitAt(g.log, i, app, h);
      assert (g.log + [e])[|g.log|] == e;
      assert LastReplyAt(g.log + [e], |g.log|, id, app);
      assert AnsweredAt(g.log + [e], i, |g.log|, id, app, h);
      assert PeerInv(g.log + [e], id, app, peer);
      PeerReplaced(g.log + [e], id, c, app, peer);
      NoteKeepsOthers(g, id, d, e);
    }
  }

  lemma AppReadyKeeps(g: Gate, id: string, h: string, t: string)
    requires GateInv(g) && id in g.all && g.all[id].handshakeId == Some(h)
    ensures GateInv(Note(Update(g, id, g.all[id].(transcriptHash := Some(t), state := Ready)), AppReady(id, h, t)))
  {
    var c, e := g.all[id], AppReady(id, h, t);
    var d := c.(transcriptHash := Some(t), state := Ready);
    ConnectionInvStays(g.log, e, id, c);
    FramesInvStays(g.log, e, id, c);
    var i: nat :| LastInitAt(g.log + [e], i, id, h);
    assert (g.log + [e])[|g.log|] == e;
    assert Occurs(g.log + [e], i, e);
    NoteKeepsOthers(g, id, d, e);
  }

  lemma AgentReadyKeeps(g: Gate, id: string, app: string, t: string)
    requires GateInv(g) && id in g.all && app in g.all[id].peers
    ensures var c := g.all[id];
            var peer := c.peers[app].(transcriptHash := Some(t), ready := true);
            GateInv(Note(Update(g, id, c.(peers := c.peers[app := peer])), AgentReady(id, app, peer.handshakeId, t)))
  {
    var c := g.all[id];
    var peer := c.peers[app].(transcriptHash := Some(t), ready := true);
    var d, e := c.(peers := c.peers[app := peer]), AgentReady(id, app, peer.handshakeId, t);
    ConnectionInvStays(g.log, e, id, c);
    FramesInvStays(g.log, e, id, c);
    var i: nat, j: nat :| AnsweredAt(g.log + [e], i, j, id, app, peer.handshakeId) && LastReplyAt(g.log + [e], j, id, app);
    assert (g.log + [e])[|g.log|] == e;
    assert j < |g.log|;
    assert Occurs(g.log + [e], j, e);
    assert PeerInv(g.log + [e], id, app, peer);
    assert ConnectionInv(g.log + [e], id, d);
    NoteKeepsOthers(g, id, d, e);
  }

  lemma ReadyKeeps(g: Gate, id: string, app: string, h: string, t: string)
    requires GateInv(g) && id in g.all
    ensures GateInv(HandleReady(g, id, app, h, t))
  {
    var c := g.all[id];
    if c.role == Mobile {
      if c.state == Handshaking && app == id && c.handshakeId == Some(h) {
        AppReadyKeeps(g, id, h, t);
      }
    } else if c.role == Agent && Addressable(g, c, app) && app in c.peers && c.peers[app].handshakeId == h {
      AgentReadyKeeps(g, id, app, t);
    }
  }

  lemma SealedKeeps(g: Gate, id: string, app: string, sessionId: string)
    requires GateInv(g) && id in g.all && sessionId != ""
    ensures GateInv(HandleSealed(g, id, app, sessionId))
  {
    var c := g.all[id];
    if c.role == Mobile {
      var e := AppFrame(id, sessionId);
      var d := c.(sessionId := Some(sessionId));
      if HandleSealed(g, id, app, sessionId) != Deliver(g, Refusal(id)) {
        ConnectionInvStays(g.log, e, id, c);
        assert ConnectionInv(g.log + [e], id, d);
        FrameSetsSession(g.log, id, c, sessionId);
        NoteKeepsOthers(g, id, d, e);
      }
    } else if c.role == Agent && app in c.peers {
      AgentFrameKeeps(g, id, app, sessionId);
    }
  }

  lemma AgentFrameKeeps(g: Gate, id: string, app: string, sessionId: string)
    requires GateInv(g) && id in g.all && app in g.all[id].peers
    ensures var c := g.all[id];
            var peer := c.peers[app].(sessionId := Some(sessionId));
            GateInv(Note(Update(g, id, c.(peers := c.peers[app := peer])), AgentFrame(id, app, sessionId)))
  {
    var c, e := g.all[id], AgentFrame(id, app, sessionId);
    var peer := c.peers[app].(sessionId := Some(sessionId));
    ConnectionInvStays(g.log, e, id, c);
    FramesInvStays(g.log, e, id, c);
    assert PeerInv(g.log + [e], id, app, c.peers[app]);
    var i: nat, j: nat :| AnsweredAt(g.log + [e], i, j, id, app, peer.handshakeId) && LastReplyAt(g.log + [e], j, id, app)
      && (peer.transcriptHash.Some? ==>
            Occurs(g.log + [e], j, AgentReady(id, app, peer.handshakeId, peer.transcriptHash.value)));
    assert PeerInv(g.log + [e], id, app, peer);
    NoteKeepsOthers(g, id, c.(peers := c.peers[app := peer]), e);
  }

  lemma FrameSetsSession(log: seq<Event>, id: string, c: Connection, sessionId: string)
    requires FramesInv(log, id, c) && sessionId != ""
    requires !Truthy(c.sessionId) || c.sessionId == Some(sessionId)
    ensures FramesInv(log + [AppFrame(id, sessionId)], id, c.(sessionId := Some(sessionId)))
  {
    var grown := log + [AppFrame(id, sessionId)];
    forall n | 0 <= n < |log| && grown[n].AppFrame? && grown[n].app == id && Current(grown, n, id)
      ensures grown[n].sessionId == sessionId
    {
      assert SameHandshake(grown, n, |log|, id);
      SameHandshakeStays(log, AppFrame(id, sessionId), n, |log|, id);
    }
  }

  lemma FailedKeeps(g: Gate, id: string, app: Option<string>)
    requires GateInv(g) && id in g.all
    ensures GateInv(HandleFailed(g, id, app))
  {
    var c := g.all[id];
    if c.role == Mobile {
      var e := AppFailed(id);
      var d := c.(state := if c.authenticated then PairingVerified else c.state,
                  handshakeId := None, transcriptHash := None, sessionId := None);
      ConnectionInvStays(g.log, e, id, c);
      assert FramesInv(g.log + [e], id, d) by {
        forall n | 0 <= n < |g.log + [e]| && (g.log + [e])[n].AppFrame?
          ensures !Current(g.log + [e], n, id)
        {
          assert (g.log + [e])[|g.log|] == e;
        }
      }
      NoteKeepsOthers(g, id, d, e);
    } else if c.role == Agent && Truthy(app) {
      var e := AgentFailed(id, app.value);
      ConnectionInvStays(g.log, e, id, c);
      FramesInvStays(g.log, e, id, c);
      NoteKeepsOthers(g, id, c.(peers := c.peers - {app.value}), e);
    }
  }

  lemma StepKeeps(g: Gate, step: Step)
    requires GateInv(g) && Possible(g, step)
    ensures GateInv(Apply(g, step))
  {
    match step
    case InitStep(id, app, h) => InitKeeps(g, id, app, h);
    case ReplyStep(id, app, h) => ReplyKeeps(g, id, app, h);
    case ReadyStep(id, app, h, t) => ReadyKeeps(g, id, app, h, t);
    case SealedStep(id, app, s) => SealedKeeps(g, id, app, s);
    case FailedStep(id, app) => FailedKeeps(g, id, app);
    case RegisterStep(id) => UpdateKeepsOthers(g, id, NEW_CONNECTION);
    case AdmitStep(id, role, state, device, authenticated) =>
      UpdateKeepsOthers(g, id, g.all[id].(role := role, state := state, deviceId := device, authenticated := authenticated));
    case UnregisterStep(id) => UpdateKeepsOthers(g, id, g.all[id].(state := Closed));
    case _ =>
  }

  lemma {:induction false} ReachableGates(start: Gate, steps: seq<Step>, g: Gate)
    requires GateInv(start) && Reaches(start, steps, g)
    ensures GateInv(g)
    decreases |steps|
  {
    if steps != [] {
      StepKeeps(start, steps[0]);
      ReachableGates(Apply(start, steps[0]), steps[1..], g);
    }
  }

  // ---- The theorems ----

  /** Every accepted init of an App carries a handshake id it had not used before. */
  predicate FreshHandshakes(log: seq<Event>) {
    forall i, j :: (0 <= i < j < |log| && log[i].AppInit? && log[j].AppInit? && log[i].app == log[j].app) ==>
      log[i].handshakeId != log[j].handshakeId
  }

  /** Since the App's last init, with `h`, the agent sent reply `h` and then
      ready `h`, and the App sent ready `h`, both with the transcript hash `t`. */
  ghost predicate ReadyHistory(log: seq<Event>, app: string, agent: string, h: string, t: string) {
    exists i: nat, j: nat ::
      && LastInitAt(log, i, app, h)
      && AnsweredAt(log, i, j, agent, app, h)
      && Occurs(log, j, AgentReady(agent, app, h, t))
      && Occurs(log, i, AppReady(app, h, t))
  }

  /** Since the App's last init, the agent sent it some reply. */
  ghost predicate RepliedSinceInit(log: seq<Event>, agent: string, app: string) {
    exists k :: 0 <= k < |log| && log[k].AgentReply? && log[k].agent == agent && log[k].app == app && NoInitAfter(log, k, app)
  }

  predicate NoInitAfter(log: seq<Event>, k: int, app: string) {
    forall n :: k < n < |log| && n >= 0 ==> !(log[n].AppInit? && log[n].app == app)
  }

  /** What makes a ready pair, wherever its reply stands. */
  lemma ReadyPairEvents(g: Gate, app: string, device: Option<string>) returns (i: nat, i': nat, j: nat)
    requires GateInv(g) && PairReady(g, app, device)
    ensures var agent, h, t := g.primary[device.value], g.all[app].handshakeId.value, g.all[app].transcriptHash.value;
            && LastInitAt(g.log, i, app, h) && Occurs(g.log, i, AppReady(app, h, t))
            && AnsweredAt(g.log, i', j, agent, app, h) && LastReplyAt(g.log, j, agent, app)
            && Occurs(g.log, j, AgentReady(agent, app, h, t))
  {
    var agent := g.primary[device.value];
    var mobile, peer := g.all[app], g.all[agent].peers[app];
    var h := peer.handshakeId;
    assert MobileInv(g.log, app, mobile) && PeerInv(g.log, agent, app, peer);
    i :| LastInitAt(g.log, i, app, h)
      && (mobile.transcriptHash.Some? ==> Occurs(g.log, i, AppReady(app, h, mobile.transcriptHash.value)));
    i', j :| AnsweredAt(g.log, i', j, agent, app, h) && LastReplyAt(g.log, j, agent, app)
      && (peer.transcriptHash.Some? ==> Occurs(g.log, j, AgentReady(agent, app, h, peer.transcriptHash.value)));
  }

  lemma HistoryHasReply(log: seq<Event>, app: string, agent: string, h: string, t: string)
    requires ReadyHistory(log, app, agent, h, t)
    ensures RepliedSinceInit(log, agent, app)
  {
    var i: nat, j: nat :| LastInitAt(log, i, app, h) && AnsweredAt(log, i, j, agent, app, h);
    assert NoInitAfter(log, j, app);
  }

  lemma ReplyMakesHistory(g: Gate, app: string, device: Option<string>)
    requires GateInv(g) && PairReady(g, app, device) && RepliedSinceInit(g.log, g.primary[device.value], app)
    ensures ReadyHistory(g.log, app, g.primary[device.value], g.all[app].handshakeId.value, g.all[app].transcriptHash.value)
  {
    var agent := g.primary[device.value];
    var i, i', j := ReadyPairEvents(g, app, device);
    var k :| 0 <= k < |g.log| && g.log[k].AgentReply? && g.log[k].agent == agent && g.log[k].app == app
      && NoInitAfter(g.log, k, app);
    assert i < k <= j;
    assert AnsweredAt(g.log, i, j, agent, app, g.all[app].handshakeId.value);
  }

  /** Pair readiness, exactly: a pair that the relay calls ready went through
      the whole exchange since the App's last init if and only if its agent
      has replied at all since then. */
  lemma ReadyHistoryExactly(steps: seq<Step>, g: Gate, app: string, device: Option<string>)
    requires Reaches(EMPTY, steps, g) && PairReady(g, app, device)
    ensures ReadyHistory(g.log, app, g.primary[device.value], g.all[app].handshakeId.value, g.all[app].transcriptHash.value)
            <==> RepliedSinceInit(g.log, g.primary[device.value], app)
  {
    ReachableGates(EMPTY, steps, g);
    var agent, h, t := g.primary[device.value], g.all[app].handshakeId.value, g.all[app].transcriptHash.value;
    if RepliedSinceInit(g.log, agent, app) {
      ReplyMakesHistory(g, app, device);
    } else if ReadyHistory(g.log, app, agent, h, t) {
      HistoryHasReply(g.log, app, agent, h, t);
    }
  }

  /** With fresh handshake ids the agent of a ready pair has always replied. */
  lemma FreshPairReplied(g: Gate, app: string, device: Option<string>)
    requires GateInv(g) && FreshHandshakes(g.log) && PairReady(g, app, device)
    ensures RepliedSinceInit(g.log, g.primary[device.value], app)
  {
    var i, i', j := ReadyPairEvents(g, app, device);
    assert i' == i;
    assert NoInitAfter(g.log, j, app);
  }

  /** Pair readiness: with fresh handshake ids, the relay calls a pair ready
      only after this exact exchange, with the current primary agent. */
  lemma PairReadyHasHistory(steps: seq<Step>, g: Gate, app: string, device: Option<string>)
    requires Reaches(EMPTY, steps, g) && FreshHandshakes(g.log) && PairReady(g, app, device)
    ensures ReadyHistory(g.log, app, g.primary[device.value], g.all[app].handshakeId.value, g.all[app].transcriptHash.value)
  {
    ReachableGates(EMPTY, steps, g);
    FreshPairReplied(g, app, device);
    ReadyHistoryExactly(steps, g, app, device);
  }

  // ---- What the relay forwards ----

  /** The gate lets the frame of a mobile connection pass. */
  predicate Passes(g: Gate, id: string, app: string, sessionId: string)
    requires id in g.all
  {
    var c := g.all[id];
    app == id && PairReady(g, id, c.deviceId) && (Truthy(c.sessionId) ==> c.sessionId == Some(sessionId))
  }

  lemma FrameIsForwardedOrRefused(g: Gate, id: string, app: string, sessionId: string)
    requires id in g.all && g.all[id].role == Mobile
    ensures var r := HandleSealed(g, id, app, sessionId);
            if Passes(g, id, app, sessionId) then
              && r.sent == g.sent + [Delivery(g.primary[g.all[id].deviceId.value], Sealed(id, sessionId))]
              && r.log == g.log + [AppFrame(id, sessionId)]
            else r == Deliver(g, Refusal(id))
  {
  }

  /** With fresh handshake ids, a frame from an App is either refused, with no
      other effect, or passed on once to the current primary agent, which has
      then gone through the whole exchange with that App since its last init. */
  lemma FrameNeedsHistory(steps: seq<Step>, g: Gate, id: string, app: string, sessionId: string)
    requires Reaches(EMPTY, steps, g) && FreshHandshakes(g.log)
    requires id in g.all && g.all[id].role == Mobile
    ensures var r := HandleSealed(g, id, app, sessionId);
            || r == Deliver(g, Refusal(id))
            || (&& Passes(g, id, app, sessionId)
                && var agent := g.primary[g.all[id].deviceId.value];
                && r.sent == g.sent + [Delivery(agent, Sealed(id, sessionId))]
                && ReadyHistory(g.log, id, agent, g.all[id].handshakeId.value, g.all[id].transcriptHash.value))
  {
    FrameIsForwardedOrRefused(g, id, app, sessionId);
    if Passes(g, id, app, sessionId) {
      PairReadyHasHistory(steps, g, id, g.all[id].deviceId);
    }
  }

  /** A frame for an agent left because the App sent it when the exchange with that agent was complete. */
  ghost predicate Justified(log: seq<Event>, agent: string, app: string, sessionId: string) {
    exists p, h, t :: 0 <= p < |log| && log[p] == AppFrame(app, sessionId) && ReadyHistory(log[..p], app, agent, h, t)
  }

  /** Frames that leave for an agent, not those for the App itself. */
  predicate ForAgent(d: Delivery) {
    d.Delivery? && d.message.Sealed? && d.to != d.message.app
  }

  ghost predicate AllJustified(g: Gate) {
    forall k :: 0 <= k < |g.sent| && ForAgent(g.sent[k]) ==>
      Justified(g.log, g.sent[k].to, g.sent[k].message.app, g.sent[k].message.sessionId)
  }

  lemma JustifiedStays(log: seq<Event>, e: Event, agent: string, app: string, sessionId: string)
    requires Justified(log, agent, app, sessionId)
    ensures Justified(log + [e], agent, app, sessionId)
  {
    var p, h, t :| 0 <= p < |log| && log[p] == AppFrame(app, sessionId) && ReadyHistory(log[..p], app, agent, h, t);
    assert (log + [e])[..p] == log[..p] && (log + [e])[p] == log[p];
  }

  lemma StepNotes(g: Gate, step: Step)
    requires Possible(g, step)
    ensures Apply(g, step).log == g.log || exists e :: Apply(g, step).log == g.log + [e]
  {
    match step
    case InitStep(id, app, h) => assert HandleInit(g, id, app, h).log in [g.log, g.log + [AppInit(id, h)]];
    case ReplyStep(id, app, h) => assert HandleReply(g, id, app, h).log in [g.log, g.log + [AgentReply(id, app, h)]];
    case ReadyStep(id, app, h, t) =>
      assert HandleReady(g, id, app, h, t).log in [g.log, g.log + [AppReady(id, h, t)], g.log + [AgentReady(id, app, h, t)]];
    case SealedStep(id, app, s) =>
      assert HandleSealed(g, id, app, s).log in [g.log, g.log + [AppFrame(id, s)], g.log + [AgentFrame(id, app, s)]];
    case FailedStep(id, app) =>
      var named := if app.Some? then app.value else "";
      assert HandleFailed(g, id, app).log in [g.log, g.log + [AppFailed(id)], g.log + [AgentFailed(id, named)]];
    case _ =>
  }

  /** No step sends a frame to an agent unless it is a frame of a mobile connection. */
  lemma StepSends(g: Gate, step: Step)
    requires Possible(g, step) && !(step.SealedStep? && g.all[step.id].role == Mobile)
    ensures g.sent <= Apply(g, step).sent
    ensures forall k :: |g.sent| <= k < |Apply(g, step).sent| ==> !ForAgent(Apply(g, step).sent[k])
  {
  }

  lemma StepKeepsJustified(g: Gate, step: Step)
    requires GateInv(g) && AllJustified(g) && Possible(g, step) && FreshHandshakes(g.log)
    ensures AllJustified(Apply(g, step))
  {
    var r := Apply(g, step);
    StepNotes(g, step);
    var fromApp := step.SealedStep? && g.all[step.id].role == Mobile;
    if fromApp {
      FrameIsForwardedOrRefused(g, step.id, step.app, step.sessionId);
    } else {
      StepSends(g, step);
    }
    forall k | 0 <= k < |r.sent| && ForAgent(r.sent[k])
      ensures Justified(r.log, r.sent[k].to, r.sent[k].message.app, r.sent[k].message.sessionId)
    {
      if k < |g.sent| {
        assert r.sent[k] == g.sent[k];
        if r.log != g.log {
          var e :| r.log == g.log + [e];
          JustifiedStays(g.log, e, r.sent[k].to, r.sent[k].message.app, r.sent[k].message.sessionId);
        }
      } else {
        assert fromApp && Passes(g, step.id, step.app, step.sessionId);
        FreshPairReplied(g, step.id, g.all[step.id].deviceId);
        ReplyMakesHistory(g, step.id, g.all[step.id].deviceId);
        assert r.log[|g.log|] == AppFrame(step.id, step.sessionId) && r.log[..|g.log|] == g.log;
      }
    }
  }

  lemma {:induction false} LogGrows(start: Gate, steps: seq<Step>, g: Gate)
    requires Reaches(start, steps, g)
    ensures start.log <= g.log
    decreases |steps|
  {
    if steps != [] {
      StepNotes(start, steps[0]);
      LogGrows(Apply(start, steps[0]), steps[1..], g);
    }
  }

  lemma {:induction false} RunKeepsJustified(start: Gate, steps: seq<Step>, g: Gate)
    requires GateInv(start) && AllJustified(start) && Reaches(start, steps, g) && FreshHandshakes(g.log)
    ensures AllJustified(g)
    decreases |steps|
  {
    if steps != [] {
      LogGrows(start, steps, g);
      assert FreshHandshakes(start.log);
      StepKeeps(start, steps[0]);
      StepKeepsJustified(start, steps[0]);
      RunKeepsJustified(Apply(start, steps[0]), steps[1..], g);
    }
  }

  /** In every run with fresh handshake ids, each sealed frame that the relay
      ever sent to an agent was sent by its App, at a moment when App and that
      agent had completed the exchange begun by the App's last init. */
  lemma FramesOnlyFromReadyPairs(steps: seq<Step>, g: Gate, k: nat)
    requires Reaches(EMPTY, steps, g) && FreshHandshakes(g.log)
    requires k < |g.sent| && ForAgent(g.sent[k])
    ensures Justified(g.log, g.sent[k].to, g.sent[k].message.app, g.sent[k].message.sessionId)
  {
    RunKeepsJustified(EMPTY, steps, g);
  }

  /** Two forwarded frames of an App with no new handshake and no failure in between carry the same session identity. */
  lemma OneSessionPerHandshake(steps: seq<Step>, g: Gate, m: nat, n: nat)
    requires Reaches(EMPTY, steps, g) && m < n < |g.log|
    requires g.log[m].AppFrame? && g.log[n].AppFrame? && g.log[m].app == g.log[n].app
    requires SameHandshake(g.log, m, n, g.log[m].app)
    ensures g.log[m].sessionId == g.log[n].sessionId
  {
    ReachableGates(EMPTY, steps, g);
  }

  ghost predicate Reachable(g: Gate) {
    exists steps :: Reaches(EMPTY, steps, g)
  }

  lemma {:induction false} ReachesOneMore(start: Gate, steps: seq<Step>, g: Gate, step: Step)
    requires Reaches(start, steps, g) && Possible(g, step)
    ensures Reaches(start, steps + [step], Apply(g, step))
    decreases |steps|
  {
    if steps != [] {
      ReachesOneMore(Apply(start, steps[0]), steps[1..], g, step);
      assert (steps + [step])[1..] == steps[1..] + [step];
    } else {
      assert ([step])[1..] == [];
    }
  }

  lemma Take(g: Gate, step: Step) returns (h: Gate)
    requires Reachable(g) && Possible(g, step)
    ensures h == Apply(g, step) && Reachable(h)
  {
    h := Apply(g, step);
    var steps :| Reaches(EMPTY, steps, g);
    ReachesOneMore(EMPTY, steps, g, step);
  }

  /** A paired App and Agent before any handshake. */
  lemma AdmittedPair(app: string, agent: string, device: string) returns (g: Gate)
    requires app != agent
    ensures Reachable(g)
    ensures g.all == map[app := Connection(Mobile, PairingVerified, Some(device), true, None, None, None, map[]),
                         agent := Connection(Agent, RegisteredAgent, Some(device), true, None, None, None, map[])]
    ensures g.live == {app, agent} && g.primary == map[device := agent] && g.log == [] && g.sent == []
  {
    assert Reaches(EMPTY, [], EMPTY);
    g := Take(EMPTY, RegisterStep(app));
    g := Take(g, RegisterStep(agent));
    g := Take(g, AdmitStep(app, Mobile, PairingVerified, Some(device), true));
    g := Take(g, AdmitStep(agent, Agent, RegisteredAgent, Some(device), true));
    g := Take(g, PrimaryStep(device, agent));
  }

  /** A first handshake, up to the Agent's ready. */
  lemma HalfReadyPair(app: string, agent: string, device: string, h: string, t: string) returns (g: Gate)
    requires app != agent && device != "" && h != "" && t != ""
    ensures Reachable(g)
    ensures app in g.all && agent in g.all
    ensures g.all[app] == Connection(Mobile, Handshaking, Some(device), true, Some(h), None, None, map[])
    ensures g.all[agent].peers == map[app := Peer(h, Some(t), None, true)]
    ensures g.live == {app, agent} && g.primary == map[device := agent]
    ensures g.log == [AppInit(app, h), AgentReply(agent, app, h), AgentReady(agent, app, h, t)]
    ensures g.all[agent].role == Agent && g.all[agent].deviceId == Some(device)
    ensures g.sent == [Delivery(agent, Init(app, h)), Delivery(app, Reply(app, h)),
                       Authenticated(device, app), Delivery(app, ReadyMessage(app, h, t))]
  {
    g := AdmittedPair(app, agent, device);
    g := Take(g, InitStep(app, app, h));
    g := Take(g, ReplyStep(agent, app, h));
    assert g.all[agent].peers == map[app := Peer(h, None, None, false)];
    g := Take(g, ReadyStep(agent, app, h, t));
  }

  /** The condition can fail without freshness: an App that reuses a handshake id after a failure is
      called ready on the strength of the old reply, with no new one. */
  lemma ReusedHandshakeIdIsStale(app: string, agent: string, device: string, h: string, t: string)
    returns (g: Gate)
    requires app != agent && device != "" && h != "" && t != ""
    ensures Reachable(g) && PairReady(g, app, Some(device)) && !ReadyHistory(g.log, app, agent, h, t)
  {
    g := HalfReadyPair(app, agent, device, h, t);
    g := Take(g, FailedStep(app, Some(app)));
    g := Take(g, InitStep(app, app, h));
    g := Take(g, ReadyStep(app, app, h, t));
    assert g.log == [AppInit(app, h), AgentReply(agent, app, h), AgentReady(agent, app, h, t),
                     AppFailed(app), AppInit(app, h), AppReady(app, h, t)];
    assert g.log[4] == AppInit(app, h);
  }
}

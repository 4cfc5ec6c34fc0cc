// What happens to an Agent's frames, told by what the relay accepted before,
// and a whole exchange from end to end.
module RelayGateAgents {
  import opened Options
  import opened RelayGateSpec
  import opened RelayGateHistory

  // ---- What the log says of an Agent and an App ----

  predicate FromAgent(e: Event) {
    e.AgentReply? || e.AgentReady? || e.AgentFrame? || e.AgentFailed?
  }

  predicate About(e: Event, agent: string, app: string) {
    FromAgent(e) && e.agent == agent && e.app == app
  }

  predicate NoReplyAfter(log: seq<Event>, n: int, agent: string, app: string) {
    forall m :: n < m < |log| && m >= 0 ==> !(log[m].AgentReply? && About(log[m], agent, app))
  }

  predicate NoFailureAfter(log: seq<Event>, n: int, agent: string, app: string) {
    forall m :: n < m < |log| && m >= 0 ==> !(log[m].AgentFailed? && About(log[m], agent, app))
  }

  predicate ReadyAt(log: seq<Event>, n: int, agent: string, app: string) {
    && 0 <= n < |log| && log[n].AgentReady? && About(log[n], agent, app)
    && NoReplyAfter(log, n, agent, app) && NoFailureAfter(log, n, agent, app)
  }

  /** The Agent said that it was ready for the App, and has neither replied to it anew nor failed since. */
  ghost predicate AgentIsReady(log: seq<Event>, agent: string, app: string) {
    exists n :: ReadyAt(log, n, agent, app)
  }

  predicate FrameAt(log: seq<Event>, n: int, agent: string, app: string, sessionId: string) {
    0 <= n < |log| && log[n] == AgentFrame(agent, app, sessionId) && NoReplyAfter(log, n, agent, app)
  }

  /** Since its last reply to the App, the Agent sent it a frame of the session. */
  ghost predicate FrameSinceReply(log: seq<Event>, agent: string, app: string, sessionId: string) {
    exists n :: FrameAt(log, n, agent, app, sessionId)
  }

  /** The session is the one in use since the Agent's last reply, if there is one. */
  ghost predicate KeepsSession(log: seq<Event>, agent: string, app: string, sessionId: string) {
    forall s :: FrameSinceReply(log, agent, app, s) ==> s == sessionId
  }

  /** Frames of one Agent for one App with no reply between them agree on the session. */
  predicate AgentFramesAgree(log: seq<Event>) {
    forall m, n :: (0 <= m < n < |log| && log[m].AgentFrame? && log[n].AgentFrame?
                    && log[m].agent == log[n].agent && log[m].app == log[n].app
                    && NoReplyAfter(log[..n], m, log[m].agent, log[m].app)) ==>
      log[m].sessionId == log[n].sessionId
  }

  // ---- What an Agent's record says ----

  function PeerOf(g: Gate, id: string, app: string): (p: Option<Peer>) {
    if id in g.all && app in g.all[id].peers then Some(g.all[id].peers[app]) else None
  }

  ghost predicate Told(log: seq<Event>, agent: string, app: string, p: Option<Peer>) {
    && (AgentIsReady(log, agent, app) <==> p.Some? && p.value.ready)
    && (p.Some? ==> forall s :: FrameSinceReply(log, agent, app, s) <==> p.value.sessionId == Some(s))
  }

  predicate SessionsNamed(log: seq<Event>) {
    forall n :: 0 <= n < |log| && log[n].AgentFrame? ==> log[n].sessionId != ""
  }

  ghost predicate AgentsInv(g: Gate) {
    (forall id, app :: Told(g.log, id, app, PeerOf(g, id, app))) && AgentFramesAgree(g.log) && SessionsNamed(g.log)
  }

  // ---- One more event ----

  lemma ReadyAfter(log: seq<Event>, e: Event, agent: string, app: string)
    ensures AgentIsReady(log + [e], agent, app) <==>
            || (e.AgentReady? && About(e, agent, app))
            || (AgentIsReady(log, agent, app) && !((e.AgentReply? || e.AgentFailed?) && About(e, agent, app)))
  {
    var more := log + [e];
    if e.AgentReady? && About(e, agent, app) {
      assert ReadyAt(more, |log|, agent, app);
    } else {
      forall n | 0 <= n < |log|
        ensures ReadyAt(more, n, agent, app) <==>
                ReadyAt(log, n, agent, app) && !((e.AgentReply? || e.AgentFailed?) && About(e, agent, app))
      {
        EndsBefore(log, e, n, agent, app);
      }
      if AgentIsReady(more, agent, app) {
        var n :| ReadyAt(more, n, agent, app);
        assert ReadyAt(log, n, agent, app);
      } else if AgentIsReady(log, agent, app) {
        var n :| ReadyAt(log, n, agent, app);
        assert !ReadyAt(more, n, agent, app);
      }
    }
  }

  lemma EndsBefore(log: seq<Event>, e: Event, n: int, agent: string, app: string)
    requires 0 <= n < |log|
    ensures (log + [e])[n] == log[n]
    ensures NoReplyAfter(log + [e], n, agent, app) <==>
            NoReplyAfter(log, n, agent, app) && !(e.AgentReply? && About(e, agent, app))
    ensures NoFailureAfter(log + [e], n, agent, app) <==>
            NoFailureAfter(log, n, agent, app) && !(e.AgentFailed? && About(e, agent, app))
  {
    var more := log + [e];
    assert more[|log|] == e;
    forall m | 0 <= m < |log|
      ensures more[m] == log[m]
    {
    }
  }

  lemma FramesAfter(log: seq<Event>, e: Event, agent: string, app: string, s: string)
    ensures FrameSinceReply(log + [e], agent, app, s) <==>
            || e == AgentFrame(agent, app, s)
            || (FrameSinceReply(log, agent, app, s) && !(e.AgentReply? && About(e, agent, app)))
  {
    var more := log + [e];
    if e == AgentFrame(agent, app, s) {
      assert FrameAt(more, |log|, agent, app, s);
    } else {
      forall n | 0 <= n < |log|
        ensures FrameAt(more, n, agent, app, s) <==>
                FrameAt(log, n, agent, app, s) && !(e.AgentReply? && About(e, agent, app))
      {
        EndsBefore(log, e, n, agent, app);
      }
      if FrameSinceReply(more, agent, app, s) {
        var n :| FrameAt(more, n, agent, app, s);
        assert FrameAt(log, n, agent, app, s);
      } else if FrameSinceReply(log, agent, app, s) {
        var n :| FrameAt(log, n, agent, app, s);
        assert !FrameAt(more, n, agent, app, s);
      }
    }
  }

  lemma ToldStays(log: seq<Event>, e: Event, agent: string, app: string, p: Option<Peer>)
    requires Told(log, agent, app, p) && !About(e, agent, app)
    ensures Told(log + [e], agent, app, p)
  {
    ReadyAfter(log, e, agent, app);
    forall s
      ensures FrameSinceReply(log + [e], agent, app, s) <==> FrameSinceReply(log, agent, app, s)
    {
      FramesAfter(log, e, agent, app, s);
    }
  }

  lemma ReplyIsTold(log: seq<Event>, agent: string, app: string, h: string)
    ensures Told(log + [AgentReply(agent, app, h)], agent, app, Some(Peer(h, None, None, false)))
  {
    var e := AgentReply(agent, app, h);
    ReadyAfter(log, e, agent, app);
    forall s
      ensures !FrameSinceReply(log + [e], agent, app, s)
    {
      FramesAfter(log, e, agent, app, s);
    }
  }

  lemma ReadyIsTold(log: seq<Event>, agent: string, app: string, h: string, t: string, p: Peer)
    requires Told(log, agent, app, Some(p))
    ensures Told(log + [AgentReady(agent, app, h, t)], agent, app, Some(p.(transcriptHash := Some(t), ready := true)))
  {
    var e := AgentReady(agent, app, h, t);
    ReadyAfter(log, e, agent, app);
    forall s
      ensures FrameSinceReply(log + [e], agent, app, s) <==> FrameSinceReply(log, agent, app, s)
    {
      FramesAfter(log, e, agent, app, s);
    }
  }

  lemma FailureIsTold(log: seq<Event>, agent: string, app: string)
    ensures Told(log + [AgentFailed(agent, app)], agent, app, None)
  {
    ReadyAfter(log, AgentFailed(agent, app), agent, app);
  }

  lemma FrameIsTold(log: seq<Event>, agent: string, app: string, sessionId: string, p: Peer)
    requires Told(log, agent, app, Some(p)) && (p.sessionId.None? || p.sessionId == Some(sessionId))
    ensures Told(log + [AgentFrame(agent, app, sessionId)], agent, app, Some(p.(sessionId := Some(sessionId))))
  {
    var e := AgentFrame(agent, app, sessionId);
    ReadyAfter(log, e, agent, app);
    forall s
      ensures FrameSinceReply(log + [e], agent, app, s) <==> s == sessionId
    {
      FramesAfter(log, e, agent, app, s);
    }
  }

  /** One more event keeps frames in agreement if, as a frame, it keeps to the session in use. */
  lemma AgreementStays(log: seq<Event>, e: Event)
    requires AgentFramesAgree(log) && (e.AgentFrame? ==> KeepsSession(log, e.agent, e.app, e.sessionId))
    ensures AgentFramesAgree(log + [e])
  {
    var more := log + [e];
    forall m, n | 0 <= m < n < |more| && more[m].AgentFrame? && more[n].AgentFrame?
        && more[m].agent == more[n].agent && more[m].app == more[n].app
        && NoReplyAfter(more[..n], m, more[m].agent, more[m].app)
      ensures more[m].sessionId == more[n].sessionId
    {
      if n < |log| {
        assert more[..n] == log[..n] && more[m] == log[m] && more[n] == log[n];
      } else {
        assert more[..n] == log && more[m] == log[m] && more[n] == e;
        assert log[m] == AgentFrame(e.agent, e.app, log[m].sessionId);
        assert FrameAt(log, m, e.agent, e.app, log[m].sessionId);
        assert FrameSinceReply(log, e.agent, e.app, log[m].sessionId);
      }
    }
  }

  // ---- Steps ----

  /** A step that notes nothing, or an event that is not from an Agent, and leaves peers alone. */
  lemma OthersKeep(g: Gate, r: Gate)
    requires AgentsInv(g) && (forall id, app :: PeerOf(r, id, app) == PeerOf(g, id, app))
    requires r.log == g.log || exists e :: r.log == g.log + [e] && !FromAgent(e)
    ensures AgentsInv(r)
  {
    if r.log != g.log {
      var e :| r.log == g.log + [e] && !FromAgent(e);
      AgreementStays(g.log, e);
      forall id, app
        ensures Told(r.log, id, app, PeerOf(r, id, app))
      {
        ToldStays(g.log, e, id, app, PeerOf(g, id, app));
      }
    } else {
      forall id, app
        ensures Told(r.log, id, app, PeerOf(r, id, app))
      {
        assert Told(g.log, id, app, PeerOf(g, id, app));
      }
    }
  }

  /** A step that notes an event of one Agent about one App, whose record then says so. */
  lemma OneIsTold(g: Gate, r: Gate, e: Event)
    requires AgentsInv(g) && FromAgent(e) && r.log == g.log + [e]
    requires forall id, app :: id != e.agent || app != e.app ==> PeerOf(r, id, app) == PeerOf(g, id, app)
    requires Told(r.log, e.agent, e.app, PeerOf(r, e.agent, e.app))
    requires e.AgentFrame? ==> e.sessionId != "" && KeepsSession(g.log, e.agent, e.app, e.sessionId)
    ensures AgentsInv(r)
  {
    AgreementStays(g.log, e);
    forall id, app
      ensures Told(r.log, id, app, PeerOf(r, id, app))
    {
      if !About(e, id, app) {
        ToldStays(g.log, e, id, app, PeerOf(g, id, app));
      }
    }
  }

  lemma ReplyStepKeeps(g: Gate, id: string, app: string, h: string)
    requires AgentsInv(g) && id in g.all
    ensures AgentsInv(HandleReply(g, id, app, h))
  {
    var c, r := g.all[id], HandleReply(g, id, app, h);
    if c.role == Agent && Addressable(g, c, app) && g.all[app].handshakeId == Some(h) {
      ReplyIsTold(g.log, id, app, h);
      OneIsTold(g, r, AgentReply(id, app, h));
    } else {
      OthersKeep(g, r);
    }
  }

  lemma ReadyStepKeeps(g: Gate, id: string, app: string, h: string, t: string)
    requires AgentsInv(g) && id in g.all
    ensures AgentsInv(HandleReady(g, id, app, h, t))
  {
    var c, r := g.all[id], HandleReady(g, id, app, h, t);
    if c.role == Agent && Addressable(g, c, app) && app in c.peers && c.peers[app].handshakeId == h {
      assert Told(g.log, id, app, PeerOf(g, id, app));
      ReadyIsTold(g.log, id, app, h, t, c.peers[app]);
      OneIsTold(g, r, AgentReady(id, app, h, t));
    } else {
      if c.role == Mobile && c.state == Handshaking && app == id && c.handshakeId == Some(h) {
        assert r.log == g.log + [AppReady(id, h, t)];
      }
      OthersKeep(g, r);
    }
  }

  /** The gate lets an Agent's frame pass. */
  predicate AgentPasses(g: Gate, id: string, app: string, sessionId: string)
    requires id in g.all
  {
    var c := g.all[id];
    && Addressable(g, c, app) && app in c.peers && c.peers[app].ready
    && (Truthy(c.peers[app].sessionId) ==> c.peers[app].sessionId == Some(sessionId))
  }

  lemma SessionIsNamed(g: Gate, id: string, app: string)
    requires AgentsInv(g) && id in g.all && app in g.all[id].peers
    ensures g.all[id].peers[app].sessionId.Some? ==> Truthy(g.all[id].peers[app].sessionId)
  {
    var o := g.all[id].peers[app].sessionId;
    assert Told(g.log, id, app, PeerOf(g, id, app));
    if o.Some? {
      assert FrameSinceReply(g.log, id, app, o.value);
    }
  }

  lemma SealedStepKeeps(g: Gate, id: string, app: string, sessionId: string)
    requires AgentsInv(g) && id in g.all && sessionId != ""
    ensures AgentsInv(HandleSealed(g, id, app, sessionId))
  {
    var c, r := g.all[id], HandleSealed(g, id, app, sessionId);
    if c.role == Agent && AgentPasses(g, id, app, sessionId) {
      SessionIsNamed(g, id, app);
      assert Told(g.log, id, app, PeerOf(g, id, app));
      FrameIsTold(g.log, id, app, sessionId, c.peers[app]);
      OneIsTold(g, r, AgentFrame(id, app, sessionId));
    } else {
      if c.role == Mobile {
        assert r.log in [g.log, g.log + [AppFrame(id, sessionId)]];
      } else {
        assert r == Deliver(g, Refusal(id));
      }
      OthersKeep(g, r);
    }
  }

  lemma FailedStepKeeps(g: Gate, id: string, app: Option<string>)
    requires AgentsInv(g) && id in g.all
    ensures AgentsInv(HandleFailed(g, id, app))
  {
    var c, r := g.all[id], HandleFailed(g, id, app);
    if c.role == Agent && Truthy(app) {
      FailureIsTold(g.log, id, app.value);
      OneIsTold(g, r, AgentFailed(id, app.value));
    } else {
      if c.role == Mobile {
        assert r.log == g.log + [AppFailed(id)];
      }
      OthersKeep(g, r);
    }
  }

  lemma InitStepKeeps(g: Gate, id: string, app: string, h: string)
    requires AgentsInv(g) && id in g.all
    ensures AgentsInv(HandleInit(g, id, app, h))
  {
    var r := HandleInit(g, id, app, h);
    assert r.log in [g.log, g.log + [AppInit(id, h)]];
    OthersKeep(g, r);
  }

  lemma StepKeepsAgents(g: Gate, step: Step)
    requires AgentsInv(g) && Possible(g, step)
    ensures AgentsInv(Apply(g, step))
  {
    match step
    case InitStep(id, app, h) => InitStepKeeps(g, id, app, h);
    case ReplyStep(id, app, h) => ReplyStepKeeps(g, id, app, h);
    case ReadyStep(id, app, h, t) => ReadyStepKeeps(g, id, app, h, t);
    case SealedStep(id, app, s) => SealedStepKeeps(g, id, app, s);
    case FailedStep(id, app) => FailedStepKeeps(g, id, app);
    case _ => OthersKeep(g, Apply(g, step));
  }

  lemma NothingTold(id: string, app: string)
    ensures Told([], id, app, None)
  {
  }

  lemma {:induction false} ReachableAgents(start: Gate, steps: seq<Step>, g: Gate)
    requires AgentsInv(start) && Reaches(start, steps, g)
    ensures AgentsInv(g)
    decreases |steps|
  {
    if steps != [] {
      StepKeepsAgents(start, steps[0]);
      ReachableAgents(Apply(start, steps[0]), steps[1..], g);
    }
  }

  lemma EveryRunTells(steps: seq<Step>, g: Gate)
    requires Reaches(EMPTY, steps, g)
    ensures AgentsInv(g)
  {
    forall id, app
      ensures Told([], id, app, PeerOf(EMPTY, id, app))
    {
      NothingTold(id, app);
    }
    ReachableAgents(EMPTY, steps, g);
  }

  // ---- The theorems ----

  lemma AgentFrameIsForwardedOrRefused(g: Gate, id: string, app: string, sessionId: string)
    requires id in g.all && g.all[id].role == Agent
    ensures var r := HandleSealed(g, id, app, sessionId);
            if AgentPasses(g, id, app, sessionId) then
              && r.sent == g.sent + [Delivery(app, Sealed(app, sessionId))]
              && r.log == g.log + [AgentFrame(id, app, sessionId)]
            else r == Deliver(g, Refusal(id))
  {
  }

  /** After every run, a frame from an Agent is passed on to its App, exactly
      once, if and only if the App is there and of the Agent's device, the
      Agent has said that it is ready and neither replied anew nor failed
      since, and the frame keeps to the session in use since the last reply.
      Otherwise it is refused with no other effect. */
  lemma AgentFrameReachesApp(steps: seq<Step>, g: Gate, id: string, app: string, sessionId: string)
    requires Reaches(EMPTY, steps, g) && id in g.all && g.all[id].role == Agent
    ensures var r := HandleSealed(g, id, app, sessionId);
            if Addressable(g, g.all[id], app) && AgentIsReady(g.log, id, app) && KeepsSession(g.log, id, app, sessionId) then
              && r.sent == g.sent + [Delivery(app, Sealed(app, sessionId))]
              && r.log == g.log + [AgentFrame(id, app, sessionId)]
            else r == Deliver(g, Refusal(id))
  {
    EveryRunTells(steps, g);
    assert Told(g.log, id, app, PeerOf(g, id, app));
    if app in g.all[id].peers {
      SessionIsNamed(g, id, app);
    }
    AgentFrameIsForwardedOrRefused(g, id, app, sessionId);
  }

  /** Between two replies to an App, all frames of an Agent for it carry one session identity. */
  lemma OneSessionPerReply(steps: seq<Step>, g: Gate)
    requires Reaches(EMPTY, steps, g)
    ensures AgentFramesAgree(g.log)
  {
    EveryRunTells(steps, g);
  }

  /** A whole handshake: each message is delivered to the other end. */
  lemma WholeHandshake(app: string, agent: string, device: string, h: string, t: string) returns (g: Gate)
    requires app != agent && device != "" && h != "" && t != ""
    ensures Reachable(g) && app in g.all && agent in g.all && g.live == {app, agent} && g.primary == map[device := agent]
    ensures g.all[app] == Connection(Mobile, Ready, Some(device), true, Some(h), Some(t), None, map[])
    ensures g.all[agent].role == Agent && g.all[agent].deviceId == Some(device)
    ensures g.all[agent].peers == map[app := Peer(h, Some(t), None, true)]
    ensures g.sent == [Delivery(agent, Init(app, h)), Delivery(app, Reply(app, h)),
                       Authenticated(device, app), Delivery(app, ReadyMessage(app, h, t)),
                       Delivery(agent, ReadyMessage(app, h, t))]
  {
    g := HalfReadyPair(app, agent, device, h, t);
    g := Take(g, ReadyStep(app, app, h, t));
  }

  /** A frame each way passes a pair that has not yet used a session. */
  lemma FrameEachWay(g: Gate, app: string, agent: string, device: string, h: string, t: string, s: string) returns (r: Gate)
    requires Reachable(g) && app in g.all && agent in g.all && app in g.live && g.primary == map[device := agent]
    requires g.all[app] == Connection(Mobile, Ready, Some(device), true, Some(h), Some(t), None, map[])
    requires g.all[agent].role == Agent && g.all[agent].deviceId == Some(device)
    requires g.all[agent].peers == map[app := Peer(h, Some(t), None, true)]
    requires app != agent && device != "" && h != "" && t != "" && s != ""
    ensures PairReady(g, app, Some(device)) && Reachable(r)
    ensures r.sent == g.sent + [Delivery(agent, Sealed(app, s))] + [Delivery(app, Sealed(app, s))]
  {
    assert PairReady(g, app, Some(device));
    var middle := Take(g, SealedStep(app, app, s));
    FrameIsForwardedOrRefused(g, app, app, s);
    assert middle.all[agent] == g.all[agent] && middle.live == g.live && middle.all[app].role == Mobile;
    r := Take(middle, SealedStep(agent, app, s));
    AgentFrameIsForwardedOrRefused(middle, agent, app, s);
  }

  /** A whole exchange: from a paired App and Agent, the init, the reply, both
      readys and a frame each way are each delivered to the other end, once and
      in order, and the App is announced as authenticated. */
  lemma WholeExchange(app: string, agent: string, device: string, h: string, t: string, s: string) returns (g: Gate)
    requires app != agent && device != "" && h != "" && t != "" && s != ""
    ensures Reachable(g)
    ensures g.sent == [Delivery(agent, Init(app, h)), Delivery(app, Reply(app, h)),
                       Authenticated(device, app), Delivery(app, ReadyMessage(app, h, t)),
                       Delivery(agent, ReadyMessage(app, h, t)),
                       Delivery(agent, Sealed(app, s)), Delivery(app, Sealed(app, s))]
  {
    var shaken := WholeHandshake(app, agent, device, h, t);
    g := FrameEachWay(shaken, app, agent, device, h, t, s);
  }

  /** A failure that either end of a pair reports is passed on to the other. */
  lemma FailuresArePassedOn(app: string, agent: string, device: string) returns (g: Gate)
    requires app != agent && app != "" && device != ""
    ensures Reachable(g)
    ensures g.sent == [Delivery(agent, Failed(Some(app))), Delivery(app, Failed(Some(app)))]
  {
    g := AdmittedPair(app, agent, device);
    g := Take(g, FailedStep(app, Some(app)));
    g := Take(g, FailedStep(agent, Some(app)));
  }
}

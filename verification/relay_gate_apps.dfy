// What happens to an App's frames: which session they may carry is told by
// the frames accepted since the App's last init or failure.
module RelayGateApps {
  import opened Options
  import opened RelayGateSpec
  import opened RelayGateHistory

  predicate FrameAt(log: seq<Event>, n: nat, app: string, sessionId: string) {
    n < |log| && log[n] == AppFrame(app, sessionId) && Current(log, n, app)
  }

  /** Since its last init or failure, the App sent a frame of the session. */
  ghost predicate FrameSinceInit(log: seq<Event>, app: string, sessionId: string) {
    exists n: nat :: FrameAt(log, n, app, sessionId)
  }

  /** The session is the one in use since then, if there is one. */
  ghost predicate KeepsSession(log: seq<Event>, app: string, sessionId: string) {
    forall s :: FrameSinceInit(log, app, s) ==> s == sessionId
  }

  function SessionOf(g: Gate, id: string): (o: Option<string>) {
    if id in g.all then g.all[id].sessionId else None
  }

  /** The log and the record tell of the same session. */
  ghost predicate Used(log: seq<Event>, app: string, o: Option<string>) {
    forall s :: FrameSinceInit(log, app, s) <==> o == Some(s)
  }

  predicate SessionsNamed(log: seq<Event>) {
    forall n :: 0 <= n < |log| && log[n].AppFrame? ==> log[n].sessionId != ""
  }

  ghost predicate AppsInv(g: Gate) {
    (forall id :: Used(g.log, id, SessionOf(g, id))) && SessionsNamed(g.log)
  }

  // ---- One more event ----

  predicate Resets(e: Event, app: string) {
    (e.AppInit? || e.AppFailed?) && e.app == app
  }

  lemma CurrentAfter(log: seq<Event>, e: Event, n: nat, app: string)
    requires n < |log|
    ensures (log + [e])[n] == log[n]
    ensures Current(log + [e], n, app) <==> Current(log, n, app) && !Resets(e, app)
  {
    var more := log + [e];
    assert more[|log|] == e;
    forall m | 0 <= m < |log|
      ensures more[m] == log[m]
    {
    }
  }

  lemma FramesAfter(log: seq<Event>, e: Event, app: string, s: string)
    ensures FrameSinceInit(log + [e], app, s) <==>
            e == AppFrame(app, s) || (FrameSinceInit(log, app, s) && !Resets(e, app))
  {
    var more := log + [e];
    if e == AppFrame(app, s) {
      assert FrameAt(more, |log|, app, s);
    } else {
      forall n: nat | n < |log|
        ensures FrameAt(more, n, app, s) <==> FrameAt(log, n, app, s) && !Resets(e, app)
      {
        CurrentAfter(log, e, n, app);
      }
      if FrameSinceInit(more, app, s) {
        var n: nat :| FrameAt(more, n, app, s);
        assert FrameAt(log, n, app, s);
      } else if FrameSinceInit(log, app, s) {
        var n: nat :| FrameAt(log, n, app, s);
        assert !FrameAt(more, n, app, s);
      }
    }
  }

  lemma UsedStays(log: seq<Event>, e: Event, app: string, o: Option<string>)
    requires Used(log, app, o) && !Resets(e, app) && !(e.AppFrame? && e.app == app)
    ensures Used(log + [e], app, o)
  {
    forall s
      ensures FrameSinceInit(log + [e], app, s) <==> o == Some(s)
    {
      FramesAfter(log, e, app, s);
    }
  }

  lemma ResetIsUsed(log: seq<Event>, e: Event, app: string)
    requires Resets(e, app)
    ensures Used(log + [e], app, None)
  {
    forall s
      ensures !FrameSinceInit(log + [e], app, s)
    {
      FramesAfter(log, e, app, s);
    }
  }

  lemma FrameIsUsed(log: seq<Event>, app: string, sessionId: string, o: Option<string>)
    requires Used(log, app, o) && (o.None? || o == Some(sessionId))
    ensures Used(log + [AppFrame(app, sessionId)], app, Some(sessionId))
  {
    forall s
      ensures FrameSinceInit(log + [AppFrame(app, sessionId)], app, s) <==> s == sessionId
    {
      FramesAfter(log, AppFrame(app, sessionId), app, s);
    }
  }

  // ---- Steps ----

  predicate OfApp(e: Event) {
    e.AppInit? || e.AppFailed? || e.AppFrame?
  }

  /** A step that leaves the sessions alone and notes nothing, or no init, failure or frame of an App. */
  lemma OthersKeep(g: Gate, r: Gate)
    requires AppsInv(g) && forall id :: SessionOf(r, id) == SessionOf(g, id)
    requires r.log == g.log || exists e :: r.log == g.log + [e] && !OfApp(e)
    ensures AppsInv(r)
  {
    if r.log != g.log {
      var e :| r.log == g.log + [e] && !OfApp(e);
      forall id
        ensures Used(r.log, id, SessionOf(r, id))
      {
        assert Used(g.log, id, SessionOf(g, id));
        UsedStays(g.log, e, id, SessionOf(g, id));
      }
    } else {
      forall id
        ensures Used(r.log, id, SessionOf(r, id))
      {
        assert Used(g.log, id, SessionOf(g, id));
      }
    }
  }

  /** A step that notes an init, failure or frame of one App, whose record then says so. */
  lemma OneIsUsed(g: Gate, r: Gate, e: Event)
    requires AppsInv(g) && OfApp(e) && r.log == g.log + [e]
    requires forall id :: id != e.app ==> SessionOf(r, id) == SessionOf(g, id)
    requires Used(r.log, e.app, SessionOf(r, e.app))
    requires e.AppFrame? ==> e.sessionId != ""
    ensures AppsInv(r)
  {
    forall id
      ensures Used(r.log, id, SessionOf(r, id))
    {
      if id != e.app {
        assert Used(g.log, id, SessionOf(g, id));
        UsedStays(g.log, e, id, SessionOf(g, id));
      }
    }
  }

  lemma InitStepKeeps(g: Gate, id: string, app: string, h: string)
    requires AppsInv(g) && id in g.all
    ensures AppsInv(HandleInit(g, id, app, h))
  {
    var c, r := g.all[id], HandleInit(g, id, app, h);
    if c.role != Mobile || !c.authenticated || c.state != PairingVerified || app != id {
      OthersKeep(g, r);
    } else {
      ResetIsUsed(g.log, AppInit(id, h), id);
      OneIsUsed(g, r, AppInit(id, h));
    }
  }

  lemma ReplyStepKeeps(g: Gate, id: string, app: string, h: string)
    requires AppsInv(g) && id in g.all
    ensures AppsInv(HandleReply(g, id, app, h))
  {
    var r := HandleReply(g, id, app, h);
    assert r.log in [g.log, g.log + [AgentReply(id, app, h)]];
    OthersKeep(g, r);
  }

  lemma ReadyStepKeeps(g: Gate, id: string, app: string, h: string, t: string)
    requires AppsInv(g) && id in g.all
    ensures AppsInv(HandleReady(g, id, app, h, t))
  {
    var r := HandleReady(g, id, app, h, t);
    assert r.log in [g.log, g.log + [AppReady(id, h, t)], g.log + [AgentReady(id, app, h, t)]];
    OthersKeep(g, r);
  }

  lemma SessionIsNamed(g: Gate, id: string)
    requires AppsInv(g)
    ensures SessionOf(g, id).Some? ==> Truthy(SessionOf(g, id))
  {
    var o := SessionOf(g, id);
    assert Used(g.log, id, o);
    if o.Some? {
      assert FrameSinceInit(g.log, id, o.value);
    }
  }

  lemma SealedStepKeeps(g: Gate, id: string, app: string, sessionId: string)
    requires AppsInv(g) && id in g.all && sessionId != ""
    ensures AppsInv(HandleSealed(g, id, app, sessionId))
  {
    var c, r := g.all[id], HandleSealed(g, id, app, sessionId);
    if c.role == Mobile && Passes(g, id, app, sessionId) {
      SessionIsNamed(g, id);
      assert Used(g.log, id, SessionOf(g, id));
      FrameIsUsed(g.log, id, sessionId, c.sessionId);
      OneIsUsed(g, r, AppFrame(id, sessionId));
    } else if c.role == Mobile {
      FrameIsForwardedOrRefused(g, id, app, sessionId);
      OthersKeep(g, r);
    } else {
      assert r.log in [g.log, g.log + [AgentFrame(id, app, sessionId)]];
      OthersKeep(g, r);
    }
  }

  lemma FailedStepKeeps(g: Gate, id: string, app: Option<string>)
    requires AppsInv(g) && id in g.all
    ensures AppsInv(HandleFailed(g, id, app))
  {
    var c, r := g.all[id], HandleFailed(g, id, app);
    if c.role == Mobile {
      ResetIsUsed(g.log, AppFailed(id), id);
      OneIsUsed(g, r, AppFailed(id));
    } else {
      var named := if app.Some? then app.value else "";
      assert r.log in [g.log, g.log + [AgentFailed(id, named)]];
      OthersKeep(g, r);
    }
  }

  lemma StepKeepsApps(g: Gate, step: Step)
    requires AppsInv(g) && Possible(g, step)
    ensures AppsInv(Apply(g, step))
  {
    match step
    case InitStep(id, app, h) => InitStepKeeps(g, id, app, h);
    case ReplyStep(id, app, h) => ReplyStepKeeps(g, id, app, h);
    case ReadyStep(id, app, h, t) => ReadyStepKeeps(g, id, app, h, t);
    case SealedStep(id, app, s) => SealedStepKeeps(g, id, app, s);
    case FailedStep(id, app) => FailedStepKeeps(g, id, app);
    case _ => OthersKeep(g, Apply(g, step));
  }

  lemma {:induction false} ReachableApps(start: Gate, steps: seq<Step>, g: Gate)
    requires AppsInv(start) && Reaches(start, steps, g)
    ensures AppsInv(g)
    decreases |steps|
  {
    if steps != [] {
      StepKeepsApps(start, steps[0]);
      ReachableApps(Apply(start, steps[0]), steps[1..], g);
    }
  }

  /** After every run, a frame from an App is passed on to its device's primary
      agent, exactly once, if and only if it names the App itself, the pair is
      ready, and the frame keeps to the session in use since the App's last
      init or failure. Otherwise it is refused with no other effect. */
  lemma AppFrameReachesAgent(steps: seq<Step>, g: Gate, id: string, app: string, sessionId: string)
    requires Reaches(EMPTY, steps, g) && id in g.all && g.all[id].role == Mobile
    ensures var r := HandleSealed(g, id, app, sessionId);
            if app == id && PairReady(g, id, g.all[id].deviceId) && KeepsSession(g.log, id, sessionId) then
              && r.sent == g.sent + [Delivery(g.primary[g.all[id].deviceId.value], Sealed(id, sessionId))]
              && r.log == g.log + [AppFrame(id, sessionId)]
            else r == Deliver(g, Refusal(id))
  {
    ReachableApps(EMPTY, steps, g);
    assert Used(g.log, id, SessionOf(g, id));
    SessionIsNamed(g, id);
    FrameIsForwardedOrRefused(g, id, app, sessionId);
  }
}

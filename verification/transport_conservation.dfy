// Every item that send accepts stays accounted for, in strict mode and out of
// it, whatever its kind: it is on the peer channel, given to relayPath.send,
// held for an open switch window, or pending. What a window held leaves in order.
module TransportConservation {
  import opened Messages
  import opened Options
  import opened SecureSessionSpec
  import opened Sequences
  import opened StrictTransportSpec

  // ---- Where an item can be ----

  function Carried(f: Frame): Envelope {
    if f.body.Plain? then f.body.env else f.body.inner
  }

  /** What the peer channel was given, in the order it left. */
  function OnPeer(wire: seq<Frame>): seq<Envelope>
    decreases |wire|
  {
    if wire == [] then []
    else
      var last := wire[|wire| - 1];
      OnPeer(wire[..|wire| - 1]) + (if last.lane.PeerLane? then [Carried(last)] else [])
  }

  /** What the open switch window holds. */
  function Held(t: State): seq<Item> {
    if t.outbound.Some? then t.outbound.value else []
  }

  /** Everything that is somewhere. */
  function Kept(t: State): multiset<Envelope> {
    multiset(OnPeer(t.session.wire)) + multiset(t.relayCalls)
    + multiset(Envelopes(Held(t))) + multiset(Envelopes(t.pending))
  }

  // ---- What came in ----

  /** What the step brings: the envelope given to an open transport, or a heartbeat that goes out. */
  function Brought(t: State, step: Step): multiset<Envelope> {
    match step
    case SendStep(item) => if t.closed then multiset{} else multiset{item.env}
    case HeartbeatStep(ping) => if t.peer.Some? && t.path == P2p then multiset{ping} else multiset{}
    case _ => multiset{}
  }

  function Accepted(strict: bool, steps: seq<Step>): multiset<Envelope>
    requires ValidRun(strict, steps)
  {
    if steps == [] then multiset{}
    else
      var before := steps[..|steps| - 1];
      Accepted(strict, before) + Brought(Final(strict, before), steps[|steps| - 1])
  }

  // ---- What may go wrong ----

  /** A queue of a transport that is not strict would lose its items at the
      limit; a strict one force closes there. */
  predicate Room(t: State, step: Step) {
    t.strict || |t.pending| + |Held(t)| + (if step.SendStep? then 1 else 0) <= PENDING_LIMIT
  }

  /** No exception cuts a switch short, no path reset drops a window that holds something. */
  predicate Undisturbed(t: State, step: Step)
    requires Enabled(t, step)
  {
    && Room(t, step)
    && (step.EndSwitchStep? ==> !EndSwitch(t, step.window).threw)
    && (step.ReconnectStep? ==> Held(t) == [])
  }

  predicate UndisturbedRun(strict: bool, steps: seq<Step>)
    requires ValidRun(strict, steps)
  {
    steps == [] ||
    (UndisturbedRun(strict, steps[..|steps| - 1]) &&
     Undisturbed(Final(strict, steps[..|steps| - 1]), steps[|steps| - 1]))
  }

  predicate Open(t: State) {
    !t.closed && !t.forceClosed
  }

  /** Only a switch in progress holds items. */
  predicate WindowsHold(t: State) {
    Open(t) && !t.switching ==> t.outbound.None?
  }

  // ---- The peer channel ----

  lemma OnPeerAppend(wire: seq<Frame>, f: Frame)
    ensures OnPeer(wire + [f]) == OnPeer(wire) + (if f.lane.PeerLane? then [Carried(f)] else [])
  {
    assert (wire + [f])[..|wire|] == wire;
  }

  lemma EncodeKeepsWire(s: Session, env: Envelope)
    ensures var (u, body) := EncodeForP2p(s, env);
            u.wire == s.wire && u.closed == s.closed && (Ready(u) <==> Ready(s))
            && (body.None? || Carried(Frame(body.value, RelayLane)) == env)
  {
  }

  lemma RelaySendKeepsPeer(s: Session, env: Envelope)
    ensures var u := SessionSend(s, env).state;
            OnPeer(u.wire) == OnPeer(s.wire) && u.closed == s.closed
  {
    var u := SessionSend(s, env).state;
    if u.wire != s.wire {
      OnPeerAppend(s.wire, u.wire[|s.wire|]);
    }
  }

  lemma {:induction false} RelaySendAllKeepsPeer(s: Session, envs: seq<Envelope>)
    ensures OnPeer(SendAll(s, envs).state.wire) == OnPeer(s.wire)
    decreases |envs|
  {
    if envs != [] {
      RelaySendKeepsPeer(s, envs[0]);
      var o := SessionSend(s, envs[0]);
      if !o.threw {
        RelaySendAllKeepsPeer(o.state, envs[1..]);
      }
    }
  }

  lemma EnvelopesAppend(items: seq<Item>, item: Item)
    ensures Envelopes(items + [item]) == Envelopes(items) + [item.env]
  {
  }

  lemma EnvelopesHead(items: seq<Item>)
    requires items != []
    ensures Envelopes(items) == [items[0].env] + Envelopes(items[1..])
  {
  }

  // ---- Dispatching ----

  lemma ForceClosedStays(t: State, items: seq<Item>)
    requires t.forceClosed
    ensures DispatchAll(t, items).state.forceClosed
    decreases |items|
  {
  }

  /** Where the message went: to the queue when the session does not take it, else to the peer. */
  lemma PeerTakes(t: State, item: Item)
    requires !t.forceClosed && t.path == P2p && t.peer.Some?
    requires t.strict || |t.pending| < PENDING_LIMIT
    ensures var u := Dispatch(t, item).state;
            u.forceClosed || (u == t.(session := u.session, pending := u.pending)
              && if EncodeForP2p(t.session, item.env).1.None?
                 then u.pending == t.pending + [item] && u.session.wire == t.session.wire
                 else u.pending == t.pending && OnPeer(u.session.wire) == OnPeer(t.session.wire) + [item.env])
  {
    EncodeKeepsWire(t.session, item.env);
    var (s, body) := EncodeForP2p(t.session, item.env);
    if body.None? {
      var v := t.(session := s);
      if |v.pending| >= PENDING_LIMIT {
        assert QueuePending(v, item).forceClosed;
      } else {
        assert Dispatch(t, item).state == v.(pending := t.pending + [item]);
      }
    } else {
      OnPeerAppend(t.session.wire, Frame(body.value, PeerLane(PeerChannel(item, body.value))));
    }
  }

  lemma RelayTakes(t: State, item: Item)
    requires !t.forceClosed && !(t.path == P2p && t.peer.Some?)
    ensures var u := Dispatch(t, item).state;
            u.forceClosed || (u == t.(session := u.session, relayCalls := t.relayCalls + [item.env])
                              && OnPeer(u.session.wire) == OnPeer(t.session.wire))
  {
    RelaySendKeepsPeer(t.session, item.env);
  }

  /** One item moves on to the peer, the relay path or the queue; what a window holds stays. */
  lemma DispatchKeeps(t: State, item: Item)
    requires !t.forceClosed
    requires t.strict || |t.pending| < PENDING_LIMIT
    ensures var u := Dispatch(t, item).state;
            u.forceClosed || (Kept(u) == Kept(t) + multiset{item.env} && |u.pending| <= |t.pending| + 1
                              && u == t.(session := u.session, pending := u.pending, relayCalls := u.relayCalls))
  {
    if t.path == P2p && t.peer.Some? {
      PeerTakes(t, item);
      EnvelopesAppend(t.pending, item);
    } else {
      RelayTakes(t, item);
    }
  }

  lemma {:induction false} DispatchAllKeeps(t: State, items: seq<Item>)
    requires !t.forceClosed
    requires t.strict || |t.pending| + |items| <= PENDING_LIMIT
    ensures var o := DispatchAll(t, items);
            o.state.forceClosed || o.threw ||
            (Kept(o.state) == Kept(t) + multiset(Envelopes(items)) && |o.state.pending| <= |t.pending| + |items|
             && o.state == t.(session := o.state.session, pending := o.state.pending, relayCalls := o.state.relayCalls))
    decreases |items|
  {
    if items == [] {
      assert multiset(Envelopes(items)) == multiset{};
    } else {
      DispatchKeeps(t, items[0]);
      EnvelopesHead(items);
      var o := Dispatch(t, items[0]);
      if o.threw {
        // the rest is not dispatched
      } else if o.state.forceClosed {
        ForceClosedStays(o.state, items[1..]);
      } else {
        DispatchAllKeeps(o.state, items[1..]);
      }
    }
  }

  lemma PendingFlushKeeps(t: State)
    requires !t.forceClosed
    requires t.strict || |t.pending| <= PENDING_LIMIT
    ensures var o := FlushPendingP2p(t);
            o.state.forceClosed || o.threw ||
            (Kept(o.state) == Kept(t)
             && o.state == t.(session := o.state.session, pending := o.state.pending, relayCalls := o.state.relayCalls))
  {
    var u := t.(pending := []);
    assert multiset(Envelopes(u.pending)) == multiset{};
    assert Kept(u) + multiset(Envelopes(t.pending)) == Kept(t);
    DispatchAllKeeps(u, t.pending);
  }

  // ---- Steps ----

  lemma QueueKeeps(t: State, item: Item)
    requires Open(t) && t.strict
    ensures var u := Send(t, item).state;
            t.path != P2p && !IsControl(item.env) && Open(u) ==>
              Kept(u) == Kept(t) + multiset{item.env} && u.outbound == t.outbound && u.switching == t.switching
  {
    if t.path != P2p && !IsControl(item.env) {
      var v := if IsGatedBusiness(item.env) then t.(offered := t.offered + [item.env]) else t;
      if |t.pending| >= PENDING_LIMIT {
        assert Send(t, item).state == ForceClose(v.(pending := []));
      } else {
        EnvelopesAppend(t.pending, item);
        assert Send(t, item).state == v.(pending := t.pending + [item]);
      }
    }
  }

  lemma HoldKeeps(t: State, item: Item)
    requires t.outbound.Some?
    ensures Kept(t.(outbound := Some(t.outbound.value + [item]))) == Kept(t) + multiset{item.env}
  {
    EnvelopesAppend(t.outbound.value, item);
  }

  lemma SendKeeps(t: State, item: Item)
    requires Open(t) && WindowsHold(t) && Room(t, SendStep(item))
    ensures var u := Send(t, item).state;
            Open(u) ==> Kept(u) == Kept(t) + multiset{item.env} && WindowsHold(u)
  {
    var v := if IsGatedBusiness(item.env) then t.(offered := t.offered + [item.env]) else t;
    assert Kept(v) == Kept(t);
    if t.strict && t.path != P2p && !IsControl(item.env) {
      QueueKeeps(t, item);
    } else if t.outbound.Some? {
      HoldKeeps(v, item);
      assert Send(t, item).state == v.(outbound := Some(t.outbound.value + [item]));
    } else {
      DispatchKeeps(v, item);
      assert Send(t, item) == Dispatch(v, item);
    }
  }

  lemma SwitchKeeps(t: State, i: nat)
    requires Open(t) && i < |t.windows| && !EndSwitch(t, i).threw
    requires t.strict || |t.pending| + |Held(t)| <= PENDING_LIMIT
    ensures var u := EndSwitch(t, i).state;
            Open(u) ==> Kept(u) == Kept(t) && WindowsHold(u)
  {
    var start := WithoutWindow(t, i).(path := t.windows[i], outbound := None);
    assert multiset(Envelopes(Held(start))) == multiset{};
    assert Kept(start) + multiset(Envelopes(Held(t))) == Kept(t);
    DispatchAllKeeps(start, Held(t));
    var drained := DispatchAll(start, Held(t));
    assert DrainOutbound(WithoutWindow(t, i).(path := t.windows[i])) == drained;
    if drained.state.forceClosed {
      ForceClosedStays(drained.state.(pending := []), drained.state.pending);
    } else if !drained.threw {
      PendingFlushKeeps(drained.state);
    }
  }

  lemma {:induction false} OpenSessionDoesNotThrow(t: State, items: seq<Item>)
    requires !t.session.closed
    ensures !DispatchAll(t, items).threw
    decreases |items|
  {
    if items != [] {
      EncodeKeepsWire(t.session, items[0].env);
      RelaySendKeepsPeer(t.session, items[0].env);
      OpenSessionDoesNotThrow(Dispatch(t, items[0]).state, items[1..]);
    }
  }

  /** The transport's own flush, before the session is told. */
  lemma ReadyFlushKeeps(t: State)
    requires Open(t) && !t.session.closed && (t.strict || |t.pending| <= PENDING_LIMIT)
    ensures var u := t.(session := t.session.(peerReady := true));
            var o := if t.path == P2p then FlushPendingP2p(u) else Outcome(u, false);
            !o.threw && (o.state.forceClosed || (Kept(o.state) == Kept(t) &&
              o.state == t.(session := o.state.session, pending := o.state.pending, relayCalls := o.state.relayCalls)))
  {
    var u := t.(session := t.session.(peerReady := true));
    assert Kept(u) == Kept(t);
    OpenSessionDoesNotThrow(u.(pending := []), u.pending);
    PendingFlushKeeps(u);
  }

  lemma ReadyKeeps(t: State, matching: bool)
    requires Open(t) && WindowsHold(t) && !t.session.closed && (t.strict || |t.pending| <= PENDING_LIMIT)
    ensures var u := PeerReady(t, matching);
            Open(u) ==> Kept(u) == Kept(t) && WindowsHold(u)
  {
    if matching && t.session.crypto.Some? && !t.session.peerReady {
      ReadyFlushKeeps(t);
      var u := t.(session := t.session.(peerReady := true));
      var flushed := if u.path == P2p then FlushPendingP2p(u).state else u;
      RelaySendAllKeepsPeer(flushed.session.(pending := []), flushed.session.pending);
      assert PeerReady(t, matching) == flushed.(session := FlushPending(flushed.session).state);
    } else {
      var u := PeerReady(t, matching);
      assert u == t.(session := u.session) && u.session.wire == t.session.wire;
    }
  }

  lemma EmitOnPeer(s: Session, env: Envelope, lane: Lane)
    ensures OnPeer(Emit(s, Plain(env), lane).wire) == OnPeer(s.wire) + (if lane.PeerLane? then [env] else [])
  {
    OnPeerAppend(s.wire, Frame(Plain(env), lane));
  }

  lemma HeartbeatKeeps(t: State, ping: Envelope)
    requires WindowsHold(t) && Enabled(t, HeartbeatStep(ping))
    ensures var u := Heartbeat(t, ping);
            Kept(u) == Kept(t) + Brought(t, HeartbeatStep(ping)) && WindowsHold(u)
  {
    var u := Heartbeat(t, ping);
    if t.peer.Some? && t.path == P2p {
      EmitOnPeer(t.session, ping, PeerLane(Control));
      assert multiset(OnPeer(u.session.wire)) == multiset(OnPeer(t.session.wire)) + multiset{ping};
    } else {
      assert u == t;
    }
  }

  /** Steps of the session alone that send nothing to the peer. */
  predicate SessionStep(step: Step) {
    step.SessionSendStep? || step.ClientSendStep? || step.HandshakeStep? || step.SessionCloseStep? || step.SessionLostStep?
  }

  lemma SessionStepKeepsPeer(t: State, step: Step)
    requires Enabled(t, step) && SessionStep(step)
    ensures Apply(t, step) == t.(session := Apply(t, step).session)
    ensures OnPeer(Apply(t, step).session.wire) == OnPeer(t.session.wire)
  {
    match step {
      case SessionSendStep(env) => RelaySendKeepsPeer(t.session, env);
      case ClientSendStep(clear) => EmitOnPeer(t.session, clear, RelayLane);
      case HandshakeStep(id, ready) => EmitOnPeer(t.session.(crypto := Some(Crypto(id, 0))), ready, RelayLane);
      case SessionCloseStep(goodbye) => RelaySendKeepsPeer(t.session, goodbye);
      case SessionLostStep =>
    }
  }

  lemma SessionStepKeeps(t: State, step: Step)
    requires WindowsHold(t) && Enabled(t, step) && SessionStep(step)
    ensures Kept(Apply(t, step)) == Kept(t) && WindowsHold(Apply(t, step))
  {
    SessionStepKeepsPeer(t, step);
  }

  /** Attaching, detaching and the steps that move the path leave every item where it is. */
  lemma PathStepKeeps(t: State, step: Step)
    requires Open(t) && WindowsHold(t) && Enabled(t, step) && Undisturbed(t, step)
    requires !SessionStep(step) && !step.SendStep? && !step.EndSwitchStep? && !step.PeerReadyStep? && !step.HeartbeatStep?
    ensures var u := Apply(t, step);
            Open(u) ==> Kept(u) == Kept(t) && WindowsHold(u)
  {
    var u := Apply(t, step);
    if Open(u) {
      assert u.session == t.session && u.relayCalls == t.relayCalls && u.pending == t.pending;
      assert Held(u) == Held(t);
    }
  }

  lemma StepKeeps(t: State, step: Step)
    requires Open(t) && WindowsHold(t) && Enabled(t, step) && Undisturbed(t, step)
    ensures var u := Apply(t, step);
            Open(u) ==> Kept(u) == Kept(t) + Brought(t, step) && WindowsHold(u)
  {
    if step.SendStep? {
      SendKeeps(t, step.item);
      assert Brought(t, step) == multiset{step.item.env} && Apply(t, step) == Send(t, step.item).state;
    } else if step.EndSwitchStep? {
      SwitchKeeps(t, step.window);
      assert Brought(t, step) == multiset{} && Apply(t, step) == EndSwitch(t, step.window).state;
    } else if step.PeerReadyStep? {
      ReadyKeeps(t, step.matching);
      assert Brought(t, step) == multiset{} && Apply(t, step) == PeerReady(t, step.matching);
    } else if step.HeartbeatStep? {
      HeartbeatKeeps(t, step.ping);
    } else if SessionStep(step) {
      SessionStepKeeps(t, step);
      assert Brought(t, step) == multiset{};
    } else {
      PathStepKeeps(t, step);
      assert Brought(t, step) == multiset{};
    }
  }

  // ---- Closing is for good ----

  lemma {:induction false} DispatchAllStaysShut(t: State, items: seq<Item>)
    requires !Open(t)
    ensures !Open(DispatchAll(t, items).state)
    decreases |items|
  {
    if items != [] {
      var o := Dispatch(t, items[0]);
      if !o.threw {
        DispatchAllStaysShut(o.state, items[1..]);
      }
    }
  }

  lemma ShutStaysShut(t: State, step: Step)
    requires !Open(t) && Enabled(t, step)
    ensures !Open(Apply(t, step))
  {
    if step.PeerReadyStep? {
      var u := t.(session := t.session.(peerReady := true));
      DispatchAllStaysShut(u.(pending := []), u.pending);
    }
  }

  // ---- Runs ----

  /** Conservation, in strict mode and out of it: as long as the transport is
      neither closed nor force closed and its run was not disturbed, what came
      in is what the peer channel and relayPath.send were given, with what an
      open window holds and what is pending, each once. */
  lemma {:induction false} NothingIsLost(strict: bool, steps: seq<Step>)
    requires ValidRun(strict, steps) && UndisturbedRun(strict, steps)
    ensures var t := Final(strict, steps);
            !t.closed && !t.forceClosed ==>
              && Accepted(strict, steps)
                 == multiset(OnPeer(t.session.wire)) + multiset(t.relayCalls)
                    + multiset(Envelopes(Held(t))) + multiset(Envelopes(t.pending))
              && (!t.switching ==> Held(t) == [])
    decreases |steps|
  {
    if steps == [] {
      assert Envelopes([]) == [];
    } else {
      var before, step := steps[..|steps| - 1], steps[|steps| - 1];
      NothingIsLost(strict, before);
      OnlySwitchesHold(strict, before);
      OnlySwitchesHold(strict, steps);
      var t := Final(strict, before);
      if Open(t) {
        StepKeeps(t, step);
      } else {
        ShutStaysShut(t, step);
      }
    }
  }

  lemma {:induction false} OnlySwitchesHold(strict: bool, steps: seq<Step>)
    requires ValidRun(strict, steps) && UndisturbedRun(strict, steps)
    ensures WindowsHold(Final(strict, steps))
    decreases |steps|
  {
    if steps != [] {
      var before, step := steps[..|steps| - 1], steps[|steps| - 1];
      OnlySwitchesHold(strict, before);
      if Open(Final(strict, before)) {
        StepKeeps(Final(strict, before), step);
      } else {
        ShutStaysShut(Final(strict, before), step);
      }
    }
  }

  // ---- The order in which a window lets go ----

  /** The secure session takes the message: it is open, and sealed messages need it ready. */
  predicate Takes(s: Session, env: Envelope) {
    !s.closed && (IsBusiness(env) ==> s.crypto.Some? && s.peerReady)
  }

  function Taken(s: Session, items: seq<Item>): seq<Envelope> {
    if items == [] then []
    else (if Takes(s, items[0].env) then [items[0].env] else []) + Taken(s, items[1..])
  }

  function Refused(s: Session, items: seq<Item>): seq<Item> {
    if items == [] then []
    else (if Takes(s, items[0].env) then [] else [items[0]]) + Refused(s, items[1..])
  }

  lemma {:induction false} TakenAlike(s: Session, u: Session, items: seq<Item>)
    requires s.closed == u.closed && (Ready(s) <==> Ready(u))
    ensures Taken(s, items) == Taken(u, items) && Refused(s, items) == Refused(u, items)
  {
    if items != [] {
      TakenAlike(s, u, items[1..]);
    }
  }

  lemma {:induction false} TakenConcat(s: Session, a: seq<Item>, b: seq<Item>)
    ensures Taken(s, a + b) == Taken(s, a) + Taken(s, b) && Refused(s, a + b) == Refused(s, a) + Refused(s, b)
  {
    if a == [] {
      assert a + b == b;
    } else {
      assert (a + b)[1..] == a[1..] + b;
      TakenConcat(s, a[1..], b);
    }
  }

  lemma DispatchToPeer(t: State, item: Item)
    requires !t.forceClosed && t.path == P2p && t.peer.Some? && |t.pending| < PENDING_LIMIT
    ensures var o := Dispatch(t, item);
            && !o.threw && o.state == t.(session := o.state.session, pending := o.state.pending)
            && o.state.session.closed == t.session.closed && (Ready(o.state.session) <==> Ready(t.session))
            && OnPeer(o.state.session.wire) == OnPeer(t.session.wire) + Taken(t.session, [item])
            && o.state.pending == t.pending + Refused(t.session, [item])
  {
    PeerTakes(t, item);
    EncodeKeepsWire(t.session, item.env);
    assert Taken(t.session, [item][1..]) == [] && Refused(t.session, [item][1..]) == [];
  }

  lemma {:induction false} DispatchAllToPeer(t: State, items: seq<Item>)
    requires !t.forceClosed && t.path == P2p && t.peer.Some? && |t.pending| + |items| <= PENDING_LIMIT
    ensures var o := DispatchAll(t, items);
            && !o.threw && o.state == t.(session := o.state.session, pending := o.state.pending)
            && o.state.session.closed == t.session.closed && (Ready(o.state.session) <==> Ready(t.session))
            && OnPeer(o.state.session.wire) == OnPeer(t.session.wire) + Taken(t.session, items)
            && o.state.pending == t.pending + Refused(t.session, items)
    decreases |items|
  {
    if items != [] {
      DispatchToPeer(t, items[0]);
      var u := Dispatch(t, items[0]).state;
      DispatchAllToPeer(u, items[1..]);
      TakenAlike(t.session, u.session, items[1..]);
      assert items == [items[0]] + items[1..];
      TakenConcat(t.session, [items[0]], items[1..]);
      Regroup(OnPeer(t.session.wire), Taken(t.session, [items[0]]), Taken(t.session, items[1..]));
      Regroup(t.pending, Refused(t.session, [items[0]]), Refused(t.session, items[1..]));
    }
  }

  lemma {:induction false} RefusedFits(s: Session, items: seq<Item>)
    ensures |Refused(s, items)| <= |items|
  {
    if items != [] {
      RefusedFits(s, items[1..]);
    }
  }

  lemma {:induction false} RefusedAreRefused(s: Session, items: seq<Item>)
    ensures Taken(s, Refused(s, items)) == [] && Refused(s, Refused(s, items)) == Refused(s, items)
  {
    if items != [] {
      RefusedAreRefused(s, items[1..]);
      var rest := Refused(s, items[1..]);
      if Takes(s, items[0].env) {
        assert Refused(s, items) == rest;
      } else {
        assert Refused(s, items) == [items[0]] + rest;
        assert ([items[0]] + rest)[1..] == rest;
      }
    }
  }

  /** The flush at the end: what was refused a moment ago is refused again and keeps its place. */
  lemma FlushToPeer(t: State, pending: seq<Item>, refused: seq<Item>)
    requires !t.forceClosed && t.path == P2p && t.peer.Some?
    requires t.pending == pending + refused && |t.pending| <= PENDING_LIMIT
    requires Taken(t.session, refused) == [] && Refused(t.session, refused) == refused
    ensures var o := if |t.pending| == 0 then Outcome(t, false) else FlushPendingP2p(t);
            && !o.threw && o.state == t.(session := o.state.session, pending := o.state.pending)
            && OnPeer(o.state.session.wire) == OnPeer(t.session.wire) + Taken(t.session, pending)
            && o.state.pending == Refused(t.session, pending) + refused
  {
    TakenConcat(t.session, pending, refused);
    DispatchAllToPeer(t.(pending := []), t.pending);
  }

  /** A window that ends on the peer-to-peer path: what it held goes to the
      peer in order, then what was pending, in order; what the session does not
      take is pending afterwards, in order. Nothing goes to the relay path. */
  lemma WindowLeavesForPeer(t: State, i: nat)
    requires Open(t) && i < |t.windows| && t.windows[i] == P2p && t.peer.Some?
    requires |t.pending| + |Held(t)| <= PENDING_LIMIT
    ensures var o := EndSwitch(t, i);
            && !o.threw && o.state.path == P2p && !o.state.switching && o.state.outbound.None?
            && OnPeer(o.state.session.wire) == OnPeer(t.session.wire) + Taken(t.session, Held(t)) + Taken(t.session, t.pending)
            && o.state.pending == Refused(t.session, t.pending) + Refused(t.session, Held(t))
            && o.state.relayCalls == t.relayCalls
  {
    var start := WithoutWindow(t, i).(path := P2p, outbound := None);
    var s := t.session;
    DispatchAllToPeer(start, Held(t));
    var drained := DispatchAll(start, Held(t));
    assert DrainOutbound(WithoutWindow(t, i).(path := P2p)) == drained;
    RefusedFits(s, Held(t));
    RefusedAreRefused(s, Held(t));
    TakenAlike(s, drained.state.session, Refused(s, Held(t)));
    TakenAlike(s, drained.state.session, t.pending);
    FlushToPeer(drained.state, t.pending, Refused(s, Held(t)));
  }

  lemma DispatchToRelay(t: State, item: Item)
    requires !t.session.closed && (t.path == Relay || (t.peer.None? && !t.strict))
    ensures var o := Dispatch(t, item);
            && !o.threw && !o.state.session.closed
            && o.state == t.(session := o.state.session, relayCalls := t.relayCalls + [item.env])
            && OnPeer(o.state.session.wire) == OnPeer(t.session.wire)
  {
    RelaySendKeepsPeer(t.session, item.env);
  }

  lemma {:induction false} DispatchAllToRelay(t: State, items: seq<Item>)
    requires !t.session.closed && (t.path == Relay || (t.peer.None? && !t.strict))
    ensures var o := DispatchAll(t, items);
            && !o.threw && !o.state.session.closed
            && o.state == t.(session := o.state.session, relayCalls := t.relayCalls + Envelopes(items))
            && OnPeer(o.state.session.wire) == OnPeer(t.session.wire)
    decreases |items|
  {
    if items == [] {
      assert t.relayCalls + Envelopes(items) == t.relayCalls;
    } else {
      DispatchToRelay(t, items[0]);
      EnvelopesHead(items);
      Regroup(t.relayCalls, [items[0].env], Envelopes(items[1..]));
      DispatchAllToRelay(Dispatch(t, items[0]).state, items[1..]);
    }
  }

  /** A window that ends on the relay path, or with its peer gone outside
      strict mode: what it held is given to relayPath.send in order; only a
      window to the peer also lets the pending ones go, after it. */
  lemma WindowLeavesForRelay(t: State, i: nat)
    requires Open(t) && i < |t.windows| && !t.session.closed
    requires t.windows[i] == Relay || (t.peer.None? && !t.strict)
    ensures var o := EndSwitch(t, i);
            && !o.threw && o.state.path == t.windows[i] && !o.state.switching && o.state.outbound.None?
            && OnPeer(o.state.session.wire) == OnPeer(t.session.wire)
            && if t.windows[i] == Relay
               then o.state.relayCalls == t.relayCalls + Envelopes(Held(t)) && o.state.pending == t.pending
               else o.state.relayCalls == t.relayCalls + Envelopes(Held(t)) + Envelopes(t.pending) && o.state.pending == []
  {
    var start := WithoutWindow(t, i).(path := t.windows[i], outbound := None);
    DispatchAllToRelay(start, Held(t));
    var drained := DispatchAll(start, Held(t)).state;
    assert DrainOutbound(WithoutWindow(t, i).(path := t.windows[i])).state == drained;
    if t.windows[i] == P2p && |t.pending| > 0 {
      DispatchAllToRelay(drained.(pending := []), t.pending);
    } else {
      assert t.pending == [] ==> Envelopes(t.pending) == [];
    }
  }

  // ---- A whole window ----

  function SendEach(t: State, items: seq<Item>): State
    decreases |items|
  {
    if items == [] then t else SendEach(Send(t, items[0]).state, items[1..])
  }

  /** While a window is open everything sent is held, in order, unless strict mode queues it. */
  lemma {:induction false} WindowHolds(t: State, items: seq<Item>)
    requires Open(t) && t.outbound.Some?
    requires t.strict ==> forall item :: item in items ==> IsControl(item.env)
    ensures var u := SendEach(t, items);
            u == t.(outbound := Some(t.outbound.value + items), offered := u.offered)
    decreases |items|
  {
    if items == [] {
      assert t.outbound.value + items == t.outbound.value;
    } else {
      var u := Send(t, items[0]).state;
      WindowHolds(u, items[1..]);
      assert u.outbound.value + items[1..] == t.outbound.value + items;
    }
  }

  /** An upgrade from start to end: with a ready session and nothing pending,
      the peer gets exactly what was sent while switchPath was waiting, in order. */
  lemma UpgradeDeliversWindow(t: State, items: seq<Item>)
    requires Open(t) && t.path == Relay && t.peer.Some? && !t.switching && t.pending == []
    requires !t.session.closed && Ready(t.session) && |items| <= PENDING_LIMIT
    requires t.strict ==> forall item :: item in items ==> IsControl(item.env)
    ensures var begun := BeginSwitch(t, P2p);
            var waited := SendEach(begun, items);
            |waited.windows| == |t.windows| + 1 &&
            var o := EndSwitch(waited, |t.windows|);
            && !o.threw && o.state.path == P2p && o.state.pending == []
            && OnPeer(o.state.session.wire) == OnPeer(t.session.wire) + Envelopes(items)
            && o.state.relayCalls == t.relayCalls
  {
    var begun := BeginSwitch(t, P2p);
    WindowHolds(begun, items);
    var u := SendEach(begun, items);
    assert Held(u) == items;
    WindowLeavesForPeer(u, |t.windows|);
    ReadyTakesAll(t.session, items);
    ReadyTakesAll(t.session, []);
    assert Envelopes([]) == [];
  }

  lemma {:induction false} ReadyTakesAll(s: Session, items: seq<Item>)
    requires !s.closed && Ready(s)
    ensures Taken(s, items) == Envelopes(items) && Refused(s, items) == []
  {
    if items == [] {
      assert Envelopes(items) == [];
    } else {
      ReadyTakesAll(s, items[1..]);
      EnvelopesHead(items);
    }
  }

  // ---- The limit and the reset ----

  /** Outside strict mode a message that has to queue behind a full queue takes
      the whole queue down with it, and the transport stays open. */
  lemma FullQueueIsLost(t: State, item: Item)
    requires Open(t) && !t.strict && t.outbound.None? && t.path == P2p && t.peer.Some?
    requires |t.pending| == PENDING_LIMIT && !Takes(t.session, item.env)
    ensures var u := Send(t, item).state;
            Open(u) && u.pending == [] && OnPeer(u.session.wire) == OnPeer(t.session.wire) && u.relayCalls == t.relayCalls
  {
    EncodeKeepsWire(t.session, item.env);
  }

  /** A path reset loses exactly what a window holds at that moment. */
  lemma ResetKeepsExactly(t: State)
    ensures Kept(PrepareForReconnect(t)) + multiset(Envelopes(Held(t))) == Kept(t)
    ensures Kept(PrepareForReconnect(t)) == Kept(t) <==> Held(t) == []
  {
    var u := PrepareForReconnect(t);
    assert multiset(Envelopes(Held(u))) == multiset{};
    if Held(t) != [] {
      assert Held(t)[0].env == Envelopes(Held(t))[0];
      assert |Kept(u)| + |multiset(Envelopes(Held(t)))| == |Kept(t)|;
    }
  }
}

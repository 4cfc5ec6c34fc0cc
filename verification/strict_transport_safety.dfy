// Strict mode keeps business traffic off the relay path, over whole runs.
module StrictTransportSafety {
  import opened Messages
  import opened Options
  import opened SecureSessionSpec
  import opened StrictTransportSpec

  predicate AllControl(items: seq<Item>) {
    forall i :: 0 <= i < |items| ==> IsControl(items[i].env)
  }

  /** relayPath.send has carried nothing but tunnel.upgrade.* and transport.* */
  predicate RelayClean(t: State) {
    forall e :: e in t.relayCalls ==> IsControl(e)
  }

  /** Holds after every run of a strict transport, hazards or not. */
  predicate StrictInv(t: State) {
    && t.strict
    && (t.outbound.Some? ==> t.path == Relay && AllControl(t.outbound.value))
    && (forall k :: 0 <= k < |t.windows| ==> t.windows[k] == P2p)
    && (t.forceClosed ==> t.path == Relay && t.pending == [])
    && (t.closed ==> t.pending == [])
    && |t.pending| <= PENDING_LIMIT
  }

  /** Holds as long as no peer is taken away inside a drain window. */
  predicate PeerHeld(t: State) {
    !t.closed ==>
      && (t.path == P2p ==> t.peer.Some?)
      && (!t.forceClosed && t.windows != [] ==> t.peer.Some?)
  }

  // ---- What one flush can do ----

  /** A flush that starts with a peer and room in the queue neither overflows nor reaches the relay. */
  lemma {:induction false} FlushStaysOnPeer(t: State, items: seq<Item>)
    requires t.path == P2p && t.peer.Some? && |t.pending| + |items| <= PENDING_LIMIT
    ensures var o := DispatchAll(t, items);
            && !o.threw
            && o.state == t.(pending := o.state.pending, session := o.state.session)
            && |o.state.pending| <= |t.pending| + |items|
    decreases |items|
  {
    if items != [] {
      FlushStaysOnPeer(Dispatch(t, items[0]).state, items[1..]);
    }
  }

  /** What a flush hands to relayPath.send once the path is back at the relay:
      everything, or just the first item when the session is closed and throws. */
  function Carried(t: State, items: seq<Item>): (r: seq<Item>) {
    if t.session.closed && |items| > 0 then items[..1] else items
  }

  lemma DispatchOntoRelay(t: State, item: Item)
    requires t.path == Relay
    ensures var o := Dispatch(t, item);
            && o.state == t.(session := o.state.session, relayCalls := t.relayCalls + [item.env])
            && (o.threw <==> t.session.closed)
            && (t.session.closed <==> o.state.session.closed)
  {
  }

  lemma EnvelopesAhead(calls: seq<Envelope>, items: seq<Item>)
    requires items != []
    ensures (calls + [items[0].env]) + Envelopes(items[1..]) == calls + Envelopes(items)
    ensures Envelopes(items[..1]) == [items[0].env]
  {
    assert [items[0].env] + Envelopes(items[1..]) == Envelopes(items);
  }

  lemma {:induction false} FlushOntoRelay(t: State, items: seq<Item>)
    requires t.path == Relay
    ensures var o := DispatchAll(t, items);
            && o.state == t.(session := o.state.session, relayCalls := o.state.relayCalls)
            && o.state.relayCalls == t.relayCalls + Envelopes(Carried(t, items))
    decreases |items|
  {
    if items == [] {
      assert t.relayCalls + Envelopes(items) == t.relayCalls;
    } else {
      var o := Dispatch(t, items[0]);
      DispatchOntoRelay(t, items[0]);
      EnvelopesAhead(t.relayCalls, items);
      if t.session.closed {
        assert DispatchAll(t, items) == o;
      } else {
        FlushOntoRelay(o.state, items[1..]);
        assert DispatchAll(t, items) == DispatchAll(o.state, items[1..]);
      }
    }
  }

  /** Draining control messages hands nothing else to the relay and never breaks the invariant. */
  lemma {:induction false} DrainControl(t: State, items: seq<Item>)
    requires StrictInv(t) && t.outbound.None? && !t.closed && AllControl(items)
    ensures var o := DispatchAll(t, items);
            && StrictInv(o.state)
            && o.state.outbound.None? && !o.state.closed
            && o.state.windows == t.windows
            && OnlyControlMore(t.relayCalls, o.state.relayCalls)
            && (o.state.forceClosed || (o.state.path == t.path && o.state.peer == t.peer && o.state.forceClosed == t.forceClosed))
    decreases |items|
  {
    if items == [] {
      // nothing left to drain
    } else {
      var o := Dispatch(t, items[0]);
      DispatchKeepsInvariant(t, items[0]);
      if o.threw {
        assert DispatchAll(t, items) == o;
      } else {
        DrainControl(o.state, items[1..]);
        OnlyControlChain(t.relayCalls, o.state.relayCalls, DispatchAll(t, items).state.relayCalls);
      }
    }
  }

  /** The calls grew, by control messages only. */
  predicate OnlyControlMore(before: seq<Envelope>, after: seq<Envelope>) {
    before <= after && forall e :: e in after[|before|..] ==> IsControl(e)
  }

  lemma OnlyControlChain(a: seq<Envelope>, b: seq<Envelope>, c: seq<Envelope>)
    requires OnlyControlMore(a, b) && OnlyControlMore(b, c)
    ensures OnlyControlMore(a, c)
  {
    assert c[|a|..] == b[|a|..] + c[|b|..];
  }

  /** One message is never enough to leak: with no peer it only triggers the force close. */
  lemma DispatchKeepsInvariant(t: State, item: Item)
    requires StrictInv(t) && t.outbound.None? && !t.closed && (t.path == P2p || IsControl(item.env))
    ensures var u := Dispatch(t, item).state;
            && StrictInv(u) && u.outbound.None? && u.closed == t.closed && u.windows == t.windows
            && OnlyControlMore(t.relayCalls, u.relayCalls)
            && (u.forceClosed || u == t.(pending := u.pending, session := u.session, relayCalls := u.relayCalls))
  {
    var u := Dispatch(t, item).state;
    if t.path == P2p && t.peer.Some? {
      assert u.relayCalls == t.relayCalls;
    } else if t.path == P2p {
      assert u == ForceClose(t);
    } else {
      DispatchOntoRelay(t, item);
      assert u.relayCalls == t.relayCalls + [item.env] && u.relayCalls[|t.relayCalls|..] == [item.env];
    }
  }

  // ---- Which steps leak ----

  /** Of a pending queue flushed without a peer, the head triggers the force
      close and the rest is handed to relayPath.send, up to the first throw. */
  predicate LeakyTail(t: State) {
    exists i :: 1 <= i < |t.pending| && (t.session.closed ==> i == 1) && !IsControl(t.pending[i].env)
  }

  /** The exact guard under which a step of a strict transport hands a gated message to the relay path. */
  predicate LeakGuard(t: State, step: Step) {
    match step
    case EndSwitchStep(_) =>
      && !t.closed && !t.forceClosed && t.peer.None?
      && (t.outbound.None? || t.outbound.value == [])
      && LeakyTail(t)
    case PeerReadyStep(matching) =>
      && matching && t.session.crypto.Some? && !t.session.peerReady
      && t.path == P2p && t.peer.None?
      && LeakyTail(t)
    case _ => false
  }

  predicate Leaks(before: State, after: State) {
    && before.relayCalls <= after.relayCalls
    && exists e :: e in after.relayCalls[|before.relayCalls|..] && !IsControl(e)
  }

  /** A flush of the pending queue without a peer leaks exactly its tail. */
  lemma FlushWithoutPeer(t: State)
    requires StrictInv(t) && t.path == P2p && t.peer.None? && t.pending != [] && t.outbound.None?
    ensures var o := FlushPendingP2p(t);
            && StrictInv(o.state) && o.state.forceClosed && o.state.windows == t.windows
            && t.relayCalls <= o.state.relayCalls
            && (Leaks(t, o.state) <==> LeakyTail(t))
  {
    var u := ForceClose(t.(pending := []));
    var tail := t.pending[1..];
    assert Dispatch(t.(pending := []), t.pending[0]) == Outcome(u, false);
    assert FlushPendingP2p(t) == DispatchAll(u, tail);
    FlushOntoRelay(u, tail);
    assert FlushPendingP2p(t).state.relayCalls[|t.relayCalls|..] == Envelopes(Carried(u, tail));
  }

  /** The first half of EndSwitch: the window closes, the path goes up, queued control messages drain. */
  lemma SwitchDrains(t: State, i: nat)
    requires StrictInv(t) && i < |t.windows| && !t.closed && !t.forceClosed
    ensures var o := DrainOutbound(WithoutWindow(t, i).(path := P2p));
            && StrictInv(o.state) && o.state.outbound.None? && !o.state.closed
            && OnlyControlMore(t.relayCalls, o.state.relayCalls)
            && (t.peer.None? && t.outbound.Some? && t.outbound.value != [] ==> o.state.forceClosed)
            && (t.outbound.None? || t.outbound.value == [] ==>
                  o == Outcome(WithoutWindow(t, i).(path := P2p, outbound := None), false))
            && (!o.state.forceClosed ==> o.state.path == P2p && o.state.peer == t.peer)
  {
    var start := WithoutWindow(t, i).(path := P2p, outbound := None);
    var queued := if t.outbound.Some? then t.outbound.value else [];
    DrainControl(start, queued);
    if t.peer.None? && queued != [] {
      assert Dispatch(start, queued[0]) == Outcome(ForceClose(start), false);
      ForceClosedStays(ForceClose(start), queued[1..]);
    }
  }

  /** A flush of the pending queue, once the path is up, leaks its tail exactly when there is no peer. */
  lemma FlushLeaks(t: State)
    requires StrictInv(t) && t.outbound.None? && !t.closed && t.pending != [] && t.path == P2p
    ensures var u := FlushPendingP2p(t).state;
            && StrictInv(u) && u.windows == t.windows && t.relayCalls <= u.relayCalls
            && (Leaks(t, u) <==> t.peer.None? && LeakyTail(t))
            && (t.peer.None? ==> u.forceClosed)
            && (t.peer.Some? ==> u == t.(pending := u.pending, session := u.session))
  {
    if t.peer.None? {
      FlushWithoutPeer(t);
    } else {
      FlushStaysOnPeer(t.(pending := []), t.pending);
    }
  }

  /** Control messages on the relay path are no leak. */
  lemma LeaksAfterControl(t: State, d: State, u: State)
    requires OnlyControlMore(t.relayCalls, d.relayCalls) && d.relayCalls <= u.relayCalls
    ensures t.relayCalls <= u.relayCalls && (Leaks(t, u) <==> Leaks(d, u))
  {
    assert u.relayCalls[|t.relayCalls|..] == d.relayCalls[|t.relayCalls|..] + u.relayCalls[|d.relayCalls|..];
  }

  lemma NoCallsNoLeak(t: State, u: State)
    requires u.relayCalls == t.relayCalls
    ensures t.relayCalls <= u.relayCalls && !Leaks(t, u)
  {
  }

  lemma SameTail(t: State, u: State)
    requires u.pending == t.pending && u.session.closed == t.session.closed
    ensures LeakyTail(u) <==> LeakyTail(t)
  {
  }

  lemma SwitchLeaks(t: State, i: nat)
    requires StrictInv(t) && i < |t.windows|
    ensures var u := EndSwitch(t, i).state;
            && StrictInv(u)
            && t.relayCalls <= u.relayCalls
            && (Leaks(t, u) <==> LeakGuard(t, EndSwitchStep(i)))
            && (PeerHeld(t) ==> PeerHeld(u))
  {
    var u := EndSwitch(t, i).state;
    if t.closed || t.forceClosed {
      assert u == WithoutWindow(t, i).(switching := false);
      NoCallsNoLeak(t, u);
    } else {
      SwitchDrains(t, i);
      var drained := DrainOutbound(WithoutWindow(t, i).(path := P2p));
      if drained.threw || drained.state.pending == [] {
        assert u == drained.state.(switching := false);
        NoCallsNoLeak(drained.state, u);
        LeaksAfterControl(t, drained.state, u);
      } else {
        assert u == FlushPendingP2p(drained.state).state.(switching := false);
        SwitchWithFlush(t, drained.state, u);
      }
    }
  }

  lemma SwitchWithFlush(t: State, d: State, u: State)
    requires StrictInv(d) && d.outbound.None? && !d.closed && d.pending != [] && d.path == P2p && d.peer == t.peer
    requires OnlyControlMore(t.relayCalls, d.relayCalls)
    requires t.peer.None? ==> d.pending == t.pending && d.session.closed == t.session.closed
    requires u == FlushPendingP2p(d).state.(switching := false)
    ensures StrictInv(u) && t.relayCalls <= u.relayCalls && u.windows == d.windows
    ensures Leaks(t, u) <==> t.peer.None? && LeakyTail(t)
    ensures t.peer.None? ==> u.forceClosed
    ensures t.peer.Some? ==> u.peer == t.peer
  {
    FlushLeaks(d);
    if t.peer.None? {
      SameTail(t, d);
    }
    LeaksAfterControl(t, d, u);
  }

  lemma {:induction false} ForceClosedStays(t: State, items: seq<Item>)
    requires t.forceClosed && t.path == Relay && t.pending == []
    ensures var o := DispatchAll(t, items);
            o.state.forceClosed && o.state.path == Relay && o.state.pending == []
    decreases |items|
  {
    if items != [] {
      var o := Dispatch(t, items[0]);
      if !o.threw {
        ForceClosedStays(o.state, items[1..]);
      }
    }
  }

  lemma ReadyLeaks(t: State, matching: bool)
    requires StrictInv(t) && !t.session.closed
    ensures var u := PeerReady(t, matching);
            && StrictInv(u)
            && t.relayCalls <= u.relayCalls
            && (Leaks(t, u) <==> LeakGuard(t, PeerReadyStep(matching)))
            && (PeerHeld(t) ==> PeerHeld(u))
  {
    if !matching || t.session.crypto.None? {
      assert PeerReady(t, matching) == t.(session := Clear(t.session));
    } else if t.session.peerReady {
      assert PeerReady(t, matching) == t;
    } else if t.path == P2p && t.pending != [] {
      ReadyWithFlush(t);
    } else {
      var u := t.(session := t.session.(peerReady := true));
      assert t.path == P2p ==> FlushPendingP2p(u) == Outcome(u, false);
      assert PeerReady(t, matching) == u.(session := FlushPending(u.session).state);
    }
  }

  lemma ReadyWithFlush(t: State)
    requires StrictInv(t) && t.session.crypto.Some? && !t.session.peerReady && t.path == P2p && t.pending != []
    ensures var u := PeerReady(t, true);
            && StrictInv(u) && t.relayCalls <= u.relayCalls
            && (Leaks(t, u) <==> t.peer.None? && LeakyTail(t))
            && (PeerHeld(t) ==> PeerHeld(u))
  {
    var ready := t.(session := t.session.(peerReady := true));
    FlushLeaks(ready);
    SameTail(t, ready);
    var flushed := FlushPendingP2p(ready);
    assert Leaks(t, flushed.state) <==> Leaks(ready, flushed.state);
    var u := PeerReady(t, true);
    AfterFlush(t, flushed, u);
    assert u == flushed.state.(session := u.session);
  }

  /** What a matching e2e.ready does after the flush touches the session only. */
  lemma AfterFlush(t: State, flushed: Outcome<State>, after: State)
    requires after == (if flushed.threw then flushed.state.(session := Clear(flushed.state.session))
                       else flushed.state.(session := FlushPending(flushed.state.session).state))
    ensures after == flushed.state.(session := after.session)
    ensures Leaks(t, after) <==> Leaks(t, flushed.state)
    ensures StrictInv(after) <==> StrictInv(flushed.state)
    ensures PeerHeld(after) <==> PeerHeld(flushed.state)
  {
  }

  /** A step of a strict transport leaks if and only if its guard holds, from
      every state that satisfies the invariant, which every step keeps. */
  lemma StepLeaksExactly(t: State, step: Step)
    requires StrictInv(t) && Enabled(t, step)
    ensures StrictInv(Apply(t, step))
    ensures t.relayCalls <= Apply(t, step).relayCalls
    ensures Leaks(t, Apply(t, step)) <==> LeakGuard(t, step)
  {
    match step
    case EndSwitchStep(i) => SwitchLeaks(t, i);
    case PeerReadyStep(matching) => ReadyLeaks(t, matching);
    case SendStep(item) => SendKeepsInvariant(t, item);
    case _ =>
      OtherStepsAreClean(t, step);
      NoCallsNoLeak(t, Apply(t, step));
  }

  lemma OtherStepsAreClean(t: State, step: Step)
    requires StrictInv(t) && Enabled(t, step)
    requires !step.EndSwitchStep? && !step.PeerReadyStep? && !step.SendStep?
    ensures StrictInv(Apply(t, step)) && Apply(t, step).relayCalls == t.relayCalls
  {
  }

  lemma SendKeepsInvariant(t: State, item: Item)
    requires StrictInv(t)
    ensures var u := Send(t, item).state;
            && StrictInv(u)
            && t.relayCalls <= u.relayCalls
            && !Leaks(t, u)
            && (PeerHeld(t) ==> PeerHeld(u))
  {
    var u := if !t.forceClosed && IsGatedBusiness(item.env) then t.(offered := t.offered + [item.env]) else t;
    if t.closed {
      assert Send(t, item).state == t;
    } else if t.path != P2p && !IsControl(item.env) {
      HoldsBack(t, u, item);
    } else if t.outbound.Some? {
      assert Send(t, item).state == u.(outbound := Some(u.outbound.value + [item]));
    } else {
      assert Send(t, item) == Dispatch(u, item);
      DispatchKeepsInvariant(u, item);
    }
  }

  /** Before the path is up a gated message is queued, dropped or closes the transport. */
  lemma HoldsBack(t: State, u: State, item: Item)
    requires StrictInv(t) && !t.closed && t.path != P2p && !IsControl(item.env)
    requires u == if !t.forceClosed && IsGatedBusiness(item.env) then t.(offered := t.offered + [item.env]) else t
    ensures var v := Send(t, item).state;
            && StrictInv(v) && v.relayCalls == t.relayCalls && (PeerHeld(t) ==> PeerHeld(v))
  {
    if t.forceClosed {
      assert Send(t, item).state == u;
    } else if |t.pending| >= PENDING_LIMIT {
      assert Send(t, item).state == ForceClose(u.(pending := []));
    } else {
      assert Send(t, item).state == u.(pending := u.pending + [item]);
    }
  }

  /** Without a hazard the peer stays in place, and then no step can leak. */
  lemma StepKeepsPeer(t: State, step: Step)
    requires StrictInv(t) && PeerHeld(t) && Enabled(t, step) && !Hazard(t, step)
    ensures PeerHeld(Apply(t, step)) && !LeakGuard(t, step)
  {
    match step
    case EndSwitchStep(i) => SwitchLeaks(t, i);
    case PeerReadyStep(matching) => ReadyLeaks(t, matching);
    case SendStep(item) => SendKeepsInvariant(t, item);
    case _ =>
  }

  // ---- Whole runs ----

  lemma {:induction false} RunInvariant(steps: seq<Step>)
    requires ValidRun(true, steps)
    ensures StrictInv(Final(true, steps))
    decreases |steps|
  {
    if steps != [] {
      var before := steps[..|steps| - 1];
      RunInvariant(before);
      StepLeaksExactly(Final(true, before), steps[|steps| - 1]);
    }
  }

  predicate SomeLeakGuard(steps: seq<Step>)
    requires ValidRun(true, steps)
    decreases |steps|
  {
    steps != [] &&
    var before := steps[..|steps| - 1];
    SomeLeakGuard(before) || LeakGuard(Final(true, before), steps[|steps| - 1])
  }

  /** A run of a strict transport keeps the relay path clean exactly when no step of it met its leak guard. */
  lemma {:induction false} RunIsCleanExactly(steps: seq<Step>)
    requires ValidRun(true, steps)
    ensures RelayClean(Final(true, steps)) <==> !SomeLeakGuard(steps)
    decreases |steps|
  {
    if steps != [] {
      var before := steps[..|steps| - 1];
      var t := Final(true, before);
      var u := Final(true, steps);
      RunInvariant(before);
      StepLeaksExactly(t, steps[|steps| - 1]);
      RunIsCleanExactly(before);
      assert u.relayCalls == t.relayCalls + u.relayCalls[|t.relayCalls|..];
    }
  }

  /** Strict-P2P safety: if no peer is detached inside a drain window,
      relayPath.send never gets anything but tunnel.upgrade.* and transport.* */
  lemma StrictSafety(steps: seq<Step>)
    requires ValidRun(true, steps) && HazardFree(true, steps)
    ensures RelayClean(Final(true, steps))
    ensures PeerHeld(Final(true, steps))
  {
    HazardFreeNeverLeaks(steps);
    RunIsCleanExactly(steps);
  }

  lemma {:induction false} HazardFreeNeverLeaks(steps: seq<Step>)
    requires ValidRun(true, steps) && HazardFree(true, steps)
    ensures PeerHeld(Final(true, steps)) && !SomeLeakGuard(steps)
    decreases |steps|
  {
    if steps != [] {
      var before := steps[..|steps| - 1];
      HazardFreeNeverLeaks(before);
      RunInvariant(before);
      StepKeepsPeer(Final(true, before), steps[|steps| - 1]);
    }
  }

  lemma Extend(steps: seq<Step>, step: Step, t: State)
    requires ValidRun(true, steps) && t == Final(true, steps) && Enabled(t, step)
    ensures ValidRun(true, steps + [step]) && Final(true, steps + [step]) == Apply(t, step)
    ensures Hazard(t, step) ==> !HazardFree(true, steps + [step])
  {
    assert (steps + [step])[..|steps + [step]| - 1] == steps;
  }

  /** A strict transport with two messages waiting and one drain window open. */
  function Waiting(first: Envelope, second: Envelope, peer: Option<nat>): (t: State) {
    Initial(true).(pending := [Item(first, None), Item(second, None)], offered := [first, second],
                   windows := [P2p], peer := peer)
  }

  /** Two messages wait for the path, a peer comes and a switch begins. */
  lemma WindowOpens(first: Envelope, second: Envelope, peer: nat) returns (steps: seq<Step>)
    requires IsGatedBusiness(first) && IsGatedBusiness(second)
    ensures ValidRun(true, steps)
    ensures Final(true, steps) == Waiting(first, second, Some(peer)).(switching := true, outbound := Some([]))
  {
    var a, b := Item(first, None), Item(second, None);
    var t0 := Initial(true);
    SendQueues(t0, a);
    var t1 := t0.(pending := [a], offered := [first]);
    SendQueues(t1, b);
    var t2 := t1.(pending := [a, b], offered := [first, second]);
    var s1: seq<Step> := [] + [SendStep(a)];
    Extend([], SendStep(a), t0);
    var s2 := s1 + [SendStep(b)];
    Extend(s1, SendStep(b), t1);
    var s3 := s2 + [AttachStep(peer)];
    Extend(s2, AttachStep(peer), t2);
    steps := s3 + [BeginSwitchStep(P2p)];
    Extend(s3, BeginSwitchStep(P2p), t2.(peer := Some(peer)));
  }

  lemma SendQueues(t: State, item: Item)
    requires t.strict && !t.closed && !t.forceClosed && t.path == Relay
    requires |t.pending| < PENDING_LIMIT && IsGatedBusiness(item.env)
    ensures Apply(t, SendStep(item)) == t.(pending := t.pending + [item], offered := t.offered + [item.env])
  {
  }

  /** When the window elapses without a peer, the second message reaches the relay path. */
  lemma WindowElapses(first: Envelope, second: Envelope)
    ensures EndSwitch(Waiting(first, second, None), 0).state.relayCalls == [second]
  {
    var t := Waiting(first, second, None);
    var u := t.(windows := [], path := P2p, pending := []);
    var closed := ForceClose(u);
    assert WithoutWindow(t, 0) == t.(windows := []);
    assert t.pending[1..] == [Item(second, None)];
    assert Dispatch(u, Item(first, None)) == Outcome(closed, false);
    FlushOntoRelay(closed, [Item(second, None)]);
  }

  /** Two messages wait for the path, the network changes inside the drain
      window, and the second message reaches the relay path. */
  lemma DetachInsideTheWindowLeaks(first: Envelope, second: Envelope, peer: nat)
    requires IsGatedBusiness(first) && IsGatedBusiness(second)
    ensures exists steps :: ValidRun(true, steps) && second in Final(true, steps).relayCalls && !RelayClean(Final(true, steps))
  {
    var before := WindowOpens(first, second, peer);
    var detached := before + [ReconnectStep];
    Extend(before, ReconnectStep, Final(true, before));
    assert Final(true, detached) == Waiting(first, second, None);
    var steps := detached + [EndSwitchStep(0)];
    Extend(detached, EndSwitchStep(0), Waiting(first, second, None));
    WindowElapses(first, second);
    assert second in Final(true, steps).relayCalls;
  }
}

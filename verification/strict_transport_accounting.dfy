// Strict mode neither loses, duplicates nor reorders gated business messages.
module StrictTransportAccounting {
  import opened Messages
  import opened Options
  import opened SecureSessionSpec
  import opened StrictTransportSpec
  import opened StrictTransportSafety

  /** The gated business messages that the peer was given, in the order they left. */
  function Handed(wire: seq<Frame>): (r: seq<Envelope>) {
    if wire == [] then []
    else
      var f := wire[0];
      (if f.lane.PeerLane? && f.body.Sealed? && IsGatedBusiness(f.body.inner) then [f.body.inner] else [])
      + Handed(wire[1..])
  }

  lemma {:induction false} HandedConcat(a: seq<Frame>, b: seq<Frame>)
    ensures Handed(a + b) == Handed(a) + Handed(b)
  {
    if a == [] {
      assert a + b == b;
    } else {
      assert (a + b)[1..] == a[1..] + b;
      HandedConcat(a[1..], b);
    }
  }

  function Gated(items: seq<Item>): seq<Envelope> {
    GatedOnly(Envelopes(items))
  }

  lemma GatedConcat(a: seq<Item>, b: seq<Item>)
    ensures Gated(a + b) == Gated(a) + Gated(b)
  {
    GatedOnlyConcat(Envelopes(a), Envelopes(b));
    assert Envelopes(a + b) == Envelopes(a) + Envelopes(b);
  }

  lemma GatedControl(items: seq<Item>)
    requires AllControl(items)
    ensures Gated(items) == []
  {
    GatedOnlyEmpty(Envelopes(items));
  }

  lemma GatedSingle(item: Item)
    ensures Gated([item]) == if IsGatedBusiness(item.env) then [item.env] else []
  {
    assert Envelopes([item]) == [item.env];
    assert GatedOnly([item.env][1..]) == [];
  }

  predicate SessionSane(s: Session) {
    (s.closed ==> s.crypto.None? && !s.peerReady) && (s.peerReady ==> s.crypto.Some?)
  }

  /** Offered messages are those handed over, then those queued, then those in hand to be flushed. */
  predicate Balanced(t: State, rest: seq<Item>) {
    && SessionSane(t.session)
    && (!t.closed && !t.forceClosed ==>
          t.offered == Handed(t.session.wire) + Gated(t.pending) + Gated(rest))
  }

  /** Nothing gated waits while the peer could take it. */
  predicate Settled(t: State) {
    !t.closed && !t.forceClosed && Ready(t.session) && t.path == P2p ==> Gated(t.pending) == []
  }

  /** A sealed message moves from the hand to the peer, a refused one to the queue. */
  lemma DispatchOnPeer(t: State, item: Item)
    requires t.strict && SessionSane(t.session) && t.path == P2p && t.peer.Some?
    ensures var u := Dispatch(t, item).state;
            && SessionSane(u.session)
            && (Ready(u.session) <==> Ready(t.session))
            && (u.forceClosed || u == t.(pending := u.pending, session := u.session))
            && (u.forceClosed || if EncodeForP2p(t.session, item.env).1.None?
                then Handed(u.session.wire) == Handed(t.session.wire) && u.pending == t.pending + [item]
                else Handed(u.session.wire) == Handed(t.session.wire) + Gated([item]) && u.pending == t.pending)
  {
    GatedSingle(item);
    var (s, body) := EncodeForP2p(t.session, item.env);
    if body.Some? {
      var f := Frame(body.value, PeerLane(PeerChannel(item, body.value)));
      HandedConcat(t.session.wire, [f]);
    }
  }

  lemma MoveBehindHanded(h: seq<Envelope>, p: seq<Envelope>, g: seq<Envelope>, r: seq<Envelope>)
    requires p == [] || g == []
    ensures h + p + (g + r) == (h + g) + p + r
  {
  }

  lemma MoveBehindPending(h: seq<Envelope>, p: seq<Envelope>, g: seq<Envelope>, r: seq<Envelope>)
    ensures h + p + (g + r) == h + (p + g) + r
  {
  }

  lemma DispatchBalances(t: State, item: Item, rest: seq<Item>)
    requires StrictInv(t) && Balanced(t, [item] + rest) && t.path == P2p && t.peer.Some? && !t.closed
    requires Settled(t) || IsControl(item.env)
    ensures var u := Dispatch(t, item).state;
            Balanced(u, rest) && (Settled(t) ==> Settled(u))
  {
    DispatchOnPeer(t, item);
    GatedSingle(item);
    GatedConcat([item], rest);
    GatedConcat(t.pending, [item]);
    var h, p, g, r := Handed(t.session.wire), Gated(t.pending), Gated([item]), Gated(rest);
    if EncodeForP2p(t.session, item.env).1.None? {
      MoveBehindPending(h, p, g, r);
    } else if p == [] || g == [] {
      MoveBehindHanded(h, p, g, r);
    }
  }

  lemma {:induction false} FlushBalances(t: State, items: seq<Item>)
    requires StrictInv(t) && Balanced(t, items) && Settled(t) && t.path == P2p && t.peer.Some?
    requires |t.pending| + |items| <= PENDING_LIMIT && !t.closed
    ensures var u := DispatchAll(t, items).state;
            Balanced(u, []) && Settled(u)
    decreases |items|
  {
    if items != [] {
      assert items == [items[0]] + items[1..];
      DispatchBalances(t, items[0], items[1..]);
      FlushBalances(Dispatch(t, items[0]).state, items[1..]);
    }
  }

  lemma {:induction false} DrainBalances(t: State, items: seq<Item>)
    requires StrictInv(t) && Balanced(t, items) && t.outbound.None? && !t.closed && AllControl(items)
    requires t.forceClosed || (t.path == P2p && t.peer.Some?)
    ensures Balanced(DispatchAll(t, items).state, [])
    decreases |items|
  {
    if items != [] {
      var o := Dispatch(t, items[0]);
      DispatchKeepsInvariant(t, items[0]);
      if t.forceClosed {
        RelaySendHandsNothing(t.session, items[0].env);
      } else {
        assert items == [items[0]] + items[1..];
        DispatchBalances(t, items[0], items[1..]);
      }
      if !o.threw {
        DrainBalances(o.state, items[1..]);
      }
    }
  }

  lemma BalancedOffer(t: State, u: State, item: Item)
    requires Balanced(t, []) && !t.closed && !t.forceClosed
    requires u == if IsGatedBusiness(item.env) then t.(offered := t.offered + [item.env]) else t
    ensures Balanced(u, [item])
  {
    GatedSingle(item);
    assert Gated([]) == [];
  }

  lemma QueueBalances(t: State, u: State, item: Item)
    requires StrictInv(t) && Balanced(t, []) && !t.closed && !t.forceClosed && t.path != P2p && !IsControl(item.env)
    requires u == if IsGatedBusiness(item.env) then t.(offered := t.offered + [item.env]) else t
    ensures Balanced(Send(t, item).state, []) && Settled(Send(t, item).state)
  {
    BalancedOffer(t, u, item);
    GatedConcat(t.pending, [item]);
    assert Gated([]) == [];
    MoveBehindPending(Handed(t.session.wire), Gated(t.pending), Gated([item]), []);
    if |t.pending| >= PENDING_LIMIT {
      assert Send(t, item).state == ForceClose(u.(pending := []));
    } else {
      assert Send(t, item).state == u.(pending := u.pending + [item]);
    }
  }

  lemma SendBalances(t: State, item: Item)
    requires StrictInv(t) && PeerHeld(t) && Balanced(t, []) && Settled(t)
    ensures Balanced(Send(t, item).state, []) && Settled(Send(t, item).state)
  {
    if !t.closed && !t.forceClosed {
      var u := if IsGatedBusiness(item.env) then t.(offered := t.offered + [item.env]) else t;
      GatedSingle(item);
      assert [item] + [] == [item];
      if t.path == P2p {
        BalancedOffer(t, u, item);
        DispatchBalances(u, item, []);
      } else if !IsControl(item.env) {
        QueueBalances(t, u, item);
      } else if t.outbound.None? {
        RelaySendHandsNothing(t.session, item.env);
      } else {
        // a control message held for the switch: nothing gated moves
      }
    }
  }

  lemma RelaySendHandsNothing(s: Session, env: Envelope)
    requires SessionSane(s)
    ensures var u := SessionSend(s, env).state;
            SessionSane(u) && Handed(u.wire) == Handed(s.wire) && (Ready(u) <==> Ready(s)) && u.closed == s.closed
  {
    var u := SessionSend(s, env).state;
    if u.wire != s.wire {
      var f := u.wire[|s.wire|];
      HandedConcat(s.wire, [f]);
    }
  }

  lemma {:induction false} RelaySendAllHandsNothing(s: Session, envs: seq<Envelope>)
    requires SessionSane(s)
    ensures var u := SendAll(s, envs).state;
            SessionSane(u) && Handed(u.wire) == Handed(s.wire) && (Ready(u) <==> Ready(s)) && u.closed == s.closed
    decreases |envs|
  {
    if envs != [] {
      RelaySendHandsNothing(s, envs[0]);
      var o := SessionSend(s, envs[0]);
      if !o.threw {
        RelaySendAllHandsNothing(o.state, envs[1..]);
      }
    }
  }

  lemma SwitchBalances(t: State, i: nat)
    requires StrictInv(t) && PeerHeld(t) && Balanced(t, []) && Settled(t) && i < |t.windows|
    ensures var u := EndSwitch(t, i).state;
            Balanced(u, []) && Settled(u)
  {
    if !t.closed && !t.forceClosed {
      var start := WithoutWindow(t, i).(path := P2p, outbound := None);
      var queued := if t.outbound.Some? then t.outbound.value else [];
      GatedControl(queued);
      assert Balanced(start, queued);
      DrainBalances(start, queued);
      SwitchDrains(t, i);
      var drained := DispatchAll(start, queued);
      if !drained.state.forceClosed {
        DrainThrowsOnlyAfterForceClose(start, queued);
        PendingFlushBalances(drained.state);
      }
    }
  }

  lemma PendingFlushBalances(t: State)
    requires StrictInv(t) && Balanced(t, []) && t.path == P2p && t.peer.Some? && !t.closed
    ensures var u := FlushPendingP2p(t).state;
            Balanced(u, []) && Settled(u)
  {
    assert Gated([]) == [];
    assert Balanced(t.(pending := []), t.pending);
    FlushBalances(t.(pending := []), t.pending);
  }

  lemma {:induction false} DrainThrowsOnlyAfterForceClose(t: State, items: seq<Item>)
    requires t.strict && !t.forceClosed && t.path == P2p && t.peer.Some?
    ensures var o := DispatchAll(t, items);
            o.threw ==> o.state.forceClosed
    decreases |items|
  {
    if items != [] {
      var o := Dispatch(t, items[0]);
      if o.state.forceClosed {
        ForceClosedStays(o.state, items[1..]);
      } else {
        DrainThrowsOnlyAfterForceClose(o.state, items[1..]);
      }
    }
  }

  lemma ReadyBalances(t: State, matching: bool)
    requires StrictInv(t) && PeerHeld(t) && Balanced(t, []) && Settled(t) && !t.session.closed
    ensures var u := PeerReady(t, matching);
            Balanced(u, []) && Settled(u)
  {
    if matching && t.session.crypto.Some? && !t.session.peerReady {
      var u := t.(session := t.session.(peerReady := true));
      var flushed := if u.path == P2p then FlushPendingP2p(u).state else u;
      if u.path == P2p {
        if u.closed {
          assert flushed == u.(pending := []);
        } else {
          PendingFlushBalances(u);
        }
      }
      RelaySendAllHandsNothing(flushed.session.(pending := []), flushed.session.pending);
    }
  }

  lemma EmitHandsNothing(s: Session, env: Envelope, lane: Lane)
    ensures Handed(Emit(s, Plain(env), lane).wire) == Handed(s.wire)
  {
    HandedConcat(s.wire, [Frame(Plain(env), lane)]);
  }

  /** A session that hands nothing over and stays as ready as it was changes no balance. */
  lemma SessionBalances(t: State, s: Session)
    requires Balanced(t, []) && Settled(t) && SessionSane(s)
    requires Handed(s.wire) == Handed(t.session.wire) && (Ready(s) ==> Ready(t.session))
    ensures Balanced(t.(session := s), []) && Settled(t.(session := s))
  {
  }

  /** What a step on the session alone makes of the session. */
  lemma SessionStepHandsNothing(t: State, step: Step)
    requires Enabled(t, step) && SessionSane(t.session)
    requires step.HeartbeatStep? || step.SessionSendStep? || step.ClientSendStep? || step.HandshakeStep?
             || step.SessionCloseStep? || step.SessionLostStep?
    ensures Apply(t, step) == t.(session := Apply(t, step).session)
    ensures SessionSane(Apply(t, step).session) && (Ready(Apply(t, step).session) ==> Ready(t.session))
    ensures Handed(Apply(t, step).session.wire) == Handed(t.session.wire)
  {
    match step {
      case HeartbeatStep(ping) => EmitHandsNothing(t.session, ping, PeerLane(Control));
      case SessionSendStep(env) => RelaySendHandsNothing(t.session, env);
      case ClientSendStep(clear) => EmitHandsNothing(t.session, clear, RelayLane);
      case HandshakeStep(id, ready) => EmitHandsNothing(t.session.(crypto := Some(Crypto(id, 0))), ready, RelayLane);
      case SessionCloseStep(goodbye) => RelaySendHandsNothing(t.session, goodbye);
      case SessionLostStep =>
    }
  }

  lemma SessionStepBalances(t: State, step: Step)
    requires Enabled(t, step) && Balanced(t, []) && Settled(t)
    requires step.HeartbeatStep? || step.SessionSendStep? || step.ClientSendStep? || step.HandshakeStep?
             || step.SessionCloseStep? || step.SessionLostStep?
    ensures Balanced(Apply(t, step), []) && Settled(Apply(t, step))
  {
    SessionStepHandsNothing(t, step);
    SessionBalances(t, Apply(t, step).session);
  }

  /** Detaching, attaching and opening a window leave messages and session alone. */
  lemma PathStepBalances(t: State, step: Step)
    requires Enabled(t, step) && Balanced(t, []) && Settled(t)
    requires step.AttachStep? || step.DetachStep? || step.BeginSwitchStep? || step.PauseStep? || step.ResumeStep? || step.ReconnectStep?
    ensures Balanced(Apply(t, step), []) && Settled(Apply(t, step))
  {
  }

  lemma ClosingStepBalances(t: State, step: Step)
    requires StrictInv(t) && Enabled(t, step) && Balanced(t, []) && Settled(t)
    requires step.HealthStep? || step.PeerClosedStep? || step.ForceCloseStep? || step.CloseStep?
    ensures Balanced(Apply(t, step), []) && Settled(Apply(t, step))
  {
    var u := Apply(t, step);
    assert u.closed || u.forceClosed || u == t.(peer := u.peer);
  }

  lemma StepBalances(t: State, step: Step)
    requires StrictInv(t) && PeerHeld(t) && Enabled(t, step)
    requires Balanced(t, []) && Settled(t)
    ensures Balanced(Apply(t, step), []) && Settled(Apply(t, step))
  {
    match step
    case SendStep(item) => SendBalances(t, item);
    case EndSwitchStep(i) => SwitchBalances(t, i);
    case PeerReadyStep(matching) => ReadyBalances(t, matching);
    case AttachStep(_) => PathStepBalances(t, step);
    case DetachStep => PathStepBalances(t, step);
    case BeginSwitchStep(_) => PathStepBalances(t, step);
    case PauseStep => PathStepBalances(t, step);
    case ResumeStep => PathStepBalances(t, step);
    case ReconnectStep => PathStepBalances(t, step);
    case HealthStep => ClosingStepBalances(t, step);
    case PeerClosedStep => ClosingStepBalances(t, step);
    case ForceCloseStep => ClosingStepBalances(t, step);
    case CloseStep => ClosingStepBalances(t, step);
    case _ => SessionStepBalances(t, step);
  }

  /** Order and accounting in strict mode: until the transport is closed or
      force closed, the gated business messages the peer was given, followed by
      the queued ones, are exactly those offered, in order. */
  lemma StrictAccounting(steps: seq<Step>)
    requires ValidRun(true, steps) && HazardFree(true, steps)
    ensures var t := Final(true, steps);
            && (!t.closed && !t.forceClosed ==> t.offered == Handed(t.session.wire) + Gated(t.pending))
            && |t.pending| <= PENDING_LIMIT
  {
    RunBalances(steps);
    RunInvariant(steps);
    assert Gated([]) == [];
  }

  lemma {:induction false} RunBalances(steps: seq<Step>)
    requires ValidRun(true, steps) && HazardFree(true, steps)
    ensures Balanced(Final(true, steps), []) && Settled(Final(true, steps))
    decreases |steps|
  {
    if steps != [] {
      var before := steps[..|steps| - 1];
      RunBalances(before);
      RunInvariant(before);
      HazardFreeNeverLeaks(before);
      StepBalances(Final(true, before), steps[|steps| - 1]);
    }
  }
}

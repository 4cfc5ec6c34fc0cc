// What becomes of messages when the path is lost, paused or closed
// (app/src/lib/transport/sessionTransport.ts).
module TransportLifecycle {
  import opened Messages
  import opened Options
  import opened SecureSessionSpec
  import opened StrictTransportSpec
  import opened TransportConservation

  // ---- The first connection ----

  function OnRelay(wire: seq<Frame>): (r: seq<Body>)
    decreases |wire|
  {
    if wire == [] then []
    else
      var last := wire[|wire| - 1];
      OnRelay(wire[..|wire| - 1]) + (if last.lane.RelayLane? then [last.body] else [])
  }

  /** A handshake and the peer's ready on a fresh session: e2e.ready goes out in the clear, and nothing else. */
  lemma SessionStarts(t: State, id: nat, readyMessage: Envelope)
    requires t.session == NO_SESSION && t.path == Relay && readyMessage.kind == Other("e2e.ready")
    ensures var u := PeerReady(Apply(t, HandshakeStep(id, readyMessage)), true);
            u == t.(session := NO_SESSION.(crypto := Some(Crypto(id, 0)), peerReady := true,
                                           wire := [Frame(Plain(readyMessage), RelayLane)]))
  {
    assert FreshSession(t.session, id);
    var u := Apply(t, HandshakeStep(id, readyMessage));
    assert u.session.pending == [];
  }

  lemma OnlyReadyLeft(readyMessage: Envelope)
    ensures OnPeer([Frame(Plain(readyMessage), RelayLane)]) == []
    ensures OnRelay([Frame(Plain(readyMessage), RelayLane)]) == [Plain(readyMessage)]
  {
    var wire := [Frame(Plain(readyMessage), RelayLane)];
    assert wire[..0] == [];
  }

  /** What is sent before there is a session or a peer waits; the relay path carries the e2e.ready alone. */
  lemma WaitsForConnection(items: seq<Item>, id: nat, readyMessage: Envelope)
    requires readyMessage.kind == Other("e2e.ready")
    requires (forall item :: item in items ==> !IsControl(item.env)) && |items| <= PENDING_LIMIT
    ensures var waiting := SendEach(Initial(true), items);
            waiting.session == NO_SESSION && waiting.relayCalls == [] &&
            var ready := PeerReady(Apply(waiting, HandshakeStep(id, readyMessage)), true);
            && ready == Initial(true).(pending := items, offered := ready.offered, session := ready.session)
            && !ready.session.closed && Ready(ready.session)
            && OnPeer(ready.session.wire) == [] && OnRelay(ready.session.wire) == [Plain(readyMessage)]
  {
    PausedHolds(Initial(true), items);
    assert [] + items == items;
    SessionStarts(SendEach(Initial(true), items), id, readyMessage);
    OnlyReadyLeft(readyMessage);
  }

  /** A strict transport from its first message on: all of it leaves in order
      once session and peer are there and the path is switched, and nothing of
      it ever was on the relay path. */
  lemma FirstConnection(items: seq<Item>, id: nat, readyMessage: Envelope, peer: nat)
    requires readyMessage.kind == Other("e2e.ready")
    requires (forall item :: item in items ==> !IsControl(item.env)) && |items| <= PENDING_LIMIT
    ensures var waiting := SendEach(Initial(true), items);
            waiting.session == NO_SESSION &&
            var ready := PeerReady(Apply(waiting, HandshakeStep(id, readyMessage)), true);
            var back := BeginSwitch(Apply(Apply(ready, ResumeStep), AttachStep(peer)), P2p);
            |back.windows| == 1 &&
            var o := EndSwitch(back, 0);
            && !o.threw && o.state.path == P2p && o.state.pending == [] && o.state.relayCalls == []
            && OnPeer(o.state.session.wire) == Envelopes(items)
  {
    WaitsForConnection(items, id, readyMessage);
    var ready := PeerReady(Apply(SendEach(Initial(true), items), HandshakeStep(id, readyMessage)), true);
    BackInForeground(ready, peer);
    assert [] + Envelopes(items) == Envelopes(items);
  }

  // ---- The session's own end ----

  /** Closing a session that is ready says goodbye on the relay path, sealed under the next number, and then nothing more. */
  lemma SessionSaysGoodbye(s: Session, goodbye: Envelope)
    requires !s.closed && Ready(s) && goodbye.kind == Business("app.connection.", "goodbye")
    ensures var u := SessionClose(s, goodbye);
            && u.closed && u.crypto.None? && u.pending == []
            && u.wire == s.wire + [Frame(Sealed(s.crypto.value.id, s.crypto.value.txSeq + 1, goodbye), RelayLane)]
  {
  }

  /** A ready that does not fit, or comes without a session, ends the session: what follows is refused. */
  lemma WrongReadyEnds(t: State, matching: bool, env: Envelope)
    requires !matching || t.session.crypto.None?
    ensures var u := PeerReady(t, matching);
            && u.session.wire == t.session.wire && u.pending == t.pending
            && SessionSend(u.session, env).threw && EncodeForP2p(u.session, env).1.None?
  {
  }

  // ---- Losing the peer outside strict mode ----

  /** When the peer is lost, or its health is, outside strict mode: what is sent
      while the switch back is waiting goes to relayPath.send when it ends, in
      order and nothing else with it; what was pending stays. */
  lemma DowngradeDeliversWindow(t: State, items: seq<Item>)
    requires Open(t) && !t.strict && t.path == P2p && !t.switching && !t.session.closed
    ensures var lost := HealthDowngrade(t);
            var waited := SendEach(lost, items);
            (t.peer.Some? ==> PeerClosed(t) == lost) &&
            lost.peer.None? && |waited.windows| == |t.windows| + 1 &&
            var o := EndSwitch(waited, |t.windows|);
            && !o.threw && o.state.path == Relay && !o.state.switching
            && o.state.relayCalls == t.relayCalls + Envelopes(items)
            && OnPeer(o.state.session.wire) == OnPeer(t.session.wire)
            && o.state.pending == t.pending
  {
    var lost := HealthDowngrade(t);
    assert lost == t.(switching := true, outbound := Some([]), windows := t.windows + [Relay], peer := None);
    WindowHolds(lost, items);
    var waited := SendEach(lost, items);
    assert Held(waited) == items;
    WindowLeavesForRelay(waited, |t.windows|);
  }

  // ---- Losing the peer in strict mode ----

  /** A strict transport that loses its peer-to-peer path is force closed: it
      drops what waits, and from then on business messages go nowhere. */
  lemma StrictDowngradeEnds(t: State, item: Item)
    requires Open(t) && t.strict && t.path == P2p
    ensures var u := HealthDowngrade(t);
            && (t.peer.Some? ==> PeerClosed(t) == u)
            && u.forceClosed && u.peer.None? && u.path == Relay && u.pending == [] && Held(u) == []
            && (!IsControl(item.env) ==> Send(u, item) == Outcome(u, false))
            && (IsControl(item.env) ==> Send(u, item).state.relayCalls == t.relayCalls + [item.env])
  {
    var u := HealthDowngrade(t);
    assert u == ForceClose(t);
    if IsControl(item.env) {
      assert Send(u, item) == Dispatch(u, item);
    }
  }

  // ---- Pausing ----

  /** A strict transport in the background keeps business messages for later, in order. */
  lemma {:induction false} PausedHolds(t: State, items: seq<Item>)
    requires Open(t) && t.strict && t.path == Relay
    requires (forall item :: item in items ==> !IsControl(item.env)) && |t.pending| + |items| <= PENDING_LIMIT
    ensures var u := SendEach(t, items);
            u == t.(pending := t.pending + items, offered := u.offered)
    decreases |items|
  {
    if items == [] {
      assert t.pending + items == t.pending;
    } else {
      var u := Send(t, items[0]).state;
      assert u == t.(pending := t.pending + [items[0]], offered := u.offered);
      PausedHolds(u, items[1..]);
      assert u.pending + items[1..] == t.pending + items;
    }
  }

  /** Coming back: a peer is attached and the path switched, and everything
      that waited leaves in order. */
  lemma BackInForeground(t: State, peer: nat)
    requires Open(t) && t.strict && t.path == Relay && !t.switching && t.windows == [] && t.outbound.None?
    requires !t.session.closed && Ready(t.session) && |t.pending| <= PENDING_LIMIT
    ensures var back := BeginSwitch(Apply(Apply(t, ResumeStep), AttachStep(peer)), P2p);
            |back.windows| == 1 &&
            var o := EndSwitch(back, 0);
            && !o.threw && o.state.path == P2p && o.state.pending == []
            && OnPeer(o.state.session.wire) == OnPeer(t.session.wire) + Envelopes(t.pending)
            && o.state.relayCalls == t.relayCalls
  {
    var back := BeginSwitch(Apply(Apply(t, ResumeStep), AttachStep(peer)), P2p);
    assert back == t.(paused := false, peer := Some(peer), switching := true, outbound := Some([]), windows := [P2p]);
    assert Held(back) == [];
    WindowLeavesForPeer(back, 0);
    ReadyTakesAll(t.session, t.pending);
    assert OnPeer(t.session.wire) + Taken(t.session, []) == OnPeer(t.session.wire);
  }

  /** Going to the background takes a strict transport off its peer; what is
      sent meanwhile leaves after what was pending before, once it is back. */
  lemma BackgroundAndBack(t: State, items: seq<Item>, peer: nat)
    requires Open(t) && t.strict && !t.paused && !t.switching && t.windows == [] && t.outbound.None?
    requires !t.session.closed && Ready(t.session)
    requires (forall item :: item in items ==> !IsControl(item.env)) && |t.pending| + |items| <= PENDING_LIMIT
    ensures var away := SendEach(PauseForBackground(t), items);
            var back := BeginSwitch(Apply(Apply(away, ResumeStep), AttachStep(peer)), P2p);
            && away.peer.None? && away.path == Relay && away.relayCalls == t.relayCalls
            && OnPeer(away.session.wire) == OnPeer(t.session.wire) && |back.windows| == 1 &&
            var o := EndSwitch(back, 0);
            && !o.threw && o.state.path == P2p && o.state.pending == []
            && OnPeer(o.state.session.wire) == OnPeer(t.session.wire) + Envelopes(t.pending + items)
            && o.state.relayCalls == t.relayCalls
  {
    PausedHolds(PauseForBackground(t), items);
    BackInForeground(SendEach(PauseForBackground(t), items), peer);
  }

  // ---- Closing ----

  lemma {:induction false} DispatchAllStaysOpen(t: State, items: seq<Item>)
    requires !t.closed
    ensures !DispatchAll(t, items).state.closed
    decreases |items|
  {
    if items != [] {
      var o := Dispatch(t, items[0]);
      if !o.threw {
        DispatchAllStaysOpen(o.state, items[1..]);
      }
    }
  }

  lemma SwitchStaysOpen(t: State, i: nat)
    requires !t.closed && i < |t.windows|
    ensures !EndSwitch(t, i).state.closed
  {
    var u := WithoutWindow(t, i);
    if !u.forceClosed {
      var start := u.(path := t.windows[i]);
      DispatchAllStaysOpen(start.(outbound := None), Held(start));
      var drained := DrainOutbound(start);
      DispatchAllStaysOpen(drained.state.(pending := []), drained.state.pending);
    }
  }

  lemma ReadyStaysOpen(t: State, matching: bool)
    requires !t.closed
    ensures !PeerReady(t, matching).closed
  {
    var u := t.(session := t.session.(peerReady := true));
    DispatchAllStaysOpen(u.(pending := []), u.pending);
  }

  lemma SendStaysOpen(t: State, item: Item)
    requires !t.closed
    ensures !Send(t, item).state.closed
  {
  }

  lemma OnlyCloseCloses(t: State, step: Step)
    requires !t.closed && Enabled(t, step) && !step.CloseStep?
    ensures !Apply(t, step).closed
  {
    if step.EndSwitchStep? {
      SwitchStaysOpen(t, step.window);
    } else if step.PeerReadyStep? {
      ReadyStaysOpen(t, step.matching);
    } else if step.SendStep? {
      SendStaysOpen(t, step.item);
    } else {
      assert Apply(t, step).closed == t.closed;
    }
  }

  /** A closed transport keeps nothing. */
  predicate Emptied(t: State) {
    t.closed && t.pending == [] && t.outbound.None?
  }

  lemma ReadyLeavesEmpty(t: State, matching: bool)
    requires Emptied(t)
    ensures var u := PeerReady(t, matching);
            Emptied(u) && u.relayCalls == t.relayCalls
  {
    var u := t.(session := t.session.(peerReady := true));
    assert FlushPendingP2p(u) == Outcome(u, false);
  }

  lemma ClosedStays(t: State, step: Step)
    requires Emptied(t) && Enabled(t, step)
    ensures Emptied(Apply(t, step)) && Apply(t, step).relayCalls == t.relayCalls
  {
    if step.PeerReadyStep? {
      ReadyLeavesEmpty(t, step.matching);
    } else if step.SendStep? {
      assert Send(t, step.item).state == t;
    } else {
      var u := Apply(t, step);
      assert u.closed && u.pending == [] && u.outbound.None?;
    }
  }

  /** In every run, once the transport is closed it holds and queues nothing,
      refuses everything, and never calls relayPath.send again. */
  lemma {:induction false} ClosedIsSilent(strict: bool, steps: seq<Step>, item: Item)
    requires ValidRun(strict, steps) && Final(strict, steps).closed
    ensures Emptied(Final(strict, steps))
    ensures Send(Final(strict, steps), item) == Outcome(Final(strict, steps), true)
    ensures steps != [] && Final(strict, steps[..|steps| - 1]).closed ==>
              Final(strict, steps).relayCalls == Final(strict, steps[..|steps| - 1]).relayCalls
    decreases |steps|
  {
    if steps != [] {
      var before, step := steps[..|steps| - 1], steps[|steps| - 1];
      if Final(strict, before).closed {
        ClosedIsSilent(strict, before, item);
        ClosedStays(Final(strict, before), step);
      } else if !step.CloseStep? {
        OnlyCloseCloses(Final(strict, before), step);
      } else {
        assert Emptied(CloseTransport(Final(strict, before)));
      }
    }
  }
}

// The two stateful classes, each method tied to a function of the step system:
// MobileRelaySession (app/src/lib/relay-client/mobileRelaySession.ts) and
// MobileSessionTransport (app/src/lib/transport/sessionTransport.ts).
module MobileTransport {
  import opened Messages
  import opened Options
  import opened SecureSessionSpec
  import Spec = StrictTransportSpec
  import opened StrictTransportSpec

  class MobileRelaySession {
    var closed: bool
    var crypto: Option<Crypto>
    var peerReady: bool
    var pendingBusinessMessages: seq<Envelope>
    ghost var sent: seq<Envelope>
    ghost var wire: seq<Frame>

    ghost function View(): Session
      reads this
    {
      Session(closed, crypto, peerReady, pendingBusinessMessages, sent, wire)
    }

    constructor ()
      ensures View() == NO_SESSION
    {
      closed, crypto, peerReady, pendingBusinessMessages := false, None, false, [];
      sent, wire := [], [];
    }

    method EncodeOutgoing(env: Envelope, queueIfNotReady: bool) returns (body: Option<Body>)
      modifies this
      ensures (View(), body) == Encode(old(View()), env, queueIfNotReady)
    {
      if IsBusiness(env) {
        if crypto.None? || !peerReady {
          if queueIfNotReady {
            pendingBusinessMessages := pendingBusinessMessages + [env];
          }
          return None;
        }
        crypto := Some(crypto.value.(txSeq := crypto.value.txSeq + 1));
        return Some(Sealed(crypto.value.id, crypto.value.txSeq, env));
      }
      return Some(Plain(env));
    }

    method EncodeForPeer(env: Envelope) returns (body: Option<Body>)
      modifies this
      ensures (View(), body) == EncodeForP2p(old(View()), env)
    {
      if closed {
        return None;
      }
      body := EncodeOutgoing(env, false);
    }

    method Send(env: Envelope) returns (threw: bool)
      modifies this
      ensures Outcome(View(), threw) == SessionSend(old(View()), env)
    {
      if closed {
        return true;
      }
      sent := sent + [env];
      var encoded := EncodeOutgoing(env, true);
      if encoded.Some? {
        wire := wire + [Frame(encoded.value, RelayLane)];
      }
      return false;
    }

    method FlushPendingBusinessMessages() returns (threw: bool)
      modifies this
      ensures Outcome(View(), threw) == FlushPending(old(View()))
    {
      ghost var before := View();
      var pending := pendingBusinessMessages;
      pendingBusinessMessages := [];
      var i := 0;
      threw := false;
      while i < |pending| && !threw
        invariant 0 <= i <= |pending|
        invariant SendAll(before.(pending := []), pending) ==
                  if threw then Outcome(View(), true) else SendAll(View(), pending[i..])
      {
        threw := Send(pending[i]);
        i := i + 1;
      }
      sent := before.sent;
    }

    method HandleHandshakeReply(id: nat, readyMessage: Envelope)
      modifies this
      ensures View() == CompleteHandshake(old(View()), id, readyMessage)
    {
      crypto := Some(Crypto(id, 0));
      wire := wire + [Frame(Plain(readyMessage), RelayLane)];
    }

    method ClearSession()
      modifies this
      ensures View() == Clear(old(View()))
    {
      closed, crypto, peerReady, pendingBusinessMessages := true, None, false, [];
    }

    method Close(goodbye: Envelope)
      modifies this
      ensures View() == SessionClose(old(View()), goodbye)
    {
      if closed {
        return;
      }
      if peerReady {
        var _ := Send(goodbye);
      }
      ClearSession();
    }
  }

  class MobileSessionTransport {
    const strictP2p: bool
    const relaySession: MobileRelaySession
    var currentPath: Path
    var closed: bool
    var forceClosed: bool
    var backgroundPaused: bool
    var peer: Option<nat>
    var switching: bool
    var outboundQueue: Option<seq<Item>>
    var strictPendingQueue: seq<Item>
    // Continuations of switchPath that are still waiting for their drain delay.
    var drainWindows: seq<Path>
    ghost var relayCalls: seq<Envelope>
    ghost var offered: seq<Envelope>

    ghost function View(): State
      reads this, relaySession
    {
      State(strictP2p, currentPath, closed, forceClosed, backgroundPaused, peer, switching, drainWindows,
            outboundQueue, strictPendingQueue, relaySession.View(), relayCalls, offered)
    }

    constructor (strict: bool, relay: MobileRelaySession)
      requires relay.View() == NO_SESSION
      ensures View() == Initial(strict) && relaySession == relay
    {
      strictP2p, relaySession := strict, relay;
      currentPath, closed, forceClosed, backgroundPaused := Relay, false, false, false;
      peer, switching, outboundQueue, strictPendingQueue, drainWindows := None, false, None, [], [];
      relayCalls, offered := [], [];
    }

    method DetachP2pPeer()
      modifies this
      ensures View() == DetachPeer(old(View()))
    {
      peer := None;
    }

    method AttachP2pPeer(newPeer: nat)
      modifies this
      ensures View() == Apply(old(View()), AttachStep(newPeer))
    {
      DetachP2pPeer();
      peer := Some(newPeer);
    }

    method ResetPathState()
      modifies this
      ensures View() == ResetPath(old(View()))
    {
      outboundQueue := None;
      switching := false;
      if currentPath != Relay {
        currentPath := Relay;
      }
    }

    method CloseByForce()
      modifies this
      ensures View() == ForceClose(old(View()))
    {
      if !strictP2p {
        return;
      }
      if forceClosed {
        return;
      }
      forceClosed := true;
      DetachP2pPeer();
      ResetPathState();
      if |strictPendingQueue| > 0 {
        strictPendingQueue := [];
      }
    }

    method QueuePendingBusinessSend(item: Item)
      modifies this
      ensures View() == QueuePending(old(View()), item)
    {
      if |strictPendingQueue| >= PENDING_LIMIT {
        strictPendingQueue := [];
        CloseByForce();
        return;
      }
      strictPendingQueue := strictPendingQueue + [item];
    }

    method DispatchSend(item: Item) returns (threw: bool)
      modifies this, relaySession
      ensures Outcome(View(), threw) == Dispatch(old(View()), item)
    {
      if currentPath == P2p && peer.Some? {
        var encoded := relaySession.EncodeForPeer(item.env);
        if encoded.None? {
          QueuePendingBusinessSend(item);
          return false;
        }
        relaySession.wire := relaySession.wire + [Frame(encoded.value, PeerLane(PeerChannel(item, encoded.value)))];
        return false;
      }
      if strictP2p && currentPath == P2p && peer.None? {
        CloseByForce();
        return false;
      }
      relayCalls := relayCalls + [item.env];
      threw := relaySession.Send(item.env);
    }

    method DispatchEach(items: seq<Item>) returns (threw: bool)
      modifies this, relaySession
      ensures Outcome(View(), threw) == DispatchAll(old(View()), items)
    {
      ghost var before := View();
      var i := 0;
      threw := false;
      while i < |items| && !threw
        invariant 0 <= i <= |items|
        invariant DispatchAll(before, items) ==
                  if threw then Outcome(View(), true) else DispatchAll(View(), items[i..])
      {
        threw := DispatchSend(items[i]);
        i := i + 1;
      }
    }

    method FlushPendingP2pBusinessMessages() returns (threw: bool)
      modifies this, relaySession
      ensures Outcome(View(), threw) == FlushPendingP2p(old(View()))
    {
      var pending := strictPendingQueue;
      strictPendingQueue := [];
      threw := DispatchEach(pending);
    }

    method Send(item: Item) returns (threw: bool)
      modifies this, relaySession
      ensures Outcome(View(), threw) == Spec.Send(old(View()), item)
    {
      if closed {
        return true;
      }
      if !forceClosed && IsGatedBusiness(item.env) {
        offered := offered + [item.env];
      }
      if strictP2p && currentPath != P2p && !IsControl(item.env) {
        if forceClosed {
          return false;
        }
        if |strictPendingQueue| >= PENDING_LIMIT {
          strictPendingQueue := [];
          CloseByForce();
          return false;
        }
        QueuePendingBusinessSend(item);
        return false;
      }
      if outboundQueue.Some? {
        outboundQueue := Some(outboundQueue.value + [item]);
        return false;
      }
      threw := DispatchSend(item);
    }

    /** switchPath up to its await. */
    method SwitchPath(target: Path)
      modifies this
      ensures View() == BeginSwitch(old(View()), target)
    {
      if closed || currentPath == target || switching {
        return;
      }
      if target == P2p && peer.None? {
        return;
      }
      if strictP2p && target == Relay {
        return;
      }
      switching := true;
      outboundQueue := Some([]);
      drainWindows := drainWindows + [target];
    }

    /** switchPath after its await, for the window that elapsed. */
    method ResumeSwitchPath(window: nat) returns (threw: bool)
      requires window < |drainWindows|
      modifies this, relaySession
      ensures Outcome(View(), threw) == EndSwitch(old(View()), window)
    {
      ghost var before := View();
      var target := drainWindows[window];
      drainWindows := drainWindows[..window] + drainWindows[window + 1..];
      assert View() == WithoutWindow(before, window);
      if closed || forceClosed {
        switching := false;
        return false;
      }
      SwitchGoesOn(before, window);
      currentPath := target;
      threw := FlushQueues(target);
    }

    method FlushQueues(target: Path) returns (threw: bool)
      modifies this, relaySession
      ensures Outcome(View(), threw) == AfterSwitch(old(View()), target)
    {
      var queued := outboundQueue;
      outboundQueue := None;
      threw := false;
      if queued.Some? {
        threw := DispatchEach(queued.value);
      }
      assert Outcome(View(), threw) == DrainOutbound(old(View()));
      if !threw && target == P2p && |strictPendingQueue| > 0 {
        threw := FlushPendingP2pBusinessMessages();
      }
      switching := false;
    }

    method HandleHealthDowngrade()
      modifies this
      ensures View() == HealthDowngrade(old(View()))
    {
      if currentPath != P2p {
        return;
      }
      if strictP2p {
        CloseByForce();
        return;
      }
      SwitchPath(Relay);
      DetachP2pPeer();
    }

    method HandlePeerClosed()
      modifies this
      ensures View() == PeerClosed(old(View()))
    {
      if peer.None? {
        return;
      }
      if currentPath == P2p {
        HandleHealthDowngrade();
      } else {
        DetachP2pPeer();
      }
    }

    method Pause()
      modifies this
      ensures View() == PauseForBackground(old(View()))
    {
      if backgroundPaused || !strictP2p {
        return;
      }
      backgroundPaused := true;
      DetachP2pPeer();
      if currentPath != Relay {
        currentPath := Relay;
      }
    }

    method Reconnect()
      modifies this
      ensures View() == PrepareForReconnect(old(View()))
    {
      DetachP2pPeer();
      ResetPathState();
    }

    method Close()
      modifies this
      ensures View() == CloseTransport(old(View()))
    {
      if closed {
        return;
      }
      closed := true;
      DetachP2pPeer();
      if |strictPendingQueue| > 0 {
        strictPendingQueue := [];
      }
      outboundQueue := None;
    }

    /** handleE2EReady, with the transport's own business-ready handler. */
    method HandleE2EReady(matching: bool)
      modifies this, relaySession
      ensures View() == PeerReady(old(View()), matching)
    {
      if relaySession.crypto.None? || !matching {
        relaySession.ClearSession();
        return;
      }
      if relaySession.peerReady {
        return;
      }
      relaySession.peerReady := true;
      ghost var ready := View();
      assert ready == old(View()).(session := old(View()).session.(peerReady := true));
      var threw := false;
      if currentPath == P2p {
        threw := FlushPendingP2pBusinessMessages();
      }
      assert Outcome(View(), threw) == (if ready.path == P2p then FlushPendingP2p(ready) else Outcome(ready, false));
      FinishReady(threw);
    }

    /** What follows the transport's handler: the session's own messages are flushed, or it is cleared. */
    method FinishReady(threw: bool)
      modifies relaySession
      ensures View() == AfterReadyFlush(Outcome(old(View()), threw))
    {
      if threw {
        relaySession.ClearSession();
      } else {
        var _ := relaySession.FlushPendingBusinessMessages();
      }
    }
  }

  function AfterReadyFlush(flushed: Outcome<State>): (r: State) {
    if flushed.threw then flushed.state.(session := Clear(flushed.state.session))
    else flushed.state.(session := FlushPending(flushed.state.session).state)
  }

  /** What resuming does once the path is set: the queued messages drain, then the pending ones. */
  function AfterSwitch(u: State, target: Path): (r: Outcome<State>) {
    var drained := DrainOutbound(u);
    var flushed :=
      if drained.threw || target == Relay || |drained.state.pending| == 0 then drained
      else FlushPendingP2p(drained.state);
    Outcome(flushed.state.(switching := false), flushed.threw)
  }

  lemma SwitchGoesOn(t: State, i: nat)
    requires i < |t.windows| && !t.closed && !t.forceClosed
    ensures EndSwitch(t, i) == AfterSwitch(WithoutWindow(t, i).(path := t.windows[i]), t.windows[i])
  {
  }
}

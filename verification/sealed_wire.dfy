// What leaves the device, on either path and in either mode, over whole runs.
module SealedWire {
  import opened Messages
  import opened Options
  import opened SecureSessionSpec
  import opened StrictTransportSpec

  /** The numbers of the sealed frames of one session, in the order they left. */
  function Numbers(wire: seq<Frame>, id: nat): (r: seq<nat>) {
    if wire == [] then []
    else
      (if wire[0].body.Sealed? && wire[0].body.session == id then [wire[0].body.number] else [])
      + Numbers(wire[1..], id)
  }

  /** The messages sealed onto the relay path. */
  function RelaySealed(wire: seq<Frame>): (r: seq<Envelope>) {
    if wire == [] then []
    else
      (if wire[0].body.Sealed? && wire[0].lane.RelayLane? then [wire[0].body.inner] else [])
      + RelaySealed(wire[1..])
  }

  lemma {:induction false} NumbersConcat(a: seq<Frame>, b: seq<Frame>, id: nat)
    ensures Numbers(a + b, id) == Numbers(a, id) + Numbers(b, id)
  {
    if a == [] {
      assert a + b == b;
    } else {
      assert (a + b)[1..] == a[1..] + b;
      NumbersConcat(a[1..], b, id);
    }
  }

  lemma {:induction false} SealedConcat(a: seq<Frame>, b: seq<Frame>)
    ensures RelaySealed(a + b) == RelaySealed(a) + RelaySealed(b)
  {
    if a == [] {
      assert a + b == b;
    } else {
      assert (a + b)[1..] == a[1..] + b;
      SealedConcat(a[1..], b);
    }
  }

  lemma WireConcat(a: seq<Frame>, b: seq<Frame>, id: nat)
    ensures Numbers(a + b, id) == Numbers(a, id) + Numbers(b, id)
    ensures RelaySealed(a + b) == RelaySealed(a) + RelaySealed(b)
  {
    NumbersConcat(a, b, id);
    SealedConcat(a, b);
  }

  lemma WireAppend(wire: seq<Frame>, f: Frame, id: nat)
    ensures Numbers(wire + [f], id) ==
            Numbers(wire, id) + (if f.body.Sealed? && f.body.session == id then [f.body.number] else [])
    ensures RelaySealed(wire + [f]) ==
            RelaySealed(wire) + (if f.body.Sealed? && f.lane.RelayLane? then [f.body.inner] else [])
  {
    WireConcat(wire, [f], id);
    assert [f][1..] == [];
  }

  lemma {:induction false} FreshHasNoNumbers(wire: seq<Frame>, id: nat)
    requires forall f :: f in wire && f.body.Sealed? ==> f.body.session != id
    ensures Numbers(wire, id) == []
  {
    if wire != [] {
      FreshHasNoNumbers(wire[1..], id);
    }
  }

  /** 1, 2, 3, ... without gap or repeat. */
  predicate CountsUp(numbers: seq<nat>) {
    forall i :: 0 <= i < |numbers| ==> numbers[i] == i + 1
  }

  predicate FrameSafe(f: Frame) {
    && (f.body.Plain? ==> !IsBusiness(f.body.env))
    && (f.body.Sealed? ==> f.lane.RelayLane? || f.lane.channel == Control)
  }

  predicate WireInv(s: Session, id: nat) {
    && (s.closed ==> s.crypto.None? && !s.peerReady)
    && (forall f :: f in s.wire ==> FrameSafe(f))
    && CountsUp(Numbers(s.wire, id))
    && (s.crypto.Some? && s.crypto.value.id == id ==> |Numbers(s.wire, id)| == s.crypto.value.txSeq)
  }

  /** Together, `sealed` and `waiting` hold each message of `given` once. */
  predicate Covers(sealed: seq<Envelope>, waiting: seq<Envelope>, given: seq<Envelope>) {
    multiset(sealed) + multiset(waiting) == multiset(given)
  }

  lemma CoversOneMore(sealed: seq<Envelope>, waiting: seq<Envelope>, given: seq<Envelope>, e: Envelope)
    requires Covers(sealed, waiting, given)
    ensures Covers(sealed + [e], waiting, given + [e])
    ensures Covers(sealed, waiting + [e], given + [e])
  {
  }

  lemma CoversMoved(sealed: seq<Envelope>, waiting: seq<Envelope>, given: seq<Envelope>)
    requires Covers(sealed, waiting, given)
    ensures Covers(sealed + waiting, [], given)
  {
  }

  /** Business messages given to the session are on the relay path, sealed, or still waiting. */
  predicate Conserved(s: Session) {
    && (forall e :: e in s.pending ==> IsBusiness(e))
    && (!s.closed ==> Covers(RelaySealed(s.wire), s.pending, BusinessOnly(s.sent)))
  }

  // ---- Every way a frame leaves ----

  lemma EmitKeepsWire(s: Session, env: Envelope, lane: Lane, id: nat)
    requires WireInv(s, id) && !IsBusiness(env)
    ensures WireInv(Emit(s, Plain(env), lane), id)
  {
    WireAppend(s.wire, Frame(Plain(env), lane), id);
  }

  lemma EmitConserves(s: Session, env: Envelope, lane: Lane)
    requires Conserved(s)
    ensures Conserved(Emit(s, Plain(env), lane))
  {
    WireAppend(s.wire, Frame(Plain(env), lane), 0);
  }

  /** One more sealed frame, under the next number. */
  lemma SealKeepsWire(s: Session, env: Envelope, lane: Lane, id: nat)
    requires WireInv(s, id) && s.crypto.Some? && (lane.RelayLane? || lane.channel == Control)
    ensures var c := s.crypto.value;
            WireInv(Emit(s.(crypto := Some(c.(txSeq := c.txSeq + 1))), Sealed(c.id, c.txSeq + 1, env), lane), id)
  {
    var c := s.crypto.value;
    WireAppend(s.wire, Frame(Sealed(c.id, c.txSeq + 1, env), lane), id);
  }

  function AfterP2p(s: Session, item: Item): Session {
    var (u, body) := EncodeForP2p(s, item.env);
    if body.None? then u else Emit(u, body.value, PeerLane(PeerChannel(item, body.value)))
  }

  lemma P2pKeepsWire(s: Session, item: Item, id: nat)
    requires WireInv(s, id)
    ensures WireInv(AfterP2p(s, item), id)
  {
    var (u, body) := EncodeForP2p(s, item.env);
    if body.None? {
      assert AfterP2p(s, item) == s;
    } else if IsBusiness(item.env) {
      SealKeepsWire(s, item.env, PeerLane(PeerChannel(item, body.value)), id);
    } else {
      EmitKeepsWire(s, item.env, PeerLane(PeerChannel(item, body.value)), id);
    }
  }

  lemma P2pConserves(s: Session, item: Item)
    requires Conserved(s)
    ensures Conserved(AfterP2p(s, item))
  {
    var (u, body) := EncodeForP2p(s, item.env);
    if body.Some? {
      WireAppend(s.wire, Frame(body.value, PeerLane(PeerChannel(item, body.value))), 0);
    }
  }

  lemma BusinessAppend(envs: seq<Envelope>, env: Envelope)
    ensures BusinessOnly(envs + [env]) == if IsBusiness(env) then BusinessOnly(envs) + [env] else BusinessOnly(envs)
  {
    BusinessOnlyConcat(envs, [env]);
    assert [env][1..] == [];
  }

  lemma SendKeepsWire(s: Session, env: Envelope, id: nat)
    requires WireInv(s, id)
    ensures var u := SessionSend(s, env).state;
            WireInv(u, id) && u.closed == s.closed
  {
    if !s.closed {
      var (u, body) := Encode(s.(sent := s.sent + [env]), env, true);
      if body.Some? {
        WireAppend(s.wire, Frame(body.value, RelayLane), id);
      }
    }
  }

  lemma SendPlainConserves(s: Session, env: Envelope)
    requires Conserved(s) && !s.closed && !IsBusiness(env)
    ensures Conserved(SessionSend(s, env).state)
  {
    BusinessAppend(s.sent, env);
    WireAppend(s.wire, Frame(Plain(env), RelayLane), 0);
  }

  lemma SendBusinessConserves(s: Session, env: Envelope)
    requires Conserved(s) && !s.closed && IsBusiness(env)
    ensures Conserved(SessionSend(s, env).state)
  {
    BusinessAppend(s.sent, env);
    CoversOneMore(RelaySealed(s.wire), s.pending, BusinessOnly(s.sent), env);
    if Ready(s) {
      SendReady(s, env);
      WireAppend(s.wire, Frame(Sealed(s.crypto.value.id, s.crypto.value.txSeq + 1, env), RelayLane), 0);
    } else {
      assert SessionSend(s, env).state == s.(sent := s.sent + [env], pending := s.pending + [env]);
    }
  }

  lemma SendConserves(s: Session, env: Envelope)
    requires Conserved(s)
    ensures Conserved(SessionSend(s, env).state)
  {
    if !s.closed {
      if IsBusiness(env) { SendBusinessConserves(s, env); } else { SendPlainConserves(s, env); }
    }
  }

  lemma {:induction false} SendAllKeepsWire(s: Session, envs: seq<Envelope>, id: nat)
    requires WireInv(s, id)
    ensures WireInv(SendAll(s, envs).state, id)
    decreases |envs|
  {
    if envs != [] {
      SendKeepsWire(s, envs[0], id);
      if !s.closed {
        SendAllKeepsWire(SessionSend(s, envs[0]).state, envs[1..], id);
      }
    }
  }

  // ---- The flush at readiness ----

  /** The given messages sealed onto the relay path, in order, numbered from `after` + 1. */
  function SealedRun(envs: seq<Envelope>, session: nat, after: nat): (r: seq<Frame>)
    ensures |r| == |envs|
    ensures forall i :: 0 <= i < |envs| ==> r[i] == Frame(Sealed(session, after + i + 1, envs[i]), RelayLane)
  {
    seq(|envs|, i requires 0 <= i < |envs| => Frame(Sealed(session, after + i + 1, envs[i]), RelayLane))
  }

  lemma {:induction false} SealedRunCarries(envs: seq<Envelope>, session: nat, after: nat)
    ensures RelaySealed(SealedRun(envs, session, after)) == envs
  {
    if envs != [] {
      SealedRunCarries(envs[1..], session, after + 1);
      assert SealedRun(envs, session, after)[1..] == SealedRun(envs[1..], session, after + 1);
    }
  }

  lemma SendReady(s: Session, env: Envelope)
    requires !s.closed && Ready(s) && IsBusiness(env)
    ensures var c := s.crypto.value;
            SessionSend(s, env) ==
            Outcome(s.(crypto := Some(Crypto(c.id, c.txSeq + 1)),
                       sent := s.sent + [env],
                       wire := s.wire + [Frame(Sealed(c.id, c.txSeq + 1, env), RelayLane)]), false)
  {
  }

  /** A ready session after sealing some messages onto the relay path. */
  function Sealing(s: Session, envs: seq<Envelope>): (u: Session)
    requires s.crypto.Some?
  {
    var c := s.crypto.value;
    s.(crypto := Some(Crypto(c.id, c.txSeq + |envs|)), sent := s.sent + envs,
       wire := s.wire + SealedRun(envs, c.id, c.txSeq))
  }

  lemma SealingAhead(s: Session, envs: seq<Envelope>)
    requires s.crypto.Some? && envs != []
    ensures Sealing(s, envs) == Sealing(Sealing(s, [envs[0]]), envs[1..])
  {
    var c := s.crypto.value;
    assert [envs[0]][1..] == [] && (s.sent + [envs[0]]) + envs[1..] == s.sent + envs;
    assert SealedRun([envs[0]], c.id, c.txSeq) == [Frame(Sealed(c.id, c.txSeq + 1, envs[0]), RelayLane)];
  }

  lemma SendSeals(s: Session, env: Envelope)
    requires !s.closed && Ready(s) && IsBusiness(env)
    ensures SessionSend(s, env) == Outcome(Sealing(s, [env]), false)
  {
    SendReady(s, env);
    var c := s.crypto.value;
    assert SealedRun([env], c.id, c.txSeq) == [Frame(Sealed(c.id, c.txSeq + 1, env), RelayLane)];
  }

  lemma {:induction false} SendAllReady(s: Session, envs: seq<Envelope>)
    requires !s.closed && Ready(s) && forall e :: e in envs ==> IsBusiness(e)
    ensures SendAll(s, envs) == Outcome(Sealing(s, envs), false)
    decreases |envs|
  {
    if envs == [] {
      assert Sealing(s, []) == s;
    } else {
      SendSeals(s, envs[0]);
      SendAllReady(Sealing(s, [envs[0]]), envs[1..]);
      SealingAhead(s, envs);
    }
  }

  /** Messages held back before readiness leave exactly once, in their order,
      under consecutive numbers, and nothing stays behind. */
  lemma FlushSendsPendingOnce(s: Session)
    requires !s.closed && Ready(s) && forall e :: e in s.pending ==> IsBusiness(e)
    ensures var u := FlushPending(s).state;
            && u.pending == []
            && u.wire == s.wire + SealedRun(s.pending, s.crypto.value.id, s.crypto.value.txSeq)
            && (Conserved(s) ==> Conserved(u))
  {
    SendAllReady(s.(pending := []), s.pending);
    var run := SealedRun(s.pending, s.crypto.value.id, s.crypto.value.txSeq);
    WireConcat(s.wire, run, 0);
    SealedRunCarries(s.pending, s.crypto.value.id, s.crypto.value.txSeq);
    if Conserved(s) {
      CoversMoved(RelaySealed(s.wire), s.pending, BusinessOnly(s.sent));
    }
  }

  // ---- Steps of the transport: frames and numbers ----

  lemma {:induction false} DispatchKeepsWire(t: State, items: seq<Item>, id: nat)
    requires WireInv(t.session, id)
    ensures WireInv(DispatchAll(t, items).state.session, id)
    decreases |items|
  {
    if items != [] {
      P2pKeepsWire(t.session, items[0], id);
      SendKeepsWire(t.session, items[0].env, id);
      DispatchSession(t, items[0]);
      DispatchKeepsWire(Dispatch(t, items[0]).state, items[1..], id);
    }
  }

  lemma DispatchSession(t: State, item: Item)
    ensures Dispatch(t, item).state.session in
            {t.session, AfterP2p(t.session, item), SessionSend(t.session, item.env).state}
  {
    var u := Dispatch(t, item).state;
    if t.path == P2p && t.peer.Some? {
      assert u.session == AfterP2p(t.session, item);
    } else if t.strict && t.path == P2p {
      assert u.session == t.session;
    } else {
      assert u.session == SessionSend(t.session, item.env).state;
    }
  }

  lemma SwitchKeepsWire(t: State, i: nat, id: nat)
    requires WireInv(t.session, id) && i < |t.windows|
    ensures WireInv(EndSwitch(t, i).state.session, id)
  {
    var start := WithoutWindow(t, i).(path := t.windows[i]);
    DispatchKeepsWire(start.(outbound := None), if t.outbound.Some? then t.outbound.value else [], id);
    var drained := DrainOutbound(start).state;
    DispatchKeepsWire(drained.(pending := []), drained.pending, id);
  }

  lemma ReadyKeepsWire(t: State, matching: bool, id: nat)
    requires WireInv(t.session, id) && !t.session.closed
    ensures WireInv(PeerReady(t, matching).session, id)
  {
    if matching && t.session.crypto.Some? && !t.session.peerReady {
      var u := t.(session := t.session.(peerReady := true));
      DispatchKeepsWire(u.(pending := []), u.pending, id);
      var flushed := if u.path == P2p then FlushPendingP2p(u) else Outcome(u, false);
      assert WireInv(flushed.state.session, id);
      FlushKeepsWire(flushed.state.session, id);
      assert PeerReady(t, matching) == (if flushed.threw then flushed.state.(session := Clear(flushed.state.session))
                                        else flushed.state.(session := FlushPending(flushed.state.session).state));
    } else {
      assert PeerReady(t, matching).session in {t.session, Clear(t.session)};
    }
  }

  lemma FlushKeepsWire(s: Session, id: nat)
    requires WireInv(s, id)
    ensures WireInv(FlushPending(s).state, id) && WireInv(Clear(s), id)
  {
    SendAllKeepsWire(s.(pending := []), s.pending, id);
  }

  lemma StepKeepsWire(t: State, step: Step, id: nat)
    requires WireInv(t.session, id) && Enabled(t, step)
    ensures WireInv(Apply(t, step).session, id)
  {
    match step
    case SendStep(item) =>
      SendSession(t, item);
      P2pKeepsWire(t.session, item, id);
      SendKeepsWire(t.session, item.env, id);
    case EndSwitchStep(i) => SwitchKeepsWire(t, i, id);
    case PeerReadyStep(matching) => ReadyKeepsWire(t, matching, id);
    case HeartbeatStep(ping) => EmitKeepsWire(t.session, ping, PeerLane(Control), id);
    case SessionSendStep(env) => SendKeepsWire(t.session, env, id);
    case ClientSendStep(clear) => EmitKeepsWire(t.session, clear, RelayLane, id);
    case HandshakeStep(newId, ready) =>
      FreshHasNoNumbers(t.session.wire, newId);
      EmitKeepsWire(t.session.(crypto := Some(Crypto(newId, 0))), ready, RelayLane, id);
    case SessionCloseStep(goodbye) => SendKeepsWire(t.session, goodbye, id);
    case _ =>
  }

  lemma SendSession(t: State, item: Item)
    ensures Send(t, item).state.session in
            {t.session, AfterP2p(t.session, item), SessionSend(t.session, item.env).state}
  {
    var u := if !t.forceClosed && IsGatedBusiness(item.env) then t.(offered := t.offered + [item.env]) else t;
    if t.closed || (u.strict && u.path != P2p && !IsControl(item.env)) || u.outbound.Some? {
      assert Send(t, item).state.session == t.session;
    } else {
      assert Send(t, item) == Dispatch(u, item);
      DispatchSession(u, item);
    }
  }

  // ---- Steps of the transport: conservation ----

  lemma {:induction false} DispatchConserves(t: State, items: seq<Item>)
    requires Conserved(t.session)
    ensures var s := DispatchAll(t, items).state.session;
            Conserved(s) && s.closed == t.session.closed && (Ready(s) <==> Ready(t.session))
    decreases |items|
  {
    if items != [] {
      P2pConserves(t.session, items[0]);
      SendConserves(t.session, items[0].env);
      DispatchSession(t, items[0]);
      DispatchConserves(Dispatch(t, items[0]).state, items[1..]);
    }
  }

  lemma SwitchConserves(t: State, i: nat)
    requires Conserved(t.session) && i < |t.windows|
    ensures Conserved(EndSwitch(t, i).state.session)
  {
    var start := WithoutWindow(t, i).(path := t.windows[i]);
    DispatchConserves(start.(outbound := None), if t.outbound.Some? then t.outbound.value else []);
    var drained := DrainOutbound(start).state;
    DispatchConserves(drained.(pending := []), drained.pending);
  }

  lemma ReadyConserves(t: State, matching: bool)
    requires Conserved(t.session) && !t.session.closed
    ensures Conserved(PeerReady(t, matching).session)
  {
    if matching && t.session.crypto.Some? && !t.session.peerReady {
      var u := t.(session := t.session.(peerReady := true));
      DispatchConserves(u.(pending := []), u.pending);
      var flushed := if u.path == P2p then FlushPendingP2p(u) else Outcome(u, false);
      FlushSendsPendingOnce(flushed.state.session);
      assert PeerReady(t, matching) == (if flushed.threw then flushed.state.(session := Clear(flushed.state.session))
                                        else flushed.state.(session := FlushPending(flushed.state.session).state));
    } else {
      assert PeerReady(t, matching).session in {t.session, Clear(t.session)};
    }
  }

  lemma StepConserves(t: State, step: Step)
    requires Conserved(t.session) && Enabled(t, step)
    ensures Conserved(Apply(t, step).session)
  {
    match step
    case SendStep(item) =>
      SendSession(t, item);
      P2pConserves(t.session, item);
      SendConserves(t.session, item.env);
    case EndSwitchStep(i) => SwitchConserves(t, i);
    case PeerReadyStep(matching) => ReadyConserves(t, matching);
    case HeartbeatStep(ping) => EmitConserves(t.session, ping, PeerLane(Control));
    case SessionSendStep(env) => SendConserves(t.session, env);
    case ClientSendStep(clear) => EmitConserves(t.session, clear, RelayLane);
    case HandshakeStep(newId, ready) => EmitConserves(t.session.(crypto := Some(Crypto(newId, 0))), ready, RelayLane);
    case SessionCloseStep(goodbye) => SendConserves(t.session, goodbye);
    case _ =>
  }

  // ---- Whole runs ----

  lemma {:induction false} RunKeeps(strict: bool, steps: seq<Step>, id: nat)
    requires ValidRun(strict, steps)
    ensures WireInv(Final(strict, steps).session, id) && Conserved(Final(strict, steps).session)
    decreases |steps|
  {
    if steps != [] {
      var before := steps[..|steps| - 1];
      RunKeeps(strict, before, id);
      StepKeepsWire(Final(strict, before), steps[|steps| - 1], id);
      StepConserves(Final(strict, before), steps[|steps| - 1]);
    }
  }

  /** In every run, in either mode: business types leave only sealed; sealed
      frames use the control channel; the frames of one session, on both paths
      together, are numbered 1, 2, 3 with no gap or repeat; and until the
      session closes, the business messages given to it are each sealed onto
      the relay path once or still waiting. */
  lemma WireSafety(strict: bool, steps: seq<Step>, id: nat)
    requires ValidRun(strict, steps)
    ensures var s := Final(strict, steps).session;
            && (forall f :: f in s.wire ==> FrameSafe(f))
            && CountsUp(Numbers(s.wire, id))
            && (!s.closed ==> Covers(RelaySealed(s.wire), s.pending, BusinessOnly(s.sent)))
  {
    RunKeeps(strict, steps, id);
  }
}

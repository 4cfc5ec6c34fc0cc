// What a completed handshake says about the past, in every run in which the
// network can show only signatures that someone made, spelled as it likes
// (createInitiatorHandshake and acceptInitiatorHandshake in packages/e2e-noise/src/index.ts).
module HandshakeRuns {
  import opened Options
  import opened Handshakes

  /** What makes a signature: an honest App's init, an honest Agent's reply, or a stranger signing whatever it likes. */
  datatype Act =
    | AppCreates(c: Context, handshakeId: string, ephemeral: nat)
    | AgentAccepts(c: Context, init: InitPayload, ephemeral: nat)
    | StrangerSigns(publicKey: string, domain: string, fields: seq<Field>)

  function Created(c: Context, handshakeId: string, ephemeral: nat): Result<InitPayload> {
    CreateInit(c, handshakeId, ephemeral, KeyOf(c.appPublicKey))
  }

  function Accepted(c: Context, init: InitPayload, ephemeral: nat): Result<(ReplyPayload, Established)> {
    Accept(c, init, ephemeral, KeyOf(c.agentPublicKey))
  }

  function MadeBy(act: Act): (signature: Option<Signature>) {
    match act
    case AppCreates(c, h, e) => if Created(c, h, e).Ok? then Some(Created(c, h, e).value.signature) else None
    case AgentAccepts(c, init, e) => if Accepted(c, init, e).Ok? then Some(Accepted(c, init, e).value.0.signature) else None
    case StrangerSigns(key, domain, fields) => Some(Signed(key, domain, fields, 0))
  }

  /** A signature that the network can show: one that verifies nothing, or a spelling of one that was made before. */
  ghost predicate Known(acts: seq<Act>, signature: Signature) {
    signature.Forged? || exists i :: 0 <= i < |acts| && MadeBy(acts[i]) == Some(AsWritten(signature))
  }

  /** Honest keys sign only in the two handshake steps, and an honest App names
      its own key as the encoder wrote it (validateIdentityKeyPair). An Agent is shown only known signatures. */
  ghost predicate Possible(honest: set<string>, acts: seq<Act>, act: Act) {
    match act
    case AppCreates(c, _, _) => c.appPublicKey.IdentityKey? && c.appPublicKey.key in honest && c.appPublicKey.spare == 0
    case AgentAccepts(c, init, _) => KeyOf(c.agentPublicKey) in honest && Known(acts, init.signature)
    case StrangerSigns(key, _, _) => key !in honest
  }

  ghost predicate Run(honest: set<string>, acts: seq<Act>) {
    forall i :: 0 <= i < |acts| ==> Possible(honest, acts[..i], acts[i])
  }

  /** An Agent's act that made this very reply. */
  predicate Answers(act: Act, reply: ReplyPayload) {
    act.AgentAccepts? && var accepted := Accepted(act.c, act.init, act.ephemeral); accepted.Ok? && accepted.value.0 == reply
  }

  /** An App's act that made this very init. */
  predicate Begins(act: Act, init: InitPayload) {
    act.AppCreates? && Created(act.c, act.handshakeId, act.ephemeral) == Ok(init)
  }

  lemma SignerOf(honest: set<string>, acts: seq<Act>, signature: Signature) returns (i: nat)
    requires Run(honest, acts) && signature.Signed? && signature.publicKey in honest && Known(acts, signature)
    ensures i < |acts| && MadeBy(acts[i]) == Some(AsWritten(signature)) && !acts[i].StrangerSigns?
    ensures acts[i].AgentAccepts? ==> signature.domain == REPLY_DOMAIN && KeyOf(acts[i].c.agentPublicKey) == signature.publicKey
    ensures acts[i].AppCreates? ==> signature.domain == INIT_DOMAIN && KeyOf(acts[i].c.appPublicKey) == signature.publicKey
  {
    i :| 0 <= i < |acts| && MadeBy(acts[i]) == Some(AsWritten(signature));
    assert Possible(honest, acts[..i], acts[i]);
  }

  lemma AcceptedReplyIsSigned(c: Context, init: InitPayload, e: nat, reply: ReplyPayload)
    requires Complete(c, init, e, reply).Ok?
    ensures c.agentPublicKey.IdentityKey? && reply.agentPublicKey == c.agentPublicKey
    ensures AsWritten(reply.signature)
         == Signed(KeyOf(c.agentPublicKey), REPLY_DOMAIN, ReplyFields(reply, init.appEphemeralKey), 0)
    ensures reply.signature.Signed?
  {
    assert CheckReply(c, init, reply).None?;
  }

  /** Both name the same Agent and the same App by their ids, on the same two connections. */
  predicate SameEnds(c: Context, c': Context) {
    && c.deviceId == c'.deviceId && c.appId == c'.appId
    && c.agentConnectionId == c'.agentConnectionId && c.appConnectionId == c'.appConnectionId
  }

  /** A reply that an App accepts under an honest Agent's key is, up to the
      spelling of its signature, one that the Agent made, for this App's ephemeral key and handshake id. */
  lemma AcceptedReplyWasMade(honest: set<string>, acts: seq<Act>, c: Context, init: InitPayload, e: nat, reply: ReplyPayload)
    returns (i: nat)
    requires Run(honest, acts) && KeyOf(c.agentPublicKey) in honest && Known(acts, reply.signature)
    requires Complete(c, init, e, reply).Ok?
    ensures i < |acts| && Answers(acts[i], ReplyAsWritten(reply))
    ensures acts[i].init.appEphemeralKey == init.appEphemeralKey && acts[i].init.handshakeId == init.handshakeId
    ensures KeyOf(acts[i].c.agentPublicKey) == KeyOf(c.agentPublicKey) && SameEnds(acts[i].c, c)
  {
    AcceptedReplyIsSigned(c, init, e, reply);
    i := SignerOf(honest, acts, reply.signature);
    assert INIT_DOMAIN != REPLY_DOMAIN;
    AcceptedReplyAnswersThisApp(c, init, e, reply, acts[i].c, acts[i].init, acts[i].ephemeral);
  }

  /** An App's act whose signature covers an init made that init. */
  lemma SignedInitIsMade(act: Act, init: InitPayload)
    requires act.AppCreates? && MadeBy(act) == Some(AsWritten(init.signature))
    requires Verify(init.appPublicKey, INIT_DOMAIN, InitFields(init), init.signature)
    ensures Begins(act, InitAsWritten(init))
  {
    var made := Created(act.c, act.handshakeId, act.ephemeral).value;
    var unsigned := made.(signature := Forged(""));
    assert made.signature.fields == InitFields(unsigned);
    InitFieldsCoverPayload(init, unsigned);
    assert InitAsWritten(init) == unsigned.(signature := made.signature);
  }

  lemma AcceptedInitIsSigned(c: Context, init: InitPayload, e: nat)
    requires Accepted(c, init, e).Ok?
    ensures Verify(init.appPublicKey, INIT_DOMAIN, InitFields(init), init.signature)
  {
    assert CheckInit(c, init).None?;
  }

  lemma RunPrefix(honest: set<string>, acts: seq<Act>, i: nat)
    requires Run(honest, acts) && i <= |acts|
    ensures Run(honest, acts[..i])
  {
    forall j | 0 <= j < i
      ensures Possible(honest, acts[..i][..j], acts[..i][j])
    {
      assert acts[..i][..j] == acts[..j];
    }
  }

  /** An init that an Agent accepts under an honest App's key is, up to the
      spelling of its signature, one that the App made before. */
  lemma AcceptedInitWasMade(honest: set<string>, acts: seq<Act>, i: nat) returns (k: nat)
    requires Run(honest, acts) && i < |acts| && acts[i].AgentAccepts? && KeyOf(acts[i].init.appPublicKey) in honest
    requires Accepted(acts[i].c, acts[i].init, acts[i].ephemeral).Ok?
    ensures k < i && Begins(acts[k], InitAsWritten(acts[i].init)) && acts[k].c.appPublicKey.spare == 0
    ensures SameEnds(acts[k].c, acts[i].c)
  {
    var init := acts[i].init;
    assert Possible(honest, acts[..i], acts[i]);
    AcceptedInitIsSigned(acts[i].c, init, acts[i].ephemeral);
    RunPrefix(honest, acts, i);
    k := SignerOf(honest, acts[..i], init.signature);
    assert INIT_DOMAIN != REPLY_DOMAIN;
    assert acts[..i][k] == acts[k];
    assert Possible(honest, acts[..k], acts[k]);
    SignedInitIsMade(acts[k], init);
  }

  /** Two inits for one context with the same ephemeral key and handshake id, both made by Apps, are the same. */
  lemma SameInit(c: Context, h: string, e: nat, init: InitPayload, act: Act, init': InitPayload)
    requires Created(c, h, e) == Ok(init) && Begins(act, init')
    requires init'.appEphemeralKey == init.appEphemeralKey && init'.handshakeId == init.handshakeId
    requires init'.appPublicKey == init.appPublicKey && init'.deviceId == init.deviceId && init'.appId == init.appId
    requires init'.agentConnectionId == init.agentConnectionId && init'.appConnectionId == init.appConnectionId
    ensures init == init'
  {
  }

  /** Equal ids have equal keys behind them, however the keys are spelled. */
  lemma SameApp(c: Context, c': Context)
    requires ValidContext(c) && ValidContext(c') && c.appId == c'.appId
    ensures KeyOf(c.appPublicKey) == KeyOf(c'.appPublicKey)
  {
    assert KeyOf(c.appPublicKey) == c.appId.normal[5..] && KeyOf(c'.appPublicKey) == c'.appId.normal[5..];
  }

  /** The init that the Agent answered names what its own context and the App's name. */
  lemma AnsweredInitAgrees(c: Context, h: string, e: nat, init: InitPayload, reply: ReplyPayload, act: Act)
    requires Created(c, h, e) == Ok(init) && Complete(c, init, e, reply).Ok? && Answers(act, ReplyAsWritten(reply))
    ensures var init' := act.init;
            && init'.appEphemeralKey == init.appEphemeralKey && init'.handshakeId == init.handshakeId
            && KeyOf(init'.appPublicKey) == KeyOf(init.appPublicKey) && init'.appPublicKey.IdentityKey?
            && init'.deviceId == init.deviceId && init'.appId == init.appId
            && init'.agentConnectionId == init.agentConnectionId && init'.appConnectionId == init.appConnectionId
  {
    assert CheckReply(c, init, reply).None? && CheckInit(act.c, act.init).None?;
    AnsweredFieldsAgree(c, init, e, reply, act);
    SameApp(c, act.c);
  }

  /** An App verified the reply over its own ephemeral key, so that is the one the Agent signed. */
  lemma AnsweredFieldsAgree(c: Context, init: InitPayload, e: nat, reply: ReplyPayload, act: Act)
    requires Complete(c, init, e, reply).Ok? && Answers(act, ReplyAsWritten(reply))
    ensures act.init.appEphemeralKey == init.appEphemeralKey && act.init.handshakeId == init.handshakeId
  {
    AcceptedReplyIsSigned(c, init, e, reply);
    var made := Accepted(act.c, act.init, act.ephemeral).value.0;
    var unsigned := made.(signature := Forged(""));
    assert made.signature.fields == ReplyFields(unsigned, act.init.appEphemeralKey);
    ReplyFieldsCoverPayload(reply, init.appEphemeralKey, unsigned, act.init.appEphemeralKey);
  }

  /** The Agent that made the reply of a completed handshake had accepted the App's
      own init, up to the spelling of its signature. */
  lemma AnsweredOwnInit(honest: set<string>, acts: seq<Act>, c: Context, h: string, e: nat, init: InitPayload,
                        reply: ReplyPayload, i: nat)
    requires Run(honest, acts) && Possible(honest, acts, AppCreates(c, h, e))
    requires Created(c, h, e) == Ok(init) && Complete(c, init, e, reply).Ok?
    requires i < |acts| && Answers(acts[i], ReplyAsWritten(reply))
    ensures InitAsWritten(acts[i].init) == init
  {
    AnsweredInitAgrees(c, h, e, init, reply, acts[i]);
    var k := AcceptedInitWasMade(honest, acts, i);
    assert acts[i].init.appPublicKey == acts[k].c.appPublicKey;
    SameInit(c, h, e, init, acts[k], InitAsWritten(acts[i].init));
  }

  /** Of an App that completed and an Agent that made its reply: they are paired
      exactly when the network respelled neither signature. */
  lemma PairedUnlessRespelled(honest: set<string>, acts: seq<Act>, c: Context, h: string, e: nat, init: InitPayload,
                              reply: ReplyPayload, i: nat)
    requires Run(honest, acts) && Possible(honest, acts, AppCreates(c, h, e))
    requires Created(c, h, e) == Ok(init) && Complete(c, init, e, reply).Ok?
    requires i < |acts| && Answers(acts[i], ReplyAsWritten(reply))
    ensures InitAsWritten(acts[i].init) == init && reply.signature.Signed? && acts[i].init.signature.Signed?
    ensures Paired(Complete(c, init, e, reply).value, Accepted(acts[i].c, acts[i].init, acts[i].ephemeral).value.1)
            <==> reply.signature.spare == 0 && acts[i].init.signature.spare == 0
  {
    AnsweredOwnInit(honest, acts, c, h, e, init, reply, i);
    AcceptedReplyIsSigned(c, init, e, reply);
    AcceptedInitIsSigned(acts[i].c, acts[i].init, acts[i].ephemeral);
    TranscriptDecidesPairing(c, init, e, reply, acts[i].c, acts[i].init, acts[i].ephemeral, KeyOf(acts[i].c.agentPublicKey));
    assert acts[i].init.signature == init.signature.(spare := acts[i].init.signature.spare);
    assert reply.signature == ReplyAsWritten(reply).signature.(spare := reply.signature.spare);
  }

  /** Agreement, exactly: when an App completes its own init, between honest
      keys and over any network, some Agent made the reply for that init, both
      up to the spelling of their signatures; and with every such Agent the App
      is paired if and only if both signatures arrived spelled as they were written. */
  lemma CompletedPairsExactly(honest: set<string>, acts: seq<Act>, c: Context, h: string, e: nat,
                                    init: InitPayload, reply: ReplyPayload)
    returns (i: nat)
    requires Run(honest, acts) && Possible(honest, acts, AppCreates(c, h, e))
    requires KeyOf(c.agentPublicKey) in honest && Known(acts, reply.signature)
    requires Created(c, h, e) == Ok(init) && Complete(c, init, e, reply).Ok?
    ensures i < |acts| && Answers(acts[i], ReplyAsWritten(reply)) && reply.signature.Signed?
    ensures forall k :: 0 <= k < |acts| && Answers(acts[k], ReplyAsWritten(reply)) ==>
              && InitAsWritten(acts[k].init) == init && acts[k].init.signature.Signed?
              && (Paired(Complete(c, init, e, reply).value, Accepted(acts[k].c, acts[k].init, acts[k].ephemeral).value.1)
                  <==> reply.signature.spare == 0 && acts[k].init.signature.spare == 0)
  {
    i := AcceptedReplyWasMade(honest, acts, c, init, e, reply);
    AcceptedReplyIsSigned(c, init, e, reply);
    forall k | 0 <= k < |acts| && Answers(acts[k], ReplyAsWritten(reply))
      ensures InitAsWritten(acts[k].init) == init && acts[k].init.signature.Signed?
      ensures Paired(Complete(c, init, e, reply).value, Accepted(acts[k].c, acts[k].init, acts[k].ephemeral).value.1)
              <==> reply.signature.spare == 0 && acts[k].init.signature.spare == 0
    {
      PairedUnlessRespelled(honest, acts, c, h, e, init, reply, k);
    }
  }

  // ---- The network can respell ----

  function RespelledInit(init: InitPayload, spare: nat): InitPayload
    requires init.signature.Signed?
  {
    init.(signature := init.signature.(spare := spare))
  }

  function RespelledReply(reply: ReplyPayload, spare: nat): ReplyPayload
    requires reply.signature.Signed?
  {
    reply.(signature := reply.signature.(spare := spare))
  }

  /** An Agent accepts an init however its signature is spelled. */
  lemma RespelledInitIsAccepted(c: Context, h: string, e: nat, f: nat, spare: nat)
    requires ValidContext(c)
    ensures var init := Created(c, h, e);
            && init.Ok? && init.value.signature.Signed?
            && Accepted(c, RespelledInit(init.value, spare), f).Ok?
  {
    HonestInitIsAccepted(c, h, e, f);
    var init := Created(c, h, e).value;
    assert CheckInit(c, init).None?;
    assert InitFields(RespelledInit(init, spare)) == InitFields(init);
    assert CheckInit(c, RespelledInit(init, spare)).None?;
  }

  /** Completing depends on neither signature's spelling. */
  lemma SpellingDoesNotMatter(c: Context, init: InitPayload, e: nat, reply: ReplyPayload, first: nat, second: nat)
    requires init.signature.Signed? && Complete(c, RespelledInit(init, first), e, reply).Ok?
    ensures reply.signature.Signed? && Complete(c, init, e, RespelledReply(reply, second)).Ok?
  {
    assert CheckReply(c, RespelledInit(init, first), reply).None?;
    var r := RespelledReply(reply, second);
    assert ReplyFields(r, init.appEphemeralKey) == ReplyFields(reply, init.appEphemeralKey);
    assert CheckReply(c, init, r).None?;
  }

  /** An App completes with a reply however its signature, or that of the init the Agent saw, is spelled. */
  lemma RespelledReplyCompletes(c: Context, h: string, e: nat, f: nat, first: nat, second: nat)
    requires ValidContext(c)
    ensures var init := Created(c, h, e);
            && init.Ok? && init.value.signature.Signed?
            && var accepted := Accepted(c, RespelledInit(init.value, first), f);
            && accepted.Ok? && accepted.value.0.signature.Signed?
            && Complete(c, init.value, e, RespelledReply(accepted.value.0, second)).Ok?
  {
    RespelledInitIsAccepted(c, h, e, f, first);
    var init := Created(c, h, e).value;
    HonestReplyCompletes(c, RespelledInit(init, first), e, f);
    SpellingDoesNotMatter(c, init, e, Accepted(c, RespelledInit(init, first), f).value.0, first, second);
  }

  /** For every pair of spellings there is a run between honest keys in which
      Agent and App both succeed, and no one is paired unless both are 0. */
  lemma RespellingUnpairs(c: Context, h: string, e: nat, f: nat, first: nat, second: nat)
    returns (acts: seq<Act>, honest: set<string>, init: InitPayload, reply: ReplyPayload)
    requires ValidContext(c) && c.appPublicKey.spare == 0
    ensures Run(honest, acts) && |acts| == 2 && Possible(honest, acts, AppCreates(c, h, e))
    ensures KeyOf(c.agentPublicKey) in honest && Known(acts, reply.signature)
    ensures Begins(acts[0], init) && Created(c, h, e) == Ok(init) && Complete(c, init, e, reply).Ok?
    ensures Answers(acts[1], ReplyAsWritten(reply))
    ensures Paired(Complete(c, init, e, reply).value, Accepted(acts[1].c, acts[1].init, acts[1].ephemeral).value.1)
            <==> first == 0 && second == 0
  {
    RespelledReplyCompletes(c, h, e, f, first, second);
    init := Created(c, h, e).value;
    var shown := RespelledInit(init, first);
    var made := Accepted(c, shown, f).value.0;
    reply := RespelledReply(made, second);
    acts := [AppCreates(c, h, e), AgentAccepts(c, shown, f)];
    honest := {KeyOf(c.appPublicKey), KeyOf(c.agentPublicKey)};
    assert AsWritten(shown.signature) == init.signature && ReplyAsWritten(reply) == made;
    assert MadeBy(acts[0]) == Some(init.signature) && MadeBy(acts[1]) == Some(made.signature);
    assert acts[..1] == [acts[0]] && acts[..1][0] == acts[0];
    assert Known(acts[..1], shown.signature);
    PairedUnlessRespelled(honest, acts, c, h, e, init, reply, 1);
  }
}

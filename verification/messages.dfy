// Envelopes and message kinds shared by the transport and the secure session
// (packages/protocol-ts/src/e2eMessages.ts, packages/protocol-ts/src/transport.ts).
module Messages {

  /** The families of message types that the prefix tables tell apart. */
  datatype Kind =
    | TunnelUpgrade(name: string)
    | Transport(name: string)
    | Terminal(name: string)
    | Business(prefix: string, name: string)
    | Other(name: string)

  /** A protocol envelope: `id` stands for everything the transport never looks at. */
  datatype Envelope = Envelope(id: nat, kind: Kind)

  datatype Channel = Control | Input | Display

  /** Reads the family off a dotted message type. */
  function KindOf(text: string): Kind {
    if "tunnel.upgrade." <= text then TunnelUpgrade(text[15..])
    else if "transport." <= text then Transport(text[10..])
    else if "terminal." <= text then Terminal(text[9..])
    else if "session." <= text then Business("session.", text[8..])
    else if "workspace." <= text then Business("workspace.", text[10..])
    else if "files." <= text then Business("files.", text[6..])
    else if "git." <= text then Business("git.", text[4..])
    else if "codex." <= text then Business("codex.", text[6..])
    else if "agent.message" <= text then Business("agent.message", text[13..])
    else if "agent.surface." <= text then Business("agent.surface.", text[14..])
    else if "agent.prompt." <= text then Business("agent.prompt.", text[13..])
    else if "agent.notification." <= text then Business("agent.notification.", text[19..])
    else if "app.connection." <= text then Business("app.connection.", text[15..])
    else if text in ["agent.delivery", "agent.experience", "agent.interaction"] then Business(text, "")
    else Other(text)
  }

  /** Messages that a strict transport may carry before the peer-to-peer path is up. */
  predicate IsControl(env: Envelope) {
    env.kind.TunnelUpgrade? || env.kind.Transport?
  }

  /** Messages that must leave the device only inside an end-to-end frame. */
  predicate IsBusiness(env: Envelope) {
    env.kind.TunnelUpgrade? || env.kind.Terminal? || env.kind.Business?
  }

  /** Business messages that a strict transport must hold back until the peer-to-peer path is up. */
  predicate IsGatedBusiness(env: Envelope) {
    IsBusiness(env) && !IsControl(env)
  }

  function ChannelForKind(kind: Kind): Channel {
    if kind.Terminal? && kind.name in ["input", "resize", "stream.start", "stream.stop"] then Input
    else if kind.Terminal? && kind.name in ["frame", "stream.data"] then Display
    else Control
  }

  /** The families classify exactly as the two prefix tables of the protocol do. */
  lemma FamiliesMatchPrefixTables(id: nat, text: string)
    ensures IsControl(Envelope(id, KindOf(text))) <==> "tunnel.upgrade." <= text || "transport." <= text
    ensures IsBusiness(Envelope(id, KindOf(text))) <==>
            || "session." <= text || "terminal." <= text || "workspace." <= text || "files." <= text
            || "git." <= text || "codex." <= text || "agent.message" <= text || "agent.surface." <= text
            || text == "agent.delivery" || text == "agent.experience" || text == "agent.interaction"
            || "agent.prompt." <= text || "agent.notification." <= text
            || "app.connection." <= text || "tunnel.upgrade." <= text
  {
    if "transport." <= text {
      assert text[0] == 't' && text[1] == 'r';
    }
  }

  // ---- Filtering ----

  function GatedOnly(envs: seq<Envelope>): (r: seq<Envelope>) {
    if envs == [] then []
    else (if IsGatedBusiness(envs[0]) then [envs[0]] else []) + GatedOnly(envs[1..])
  }

  function BusinessOnly(envs: seq<Envelope>): (r: seq<Envelope>) {
    if envs == [] then []
    else (if IsBusiness(envs[0]) then [envs[0]] else []) + BusinessOnly(envs[1..])
  }

  lemma {:induction false} GatedOnlyConcat(a: seq<Envelope>, b: seq<Envelope>)
    ensures GatedOnly(a + b) == GatedOnly(a) + GatedOnly(b)
  {
    if a == [] {
      assert a + b == b;
    } else {
      assert (a + b)[1..] == a[1..] + b;
      GatedOnlyConcat(a[1..], b);
    }
  }

  lemma {:induction false} BusinessOnlyConcat(a: seq<Envelope>, b: seq<Envelope>)
    ensures BusinessOnly(a + b) == BusinessOnly(a) + BusinessOnly(b)
  {
    if a == [] {
      assert a + b == b;
    } else {
      assert (a + b)[1..] == a[1..] + b;
      BusinessOnlyConcat(a[1..], b);
    }
  }

  lemma {:induction false} GatedOnlyEmpty(envs: seq<Envelope>)
    requires forall e :: e in envs ==> !IsGatedBusiness(e)
    ensures GatedOnly(envs) == []
  {
    if envs != [] {
      GatedOnlyEmpty(envs[1..]);
    }
  }
}

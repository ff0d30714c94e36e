/** The inbound path of a node: the inbox route and consent glue of api.py, the gate stack of
    consent_pipeline.py and the operator verbs of consent_requests.py. */
module InboxNode {
  import opened BanFeeds
  import opened Common
  import opened Consent
  import opened ConsentPolicy
  import opened Text
  import RG = ReplayGuard
  import Tokens

  // ----- Recipients -----

  function AfterColon(s: string): string {
    if s == "" then "" else if s[|s| - 1] == ':' then "" else AfterColon(s[..|s| - 1]) + [s[|s| - 1]]
  }

  predicate SafeComponent(s: string) {
    s != "" && s != "." && s != ".." && '/' !in s && '\\' !in s && (0 as char) !in s
  }

  /** The local agent an address names; "" when it names none, or none that is safe in a path. */
  function RecipientOf(to_fqid: string): string {
    var r := Strip(AfterColon(Before(to_fqid, '@')));
    if SafeComponent(r) then r else ""
  }

  // ----- The gate stack -----

  datatype Mode = Off | Public | Tailnet
  datatype Decision = Deliver | Quarantine | Drop | Defer

  /** The stages of the stack behind the ban gate that can raise. */
  datatype Stage = PolicyStage | ContactStage | TokenStage | GreylistStage

  /** Node policy and surroundings at one classification: the consent mode variable ("" unset),
      the pinned publishers' feeds with the verifier's word on each, whether the ban gate fails
      to run, the invite policy, the friction overrides, and the stages that raise when reached. */
  datatype Surroundings = Surroundings(setting: string, offers: seq<(BanFeed, bool)>, gateFails: bool,
                                       policy: InvitePolicy, friction: map<Tier, Friction>, broken: set<Stage>)

  /** "off" is read loosely; "tailnet" only as it stands, and everything else is public. */
  function ModeOf(setting: string): Mode {
    if Lower(Strip(setting)) == "" || Lower(Strip(setting)) == "off" then Off
    else if setting == "tailnet" then Tailnet
    else Public
  }

  /** The route vouches for no sender, so every unknown one is of the anonymous tier. */
  predicate Frictional(w: Surroundings) {
    FrictionFor(ClassifyTier(false, false), w.friction).greylist
  }

  datatype Agent = Agent(contacts: Contacts, requests: Requests, sightings: Sightings, issued: set<string>)

  const NEW_AGENT := Agent(map[], map[], map[], {})

  predicate BanGateDrops(a: Agent, sender: string, w: Surroundings) {
    w.gateFails || Banned(Subscribed(w.offers), sender) || IsBlocked(a.contacts, sender)
  }

  /** The decision for one envelope and the agent's stores after it. */
  function Classify(recipient: string, sender: string, token: Option<string>, a: Agent,
                    s: Tokens.Secrets, w: Surroundings, now: real): (Decision, Agent)
    requires IsMac(s.hmac)
  {
    if recipient == "" || sender == "" then (Deliver, a)
    else if BanGateDrops(a, sender, w) then (Drop, a)
    else if ModeOf(w.setting) == Off then (Deliver, a)
    else if PolicyStage in w.broken then (Deliver, a)
    else if w.policy.Evaluate(sender) != Allow then (Drop, a)
    else if ModeOf(w.setting) == Tailnet then (Deliver, a)
    else if ContactStage in w.broken then (Deliver, a)
    else if IsKnown(a.contacts, sender) then
      (if token.Some? && TokenStage !in w.broken && Tokens.Check(a.issued, s, sender, token.value) == Tokens.Invalid
       then Drop else Deliver, a)
    else if !Frictional(w) then (Quarantine, a)
    else if GreylistStage in w.broken then (Deliver, a)
    else
      var (rows, admit) := SeeSpec(a.sightings, DEFAULT_MIN_DELAY, sender, now);
      (if admit then Quarantine else Defer, a.(sightings := rows))
  }

  type Inbox = map<(string, string), Envelope>

  /** Where a classified envelope goes. */
  function Place(d: Decision, recipient: string, env: Envelope, a: Agent, inbox: Inbox, now: real): (Agent, Inbox) {
    match d
    case Deliver => (a, inbox[(recipient, env.id) := env])
    case Quarantine =>
      (a.(requests := EnqueueSpec(a.requests, DEFAULT_CAP, env.id, Request(env.from_fqid, env.body, now)).0), inbox)
    case _ => (a, inbox)
  }

  // ----- The node -----

  datatype Node = Node(nonces: map<string, real>, agents: map<string, Agent>, inbox: Inbox)

  const NEW_NODE := Node(map[], map[], map[])

  function AgentOf(n: Node, name: string): Agent {
    if name in n.agents then n.agents[name] else NEW_AGENT
  }

  datatype Body = Oversize | Malformed | Wire(signed: SignedEnvelope)

  datatype Op =
    | Post(body: Body, allowed: bool, valid: bool, freshClock: real, cacheClock: real, w: Surroundings)
    | AcceptRequest(agent: string, sender: string, clock: real)
    | OnAccept(agent: string, sender: string, clock: real)
    | Decline(agent: string, sender: string, block: bool, clock: real)
    | BlockSender(agent: string, sender: string, clock: real)
    | Unblock(agent: string, sender: string, clock: real)
    | Poll(agent: string, clock: real)
    | RestartNode(clock: real)

  datatype Reply = TooLarge | Unprocessable | TooManyRequests | Forbidden | Conflict | TooEarly
                 | Stored(decision: Decision) | Done

  /** The accept gate's view of a call: a call that never reaches the gate looks unsigned. */
  function AttemptOf(op: Op): RG.Attempt {
    match op
    case Post(Wire(signed), true, valid, f, c, _) => RG.Attempt(signed, valid, f, c)
    case Post(_, _, _, f, c, _) => RG.Attempt(NOTHING, false, f, c)
    case _ => RG.Attempt(NOTHING, false, op.clock, op.clock)
  }

  const NOTHING := SignedEnvelope(Envelope("", "", "", "", None, "", "", None, None, map[], None), "")

  /** Accept limits, and what tokens are derived with: every agent has its own seed. */
  datatype Config = Config(limits: RG.Limits, hmac: Mac, utf8: string -> bytes, prefix: bytes,
                           seeds: string -> bytes)
  {
    function SecretsOf(agent: string): Tokens.Secrets {
      Tokens.Secrets(hmac, utf8, seeds(agent), prefix)
    }
  }

  /** A poll passes over files whose names start with a dot, and an envelope's file is named after
      its id. */
  predicate Visible(id: string) {
    id != "" && id[0] != '.'
  }

  /** The inbox after a poll of `agent` has passed the files of `ids`: what it reads it moves away. */
  function PollSpec(inbox: Inbox, agent: string, ids: set<string>): Inbox {
    map k | k in inbox && !(k.0 == agent && k.1 in ids && Visible(k.1)) :: inbox[k]
  }

  function Elements(ids: seq<string>): set<string> {
    set id | id in ids
  }

  function Everything(inbox: Inbox): set<string> {
    set k | k in inbox :: k.1
  }

  /** What a poll hands on, in the order of the listing. */
  function Polled(inbox: Inbox, agent: string, ids: seq<string>): seq<Envelope> {
    if ids == [] then []
    else
      var front, id := Polled(inbox, agent, ids[..|ids| - 1]), ids[|ids| - 1];
      if Visible(id) && (agent, id) in inbox then front + [inbox[(agent, id)]] else front
  }

  function PutAgent(n: Node, name: string, a: Agent): Node {
    n.(agents := n.agents[name := a])
  }

  /** A verified envelope goes through consent and into the inbox, the queue or nowhere. */
  function WriteSpec(c: Config, n: Node, env: Envelope, w: Surroundings, now: real): (Node, Decision)
    requires IsMac(c.hmac)
  {
    var recipient := RecipientOf(env.to_fqid);
    var (d, a) := Classify(recipient, env.from_fqid, env.consent_token, AgentOf(n, recipient), c.SecretsOf(recipient), w, now);
    var (a', inbox) := Place(d, recipient, env, a, n.inbox, now);
    (PutAgent(n, recipient, a').(inbox := inbox), d)
  }

  function Step(c: Config, n: Node, op: Op): (Node, Reply)
    requires IsMac(c.hmac)
  {
    match op
    case Post(body, allowed, valid, f, t, w) =>
      if body.Oversize? then (n, TooLarge)
      else if body.Malformed? then (n, Unprocessable)
      else if !allowed then (n, TooManyRequests)
      else
        var (nonces, v) := RG.AcceptSpec(n.nonces, c.limits, RG.Attempt(body.signed, valid, f, t));
        (match v
         case SignatureError => (n.(nonces := nonces), Forbidden)
         case ReplayError => (n.(nonces := nonces), Conflict)
         case StaleError => (n.(nonces := nonces), TooEarly)
         case Accepted(env) => var (n', d) := WriteSpec(c, n.(nonces := nonces), env, w, t); (n', Stored(d)))
    case AcceptRequest(name, s, _) =>
      var a := AgentOf(n, name);
      (PutAgent(n, name, a.(contacts := a.contacts[s := Known], requests := ClearSpec(a.requests, s))), Done)
    case OnAccept(name, s, _) =>
      var a := AgentOf(n, name);
      (PutAgent(n, name, a.(contacts := a.contacts[s := Known], issued := a.issued + {s})), Done)
    case Decline(name, s, block, _) =>
      var a := AgentOf(n, name);
      (PutAgent(n, name, a.(contacts := if block then a.contacts[s := BlockedContact] else a.contacts,
                            requests := ClearSpec(a.requests, s))), Done)
    case BlockSender(name, s, _) =>
      var a := AgentOf(n, name);
      (PutAgent(n, name, a.(contacts := a.contacts[s := BlockedContact])), Done)
    case Unblock(name, s, _) =>
      var a := AgentOf(n, name);
      (PutAgent(n, name, a.(contacts := UnblockSpec(a.contacts, s))), Done)
    case Poll(name, _) => (n.(inbox := PollSpec(n.inbox, name, Everything(n.inbox))), Done)
    case RestartNode(_) => (n, Done)
  }

  /** The ban gate: the pinned feeds, then the recipient's block list; a failure is a ban. */
  method BanGate(a: Agent, sender: string, w: Surroundings) returns (drops: bool)
    ensures drops <==> BanGateDrops(a, sender, w)
  {
    if w.gateFails { return true; }
    var feeds := BuildSubscription(w.offers);
    var banned := feeds.IsBanned(sender);
    return banned || IsBlocked(a.contacts, sender);
  }

  /** Nodes that hold the same; an agent without stores is one whose stores are empty. */
  ghost predicate Alike(m: Node, n: Node) {
    m.nonces == n.nonces && m.inbox == n.inbox && forall k :: AgentOf(m, k) == AgentOf(n, k)
  }

  lemma AlikePut(m: Node, n: Node, name: string, a: Agent, b: Agent)
    requires Alike(m, PutAgent(n, name, a))
    ensures AgentOf(m, name) == a
    ensures Alike(PutAgent(m, name, b), PutAgent(n, name, b))
    ensures forall inbox :: Alike(m.(inbox := inbox), PutAgent(n, name, a).(inbox := inbox))
  {
    assert AgentOf(PutAgent(n, name, a), name) == a;
    forall k ensures AgentOf(PutAgent(m, name, b), k) == AgentOf(PutAgent(n, name, b), k) {
      assert AgentOf(m, k) == AgentOf(PutAgent(n, name, a), k);
    }
    forall inbox, k ensures AgentOf(m.(inbox := inbox), k) == AgentOf(PutAgent(n, name, a).(inbox := inbox), k) {
      assert AgentOf(m, k) == AgentOf(PutAgent(n, name, a), k);
    }
  }

  lemma AlikeSelf(n: Node, name: string)
    ensures Alike(n, PutAgent(n, name, AgentOf(n, name)))
  {
  }

  /** Whether the token of a known sender turns it away; a comparison that raises lets it by. */
  method TokenGate(secrets: Tokens.Secrets, a: Agent, sender: string, token: Option<string>, w: Surroundings)
    returns (bad: bool)
    requires IsMac(secrets.hmac)
    ensures bad <==> token.Some? && TokenStage !in w.broken
                     && Tokens.Check(a.issued, secrets, sender, token.value) == Tokens.Invalid
  {
    if token == None || TokenStage in w.broken { return false; }
    var store := new Tokens.TokenStore(secrets, a.issued);
    var check := store.Verify(sender, token.value);
    return check == Tokens.Invalid;
  }

  lemma PollEnds(inbox: Inbox, agent: string, ids: seq<string>)
    requires forall id :: id in ids <==> (agent, id) in inbox
    ensures PollSpec(inbox, agent, Elements(ids[..0])) == inbox
    ensures PollSpec(inbox, agent, Elements(ids)) == PollSpec(inbox, agent, Everything(inbox))
  {
    forall k | k in inbox && k.0 == agent ensures k.1 in Everything(inbox) && k.1 in ids {
      assert k == (agent, k.1);
    }
  }

  lemma PollNext(inbox: Inbox, agent: string, ids: seq<string>, i: nat)
    requires i < |ids| && (agent, ids[i]) in inbox && ids[i] !in ids[..i]
    ensures ids[..i + 1][..i] == ids[..i]
    ensures var before := PollSpec(inbox, agent, Elements(ids[..i]));
            && (agent, ids[i]) in before && before[(agent, ids[i])] == inbox[(agent, ids[i])]
            && PollSpec(inbox, agent, Elements(ids[..i + 1]))
               == if Visible(ids[i]) then before - {(agent, ids[i])} else before
  {
    assert ids[..i + 1] == ids[..i] + [ids[i]];
  }

  class Gateway {
    const config: Config
    const nonces: RG.DurableNonceCache
    var agents: map<string, Agent>
    var inbox: Inbox

    constructor (config: Config, nonces: RG.DurableNonceCache, agents: map<string, Agent>, inbox: Inbox)
      ensures this.config == config && this.nonces == nonces
      ensures State() == Node(nonces.table, agents, inbox)
    {
      this.config := config;
      this.nonces := nonces;
      this.agents := agents;
      this.inbox := inbox;
    }

    ghost function State(): Node
      reads this, nonces
    {
      Node(nonces.table, agents, inbox)
    }

    /** The consent gate: the ban gate first, whatever the mode; then the stack. */
    method ConsentClassify(recipient: string, sender: string, token: Option<string>, w: Surroundings, now: real)
      returns (d: Decision)
      requires IsMac(config.hmac)
      modifies this`agents
      ensures var r := Classify(recipient, sender, token, old(AgentOf(State(), recipient)), config.SecretsOf(recipient), w, now);
              d == r.0 && Alike(State(), PutAgent(old(State()), recipient, r.1))
    {
      hide BanGateDrops, SeeSpec, Tokens.Check, InvitePolicy.Evaluate, ModeOf, Frictional, IsKnown, AgentOf, PutAgent, Alike;
      AlikeSelf(State(), recipient);
      if recipient == "" || sender == "" { return Deliver; }
      var a := Stores(recipient);
      var drops := BanGate(a, sender, w);
      if drops { return Drop; }
      var mode := ModeOf(w.setting);
      if mode == Off { return Deliver; }
      if PolicyStage in w.broken { return Deliver; }
      var verdict := w.policy.Evaluate(sender);
      if verdict == Block || verdict == Ignore { return Drop; }
      if mode == Tailnet { return Deliver; }
      if ContactStage in w.broken { return Deliver; }
      if IsKnown(a.contacts, sender) {
        var bad := TokenGate(config.SecretsOf(recipient), a, sender, token, w);
        if bad { return Drop; }
        return Deliver;
      }
      if Frictional(w) {
        if GreylistStage in w.broken { return Deliver; }
        var admit := SeeSender(recipient, sender, now);
        if !admit { return Defer; }
      }
      return Quarantine;
    }

    /** The stores of an agent, empty for one without any. */
    method Stores(name: string) returns (a: Agent)
      ensures a == AgentOf(State(), name)
    {
      return if name in agents then agents[name] else NEW_AGENT;
    }

    method SeeSender(recipient: string, sender: string, now: real) returns (admit: bool)
      modifies this`agents
      ensures var a := old(AgentOf(State(), recipient));
              var seen := SeeSpec(a.sightings, DEFAULT_MIN_DELAY, sender, now);
              admit == seen.1 && Alike(State(), PutAgent(old(State()), recipient, a.(sightings := seen.0)))
    {
      var a := Stores(recipient);
      var grey := new Greylist(DEFAULT_MIN_DELAY, a.sightings);
      admit := grey.See(sender, now);
      agents := agents[recipient := a.(sightings := grey.rows)];
    }

    method WriteToRecipientInbox(env: Envelope, w: Surroundings, now: real) returns (d: Decision)
      requires IsMac(config.hmac)
      modifies this
      ensures d == WriteSpec(config, old(State()), env, w, now).1
      ensures Alike(State(), WriteSpec(config, old(State()), env, w, now).0)
    {
      hide Alike, Classify, RecipientOf, EnqueueSpec, PutAgent, AgentOf;
      var recipient := RecipientOf(env.to_fqid);
      ghost var before := State();
      ghost var a := Classify(recipient, env.from_fqid, env.consent_token, AgentOf(before, recipient),
                              config.SecretsOf(recipient), w, now).1;
      d := ConsentClassify(recipient, env.from_fqid, env.consent_token, w, now);
      AlikePut(State(), before, recipient, a, Place(d, recipient, env, a, inbox, now).0);
      if d == Drop { return; }
      if d == Defer { return; }
      if d == Quarantine {
        Queue(recipient, env, now);
        return;
      }
      inbox := inbox[(recipient, env.id) := env];
    }

    /** Queues the envelope as a knock at the recipient. */
    method Queue(recipient: string, env: Envelope, now: real)
      modifies this`agents
      ensures var a := old(AgentOf(State(), recipient));
              State() == PutAgent(old(State()), recipient, a.(requests :=
                EnqueueSpec(a.requests, DEFAULT_CAP, env.id, Request(env.from_fqid, env.body, now)).0))
    {
      var a := Stores(recipient);
      var q := new RequestQueue(DEFAULT_CAP, a.requests);
      var _ := q.Enqueue(env.from_fqid, env.body, env.id, now);
      agents := agents[recipient := a.(requests := q.rows)];
    }

    method PostInbox(body: Body, allowed: bool, valid: bool, freshClock: real, cacheClock: real, w: Surroundings)
      returns (r: Reply)
      requires IsMac(config.hmac) && nonces.ttl == config.limits.ttl
      modifies this, nonces
      ensures var s := Step(config, old(State()), Post(body, allowed, valid, freshClock, cacheClock, w));
              r == s.1 && Alike(State(), s.0)
    {
      if body.Oversize? { return TooLarge; }
      if body.Malformed? { return Unprocessable; }
      if !allowed { return TooManyRequests; }
      var v := RG.AcceptSigned(RG.Attempt(body.signed, valid, freshClock, cacheClock), config.limits, RG.Durable(nonces));
      match v
      case SignatureError => return Forbidden;
      case ReplayError => return Conflict;
      case StaleError => return TooEarly;
      case Accepted(env) =>
        var d := WriteToRecipientInbox(env, w, cacheClock);
        return Stored(d);
    }

    /** The recipient's file transport takes in its inbox; `ids` is the listing it walks. */
    method Poll(agent: string, ids: seq<string>, clock: real) returns (received: seq<Envelope>)
      requires IsMac(config.hmac)
      requires forall i, j :: 0 <= i < j < |ids| ==> ids[i] != ids[j]
      requires forall id :: id in ids <==> (agent, id) in inbox
      modifies this`inbox
      ensures State() == Step(config, old(State()), Op.Poll(agent, clock)).0
      ensures received == Polled(old(inbox), agent, ids)
    {
      received := [];
      ghost var was := inbox;
      PollEnds(was, agent, ids);
      hide PollSpec, Everything, Visible;
      for i := 0 to |ids|
        invariant inbox == PollSpec(was, agent, Elements(ids[..i]))
        invariant received == Polled(was, agent, ids[..i])
      {
        PollNext(was, agent, ids, i);
        if Visible(ids[i]) {
          received := received + [inbox[(agent, ids[i])]];
          inbox := inbox - {(agent, ids[i])};
        }
      }
      assert ids[..|ids|] == ids;
    }

    method Accept(agent: string, sender: string, clock: real)
      requires IsMac(config.hmac)
      modifies this`agents
      ensures State() == Step(config, old(State()), Op.AcceptRequest(agent, sender, clock)).0
    {
      var a := Stores(agent);
      var store := new ContactStore(a.contacts);
      var q := new RequestQueue(DEFAULT_CAP, a.requests);
      q.AcceptRequest(sender, store);
      agents := agents[agent := a.(contacts := store.contacts, requests := q.rows)];
    }

    method PipelineAccept(agent: string, sender: string, clock: real) returns (token: string)
      requires IsMac(config.hmac)
      modifies this`agents
      ensures State() == Step(config, old(State()), OnAccept(agent, sender, clock)).0
      ensures token == Tokens.Derive(config.SecretsOf(agent), sender)
    {
      var a := Stores(agent);
      var store := new ContactStore(a.contacts);
      store.Accept(sender);
      var tokens := new Tokens.TokenStore(config.SecretsOf(agent), a.issued);
      token := tokens.Issue(sender);
      agents := agents[agent := a.(contacts := store.contacts, issued := tokens.issued)];
    }

    method DeclineRequest(agent: string, sender: string, block: bool, clock: real)
      requires IsMac(config.hmac)
      modifies this`agents
      ensures State() == Step(config, old(State()), Decline(agent, sender, block, clock)).0
    {
      var a := Stores(agent);
      var store := new ContactStore(a.contacts);
      var q := new RequestQueue(DEFAULT_CAP, a.requests);
      q.DeclineRequest(sender, store, block);
      agents := agents[agent := a.(contacts := store.contacts, requests := q.rows)];
    }

    method BlockContact(agent: string, sender: string, clock: real)
      requires IsMac(config.hmac)
      modifies this`agents
      ensures State() == Step(config, old(State()), BlockSender(agent, sender, clock)).0
    {
      var a := Stores(agent);
      var store := new ContactStore(a.contacts);
      store.Block(sender);
      agents := agents[agent := a.(contacts := store.contacts)];
    }

    method UnblockContact(agent: string, sender: string, clock: real)
      requires IsMac(config.hmac)
      modifies this`agents
      ensures State() == Step(config, old(State()), Unblock(agent, sender, clock)).0
    {
      var a := Stores(agent);
      var store := new ContactStore(a.contacts);
      store.Unblock(sender);
      agents := agents[agent := a.(contacts := store.contacts)];
    }
  }

  // ----- Whole runs -----

  function After(c: Config, ops: seq<Op>, n: nat): Node
    requires IsMac(c.hmac) && n <= |ops|
  {
    if n == 0 then NEW_NODE else Step(c, After(c, ops, n - 1), ops[n - 1]).0
  }

  function ReplyAt(c: Config, ops: seq<Op>, i: nat): Reply
    requires IsMac(c.hmac) && i < |ops|
  {
    Step(c, After(c, ops, i), ops[i]).1
  }

  function Attempts(ops: seq<Op>): seq<RG.Attempt> {
    seq(|ops|, i requires 0 <= i < |ops| => AttemptOf(ops[i]))
  }

  // ----- One post, one write -----

  /** A post is its accept gate, and then the write of what the gate accepts. */
  lemma PostIs(c: Config, n: Node, op: Op)
    requires IsMac(c.hmac) && op.Post?
    ensures var (nonces, v) := RG.AcceptSpec(n.nonces, c.limits, AttemptOf(op));
            var (n', reply) := Step(c, n, op);
            if v.Accepted? then
              && op.body.Wire? && v.envelope == op.body.signed.envelope
              && n' == WriteSpec(c, n.(nonces := nonces), v.envelope, op.w, op.cacheClock).0
              && reply == Stored(WriteSpec(c, n.(nonces := nonces), v.envelope, op.w, op.cacheClock).1)
            else n' == n.(nonces := nonces) && !reply.Stored?
  {
    hide WriteSpec, RG.Fresh, RG.CheckAndAddSpec;
    assert NOTHING.signature == "";
  }

  /** A write keeps the nonces, puts the recipient's stores and the inbox where `Place` says, and
      changes nothing else. */
  lemma WriteIs(c: Config, n: Node, env: Envelope, w: Surroundings, now: real)
    requires IsMac(c.hmac)
    ensures var r := RecipientOf(env.to_fqid);
            var (d, a) := Classify(r, env.from_fqid, env.consent_token, AgentOf(n, r), c.SecretsOf(r), w, now);
            var (a', inbox) := Place(d, r, env, a, n.inbox, now);
            var (n', d') := WriteSpec(c, n, env, w, now);
            && d' == d && n'.nonces == n.nonces && n'.inbox == inbox && AgentOf(n', r) == a'
            && forall k :: k != r ==> AgentOf(n', k) == AgentOf(n, k)
  {
    hide Classify, Place, RecipientOf;
  }

  /** The stores of every other agent, and the nonces, are out of the gate's reach. */
  lemma SameAgents(n: Node, nonces: map<string, real>)
    ensures forall k :: AgentOf(n.(nonces := nonces), k) == AgentOf(n, k)
  {
  }

  lemma OperatorNonces(c: Config, n: Node, op: Op)
    requires IsMac(c.hmac) && !op.Post?
    ensures Step(c, n, op).0.nonces == n.nonces && Step(c, n, op).1 == Done
    ensures !op.Poll? ==> Step(c, n, op).0.inbox == n.inbox
    ensures RG.AcceptSpec(n.nonces, c.limits, AttemptOf(op)) == (n.nonces, RG.SignatureError)
  {
    hide UnblockSpec, ClearSpec;
    assert NOTHING.signature == "";
  }

  /** One call passes the accept gate as its attempt does. */
  lemma StepNonces(c: Config, n: Node, op: Op)
    requires IsMac(c.hmac)
    ensures var (nonces, v) := RG.AcceptSpec(n.nonces, c.limits, AttemptOf(op));
            Step(c, n, op).0.nonces == nonces && (Step(c, n, op).1.Stored? <==> v.Accepted?)
  {
    hide Step, AttemptOf, RG.AcceptSpec, WriteSpec;
    if op.Post? {
      PostIs(c, n, op);
      var (nonces, v) := RG.AcceptSpec(n.nonces, c.limits, AttemptOf(op));
      if v.Accepted? { WriteIs(c, n.(nonces := nonces), v.envelope, op.w, op.cacheClock); }
    } else {
      OperatorNonces(c, n, op);
    }
  }

  /** The node's nonce file is the one of its accept gate run alone. */
  lemma {:induction false} NoncesAreSeen(c: Config, ops: seq<Op>, n: nat)
    requires IsMac(c.hmac) && n <= |ops|
    ensures After(c, ops, n).nonces == RG.Seen(c.limits, Attempts(ops), n)
    ensures n < |ops| ==>
              (ReplyAt(c, ops, n).Stored? <==> RG.AcceptedAt(c.limits, Attempts(ops), n))
  {
    hide Step, AttemptOf, RG.AcceptSpec;
    if n > 0 {
      NoncesAreSeen(c, ops, n - 1);
      StepNonces(c, After(c, ops, n - 1), ops[n - 1]);
    }
    if n < |ops| { StepNonces(c, After(c, ops, n), ops[n]); }
  }

  /** A call that posts an envelope past the size, shape and rate checks. */
  predicate ReachesGate(op: Op) {
    op.Post? && op.body.Wire? && op.allowed
  }

  /** A post is stored exactly when it reaches the accept gate signed, verified and timely, and no
      earlier stored post on its sender and nonce is left unevicted. */
  lemma StoredIff(c: Config, ops: seq<Op>, n: nat)
    requires IsMac(c.hmac) && n < |ops|
    ensures ReplyAt(c, ops, n).Stored? <==>
            && ReachesGate(ops[n]) && ops[n].body.signed.signature != "" && ops[n].valid
            && RG.Timely(ops[n].body.signed.envelope, c.limits, ops[n].freshClock)
            && forall j :: 0 <= j < n && ReplyAt(c, ops, j).Stored?
                           && RG.Key(ops[n].body.signed.envelope.from_fqid, ops[n].body.signed.envelope.nonce)
                              == Attempts(ops)[j].CacheKey()
                 ==> !RG.Undisturbed(c.limits, Attempts(ops), j, n + 1)
  {
    NoncesAreSeen(c, ops, n);
    forall j | 0 <= j < n ensures ReplyAt(c, ops, j).Stored? <==> RG.AcceptedAt(c.limits, Attempts(ops), j) {
      NoncesAreSeen(c, ops, j);
    }
    RG.AcceptedIff(c.limits, Attempts(ops), n);
    AttemptIs(ops[n]);
    hide ReplyAt, RG.AcceptedAt, RG.Undisturbed, RG.Timely, AttemptOf;
  }

  lemma AttemptIs(op: Op)
    ensures if ReachesGate(op) then AttemptOf(op) == RG.Attempt(op.body.signed, op.valid, op.freshClock, op.cacheClock)
            else !RG.Authentic(AttemptOf(op))
  {
    assert NOTHING.signature == "";
  }

  /** What every other reply means. */
  lemma RefusalIff(c: Config, n: Node, op: Op)
    requires IsMac(c.hmac) && op.Post?
    ensures var reply, a := Step(c, n, op).1, AttemptOf(op);
            && (reply == TooLarge <==> op.body.Oversize?)
            && (reply == Unprocessable <==> op.body.Malformed?)
            && (reply == TooManyRequests <==> op.body.Wire? && !op.allowed)
            && (reply == Forbidden <==> ReachesGate(op) && (op.body.signed.signature == "" || !op.valid))
            && (reply == TooEarly <==> ReachesGate(op) && op.body.signed.signature != "" && op.valid
                                       && !RG.Timely(op.body.signed.envelope, c.limits, op.freshClock))
            && (reply == Conflict <==> ReachesGate(op) && op.body.signed.signature != "" && op.valid
                                       && RG.Timely(op.body.signed.envelope, c.limits, op.freshClock)
                                       && RG.IsSeen(n.nonces, c.limits, a))
  {
    RG.VerdictIff(n.nonces, c.limits, AttemptOf(op));
    hide WriteSpec, RG.AcceptSpec, RG.Timely, RG.IsSeen;
  }

  predicate Carries(op: Op, e: Envelope) {
    op.Post? && op.body.Wire? && op.body.signed.envelope == e
  }

  /** Across restarts and operator calls, under the replay bound, one envelope gets past the
      accept gate at most once: it reaches the inbox or the queue at most once, and one that the
      greylist deferred never gets in by being sent again. */
  lemma EnvelopeStoredAtMostOnce(c: Config, ops: seq<Op>, i: nat, j: nat, e: Envelope, gap: real, jitter: real)
    requires IsMac(c.hmac) && i < j < |ops|
    requires c.limits.maxAge >= 0.0 && c.limits.maxSkew >= 0.0 && gap >= 0.0 && jitter >= 0.0
    requires c.limits.maxAge + c.limits.maxSkew + gap + jitter <= c.limits.ttl
    requires RG.Clocked(Attempts(ops), gap, jitter)
    requires Carries(ops[i], e) && Carries(ops[j], e) && ReplyAt(c, ops, i).Stored?
    ensures ReplyAt(c, ops, j) in {TooManyRequests, Forbidden, Conflict, TooEarly}
    ensures ops[j].allowed && ops[j].valid && ops[j].body.signed.IsSigned() ==>
              ReplyAt(c, ops, j) == if RG.Fresh(e, c.limits, ops[j].freshClock) then Conflict else TooEarly
    ensures After(c, ops, j + 1).agents == After(c, ops, j).agents && After(c, ops, j + 1).inbox == After(c, ops, j).inbox
  {
    NoncesAreSeen(c, ops, i);
    NoncesAreSeen(c, ops, j);
    assert !ReplyAt(c, ops, j).Stored? by {
      RG.ReplaySafeIff(c.limits, gap, jitter);
      hide Step, After, ReplyAt, RG.AcceptedAt, RG.Clocked;
      if ReplyAt(c, ops, j).Stored? {
        DoubleAttempt(c, ops, i, j, e);
        assert false;
      }
    }
    AfterNext(c, ops, j);
    Refused(c, After(c, ops, j), ops[j], e);
  }

  lemma DoubleAttempt(c: Config, ops: seq<Op>, i: nat, j: nat, e: Envelope)
    requires i < j < |ops| && Carries(ops[i], e) && Carries(ops[j], e)
    requires RG.AcceptedAt(c.limits, Attempts(ops), i) && RG.AcceptedAt(c.limits, Attempts(ops), j)
    ensures RG.DoubleAccept(c.limits, Attempts(ops), i, j)
  {
    AcceptedIsCarried(c, ops, i, e);
    AcceptedIsCarried(c, ops, j, e);
    hide RG.AcceptedAt;
  }

  lemma AcceptedIsCarried(c: Config, ops: seq<Op>, i: nat, e: Envelope)
    requires i < |ops| && Carries(ops[i], e) && RG.AcceptedAt(c.limits, Attempts(ops), i)
    ensures Attempts(ops)[i].signed == ops[i].body.signed
  {
    assert NOTHING.signature == "";
  }

  /** Why a post that carries an envelope is not stored. */
  lemma Refused(c: Config, n: Node, op: Op, e: Envelope)
    requires IsMac(c.hmac) && Carries(op, e) && !Step(c, n, op).1.Stored?
    ensures Step(c, n, op).1 in {TooManyRequests, Forbidden, Conflict, TooEarly}
    ensures op.allowed && op.valid && op.body.signed.IsSigned() ==>
              Step(c, n, op).1 == if RG.Fresh(e, c.limits, op.freshClock) then Conflict else TooEarly
    ensures Step(c, n, op).0.agents == n.agents && Step(c, n, op).0.inbox == n.inbox
  {
    hide WriteSpec, RG.Fresh, RG.CheckAndAddSpec;
  }

  // ----- Consent over whole runs -----

  predicate AcceptsContact(op: Op, agent: string, sender: string) {
    (op.AcceptRequest? || op.OnAccept?) && op.agent == agent && op.sender == sender
  }

  predicate BlocksContact(op: Op, agent: string, sender: string) {
    ((op.Decline? && op.block) || op.BlockSender?) && op.agent == agent && op.sender == sender
  }

  predicate LiftsBlock(op: Op, agent: string, sender: string) {
    op.Unblock? && op.agent == agent && op.sender == sender
  }

  function ContactsAt(c: Config, ops: seq<Op>, n: nat, agent: string): Contacts
    requires IsMac(c.hmac) && n <= |ops|
  {
    AgentOf(After(c, ops, n), agent).contacts
  }

  /** A write changes nothing of an agent but its greylist and, on quarantine, its queue. */
  lemma WriteTouches(c: Config, n: Node, env: Envelope, w: Surroundings, now: real, agent: string)
    requires IsMac(c.hmac)
    ensures var a, a' := AgentOf(n, agent), AgentOf(WriteSpec(c, n, env, w, now).0, agent);
            && a'.contacts == a.contacts && a'.issued == a.issued
            && (a'.requests == a.requests
                || a'.requests == EnqueueSpec(a.requests, DEFAULT_CAP, env.id, Request(env.from_fqid, env.body, now)).0)
  {
    var r := RecipientOf(env.to_fqid);
    WriteIs(c, n, env, w, now);
    ClassifyTouches(r, env.from_fqid, env.consent_token, AgentOf(n, r), c.SecretsOf(r), w, now);
    hide WriteSpec, AgentOf, Classify, RecipientOf, EnqueueSpec;
  }

  lemma ClassifyTouches(recipient: string, sender: string, token: Option<string>, a: Agent, s: Tokens.Secrets,
                        w: Surroundings, now: real)
    requires IsMac(s.hmac)
    ensures var a' := Classify(recipient, sender, token, a, s, w, now).1; a' == a.(sightings := a'.sightings)
  {
  }

  /** What a post does to an agent's contacts, queue and tokens it does by a write, or not at all. */
  lemma PostTouches(c: Config, n: Node, op: Op, agent: string)
    requires IsMac(c.hmac) && op.Post?
    ensures var a, a' := AgentOf(n, agent), AgentOf(Step(c, n, op).0, agent);
            && a'.contacts == a.contacts && a'.issued == a.issued
            && (a'.requests == a.requests
                || (op.body.Wire?
                    && var e := op.body.signed.envelope;
                       a'.requests == EnqueueSpec(a.requests, DEFAULT_CAP, e.id, Request(e.from_fqid, e.body, op.cacheClock)).0))
  {
    PostIs(c, n, op);
    var (nonces, v) := RG.AcceptSpec(n.nonces, c.limits, AttemptOf(op));
    SameAgents(n, nonces);
    hide Step, WriteSpec, AgentOf, RG.AcceptSpec, AttemptOf, EnqueueSpec;
    if v.Accepted? { WriteTouches(c, n.(nonces := nonces), v.envelope, op.w, op.cacheClock, agent); }
  }

  /** Only the five operator calls change contacts, and only of the agent and sender named. */
  lemma ContactStep(c: Config, n: Node, op: Op, agent: string, sender: string)
    requires IsMac(c.hmac)
    ensures var k, k' := AgentOf(n, agent).contacts, AgentOf(Step(c, n, op).0, agent).contacts;
            && (IsKnown(k', sender) <==>
                AcceptsContact(op, agent, sender) || (IsKnown(k, sender) && !BlocksContact(op, agent, sender)))
            && (IsBlocked(k', sender) <==>
                BlocksContact(op, agent, sender)
                || (IsBlocked(k, sender) && !AcceptsContact(op, agent, sender) && !LiftsBlock(op, agent, sender)))
  {
    hide Step, AgentOf, Classify, WriteSpec, RecipientOf, EnqueueSpec;
    if op.Post? { PostTouches(c, n, op, agent); } else { OperatorContacts(c, n, op, agent); }
  }

  lemma OperatorContacts(c: Config, n: Node, op: Op, agent: string)
    requires IsMac(c.hmac) && !op.Post?
    ensures var k, k' := AgentOf(n, agent).contacts, AgentOf(Step(c, n, op).0, agent).contacts;
            if op.RestartNode? || op.agent != agent then k' == k
            else if op.AcceptRequest? || op.OnAccept? then k' == k[op.sender := Known]
            else if op.BlockSender? || (op.Decline? && op.block) then k' == k[op.sender := BlockedContact]
            else if op.Unblock? then k' == UnblockSpec(k, op.sender)
            else k' == k
  {
    hide RecipientOf, Classify, WriteSpec, UnblockSpec, ClearSpec;
  }

  ghost predicate StandsAccepted(ops: seq<Op>, n: nat, agent: string, sender: string)
    requires n <= |ops|
  {
    exists i :: 0 <= i < n && AcceptsContact(ops[i], agent, sender)
                && forall j :: i < j < n ==> !BlocksContact(ops[j], agent, sender)
  }

  ghost predicate StandsBlocked(ops: seq<Op>, n: nat, agent: string, sender: string)
    requires n <= |ops|
  {
    exists i :: 0 <= i < n && BlocksContact(ops[i], agent, sender)
                && forall j :: i < j < n ==> !AcceptsContact(ops[j], agent, sender) && !LiftsBlock(ops[j], agent, sender)
  }

  lemma AcceptedStep(ops: seq<Op>, n: nat, agent: string, sender: string)
    requires 0 < n <= |ops|
    ensures StandsAccepted(ops, n, agent, sender) <==>
            AcceptsContact(ops[n - 1], agent, sender)
            || (StandsAccepted(ops, n - 1, agent, sender) && !BlocksContact(ops[n - 1], agent, sender))
  {
    hide AcceptsContact, BlocksContact;
    var m := n - 1;
    if StandsAccepted(ops, m, agent, sender) && !BlocksContact(ops[m], agent, sender) {
      var i :| 0 <= i < m && AcceptsContact(ops[i], agent, sender)
               && forall j :: i < j < m ==> !BlocksContact(ops[j], agent, sender);
      assert forall j :: i < j < n ==> !BlocksContact(ops[j], agent, sender);
    }
  }

  lemma BlockedStep(ops: seq<Op>, n: nat, agent: string, sender: string)
    requires 0 < n <= |ops|
    ensures StandsBlocked(ops, n, agent, sender) <==>
            BlocksContact(ops[n - 1], agent, sender)
            || (StandsBlocked(ops, n - 1, agent, sender)
                && !AcceptsContact(ops[n - 1], agent, sender) && !LiftsBlock(ops[n - 1], agent, sender))
  {
    hide AcceptsContact, BlocksContact, LiftsBlock;
    var m := n - 1;
    if StandsBlocked(ops, m, agent, sender) && !AcceptsContact(ops[m], agent, sender) && !LiftsBlock(ops[m], agent, sender) {
      var i :| 0 <= i < m && BlocksContact(ops[i], agent, sender)
               && forall j :: i < j < m ==> !AcceptsContact(ops[j], agent, sender) && !LiftsBlock(ops[j], agent, sender);
      assert forall j :: i < j < n ==> !AcceptsContact(ops[j], agent, sender) && !LiftsBlock(ops[j], agent, sender);
    }
  }

  /** A sender is known exactly when accepted and not blocked since, and blocked exactly when
      blocked and neither accepted nor unblocked since. */
  lemma {:induction false} ContactStateIff(c: Config, ops: seq<Op>, n: nat, agent: string, sender: string)
    requires IsMac(c.hmac) && n <= |ops|
    ensures IsKnown(ContactsAt(c, ops, n, agent), sender) <==> StandsAccepted(ops, n, agent, sender)
    ensures IsBlocked(ContactsAt(c, ops, n, agent), sender) <==> StandsBlocked(ops, n, agent, sender)
  {
    if n > 0 {
      ContactStateIff(c, ops, n - 1, agent, sender);
      ContactStep(c, After(c, ops, n - 1), ops[n - 1], agent, sender);
      AcceptedStep(ops, n, agent, sender);
      BlockedStep(ops, n, agent, sender);
    }
  }

  /** A token of `sender` has been handed out by `agent`. */
  ghost predicate StandsIssued(ops: seq<Op>, n: nat, agent: string, sender: string)
    requires n <= |ops|
  {
    exists i :: 0 <= i < n && ops[i].OnAccept? && ops[i].agent == agent && ops[i].sender == sender
  }

  lemma {:induction false} IssuedIff(c: Config, ops: seq<Op>, n: nat, agent: string, sender: string)
    requires IsMac(c.hmac) && n <= |ops|
    ensures sender in AgentOf(After(c, ops, n), agent).issued <==> StandsIssued(ops, n, agent, sender)
  {
    if n > 0 {
      IssuedIff(c, ops, n - 1, agent, sender);
      IssuedStep(c, After(c, ops, n - 1), ops[n - 1], agent, sender);
      hide Step, AgentOf;
      if i :| 0 <= i < n && ops[i].OnAccept? && ops[i].agent == agent && ops[i].sender == sender {
        assert i == n - 1 || StandsIssued(ops, n - 1, agent, sender);
      }
    }
  }

  lemma IssuedStep(c: Config, n: Node, op: Op, agent: string, sender: string)
    requires IsMac(c.hmac)
    ensures sender in AgentOf(Step(c, n, op).0, agent).issued <==>
            sender in AgentOf(n, agent).issued || (op.OnAccept? && op.agent == agent && op.sender == sender)
  {
    if op.Post? { PostTouches(c, n, op, agent); }
  }

  /** A shown token does not stand in the way: the agent has issued the contact one and this is
      the one derived under the agent's seed, or text the comparison raises on. */
  ghost predicate TokenPasses(c: Config, ops: seq<Op>, n: nat, agent: string, sender: string, token: Option<string>)
    requires IsMac(c.hmac) && n <= |ops|
  {
    token.Some? ==>
      && token.value != "" && StandsIssued(ops, n, agent, sender)
      && (Tokens.IsAscii(token.value) ==> token.value == Tokens.Derive(c.SecretsOf(agent), sender))
  }

  /** Past the ban gate and the invite policy, a public delivery is made. */
  ghost predicate Welcomed(c: Config, ops: seq<Op>, n: nat, env: Envelope)
    requires IsMac(c.hmac) && n < |ops| && ops[n].Post?
  {
    var r, w := RecipientOf(env.to_fqid), ops[n].w;
    || ContactStage in w.broken
    || (StandsAccepted(ops, n, r, env.from_fqid)
        && (TokenStage in w.broken || TokenPasses(c, ops, n, r, env.from_fqid, env.consent_token)))
    || (!StandsAccepted(ops, n, r, env.from_fqid) && Frictional(w) && GreylistStage in w.broken)
  }

  /** In public mode, with both identities present, an envelope that passes the accept gate is
      delivered exactly when the ban gate lets it by (no feed bans its sender, which does not
      stand blocked), the invite policy allows it, its sender stands accepted by the recipient,
      and any token it presents passes. The one other way in is a stage that raises when reached. */
  lemma PublicDeliveryIff(c: Config, ops: seq<Op>, n: nat, env: Envelope)
    requires IsMac(c.hmac) && n < |ops| && Carries(ops[n], env) && ReplyAt(c, ops, n).Stored?
    requires ModeOf(ops[n].w.setting) == Public
    requires RecipientOf(env.to_fqid) != "" && env.from_fqid != ""
    ensures var w := ops[n].w;
            ReplyAt(c, ops, n) == Stored(Deliver) <==>
            && !w.gateFails && !FeedBans(w.offers, env.from_fqid)
            && !StandsBlocked(ops, n, RecipientOf(env.to_fqid), env.from_fqid)
            && (PolicyStage in w.broken || (w.policy.Evaluate(env.from_fqid) == Allow && Welcomed(c, ops, n, env)))
  {
    ReplyIs(c, ops, n, env);
    IssuedIff(c, ops, n, RecipientOf(env.to_fqid), env.from_fqid);
    ContactStateIff(c, ops, n, RecipientOf(env.to_fqid), env.from_fqid);
    BannedIff(ops[n].w.offers, env.from_fqid);
    hide Step, AgentOf, RecipientOf, Banned, FeedBans, StandsAccepted, StandsBlocked, StandsIssued, ReplyAt, After,
      Tokens.Derive, Tokens.IsAscii, InvitePolicy.Evaluate, ModeOf, Frictional;
  }

  /** A stored post is answered by the classification of its envelope. */
  lemma ReplyIs(c: Config, ops: seq<Op>, n: nat, env: Envelope)
    requires IsMac(c.hmac) && n < |ops| && Carries(ops[n], env) && ReplyAt(c, ops, n).Stored?
    ensures var r := RecipientOf(env.to_fqid);
            ReplyAt(c, ops, n) == Stored(Classify(r, env.from_fqid, env.consent_token, AgentOf(After(c, ops, n), r),
                                                  c.SecretsOf(r), ops[n].w, ops[n].cacheClock).0)
  {
    hide Classify, RecipientOf;
  }

  /** With consent off everything past the ban gate is delivered; on a tailnet exactly what the
      invite policy allows, or all of it when the policy cannot be read. */
  lemma OtherModesDeliverIff(c: Config, ops: seq<Op>, n: nat, env: Envelope)
    requires IsMac(c.hmac) && n < |ops| && Carries(ops[n], env) && ReplyAt(c, ops, n).Stored?
    requires ModeOf(ops[n].w.setting) != Public
    requires RecipientOf(env.to_fqid) != "" && env.from_fqid != ""
    ensures var w := ops[n].w;
            ReplyAt(c, ops, n) == Stored(Deliver) <==>
            && !w.gateFails && !FeedBans(w.offers, env.from_fqid)
            && !StandsBlocked(ops, n, RecipientOf(env.to_fqid), env.from_fqid)
            && (ModeOf(w.setting) == Off || PolicyStage in w.broken || w.policy.Evaluate(env.from_fqid) == Allow)
  {
    ReplyIs(c, ops, n, env);
    ContactStateIff(c, ops, n, RecipientOf(env.to_fqid), env.from_fqid);
    BannedIff(ops[n].w.offers, env.from_fqid);
    hide Step, AgentOf, RecipientOf, Banned, FeedBans, StandsAccepted, StandsBlocked, ReplyAt, After,
      InvitePolicy.Evaluate, ModeOf, Frictional;
  }

  /** Unknown senders are greylisted unless the operator's override for anonymous senders says not. */
  lemma FrictionalIff(w: Surroundings)
    ensures Frictional(w) <==> (Anonymous in w.friction ==> w.friction[Anonymous].greylist)
  {
  }

  /** Only the exact spelling turns the tailnet on; another one is public, and consent is off for
      any spelling of "off". */
  lemma ModeSpellings(setting: string)
    ensures ModeOf(setting) == Tailnet <==> setting == "tailnet"
    ensures ModeOf(setting) == Off <==> Strip(setting) == "" || IsOff(Strip(setting))
    ensures ModeOf("Tailnet") == Public
  {
    assert Lower("tailnet")[0] == 't' && Lower("Tailnet")[0] == 't';
    var s := Strip(setting);
    assert Lower(s) == "off" <==> IsOff(s) by {
      if IsOff(s) { assert Lower(s) == [Lower(s)[0], Lower(s)[1], Lower(s)[2]]; }
      if Lower(s) == "off" { assert Lower(s)[0] == 'o' && Lower(s)[1] == 'f' && Lower(s)[2] == 'f'; }
    }
  }

  /** Any casing of "off". */
  predicate IsOff(s: string) {
    |s| == 3 && s[0] in {'o', 'O'} && s[1] in {'f', 'F'} && s[2] in {'f', 'F'}
  }

  /** A post changes an inbox exactly when its envelope is delivered, and then only under the
      recipient and the envelope's id; it changes a request queue only by a quarantine, and then
      only the recipient's, as an enqueue of its knock does. */
  lemma StoredWhere(c: Config, ops: seq<Op>, n: nat, env: Envelope)
    requires IsMac(c.hmac) && n < |ops| && Carries(ops[n], env)
    ensures Lands(After(c, ops, n), After(c, ops, n + 1), ReplyAt(c, ops, n), env, ops[n].cacheClock)
  {
    var s, op := After(c, ops, n), ops[n];
    AfterNext(c, ops, n);
    PostIs(c, s, op);
    var (nonces, v) := RG.AcceptSpec(s.nonces, c.limits, AttemptOf(op));
    SameAgents(s, nonces);
    hide After, Step, WriteSpec, AgentOf, RG.AcceptSpec, AttemptOf, RecipientOf, EnqueueSpec;
    if v.Accepted? { WriteLands(c, s.(nonces := nonces), env, op.w, op.cacheClock); }
  }

  lemma AfterNext(c: Config, ops: seq<Op>, n: nat)
    requires IsMac(c.hmac) && n < |ops|
    ensures After(c, ops, n + 1) == Step(c, After(c, ops, n), ops[n]).0
  {
    hide Step;
  }

  ghost predicate Lands(s: Node, s': Node, reply: Reply, env: Envelope, now: real) {
    var r := RecipientOf(env.to_fqid);
    && s'.inbox == (if reply == Stored(Deliver) then s.inbox[(r, env.id) := env] else s.inbox)
    && (forall k :: (k != r || reply != Stored(Quarantine)) ==> AgentOf(s', k).requests == AgentOf(s, k).requests)
    && (reply == Stored(Quarantine) ==>
          AgentOf(s', r).requests
          == EnqueueSpec(AgentOf(s, r).requests, DEFAULT_CAP, env.id, Request(env.from_fqid, env.body, now)).0)
  }

  lemma WriteLands(c: Config, n: Node, env: Envelope, w: Surroundings, now: real)
    requires IsMac(c.hmac)
    ensures var (n', d) := WriteSpec(c, n, env, w, now); Lands(n, n', Stored(d), env, now)
  {
    var r := RecipientOf(env.to_fqid);
    WriteIs(c, n, env, w, now);
    ClassifyTouches(r, env.from_fqid, env.consent_token, AgentOf(n, r), c.SecretsOf(r), w, now);
    hide WriteSpec, AgentOf, Classify, RecipientOf, EnqueueSpec;
  }

  /** A quarantined knock is queued exactly when its sender is under the cap and no knock of anyone
      holds its id: the id is the sender's to choose, and one that another knock holds loses the
      knock while the sender is told it was stored. */
  lemma KnockQueuedIff(c: Config, ops: seq<Op>, n: nat, env: Envelope)
    requires IsMac(c.hmac) && n < |ops| && Carries(ops[n], env) && ReplyAt(c, ops, n) == Stored(Quarantine)
    ensures var r := RecipientOf(env.to_fqid);
            var q, q' := AgentOf(After(c, ops, n), r).requests, AgentOf(After(c, ops, n + 1), r).requests;
            && Knocks(q', env.from_fqid) == Knocks(q, env.from_fqid)
                 + (if |Knocks(q, env.from_fqid)| < DEFAULT_CAP && env.id !in q then {env.id} else {})
            && (env.id in Knocks(q', env.from_fqid) && env.id !in Knocks(q, env.from_fqid) <==>
                |Knocks(q, env.from_fqid)| < DEFAULT_CAP && env.id !in q)
  {
    StoredWhere(c, ops, n, env);
    var q := AgentOf(After(c, ops, n), RecipientOf(env.to_fqid)).requests;
    hide After, Step, ReplyAt, AgentOf, RecipientOf, Knocks;
    if env.id !in q { KnocksInserted(q, env.id, Request(env.from_fqid, env.body, ops[n].cacheClock), env.from_fqid); }
  }

  /** Call `i` delivers into the inbox under `key`. */
  predicate DeliversAt(c: Config, ops: seq<Op>, i: nat, key: (string, string))
    requires IsMac(c.hmac) && i < |ops|
  {
    && ops[i].Post? && ops[i].body.Wire? && ReplyAt(c, ops, i) == Stored(Deliver)
    && var e := ops[i].body.signed.envelope;
       (RecipientOf(e.to_fqid), e.id) == key
  }

  /** The call takes what stands under `key` out of the inbox. */
  predicate Takes(op: Op, key: (string, string)) {
    op.Poll? && op.agent == key.0 && key.1 != "" && key.1[0] != '.'
  }

  /** Call `i` delivered `e` under `key`, and no later one of the first `n` delivered there or took
      it out. */
  ghost predicate LastDelivered(c: Config, ops: seq<Op>, i: nat, n: nat, key: (string, string), e: Envelope)
    requires IsMac(c.hmac) && i < n <= |ops|
  {
    && DeliversAt(c, ops, i, key) && ops[i].body.signed.envelope == e
    && forall j :: i < j < n ==> !DeliversAt(c, ops, j, key) && !Takes(ops[j], key)
  }

  ghost predicate StandsDelivered(c: Config, ops: seq<Op>, n: nat, key: (string, string), e: Envelope)
    requires IsMac(c.hmac) && n <= |ops|
  {
    exists i :: 0 <= i < n && LastDelivered(c, ops, i, n, key, e)
  }

  /** An envelope stands in an inbox exactly from its delivery until the recipient's next poll or a
      later delivery under the same id, whoever sends it: nothing else puts it there or takes it out,
      and a poll never takes one whose id is empty or starts with a dot. */
  lemma {:induction false} InboxIs(c: Config, ops: seq<Op>, n: nat, key: (string, string), e: Envelope)
    requires IsMac(c.hmac) && n <= |ops|
    ensures key in After(c, ops, n).inbox && After(c, ops, n).inbox[key] == e <==> StandsDelivered(c, ops, n, key, e)
  {
    hide DeliversAt, After, StandsDelivered, Takes;
    if n == 0 {
      NothingDelivered(c, ops, key, e);
    } else {
      InboxIs(c, ops, n - 1, key, e);
      InboxStep(c, ops, n - 1, key);
      DeliveredStep(c, ops, n - 1, key, e);
    }
  }

  lemma NothingDelivered(c: Config, ops: seq<Op>, key: (string, string), e: Envelope)
    requires IsMac(c.hmac)
    ensures key !in After(c, ops, 0).inbox && !StandsDelivered(c, ops, 0, key, e)
  {
  }

  lemma DeliveredStep(c: Config, ops: seq<Op>, n: nat, key: (string, string), e: Envelope)
    requires IsMac(c.hmac) && n < |ops|
    ensures StandsDelivered(c, ops, n + 1, key, e) <==>
            if DeliversAt(c, ops, n, key) then ops[n].Post? && ops[n].body.Wire? && ops[n].body.signed.envelope == e
            else StandsDelivered(c, ops, n, key, e) && !Takes(ops[n], key)
  {
    hide ReplyAt, After, RecipientOf, Takes;
    var m := n + 1;
    if DeliversAt(c, ops, n, key) && ops[n].body.signed.envelope == e { assert LastDelivered(c, ops, n, m, key, e); }
    if !DeliversAt(c, ops, n, key) && !Takes(ops[n], key) && StandsDelivered(c, ops, n, key, e) {
      var i :| 0 <= i < n && LastDelivered(c, ops, i, n, key, e);
      assert LastDelivered(c, ops, i, m, key, e);
    }
    if StandsDelivered(c, ops, m, key, e) {
      var i :| 0 <= i < m && LastDelivered(c, ops, i, m, key, e);
      if i < n { assert LastDelivered(c, ops, i, n, key, e); }
    }
  }

  lemma InboxStep(c: Config, ops: seq<Op>, n: nat, key: (string, string))
    requires IsMac(c.hmac) && n < |ops|
    ensures var inbox, inbox' := After(c, ops, n).inbox, After(c, ops, n + 1).inbox;
            if DeliversAt(c, ops, n, key) then
              ops[n].Post? && ops[n].body.Wire? && key in inbox' && inbox'[key] == ops[n].body.signed.envelope
            else if Takes(ops[n], key) then key !in inbox'
            else (key in inbox' <==> key in inbox) && (key in inbox ==> inbox'[key] == inbox[key])
  {
    AfterNext(c, ops, n);
    if ops[n].Post? && ops[n].body.Wire? { StoredWhere(c, ops, n, ops[n].body.signed.envelope); }
    hide After, RecipientOf, WriteSpec, RG.AcceptSpec;
    if ops[n].Poll? { PollTakes(After(c, ops, n).inbox, ops[n], key); }
  }

  lemma PollTakes(inbox: Inbox, op: Op, key: (string, string))
    requires op.Poll?
    ensures var inbox' := PollSpec(inbox, op.agent, Everything(inbox));
            && (key in inbox' <==> key in inbox && !Takes(op, key))
            && (key in inbox' ==> inbox'[key] == inbox[key])
  {
    if key in inbox { assert key.1 in Everything(inbox); }
  }

  /** A sender that some signed and verifying feed bans, or that stands blocked, is dropped in
      every mode and with any token exactly when both identities are present: an envelope whose
      recipient part is empty or unsafe, or whose sender is empty, skips the gate. */
  lemma BannedIsDroppedIff(c: Config, ops: seq<Op>, n: nat, env: Envelope)
    requires IsMac(c.hmac) && n < |ops| && Carries(ops[n], env) && ReplyAt(c, ops, n).Stored?
    requires FeedBans(ops[n].w.offers, env.from_fqid) || ops[n].w.gateFails
             || StandsBlocked(ops, n, RecipientOf(env.to_fqid), env.from_fqid)
    ensures ReplyAt(c, ops, n) == Stored(Drop) <==> RecipientOf(env.to_fqid) != "" && env.from_fqid != ""
    ensures ReplyAt(c, ops, n) == Stored(Deliver) <==> RecipientOf(env.to_fqid) == "" || env.from_fqid == ""
  {
    ReplyIs(c, ops, n, env);
    ContactStateIff(c, ops, n, RecipientOf(env.to_fqid), env.from_fqid);
    BannedIff(ops[n].w.offers, env.from_fqid);
    hide Step, AgentOf, RecipientOf, Banned, FeedBans, StandsAccepted, StandsBlocked, ReplyAt, After;
  }

  /** The request queue of every agent never holds more than the cap of any sender. */
  lemma {:induction false} QueueStaysCapped(c: Config, ops: seq<Op>, n: nat, agent: string, sender: string)
    requires IsMac(c.hmac) && n <= |ops|
    ensures |Knocks(AgentOf(After(c, ops, n), agent).requests, sender)| <= DEFAULT_CAP
  {
    if n == 0 {
      assert Knocks(map[], sender) == {};
    } else {
      QueueStaysCapped(c, ops, n - 1, agent, sender);
      RequestStep(c, After(c, ops, n - 1), ops[n - 1], agent, sender);
    }
  }

  lemma RequestStep(c: Config, n: Node, op: Op, agent: string, sender: string)
    requires IsMac(c.hmac)
    requires |Knocks(AgentOf(n, agent).requests, sender)| <= DEFAULT_CAP
    ensures |Knocks(AgentOf(Step(c, n, op).0, agent).requests, sender)| <= DEFAULT_CAP
  {
    hide Step, AgentOf, Knocks, EnqueueSpec, ClearSpec;
    var q := AgentOf(n, agent).requests;
    if op.Post? {
      PostTouches(c, n, op, agent);
      if op.body.Wire? {
        var e := op.body.signed.envelope;
        EnqueueKeepsCap(q, DEFAULT_CAP, e.id, Request(e.from_fqid, e.body, op.cacheClock), sender);
      }
    } else {
      OperatorRequests(c, n, op, agent);
      if op.AcceptRequest? || op.Decline? { ClearKnocks(q, op.sender, sender); }
    }
  }

  lemma OperatorRequests(c: Config, n: Node, op: Op, agent: string)
    requires IsMac(c.hmac) && !op.Post?
    ensures var q := AgentOf(n, agent).requests;
            AgentOf(Step(c, n, op).0, agent).requests
            == if (op.AcceptRequest? || op.Decline?) && op.agent == agent then ClearSpec(q, op.sender) else q
  {
    hide UnblockSpec, ClearSpec;
  }

  /** Accepting or declining from the queue clears the knocks of that sender at that agent; no other
      operator call touches a knock, and none touches another sender's. */
  lemma KnocksClearedIff(c: Config, n: Node, op: Op, agent: string, sender: string)
    requires IsMac(c.hmac) && !op.Post?
    ensures Knocks(AgentOf(Step(c, n, op).0, agent).requests, sender)
            == if (op.AcceptRequest? || op.Decline?) && op.agent == agent && op.sender == sender then {}
               else Knocks(AgentOf(n, agent).requests, sender)
  {
    hide Step, AgentOf, Knocks, ClearSpec;
    OperatorRequests(c, n, op, agent);
    if op.AcceptRequest? || op.Decline? { ClearKnocks(AgentOf(n, agent).requests, op.sender, sender); }
  }

  /** Accepting from the request queue clears the sender's knocks; accepting through the
      pipeline mints a token and leaves every knock where it was. */
  lemma AcceptsDiffer(c: Config, n: Node, agent: string, sender: string, clock: real)
    requires IsMac(c.hmac)
    ensures var a := AgentOf(n, agent);
            var viaQueue := AgentOf(Step(c, n, AcceptRequest(agent, sender, clock)).0, agent);
            var viaPipeline := AgentOf(Step(c, n, OnAccept(agent, sender, clock)).0, agent);
            && Knocks(viaQueue.requests, sender) == {} && viaQueue.issued == a.issued
            && viaPipeline.requests == a.requests && sender in viaPipeline.issued
            && viaQueue.contacts == viaPipeline.contacts
  {
    ClearKnocks(AgentOf(n, agent).requests, sender, sender);
  }

  // ----- Greylisting over whole runs -----

  /** The call on node `s` reaches `agent`'s greylist. */
  predicate Greylists(c: Config, s: Node, op: Op, agent: string)
    requires IsMac(c.hmac)
  {
    && op.Post? && op.body.Wire? && Frictional(op.w)
    && RecipientOf(op.body.signed.envelope.to_fqid) == agent
    && (Step(c, s, op).1 == Stored(Defer) || Step(c, s, op).1 == Stored(Quarantine))
  }

  function VisitOf(op: Op): Visit
    requires op.Post? && op.body.Wire?
  {
    Visit(op.body.signed.envelope.from_fqid, op.cacheClock)
  }

  /** The greylist visits of an agent in the first `n` calls. */
  function VisitsOf(c: Config, ops: seq<Op>, n: nat, agent: string): seq<Visit>
    requires IsMac(c.hmac) && n <= |ops|
  {
    if n == 0 then []
    else
      var v := VisitsOf(c, ops, n - 1, agent);
      if Greylists(c, After(c, ops, n - 1), ops[n - 1], agent) then v + [VisitOf(ops[n - 1])] else v
  }

  /** What a call does to an agent's greylist, and what the greylist says. */
  lemma GreylistStep(c: Config, n: Node, op: Op, agent: string)
    requires IsMac(c.hmac)
    ensures var g, g' := AgentOf(n, agent).sightings, AgentOf(Step(c, n, op).0, agent).sightings;
            if Greylists(c, n, op, agent) then
              var seen := SeeSpec(g, DEFAULT_MIN_DELAY, VisitOf(op).sender, VisitOf(op).now);
              g' == seen.0 && (Step(c, n, op).1 == Stored(Defer) <==> !seen.1)
            else g' == g
  {
    if op.Post? {
      PostIs(c, n, op);
      var (nonces, v) := RG.AcceptSpec(n.nonces, c.limits, AttemptOf(op));
      SameAgents(n, nonces);
      hide Step, WriteSpec, AgentOf, RG.AcceptSpec, AttemptOf, SeeSpec, RecipientOf, Frictional;
      if v.Accepted? { WriteGreylists(c, n.(nonces := nonces), v.envelope, op.w, op.cacheClock, agent); }
    } else {
      OperatorSightings(c, n, op, agent);
    }
  }

  lemma OperatorSightings(c: Config, n: Node, op: Op, agent: string)
    requires IsMac(c.hmac) && !op.Post?
    ensures AgentOf(Step(c, n, op).0, agent).sightings == AgentOf(n, agent).sightings
  {
    hide UnblockSpec, ClearSpec;
  }

  lemma WriteGreylists(c: Config, n: Node, env: Envelope, w: Surroundings, now: real, agent: string)
    requires IsMac(c.hmac)
    ensures var (n', d) := WriteSpec(c, n, env, w, now);
            var g, g' := AgentOf(n, agent).sightings, AgentOf(n', agent).sightings;
            if RecipientOf(env.to_fqid) == agent && Frictional(w) && (d == Defer || d == Quarantine) then
              var seen := SeeSpec(g, DEFAULT_MIN_DELAY, env.from_fqid, now); g' == seen.0 && (d == Defer <==> !seen.1)
            else g' == g
  {
    var r := RecipientOf(env.to_fqid);
    WriteIs(c, n, env, w, now);
    ClassifyGreylists(r, env.from_fqid, env.consent_token, AgentOf(n, r), c.SecretsOf(r), w, now);
    hide WriteSpec, AgentOf, Classify, RecipientOf, SeeSpec, EnqueueSpec, Frictional;
  }

  lemma ClassifyGreylists(recipient: string, sender: string, token: Option<string>, a: Agent, s: Tokens.Secrets,
                          w: Surroundings, now: real)
    requires IsMac(s.hmac)
    ensures var (d, a') := Classify(recipient, sender, token, a, s, w, now);
            if Frictional(w) && (d == Defer || d == Quarantine) then
              var seen := SeeSpec(a.sightings, DEFAULT_MIN_DELAY, sender, now);
              a'.sightings == seen.0 && (d == Defer <==> !seen.1)
            else a'.sightings == a.sightings
  {
    hide Banned, InvitePolicy.Evaluate, Tokens.Check, SeeSpec, ModeOf, Frictional;
  }

  /** An agent's greylist is the one its visits make. */
  lemma {:induction false} SightingsAre(c: Config, ops: seq<Op>, n: nat, agent: string)
    requires IsMac(c.hmac) && n <= |ops|
    ensures var v := VisitsOf(c, ops, n, agent);
            AgentOf(After(c, ops, n), agent).sightings == SeenAfter(v, DEFAULT_MIN_DELAY, |v|)
  {
    hide Step, AgentOf, SeeSpec, SeenAfter, VisitOf;
    if n == 0 {
      NoSightings(c, ops, agent);
    } else {
      var v := VisitsOf(c, ops, n - 1, agent);
      SightingsAre(c, ops, n - 1, agent);
      GreylistStep(c, After(c, ops, n - 1), ops[n - 1], agent);
      if Greylists(c, After(c, ops, n - 1), ops[n - 1], agent) { SeenSnoc(v, VisitOf(ops[n - 1]), DEFAULT_MIN_DELAY); }
      hide Greylists;
    }
  }

  lemma NoSightings(c: Config, ops: seq<Op>, agent: string)
    requires IsMac(c.hmac)
    ensures AgentOf(After(c, ops, 0), agent).sightings == SeenAfter([], DEFAULT_MIN_DELAY, 0)
  {
  }

  lemma SeenSnoc(v: seq<Visit>, x: Visit, minDelay: real)
    ensures SeenAfter(v + [x], minDelay, |v| + 1) == SeeSpec(SeenAfter(v, minDelay, |v|), minDelay, x.sender, x.now).0
    ensures AdmitsAt(v + [x], minDelay, |v|) == SeeSpec(SeenAfter(v, minDelay, |v|), minDelay, x.sender, x.now).1
  {
    SeenPrefix(v, [x], minDelay, |v|);
    hide SeeSpec;
  }

  lemma {:induction false} SeenPrefix(v: seq<Visit>, rest: seq<Visit>, minDelay: real, n: nat)
    requires n <= |v|
    ensures SeenAfter(v + rest, minDelay, n) == SeenAfter(v, minDelay, n)
  {
    if n > 0 { SeenPrefix(v, rest, minDelay, n - 1); }
  }

  /** Call `i` reached `agent`'s greylist with an envelope of `sender`. */
  predicate GreylistedAt(c: Config, ops: seq<Op>, i: nat, agent: string, sender: string)
    requires IsMac(c.hmac) && i < |ops|
  {
    Greylists(c, After(c, ops, i), ops[i], agent) && ops[i].body.signed.envelope.from_fqid == sender
  }

  ghost predicate FirstGreylisted(c: Config, ops: seq<Op>, i: nat, agent: string, sender: string)
    requires IsMac(c.hmac) && i < |ops|
  {
    GreylistedAt(c, ops, i, agent, sender) && forall j :: 0 <= j < i ==> !GreylistedAt(c, ops, j, agent, sender)
  }

  /** By call `n` some repeat visit of `sender` came at least the delay after its first. */
  ghost predicate HasWaited(c: Config, ops: seq<Op>, n: nat, agent: string, sender: string)
    requires IsMac(c.hmac) && n < |ops|
  {
    exists i, m :: 0 <= i < m <= n && FirstGreylisted(c, ops, i, agent, sender) && GreylistedAt(c, ops, m, agent, sender)
                   && ops[m].cacheClock - ops[i].cacheClock >= DEFAULT_MIN_DELAY
  }

  /** Call `m`'s visit stands in the trace where the trace before it ended. */
  lemma {:induction false} VisitAt(c: Config, ops: seq<Op>, m: nat, n: nat, agent: string)
    requires IsMac(c.hmac) && m <= n <= |ops|
    ensures VisitsOf(c, ops, m, agent) <= VisitsOf(c, ops, n, agent)
    ensures m < n && Greylists(c, After(c, ops, m), ops[m], agent) ==>
              var k, v := |VisitsOf(c, ops, m, agent)|, VisitsOf(c, ops, n, agent);
              k < |v| && v[k] == VisitOf(ops[m])
    decreases n
  {
    hide Greylists, After;
    if m < n { VisitAt(c, ops, m, n - 1, agent); }
  }

  /** And every visit in the trace is some call's. */
  lemma {:induction false} CallOf(c: Config, ops: seq<Op>, n: nat, agent: string, k: nat) returns (m: nat)
    requires IsMac(c.hmac) && n <= |ops| && k < |VisitsOf(c, ops, n, agent)|
    ensures m < n && Greylists(c, After(c, ops, m), ops[m], agent)
    ensures |VisitsOf(c, ops, m, agent)| == k && VisitsOf(c, ops, n, agent)[k] == VisitOf(ops[m])
    decreases n
  {
    hide Greylists, After;
    if k < |VisitsOf(c, ops, n - 1, agent)| { m := CallOf(c, ops, n - 1, agent, k); } else { m := n - 1; }
  }

  lemma FirstInTrace(c: Config, ops: seq<Op>, i: nat, n: nat, agent: string, sender: string)
    requires IsMac(c.hmac) && i < n <= |ops| && FirstGreylisted(c, ops, i, agent, sender)
    ensures var v, k := VisitsOf(c, ops, n, agent), |VisitsOf(c, ops, i, agent)|;
            k < |v| && v[k] == VisitOf(ops[i]) && v[k].sender == sender && FirstVisit(v, k)
  {
    var v, k := VisitsOf(c, ops, n, agent), |VisitsOf(c, ops, i, agent)|;
    VisitAt(c, ops, i, n, agent);
    forall j | 0 <= j < k ensures v[j].sender != sender {
      var m := CallOf(c, ops, i, agent, j);
      assert !GreylistedAt(c, ops, m, agent, sender);
    }
  }

  lemma WaitedInTrace(c: Config, ops: seq<Op>, i: nat, n: nat, agent: string, sender: string)
    requires IsMac(c.hmac) && i < n <= |ops| && FirstGreylisted(c, ops, i, agent, sender)
    ensures var v, k := VisitsOf(c, ops, n, agent), |VisitsOf(c, ops, i, agent)|;
            k < |v| && (Waited(v, DEFAULT_MIN_DELAY, k, |v|, sender) <==> HasWaited(c, ops, n - 1, agent, sender))
  {
    var v, k := VisitsOf(c, ops, n, agent), |VisitsOf(c, ops, i, agent)|;
    FirstInTrace(c, ops, i, n, agent, sender);
    hide Greylists, After;
    if Waited(v, DEFAULT_MIN_DELAY, k, |v|, sender) {
      var j :| k < j < |v| && v[j].sender == sender && v[j].now - v[k].now >= DEFAULT_MIN_DELAY;
      var m := CallOf(c, ops, n, agent, j);
      if m <= i { VisitAt(c, ops, m, i, agent); }
      assert GreylistedAt(c, ops, m, agent, sender);
    }
    if i', m :| 0 <= i' < m <= n - 1 && FirstGreylisted(c, ops, i', agent, sender)
                && GreylistedAt(c, ops, m, agent, sender)
                && ops[m].cacheClock - ops[i'].cacheClock >= DEFAULT_MIN_DELAY {
      assert i' == i;
      VisitAt(c, ops, m, n, agent);
      VisitAt(c, ops, i, m, agent);
      var j := |VisitsOf(c, ops, m, agent)|;
      assert v[j] == VisitOf(ops[m]);
    }
  }

  /** A greylisted contact is deferred exactly when neither this nor an earlier repeat visit of its
      sender came at least the delay after its first: a retry under a fresh nonce waits as long as
      that, and no longer. */
  lemma DeferredIff(c: Config, ops: seq<Op>, n: nat, agent: string, sender: string)
    requires IsMac(c.hmac) && n < |ops| && GreylistedAt(c, ops, n, agent, sender)
    ensures ReplyAt(c, ops, n) == Stored(Defer) <==> !HasWaited(c, ops, n, agent, sender)
  {
    hide *;
    var i := FirstOf(c, ops, n, agent, sender);
    VisitAt(c, ops, i, n, agent);
    DeferredByTrace(c, ops, n, agent, sender);
    WaitedInTrace(c, ops, i, n + 1, agent, sender);
    FirstInTrace(c, ops, i, n + 1, agent, sender);
    AdmittedIff(VisitsOf(c, ops, n + 1, agent), DEFAULT_MIN_DELAY, |VisitsOf(c, ops, n, agent)|,
                |VisitsOf(c, ops, i, agent)|);
  }

  lemma DeferredByTrace(c: Config, ops: seq<Op>, n: nat, agent: string, sender: string)
    requires IsMac(c.hmac) && n < |ops| && GreylistedAt(c, ops, n, agent, sender)
    ensures var v, v' := VisitsOf(c, ops, n, agent), VisitsOf(c, ops, n + 1, agent);
            && |v'| == |v| + 1 && v'[|v|].sender == sender
            && (ReplyAt(c, ops, n) == Stored(Defer) <==> !AdmitsAt(v', DEFAULT_MIN_DELAY, |v|))
  {
    SightingsAre(c, ops, n, agent);
    GreylistStep(c, After(c, ops, n), ops[n], agent);
    SeenSnoc(VisitsOf(c, ops, n, agent), VisitOf(ops[n]), DEFAULT_MIN_DELAY);
    hide Step, After, SeenAfter, SeeSpec, AgentOf;
  }

  lemma {:induction false} FirstOf(c: Config, ops: seq<Op>, n: nat, agent: string, sender: string) returns (i: nat)
    requires IsMac(c.hmac) && n < |ops| && GreylistedAt(c, ops, n, agent, sender)
    ensures i <= n && FirstGreylisted(c, ops, i, agent, sender)
    decreases n
  {
    hide GreylistedAt;
    if j :| 0 <= j < n && GreylistedAt(c, ops, j, agent, sender) {
      i := FirstOf(c, ops, j, agent, sender);
    } else {
      i := n;
    }
  }

  /** In public mode a sender that does not stand accepted knocks or waits: deferred exactly
      when it is greylisted and has not waited the delay yet, quarantined otherwise. */
  lemma PublicFirstContactIff(c: Config, ops: seq<Op>, n: nat, env: Envelope)
    requires IsMac(c.hmac) && n < |ops| && Carries(ops[n], env) && ReplyAt(c, ops, n).Stored?
    requires ModeOf(ops[n].w.setting) == Public && !ops[n].w.gateFails
    requires PolicyStage !in ops[n].w.broken && ContactStage !in ops[n].w.broken
    requires Frictional(ops[n].w) ==> GreylistStage !in ops[n].w.broken
    requires !FeedBans(ops[n].w.offers, env.from_fqid) && ops[n].w.policy.Evaluate(env.from_fqid) == Allow
    requires RecipientOf(env.to_fqid) != "" && env.from_fqid != ""
    requires !StandsAccepted(ops, n, RecipientOf(env.to_fqid), env.from_fqid)
    requires !StandsBlocked(ops, n, RecipientOf(env.to_fqid), env.from_fqid)
    ensures ReplyAt(c, ops, n) ==
            Stored(if Frictional(ops[n].w) && !HasWaited(c, ops, n, RecipientOf(env.to_fqid), env.from_fqid)
                   then Defer else Quarantine)
  {
    var r := RecipientOf(env.to_fqid);
    ReplyIs(c, ops, n, env);
    ContactStateIff(c, ops, n, r, env.from_fqid);
    BannedIff(ops[n].w.offers, env.from_fqid);
    hide AgentOf, RecipientOf, Banned, FeedBans, StandsAccepted, StandsBlocked, After, InvitePolicy.Evaluate, HasWaited,
      Step, ModeOf, Frictional;
    if Frictional(ops[n].w) { DeferredIff(c, ops, n, r, env.from_fqid); }
  }

  predicate DeferredAt(c: Config, ops: seq<Op>, i: nat, agent: string, sender: string)
    requires IsMac(c.hmac) && i < |ops|
  {
    && ops[i].Post? && ops[i].body.Wire? && ReplyAt(c, ops, i) == Stored(Defer)
    && RecipientOf(ops[i].body.signed.envelope.to_fqid) == agent
    && ops[i].body.signed.envelope.from_fqid == sender
  }

  lemma {:induction false} FirstSightingKept(c: Config, ops: seq<Op>, m: nat, n: nat, agent: string, sender: string)
    requires IsMac(c.hmac) && m <= n <= |ops|
    requires sender in AgentOf(After(c, ops, m), agent).sightings
    ensures sender in AgentOf(After(c, ops, n), agent).sightings
    ensures AgentOf(After(c, ops, n), agent).sightings[sender].first_seen
            == AgentOf(After(c, ops, m), agent).sightings[sender].first_seen
  {
    hide Step, AgentOf;
    if n > m {
      FirstSightingKept(c, ops, m, n - 1, agent, sender);
      SightingStep(c, After(c, ops, n - 1), ops[n - 1], agent, sender);
    }
  }

  lemma SightingStep(c: Config, n: Node, op: Op, agent: string, sender: string)
    requires IsMac(c.hmac)
    ensures var g, g' := AgentOf(n, agent).sightings, AgentOf(Step(c, n, op).0, agent).sightings;
            sender in g ==> sender in g' && g'[sender].first_seen == g[sender].first_seen
  {
    if op.Post? {
      PostIs(c, n, op);
      var (nonces, v) := RG.AcceptSpec(n.nonces, c.limits, AttemptOf(op));
      SameAgents(n, nonces);
      hide Step, WriteSpec, AgentOf, RG.AcceptSpec, AttemptOf;
      if v.Accepted? && sender in AgentOf(n, agent).sightings {
        WriteSees(c, n.(nonces := nonces), v.envelope, op.w, op.cacheClock, agent, sender);
      }
    } else {
      OperatorSightings(c, n, op, agent);
    }
  }

  lemma WriteSees(c: Config, n: Node, env: Envelope, w: Surroundings, now: real, agent: string, sender: string)
    requires IsMac(c.hmac) && sender in AgentOf(n, agent).sightings
    ensures var g, g' := AgentOf(n, agent).sightings, AgentOf(WriteSpec(c, n, env, w, now).0, agent).sightings;
            sender in g' && g'[sender].first_seen == g[sender].first_seen
  {
    var r := RecipientOf(env.to_fqid);
    WriteIs(c, n, env, w, now);
    ClassifySees(r, env.from_fqid, env.consent_token, AgentOf(n, r), c.SecretsOf(r), w, now, sender);
    hide WriteSpec, AgentOf, Classify, RecipientOf, EnqueueSpec;
  }

  lemma ClassifySees(recipient: string, from: string, token: Option<string>, a: Agent, s: Tokens.Secrets,
                     w: Surroundings, now: real, sender: string)
    requires IsMac(s.hmac)
    ensures var a' := Classify(recipient, from, token, a, s, w, now).1;
            sender in a.sightings ==>
              sender in a'.sightings && a'.sightings[sender].first_seen == a.sightings[sender].first_seen
  {
  }

  /** A deferral records the sighting, and happens only before the delay is over. */
  lemma DeferStep(c: Config, n: Node, op: Op, agent: string, sender: string)
    requires IsMac(c.hmac)
    requires op.Post? && op.body.Wire? && Step(c, n, op).1 == Stored(Defer)
    requires RecipientOf(op.body.signed.envelope.to_fqid) == agent && op.body.signed.envelope.from_fqid == sender
    ensures var g, g' := AgentOf(n, agent).sightings, AgentOf(Step(c, n, op).0, agent).sightings;
            && (sender !in g ==> sender in g' && g'[sender].first_seen == op.cacheClock)
            && (sender in g ==> op.cacheClock - g[sender].first_seen < DEFAULT_MIN_DELAY)
  {
    PostIs(c, n, op);
    var (nonces, v) := RG.AcceptSpec(n.nonces, c.limits, AttemptOf(op));
    SameAgents(n, nonces);
    hide Step, WriteSpec, AgentOf, RG.AcceptSpec, AttemptOf, Classify, RecipientOf;
    WriteIs(c, n.(nonces := nonces), op.body.signed.envelope, op.w, op.cacheClock);
    ClassifyDefers(agent, sender, v.envelope.consent_token, AgentOf(n, agent), c.SecretsOf(agent), op.w, op.cacheClock);
  }

  lemma ClassifyDefers(recipient: string, sender: string, token: Option<string>, a: Agent, s: Tokens.Secrets,
                       w: Surroundings, now: real)
    requires IsMac(s.hmac) && Classify(recipient, sender, token, a, s, w, now).0 == Defer
    ensures var g' := Classify(recipient, sender, token, a, s, w, now).1.sightings;
            && (sender !in a.sightings ==> sender in g' && g'[sender].first_seen == now)
            && (sender in a.sightings ==> now - a.sightings[sender].first_seen < DEFAULT_MIN_DELAY)
  {
    hide Banned, InvitePolicy.Evaluate, Tokens.Check, ModeOf, Frictional;
  }

  /** The first contact that the greylist defers sets the clock: any later post from that sender
      to that agent, under a fresh nonce, at least the delay after it is not deferred again. */
  lemma DeferralEnds(c: Config, ops: seq<Op>, i: nat, j: nat, agent: string, sender: string)
    requires IsMac(c.hmac) && i < j < |ops|
    requires DeferredAt(c, ops, i, agent, sender) && sender !in AgentOf(After(c, ops, i), agent).sightings
    requires ops[j].Post? && ops[j].cacheClock - ops[i].cacheClock >= DEFAULT_MIN_DELAY
    ensures !DeferredAt(c, ops, j, agent, sender)
  {
    hide *;
    DeferredSeen(c, ops, i, agent, sender);
    FirstSightingKept(c, ops, i + 1, j, agent, sender);
    if DeferredAt(c, ops, j, agent, sender) {
      DeferredSeen(c, ops, j, agent, sender);
      assert false;
    }
  }

  lemma DeferredSeen(c: Config, ops: seq<Op>, i: nat, agent: string, sender: string)
    requires IsMac(c.hmac) && i < |ops| && DeferredAt(c, ops, i, agent, sender)
    ensures var g, g' := AgentOf(After(c, ops, i), agent).sightings, AgentOf(After(c, ops, i + 1), agent).sightings;
            && ops[i].Post?
            && (sender !in g ==> sender in g' && g'[sender].first_seen == ops[i].cacheClock)
            && (sender in g ==> ops[i].cacheClock - g[sender].first_seen < DEFAULT_MIN_DELAY)
  {
    AfterNext(c, ops, i);
    hide Step, After, AgentOf, RecipientOf;
    DeferStep(c, After(c, ops, i), ops[i], agent, sender);
  }

  /** One agent's stores never change another's. */
  lemma AgentsAreIsolated(c: Config, n: Node, op: Op, agent: string)
    requires IsMac(c.hmac)
    requires op.Post? ==> op.body.Wire? ==> RecipientOf(op.body.signed.envelope.to_fqid) != agent
    requires !op.Post? && !op.RestartNode? ==> op.agent != agent
    ensures AgentOf(Step(c, n, op).0, agent) == AgentOf(n, agent)
    ensures forall id :: (agent, id) in Step(c, n, op).0.inbox <==> (agent, id) in n.inbox
    ensures forall id :: (agent, id) in n.inbox ==> Step(c, n, op).0.inbox[(agent, id)] == n.inbox[(agent, id)]
  {
    if op.Post? {
      PostIs(c, n, op);
      var (nonces, v) := RG.AcceptSpec(n.nonces, c.limits, AttemptOf(op));
      SameAgents(n, nonces);
      hide Step, WriteSpec, AgentOf, RG.AcceptSpec, AttemptOf, RecipientOf;
      if v.Accepted? { WriteIsolated(c, n.(nonces := nonces), v.envelope, op.w, op.cacheClock, agent); }
    } else {
      OperatorNonces(c, n, op);
      hide UnblockSpec, ClearSpec;
    }
  }

  lemma WriteIsolated(c: Config, n: Node, env: Envelope, w: Surroundings, now: real, agent: string)
    requires IsMac(c.hmac) && RecipientOf(env.to_fqid) != agent
    ensures var n' := WriteSpec(c, n, env, w, now).0;
            && AgentOf(n', agent) == AgentOf(n, agent)
            && forall id :: ((agent, id) in n'.inbox <==> (agent, id) in n.inbox)
                            && ((agent, id) in n.inbox ==> n'.inbox[(agent, id)] == n.inbox[(agent, id)])
  {
    WriteIs(c, n, env, w, now);
    hide WriteSpec, AgentOf, Classify, RecipientOf, EnqueueSpec;
  }

  // ----- Recipients are safe -----

  lemma {:induction false} AfterColonProperties(s: string)
    ensures ':' !in AfterColon(s) && forall ch :: ch in AfterColon(s) ==> ch in s
  {
    if s != "" { AfterColonProperties(s[..|s| - 1]); }
  }

  lemma {:induction false} AfterColonIs(prefix: string, part: string)
    requires ':' !in part
    ensures AfterColon(part) == part && AfterColon(prefix + ":" + part) == part
  {
    var s := prefix + ":" + part;
    if part == "" {
      assert s[|s| - 1] == ':';
    } else {
      var front := part[..|part| - 1];
      AfterColonIs(prefix, front);
      assert s[|s| - 1] == part[|part| - 1] && s[..|s| - 1] == prefix + ":" + front;
      assert part == front + [part[|part| - 1]];
    }
  }

  /** The realm, a scheme in front and the blanks around are taken off an address, and what is left
      is the recipient when it is safe as one path component; nothing is the recipient otherwise. */
  lemma RecipientIs(prefix: string, lead: string, agent: string, trail: string, realm: string)
    requires '@' !in prefix && '@' !in agent && ':' !in agent && Blank(lead) && Blank(trail)
    requires agent != "" ==> !IsSpace(agent[0]) && !IsSpace(agent[|agent| - 1])
    ensures var part := lead + agent + trail;
            var safe := agent != "" && agent != "." && agent != ".." && '/' !in agent && '\\' !in agent
                        && (0 as char) !in agent;
            var r := if safe then agent else "";
            && RecipientOf(part) == r && RecipientOf(part + "@" + realm) == r
            && RecipientOf(prefix + ":" + part) == r && RecipientOf(prefix + ":" + part + "@" + realm) == r
  {
    var part := lead + agent + trail;
    assert ':' !in part && '@' !in part;
    AfterColonIs(prefix, part);
    StripIs(lead, agent, trail);
    BeforeAll(part, '@');
    BeforeConcat(part, '@', realm);
    BeforeAll(prefix + ":" + part, '@');
    BeforeConcat(prefix + ":" + part, '@', realm);
  }

  /** A recipient is empty or one path component with no address punctuation and no blanks
      around it. */
  lemma RecipientIsSafe(to_fqid: string)
    ensures var r := RecipientOf(to_fqid);
            r == "" || (SafeComponent(r) && '@' !in r && ':' !in r && !IsSpace(r[0]) && !IsSpace(r[|r| - 1]))
  {
    BeforeIs(to_fqid, '@');
    AfterColonProperties(Before(to_fqid, '@'));
    StripProperties(AfterColon(Before(to_fqid, '@')));
  }
}

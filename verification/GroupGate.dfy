/** The group consent gate of consent_group_gate.py, which composes the membership policy and
    the captcha store of each group. */
module GroupGate {
  import opened Common
  import opened GroupPolicy
  import GroupCaptcha

  /** A group's registered configuration; "" is no owner. */
  datatype Config = Config(mode: Mode, owner: string, requireCaptcha: bool, persisted: bool)

  const STRICTEST := Config(InviteOnly, "", false, true)

  /** Everything the gate and its files know of one group. `handle` is the configuration the
      cached policy was opened with; `memory` is the table of a handle that is not persisted. */
  datatype Group = Group(config: Option<Config>, handle: Option<Config>,
                         memory: Table, disk: Table, captcha: GroupCaptcha.Store)

  const UNKNOWN_GROUP := Group(None, None, map[], map[], map[])

  datatype Reply = Joined(status: Status, challenge: Option<string>) | Ack | Refused

  function Cfg(g: Group): Config {
    if g.config.Some? then g.config.value else STRICTEST
  }

  /** The group with its policy open: the stored table (a fresh one when not persisted) with
      its owner seeded. */
  function Opened(g: Group): (o: Group)
    ensures o.handle.Some?
  {
    if g.handle.Some? then g
    else
      var cfg := Cfg(g);
      var o := g.(config := Some(cfg), handle := Some(cfg));
      if cfg.persisted then o.(disk := Seeded(g.disk, cfg.owner))
      else o.(memory := Seeded(map[], cfg.owner))
  }

  function Rows(g: Group): Table
    requires g.handle.Some?
  {
    if g.handle.value.persisted then g.disk else g.memory
  }

  function WithRows(g: Group, t: Table): Group
    requires g.handle.Some?
  {
    if g.handle.value.persisted then g.(disk := t) else g.(memory := t)
  }

  /** The membership table any call on the group sees. */
  function View(g: Group): Table {
    Rows(Opened(g))
  }

  datatype Op =
    | Configure(config: Config)
    | RestartNode
    | Join(fqid: string, id: string, answerHash: string, now: real)
    | Admit(fqid: string, actor: Option<string>, challenge: Option<string>, answerHash: string, now: real)
    | InviteTo(fqid: string, actor: Option<string>)
    | Seat(fqid: string, role: Role)
    | BlockAll(fqid: string, moderator: string)
    | Shadow(moderator: string)
    | Look

  function ReplyOf(o: Outcome): Reply {
    match o
    case Status(s) => Joined(s, None)
    case Done => Ack
    case PermissionError => Refused
  }

  /** An open group that asks for a captcha challenges everyone it does not already know. */
  predicate Challenged(t: Table, cfg: Config, f: string) {
    cfg.mode == Open && cfg.requireCaptcha && !Has(t, f, Member) && !Has(t, f, Blocked)
  }

  predicate CaptchaPasses(c: GroupCaptcha.Store, op: Op)
    requires op.Admit? && op.challenge.Some?
  {
    GroupCaptcha.Judge(c, op.challenge.value, op.answerHash, op.now) == GroupCaptcha.Passed
  }

  /** The policy call a gate call on table `t` comes down to, if it changes the table. */
  function PolicyCall(t: Table, cfg: Config, c: GroupCaptcha.Store, op: Op): Option<GroupPolicy.Op> {
    match op
    case Join(f, _, _, _) => if Challenged(t, cfg, f) then None else Some(RequestJoin(f, None))
    case Admit(f, actor, challenge, h, now) =>
      if Has(t, f, Blocked) then None
      else if challenge.None? then Some(Approve(f, actor))
      else if CaptchaPasses(c, op) then Some(AddMember(f, Plain))
      else None
    case InviteTo(f, actor) => Some(Invite(f, actor))
    case Seat(f, role) => Some(AddMember(f, role))
    case BlockAll(f, moderator) => Some(BlockForAll(f, Some(moderator)))
    case _ => None
  }

  /** The table after a call on an open policy. */
  function ActTable(t: Table, cfg: Config, c: GroupCaptcha.Store, op: Op): Table {
    var call := PolicyCall(t, cfg, c, op);
    if call.Some? then Apply(t, cfg.mode, None, call.value).0
    else if op.Join? && Challenged(t, cfg, op.fqid) then t[op.fqid := Row(None, Pending)]
    else t
  }

  /** The captcha store after a call on an open policy. */
  function ActCaptcha(t: Table, cfg: Config, c: GroupCaptcha.Store, op: Op): GroupCaptcha.Store {
    match op
    case Join(f, id, h, now) =>
      if Challenged(t, cfg, f)
      then GroupCaptcha.GenerateSpec(c, id, h, GroupCaptcha.DEFAULT_MAX_ATTEMPTS, GroupCaptcha.DEFAULT_TTL, now)
      else c
    case Admit(f, _, challenge, h, now) =>
      if challenge.Some? && !Has(t, f, Blocked)
      then GroupCaptcha.VerifySpec(c, challenge.value, h, now)
      else c
    case _ => c
  }

  function ActReply(t: Table, cfg: Config, c: GroupCaptcha.Store, op: Op): Reply {
    match op
    case Join(f, id, _, _) =>
      if Challenged(t, cfg, f) then Joined(Pending, Some(id))
      else ReplyOf(Apply(t, cfg.mode, None, RequestJoin(f, None)).1)
    case Admit(f, actor, challenge, h, now) =>
      if Has(t, f, Blocked) then Joined(Blocked, None)
      else if challenge.None? then ReplyOf(Apply(t, cfg.mode, None, Approve(f, actor)).1)
      else if CaptchaPasses(c, op) then Joined(Member, None)
      else Joined(Pending, challenge)
    case InviteTo(f, actor) => ReplyOf(Apply(t, cfg.mode, None, Invite(f, actor)).1)
    case BlockAll(f, moderator) => if CanModerate(t, Some(moderator)) then Ack else Refused
    case Shadow(moderator) => if CanModerate(t, Some(moderator)) then Ack else Refused
    case _ => Ack
  }

  function Step(g: Group, op: Op): (Group, Reply) {
    match op
    case Configure(cfg) => (g.(config := Some(cfg), handle := None, memory := map[]), Ack)
    case RestartNode => (g.(config := None, handle := None, memory := map[]), Ack)
    case _ =>
      var o := Opened(g);
      var t, cfg := Rows(o), o.handle.value;
      (WithRows(o, ActTable(t, cfg, o.captcha, op)).(captcha := ActCaptcha(t, cfg, o.captcha, op)),
       ActReply(t, cfg, o.captcha, op))
  }

  // ----- The gate object -----

  /** A cached handle was opened with the configuration now registered; roles match statuses. */
  ghost predicate Inv(g: Group) {
    && (g.handle.Some? ==> g.config == g.handle)
    && RolesMatch(g.disk) && RolesMatch(g.memory)
  }

  class GroupConsentGate {
    const hash: string -> string
    var groups: map<string, Group>

    constructor (hash: string -> string, stored: map<string, Group>)
      requires forall k :: k in stored ==> Inv(stored[k])
      ensures this.hash == hash && groups == stored && Valid()
    {
      this.hash := hash;
      groups := stored;
    }

    ghost predicate Valid()
      reads this
    {
      forall k :: k in groups ==> Inv(groups[k])
    }

    function Slice(gid: string): Group
      reads this
    {
      if gid in groups then groups[gid] else UNKNOWN_GROUP
    }

    /** Only group `gid` may have changed. */
    twostate predicate Only(gid: string)
      reads this
    {
      forall k :: k != gid ==> Slice(k) == old(Slice(k))
    }

    method Put(gid: string, g: Group)
      requires Valid() && Inv(g)
      modifies this
      ensures Valid() && Slice(gid) == g && Only(gid)
    {
      groups := groups[gid := g];
    }

    method ConfigureGroup(gid: string, cfg: Config)
      requires Valid()
      modifies this
      ensures Valid() && Only(gid) && Slice(gid) == Step(old(Slice(gid)), Configure(cfg)).0
    {
      var g := Slice(gid);
      Put(gid, g.(config := Some(cfg), handle := None, memory := map[]));
    }

    /** Opens the group's policy on first use and returns its table. */
    method Policy(gid: string) returns (t: Table)
      requires Valid()
      modifies this
      ensures Valid() && Only(gid) && Slice(gid) == Opened(old(Slice(gid))) && t == Rows(Slice(gid))
    {
      var g := Slice(gid);
      if g.handle == None {
        var cfg := if g.config.Some? then g.config.value else STRICTEST;
        var p := new GroupJoinPolicy(cfg.mode, cfg.owner, None, if cfg.persisted then g.disk else map[]);
        ApplyKeepsRolesMatch(if cfg.persisted then g.disk else map[], cfg.mode, None, Seed(cfg.owner));
        g := g.(config := Some(cfg), handle := Some(cfg));
        Put(gid, WithRows(g, p.rows));
      }
      t := Rows(Slice(gid));
    }

    method Save(gid: string, t: Table)
      requires Valid() && Slice(gid).handle.Some? && RolesMatch(t)
      modifies this
      ensures Valid() && Only(gid) && Slice(gid) == WithRows(old(Slice(gid)), t)
    {
      Put(gid, WithRows(Slice(gid), t));
    }

    /** The JOIN path. `id` and `answer` are the challenge drawn from the per-issue secret seed. */
    method JoinDecision(gid: string, fqid: string, id: string, answer: string, now: real) returns (r: Reply)
      requires Valid()
      modifies this
      ensures Valid() && Only(gid)
      ensures (Slice(gid), r) == Step(old(Slice(gid)), Join(fqid, id, hash(answer), now))
    {
      hide GroupCaptcha.GenerateSpec, Opened, RolesMatch;
      var t := Policy(gid);
      var cfg := Slice(gid).handle.value;
      if cfg.mode == Open && cfg.requireCaptcha {
        if Has(t, fqid, Member) { return Joined(Member, None); }
        if Has(t, fqid, Blocked) { return Joined(Blocked, None); }
        Challenge(gid, fqid, id, answer, now, t);
        return Joined(Pending, Some(id));
      }
      hide Apply;
      var out := Request(gid, fqid, t);
      return ReplyOf(out);
    }

    /** Issues a challenge and leaves the joiner pending. */
    method Challenge(gid: string, fqid: string, id: string, answer: string, now: real, t: Table)
      requires Valid() && Slice(gid).handle.Some? && t == Rows(Slice(gid))
      modifies this
      ensures Valid() && Only(gid)
      ensures Slice(gid) == WithRows(old(Slice(gid)), t[fqid := Row(None, Pending)]).(captcha :=
                GroupCaptcha.GenerateSpec(old(Slice(gid)).captcha, id, hash(answer), GroupCaptcha.DEFAULT_MAX_ATTEMPTS,
                                          GroupCaptcha.DEFAULT_TTL, now))
    {
      var c := new GroupCaptcha.Captcha(GroupCaptcha.DEFAULT_TTL, GroupCaptcha.DEFAULT_MAX_ATTEMPTS,
                                        hash, Slice(gid).captcha);
      c.Generate(id, answer, now);
      Put(gid, Slice(gid).(captcha := c.rows));
      Save(gid, t[fqid := Row(None, Pending)]);
    }

    /** A join request to the group's policy. */
    method Request(gid: string, fqid: string, t: Table) returns (out: Outcome)
      requires Valid() && Slice(gid).handle.Some? && t == Rows(Slice(gid))
      modifies this
      ensures Valid() && Only(gid)
      ensures var r := Apply(t, old(Slice(gid)).handle.value.mode, None, RequestJoin(fqid, None));
              Slice(gid) == WithRows(old(Slice(gid)), r.0) && out == r.1
    {
      var mode := Slice(gid).handle.value.mode;
      ApplyKeepsRolesMatch(t, mode, None, RequestJoin(fqid, None));
      hide Apply;
      var p := new GroupJoinPolicy(mode, "", None, t);
      out := p.RequestJoin(fqid, None);
      Save(gid, p.rows);
    }

    /** Finishes a join: a captcha answer, or a moderator's approval. */
    method Admit(gid: string, fqid: string, actor: Option<string>, challenge: Option<string>,
                 answer: string, now: real) returns (r: Reply)
      requires Valid()
      modifies this
      ensures Valid() && Only(gid)
      ensures (Slice(gid), r) == Step(old(Slice(gid)), Op.Admit(fqid, actor, challenge, hash(answer), now))
    {
      hide GroupCaptcha.VerifySpec, GroupCaptcha.Judge, Opened, Apply, Inv;
      var t := Policy(gid);
      if Has(t, fqid, Blocked) { return Joined(Blocked, None); }
      if challenge.Some? {
        var ok := Answered(gid, challenge.value, answer, now);
        if !ok { return Joined(Pending, challenge); }
        AddTo(gid, fqid, Plain, t);
        return Joined(Member, None);
      }
      var out := ApproveIn(gid, fqid, actor, t);
      return ReplyOf(out);
    }

    /** A seating in the group's policy. */
    method AddTo(gid: string, fqid: string, role: Role, t: Table)
      requires Valid() && Slice(gid).handle.Some? && t == Rows(Slice(gid))
      modifies this
      ensures Valid() && Only(gid)
      ensures var r := Apply(t, old(Slice(gid)).handle.value.mode, None, AddMember(fqid, role));
              Slice(gid) == WithRows(old(Slice(gid)), r.0)
    {
      var mode := Slice(gid).handle.value.mode;
      ApplyKeepsRolesMatch(t, mode, None, AddMember(fqid, role));
      hide Apply;
      var p := new GroupJoinPolicy(mode, "", None, t);
      p.AddMember(fqid, role);
      Save(gid, p.rows);
    }

    /** An approval in the group's policy. */
    method ApproveIn(gid: string, fqid: string, actor: Option<string>, t: Table) returns (out: Outcome)
      requires Valid() && Slice(gid).handle.Some? && t == Rows(Slice(gid))
      modifies this
      ensures Valid() && Only(gid)
      ensures var r := Apply(t, old(Slice(gid)).handle.value.mode, None, Approve(fqid, actor));
              Slice(gid) == WithRows(old(Slice(gid)), r.0) && out == r.1
    {
      var mode := Slice(gid).handle.value.mode;
      ApplyKeepsRolesMatch(t, mode, None, Approve(fqid, actor));
      hide Apply;
      var p := new GroupJoinPolicy(mode, "", None, t);
      out := p.Approve(fqid, actor);
      Save(gid, p.rows);
    }

    /** Answers a challenge. */
    method Answered(gid: string, challenge: string, answer: string, now: real) returns (ok: bool)
      requires Valid() && Slice(gid).handle.Some?
      modifies this
      ensures Valid() && Only(gid)
      ensures var c := old(Slice(gid)).captcha;
              Slice(gid) == old(Slice(gid)).(captcha := GroupCaptcha.VerifySpec(c, challenge, hash(answer), now))
              && (ok <==> GroupCaptcha.Judge(c, challenge, hash(answer), now) == GroupCaptcha.Passed)
    {
      var c := new GroupCaptcha.Captcha(GroupCaptcha.DEFAULT_TTL, GroupCaptcha.DEFAULT_MAX_ATTEMPTS,
                                        hash, Slice(gid).captcha);
      ok := c.Verify(challenge, answer, now);
      Put(gid, Slice(gid).(captcha := c.rows));
    }

    method InviteMember(gid: string, fqid: string, actor: Option<string>) returns (r: Reply)
      requires Valid()
      modifies this
      ensures Valid() && Only(gid)
      ensures (Slice(gid), r) == Step(old(Slice(gid)), InviteTo(fqid, actor))
    {
      var t := Policy(gid);
      var p := new GroupJoinPolicy(Slice(gid).handle.value.mode, "", None, t);
      ApplyKeepsRolesMatch(t, p.mode, None, Invite(fqid, actor));
      var out := p.Invite(fqid, actor);
      Save(gid, p.rows);
      return ReplyOf(out);
    }

    method SeatMember(gid: string, fqid: string, role: Role)
      requires Valid()
      modifies this
      ensures Valid() && Only(gid)
      ensures Slice(gid) == Step(old(Slice(gid)), Seat(fqid, role)).0
    {
      var t := Policy(gid);
      AddTo(gid, fqid, role, t);
    }

    method BlockMember(gid: string, fqid: string, actor: string) returns (r: Reply)
      requires Valid()
      modifies this
      ensures Valid() && Only(gid)
      ensures (Slice(gid), r) == Step(old(Slice(gid)), BlockAll(fqid, actor))
    {
      var t := Policy(gid);
      var p := new GroupJoinPolicy(Slice(gid).handle.value.mode, "", None, t);
      ApplyKeepsRolesMatch(t, p.mode, None, BlockForAll(fqid, Some(actor)));
      var out := p.BlockForAll(fqid, Some(actor));
      Save(gid, p.rows);
      return if out == PermissionError then Refused else Ack;
    }
  }

  // ----- Runs of one group -----

  /** The group after the first `n` calls of a run. */
  function After(g: Group, ops: seq<Op>, n: nat): Group
    requires n <= |ops|
  {
    if n == 0 then g else Step(After(g, ops, n - 1), ops[n - 1]).0
  }

  lemma OpenedInv(g: Group)
    requires Inv(g)
    ensures Inv(Opened(g)) && RolesMatch(View(g))
    ensures Opened(g).captcha == g.captcha && Opened(g).handle == Some(Cfg(g))
  {
    ApplyKeepsRolesMatch(g.disk, InviteOnly, None, Seed(Cfg(g).owner));
    ApplyKeepsRolesMatch(map[], InviteOnly, None, Seed(Cfg(g).owner));
  }

  /** A call other than a reconfiguration or a restart acts on the open policy. */
  lemma StepActs(g: Group, op: Op)
    requires Inv(g) && !op.Configure? && !op.RestartNode?
    ensures var (s, reply) := Step(g, op);
            var t, cfg := View(g), Cfg(g);
            && Cfg(s) == cfg && s.handle == Some(cfg)
            && View(s) == ActTable(t, cfg, g.captcha, op)
            && s.captcha == ActCaptcha(t, cfg, g.captcha, op)
            && reply == ActReply(t, cfg, g.captcha, op)
            && (cfg.persisted ==> s.disk == View(s)) && (!cfg.persisted ==> s.disk == g.disk)
  {
    OpenedInv(g);
    hide ActTable, ActCaptcha, ActReply, Seeded;
  }

  lemma ActKeepsRolesMatch(t: Table, cfg: Config, c: GroupCaptcha.Store, op: Op)
    requires RolesMatch(t)
    ensures RolesMatch(ActTable(t, cfg, c, op))
  {
    var call := PolicyCall(t, cfg, c, op);
    if call.Some? { ApplyKeepsRolesMatch(t, cfg.mode, None, call.value); }
  }

  lemma StepKeepsInv(g: Group, op: Op)
    requires Inv(g)
    ensures Inv(Step(g, op).0)
  {
    OpenedInv(g);
    if !op.Configure? && !op.RestartNode? {
      ActKeepsRolesMatch(View(g), Opened(g).handle.value, g.captcha, op);
    }
  }

  /** In every run a role is stored exactly for members. */
  lemma {:induction false} RolesMatchAlways(g: Group, ops: seq<Op>, n: nat)
    requires Inv(g) && n <= |ops|
    ensures Inv(After(g, ops, n))
  {
    if n > 0 {
      RolesMatchAlways(g, ops, n - 1);
      StepKeepsInv(After(g, ops, n - 1), ops[n - 1]);
    }
  }

  /** The calls that lift a block at the gate: seating the member directly, or reopening the
      group over a table that does not hold the block or whose owner is the blocked member. */
  predicate LiftsBlock(g: Group, op: Op, f: string) {
    match op
    case Seat(x, _) => x == f
    case Configure(cfg) => !cfg.persisted || !Has(g.disk, f, Blocked) || (cfg.owner == f && f != "")
    case RestartNode => !Has(g.disk, f, Blocked)
    case _ => false
  }

  lemma ActKeepsBlock(t: Table, cfg: Config, c: GroupCaptcha.Store, op: Op, f: string)
    requires RolesMatch(t) && Has(t, f, Blocked)
    ensures Has(ActTable(t, cfg, c, op), f, Blocked) <==> !(op.Seat? && op.fqid == f)
  {
  }

  lemma BlockLiftedAtGateIff(g: Group, op: Op, f: string)
    requires Inv(g) && Has(View(g), f, Blocked)
    ensures !Has(View(Step(g, op).0), f, Blocked) <==> LiftsBlock(g, op, f)
  {
    OpenedInv(g);
    if !op.Configure? && !op.RestartNode? {
      ActKeepsBlock(View(g), Opened(g).handle.value, g.captcha, op, f);
    }
  }

  /** The calls that leave a peer blocked whatever it was: a moderator's block, and reopening the
      group over a table that holds the block and does not seed the peer as owner. */
  predicate Imposes(g: Group, op: Op, f: string) {
    match op
    case BlockAll(x, moderator) => x == f && CanModerate(View(g), Some(moderator))
    case Configure(cfg) => cfg.persisted && Has(g.disk, f, Blocked) && !(cfg.owner == f && f != "")
    case RestartNode => Has(g.disk, f, Blocked)
    case _ => false
  }

  /** After a moderator's block at the gate the peer is blocked and no other row has changed; anyone
      else's block is refused and changes nothing. */
  lemma BlockBlocksAtGate(g: Group, f: string, moderator: string)
    requires Inv(g)
    ensures var (s, reply) := Step(g, BlockAll(f, moderator));
            if CanModerate(View(g), Some(moderator)) then
              reply == Ack && View(s) == View(g)[f := Row(None, Blocked)] && Has(View(s), f, Blocked)
            else reply == Refused && View(s) == View(g)
  {
    StepActs(g, BlockAll(f, moderator));
    hide View, Step, CanModerate;
  }

  lemma ActBlocks(t: Table, cfg: Config, c: GroupCaptcha.Store, op: Op, f: string)
    requires RolesMatch(t)
    ensures Has(ActTable(t, cfg, c, op), f, Blocked) <==>
            || (op.BlockAll? && op.fqid == f && CanModerate(t, Some(op.moderator)))
            || (Has(t, f, Blocked) && !(op.Seat? && op.fqid == f))
  {
    var call := PolicyCall(t, cfg, c, op);
    if call.Some? { StandingIff(t, cfg.mode, None, call.value); }
    hide CanModerate, CaptchaPasses;
  }

  lemma ReopenBlocks(g: Group, op: Op, f: string)
    requires Inv(g) && (op.Configure? || op.RestartNode?)
    ensures Has(View(Step(g, op).0), f, Blocked) <==> Imposes(g, op, f)
    ensures Imposes(g, op, f) <==> !LiftsBlock(g, op, f)
  {
  }

  /** One gate call leaves a peer blocked exactly when it imposes the block or finds it and does not
      lift it. */
  lemma BlockedNextIff(g: Group, op: Op, f: string)
    requires Inv(g)
    ensures Has(View(Step(g, op).0), f, Blocked) <==>
            Imposes(g, op, f) || (Has(View(g), f, Blocked) && !LiftsBlock(g, op, f))
  {
    if op.Configure? || op.RestartNode? {
      ReopenBlocks(g, op, f);
    } else {
      OpenedInv(g);
      StepActs(g, op);
      hide View, Step, Has, ActTable, CanModerate;
      ActBlocks(View(g), Cfg(g), g.captcha, op, f);
    }
  }

  /** Some call imposed a block, and none since has lifted it. */
  ghost predicate StandsBlocked(g: Group, ops: seq<Op>, n: nat, f: string)
    requires n <= |ops|
  {
    || (Has(View(g), f, Blocked) && forall k :: 0 <= k < n ==> !LiftsBlock(After(g, ops, k), ops[k], f))
    || exists i :: 0 <= i < n && Imposes(After(g, ops, i), ops[i], f)
                   && forall k :: i < k < n ==> !LiftsBlock(After(g, ops, k), ops[k], f)
  }

  /** In every run of every group, reopenings included, a peer is blocked exactly when it was at the
      start or a call imposed a block on it, and no later call has lifted it. */
  lemma {:induction false} BlockedIff(g: Group, ops: seq<Op>, n: nat, f: string)
    requires Inv(g) && n <= |ops|
    ensures Has(View(After(g, ops, n)), f, Blocked) <==> StandsBlocked(g, ops, n, f)
  {
    hide View, Step, Has, LiftsBlock, Imposes, Inv, StandsBlocked;
    if n == 0 {
      BlockedAtStart(g, ops, f);
    } else {
      BlockedIff(g, ops, n - 1, f);
      RolesMatchAlways(g, ops, n - 1);
      BlockedNextIff(After(g, ops, n - 1), ops[n - 1], f);
      StandsBlockedNext(g, ops, n - 1, f);
    }
  }

  lemma BlockedAtStart(g: Group, ops: seq<Op>, f: string)
    ensures StandsBlocked(g, ops, 0, f) <==> Has(View(g), f, Blocked)
  {
    hide View, Has;
  }

  lemma StandsBlockedNext(g: Group, ops: seq<Op>, n: nat, f: string)
    requires n < |ops|
    ensures StandsBlocked(g, ops, n + 1, f) <==>
            || Imposes(After(g, ops, n), ops[n], f)
            || (StandsBlocked(g, ops, n, f) && !LiftsBlock(After(g, ops, n), ops[n], f))
  {
    hide View, Has, LiftsBlock, Imposes, After;
    var m := n + 1;
    if StandsBlocked(g, ops, n, f) && !LiftsBlock(After(g, ops, n), ops[n], f) {
      if i :| 0 <= i < n && Imposes(After(g, ops, i), ops[i], f)
              && forall k :: i < k < n ==> !LiftsBlock(After(g, ops, k), ops[k], f) {
        assert forall k :: i < k < m ==> !LiftsBlock(After(g, ops, k), ops[k], f);
      }
    }
  }

  ghost predicate BlockedThrough(g: Group, ops: seq<Op>, n: nat, f: string)
    requires n <= |ops|
  {
    forall k :: 0 <= k <= n ==> Has(View(After(g, ops, k)), f, Blocked)
  }

  /** In every run of every group, persisted or not, a block stands exactly until one of those
      calls: no other join, admission, invitation, seating or block, in any mode and with any
      live challenge, lifts it. */
  lemma {:induction false} BlockStandsIff(g: Group, ops: seq<Op>, n: nat, f: string)
    requires Inv(g) && n <= |ops| && Has(View(g), f, Blocked)
    ensures BlockedThrough(g, ops, n, f) <==> forall i :: 0 <= i < n ==> !LiftsBlock(After(g, ops, i), ops[i], f)
  {
    hide View, Step, LiftsBlock, Inv, Has;
    if n > 0 {
      BlockStandsIff(g, ops, n - 1, f);
      RolesMatchAlways(g, ops, n - 1);
      if BlockedThrough(g, ops, n - 1, f) {
        BlockLiftedAtGateIff(After(g, ops, n - 1), ops[n - 1], f);
        assert BlockedThrough(g, ops, n, f) <==> Has(View(After(g, ops, n)), f, Blocked);
      }
    }
  }

  /** While the node neither restarts nor reconfigures the group, only a direct seating lifts a
      block. */
  lemma BlockedWhileOpen(g: Group, ops: seq<Op>, n: nat, f: string)
    requires Inv(g) && n <= |ops| && Has(View(g), f, Blocked)
    requires forall i :: 0 <= i < n ==> !ops[i].Configure? && !ops[i].RestartNode? && !(ops[i].Seat? && ops[i].fqid == f)
    ensures BlockedThrough(g, ops, n, f)
  {
    BlockStandsIff(g, ops, n, f);
  }

  // ----- Owners -----

  /** The calls that end an ownership at the gate: a seating in another role, an admission by a
      moderator or on a passed captcha, a moderator's block, and reopening the group over a table
      where the owner is not one and is not seeded. */
  predicate EndsOwnership(g: Group, op: Op, f: string) {
    match op
    case Seat(x, role) => x == f && role != Owner
    case BlockAll(x, moderator) => x == f && CanModerate(View(g), Some(moderator))
    case Admit(x, actor, challenge, _, _) =>
      x == f && (if challenge.Some? then CaptchaPasses(g.captcha, op) else CanModerate(View(g), actor))
    case Configure(cfg) =>
      !(cfg.persisted && IsOwner(g.disk, f))
      && !(cfg.owner == f && f != "" && (cfg.persisted ==> StoredRole(g.disk, f) == None))
    case RestartNode => !IsOwner(g.disk, f)
    case _ => false
  }

  lemma ActEndsOwnership(t: Table, cfg: Config, c: GroupCaptcha.Store, op: Op, f: string)
    requires RolesMatch(t) && IsOwner(t, f)
    ensures !IsOwner(ActTable(t, cfg, c, op), f) <==>
            || (op.Seat? && op.fqid == f && op.role != Owner)
            || (op.BlockAll? && op.fqid == f && CanModerate(t, Some(op.moderator)))
            || (op.Admit? && op.fqid == f && (if op.challenge.Some? then CaptchaPasses(c, op) else CanModerate(t, op.actor)))
  {
    var call := PolicyCall(t, cfg, c, op);
    if call.Some? { OwnerLostIff(t, cfg.mode, None, call.value, f); }
  }

  lemma OwnerLostAtGateIff(g: Group, op: Op, f: string)
    requires Inv(g) && IsOwner(View(g), f)
    ensures !IsOwner(View(Step(g, op).0), f) <==> EndsOwnership(g, op, f)
  {
    OpenedInv(g);
    if op.Configure? || op.RestartNode? {
      ReopenEndsOwnership(g, op, f);
    } else {
      StepActs(g, op);
      hide Step, View, ActTable, IsOwner, CanModerate, CaptchaPasses;
      ActEndsOwnership(View(g), Cfg(g), g.captcha, op, f);
    }
  }

  lemma ReopenEndsOwnership(g: Group, op: Op, f: string)
    requires Inv(g) && (op.Configure? || op.RestartNode?)
    ensures !IsOwner(View(Step(g, op).0), f) <==> EndsOwnership(g, op, f)
  {
  }

  ghost predicate OwnsThrough(g: Group, ops: seq<Op>, n: nat, f: string)
    requires n <= |ops|
  {
    forall k :: 0 <= k <= n ==> IsOwner(View(After(g, ops, k)), f)
  }

  /** In every run of every group an owner stays one exactly until one of those calls. */
  lemma {:induction false} OwnerKeptIff(g: Group, ops: seq<Op>, n: nat, f: string)
    requires Inv(g) && n <= |ops| && IsOwner(View(g), f)
    ensures OwnsThrough(g, ops, n, f) <==> forall i :: 0 <= i < n ==> !EndsOwnership(After(g, ops, i), ops[i], f)
  {
    hide View, Step, EndsOwnership, Inv, IsOwner;
    if n > 0 {
      OwnerKeptIff(g, ops, n - 1, f);
      RolesMatchAlways(g, ops, n - 1);
      if OwnsThrough(g, ops, n - 1, f) {
        OwnerLostAtGateIff(After(g, ops, n - 1), ops[n - 1], f);
        assert OwnsThrough(g, ops, n, f) <==> IsOwner(View(After(g, ops, n)), f);
      }
    }
  }

  // ----- Persisted groups -----

  /** A configuration that reads the stored table and does not re-seat `f` as its owner. */
  predicate KeepsBlock(cfg: Config, f: string) {
    cfg.persisted && !(cfg.owner == f && f != "")
  }

  /** A group configured as persisted and reconfigured only that way, without the blocked
      member as owner, keeps the block through every run without a direct seating: no mode,
      no live challenge, no moderator and no restart readmits it. */
  lemma {:induction false} BlockedIsAbsorbing(g: Group, ops: seq<Op>, n: nat, f: string)
    requires Inv(g) && n <= |ops| && Has(g.disk, f, Blocked)
    requires KeepsBlock(Cfg(g), f)
    requires forall op :: op in ops ==> !(op.Seat? && op.fqid == f)
    requires forall op :: op in ops && op.Configure? ==> KeepsBlock(op.config, f)
    ensures Has(After(g, ops, n).disk, f, Blocked) && Has(View(After(g, ops, n)), f, Blocked)
    ensures KeepsBlock(Cfg(After(g, ops, n)), f)
  {
    hide Step, View, KeepsBlock, Inv, Has;
    if n > 0 {
      BlockedIsAbsorbing(g, ops, n - 1, f);
      RolesMatchAlways(g, ops, n - 1);
      assert ops[n - 1] in ops;
      BlockAbsorbs(After(g, ops, n - 1), ops[n - 1], f);
    }
    RolesMatchAlways(g, ops, n);
    DiskInView(After(g, ops, n), f);
  }

  lemma DiskInView(g: Group, f: string)
    requires Inv(g) && Has(g.disk, f, Blocked) && KeepsBlock(Cfg(g), f)
    ensures Has(View(g), f, Blocked)
  {
  }

  lemma BlockAbsorbs(g: Group, op: Op, f: string)
    requires Inv(g) && Has(g.disk, f, Blocked) && KeepsBlock(Cfg(g), f)
    requires !(op.Seat? && op.fqid == f) && (op.Configure? ==> KeepsBlock(op.config, f))
    ensures Has(Step(g, op).0.disk, f, Blocked) && KeepsBlock(Cfg(Step(g, op).0), f)
  {
    OpenedInv(g);
    DiskInView(g, f);
    if !op.Configure? && !op.RestartNode? {
      StepActs(g, op);
      hide Step, View, ActTable, Has;
      ActKeepsBlock(View(g), Cfg(g), g.captcha, op, f);
    }
  }

  /** A blocked peer's challenge is neither honoured nor consumed. */
  lemma BlockedPeerKeepsOut(g: Group, f: string, actor: Option<string>, challenge: Option<string>, h: string, now: real)
    requires Inv(g) && Has(View(g), f, Blocked)
    ensures Step(g, Admit(f, actor, challenge, h, now)) == (Opened(g), Joined(Blocked, None))
    ensures Opened(g).captcha == g.captcha
  {
    OpenedInv(g);
  }

  /** A captcha admits exactly on a passing answer by someone not blocked. The mode, the
      joiner's standing and the joiner the challenge was issued to play no part. */
  lemma CaptchaAdmitsIff(g: Group, f: string, actor: Option<string>, id: string, h: string, now: real)
    requires Inv(g)
    ensures var r := Step(g, Admit(f, actor, Some(id), h, now));
            (r.1 == Joined(Member, None) <==>
             !Has(View(g), f, Blocked) && GroupCaptcha.Judge(g.captcha, id, h, now) == GroupCaptcha.Passed)
            && (r.1 == Joined(Member, None) <==>
                !Has(View(g), f, Blocked) && GroupCaptcha.RightAnswer(g.captcha, id, h, now))
            && (r.1 == Joined(Member, None) ==>
                View(r.0) == View(g)[f := Row(Some(Plain), Member)] && id !in r.0.captcha)
  {
    OpenedInv(g);
  }

  // ----- Where memberships come from -----

  function TableOf(g: Group, persisted: bool): Table {
    if persisted then g.disk else g.memory
  }

  /** A call on an open table makes `f` a member with role `r`, and rightly so. */
  predicate ActGrants(t: Table, cfg: Config, c: GroupCaptcha.Store, op: Op, f: string, r: Role) {
    match op
    case Seat(x, role) => x == f && role == r
    case Join(x, _, _, _) =>
      && x == f && r == Plain && !Has(t, f, Blocked)
      && (if cfg.mode == InviteOnly then Has(t, f, Invited) else cfg.mode == Open && !cfg.requireCaptcha)
    case Admit(x, actor, challenge, h, now) =>
      && x == f && r == Plain && !Has(t, f, Blocked)
      && (if challenge.Some? then CaptchaPasses(c, op) else CanModerate(t, actor))
    case _ => false
  }

  /** Call `op` on `g` gives `f` role `r` in the persisted (or in-memory) table. */
  predicate Grants(g: Group, op: Op, persisted: bool, f: string, r: Role) {
    && !op.Configure? && !op.RestartNode?
    && Opened(g).handle.value.persisted == persisted
    && (SeedsOwner(g, f, r) || ActGrants(View(g), Opened(g).handle.value, g.captcha, op, f, r))
  }

  /** First use of a group opens its table and seats the configured owner. */
  predicate SeedsOwner(g: Group, f: string, r: Role) {
    r == Owner && g.handle.None? && Cfg(g).owner == f && f != ""
  }

  predicate Is(t: Table, f: string, r: Role) {
    f in t && t[f] == Row(Some(r), Member)
  }

  predicate Holds(g: Group, persisted: bool, f: string, r: Role) {
    Is(TableOf(g, persisted), f, r)
  }

  lemma NewMemberIsGranted(g: Group, op: Op, persisted: bool, f: string, r: Role)
    requires Inv(g) && Holds(Step(g, op).0, persisted, f, r) && !Holds(g, persisted, f, r)
    ensures Grants(g, op, persisted, f, r)
  {
    OpenedInv(g);
    if !op.Configure? && !op.RestartNode? {
      var o := Opened(g);
      assert Holds(o, persisted, f, r) ==> SeedsOwner(g, f, r);
      if !Is(View(g), f, r) {
        ActGrantsNewMember(View(g), o.handle.value, g.captcha, op, f, r);
      }
    }
  }

  lemma ActGrantsNewMember(t: Table, cfg: Config, c: GroupCaptcha.Store, op: Op, f: string, r: Role)
    requires RolesMatch(t)
    requires Is(ActTable(t, cfg, c, op), f, r) && !Is(t, f, r)
    ensures ActGrants(t, cfg, c, op, f, r)
  {
  }

  /** A call makes a non-member a member exactly when it grants, and with the role granted. */
  lemma AdmitsExactlyWhenGranted(g: Group, op: Op, f: string, r: Role)
    requires Inv(g) && !op.Configure? && !op.RestartNode? && !Has(View(g), f, Member)
    ensures Is(View(Step(g, op).0), f, r) <==> ActGrants(View(g), Opened(g).handle.value, g.captcha, op, f, r)
  {
    OpenedInv(g);
    ActAdmits(View(g), Opened(g).handle.value, g.captcha, op, f, r);
  }

  lemma ActAdmits(t: Table, cfg: Config, c: GroupCaptcha.Store, op: Op, f: string, r: Role)
    requires RolesMatch(t) && !Has(t, f, Member)
    ensures Is(ActTable(t, cfg, c, op), f, r) <==> ActGrants(t, cfg, c, op, f, r)
  {
  }

  /** Every membership, with its role, goes back to a call that granted it and has stood ever
      since: owners and moderators to owner seeding or a direct seating, plain members to a
      seating, an accepted invitation, an uncaptchaed open join, an approval by someone who was
      a moderator at that step, or a passed captcha. */
  lemma {:induction false} MembershipProvenance(ops: seq<Op>, n: nat, persisted: bool, f: string, r: Role)
    returns (i: nat)
    requires n <= |ops| && Holds(After(UNKNOWN_GROUP, ops, n), persisted, f, r)
    ensures i < n && Grants(After(UNKNOWN_GROUP, ops, i), ops[i], persisted, f, r)
    ensures forall k :: i < k <= n ==> Holds(After(UNKNOWN_GROUP, ops, k), persisted, f, r)
  {
    hide Step, Grants, Holds;
    assert n > 0 by { NoneHeld(persisted, f, r); }
    RolesMatchAlways(UNKNOWN_GROUP, ops, n - 1);
    if Holds(After(UNKNOWN_GROUP, ops, n - 1), persisted, f, r) {
      i := MembershipProvenance(ops, n - 1, persisted, f, r);
    } else {
      i := n - 1;
      NewMemberIsGranted(After(UNKNOWN_GROUP, ops, n - 1), ops[n - 1], persisted, f, r);
    }
  }

  lemma NoneHeld(persisted: bool, f: string, r: Role)
    ensures !Holds(UNKNOWN_GROUP, persisted, f, r)
  {
  }

  predicate Invites(g: Group, op: Op, persisted: bool, f: string) {
    && op.InviteTo? && op.fqid == f
    && Opened(g).handle.value.persisted == persisted
    && (op.actor == None || CanModerate(View(g), op.actor))
  }

  /** A standing invitation goes back to an invite call by no one in particular or by someone
      who was a moderator at that step. */
  lemma {:induction false} InvitationProvenance(ops: seq<Op>, n: nat, persisted: bool, f: string)
    returns (i: nat)
    requires n <= |ops| && Has(TableOf(After(UNKNOWN_GROUP, ops, n), persisted), f, Invited)
    ensures i < n && Invites(After(UNKNOWN_GROUP, ops, i), ops[i], persisted, f)
    ensures forall k :: i < k <= n ==> Has(TableOf(After(UNKNOWN_GROUP, ops, k), persisted), f, Invited)
  {
    var g := After(UNKNOWN_GROUP, ops, n - 1);
    if Has(TableOf(g, persisted), f, Invited) {
      i := InvitationProvenance(ops, n - 1, persisted, f);
    } else {
      i := n - 1;
      RolesMatchAlways(UNKNOWN_GROUP, ops, i);
      StepInvites(g, ops[i], persisted, f);
    }
  }

  lemma StepInvites(g: Group, op: Op, persisted: bool, f: string)
    requires Inv(g) && !Has(TableOf(g, persisted), f, Invited) && Has(TableOf(Step(g, op).0, persisted), f, Invited)
    ensures Invites(g, op, persisted, f)
  {
    OpenedInv(g);
    if !op.Configure? && !op.RestartNode? {
      assert !Has(TableOf(Opened(g), persisted), f, Invited);
      ActInvites(View(g), Opened(g).handle.value, g.captcha, op, f);
    }
  }

  lemma ActInvites(t: Table, cfg: Config, c: GroupCaptcha.Store, op: Op, f: string)
    requires !Has(t, f, Invited)
    ensures Has(ActTable(t, cfg, c, op), f, Invited) ==>
              op.InviteTo? && op.fqid == f && (op.actor == None || CanModerate(t, op.actor))
  {
  }

  /** No join and no admission yields a role above plain member. */
  lemma JoinsNeverPromote(g: Group, op: Op, f: string)
    requires Inv(g) && (op.Join? || op.Admit?)
    ensures var r := RoleOf(View(Step(g, op).0), f);
            r == RoleOf(View(g), f) || (op.fqid == f && r == Some(Plain))
  {
    OpenedInv(g);
    ActNeverPromotes(View(g), Opened(g).handle.value, g.captcha, op, f);
  }

  lemma ActNeverPromotes(t: Table, cfg: Config, c: GroupCaptcha.Store, op: Op, f: string)
    requires RolesMatch(t) && (op.Join? || op.Admit?)
    ensures var r := RoleOf(ActTable(t, cfg, c, op), f);
            r == RoleOf(t, f) || (op.fqid == f && r == Some(Plain))
  {
  }

  // ----- Captcha admissions -----

  /** The captcha-store call a gate call makes, if any. */
  function CaptchaCalls(g: Group, op: Op): seq<GroupCaptcha.Op> {
    match op
    case Join(f, id, h, now) =>
      if Challenged(View(g), Cfg(g), f)
      then [GroupCaptcha.Generate(id, h, GroupCaptcha.DEFAULT_MAX_ATTEMPTS, GroupCaptcha.DEFAULT_TTL, now)]
      else []
    case Admit(f, _, challenge, h, now) =>
      if challenge.Some? && !Has(View(g), f, Blocked)
      then [GroupCaptcha.Verify(challenge.value, h, now)]
      else []
    case _ => []
  }

  function CaptchaTrace(ops: seq<Op>, n: nat): seq<GroupCaptcha.Op>
    requires n <= |ops|
  {
    if n == 0 then [] else CaptchaTrace(ops, n - 1) + CaptchaCalls(After(UNKNOWN_GROUP, ops, n - 1), ops[n - 1])
  }

  /** Challenges the gate issued and members it admitted on a captcha in the first `n` calls. */
  function Issued(ops: seq<Op>, n: nat): nat
    requires n <= |ops|
  {
    if n == 0 then 0
    else
      var op := ops[n - 1];
      Issued(ops, n - 1) + if IssuesChallenge(After(UNKNOWN_GROUP, ops, n - 1), op) then 1 else 0
  }

  function CaptchaAdmissions(ops: seq<Op>, n: nat): nat
    requires n <= |ops|
  {
    if n == 0 then 0
    else
      var op := ops[n - 1];
      CaptchaAdmissions(ops, n - 1) + if AdmitsOnCaptcha(After(UNKNOWN_GROUP, ops, n - 1), op) then 1 else 0
  }

  predicate IssuesChallenge(g: Group, op: Op) {
    op.Join? && Step(g, op).1 == Joined(Pending, Some(op.id))
  }

  predicate AdmitsOnCaptcha(g: Group, op: Op) {
    op.Admit? && op.challenge.Some? && Step(g, op).1 == Joined(Member, None)
  }

  /** One gate call seen from its captcha store. */
  lemma CaptchaCallMatches(g: Group, op: Op)
    requires Inv(g)
    ensures var calls := CaptchaCalls(g, op);
            && |calls| <= 1
            && Step(g, op).0.captcha == (if calls == [] then g.captcha else GroupCaptcha.Step(g.captcha, calls[0]))
            && (IssuesChallenge(g, op) <==> calls != [] && calls[0].Generate?)
            && (AdmitsOnCaptcha(g, op) <==>
                calls != [] && calls[0].Verify?
                && GroupCaptcha.Judge(g.captcha, calls[0].id, calls[0].answerHash, calls[0].now) == GroupCaptcha.Passed)
  {
    OpenedInv(g);
  }

  /** The captcha store after `n` calls, and both counts, are those of the captcha calls made. */
  ghost predicate TraceMatches(ops: seq<Op>, n: nat)
    requires n <= |ops|
  {
    && After(UNKNOWN_GROUP, ops, n).captcha == GroupCaptcha.After(CaptchaTrace(ops, n))
    && Issued(ops, n) == GroupCaptcha.Tally(CaptchaTrace(ops, n)).issued
    && CaptchaAdmissions(ops, n) == GroupCaptcha.Tally(CaptchaTrace(ops, n)).passed
  }

  lemma {:induction false} CaptchaTraceMatches(ops: seq<Op>, n: nat)
    requires n <= |ops|
    ensures TraceMatches(ops, n)
  {
    hide TraceMatches;
    if n == 0 {
      TraceMatchesStart(ops);
    } else {
      CaptchaTraceMatches(ops, n - 1);
      TraceMatchesNext(ops, n - 1);
    }
  }

  lemma TraceMatchesStart(ops: seq<Op>)
    ensures TraceMatches(ops, 0)
  {
  }

  lemma TraceMatchesNext(ops: seq<Op>, n: nat)
    requires n < |ops| && TraceMatches(ops, n)
    ensures TraceMatches(ops, n + 1)
  {
    RolesMatchAlways(UNKNOWN_GROUP, ops, n);
    RunNext(ops, n);
    hide Step, CaptchaCalls, IssuesChallenge, AdmitsOnCaptcha, After, CaptchaTrace, Issued, CaptchaAdmissions,
      Inv, GroupCaptcha.After, GroupCaptcha.Tally, GroupCaptcha.Step, GroupCaptcha.Judge;
    var g := After(UNKNOWN_GROUP, ops, n);
    var call := CaptchaCalls(g, ops[n]);
    CaptchaCallMatches(g, ops[n]);
    TraceExtended(CaptchaTrace(ops, n), call, g.captcha, After(UNKNOWN_GROUP, ops, n + 1).captcha,
                  IssuesChallenge(g, ops[n]), AdmitsOnCaptcha(g, ops[n]));
  }

  lemma RunNext(ops: seq<Op>, n: nat)
    requires n < |ops|
    ensures var g := After(UNKNOWN_GROUP, ops, n);
            && After(UNKNOWN_GROUP, ops, n + 1) == Step(g, ops[n]).0
            && CaptchaTrace(ops, n + 1) == CaptchaTrace(ops, n) + CaptchaCalls(g, ops[n])
            && Issued(ops, n + 1) == Issued(ops, n) + (if IssuesChallenge(g, ops[n]) then 1 else 0)
            && CaptchaAdmissions(ops, n + 1) == CaptchaAdmissions(ops, n) + (if AdmitsOnCaptcha(g, ops[n]) then 1 else 0)
  {
    hide Step, CaptchaCalls, IssuesChallenge, AdmitsOnCaptcha;
  }

  lemma TraceExtended(front: seq<GroupCaptcha.Op>, call: seq<GroupCaptcha.Op>, s: GroupCaptcha.Store,
                      s': GroupCaptcha.Store, issues: bool, admits: bool)
    requires |call| <= 1 && s == GroupCaptcha.After(front)
    requires s' == if call == [] then s else GroupCaptcha.Step(s, call[0])
    requires issues <==> call != [] && call[0].Generate?
    requires admits <==> call != [] && call[0].Verify?
                         && GroupCaptcha.Judge(s, call[0].id, call[0].answerHash, call[0].now) == GroupCaptcha.Passed
    ensures s' == GroupCaptcha.After(front + call)
    ensures GroupCaptcha.Tally(front + call).issued == GroupCaptcha.Tally(front).issued + if issues then 1 else 0
    ensures GroupCaptcha.Tally(front + call).passed == GroupCaptcha.Tally(front).passed + if admits then 1 else 0
  {
    if call == [] {
      assert front + call == front;
    } else {
      assert (front + call)[..|front|] == front;
    }
  }

  /** In every run of a group an answer admits exactly when its peer is not blocked and the last
      challenge issued under the id was for this answer, came less than its ttl ago, and was met since
      by wrong guesses in time alone, fewer than it grants. */
  lemma AnswerAdmitsIff(ops: seq<Op>, n: nat)
    requires n < |ops| && ops[n].Admit? && ops[n].challenge.Some?
    ensures var g := After(UNKNOWN_GROUP, ops, n);
            Step(g, ops[n]).1 == Joined(Member, None) <==>
            !Has(View(g), ops[n].fqid, Blocked)
            && GroupCaptcha.Answered(CaptchaTrace(ops, n), ops[n].challenge.value, ops[n].answerHash, ops[n].now)
  {
    var g := After(UNKNOWN_GROUP, ops, n);
    RolesMatchAlways(UNKNOWN_GROUP, ops, n);
    CaptchaTraceMatches(ops, n);
    GroupCaptcha.PassedIff(CaptchaTrace(ops, n), ops[n].challenge.value, ops[n].answerHash, ops[n].now);
    CaptchaAdmitsIff(g, ops[n].fqid, ops[n].actor, ops[n].challenge.value, ops[n].answerHash, ops[n].now);
    hide After, Step, View, Has, CaptchaTrace, GroupCaptcha.Judge, GroupCaptcha.RightAnswer, GroupCaptcha.Answered,
      GroupCaptcha.After, Inv;
  }

  /** Every challenge of the trace was issued by a join, with that id and answer. */
  lemma {:induction false} IssuedByJoin(ops: seq<Op>, n: nat, k: nat) returns (i: nat)
    requires n <= |ops| && k < |CaptchaTrace(ops, n)| && CaptchaTrace(ops, n)[k].Generate?
    ensures i < n && IssuesChallenge(After(UNKNOWN_GROUP, ops, i), ops[i])
    ensures var call := CaptchaTrace(ops, n)[k];
            ops[i].id == call.id && ops[i].answerHash == call.answerHash && ops[i].now == call.now
            && call.ttl == GroupCaptcha.DEFAULT_TTL && call.maxAttempts == GroupCaptcha.DEFAULT_MAX_ATTEMPTS
  {
    hide Step, View, Challenged, IssuesChallenge;
    var front := CaptchaTrace(ops, n - 1);
    if k < |front| {
      i := IssuedByJoin(ops, n - 1, k);
    } else {
      i := n - 1;
      RolesMatchAlways(UNKNOWN_GROUP, ops, i);
      CaptchaCallMatches(After(UNKNOWN_GROUP, ops, i), ops[i]);
    }
  }

  /** A captcha admission was earned: some earlier join was given the challenge, less than the ttl
      before, and this is its answer. */
  lemma AdmissionWasEarned(ops: seq<Op>, n: nat) returns (i: nat)
    requires n < |ops| && AdmitsOnCaptcha(After(UNKNOWN_GROUP, ops, n), ops[n])
    ensures i < n && IssuesChallenge(After(UNKNOWN_GROUP, ops, i), ops[i])
    ensures Some(ops[i].id) == ops[n].challenge && ops[i].answerHash == ops[n].answerHash
    ensures ops[n].now < ops[i].now + GroupCaptcha.DEFAULT_TTL
  {
    AnswerAdmitsIff(ops, n);
    hide Step, View, IssuesChallenge, GroupCaptcha.CallsSince;
    var trace := CaptchaTrace(ops, n);
    var g :| 0 <= g < |trace| && GroupCaptcha.Stands(trace, g, ops[n].challenge.value)
             && trace[g].answerHash == ops[n].answerHash && ops[n].now < trace[g].now + trace[g].ttl;
    i := IssuedByJoin(ops, n, g);
  }

  /** What a join is answered, at the gate: a challenge exactly in an open group that asks for one,
      to a peer neither member nor blocked; and where it leaves the joiner. */
  lemma JoinRepliesIff(g: Group, f: string, id: string, h: string, now: real)
    requires Inv(g)
    ensures var (s, reply) := Step(g, Join(f, id, h, now));
            var t, cfg := View(g), Cfg(g);
            var free := !Has(t, f, Member) && !Has(t, f, Blocked);
            && (reply == Joined(Blocked, None) <==> Has(t, f, Blocked))
            && (reply == Joined(Member, None) <==>
                Has(t, f, Member)
                || (free && (if cfg.mode == InviteOnly then Has(t, f, Invited) else cfg.mode == Open && !cfg.requireCaptcha)))
            && (reply == Joined(Pending, Some(id)) <==> free && cfg.mode == Open && cfg.requireCaptcha)
            && (reply == Joined(Pending, None) <==> free && cfg.mode == Knock)
            && (reply == Joined(Denied, None) <==> free && cfg.mode == InviteOnly && !Has(t, f, Invited))
            && reply.Joined? && Has(View(s), f, reply.status)
  {
    StepActs(g, Join(f, id, h, now));
    hide View, Step;
  }

  /** A group nobody configured is strict: a stranger's join is denied, and after a restart every
      group is one whose configuration is not known. */
  lemma UnknownGroupIsStrict(f: string, id: string, h: string, now: real, g: Group)
    ensures Step(UNKNOWN_GROUP, Join(f, id, h, now)).1 == Joined(Denied, None)
    ensures var r := Step(g, RestartNode).0;
            r.config == None && r.handle == None && Cfg(r).mode == InviteOnly && Cfg(r).persisted && Cfg(r).owner == ""
            && r.disk == g.disk && r.captcha == g.captcha
  {
  }

  /** In every run of a group, over restarts and reconfigurations, captcha admissions plus the
      challenges still live never exceed the challenges issued. */
  lemma {:induction false} CaptchaAdmissionsBounded(ops: seq<Op>, n: nat)
    requires n <= |ops|
    ensures CaptchaAdmissions(ops, n) + |After(UNKNOWN_GROUP, ops, n).captcha| <= Issued(ops, n)
  {
    CaptchaTraceMatches(ops, n);
    GroupCaptcha.ChallengesConserved(CaptchaTrace(ops, n));
  }
}

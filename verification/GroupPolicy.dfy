/** Group-join consent of consent_groups.py: admission modes, roles and the membership table. */
module GroupPolicy {
  import opened Common

  datatype Mode = InviteOnly | Knock | Open
  datatype Role = Owner | Moderator | Plain
  datatype Status = Invited | Pending | Member | Denied | Blocked
  datatype Row = Row(role: Option<Role>, status: Status)
  type Table = map<string, Row>

  /** What a call reports: the joiner's status, nothing, or a refused moderator action. */
  datatype Outcome = Status(status: Status) | Done | PermissionError

  predicate Has(t: Table, fqid: string, status: Status) {
    fqid in t && t[fqid].status == status
  }

  /** The role stored for `fqid`, whatever its status. */
  function StoredRole(t: Table, fqid: string): Option<Role> {
    if fqid in t then t[fqid].role else None
  }

  function RoleOf(t: Table, fqid: string): Option<Role> {
    if Has(t, fqid, Member) then t[fqid].role else None
  }

  predicate CanModerate(t: Table, actor: Option<string>) {
    actor.Some? && RoleOf(t, actor.value) in {Some(Owner), Some(Moderator)}
  }

  datatype Op =
    | Seed(owner: string)
    | AddMember(fqid: string, role: Role)
    | Invite(fqid: string, actor: Option<string>)
    | RequestJoin(fqid: string, answer: Option<string>)
    | Approve(fqid: string, actor: Option<string>)
    | Deny(fqid: string, actor: Option<string>)
    | BlockForAll(fqid: string, actor: Option<string>)

  function Seeded(t: Table, owner: string): Table {
    if owner != "" && StoredRole(t, owner) == None then t[owner := Row(Some(Owner), Member)] else t
  }

  /** How one call changes the table, and what it reports. */
  function Apply(t: Table, mode: Mode, captcha: Option<string>, op: Op): (Table, Outcome) {
    match op
    case Seed(owner) => (Seeded(t, owner), Done)
    case AddMember(f, role) => (t[f := Row(Some(role), Member)], Done)
    case Invite(f, actor) =>
      if actor.Some? && !CanModerate(t, actor) then (t, PermissionError)
      else if Has(t, f, Member) || Has(t, f, Blocked) then (t, Done)
      else (t[f := Row(None, Invited)], Done)
    case RequestJoin(f, answer) =>
      if Has(t, f, Blocked) then (t, Status(Blocked))
      else if Has(t, f, Member) then (t, Status(Member))
      else if mode == InviteOnly && !Has(t, f, Invited) then (t[f := Row(None, Denied)], Status(Denied))
      else if mode == Knock || (mode == Open && captcha.Some? && answer != captcha)
      then (t[f := Row(None, Pending)], Status(Pending))
      else (t[f := Row(Some(Plain), Member)], Status(Member))
    case Approve(f, actor) =>
      if CanModerate(t, actor) then (t[f := Row(Some(Plain), Member)], Status(Member)) else (t, PermissionError)
    case Deny(f, actor) =>
      if actor.Some? && !CanModerate(t, actor) then (t, PermissionError) else (t[f := Row(None, Denied)], Status(Denied))
    case BlockForAll(f, actor) =>
      if CanModerate(t, actor) then (t[f := Row(None, Blocked)], Status(Blocked)) else (t, PermissionError)
  }

  class GroupJoinPolicy {
    const mode: Mode
    const captcha: Option<string>
    var rows: Table

    /** Opens the table (empty for a group that is not persisted) and seeds its owner. */
    constructor (mode: Mode, owner: string, captcha: Option<string>, stored: Table)
      ensures this.mode == mode && this.captcha == captcha
      ensures rows == Apply(stored, mode, captcha, Seed(owner)).0
    {
      this.mode := mode;
      this.captcha := captcha;
      rows := stored;
      new;
      if owner != "" {
        if StoredRole(rows, owner) == None {
          rows := rows[owner := Row(Some(Owner), Member)];
        }
      }
    }

    method Upsert(fqid: string, role: Option<Role>, status: Status)
      modifies this
      ensures rows == old(rows)[fqid := Row(role, status)]
    {
      rows := rows[fqid := Row(role, status)];
    }

    method AddMember(fqid: string, role: Role)
      modifies this
      ensures rows == Apply(old(rows), mode, captcha, Op.AddMember(fqid, role)).0
    {
      Upsert(fqid, Some(role), Member);
    }

    method Invite(fqid: string, actor: Option<string>) returns (r: Outcome)
      modifies this
      ensures (rows, r) == Apply(old(rows), mode, captcha, Op.Invite(fqid, actor))
    {
      if actor.Some? && !CanModerate(rows, actor) { return PermissionError; }
      if Has(rows, fqid, Member) || Has(rows, fqid, Blocked) { return Done; }
      Upsert(fqid, None, Invited);
      return Done;
    }

    method RequestJoin(fqid: string, answer: Option<string>) returns (r: Outcome)
      modifies this
      ensures (rows, r) == Apply(old(rows), mode, captcha, Op.RequestJoin(fqid, answer))
    {
      if Has(rows, fqid, Blocked) { return Status(Blocked); }
      if Has(rows, fqid, Member) { return Status(Member); }
      if mode == InviteOnly {
        if Has(rows, fqid, Invited) {
          Upsert(fqid, Some(Plain), Member);
          return Status(Member);
        }
        Upsert(fqid, None, Denied);
        return Status(Denied);
      }
      if mode == Open {
        if captcha.Some? && answer != captcha {
          Upsert(fqid, None, Pending);
          return Status(Pending);
        }
        Upsert(fqid, Some(Plain), Member);
        return Status(Member);
      }
      Upsert(fqid, None, Pending);
      return Status(Pending);
    }

    method Approve(fqid: string, actor: Option<string>) returns (r: Outcome)
      modifies this
      ensures (rows, r) == Apply(old(rows), mode, captcha, Op.Approve(fqid, actor))
    {
      if !CanModerate(rows, actor) { return PermissionError; }
      Upsert(fqid, Some(Plain), Member);
      return Status(Member);
    }

    method Deny(fqid: string, actor: Option<string>) returns (r: Outcome)
      modifies this
      ensures (rows, r) == Apply(old(rows), mode, captcha, Op.Deny(fqid, actor))
    {
      if actor.Some? && !CanModerate(rows, actor) { return PermissionError; }
      Upsert(fqid, None, Denied);
      return Status(Denied);
    }

    method BlockForAll(fqid: string, actor: Option<string>) returns (r: Outcome)
      modifies this
      ensures (rows, r) == Apply(old(rows), mode, captcha, Op.BlockForAll(fqid, actor))
    {
      if !CanModerate(rows, actor) { return PermissionError; }
      Upsert(fqid, None, Blocked);
      return Status(Blocked);
    }
  }

  /** A role is stored exactly for members. */
  ghost predicate RolesMatch(t: Table) {
    forall f :: f in t ==> (t[f].role.Some? <==> t[f].status == Member)
  }

  lemma ApplyKeepsRolesMatch(t: Table, mode: Mode, captcha: Option<string>, op: Op)
    requires RolesMatch(t)
    ensures RolesMatch(Apply(t, mode, captcha, op).0)
  {
  }

  /** A moderator is a member stored as owner or moderator; no one in particular is none. */
  lemma CanModerateIff(t: Table, actor: Option<string>)
    ensures CanModerate(t, actor) <==>
            actor.Some? && actor.value in t && t[actor.value].status == Member
            && (t[actor.value].role == Some(Owner) || t[actor.value].role == Some(Moderator))
  {
  }

  /** The peer a call is about. */
  function Subject(op: Op): string {
    match op case Seed(owner) => owner case _ => op.fqid
  }

  /** Where a call leaves the peer it is about, standing by standing, and that it changes the row of
      no one else. */
  lemma StandingIff(t: Table, mode: Mode, captcha: Option<string>, op: Op)
    requires RolesMatch(t)
    ensures var (t', f) := (Apply(t, mode, captcha, op).0, Subject(op));
            var free := !Has(t, f, Blocked) && !Has(t, f, Member);
            && (Has(t', f, Blocked) <==>
                if op.BlockForAll? && CanModerate(t, op.actor) then true
                else Has(t, f, Blocked)
                     && (op.Invite? || op.RequestJoin? || op.BlockForAll? || (op.Seed? && f == "")
                         || (op.Approve? && !CanModerate(t, op.actor))
                         || (op.Deny? && op.actor.Some? && !CanModerate(t, op.actor))))
            && (Has(t', f, Denied) <==>
                if op.Deny? && (op.actor == None || CanModerate(t, op.actor)) then true
                else if op.RequestJoin? && free then mode == InviteOnly && !Has(t, f, Invited)
                else t' == t && Has(t, f, Denied))
            && (Has(t', f, Invited) <==>
                if op.Invite? && (op.actor == None || CanModerate(t, op.actor)) && free then true
                else t' == t && Has(t, f, Invited))
            && (Has(t', f, Pending) <==>
                if op.RequestJoin? && free then mode == Knock || (mode == Open && captcha.Some? && op.answer != captcha)
                else t' == t && Has(t, f, Pending))
            && (Has(t', f, Member) <==>
                if op.AddMember? || (op.Approve? && CanModerate(t, op.actor)) then true
                else if op.Seed? && f != "" then true
                else if op.RequestJoin? && free then
                  (mode == InviteOnly && Has(t, f, Invited)) || (mode == Open && (captcha == None || op.answer == captcha))
                else t' == t && Has(t, f, Member))
            && (forall k :: k != f ==> (k in t' <==> k in t) && (k in t ==> t'[k] == t[k]))
  {
    hide CanModerate;
    if op.Seed? && StoredRole(t, op.owner).Some? { assert Has(t, op.owner, Member); }
  }

  /** A membership comes with the role seated, the owner's on seeding, and the plain one on every
      other way in; a call never changes the role of a member it lets be. */
  lemma RoleIff(t: Table, mode: Mode, captcha: Option<string>, op: Op)
    requires RolesMatch(t)
    ensures var (t', f) := (Apply(t, mode, captcha, op).0, Subject(op));
            Has(t', f, Member) ==>
              RoleOf(t', f) == if op.AddMember? then Some(op.role)
                               else if op.Seed? && f != "" && !Has(t, f, Member) then Some(Owner)
                               else if op.Approve? && CanModerate(t, op.actor) then Some(Plain)
                               else if Has(t, f, Member) then RoleOf(t, f)
                               else Some(Plain)
  {
    hide CanModerate;
  }

  /** After a moderator's block the peer is blocked, no other row has changed, and the peer's next
      join request is refused in every mode and with every answer. */
  lemma BlockBlocks(t: Table, mode: Mode, captcha: Option<string>, f: string, actor: Option<string>, answer: Option<string>)
    requires RolesMatch(t)
    ensures var (t', r) := Apply(t, mode, captcha, BlockForAll(f, actor));
            if CanModerate(t, actor) then
              && Has(t', f, Blocked) && RoleOf(t', f) == None && r == Status(Blocked)
              && (forall k :: k != f ==> (k in t' <==> k in t) && (k in t ==> t'[k] == t[k]))
              && Apply(t', mode, captcha, RequestJoin(f, answer)) == (t', Status(Blocked))
            else t' == t && r == PermissionError
  {
    hide CanModerate;
  }

  /** On the bare policy a block is lifted by exactly these calls: seating, re-seeding as
      owner, an approval by a moderator, and a denial that names no one or a moderator. */
  lemma BlockLiftedIff(t: Table, mode: Mode, captcha: Option<string>, op: Op, f: string)
    requires RolesMatch(t) && Has(t, f, Blocked)
    ensures !Has(Apply(t, mode, captcha, op).0, f, Blocked) <==>
            || (op.AddMember? && op.fqid == f)
            || (op.Seed? && op.owner == f && f != "")
            || (op.Approve? && op.fqid == f && CanModerate(t, op.actor))
            || (op.Deny? && op.fqid == f && (op.actor == None || CanModerate(t, op.actor)))
  {
  }

  /** A refused call leaves no trace. */
  lemma RefusalChangesNothing(t: Table, mode: Mode, captcha: Option<string>, op: Op)
    ensures Apply(t, mode, captcha, op).1 == PermissionError ==> Apply(t, mode, captcha, op).0 == t
    ensures Apply(t, mode, captcha, op).1 == PermissionError <==>
            || (op.Invite? && op.actor.Some? && !CanModerate(t, op.actor))
            || (op.Deny? && op.actor.Some? && !CanModerate(t, op.actor))
            || ((op.Approve? || op.BlockForAll?) && !CanModerate(t, op.actor))
  {
  }

  predicate IsOwner(t: Table, f: string) {
    RoleOf(t, f) == Some(Owner)
  }

  /** On the bare policy an owner stops being one by exactly these calls: a seating in another
      role, a moderator's approval, a denial that names no one or a moderator, and a moderator's
      block. */
  lemma OwnerLostIff(t: Table, mode: Mode, captcha: Option<string>, op: Op, f: string)
    requires RolesMatch(t) && IsOwner(t, f)
    ensures !IsOwner(Apply(t, mode, captcha, op).0, f) <==>
            || (op.AddMember? && op.fqid == f && op.role != Owner)
            || (op.Approve? && op.fqid == f && CanModerate(t, op.actor))
            || (op.Deny? && op.fqid == f && (op.actor == None || CanModerate(t, op.actor)))
            || (op.BlockForAll? && op.fqid == f && CanModerate(t, op.actor))
  {
  }

  /** A witness: the last owner, demoted by an approval of itself. */
  lemma ApprovalDemotesOwner(mode: Mode, captcha: Option<string>)
    ensures var t := Apply(map[], mode, captcha, Seed("o")).0;
            IsOwner(t, "o")
            && RoleOf(Apply(t, mode, captcha, Approve("o", Some("o"))).0, "o") == Some(Plain)
  {
  }
}

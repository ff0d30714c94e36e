/** One held send in the ledger, as a machine of its own: where it stands is computed from the
    calls alone, whatever other traffic the ledger carries. */
module HeldSends {
  import opened Common
  import opened Messages
  import opened AT = AckTracker
  import opened DL = DeliveryLedger

  /** What the tracker knows of the send. */
  datatype Mark = Untracked | Waiting | Acked(at: real) | Lapsed

  /** Held in the pending queue, among the dead letters, or in neither. */
  datatype Place = Held | Buried | Nowhere

  datatype Spot = Spot(mark: Mark, place: Place, alerts: nat)

  const AWAITING := Spot(Waiting, Held, 0)
  const DEAD := Spot(Lapsed, Buried, 1)
  const ABSENT := Spot(Untracked, Nowhere, 0)

  function Acknowledged(at: real): Spot {
    Spot(Acked(at), Nowhere, 0)
  }

  predicate Marked(l: Ledger, p: PendingAck, mark: Mark) {
    var id := p.envelope_id;
    match mark
    case Untracked => id !in l.acks
    case Waiting => id in l.acks && l.acks[id] == p
    case Acked(at) =>
      id in l.acks
      && l.acks[id] == p.(status := Confirmed, confirmed_at := Some(at), confirmed_via := l.acks[id].confirmed_via)
    case Lapsed => id in l.acks && l.acks[id] == p.(status := TimedOut)
  }

  predicate Placed(l: Ledger, p: PendingAck, place: Place) {
    var id, e := p.envelope_id, Entry(p.recipient, true);
    match place
    case Held => id in l.pending && l.pending[id] == e && id !in l.dead
    case Buried => id !in l.pending && id in l.dead && l.dead[id] == e
    case Nowhere => id !in l.pending && id !in l.dead
  }

  /** The send tracked as `p` when it went out stands at `s`. */
  predicate At(l: Ledger, p: PendingAck, s: Spot) {
    Marked(l, p, s.mark) && Placed(l, p, s.place) && Alerts(l, p.envelope_id) == s.alerts
  }

  ghost predicate OnlyAt(l: Ledger, p: PendingAck, s: Spot) {
    At(l, p, s) && forall t :: At(l, p, t) ==> t == s
  }

  lemma SpotUnique(l: Ledger, p: PendingAck, s: Spot)
    requires p.status == Pending && At(l, p, s)
    ensures OnlyAt(l, p, s)
  {
    forall t | At(l, p, t) ensures t == s {
      assert t.mark == s.mark && t.place == s.place;
    }
  }

  // ----- The machine -----

  /** The item acknowledges the send. */
  predicate AcksSend(p: PendingAck, item: Inbound, fold: CaseFold) {
    && item.Readable? && !item.expired && item.arrival.message.payload.content_type == "ack"
    && item.arrival.message.payload.content == p.envelope_id
    && Matches(item.arrival.message.sender, p.recipient, fold) && item.arrival.authentic
  }

  predicate Carries(p: PendingAck, batch: seq<Inbound>, fold: CaseFold) {
    exists k :: 0 <= k < |batch| && AcksSend(p, batch[k], fold)
  }

  function Confirm(s: Spot, now: real): Spot {
    Spot(Acked(now), if s.place == Held then Nowhere else s.place, s.alerts)
  }

  function Lapse(p: PendingAck, s: Spot, clock: string -> real): Spot {
    if !s.mark.Waiting? || clock(p.envelope_id) <= p.sent_at + p.ack_timeout then s
    else if s.place == Held then Spot(Lapsed, Buried, s.alerts + 1)
    else s.(mark := Lapsed)
  }

  /** One call, seen by one send: an acknowledgment wins over the deadline, both find a waiting send
      only, a purge removes an old confirmation, and upkeep does what it says. */
  function Next(p: PendingAck, fold: CaseFold, op: DL.Op, s: Spot): Spot {
    match op
    case Send(_, _, _) => s
    case Receive(batch, now, _, clock) =>
      Lapse(p, if s.mark.Waiting? && Carries(p, batch, fold) then Confirm(s, now) else s, clock)
    case Sweep(_, clock) => Lapse(p, s, clock)
    case Retry(_) => s
    case Purge(maxAge, now) => if s.mark.Acked? && now - s.mark.at > maxAge then s.(mark := Untracked) else s
    case RequeueDead(_) => if Upkeep(op, p.envelope_id) && s.place == Buried then s.(place := Held) else s
    case PurgeDead(_) => if Upkeep(op, p.envelope_id) && s.place == Buried then s.(place := Nowhere) else s
    case PruneDead(_) => if Upkeep(op, p.envelope_id) && s.place == Buried then s.(place := Nowhere) else s
    case PurgePending => if s.place == Held then s.(place := Nowhere) else s
    case Untrack(_) => if Upkeep(op, p.envelope_id) then s.(mark := Untracked) else s
  }

  /** The spot after calls `m` to `n`. */
  function SpotFrom(p: PendingAck, fold: CaseFold, ops: seq<DL.Op>, m: nat, n: nat, s: Spot): Spot
    requires m <= n <= |ops|
    decreases n
  {
    if n == m then s else Next(p, fold, ops[n - 1], SpotFrom(p, fold, ops, m, n - 1, s))
  }

  // ----- The ledger follows the machine -----

  lemma OneItem(l: Ledger, p: PendingAck, item: Inbound, fold: CaseFold, now: real, s: Spot)
    requires IdsMatch(l.acks) && p.status == Pending && At(l, p, s)
    ensures At(ReceiveOne(l, item, fold, now), p, if s.mark.Waiting? && AcksSend(p, item, fold) then Confirm(s, now) else s)
  {
    if item.Readable? && !item.expired && Confirms(l.acks, item.arrival, fold) {
      assert l.acks[item.arrival.message.payload.content].envelope_id == item.arrival.message.payload.content;
    }
  }

  lemma CarriesSnoc(p: PendingAck, batch: seq<Inbound>, fold: CaseFold)
    requires batch != []
    ensures Carries(p, batch, fold) <==>
            Carries(p, batch[..|batch| - 1], fold) || AcksSend(p, batch[|batch| - 1], fold)
  {
    var front := batch[..|batch| - 1];
    if k :| 0 <= k < |front| && AcksSend(p, front[k], fold) { assert AcksSend(p, batch[k], fold); }
    if k :| 0 <= k < |batch| && AcksSend(p, batch[k], fold) { assert k < |front| ==> AcksSend(p, front[k], fold); }
  }

  lemma {:induction false} AllItems(l: Ledger, p: PendingAck, batch: seq<Inbound>, fold: CaseFold, now: real, s: Spot)
    requires IdsMatch(l.acks) && p.status == Pending && At(l, p, s)
    ensures At(ReceiveAll(l, batch, fold, now), p, if s.mark.Waiting? && Carries(p, batch, fold) then Confirm(s, now) else s)
  {
    hide At, ReceiveOne, AcksSend, IdsMatch, Carries;
    if batch == [] {
      assert !Carries(p, batch, fold) by { NothingCarried(p, fold); }
    } else {
      var front, item := batch[..|batch| - 1], batch[|batch| - 1];
      AllItems(l, p, front, fold, now, s);
      ReceiveIdsMatch(l, front, fold, now);
      CarriesSnoc(p, batch, fold);
      OneItem(ReceiveAll(l, front, fold, now), p, item, fold, now,
              if s.mark.Waiting? && Carries(p, front, fold) then Confirm(s, now) else s);
    }
  }

  lemma NothingCarried(p: PendingAck, fold: CaseFold)
    ensures !Carries(p, [], fold)
  {
  }

  lemma SweepFollows(l: Ledger, p: PendingAck, ids: seq<string>, clock: string -> real, s: Spot)
    requires Lists(ids, l.acks) && p.status == Pending && At(l, p, s)
    ensures At(SweepSpec(l, ids, clock), p, Lapse(p, s, clock))
  {
    SweepActs(l.(acks := TimeoutSpec(l.acks, clock)), Lapsing(ids, l.acks, clock), p.envelope_id);
    hide SweepFrom, AlertCount;
  }

  /** One poll settles a waiting send exactly so: confirmed and released when its acknowledgment is
      in the batch, whatever the deadline says; otherwise dead-lettered with one alert when its
      deadline has passed; otherwise still waiting. */
  lemma PollSettles(c: Node, l: Ledger, batch: seq<Inbound>, now: real, ids: seq<string>, clock: string -> real,
                    p: PendingAck)
    requires IdsMatch(l.acks) && Lists(ids, l.acks) && p.status == Pending && At(l, p, AWAITING)
    ensures var s := DL.Step(c, l, DL.Receive(batch, now, ids, clock));
            OnlyAt(s, p, if Carries(p, batch, c.fold) then Acknowledged(now)
                         else if clock(p.envelope_id) > p.sent_at + p.ack_timeout then DEAD
                         else AWAITING)
  {
    PollFollows(c, l, batch, now, ids, clock, p, AWAITING);
    hide At, OnlyAt, DL.Step, Carries;
    SpotUnique(DL.Step(c, l, DL.Receive(batch, now, ids, clock)), p,
               Next(p, c.fold, DL.Receive(batch, now, ids, clock), AWAITING));
  }

  /** Nobody else can confirm: whatever else a poll brings, acknowledgments of the send from senders
      of other letters than its recipient leave it waiting, and its deadline decides. */
  lemma StrangersCannotConfirm(c: Node, l: Ledger, batch: seq<Inbound>, now: real, ids: seq<string>,
                               clock: string -> real, p: PendingAck)
    requires IdsMatch(l.acks) && Lists(ids, l.acks) && p.status == Pending && At(l, p, AWAITING)
    requires forall ch :: |c.fold(ch)| == 1
    requires forall k :: 0 <= k < |batch| && batch[k].Readable? && batch[k].arrival.message.payload.content == p.envelope_id
               ==> !SameLetters(batch[k].arrival.message.sender, p.recipient, c.fold)
    ensures OnlyAt(DL.Step(c, l, DL.Receive(batch, now, ids, clock)), p,
                   if clock(p.envelope_id) > p.sent_at + p.ack_timeout then DEAD else AWAITING)
  {
    forall k | 0 <= k < |batch| ensures !AcksSend(p, batch[k], c.fold) {
      if batch[k].Readable? { MatchesIff(batch[k].arrival.message.sender, p.recipient, c.fold); }
    }
    PollSettles(c, l, batch, now, ids, clock, p);
    hide At, OnlyAt, DL.Step, AcksSend, SameLetters;
  }

  lemma PollFollows(c: Node, l: Ledger, batch: seq<Inbound>, now: real, ids: seq<string>, clock: string -> real,
                    p: PendingAck, s: Spot)
    requires IdsMatch(l.acks) && Lists(ids, l.acks) && p.status == Pending && At(l, p, s)
    ensures var op := DL.Receive(batch, now, ids, clock); At(DL.Step(c, l, op), p, Next(p, c.fold, op, s))
  {
    hide At, SweepSpec, ReceiveAll, Carries, IdsMatch;
    AllItems(l, p, batch, c.fold, now, s);
    ReceiveKeepsKeys(l, batch, c.fold, now);
    SweepFollows(ReceiveAll(l, batch, c.fold, now), p, ids, clock,
                 if s.mark.Waiting? && Carries(p, batch, c.fold) then Confirm(s, now) else s);
  }

  lemma OtherAlert(l: Ledger, a: Alert, id: string)
    requires a.id != id
    ensures Alerts(l.(alerts := l.alerts + [a]), id) == Alerts(l, id)
  {
    assert (l.alerts + [a])[..|l.alerts|] == l.alerts;
  }

  lemma SendFollows(l: Ledger, bound: int, timeout: real, m: Message, report: Report, now: real, p: PendingAck, s: Spot)
    requires m.envelope_id != p.envelope_id && At(l, p, s)
    ensures At(SendSpec(l, bound, timeout, m, report, now).0, p, s)
  {
    hide AlertCount;
    OtherAlert(l, OutboxFull(m.envelope_id), p.envelope_id);
    OtherAlert(l, DeliveryFailed(m.envelope_id), p.envelope_id);
  }

  lemma UpkeepFollows(c: Node, l: Ledger, op: DL.Op, p: PendingAck, s: Spot)
    requires At(l, p, s)
    requires op.RequeueDead? || op.PurgeDead? || op.PruneDead? || op.PurgePending? || op.Untrack?
    ensures At(DL.Step(c, l, op), p, Next(p, c.fold, op, s))
  {
    hide AlertCount;
  }

  lemma RetryFollows(l: Ledger, outcome: string -> RetryOutcome, p: PendingAck, s: Spot)
    requires At(l, p, s)
    ensures At(RetrySpec(l, outcome), p, s)
  {
    hide AlertCount;
  }

  lemma PurgeFollows(c: Node, l: Ledger, op: DL.Op, p: PendingAck, s: Spot)
    requires p.status == Pending && At(l, p, s) && op.Purge?
    ensures At(DL.Step(c, l, op), p, Next(p, c.fold, op, s))
  {
    hide AlertCount;
  }

  /** Refinement: every call that does not send the id again takes the send where its own machine
      says, whatever else it does to the ledger. */
  lemma StepFollows(c: Node, l: Ledger, op: DL.Op, p: PendingAck, s: Spot)
    requires IdsMatch(l.acks) && p.status == Pending && At(l, p, s)
    requires op.Receive? || op.Sweep? ==> Lists(op.ids, l.acks)
    requires op.Send? ==> op.message.envelope_id != p.envelope_id
    ensures At(DL.Step(c, l, op), p, Next(p, c.fold, op, s))
  {
    hide At, SendSpec, SweepSpec, ReceiveAll, RetrySpec, IdsMatch, Lapse, Carries, Upkeep;
    match op
    case Send(m, report, now) => SendFollows(l, c.bound, c.timeout, m, report, now, p, s);
    case Receive(batch, now, ids, clock) => PollFollows(c, l, batch, now, ids, clock, p, s);
    case Sweep(ids, clock) => SweepFollows(l, p, ids, clock, s);
    case Retry(outcome) => RetryFollows(l, outcome, p, s);
    case Purge(_, _) => PurgeFollows(c, l, op, p, s);
    case _ => UpkeepFollows(c, l, op, p, s);
  }

  predicate NotSent(ops: seq<DL.Op>, m: nat, n: nat, id: string)
    requires m <= n <= |ops|
  {
    forall k :: m <= k < n && ops[k].Send? ==> ops[k].message.envelope_id != id
  }

  /** And so over whole histories. */
  lemma {:induction false} RunFollows(c: Node, ops: seq<DL.Op>, m: nat, n: nat, p: PendingAck, s: Spot)
    requires m <= n <= |ops| && Listed(c, ops) && NotSent(ops, m, n, p.envelope_id)
    requires p.status == Pending && At(DL.After(c, ops, m), p, s)
    ensures At(DL.After(c, ops, n), p, SpotFrom(p, c.fold, ops, m, n, s))
    decreases n
  {
    hide At, DL.Step, Next, IdsMatch;
    if n > m {
      RunFollows(c, ops, m, n - 1, p, s);
      IdsMatchAlways(c, ops, n - 1);
      StepFollows(c, DL.After(c, ops, n - 1), ops[n - 1], p, SpotFrom(p, c.fold, ops, m, n - 1, s));
    }
  }

  // ----- Held sends -----

  /** Before its first send an id has left no mark. */
  lemma UnsentIsAbsent(c: Node, ops: seq<DL.Op>, n: nat, p: PendingAck)
    requires n <= |ops| && Listed(c, ops) && NotSent(ops, 0, n, p.envelope_id) && p.status == Pending
    ensures At(DL.After(c, ops, n), p, ABSENT)
  {
    RunFollows(c, ops, 0, n, p, ABSENT);
    AbsentStays(p, c.fold, ops, 0, n);
  }

  lemma {:induction false} AbsentStays(p: PendingAck, fold: CaseFold, ops: seq<DL.Op>, m: nat, n: nat)
    requires m <= n <= |ops|
    ensures SpotFrom(p, fold, ops, m, n, ABSENT) == ABSENT
    decreases n
  {
    if n > m { AbsentStays(p, fold, ops, m, n - 1); }
  }

  /** The tracker entry a send starts with. */
  function Tracked(c: Node, op: DL.Op): PendingAck
    requires op.Send?
  {
    PendingAck(op.message.envelope_id, op.message.recipient, op.now, c.timeout, Pending, None, None)
  }

  predicate SentOnce(ops: seq<DL.Op>, i: nat)
    requires i < |ops| && ops[i].Send?
  {
    forall k :: 0 <= k < |ops| && k != i && ops[k].Send?
      ==> ops[k].message.envelope_id != ops[i].message.envelope_id
  }

  lemma HoldAwaits(c: Node, l: Ledger, op: DL.Op)
    requires HeldSend(c, l, op) && At(l, Tracked(c, op), ABSENT)
    ensures At(DL.Step(c, l, op), Tracked(c, op), AWAITING)
  {
    hide AlertCount;
  }

  /** At every point of every history, upkeep included, a held send with a fresh id stands at
      exactly one spot, and it is the one its machine computes. */
  lemma HeldSendIs(c: Node, ops: seq<DL.Op>, i: nat, n: nat)
    requires i < n <= |ops| && Listed(c, ops) && HeldSend(c, DL.After(c, ops, i), ops[i]) && SentOnce(ops, i)
    ensures var p := Tracked(c, ops[i]);
            OnlyAt(DL.After(c, ops, n), p, SpotFrom(p, c.fold, ops, i + 1, n, AWAITING))
  {
    hide At, OnlyAt, DL.Step;
    var p := Tracked(c, ops[i]);
    UnsentIsAbsent(c, ops, i, p);
    HoldAwaits(c, DL.After(c, ops, i), ops[i]);
    RunFollows(c, ops, i + 1, n, p, AWAITING);
    SpotUnique(DL.After(c, ops, n), p, SpotFrom(p, c.fold, ops, i + 1, n, AWAITING));
  }

  // ----- What the calls tell -----

  predicate CarriesAck(p: PendingAck, fold: CaseFold, op: DL.Op) {
    op.Receive? && Carries(p, op.batch, fold)
  }

  predicate LapsesBy(p: PendingAck, op: DL.Op) {
    (op.Receive? || op.Sweep?) && op.clock(p.envelope_id) > p.sent_at + p.ack_timeout
  }

  /** No poll carried the acknowledgment and no sweep found the deadline passed. */
  ghost predicate Undecided(p: PendingAck, fold: CaseFold, ops: seq<DL.Op>, m: nat, n: nat)
    requires m <= n <= |ops|
  {
    forall k :: m <= k < n ==> !CarriesAck(p, fold, ops[k]) && !LapsesBy(p, ops[k])
  }

  /** Call `k` is the first to decide, by an acknowledgment. */
  ghost predicate AckedBy(p: PendingAck, fold: CaseFold, ops: seq<DL.Op>, m: nat, k: nat)
    requires m <= k < |ops|
  {
    Undecided(p, fold, ops, m, k) && CarriesAck(p, fold, ops[k])
  }

  /** Call `k` is the first to decide, by the deadline. */
  ghost predicate LapsedBy(p: PendingAck, fold: CaseFold, ops: seq<DL.Op>, m: nat, k: nat)
    requires m <= k < |ops|
  {
    Undecided(p, fold, ops, m, k) && !CarriesAck(p, fold, ops[k]) && LapsesBy(p, ops[k])
  }

  predicate Purges(op: DL.Op, at: real) {
    op.Purge? && op.now - at > op.maxAge
  }

  /** After call `k` a purge found its confirmation old enough. */
  ghost predicate PurgedSince(ops: seq<DL.Op>, at: real, k: nat, n: nat)
    requires k < n <= |ops|
  {
    exists q :: k < q < n && Purges(ops[q], at)
  }

  predicate NoUpkeep(ops: seq<DL.Op>, m: nat, n: nat, id: string)
    requires m <= n <= |ops|
  {
    forall k :: m <= k < n ==> !Upkeep(ops[k], id)
  }

  /** How a machine that upkeep leaves alone gets where it stands. */
  ghost predicate Told(p: PendingAck, fold: CaseFold, ops: seq<DL.Op>, m: nat, n: nat, s: Spot, k: nat)
    requires m <= n <= |ops|
  {
    if Undecided(p, fold, ops, m, n) then s == AWAITING
    else
      m <= k < n
      && if CarriesAck(p, fold, ops[k]) then
           AckedBy(p, fold, ops, m, k) && s == if PurgedSince(ops, ops[k].now, k, n) then ABSENT else Acknowledged(ops[k].now)
         else LapsedBy(p, fold, ops, m, k) && s == DEAD
  }

  lemma {:induction false} Story(p: PendingAck, fold: CaseFold, ops: seq<DL.Op>, m: nat, n: nat) returns (k: nat)
    requires m <= n <= |ops| && NoUpkeep(ops, m, n, p.envelope_id)
    ensures Told(p, fold, ops, m, n, SpotFrom(p, fold, ops, m, n, AWAITING), k)
    decreases n
  {
    hide Carries, Upkeep;
    if n == m {
      k := m;
    } else {
      k := Story(p, fold, ops, m, n - 1);
      k := StoryNext(p, fold, ops, m, n - 1, SpotFrom(p, fold, ops, m, n - 1, AWAITING), k);
    }
  }

  lemma StoryNext(p: PendingAck, fold: CaseFold, ops: seq<DL.Op>, m: nat, n: nat, s: Spot, k: nat) returns (k': nat)
    requires m <= n < |ops| && !Upkeep(ops[n], p.envelope_id) && Told(p, fold, ops, m, n, s, k)
    ensures Told(p, fold, ops, m, n + 1, Next(p, fold, ops[n], s), k')
  {
    hide Carries;
    if Undecided(p, fold, ops, m, n) {
      k' := n;
    } else {
      k' := k;
      assert !Undecided(p, fold, ops, m, n + 1);
      if CarriesAck(p, fold, ops[k]) { PurgedNext(ops, ops[k].now, k, n); }
    }
  }

  lemma PurgedNext(ops: seq<DL.Op>, at: real, k: nat, n: nat)
    requires k < n < |ops|
    ensures PurgedSince(ops, at, k, n + 1) <==> PurgedSince(ops, at, k, n) || Purges(ops[n], at)
  {
  }

  /** The first call to decide is one call. */
  lemma DecidedOnce(p: PendingAck, fold: CaseFold, ops: seq<DL.Op>, m: nat, n: nat, j: nat, k: nat)
    requires m <= j < n <= |ops| && m <= k < n
    requires AckedBy(p, fold, ops, m, j) || LapsedBy(p, fold, ops, m, j)
    requires AckedBy(p, fold, ops, m, k) || LapsedBy(p, fold, ops, m, k)
    ensures j == k && !Undecided(p, fold, ops, m, n)
  {
    hide Carries;
  }

  /** Exactly one of four is so, by the calls `m` to `n` alone: the send waits, and no poll carried
      its acknowledgment and no sweep found its deadline passed; it is dead-lettered with one alert,
      and the first call to decide found the deadline passed and carried no acknowledgment; it is
      confirmed and released with no alert, and the first call to decide carried the acknowledgment;
      or that, and the confirmation has been purged since. */
  ghost predicate Recounts(p: PendingAck, fold: CaseFold, ops: seq<DL.Op>, m: nat, n: nat, s: Spot)
    requires m <= n <= |ops|
  {
    && (s == AWAITING <==> Undecided(p, fold, ops, m, n))
    && (s == DEAD <==> exists k :: m <= k < n && LapsedBy(p, fold, ops, m, k))
    && (forall at :: s == Acknowledged(at) <==>
          exists k :: m <= k < n && AckedBy(p, fold, ops, m, k) && ops[k].now == at && !PurgedSince(ops, at, k, n))
    && (s == ABSENT <==>
          exists k :: m <= k < n && AckedBy(p, fold, ops, m, k) && PurgedSince(ops, ops[k].now, k, n))
    && (s == AWAITING || s == DEAD || s == ABSENT || exists at :: s == Acknowledged(at))
  }

  lemma ToldIff(p: PendingAck, fold: CaseFold, ops: seq<DL.Op>, m: nat, n: nat, s: Spot, k: nat)
    requires m <= n <= |ops| && Told(p, fold, ops, m, n, s, k)
    ensures Recounts(p, fold, ops, m, n, s)
  {
    hide Carries, Undecided, PurgedSince;
    forall j | m <= j < n && (AckedBy(p, fold, ops, m, j) || LapsedBy(p, fold, ops, m, j))
      ensures !Undecided(p, fold, ops, m, n) && j == k
    {
      DecidedOnceOrNever(p, fold, ops, m, n, j);
      if m <= k < n && (AckedBy(p, fold, ops, m, k) || LapsedBy(p, fold, ops, m, k)) { DecidedOnce(p, fold, ops, m, n, j, k); }
    }
  }

  lemma DecidedOnceOrNever(p: PendingAck, fold: CaseFold, ops: seq<DL.Op>, m: nat, n: nat, j: nat)
    requires m <= j < n <= |ops| && (AckedBy(p, fold, ops, m, j) || LapsedBy(p, fold, ops, m, j))
    ensures !Undecided(p, fold, ops, m, n)
  {
  }

  /** Whatever upkeep does, a held send alerts at most once; while it is tracked as confirmed it is
      released and has never alerted, and some poll carried its acknowledgment then; and an alert
      means that a deadline passed. */
  lemma {:induction false} NeverBoth(p: PendingAck, fold: CaseFold, ops: seq<DL.Op>, m: nat, n: nat)
    requires m <= n <= |ops|
    ensures var s := SpotFrom(p, fold, ops, m, n, AWAITING);
            && s.alerts <= 1
            && (s.mark.Waiting? ==> s.place != Buried && s.alerts == 0)
            && (s.mark.Acked? ==> s == Acknowledged(s.mark.at)
                                  && exists k :: m <= k < n && CarriesAck(p, fold, ops[k]) && ops[k].now == s.mark.at)
            && (s.alerts == 1 ==> exists k :: m <= k < n && LapsesBy(p, ops[k]))
    decreases n
  {
    hide Carries, Upkeep;
    if n > m {
      NeverBoth(p, fold, ops, m, n - 1);
    }
  }

  /** At every point of every history a held send with a fresh id stands at exactly one spot. While
      upkeep does not name it, its whole story is told by the polls, the sweeps and the purges; and
      whatever upkeep does, it alerts at most once, it is confirmed only by a poll that carried its
      acknowledgment, and then it is released and has not alerted. */
  lemma HeldSendTrichotomy(c: Node, ops: seq<DL.Op>, i: nat, n: nat) returns (s: Spot)
    requires i < n <= |ops| && Listed(c, ops) && HeldSend(c, DL.After(c, ops, i), ops[i]) && SentOnce(ops, i)
    ensures OnlyAt(DL.After(c, ops, n), Tracked(c, ops[i]), s)
    ensures NoUpkeep(ops, i + 1, n, ops[i].message.envelope_id) ==>
              Recounts(Tracked(c, ops[i]), c.fold, ops, i + 1, n, s)
    ensures s.alerts <= 1
    ensures s.mark.Acked? ==> s == Acknowledged(s.mark.at)
    ensures s.mark.Acked? ==>
              exists k :: i < k < n && CarriesAck(Tracked(c, ops[i]), c.fold, ops[k]) && ops[k].now == s.mark.at
  {
    hide OnlyAt, DL.After, Listed, SentOnce, Recounts, Told, NoUpkeep;
    var p := Tracked(c, ops[i]);
    HeldSendIs(c, ops, i, n);
    s := SpotFrom(p, c.fold, ops, i + 1, n, AWAITING);
    NeverBoth(p, c.fold, ops, i + 1, n);
    if NoUpkeep(ops, i + 1, n, p.envelope_id) {
      var k := Story(p, c.fold, ops, i + 1, n);
      ToldIff(p, c.fold, ops, i + 1, n, s, k);
    }
  }

  // ----- After the decision -----

  /** What removes a confirmation made at `at`. */
  predicate Clears(op: DL.Op, id: string, at: real) {
    Purges(op, at) || (op.Untrack? && op.id == id)
  }

  /** Upkeep that takes a dead letter out of the dead-letter queue or out of the tracker. */
  predicate Disturbs(op: DL.Op, id: string) {
    Upkeep(op, id) && !op.PurgePending?
  }

  /** Confirmed is final under every operation, upkeep included: the send stays confirmed, released
      and without an alert exactly until its confirmation is purged or untracked, and then leaves no
      mark for good. Dead is final under everything but upkeep that names the dead letter, and no
      operation ever brings it back. */
  lemma SettledIsFinal(c: Node, ops: seq<DL.Op>, m: nat, n: nat, p: PendingAck, s: Spot)
    requires m <= n <= |ops| && Listed(c, ops) && NotSent(ops, m, n, p.envelope_id)
    requires p.status == Pending && At(DL.After(c, ops, m), p, s)
    ensures s.mark.Acked? && s == Acknowledged(s.mark.at) ==>
              OnlyAt(DL.After(c, ops, n), p,
                     if exists k :: m <= k < n && Clears(ops[k], p.envelope_id, s.mark.at) then ABSENT else s)
    ensures s == DEAD ==>
              (At(DL.After(c, ops, n), p, DEAD) <==> forall k :: m <= k < n ==> !Disturbs(ops[k], p.envelope_id))
  {
    hide At, OnlyAt, DL.After, Listed, NotSent, Clears, Disturbs;
    RunFollows(c, ops, m, n, p, s);
    var t := SpotFrom(p, c.fold, ops, m, n, s);
    SpotUnique(DL.After(c, ops, n), p, t);
    AtOnly(DL.After(c, ops, n), p, t);
    if s.mark.Acked? && s == Acknowledged(s.mark.at) { ConfirmedStays(p, c.fold, ops, m, n, s.mark.at); }
    if s == DEAD { DeadStays(p, c.fold, ops, m, n); }
  }

  lemma AtOnly(l: Ledger, p: PendingAck, s: Spot)
    requires OnlyAt(l, p, s)
    ensures forall t :: At(l, p, t) <==> t == s
  {
    hide Marked, Placed;
  }

  lemma {:induction false} ConfirmedStays(p: PendingAck, fold: CaseFold, ops: seq<DL.Op>, m: nat, n: nat, at: real)
    requires m <= n <= |ops|
    ensures SpotFrom(p, fold, ops, m, n, Acknowledged(at))
            == if exists k :: m <= k < n && Clears(ops[k], p.envelope_id, at) then ABSENT else Acknowledged(at)
    decreases n
  {
    hide Carries;
    if n > m { ConfirmedStays(p, fold, ops, m, n - 1, at); }
  }

  /** What a dead letter comes to under upkeep: revived into the pending queue, discarded, or
      forgotten by the tracker, and never dead again. */
  lemma {:induction false} DeadStays(p: PendingAck, fold: CaseFold, ops: seq<DL.Op>, m: nat, n: nat)
    requires m <= n <= |ops|
    ensures var s := SpotFrom(p, fold, ops, m, n, DEAD);
            && s.alerts == 1 && (s.mark == Lapsed || s.mark == Untracked)
            && (s == DEAD <==> forall k :: m <= k < n ==> !Disturbs(ops[k], p.envelope_id))
    decreases n
  {
    hide Carries;
    if n > m { DeadStays(p, fold, ops, m, n - 1); }
  }

  /** A requeued held send is stuck: the retry pass skips it for its `await_ack`, the sweep and
      every acknowledgment pass over its resolved tracker entry, and nobody is told again. It stays
      until the pending queue is purged, which throws it away. */
  lemma RequeuedIsStuck(c: Node, ops: seq<DL.Op>, i: nat, n: nat, p: PendingAck)
    requires i < n <= |ops| && Listed(c, ops) && NotSent(ops, i, n, p.envelope_id) && p.status == Pending
    requires At(DL.After(c, ops, i), p, DEAD) && ops[i].RequeueDead? && Upkeep(ops[i], p.envelope_id)
    ensures var s, purged := SpotFrom(p, c.fold, ops, i, n, DEAD), exists k :: i < k < n && ops[k].PurgePending?;
            && OnlyAt(DL.After(c, ops, n), p, s)
            && s.place == (if purged then Nowhere else Held) && s.alerts == 1 && (s.mark == Lapsed || s.mark == Untracked)
  {
    hide At, OnlyAt, DL.After, Listed, NotSent;
    RunFollows(c, ops, i, n, p, DEAD);
    SpotUnique(DL.After(c, ops, n), p, SpotFrom(p, c.fold, ops, i, n, DEAD));
    RevivedStays(p, c.fold, ops, i, n);
  }

  lemma {:induction false} RevivedStays(p: PendingAck, fold: CaseFold, ops: seq<DL.Op>, i: nat, n: nat)
    requires i < n <= |ops| && ops[i].RequeueDead? && Upkeep(ops[i], p.envelope_id)
    ensures var s, purged := SpotFrom(p, fold, ops, i, n, DEAD), exists k :: i < k < n && ops[k].PurgePending?;
            s.place == (if purged then Nowhere else Held) && s.alerts == 1 && (s.mark == Lapsed || s.mark == Untracked)
    decreases n
  {
    hide Carries;
    if n > i + 1 { RevivedStays(p, fold, ops, i, n - 1); }
  }
}

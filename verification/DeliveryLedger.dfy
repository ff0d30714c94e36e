/** The send, receive and sweep paths of core.py over the ACK tracker and the durable outbox:
    a send that reached only a queue is held until its acknowledgment, or dead-lettered. */
module DeliveryLedger {
  import opened Common
  import opened Messages
  import opened AckTracker
  import PQ = PriorityQueue
  import Ordering

  datatype Entry = Entry(recipient: string, await_ack: bool)
  type Outbox = map<string, Entry>

  datatype Alert = DeliveryFailed(id: string) | OutboxFull(id: string)

  /** The router's report. `queued_only`: every accepting rail was a file queue. */
  datatype Report = Report(delivered: bool, queued_only: bool)

  datatype Ledger = Ledger(acks: Entries, pending: Outbox, dead: Outbox, alerts: seq<Alert>)

  /** What sits in a polled rail: bytes that do not decode or decrypt, or a message. */
  datatype Inbound = Unreadable | Readable(arrival: Arrival, expired: bool)

  datatype RetryOutcome = Keep | Deliver | DeadLetter

  // ----- Sending -----

  /** The soft bound of the pending queue; rewriting an entry never grows it. */
  predicate Full(pending: Outbox, bound: int, id: string) {
    bound > 0 && id !in pending && |pending| >= bound
  }

  predicate Broadcast(m: Message) { m.recipient == "*" }

  function HoldSpec(l: Ledger, bound: int, m: Message, report: Report): Ledger {
    if !report.queued_only || !m.ack_requested then l
    else if Full(l.pending, bound, m.envelope_id) then l.(alerts := l.alerts + [OutboxFull(m.envelope_id)])
    else l.(pending := l.pending[m.envelope_id := Entry(m.recipient, true)])
  }

  /** The state after routing `m` came back with `report`; the flag says the caller saw the
      outbox-full error. */
  function SendSpec(l: Ledger, bound: int, timeout: real, m: Message, report: Report, now: real): (Ledger, bool) {
    var id := m.envelope_id;
    if !report.delivered then
      if !Broadcast(m) && Full(l.pending, bound, id) then (l.(alerts := l.alerts + [OutboxFull(id)]), true)
      else
        var pending := if Broadcast(m) then l.pending else l.pending[id := Entry(m.recipient, false)];
        (l.(pending := pending, alerts := l.alerts + [DeliveryFailed(id)]), false)
    else
      var h := if Broadcast(m) then l else HoldSpec(l, bound, m, report);
      (if Broadcast(m) then h else h.(acks := TrackSpec(h.acks, m, timeout, now)), false)
  }

  // ----- Receiving -----

  function ReceiveOne(l: Ledger, item: Inbound, fold: CaseFold, now: real): Ledger {
    if item.Unreadable? || item.expired then l
    else
      var (acks, confirmed) := ProcessSpec(l.acks, item.arrival, fold, now);
      l.(acks := acks, pending := if confirmed.Some? then l.pending - {confirmed.value.envelope_id} else l.pending)
  }

  function ReceiveAll(l: Ledger, batch: seq<Inbound>, fold: CaseFold, now: real): Ledger {
    if batch == [] then l
    else ReceiveOne(ReceiveAll(l, batch[..|batch| - 1], fold, now), batch[|batch| - 1], fold, now)
  }

  /** The sweep walks the entries that just lapsed, in listing order. */
  function SweepFrom(l: Ledger, lapsed: seq<string>): Ledger {
    if lapsed == [] then l
    else
      var s := SweepFrom(l, lapsed[..|lapsed| - 1]);
      var id := lapsed[|lapsed| - 1];
      if id in s.pending
      then s.(pending := s.pending - {id}, dead := s.dead[id := s.pending[id]],
              alerts := s.alerts + [DeliveryFailed(id)])
      else s
  }

  function SweepSpec(l: Ledger, ids: seq<string>, clock: string -> real): Ledger {
    SweepFrom(l.(acks := TimeoutSpec(l.acks, clock)), Lapsing(ids, l.acks, clock))
  }

  /** The messages a poll hands on, in arrival order with their priorities. */
  function Surviving(batch: seq<Inbound>): seq<PQ.Entry<Message>> {
    if batch == [] then []
    else
      var front := Surviving(batch[..|batch| - 1]);
      var item := batch[|batch| - 1];
      if item.Unreadable? || item.expired then front
      else front + [PQ.Entry(item.arrival.message.Priority(), |front|, item.arrival.message)]
  }

  /** A retry sweep may resolve any entry that is not waiting for an acknowledgment. */
  function RetrySpec(l: Ledger, outcome: string -> RetryOutcome): Ledger {
    l.(pending := map k | k in l.pending && (l.pending[k].await_ack || outcome(k) == Keep) :: l.pending[k],
       dead := l.dead + map k | k in l.pending && !l.pending[k].await_ack && outcome(k) == DeadLetter :: l.pending[k])
  }

  // ----- Upkeep -----

  /** Dead letters moved back to the pending queue: they keep their `await_ack`, and the soft bound
      is not asked. */
  function RequeueSpec(l: Ledger, moved: set<string>): Ledger {
    l.(pending := l.pending + map k | k in l.dead && k in moved :: l.dead[k], dead := l.dead - moved)
  }

  function RequeueEntrySpec(l: Ledger, id: string): Ledger
    requires id in l.dead
  {
    l.(pending := l.pending[id := l.dead[id]], dead := l.dead - {id})
  }

  /** The dead letters a requeue names: all of them without an id, or with an empty one. */
  function Requeued(which: Option<string>, dead: Outbox): set<string> {
    if which == None || which == Some("") then dead.Keys else dead.Keys * {which.value}
  }

  /** The dead letters a purge names: all of them without an id. */
  function Purged(which: Option<string>, dead: Outbox): set<string> {
    if which == None then dead.Keys else dead.Keys * {which.value}
  }

  lemma DropOne(box: Outbox, id: string)
    requires id in box
    ensures (box - {id}).Keys == box.Keys - {id} && |box - {id}| == |box| - 1
  {
    assert (box - {id}).Keys == box.Keys - {id};
    assert |(box - {id}).Keys| == |box.Keys| - 1;
  }

  /** `_purge_dir`; `ids` is the listing walked. */
  method PurgeDir(box: Outbox, ids: seq<string>) returns (left: Outbox, count: nat)
    requires Lists(ids, box)
    ensures left == map[] && count == |box|
  {
    hide Lists, Rest;
    left, count := box, 0;
    RestOfAll(ids, box);
    for i := 0 to |ids|
      invariant left.Keys == Rest(ids, i) && count + |left| == |box|
    {
      RestShrinks(ids, box, i);
      DropOne(left, ids[i]);
      left := left - {ids[i]};
      count := count + 1;
    }
    assert left.Keys == {};
  }

  class SKComms {
    const tracker: AckTracker
    const bound: int
    var pending: Outbox
    var dead: Outbox
    var alerts: seq<Alert>

    constructor (tracker: AckTracker, bound: int, pending: Outbox, dead: Outbox)
      ensures this.tracker == tracker && this.bound == bound
      ensures State() == Ledger(tracker.entries, pending, dead, [])
    {
      this.tracker := tracker;
      this.bound := bound;
      this.pending := pending;
      this.dead := dead;
      this.alerts := [];
    }

    ghost function State(): Ledger
      reads this, tracker
    {
      Ledger(tracker.entries, pending, dead, alerts)
    }

    method Enqueue(id: string, e: Entry) returns (full: bool)
      modifies this`pending
      ensures full <==> Full(old(pending), bound, id)
      ensures pending == if full then old(pending) else old(pending)[id := e]
    {
      if bound > 0 && id !in pending && |pending| >= bound { return true; }
      pending := pending[id := e];
      return false;
    }

    method HoldQueuedDelivery(m: Message, report: Report)
      modifies this
      ensures State() == HoldSpec(old(State()), bound, m, report)
    {
      if !report.queued_only || !m.ack_requested { return; }
      var full := Enqueue(m.envelope_id, Entry(m.recipient, true));
      if full { alerts := alerts + [OutboxFull(m.envelope_id)]; }
    }

    /** What `send` does once the router has reported. */
    method Send(m: Message, report: Report, now: real) returns (raised: bool)
      modifies this, tracker
      ensures (State(), raised) == SendSpec(old(State()), bound, tracker.timeout, m, report, now)
    {
      var broadcast := m.recipient == "*";
      if !report.delivered {
        if !broadcast {
          var full := Enqueue(m.envelope_id, Entry(m.recipient, false));
          if full {
            alerts := alerts + [OutboxFull(m.envelope_id)];
            return true;
          }
        }
        alerts := alerts + [DeliveryFailed(m.envelope_id)];
      } else if report.queued_only && !broadcast {
        HoldQueuedDelivery(m, report);
      }
      if report.delivered && !broadcast {
        var _ := tracker.Track(m, now);
      }
      return false;
    }

    method SweepAckTimeouts(ids: seq<string>, clock: string -> real)
      requires Lists(ids, tracker.entries)
      modifies this, tracker
      ensures State() == SweepSpec(old(State()), ids, clock)
    {
      var lapsed := tracker.CheckTimeouts(ids, clock);
      ghost var start := State();
      for i := 0 to |lapsed|
        invariant State() == SweepFrom(start, lapsed[..i])
      {
        assert lapsed[..i + 1][..i] == lapsed[..i];
        var id := lapsed[i];
        if id in pending {
          alerts := alerts + [DeliveryFailed(id)];
          dead := dead[id := pending[id]];
          pending := pending - {id};
        }
      }
      assert lapsed[..|lapsed|] == lapsed;
    }

    method RequeueEntry(id: string)
      requires id in State().dead
      modifies this
      ensures State() == RequeueEntrySpec(old(State()), id)
    {
      pending := pending[id := dead[id]];
      dead := dead - {id};
    }

    /** Moves the named dead letters back to the pending queue; `ids` is the listing walked. */
    method RequeueDead(which: Option<string>, ids: seq<string>) returns (count: nat)
      requires Lists(ids, State().dead)
      modifies this
      ensures State() == RequeueSpec(old(State()), Requeued(which, old(State()).dead))
      ensures count == |Requeued(which, old(State()).dead)|
    {
      hide *;
      count := 0;
      ghost var start := State();
      RequeueEnds(start, which, ids);
      for i := 0 to |ids|
        invariant State() == RequeueSpec(start, Done(which, start.dead, ids, i))
        invariant count == |Done(which, start.dead, ids, i)|
      {
        RequeueNext(start, which, ids, i);
        if which == None || which == Some("") || which == Some(ids[i]) {
          RequeueEntry(ids[i]);
          count := count + 1;
        }
      }
    }

    method PurgeDead(which: Option<string>, ids: seq<string>) returns (count: nat)
      requires Lists(ids, dead)
      modifies this
      ensures State() == old(State()).(dead := old(dead) - Purged(which, old(dead)))
      ensures count == |Purged(which, old(dead))|
    {
      PurgedIs(which, dead);
      hide Purged;
      if which == None {
        dead, count := PurgeDir(dead, ids);
      } else if which.value in dead {
        dead := dead - {which.value};
        return 1;
      } else {
        return 0;
      }
    }

    method PurgePending(ids: seq<string>) returns (count: nat)
      requires Lists(ids, pending)
      modifies this
      ensures State() == old(State()).(pending := map[]) && count == |old(pending)|
    {
      pending, count := PurgeDir(pending, ids);
    }

    /** Removes a tracker entry (`AckTracker.remove`). */
    method Untrack(id: string) returns (found: bool)
      modifies this, tracker
      ensures State() == old(State()).(acks := old(tracker.entries) - {id})
      ensures found <==> id in old(tracker.entries)
    {
      found := tracker.Remove(id);
    }

    /** Resolves the send an acknowledgment names and drops its held entry. */
    method Acknowledge(a: Arrival, now: real)
      modifies this, tracker
      ensures State() == ReceiveOne(old(State()), Readable(a, false), tracker.fold, now)
      ensures tracker.entries.Keys == old(tracker.entries).Keys
    {
      if a.message.IsAck() {
        var confirmed := tracker.ProcessAck(a, now);
        if confirmed.Some? { pending := pending - {confirmed.value.envelope_id}; }
      }
    }

    /** Takes in one polled item; unreadable and expired ones are dropped. */
    method TakeIn(item: Inbound, now: real, pq: PQ.MessagePriorityQueue<Message>, ghost before: seq<Inbound>)
      requires pq.Valid() && pq.counter == |pq.waiting| && pq.waiting == Surviving(before)
      modifies this, tracker, pq
      ensures pq.Valid() && pq.counter == |pq.waiting| && pq.waiting == Surviving(before + [item])
      ensures State() == ReceiveOne(old(State()), item, tracker.fold, now)
      ensures tracker.entries.Keys == old(tracker.entries).Keys
    {
      assert (before + [item])[..|before|] == before;
      if item.Readable? && !item.expired {
        Acknowledge(item.arrival, now);
        pq.Push(item.arrival.message.Priority(), item.arrival.message);
      }
    }

    /** One poll: confirm what was acknowledged, then sweep, then hand on by urgency. `ids` is
        the listing of the tracker's directory, which a poll never grows or shrinks. */
    method Receive(batch: seq<Inbound>, now: real, ids: seq<string>, clock: string -> real)
      returns (messages: seq<Message>)
      requires Lists(ids, tracker.entries)
      modifies this, tracker
      ensures State() == SweepSpec(ReceiveAll(old(State()), batch, tracker.fold, now), ids, clock)
      ensures messages == PQ.Items(Ordering.StableSort(Surviving(batch), PQ.NotAfter))
    {
      hide ReceiveOne, SweepSpec, PQ.HeapOrdered, PQ.Arrivals, Ordering.StableSort;
      var pq := new PQ.MessagePriorityQueue<Message>();
      for i := 0 to |batch|
        invariant fresh(pq) && pq.Valid() && pq.counter == |pq.waiting|
        invariant pq.waiting == Surviving(batch[..i])
        invariant State() == ReceiveAll(old(State()), batch[..i], tracker.fold, now)
        invariant tracker.entries.Keys == old(tracker.entries).Keys
      {
        assert batch[..i + 1] == batch[..i] + [batch[i]] && batch[..i + 1][..i] == batch[..i];
        TakeIn(batch[i], now, pq, batch[..i]);
      }
      assert batch[..|batch|] == batch;
      SweepAckTimeouts(ids, clock);
      messages := pq.Drain();
    }
  }

  /** The named dead letters a requeue has passed. */
  ghost function Done(which: Option<string>, dead: Outbox, ids: seq<string>, i: nat): set<string>
    requires i <= |ids|
  {
    Requeued(which, dead) - Rest(ids, i)
  }

  lemma RequeueEnds(l: Ledger, which: Option<string>, ids: seq<string>)
    requires Lists(ids, l.dead)
    ensures Done(which, l.dead, ids, 0) == {} && Done(which, l.dead, ids, |ids|) == Requeued(which, l.dead)
    ensures RequeueSpec(l, {}) == l
  {
    RestOfAll(ids, l.dead);
    assert RequeueSpec(l, {}).dead == l.dead && RequeueSpec(l, {}).pending == l.pending;
  }

  lemma RequeueNext(l: Ledger, which: Option<string>, ids: seq<string>, i: nat)
    requires Lists(ids, l.dead) && i < |ids|
    ensures var done, next := Done(which, l.dead, ids, i), Done(which, l.dead, ids, i + 1);
            if which == None || which == Some("") || which == Some(ids[i]) then
              && ids[i] in RequeueSpec(l, done).dead && |next| == |done| + 1
              && RequeueSpec(l, next) == RequeueEntrySpec(RequeueSpec(l, done), ids[i])
            else next == done
  {
    hide *;
    RestShrinks(ids, l.dead, i);
    RequeuedIff(which, l.dead, ids[i]);
    DoneNext(which, l.dead, ids, i);
    if ids[i] in Requeued(which, l.dead) { RequeueOne(l, Done(which, l.dead, ids, i), ids[i]); }
  }

  lemma RequeuedIff(which: Option<string>, dead: Outbox, id: string)
    requires id in dead
    ensures id in Requeued(which, dead) <==> which == None || which == Some("") || which == Some(id)
  {
  }

  lemma DoneNext(which: Option<string>, dead: Outbox, ids: seq<string>, i: nat)
    requires Lists(ids, dead) && i < |ids|
    ensures var done, next := Done(which, dead, ids, i), Done(which, dead, ids, i + 1);
            && ids[i] !in done
            && next == (if ids[i] in Requeued(which, dead) then done + {ids[i]} else done)
            && |next| == |done| + if ids[i] in Requeued(which, dead) then 1 else 0
  {
    hide Lists, Rest, Requeued;
    RestShrinks(ids, dead, i);
    OneMore(Requeued(which, dead), Rest(ids, i), Rest(ids, i + 1), ids[i]);
  }

  lemma OneMore(all: set<string>, rest: set<string>, next: set<string>, id: string)
    requires id in rest && next == rest - {id}
    ensures id !in all - rest
    ensures id in all ==> all - next == all - rest + {id} && |all - next| == |all - rest| + 1
    ensures id !in all ==> all - next == all - rest
  {
  }

  lemma PurgedIs(which: Option<string>, dead: Outbox)
    ensures which == None ==> dead - Purged(which, dead) == map[] && |Purged(which, dead)| == |dead|
    ensures which.Some? && which.value in dead ==> Purged(which, dead) == {which.value}
    ensures which.Some? && which.value !in dead ==> Purged(which, dead) == {} && dead - Purged(which, dead) == dead
  {
    assert |dead.Keys| == |dead|;
  }

  lemma RequeueOne(l: Ledger, moved: set<string>, id: string)
    requires id in l.dead && id !in moved
    ensures id in RequeueSpec(l, moved).dead
    ensures RequeueSpec(l, moved + {id}) == RequeueEntrySpec(RequeueSpec(l, moved), id)
  {
    var m, r := RequeueSpec(l, moved), RequeueSpec(l, moved + {id});
    assert r.pending == m.pending[id := m.dead[id]];
    assert r.dead == m.dead - {id};
  }

  // ----- Whole runs -----

  /** The calls of a run. The last five are upkeep, by an operator or by housekeeping; which dead
      letters the retention rule prunes is an argument. */
  datatype Op =
    | Send(message: Message, report: Report, now: real)
    | Receive(batch: seq<Inbound>, now: real, ids: seq<string>, clock: string -> real)
    | Sweep(ids: seq<string>, clock: string -> real)
    | Retry(outcome: string -> RetryOutcome)
    | Purge(maxAge: real, now: real)
    | RequeueDead(which: Option<string>)
    | PurgeDead(which: Option<string>)
    | PruneDead(gone: set<string>)
    | PurgePending
    | Untrack(id: string)

  datatype Node = Node(bound: int, timeout: real, fold: CaseFold)

  function Step(c: Node, l: Ledger, op: Op): Ledger {
    match op
    case Send(m, report, now) => SendSpec(l, c.bound, c.timeout, m, report, now).0
    case Receive(batch, now, ids, clock) => SweepSpec(ReceiveAll(l, batch, c.fold, now), ids, clock)
    case Sweep(ids, clock) => SweepSpec(l, ids, clock)
    case Retry(outcome) => RetrySpec(l, outcome)
    case Purge(maxAge, now) => l.(acks := PurgeSpec(l.acks, maxAge, now))
    case RequeueDead(which) => RequeueSpec(l, Requeued(which, l.dead))
    case PurgeDead(which) => l.(dead := l.dead - Purged(which, l.dead))
    case PruneDead(gone) => l.(dead := l.dead - gone)
    case PurgePending => l.(pending := map[])
    case Untrack(id) => l.(acks := l.acks - {id})
  }

  const EMPTY := Ledger(map[], map[], map[], [])

  function After(c: Node, ops: seq<Op>, n: nat): Ledger
    requires n <= |ops|
  {
    if n == 0 then EMPTY else Step(c, After(c, ops, n - 1), ops[n - 1])
  }

  /** Every sweep of the run lists the tracker's directory as it is. */
  ghost predicate Listed(c: Node, ops: seq<Op>) {
    forall i :: 0 <= i < |ops| && (ops[i].Receive? || ops[i].Sweep?) ==> Lists(ops[i].ids, After(c, ops, i).acks)
  }

  function Alerts(l: Ledger, id: string): nat {
    AlertCount(l.alerts, id)
  }

  function AlertCount(alerts: seq<Alert>, id: string): nat {
    if alerts == [] then 0
    else AlertCount(alerts[..|alerts| - 1], id) + if alerts[|alerts| - 1] == DeliveryFailed(id) then 1 else 0
  }

  /** An upkeep call that names `id`. */
  predicate Upkeep(op: Op, id: string) {
    match op
    case RequeueDead(which) => which == None || which == Some("") || which == Some(id)
    case PurgeDead(which) => which == None || which == Some(id)
    case PruneDead(gone) => id in gone
    case PurgePending => true
    case Untrack(k) => k == id
    case _ => false
  }

  /** Entries of the tracker carry their own ids. */
  ghost predicate IdsMatch(e: Entries) {
    forall k :: k in e ==> e[k].envelope_id == k
  }

  lemma SweepIdsMatch(l: Ledger, ids: seq<string>, clock: string -> real)
    requires IdsMatch(l.acks)
    ensures IdsMatch(SweepSpec(l, ids, clock).acks)
  {
    SweepActs(l.(acks := TimeoutSpec(l.acks, clock)), Lapsing(ids, l.acks, clock), "");
  }

  lemma StepIdsMatch(c: Node, l: Ledger, op: Op)
    requires IdsMatch(l.acks)
    ensures IdsMatch(Step(c, l, op).acks)
  {
    match op
    case Receive(batch, now, ids, clock) =>
      ReceiveIdsMatch(l, batch, c.fold, now);
      SweepIdsMatch(ReceiveAll(l, batch, c.fold, now), ids, clock);
    case Sweep(ids, clock) => SweepIdsMatch(l, ids, clock);
    case _ =>
  }

  lemma {:induction false} IdsMatchAlways(c: Node, ops: seq<Op>, n: nat)
    requires n <= |ops|
    ensures IdsMatch(After(c, ops, n).acks)
  {
    hide Step;
    if n > 0 {
      IdsMatchAlways(c, ops, n - 1);
      StepIdsMatch(c, After(c, ops, n - 1), ops[n - 1]);
    }
  }

  lemma {:induction false} ReceiveIdsMatch(l: Ledger, batch: seq<Inbound>, fold: CaseFold, now: real)
    requires IdsMatch(l.acks)
    ensures IdsMatch(ReceiveAll(l, batch, fold, now).acks)
  {
    if batch != [] { ReceiveIdsMatch(l, batch[..|batch| - 1], fold, now); }
  }

  /** What a sweep does to one id: it is dead-lettered with one alert if it lapsed and was held. */
  lemma {:induction false} SweepActs(l: Ledger, lapsed: seq<string>, id: string)
    ensures var s := SweepFrom(l, lapsed);
            && s.acks == l.acks
            && (id in s.pending <==> id in l.pending && id !in lapsed)
            && (id in s.pending ==> s.pending[id] == l.pending[id])
            && (id in s.dead <==> id in l.dead || (id in l.pending && id in lapsed))
            && (id in s.dead ==> s.dead[id] == if id in l.pending && id in lapsed then l.pending[id] else l.dead[id])
            && Alerts(s, id) == Alerts(l, id) + if id in l.pending && id in lapsed then 1 else 0
  {
    if lapsed != [] {
      var front, k := lapsed[..|lapsed| - 1], lapsed[|lapsed| - 1];
      SweepActs(l, front, id);
      var s := SweepFrom(l, front);
      assert lapsed == front + [k];
      if k in s.pending {
        assert (s.alerts + [DeliveryFailed(k)])[..|s.alerts|] == s.alerts;
      }
    }
  }

  lemma {:induction false} ReceiveKeepsKeys(l: Ledger, batch: seq<Inbound>, fold: CaseFold, now: real)
    ensures ReceiveAll(l, batch, fold, now).acks.Keys == l.acks.Keys
  {
    if batch != [] { ReceiveKeepsKeys(l, batch[..|batch| - 1], fold, now); }
  }

  /** A send that reached only a queue, asked for an acknowledgment and could be held. */
  predicate HeldSend(c: Node, l: Ledger, op: Op) {
    && op.Send? && op.report == Report(true, true) && !Broadcast(op.message) && Tracks(op.message)
    && !Full(l.pending, c.bound, op.message.envelope_id)
  }

  /** A send that no rail took is queued for retry, but for a broadcast and for a full outbox, which
      the caller is told of; every failure is reported once. */
  lemma FailedSendQueued(l: Ledger, bound: int, timeout: real, m: Message, report: Report, now: real)
    requires !report.delivered
    ensures var (s, raised) := SendSpec(l, bound, timeout, m, report, now);
            var id := m.envelope_id;
            var refused := m.recipient != "*" && bound > 0 && id !in l.pending && |l.pending| >= bound;
            && (raised <==> refused)
            && s.pending == (if m.recipient == "*" || refused then l.pending else l.pending[id := Entry(m.recipient, false)])
            && s.alerts == l.alerts + [if refused then OutboxFull(id) else DeliveryFailed(id)]
            && s.acks == l.acks && s.dead == l.dead
  {
  }

  /** A send that some rail took is tracked when it asks for an acknowledgment and is none itself, and
      held when besides only a queue took it and there is room; a broadcast leaves no mark. */
  lemma DeliveredSendIs(l: Ledger, bound: int, timeout: real, m: Message, report: Report, now: real)
    requires report.delivered
    ensures var (s, raised) := SendSpec(l, bound, timeout, m, report, now);
            var id, one := m.envelope_id, m.recipient != "*" && m.ack_requested;
            var room := bound <= 0 || id in l.pending || |l.pending| < bound;
            && !raised && s.dead == l.dead
            && s.acks == (if one && m.payload.content_type != "ack"
                          then l.acks[id := PendingAck(id, m.recipient, now, timeout, Pending, None, None)] else l.acks)
            && s.pending == (if one && report.queued_only && room then l.pending[id := Entry(m.recipient, true)] else l.pending)
            && s.alerts == (if one && report.queued_only && !room then l.alerts + [OutboxFull(id)] else l.alerts)
  {
  }

  /** No send grows the pending queue past the bound. */
  lemma SendKeepsBound(l: Ledger, bound: int, timeout: real, m: Message, report: Report, now: real)
    ensures var s := SendSpec(l, bound, timeout, m, report, now).0;
            bound > 0 && |s.pending| > |l.pending| ==> |s.pending| <= bound
  {
    if report.delivered {
      DeliveredSendIs(l, bound, timeout, m, report, now);
    } else {
      FailedSendQueued(l, bound, timeout, m, report, now);
    }
    hide SendSpec;
    SizeAfter(l.pending, m.envelope_id, Entry(m.recipient, true));
    SizeAfter(l.pending, m.envelope_id, Entry(m.recipient, false));
  }

  lemma SizeAfter(box: Outbox, id: string, e: Entry)
    ensures |box[id := e]| == if id in box then |box| else |box| + 1
  {
    assert box[id := e].Keys == box.Keys + {id};
    assert |box[id := e]| == |box[id := e].Keys| && |box| == |box.Keys|;
  }

  /** A retry pass resolves exactly the entries that wait for no acknowledgment, as their attempt
      went: still pending, delivered and gone, or dead-lettered. */
  lemma RetryIff(l: Ledger, outcome: string -> RetryOutcome, id: string)
    requires id in l.pending
    ensures var s := RetrySpec(l, outcome);
            && (id in s.pending <==> l.pending[id].await_ack || outcome(id) == Keep)
            && (id in s.pending ==> s.pending[id] == l.pending[id])
            && (!l.pending[id].await_ack && outcome(id) == DeadLetter ==> id in s.dead && s.dead[id] == l.pending[id])
            && (l.pending[id].await_ack || outcome(id) != DeadLetter ==> (id in s.dead <==> id in l.dead))
            && s.acks == l.acks && s.alerts == l.alerts
  {
  }

  /** How urgent a message is, in words. */
  predicate MoreUrgent(a: Urgency, b: Urgency) {
    match a
    case Critical => b != Critical
    case High => b == Normal || b == Low
    case Normal => b == Low
    case Low => false
  }

  lemma PriorityOrders(a: Message, b: Message)
    ensures a.Priority() < b.Priority() <==> MoreUrgent(a.urgency, b.urgency)
    ensures a.Priority() == b.Priority() <==> a.urgency == b.urgency
  {
  }

  /** A poll hands on its messages by urgency: none stands behind a less urgent one. */
  lemma UrgentFirst(batch: seq<Inbound>, i: nat, j: nat)
    requires i < j < |Surviving(batch)|
    ensures var handed := PQ.Items(Ordering.StableSort(Surviving(batch), PQ.NotAfter));
            |handed| == |Surviving(batch)| && !MoreUrgent(handed[j].urgency, handed[i].urgency)
  {
    var s, sorted := Surviving(batch), Ordering.StableSort(Surviving(batch), PQ.NotAfter);
    PQ.NotAfterIsPreorder<Message>();
    Ordering.StableSortCorrect(s, PQ.NotAfter);
    assert |multiset(sorted)| == |sorted| && |multiset(s)| == |s|;
    assert PQ.NotAfter(sorted[i], sorted[j]);
    forall e | e in sorted ensures e.priority == e.item.Priority() {
      assert e in multiset(sorted);
      SurvivingPriorities(batch, e);
    }
    PriorityOrders(sorted[j].item, sorted[i].item);
  }

  /** A poll hands on exactly the messages of its readable items that have not expired. */
  lemma {:induction false} SurvivingIff(batch: seq<Inbound>, m: Message)
    ensures (exists e :: e in Surviving(batch) && e.item == m) <==>
            exists k :: 0 <= k < |batch| && batch[k].Readable? && !batch[k].expired && batch[k].arrival.message == m
  {
    if batch != [] {
      var front, item := batch[..|batch| - 1], batch[|batch| - 1];
      SurvivingIff(front, m);
      if k :| 0 <= k < |front| && front[k].Readable? && !front[k].expired && front[k].arrival.message == m {
        assert batch[k] == front[k];
      }
      if item.Readable? && !item.expired && item.arrival.message == m {
        assert Surviving(batch)[|Surviving(batch)| - 1].item == m;
      }
      if e :| e in Surviving(batch) && e.item == m { assert e in Surviving(front) || item.Readable?; }
      if e :| e in Surviving(front) && e.item == m { assert e in Surviving(batch); }
    }
  }

  lemma HandedOnIff(batch: seq<Inbound>, m: Message)
    ensures m in PQ.Items(Ordering.StableSort(Surviving(batch), PQ.NotAfter)) <==>
            exists k :: 0 <= k < |batch| && batch[k].Readable? && !batch[k].expired && batch[k].arrival.message == m
  {
    SurvivingIff(batch, m);
    var s, sorted := Surviving(batch), Ordering.StableSort(Surviving(batch), PQ.NotAfter);
    Ordering.SortMembers(s, PQ.NotAfter);
    hide Surviving, Ordering.StableSort, PQ.NotAfter;
    if e :| e in s && e.item == m {
      var i :| 0 <= i < |sorted| && sorted[i] == e;
      assert PQ.Items(sorted)[i] == m;
    }
    if m in PQ.Items(sorted) {
      var i :| 0 <= i < |sorted| && PQ.Items(sorted)[i] == m;
      assert sorted[i] in s;
    }
  }

  lemma {:induction false} SurvivingPriorities(batch: seq<Inbound>, e: PQ.Entry<Message>)
    requires e in Surviving(batch)
    ensures e.priority == e.item.Priority()
  {
    if batch != [] && e in Surviving(batch[..|batch| - 1]) { SurvivingPriorities(batch[..|batch| - 1], e); }
  }

  /** A dead letter moved back for retry is resolved by the next retry pass exactly when it waits
      for no acknowledgment and that pass would resolve it. */
  lemma RequeueRetriesIff(c: Node, l: Ledger, which: Option<string>, outcome: string -> RetryOutcome, id: string)
    requires id in l.dead && Upkeep(RequeueDead(which), id)
    ensures var s := Step(c, Step(c, l, RequeueDead(which)), Retry(outcome));
            && (id !in s.pending <==> !l.dead[id].await_ack && outcome(id) != Keep)
            && (id in s.pending ==> s.pending[id] == l.dead[id])
  {
  }

  /** A lapse is reported exactly when the send was held: one whose hold met a full outbox
      times out in silence. */
  lemma LapseAlertsIffHeld(l: Ledger, ids: seq<string>, clock: string -> real, id: string)
    requires Lists(ids, l.acks) && id in l.acks && IsExpired(l.acks[id], clock(id))
    ensures var s := SweepSpec(l, ids, clock);
            id in s.acks && s.acks[id].status == TimedOut
            && (Alerts(s, id) == Alerts(l, id) + 1 <==> id in l.pending)
            && (Alerts(s, id) == Alerts(l, id) <==> id !in l.pending)
  {
    SweepActs(l.(acks := TimeoutSpec(l.acks, clock)), Lapsing(ids, l.acks, clock), id);
  }

  /** A queued send that asks for an acknowledgment and finds room is held, whatever its type; it
      is tracked exactly when it is not itself an acknowledgment. */
  lemma HeldSendTrackedIff(c: Node, l: Ledger, op: Op)
    requires op.Send? && op.report == Report(true, true) && !Broadcast(op.message) && op.message.ack_requested
    requires !Full(l.pending, c.bound, op.message.envelope_id)
    ensures var s, id := Step(c, l, op), op.message.envelope_id;
            && id in s.pending && s.pending[id].await_ack
            && (op.message.IsAck() ==> s.acks == l.acks)
            && (!op.message.IsAck() ==> id in s.acks && s.acks[id].status == Pending)
            && (id !in l.acks ==> (id in s.acks <==> !op.message.IsAck()))
  {
  }

  /** A queued send of an ACK-typed message is held but never tracked, so it stays held for ever
      but for upkeep: until the pending queue is purged, or an older dead letter of the same id
      that waits for no acknowledgment is requeued over it. */
  lemma {:induction false} UntrackedHoldStays(c: Node, ops: seq<Op>, i: nat, n: nat, id: string)
    requires i < n <= |ops| && Listed(c, ops)
    requires ops[i].Send? && ops[i].report == Report(true, true) && !Broadcast(ops[i].message)
    requires ops[i].message.IsAck() && ops[i].message.ack_requested && ops[i].message.envelope_id == id
    requires id !in After(c, ops, i).acks && !Full(After(c, ops, i).pending, c.bound, id)
    requires forall k :: i < k < |ops| && ops[k].Send? ==> ops[k].message.envelope_id != id
    ensures (forall k :: i < k <= n ==> Stuck(After(c, ops, k), id))
            <==> forall k :: i < k < n ==> !Frees(After(c, ops, k), ops[k], id)
    decreases n
  {
    hide Stuck, After, Listed, Full, Broadcast, Frees;
    if n == i + 1 {
      UntrackedSend(c, ops, i);
    } else {
      UntrackedHoldStays(c, ops, i, n - 1, id);
      if Stuck(After(c, ops, n - 1), id) { UntrackedStep(c, ops, n - 1, id); }
    }
  }

  /** Held, and waiting for an acknowledgment that nothing tracks. */
  predicate Stuck(l: Ledger, id: string) {
    id !in l.acks && id in l.pending && l.pending[id].await_ack
  }

  /** The upkeep that ends such a hold. */
  predicate Frees(l: Ledger, op: Op, id: string) {
    op.PurgePending? || (op.RequeueDead? && Upkeep(op, id) && id in l.dead && !l.dead[id].await_ack)
  }

  lemma UntrackedSend(c: Node, ops: seq<Op>, i: nat)
    requires i < |ops| && ops[i].Send? && ops[i].report == Report(true, true) && !Broadcast(ops[i].message)
    requires ops[i].message.IsAck() && ops[i].message.ack_requested
    requires var l := After(c, ops, i);
             ops[i].message.envelope_id !in l.acks && !Full(l.pending, c.bound, ops[i].message.envelope_id)
    ensures Stuck(After(c, ops, i + 1), ops[i].message.envelope_id)
  {
  }

  lemma UntrackedStep(c: Node, ops: seq<Op>, n: nat, id: string)
    requires n < |ops| && Listed(c, ops) && Stuck(After(c, ops, n), id)
    requires ops[n].Send? ==> ops[n].message.envelope_id != id
    ensures Stuck(After(c, ops, n + 1), id) <==> !Frees(After(c, ops, n), ops[n], id)
  {
    IdsMatchAlways(c, ops, n);
    hide Stuck, Frees, Step;
    StuckStays(c, After(c, ops, n), ops[n], id);
  }

  lemma StuckStays(c: Node, l: Ledger, op: Op, id: string)
    requires IdsMatch(l.acks) && Stuck(l, id)
    requires op.Send? ==> op.message.envelope_id != id
    requires op.Receive? || op.Sweep? ==> Lists(op.ids, l.acks)
    ensures Stuck(Step(c, l, op), id) <==> !Frees(l, op, id)
  {
    match op
    case Receive(batch, now, ids, clock) =>
      UntrackedReceive(l, batch, c.fold, now, id);
      var r := ReceiveAll(l, batch, c.fold, now);
      SweepActs(r.(acks := TimeoutSpec(r.acks, clock)), Lapsing(ids, r.acks, clock), id);
    case Sweep(ids, clock) =>
      SweepActs(l.(acks := TimeoutSpec(l.acks, clock)), Lapsing(ids, l.acks, clock), id);
    case _ =>
  }

  lemma {:induction false} UntrackedReceive(l: Ledger, batch: seq<Inbound>, fold: CaseFold, now: real, id: string)
    requires IdsMatch(l.acks)
    requires id !in l.acks && id in l.pending && l.pending[id].await_ack
    ensures var r := ReceiveAll(l, batch, fold, now);
            id !in r.acks && id in r.pending && r.pending[id] == l.pending[id]
  {
    if batch != [] {
      UntrackedReceive(l, batch[..|batch| - 1], fold, now, id);
      ReceiveIdsMatch(l, batch[..|batch| - 1], fold, now);
    }
  }
}

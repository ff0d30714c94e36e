/** The automatic acknowledgment (core.py, ack.py, models.py): a receiver answers what it takes off
    a rail, and the answer, taken off by the first sender, confirms the tracked send. */
module AutoAck {
  import opened Common
  import opened Messages
  import opened PayloadCrypto
  import opened MessageWire
  import AT = AckTracker
  import DL = DeliveryLedger
  import HS = HeldSends

  /** What a fresh message draws. */
  datatype Stamp = Stamp(id: string, created: real)

  predicate ShouldAck(m: Message) {
    m.ack_requested && !m.IsAck()
  }

  function MakeAck(m: Message, sender: string, stamp: Stamp): Message {
    Message(stamp.id, sender, m.sender, Payload(m.envelope_id, "ack", false, false, None), FAILOVER, DEFAULT_TTL,
            false, m.thread_id, Some(m.envelope_id), Low, stamp.created, None)
  }

  /** The acknowledgment a node routes for a message it took off: the unsigned wire form, protected
      like any payload but never compressed. None when none is asked for, or crypto fails. */
  function Answer(prim: Primitives, node: Sender, m: Message, stamp: Stamp): Option<Message> {
    if !ShouldAck(m) then None
    else match ApplyOutbound(prim, node.engine, node.config, node.keys, MakeAck(m, node.identity, stamp))
      case Done(p) => Some(p)
      case _ => None
  }

  /** Whether what `node` sends to `recipient` under its local name can be read at the other end. */
  ghost predicate Opens(prim: Primitives, node: Sender, recipient: string, there: Receiver) {
    node.engine.Some? ==>
      Readable(prim, Protect(node.engine, node.config, node.keys, recipient), node.engine.value, there.engine,
               node.identity, node.identity, recipient)
  }

  /** An answer arrives as an acknowledgment under the answering node's local name; its text is the
      id it answers when it can be read, and the ciphertext when not. */
  lemma AnswerArrives(prim: Primitives, node: Sender, m: Message, stamp: Stamp, there: Receiver, now: real)
    requires Assumptions(prim, node, there) && Answer(prim, node, m, stamp).Some?
    ensures var ack := Answer(prim, node, m, stamp).value;
            var back := TakeOff(prim, there, LegacyWire(ack), now);
            && back.Some? && back.value.IsAck() && back.value.sender == node.identity
            && back.value.payload.content
               == (if Opens(prim, node, m.sender, there) then m.envelope_id else ack.payload.content)
            && back.value.recipient == m.sender && back.value.thread_id == m.thread_id && back.value.urgency == Low
            && back.value.in_reply_to == Some(m.envelope_id) && back.value.envelope_id == stamp.id
            && !back.value.ack_requested && Answer(prim, node, back.value, stamp) == None
  {
    var plain := MakeAck(m, node.identity, stamp);
    var ack := Answer(prim, node, m, stamp).value;
    OutboundKeeps(prim, node.engine, node.config, node.keys, plain);
    if node.engine.Some? {
      InboundOfOutbound(prim, node.engine.value, node.config, node.keys, plain, there.engine, ack);
    }
  }

  /** The round trip. When a node has taken off a message and its answer comes back, the answer
      confirms the send exactly when the first sender can read it (or the text on the wire happens
      to be the id), the answering node's local name matches the recipient the send is tracked
      under, and the verifier vouches for it. Whether the answering node could read the message
      plays no part. */
  lemma AnswerConfirmsIff(prim: Primitives, a: Sender, m: Message, draw: Draw, b: Sender, atB: Receiver, now: real,
                          stamp: Stamp, atA: Receiver, later: real, sends: AT.Entries, vouch: Message -> bool,
                          fold: AT.CaseFold)
    requires Fresh(m) && m.sender == a.identity && Assumptions(prim, a, atB) && Emit(prim, a, m, draw).Done?
    requires Assumptions(prim, b, atA)
    requires m.envelope_id in sends && sends[m.envelope_id].status == AT.Pending
    ensures var w := Emit(prim, a, m, draw).value;
            var got := TakeOff(prim, atB, w, now);
            && got.Some?
            && (AT.Tracks(m) <==> ShouldAck(got.value))
            && (ShouldAck(got.value) <==> m.ack_requested && m.payload.content_type != "ack")
            && (var ack := Answer(prim, b, got.value, stamp);
                ack.Some? ==>
                  var back := TakeOff(prim, atA, LegacyWire(ack.value), later);
                  && back.Some?
                  && (AT.Confirms(sends, AT.Arrival(back.value, vouch(back.value)), fold)
                      && back.value.payload.content == m.envelope_id
                      <==>
                      && (Opens(prim, b, WireSender(a, w), atA) || ack.value.payload.content == m.envelope_id)
                      && AT.Matches(b.identity, sends[m.envelope_id].recipient, fold)
                      && vouch(back.value)))
  {
    EndToEnd(prim, a, m, draw, atB, now);
    var got := TakeOff(prim, atB, Emit(prim, a, m, draw).value, now).value;
    if Answer(prim, b, got, stamp).Some? {
      AnswerArrives(prim, b, got, stamp, atA, later);
    }
  }

  /** And in the ledger: a poll that brings the answer, and no other acknowledgment of the send,
      confirms and releases the held send under the same condition; otherwise its deadline decides. */
  lemma AnswerReleasesIff(prim: Primitives, a: Sender, m: Message, draw: Draw, b: Sender, atB: Receiver, now: real,
                          stamp: Stamp, atA: Receiver, later: real, vouch: Message -> bool,
                          c: DL.Node, l: DL.Ledger, p: AT.PendingAck, batch: seq<DL.Inbound>, j: nat,
                          ids: seq<string>, clock: string -> real)
    requires Fresh(m) && m.sender == a.identity && Assumptions(prim, a, atB) && Emit(prim, a, m, draw).Done?
    requires Assumptions(prim, b, atA)
    requires p.envelope_id == m.envelope_id && p.status == AT.Pending && HS.At(l, p, HS.AWAITING)
    requires DL.IdsMatch(l.acks) && AT.Lists(ids, l.acks)
    requires var got := TakeOff(prim, atB, Emit(prim, a, m, draw).value, now);
             got.Some? && Answer(prim, b, got.value, stamp).Some? && j < |batch|
             && var back := TakeOff(prim, atA, LegacyWire(Answer(prim, b, got.value, stamp).value), later);
                back.Some? && batch[j] == DL.Readable(AT.Arrival(back.value, vouch(back.value)), false)
    requires forall k :: 0 <= k < |batch| && k != j ==> !HS.AcksSend(p, batch[k], c.fold)
    ensures var w := Emit(prim, a, m, draw).value;
            var ack := Answer(prim, b, TakeOff(prim, atB, w, now).value, stamp).value;
            var back := TakeOff(prim, atA, LegacyWire(ack), later).value;
            HS.OnlyAt(DL.Step(c, l, DL.Receive(batch, later, ids, clock)), p,
                      if (Opens(prim, b, WireSender(a, w), atA) || ack.payload.content == m.envelope_id)
                         && AT.Matches(b.identity, p.recipient, c.fold) && vouch(back)
                      then HS.Acknowledged(later)
                      else if clock(p.envelope_id) > p.sent_at + p.ack_timeout then HS.DEAD
                      else HS.AWAITING)
  {
    var got := TakeOff(prim, atB, Emit(prim, a, m, draw).value, now).value;
    EndToEnd(prim, a, m, draw, atB, now);
    AnswerArrives(prim, b, got, stamp, atA, later);
    HS.PollSettles(c, l, batch, later, ids, clock, p);
    hide HS.At, HS.OnlyAt, DL.Step, TakeOff, Emit, Answer, Opens, Assumptions, AT.Matches, AT.Lists, DL.IdsMatch;
    if HS.AcksSend(p, batch[j], c.fold) {
      assert HS.Carries(p, batch, c.fold);
    } else {
      assert !HS.Carries(p, batch, c.fold);
    }
  }

  /** An fqid never matches the bare local name in it: a send tracked under the fqid is confirmed by
      no answer of the node that goes by the name. */
  lemma FqidNeedsFqid(name: string, realm: string, fold: AT.CaseFold)
    requires forall ch :: fold(ch) != ""
    ensures !AT.Matches(name, name + "@" + realm, fold)
  {
    var rest := "@" + realm;
    assert name + "@" + realm == name + rest;
    AT.NormalizeConcat(name, rest, fold);
    AT.NormalizeSpacesIff(rest, fold);
    assert rest[0] == '@';
    assert AT.Normalize(rest, fold) != "";
    assert |AT.Normalize(name + rest, fold)| > |AT.Normalize(name, fold)|;
  }
}

/** Delivery acknowledgments of ack.py. `fold` stands for Unicode case folding of one character. */
module AckTracker {
  import opened Common
  import opened Messages

  // ----- Identities -----

  type CaseFold = char -> string

  /** The identity without its blanks, case folded. */
  function Normalize(s: string, fold: CaseFold): string {
    if s == "" then ""
    else (if s[0] == ' ' then "" else fold(s[0])) + Normalize(s[1..], fold)
  }

  predicate Matches(a: string, b: string, fold: CaseFold) {
    a != "" && b != "" && Normalize(a, fold) == Normalize(b, fold)
  }

  lemma {:induction false} NormalizeConcat(a: string, b: string, fold: CaseFold)
    ensures Normalize(a + b, fold) == Normalize(a, fold) + Normalize(b, fold)
  {
    if a == "" {
      assert a + b == b;
    } else {
      NormalizeConcat(a[1..], b, fold);
      assert (a + b)[0] == a[0] && (a + b)[1..] == a[1..] + b;
      Regroup(if a[0] == ' ' then "" else fold(a[0]), Normalize(a[1..], fold), Normalize(b, fold));
    }
  }

  /** Matching is symmetric and transitive, never holds of an empty identity, holds of every
      other one with itself, and does not see spacing. */
  lemma MatchesIsPartialEquivalence(a: string, b: string, c: string, fold: CaseFold)
    ensures Matches(a, b, fold) <==> Matches(b, a, fold)
    ensures Matches(a, b, fold) && Matches(b, c, fold) ==> Matches(a, c, fold)
    ensures Matches(a, a, fold) <==> a != ""
    ensures !Matches("", b, fold) && !Matches(a, "", fold)
    ensures a + b != "" ==> Matches(a + b, a + " " + b, fold)
  {
    NormalizeConcat(a, b, fold);
    NormalizeConcat(a, " " + b, fold);
    NormalizeConcat(" ", b, fold);
    assert a + (" " + b) == a + " " + b;
    assert Normalize(" ", fold) == Normalize("", fold);
  }

  /** Equal letter by letter but for case; blanks stand where blanks stand. */
  predicate SameButCase(a: string, b: string, fold: CaseFold) {
    |a| == |b|
    && forall i :: 0 <= i < |a| ==> a[i] == b[i] || (a[i] != ' ' && b[i] != ' ' && fold(a[i]) == fold(b[i]))
  }

  /** Identities that differ in letter case alone match. */
  lemma {:induction false} MatchesBlindToCase(a: string, b: string, fold: CaseFold)
    requires SameButCase(a, b, fold)
    ensures Normalize(a, fold) == Normalize(b, fold) && (a != "" ==> Matches(a, b, fold))
  {
    if a != "" {
      assert SameButCase(a[1..], b[1..], fold);
      MatchesBlindToCase(a[1..], b[1..], fold);
    }
  }

  predicate AllSpaces(s: string) {
    forall i :: 0 <= i < |s| ==> s[i] == ' '
  }

  lemma {:induction false} NormalizeSpacesIff(s: string, fold: CaseFold)
    requires forall ch :: fold(ch) != ""
    ensures Normalize(s, fold) == "" <==> AllSpaces(s)
  {
    if s != "" {
      NormalizeSpacesIff(s[1..], fold);
      assert AllSpaces(s) <==> s[0] == ' ' && AllSpaces(s[1..]) by {
        if s[0] == ' ' && AllSpaces(s[1..]) {
          forall i | 0 <= i < |s| ensures s[i] == ' ' { if i > 0 { assert s[1..][i - 1] == ' '; } }
        }
        if AllSpaces(s) {
          forall i | 0 <= i < |s[1..]| ensures s[1..][i] == ' ' { assert s[1..][i] == s[i + 1]; }
        }
      }
    }
  }

  /** An identity of spaces alone is not empty, and matches exactly the other such identities. */
  lemma SpacesMatchIff(a: string, b: string, fold: CaseFold)
    requires forall ch :: fold(ch) != ""
    requires a != "" && AllSpaces(a)
    ensures Matches(a, b, fold) <==> b != "" && AllSpaces(b)
  {
    NormalizeSpacesIff(a, fold);
    NormalizeSpacesIff(b, fold);
  }

  /** The text without its spaces. */
  function Spaceless(s: string): string {
    if s == "" then "" else (if s[0] == ' ' then "" else [s[0]]) + Spaceless(s[1..])
  }

  lemma {:induction false} SpacelessPlain(s: string)
    requires ' ' !in s
    ensures Spaceless(s) == s
  {
    if s != "" { SpacelessPlain(s[1..]); }
  }

  /** Both non-empty, and letter by letter the same but for case once the spaces are gone. */
  predicate SameLetters(a: string, b: string, fold: CaseFold) {
    var x, y := Spaceless(a), Spaceless(b);
    a != "" && b != "" && |x| == |y| && forall i :: 0 <= i < |x| ==> fold(x[i]) == fold(y[i])
  }

  lemma {:induction false} NormalizeLetters(s: string, fold: CaseFold)
    requires forall ch :: |fold(ch)| == 1
    ensures |Normalize(s, fold)| == |Spaceless(s)|
    ensures forall i :: 0 <= i < |Spaceless(s)| ==> [Normalize(s, fold)[i]] == fold(Spaceless(s)[i])
  {
    if s != "" {
      var n, x := Normalize(s, fold), Spaceless(s);
      NormalizeLetters(s[1..], fold);
      if s[0] != ' ' {
        assert n[1..] == Normalize(s[1..], fold) && x[1..] == Spaceless(s[1..]);
        forall i | 0 <= i < |x| ensures [n[i]] == fold(x[i]) {
          if i > 0 { assert n[i] == n[1..][i - 1] && x[i] == x[1..][i - 1]; }
        }
      }
    }
  }

  /** Under a fold of one letter to one letter, identities match exactly when they are the same
      letters in the same order but for case and spaces; without spaces, exactly when they are equally
      long and fold alike at every place. */
  lemma MatchesIff(a: string, b: string, fold: CaseFold)
    requires forall ch :: |fold(ch)| == 1
    ensures Matches(a, b, fold) <==> SameLetters(a, b, fold)
    ensures ' ' !in a && ' ' !in b ==>
              (Matches(a, b, fold) <==>
               a != "" && |a| == |b| && forall i :: 0 <= i < |a| ==> fold(a[i]) == fold(b[i]))
  {
    var x, y := Spaceless(a), Spaceless(b);
    var m, n := Normalize(a, fold), Normalize(b, fold);
    NormalizeLetters(a, fold);
    NormalizeLetters(b, fold);
    if SameLetters(a, b, fold) {
      forall i | 0 <= i < |m| ensures m[i] == n[i] { assert [m[i]] == fold(x[i]) == fold(y[i]) == [n[i]]; }
      assert m == n;
    }
    if Matches(a, b, fold) {
      forall i | 0 <= i < |x| ensures fold(x[i]) == fold(y[i]) { assert [m[i]] == [n[i]]; }
    }
    if ' ' !in a && ' ' !in b { SpacelessPlain(a); SpacelessPlain(b); }
  }

  // ----- Tracked sends -----

  datatype Status = Pending | Confirmed | TimedOut

  datatype PendingAck = PendingAck(envelope_id: string, recipient: string, sent_at: real, ack_timeout: real,
                                   status: Status, confirmed_at: Option<real>, confirmed_via: Option<string>)

  type Entries = map<string, PendingAck>

  /** What the tracker sees of an arriving message: the message, and whether the configured
      sender verifier (if any) vouches for it. */
  datatype Arrival = Arrival(message: Message, authentic: bool)

  predicate Tracks(m: Message) {
    m.ack_requested && !m.IsAck()
  }

  function TrackSpec(e: Entries, m: Message, timeout: real, now: real): Entries {
    if Tracks(m)
    then e[m.envelope_id := PendingAck(m.envelope_id, m.recipient, now, timeout, Pending, None, None)]
    else e
  }

  /** The arrival confirms the send whose id it carries. */
  predicate Confirms(e: Entries, a: Arrival, fold: CaseFold) {
    var id := a.message.payload.content;
    && a.message.IsAck() && id in e
    && Matches(a.message.sender, e[id].recipient, fold)
    && a.authentic
    && e[id].status == Pending
  }

  function ProcessSpec(e: Entries, a: Arrival, fold: CaseFold, now: real): (Entries, Option<PendingAck>) {
    if Confirms(e, a, fold) then
      var id := a.message.payload.content;
      var p := e[id].(status := Confirmed, confirmed_at := Some(now), confirmed_via := a.message.delivered_via);
      (e[id := p], Some(p))
    else (e, None)
  }

  /** An acknowledgment confirms exactly a pending entry of the id in its text, from a sender of the
      same letters as the tracked recipient, when the verifier vouches for it; any other arrival
      leaves every entry as it was. */
  lemma ConfirmsIff(e: Entries, a: Arrival, fold: CaseFold, now: real)
    requires forall ch :: |fold(ch)| == 1
    ensures var id := a.message.payload.content;
            var confirms := a.message.payload.content_type == "ack" && id in e && e[id].status == Pending && a.authentic
                            && SameLetters(a.message.sender, e[id].recipient, fold);
            var (e', p) := ProcessSpec(e, a, fold, now);
            && (p.Some? <==> confirms)
            && (!confirms ==> e' == e)
            && (confirms ==>
                && e'.Keys == e.Keys && p == Some(e'[id]) && (forall k :: k in e && k != id ==> e'[k] == e[k])
                && e'[id] == e[id].(status := Confirmed, confirmed_at := Some(now), confirmed_via := a.message.delivered_via))
  {
    if a.message.payload.content in e { MatchesIff(a.message.sender, e[a.message.payload.content].recipient, fold); }
    hide Matches, SameLetters;
  }

  predicate IsExpired(p: PendingAck, now: real) {
    p.status == Pending && now - p.sent_at > p.ack_timeout
  }

  /** Entries after a timeout pass; `clock` is the reading taken for each entry. */
  function TimeoutSpec(e: Entries, clock: string -> real): Entries {
    map k | k in e :: if IsExpired(e[k], clock(k)) then e[k].(status := TimedOut) else e[k]
  }

  /** The ids of `ids` that a timeout pass marks, in listing order. */
  function Lapsing(ids: seq<string>, e: Entries, clock: string -> real): (r: seq<string>)
    ensures forall k :: k in r <==> k in ids && k in e && IsExpired(e[k], clock(k))
  {
    if ids == [] then []
    else
      var front := Lapsing(ids[..|ids| - 1], e, clock);
      var k := ids[|ids| - 1];
      if k in e && IsExpired(e[k], clock(k)) then front + [k] else front
  }

  /** Lapsed ids come in the order of the listing. */
  lemma {:induction false} LapsingOrder(ids: seq<string>, e: Entries, clock: string -> real, p: nat, q: nat)
    returns (i: nat, j: nat)
    requires p < q < |Lapsing(ids, e, clock)|
    ensures i < j < |ids| && ids[i] == Lapsing(ids, e, clock)[p] && ids[j] == Lapsing(ids, e, clock)[q]
  {
    var front := ids[..|ids| - 1];
    if q < |Lapsing(front, e, clock)| {
      i, j := LapsingOrder(front, e, clock, p, q);
    } else {
      assert Lapsing(front, e, clock)[p] in front;
      i :| 0 <= i < |front| && front[i] == Lapsing(front, e, clock)[p];
      j := |ids| - 1;
    }
  }

  function PurgeSpec(e: Entries, maxAge: real, now: real): Entries {
    map k | k in e && !Stale(e[k], maxAge, now) :: e[k]
  }

  predicate Stale(p: PendingAck, maxAge: real, now: real) {
    p.status == Confirmed && p.confirmed_at.Some? && now - p.confirmed_at.value > maxAge
  }

  /** A directory listing: every entry once. */
  ghost predicate Lists<V>(ids: seq<string>, e: map<string, V>) {
    && (forall i, j :: 0 <= i < j < |ids| ==> ids[i] != ids[j])
    && (forall k :: k in ids <==> k in e)
  }

  /** The ids a pass has not reached yet. */
  ghost function Rest(ids: seq<string>, i: nat): set<string>
    requires i <= |ids|
  {
    set k | k in ids[i..]
  }

  lemma RestOfAll<V>(ids: seq<string>, e: map<string, V>)
    requires Lists(ids, e)
    ensures Rest(ids, 0) == e.Keys && Rest(ids, |ids|) == {}
  {
    assert ids[0..] == ids;
  }

  lemma RestShrinks<V>(ids: seq<string>, e: map<string, V>, i: nat)
    requires Lists(ids, e) && i < |ids|
    ensures ids[i] in e && ids[i] in Rest(ids, i) && Rest(ids, i + 1) == Rest(ids, i) - {ids[i]}
  {
    assert ids[i] !in ids[i + 1..];
    assert ids[i..] == [ids[i]] + ids[i + 1..];
  }

  lemma LapsingNext(ids: seq<string>, i: nat, e: Entries, clock: string -> real)
    requires i < |ids| && ids[i] in e
    ensures Lapsing(ids[..i + 1], e, clock)
            == Lapsing(ids[..i], e, clock) + if IsExpired(e[ids[i]], clock(ids[i])) then [ids[i]] else []
  {
    assert ids[..i + 1][..i] == ids[..i];
  }

  ghost function TimeoutUpTo(e: Entries, rest: set<string>, clock: string -> real): Entries {
    map k | k in e :: if k in rest then e[k] else TimeoutSpec(e, clock)[k]
  }

  lemma TimeoutOne(e: Entries, rest: set<string>, clock: string -> real, k: string)
    requires k in e && k in rest
    ensures k in TimeoutUpTo(e, rest, clock) && TimeoutUpTo(e, rest, clock)[k] == e[k]
    ensures TimeoutUpTo(e, rest - {k}, clock)
            == if IsExpired(e[k], clock(k)) then TimeoutUpTo(e, rest, clock)[k := e[k].(status := TimedOut)]
               else TimeoutUpTo(e, rest, clock)
  {
  }

  lemma TimeoutEnds(ids: seq<string>, e: Entries, clock: string -> real)
    requires Lists(ids, e)
    ensures TimeoutUpTo(e, Rest(ids, 0), clock) == e && TimeoutUpTo(e, Rest(ids, |ids|), clock) == TimeoutSpec(e, clock)
    ensures Lapsing(ids[..0], e, clock) == [] && ids[..|ids|] == ids
  {
    RestOfAll(ids, e);
  }

  ghost function PurgeUpTo(e: Entries, rest: set<string>, maxAge: real, now: real): Entries {
    map k | k in e && (k in rest || !Stale(e[k], maxAge, now)) :: e[k]
  }

  lemma PurgeOne(e: Entries, rest: set<string>, maxAge: real, now: real, k: string)
    requires k in e && k in rest
    ensures var m := PurgeUpTo(e, rest, maxAge, now);
            && k in m && m[k] == e[k] && |m - {k}| == |m| - 1
            && PurgeUpTo(e, rest - {k}, maxAge, now) == if Stale(e[k], maxAge, now) then m - {k} else m
  {
    var m := PurgeUpTo(e, rest, maxAge, now);
    assert m.Keys == (m - {k}).Keys + {k};
    var next := PurgeUpTo(e, rest - {k}, maxAge, now);
    if Stale(e[k], maxAge, now) { assert next == m - {k}; } else { assert next == m; }
  }

  class AckTracker {
    const timeout: real
    const fold: CaseFold
    /** One file an id. */
    var entries: Entries

    constructor (timeout: real, fold: CaseFold, stored: Entries)
      ensures this.timeout == timeout && this.fold == fold && entries == stored
    {
      this.timeout := timeout;
      this.fold := fold;
      entries := stored;
    }

    method Track(m: Message, now: real) returns (p: Option<PendingAck>)
      modifies this
      ensures entries == TrackSpec(old(entries), m, timeout, now)
      ensures p.Some? <==> Tracks(m)
      ensures p.Some? ==> p == Some(entries[m.envelope_id])
    {
      if !m.ack_requested { return None; }
      if m.IsAck() { return None; }
      var pending := PendingAck(m.envelope_id, m.recipient, now, timeout, Pending, None, None);
      entries := entries[m.envelope_id := pending];
      return Some(pending);
    }

    method ProcessAck(a: Arrival, now: real) returns (p: Option<PendingAck>)
      modifies this
      ensures (entries, p) == ProcessSpec(old(entries), a, fold, now)
    {
      if !a.message.IsAck() { return None; }
      var id := a.message.payload.content;
      if id !in entries { return None; }
      var pending := entries[id];
      if !Matches(a.message.sender, pending.recipient, fold) { return None; }
      if !a.authentic { return None; }
      if pending.status != Pending { return None; }
      pending := pending.(status := Confirmed, confirmed_at := Some(now),
                          confirmed_via := a.message.delivered_via);
      entries := entries[id := pending];
      return Some(pending);
    }

    /** `ids` is the directory listing the pass walks. */
    method CheckTimeouts(ids: seq<string>, clock: string -> real) returns (lapsed: seq<string>)
      requires Lists(ids, entries)
      modifies this
      ensures entries == TimeoutSpec(old(entries), clock)
      ensures lapsed == Lapsing(ids, old(entries), clock)
    {
      hide Lapsing, TimeoutUpTo, TimeoutSpec, Rest, Lists;
      lapsed := [];
      ghost var was := entries;
      TimeoutEnds(ids, was, clock);
      for i := 0 to |ids|
        invariant lapsed == Lapsing(ids[..i], was, clock)
        invariant entries == TimeoutUpTo(was, Rest(ids, i), clock)
      {
        RestShrinks(ids, was, i);
        LapsingNext(ids, i, was, clock);
        TimeoutOne(was, Rest(ids, i), clock, ids[i]);
        var pending := entries[ids[i]];
        if pending.status == Pending && IsExpired(pending, clock(ids[i])) {
          pending := pending.(status := TimedOut);
          entries := entries[ids[i] := pending];
          lapsed := lapsed + [ids[i]];
        }
      }
    }

    method PurgeConfirmed(ids: seq<string>, maxAge: real, now: real) returns (removed: nat)
      requires Lists(ids, entries)
      modifies this
      ensures entries == PurgeSpec(old(entries), maxAge, now)
      ensures removed == |old(entries)| - |entries|
    {
      removed := 0;
      ghost var was := entries;
      RestOfAll(ids, was);
      for i := 0 to |ids|
        invariant entries == PurgeUpTo(was, Rest(ids, i), maxAge, now)
        invariant removed + |entries| == |was|
      {
        RestShrinks(ids, was, i);
        PurgeOne(was, Rest(ids, i), maxAge, now, ids[i]);
        var pending := entries[ids[i]];
        if pending.status == Confirmed && pending.confirmed_at.Some? {
          if now - pending.confirmed_at.value > maxAge {
            entries := entries - {ids[i]};
            removed := removed + 1;
          }
        }
      }
    }

    method Remove(id: string) returns (found: bool)
      modifies this
      ensures entries == old(entries) - {id} && (found <==> id in old(entries))
    {
      found := id in entries;
      entries := entries - {id};
    }
  }

  // ----- Whole runs -----

  datatype Op =
    | Track(message: Message, timeout: real, now: real)
    | Process(arrival: Arrival, now: real)
    | CheckTimeouts(clock: string -> real)
    | Purge(maxAge: real, now: real)
    | Remove(id: string)

  function Step(e: Entries, op: Op, fold: CaseFold): Entries {
    match op
    case Track(m, timeout, now) => TrackSpec(e, m, timeout, now)
    case Process(a, now) => ProcessSpec(e, a, fold, now).0
    case CheckTimeouts(clock) => TimeoutSpec(e, clock)
    case Purge(maxAge, now) => PurgeSpec(e, maxAge, now)
    case Remove(id) => e - {id}
  }

  function After(e: Entries, ops: seq<Op>, n: nat, fold: CaseFold): Entries
    requires n <= |ops|
  {
    if n == 0 then e else Step(After(e, ops, n - 1, fold), ops[n - 1], fold)
  }

  predicate Restarts(op: Op, id: string) {
    op.Track? && Tracks(op.message) && op.message.envelope_id == id
  }

  /** Call `i` of the run confirms `id`. */
  predicate ConfirmsAt(e: Entries, ops: seq<Op>, i: nat, id: string, fold: CaseFold)
    requires i < |ops|
  {
    ops[i].Process? && ops[i].arrival.message.payload.content == id
    && Confirms(After(e, ops, i, fold), ops[i].arrival, fold)
  }

  /** An entry that is resolved, or not there, does not become pending again, does not change
      and is not confirmed until its id is tracked anew; it can only be deleted. */
  lemma {:induction false} ResolvedStays(e: Entries, ops: seq<Op>, i: nat, n: nat, id: string, fold: CaseFold)
    requires i <= n <= |ops|
    requires var s := After(e, ops, i, fold); id in s ==> s[id].status != Pending
    requires forall k :: i <= k < n ==> !Restarts(ops[k], id)
    ensures var s, t := After(e, ops, i, fold), After(e, ops, n, fold);
            id in t ==> id in s && t[id] == s[id]
    ensures n < |ops| ==> !ConfirmsAt(e, ops, n, id, fold)
  {
    if n > i { ResolvedStays(e, ops, i, n - 1, id, fold); }
  }

  /** Between two `track` calls for an id at most one acknowledgment confirms it. */
  lemma ConfirmedOncePerTrack(e: Entries, ops: seq<Op>, i: nat, j: nat, id: string, fold: CaseFold)
    requires i < j < |ops|
    requires ConfirmsAt(e, ops, i, id, fold) && ConfirmsAt(e, ops, j, id, fold)
    ensures exists k :: i < k < j && Restarts(ops[k], id)
  {
    if forall k :: i < k < j ==> !Restarts(ops[k], id) {
      ResolvedStays(e, ops, i + 1, j, id, fold);
      assert false;
    }
  }

  /** A purge deletes exactly the entries confirmed longer ago than the age. */
  lemma PurgedIff(e: Entries, maxAge: real, now: real, id: string)
    requires id in e
    ensures id !in PurgeSpec(e, maxAge, now) <==>
            e[id].status == Confirmed && e[id].confirmed_at.Some? && now > e[id].confirmed_at.value + maxAge
    ensures id in PurgeSpec(e, maxAge, now) ==> PurgeSpec(e, maxAge, now)[id] == e[id]
  {
  }

  /** A status leaves Pending only for Confirmed, by an authentic acknowledgment from the
      recipient, or for TimedOut, past the deadline; nothing else changes a status. */
  lemma StatusChangesIff(e: Entries, op: Op, id: string, fold: CaseFold)
    requires id in e && id in Step(e, op, fold) && !Restarts(op, id)
    ensures Step(e, op, fold)[id].status != e[id].status <==>
            || (op.Process? && op.arrival.message.payload.content == id && Confirms(e, op.arrival, fold))
            || (op.CheckTimeouts? && e[id].status == Pending && op.clock(id) > e[id].sent_at + e[id].ack_timeout)
    ensures Step(e, op, fold)[id].status != e[id].status ==>
              Step(e, op, fold)[id].status == if op.Process? then Confirmed else TimedOut
    ensures Step(e, op, fold)[id].recipient == e[id].recipient
  {
  }
}

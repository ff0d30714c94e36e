/** The first-contact stores of consent.py and consent_greylist.py. */
module Consent {
  import opened Common

  // ----- Contacts -----

  datatype ContactState = Known | BlockedContact
  type Contacts = map<string, ContactState>

  class ContactStore {
    var contacts: Contacts

    constructor (stored: Contacts)
      ensures contacts == stored
    {
      contacts := stored;
    }

    method Accept(fqid: string)
      modifies this
      ensures contacts == old(contacts)[fqid := Known]
    {
      contacts := contacts[fqid := Known];
    }

    method Block(fqid: string)
      modifies this
      ensures contacts == old(contacts)[fqid := BlockedContact]
    {
      contacts := contacts[fqid := BlockedContact];
    }

    /** Lifts a block and nothing else: a known contact stays known. */
    method Unblock(fqid: string)
      modifies this
      ensures contacts == UnblockSpec(old(contacts), fqid)
    {
      if fqid in contacts && contacts[fqid] == BlockedContact { contacts := contacts - {fqid}; }
    }
  }

  function UnblockSpec(c: Contacts, fqid: string): Contacts {
    if fqid in c && c[fqid] == BlockedContact then c - {fqid} else c
  }

  predicate IsKnown(c: Contacts, fqid: string) { fqid in c && c[fqid] == Known }

  predicate IsBlocked(c: Contacts, fqid: string) { fqid in c && c[fqid] == BlockedContact }

  // ----- The request queue -----

  datatype Request = Request(sender: string, body: string, received_at: real)
  type Requests = map<string, Request>

  const DEFAULT_CAP := 1

  function Knocks(q: Requests, sender: string): set<string> {
    set id | id in q && q[id].sender == sender
  }

  /** COUNT, then INSERT OR IGNORE keyed by the envelope id. */
  function EnqueueSpec(q: Requests, cap: int, id: string, r: Request): (Requests, bool) {
    if |Knocks(q, r.sender)| >= cap then (q, false)
    else (if id in q then q else q[id := r], true)
  }

  function ClearSpec(q: Requests, sender: string): Requests {
    map id | id in q && q[id].sender != sender :: q[id]
  }

  class RequestQueue {
    const cap: int
    var rows: Requests

    constructor (cap: int, stored: Requests)
      ensures this.cap == cap && rows == stored
    {
      this.cap := cap;
      rows := stored;
    }

    method Enqueue(sender: string, body: string, id: string, now: real) returns (queued: bool)
      modifies this
      ensures (rows, queued) == EnqueueSpec(old(rows), cap, id, Request(sender, body, now))
    {
      var n := |set k | k in rows && rows[k].sender == sender|;
      if n >= cap { return false; }
      if id !in rows { rows := rows[id := Request(sender, body, now)]; }
      return true;
    }

    method Clear(sender: string)
      modifies this
      ensures rows == ClearSpec(old(rows), sender)
    {
      rows := map k | k in rows && rows[k].sender != sender :: rows[k];
    }

    method AcceptRequest(sender: string, store: ContactStore)
      modifies this, store
      ensures rows == ClearSpec(old(rows), sender) && store.contacts == old(store.contacts)[sender := Known]
    {
      store.Accept(sender);
      Clear(sender);
    }

    method DeclineRequest(sender: string, store: ContactStore, block: bool)
      modifies this, store
      ensures rows == ClearSpec(old(rows), sender)
      ensures store.contacts == if block then old(store.contacts)[sender := BlockedContact] else old(store.contacts)
    {
      if block { store.Block(sender); }
      Clear(sender);
    }
  }

  lemma KnocksInserted(q: Requests, id: string, r: Request, s: string)
    requires id !in q
    ensures Knocks(q[id := r], s) == if s == r.sender then Knocks(q, s) + {id} else Knocks(q, s)
    ensures id !in Knocks(q, s)
  {
  }

  /** No queue operation takes a sender above the cap, and only a knock by that sender adds one. */
  lemma EnqueueKeepsCap(q: Requests, cap: int, id: string, r: Request, s: string)
    ensures var q' := EnqueueSpec(q, cap, id, r).0;
            && |Knocks(q', s)| == |Knocks(q, s)| + (if s == r.sender && id !in q && |Knocks(q, s)| < cap then 1 else 0)
            && (|Knocks(q, s)| <= cap ==> |Knocks(q', s)| <= cap)
  {
    if id !in q { KnocksInserted(q, id, r, s); }
  }

  /** A witness: b's first knock under an id that a's knock holds changes nothing, and is answered
      as queued. */
  lemma TakenIdLosesKnock(t: real)
    ensures var q := map["x" := Request("a@o.r", "hello", t)];
            var r := Request("b@o.r", "hi", t);
            EnqueueSpec(q, DEFAULT_CAP, "x", r) == (q, true) && Knocks(q, "b@o.r") == {}
  {
    var q := map["x" := Request("a@o.r", "hello", t)];
    assert "a@o.r"[0] != "b@o.r"[0];
    assert Knocks(q, "b@o.r") == {};
  }

  lemma ClearKnocks(q: Requests, sender: string, s: string)
    ensures Knocks(ClearSpec(q, sender), s) == if s == sender then {} else Knocks(q, s)
  {
  }

  // ----- The greylist -----

  datatype Sighting = Sighting(first_seen: real, sightings: nat, admitted: bool)
  type Sightings = map<string, Sighting>

  const DEFAULT_MIN_DELAY: real := 60.0

  function SeeSpec(g: Sightings, minDelay: real, sender: string, now: real): (Sightings, bool) {
    if sender !in g then (g[sender := Sighting(now, 1, false)], false)
    else
      var row := g[sender];
      var admit := row.admitted || now - row.first_seen >= minDelay;
      (g[sender := Sighting(row.first_seen, row.sightings + 1, admit)], admit)
  }

  class Greylist {
    const minDelay: real
    var rows: Sightings

    constructor (minDelay: real, stored: Sightings)
      ensures this.minDelay == minDelay && rows == stored
    {
      this.minDelay := minDelay;
      rows := stored;
    }

    /** True admits, false defers. */
    method See(sender: string, now: real) returns (admit: bool)
      modifies this
      ensures (rows, admit) == SeeSpec(old(rows), minDelay, sender, now)
    {
      if sender !in rows {
        rows := rows[sender := Sighting(now, 1, false)];
        return false;
      }
      var row := rows[sender];
      var sightings := row.sightings + 1;
      admit := row.admitted || now - row.first_seen >= minDelay;
      rows := rows[sender := Sighting(row.first_seen, sightings, admit)];
    }
  }

  datatype Visit = Visit(sender: string, now: real)

  function SeenAfter(visits: seq<Visit>, minDelay: real, n: nat): Sightings
    requires n <= |visits|
  {
    if n == 0 then map[] else SeeSpec(SeenAfter(visits, minDelay, n - 1), minDelay, visits[n - 1].sender, visits[n - 1].now).0
  }

  predicate AdmitsAt(visits: seq<Visit>, minDelay: real, n: nat)
    requires n < |visits|
  {
    SeeSpec(SeenAfter(visits, minDelay, n), minDelay, visits[n].sender, visits[n].now).1
  }

  /** Visit `i` is the sender's first. */
  predicate FirstVisit(visits: seq<Visit>, i: nat)
    requires i < |visits|
  {
    forall j :: 0 <= j < i ==> visits[j].sender != visits[i].sender
  }

  /** Some visit by `sender` in visits[i+1..n] came at least the delay after visit `i`. */
  ghost predicate Waited(visits: seq<Visit>, minDelay: real, i: nat, n: nat, sender: string)
    requires i < |visits| && n <= |visits|
  {
    exists m :: i < m < n && visits[m].sender == sender && visits[m].now - visits[i].now >= minDelay
  }

  lemma {:induction false} SightingIs(visits: seq<Visit>, minDelay: real, n: nat, i: nat)
    requires i < n <= |visits| && FirstVisit(visits, i)
    ensures var g, s := SeenAfter(visits, minDelay, n), visits[i].sender;
            && s in g && g[s].first_seen == visits[i].now
            && (g[s].admitted <==> Waited(visits, minDelay, i, n, s))
  {
    var s := visits[i].sender;
    if n == i + 1 {
      NeverSeen(visits, minDelay, i, s);
    } else {
      SightingIs(visits, minDelay, n - 1, i);
      if visits[n - 1].sender == s && visits[n - 1].now - visits[i].now >= minDelay {
        assert Waited(visits, minDelay, i, n, s);
      }
      var k := n - 1;
      if Waited(visits, minDelay, i, k, s) {
        var m :| i < m < k && visits[m].sender == s && visits[m].now - visits[i].now >= minDelay;
        assert i < m < n;
      }
    }
  }

  lemma {:induction false} NeverSeen(visits: seq<Visit>, minDelay: real, n: nat, s: string)
    requires n <= |visits| && forall j :: 0 <= j < n ==> visits[j].sender != s
    ensures s !in SeenAfter(visits, minDelay, n)
  {
    if n > 0 { NeverSeen(visits, minDelay, n - 1, s); }
  }

  /** Over any history and any clock a visit is admitted exactly when this or an earlier repeat
      visit by the same sender came at least the delay after that sender's first. */
  lemma AdmittedIff(visits: seq<Visit>, minDelay: real, n: nat, i: nat)
    requires i <= n < |visits| && FirstVisit(visits, i) && visits[n].sender == visits[i].sender
    ensures AdmitsAt(visits, minDelay, n) <==> Waited(visits, minDelay, i, n + 1, visits[n].sender)
  {
    var s := visits[n].sender;
    if n == i {
      NeverSeen(visits, minDelay, n, s);
    } else {
      SightingIs(visits, minDelay, n, i);
      if Waited(visits, minDelay, i, n, s) {
        var m :| i < m < n && visits[m].sender == s && visits[m].now - visits[i].now >= minDelay;
        assert i < m < n + 1;
      }
      if visits[n].now - visits[i].now >= minDelay { assert i < n < n + 1; }
    }
  }
}

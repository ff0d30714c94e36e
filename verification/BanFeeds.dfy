/** Signed ban feeds of consent_banfeeds.py: canonical bytes, glob matching and blending. */
module BanFeeds {
  import opened Common
  import opened Ordering
  import opened Text

  datatype BanEntry = BanEntry(entity: string, recommendation: string, reason: string)
  datatype BanFeed = BanFeed(publisher: string, entries: seq<BanEntry>, signed_at: string, sig: string)

  // ----- Canonical bytes -----

  predicate EntityLeq(x: BanEntry, y: BanEntry) {
    StringLeq(x.entity, y.entity)
  }

  datatype Payload = Payload(publisher: string, signed_at: string, entries: seq<BanEntry>)

  /** What the publisher's signature covers: the entries stably sorted by entity alone. */
  function SigningPayload(f: BanFeed): Payload {
    Payload(f.publisher, f.signed_at, StableSort(f.entries, EntityLeq))
  }

  /** `json` stands for compact JSON with sorted keys, which loses nothing of a payload. */
  function SigningBytes(f: BanFeed, json: Payload -> bytes): bytes {
    json(SigningPayload(f))
  }

  lemma EntityLeqIsPreorder()
    ensures TotalPreorder(EntityLeq)
    ensures forall x, y :: Tie(x, y, EntityLeq) <==> x.entity == y.entity
  {
    StringLeqIsPreorder();
    forall x: BanEntry, y: BanEntry ensures Tie(x, y, EntityLeq) <==> x.entity == y.entity {
      StringLeqTotal(x.entity, y.entity);
    }
  }

  /** Entries for one entity are all the same entry. */
  ghost predicate OneEntryPerEntity(s: seq<BanEntry>) {
    forall x, y :: x in s && y in s && x.entity == y.entity ==> x == y
  }

  lemma PermutationTiesAlike(p: seq<BanEntry>, q: seq<BanEntry>, y: BanEntry)
    requires OneEntryPerEntity(p) && multiset(p) == multiset(q)
    ensures Tied(p, y, EntityLeq) == Tied(q, y, EntityLeq)
  {
    EntityLeqIsPreorder();
    assert forall x :: x in p <==> x in multiset(p);
    assert forall x :: x in q <==> x in multiset(q);
    if x :| x in p && x.entity == y.entity {
      TiedOfOneValue(p, y, x, EntityLeq);
      TiedOfOneValue(q, y, x, EntityLeq);
    } else {
      NoTies(p, y);
      NoTies(q, y);
    }
  }

  lemma {:induction false} NoTies(s: seq<BanEntry>, y: BanEntry)
    requires forall x :: x in s ==> x.entity != y.entity
    ensures Tied(s, y, EntityLeq) == []
  {
    EntityLeqIsPreorder();
    if s != [] { NoTies(s[1..], y); }
  }

  lemma PermutationSortsAlike(p: seq<BanEntry>, q: seq<BanEntry>)
    requires OneEntryPerEntity(p) && multiset(p) == multiset(q)
    ensures StableSort(p, EntityLeq) == StableSort(q, EntityLeq)
  {
    EntityLeqIsPreorder();
    StableSortCorrect(p, EntityLeq);
    forall y ensures Tied(StableSort(p, EntityLeq), y, EntityLeq) == Tied(q, y, EntityLeq) {
      PermutationTiesAlike(p, q, y);
    }
    StableSortUnique(StableSort(p, EntityLeq), q, EntityLeq);
  }

  function Front(s: seq<BanEntry>, i: nat): seq<BanEntry>
    requires i < |s|
  {
    [s[i]] + s[..i] + s[i + 1..]
  }

  lemma FrontIsPermutation(s: seq<BanEntry>, i: nat)
    requires i < |s|
    ensures multiset(Front(s, i)) == multiset(s)
  {
    assert s == s[..i] + [s[i]] + s[i + 1..];
  }

  /** The sort keeps the fronted entry ahead of every other entry for its entity. */
  lemma FrontLeads(s: seq<BanEntry>, i: nat, y: BanEntry)
    requires i < |s| && s[i].entity == y.entity
    ensures var t := Tied(StableSort(Front(s, i), EntityLeq), y, EntityLeq); t != [] && t[0] == s[i]
  {
    EntityLeqIsPreorder();
    StableSortCorrect(Front(s, i), EntityLeq);
    assert Tie(Front(s, i)[0], y, EntityLeq);
  }

  /** Two different entries for one entity: bringing one or the other to the front sorts differently. */
  lemma ConflictSortsApart(s: seq<BanEntry>, i: nat, j: nat)
    requires i < |s| && j < |s| && s[i].entity == s[j].entity && s[i] != s[j]
    ensures multiset(Front(s, i)) == multiset(s) && multiset(Front(s, j)) == multiset(s)
    ensures StableSort(Front(s, i), EntityLeq) != StableSort(Front(s, j), EntityLeq)
  {
    FrontIsPermutation(s, i);
    FrontIsPermutation(s, j);
    FrontLeads(s, i, s[i]);
    FrontLeads(s, j, s[i]);
  }

  /** The signed bytes do not depend on the order of the entries exactly when no entity has
      two different entries; distinct entities are enough. */
  lemma SigningOrderFreeIff(f: BanFeed, json: Payload -> bytes)
    requires forall a, b :: json(a) == json(b) ==> a == b
    ensures (forall q :: multiset(q) == multiset(f.entries) ==>
               SigningBytes(f.(entries := q), json) == SigningBytes(f, json))
            <==> OneEntryPerEntity(f.entries)
  {
    if OneEntryPerEntity(f.entries) {
      forall q | multiset(q) == multiset(f.entries)
        ensures SigningBytes(f.(entries := q), json) == SigningBytes(f, json)
      {
        PermutationSortsAlike(f.entries, q);
      }
    } else {
      var x, y :| x in f.entries && y in f.entries && x.entity == y.entity && x != y;
      var i :| 0 <= i < |f.entries| && f.entries[i] == x;
      var j :| 0 <= j < |f.entries| && f.entries[j] == y;
      ConflictSortsApart(f.entries, i, j);
      var a, b := f.(entries := Front(f.entries, i)), f.(entries := Front(f.entries, j));
      assert SigningPayload(a) != SigningPayload(b);
      assert SigningBytes(a, json) != SigningBytes(b, json);
    }
  }

  // ----- Glob matching (fnmatch.fnmatchcase) -----

  function Find(s: string, c: char, from: nat): (r: Option<nat>)
    ensures r.Some? ==> from <= r.value < |s| && s[r.value] == c && forall i :: from <= i < r.value ==> s[i] != c
    ensures r.None? ==> forall i :: from <= i < |s| ==> s[i] != c
    decreases |s| - from
  {
    if from >= |s| then None else if s[from] == c then Some(from) else Find(s, c, from + 1)
  }

  /** Index of the `]` closing the character class that opens the pattern. */
  function ClassEnd(pat: string): (r: Option<nat>)
    requires pat != ""
    ensures r.Some? ==> 1 < r.value < |pat|
  {
    var neg := if |pat| > 1 && pat[1] == '!' then 2 else 1;
    var start := if neg < |pat| && pat[neg] == ']' then neg + 1 else neg;
    var e := Find(pat, ']', start);
    if e.Some? && e.value > 1 then e else None
  }

  predicate InSet(set_: string, c: char) {
    if set_ == "" then false
    else if |set_| >= 3 && set_[1] == '-' then set_[0] <= c <= set_[2] || InSet(set_[3..], c)
    else set_[0] == c || InSet(set_[1..], c)
  }

  predicate InClass(body: string, c: char) {
    if body != "" && body[0] == '!' then !InSet(body[1..], c) else InSet(body, c)
  }

  predicate Glob(pat: string, s: string)
    decreases |pat| + |s|
  {
    if pat == "" then s == ""
    else if pat[0] == '*' then Glob(pat[1..], s) || (s != "" && Glob(pat, s[1..]))
    else if s == "" then false
    else if pat[0] == '?' then Glob(pat[1..], s[1..])
    else if pat[0] == '[' && ClassEnd(pat).Some? then
      var e := ClassEnd(pat).value;
      InClass(pat[1..e], s[0]) && Glob(pat[e + 1..], s[1..])
    else pat[0] == s[0] && Glob(pat[1..], s[1..])
  }

  lemma StarStep(pat: string, s: string)
    ensures Glob("*" + pat, s) <==> Glob(pat, s) || (s != "" && Glob("*" + pat, s[1..]))
  {
    assert ("*" + pat)[1..] == pat;
  }

  /** A star matches any stretch, the empty one included. */
  lemma {:induction false} StarLaw(pat: string, s: string)
    ensures Glob("*" + pat, s) <==> exists k :: 0 <= k <= |s| && Glob(pat, s[k..])
  {
    StarStep(pat, s);
    hide Glob;
    assert s[0..] == s;
    if s != "" {
      StarLaw(pat, s[1..]);
      if k :| 0 <= k <= |s[1..]| && Glob(pat, s[1..][k..]) { assert s[1..][k..] == s[k + 1..]; }
      if k :| 1 <= k <= |s| && Glob(pat, s[k..]) { assert s[1..][k - 1..] == s[k..]; }
    }
  }

  /** A question mark matches any one character, a letter itself, and the empty pattern the empty text. */
  lemma GlobLaws(pat: string, s: string, c: char)
    ensures Glob("", s) <==> s == ""
    ensures Glob("?" + pat, s) <==> s != "" && Glob(pat, s[1..])
    ensures c !in {'*', '?', '['} ==> (Glob([c] + pat, s) <==> s != "" && s[0] == c && Glob(pat, s[1..]))
  {
    assert ("?" + pat)[1..] == pat && ([c] + pat)[1..] == pat;
  }

  lemma {:induction false} InSetPlain(letters: string, c: char)
    requires '-' !in letters
    ensures InSet(letters, c) <==> c in letters
  {
    if letters != "" { InSetPlain(letters[1..], c); }
  }

  lemma {:induction false} FindAt(s: string, c: char, from: nat, at: nat)
    requires from <= at < |s| && s[at] == c && forall i :: from <= i < at ==> s[i] != c
    ensures Find(s, c, from) == Some(at)
  {
  }

  /** A class of plain letters matches one of them, a negated one any other character. */
  lemma ClassLaw(letters: string, pat: string, s: string)
    requires letters != "" && letters[0] != '!' && '-' !in letters && ']' !in letters
    ensures Glob("[" + letters + "]" + pat, s) <==> s != "" && s[0] in letters && Glob(pat, s[1..])
    ensures Glob("[!" + letters + "]" + pat, s) <==> s != "" && s[0] !in letters && Glob(pat, s[1..])
  {
    var p, q := "[" + letters + "]" + pat, "[!" + letters + "]" + pat;
    var n := |letters|;
    FindAt(p, ']', 1, n + 1);
    FindAt(q, ']', 2, n + 2);
    assert p[1..n + 1] == letters && p[n + 2..] == pat && p[1] != '!' && p[1] != ']';
    assert q[1] == '!' && q[2] == letters[0] && q[1..n + 2] == "!" + letters && q[n + 3..] == pat;
    assert ("!" + letters)[1..] == letters;
    if s != "" { InSetPlain(letters, s[0]); }
  }

  lemma RangeHolds(lo: char, hi: char, c: char)
    requires lo != '!'
    ensures InClass([lo, '-', hi], c) <==> lo <= c <= hi
  {
    var set_ := [lo, '-', hi];
    assert set_[3..] == "" && !InSet("", c);
  }

  /** A range matches the characters from its first to its last, both included. */
  lemma RangeLaw(lo: char, hi: char, pat: string, s: string)
    requires lo != '!' && lo != ']' && hi != ']'
    ensures Glob(['[', lo, '-', hi, ']'] + pat, s) <==> s != "" && lo <= s[0] <= hi && Glob(pat, s[1..])
  {
    var p := ['[', lo, '-', hi, ']'] + pat;
    FindAt(p, ']', 1, 4);
    assert p[0] == '[' && p[1] == lo && p[2] == '-' && p[3] == hi && p[4] == ']';
    assert ClassEnd(p) == Some(4);
    assert p[1..4] == [lo, '-', hi] && p[5..] == pat;
    if s != "" { RangeHolds(lo, hi, s[0]); }
  }

  predicate Plain(s: string) {
    forall i :: 0 <= i < |s| ==> s[i] !in {'*', '?', '['}
  }

  lemma {:induction false} PlainGlob(pat: string, s: string)
    requires Plain(pat)
    ensures Glob(pat, s) <==> s == pat
  {
    if pat != "" && s != "" {
      PlainGlob(pat[1..], s[1..]);
      assert pat == [pat[0]] + pat[1..] && s == [s[0]] + s[1..];
    }
  }

  lemma {:induction false} StarGlob(tail: string, s: string)
    requires Plain(tail)
    ensures Glob("*" + tail, s) <==> EndsWith(s, tail)
  {
    var pat := "*" + tail;
    assert pat[1..] == tail;
    PlainGlob(tail, s);
    if s != "" {
      StarGlob(tail, s[1..]);
      if |s| > |tail| { assert s[1..][|s| - 1 - |tail|..] == s[|s| - |tail|..]; }
    }
    if |s| == |tail| { assert s[0..] == s; }
  }

  /** `*@server` bans exactly the fqids that end in `@server`; a plain entity bans itself alone. */
  lemma ServerGlobIff(server: string, fqid: string)
    requires Plain(server)
    ensures Glob("*@" + server, fqid) <==> EndsWith(fqid, "@" + server)
    ensures Glob(server, fqid) <==> fqid == server
  {
    StarGlob("@" + server, fqid);
    assert "*" + ("@" + server) == "*@" + server;
    PlainGlob(server, fqid);
  }

  // ----- Blending -----

  predicate Bans(e: BanEntry, fqid: string) {
    e.recommendation == "ban" && Glob(e.entity, fqid)
  }

  /** The first ban entry of the feed that matches. */
  method FirstMatch(f: BanFeed, fqid: string) returns (r: Option<BanEntry>)
    ensures r.None? <==> forall e :: e in f.entries ==> !Bans(e, fqid)
    ensures r.Some? ==> exists i :: 0 <= i < |f.entries| && r.value == f.entries[i] && Bans(r.value, fqid)
                                    && forall j :: 0 <= j < i ==> !Bans(f.entries[j], fqid)
  {
    for i := 0 to |f.entries|
      invariant forall j :: 0 <= j < i ==> !Bans(f.entries[j], fqid)
    {
      if f.entries[i].recommendation != "ban" { continue; }
      if Glob(f.entries[i].entity, fqid) {
        assert f.entries[i] in f.entries && Bans(f.entries[i], fqid);
        return Some(f.entries[i]);
      }
    }
    return None;
  }

  predicate Banned(feeds: seq<BanFeed>, fqid: string) {
    exists f, e :: f in feeds && e in f.entries && Bans(e, fqid)
  }

  class FeedSubscription {
    var feeds: seq<BanFeed>

    constructor ()
      ensures feeds == []
    {
      feeds := [];
    }

    /** `verifies`: the pinned verifier accepts the feed's signature. */
    method Subscribe(f: BanFeed, verifies: bool) returns (accepted: bool)
      modifies this
      ensures accepted <==> f.sig != "" && verifies
      ensures feeds == Accepted(old(feeds), (f, verifies))
    {
      if f.sig == "" || !verifies { return false; }
      feeds := feeds + [f];
      return true;
    }

    method IsBanned(fqid: string) returns (banned: bool)
      ensures banned <==> Banned(feeds, fqid)
    {
      for i := 0 to |feeds|
        invariant forall j, e :: 0 <= j < i && e in feeds[j].entries ==> !Bans(e, fqid)
      {
        var m := FirstMatch(feeds[i], fqid);
        if m.Some? {
          assert feeds[i] in feeds && m.value in feeds[i].entries;
          return true;
        }
      }
      return false;
    }

    /** Who bans, and why: one pair for each banning feed, in subscription order. */
    method Reasons(fqid: string) returns (out: seq<(string, string)>)
      ensures out != [] <==> Banned(feeds, fqid)
      ensures forall p :: p in out ==>
                exists f, e :: f in feeds && e in f.entries && Bans(e, fqid) && p == (f.publisher, e.reason)
    {
      out := [];
      for i := 0 to |feeds|
        invariant out != [] <==> Banned(feeds[..i], fqid)
        invariant forall p :: p in out ==>
                    exists f, e :: f in feeds && e in f.entries && Bans(e, fqid) && p == (f.publisher, e.reason)
      {
        assert feeds[..i + 1] == feeds[..i] + [feeds[i]];
        var m := FirstMatch(feeds[i], fqid);
        if m.Some? {
          assert feeds[i] in feeds && m.value in feeds[i].entries;
          out := out + [(feeds[i].publisher, m.value.reason)];
        }
      }
      assert feeds[..|feeds|] == feeds;
    }
  }

  function Accepted(feeds: seq<BanFeed>, offer: (BanFeed, bool)): seq<BanFeed> {
    if offer.0.sig != "" && offer.1 then feeds + [offer.0] else feeds
  }

  function Subscribed(offers: seq<(BanFeed, bool)>): seq<BanFeed> {
    if offers == [] then [] else Accepted(Subscribed(offers[..|offers| - 1]), offers[|offers| - 1])
  }

  /** The subscription a node builds from its pinned publishers' feeds; one that is unsigned or
      does not verify is left out. */
  method BuildSubscription(offers: seq<(BanFeed, bool)>) returns (sub: FeedSubscription)
    ensures fresh(sub) && sub.feeds == Subscribed(offers)
  {
    sub := new FeedSubscription();
    for i := 0 to |offers|
      invariant fresh(sub) && sub.feeds == Subscribed(offers[..i])
    {
      assert offers[..i + 1][..i] == offers[..i];
      var _ := sub.Subscribe(offers[i].0, offers[i].1);
    }
    assert offers[..|offers|] == offers;
  }

  /** Some offered feed is signed, verifies and holds a ban entry that matches. */
  ghost predicate FeedBans(offers: seq<(BanFeed, bool)>, fqid: string) {
    exists o, e :: o in offers && o.0.sig != "" && o.1 && e in o.0.entries
                   && e.recommendation == "ban" && Glob(e.entity, fqid)
  }

  /** A sender is banned exactly when some offered feed is signed, verifies and holds a
      matching ban entry: the order of feeds and entries plays no part, and an unverified feed
      bans no one. */
  lemma {:induction false} BannedIff(offers: seq<(BanFeed, bool)>, fqid: string)
    ensures Banned(Subscribed(offers), fqid) <==> FeedBans(offers, fqid)
  {
    SubscribedMembers(offers);
    if Banned(Subscribed(offers), fqid) {
      var f, e :| f in Subscribed(offers) && e in f.entries && Bans(e, fqid);
      assert (f, true) in offers;
    }
    if o, e :| o in offers && o.0.sig != "" && o.1 && e in o.0.entries
               && e.recommendation == "ban" && Glob(e.entity, fqid) {
      assert o == (o.0, true) && Bans(e, fqid);
    }
  }

  lemma {:induction false} SubscribedMembers(offers: seq<(BanFeed, bool)>)
    ensures forall f :: f in Subscribed(offers) <==> f.sig != "" && (f, true) in offers
  {
    if offers != [] {
      SubscribedMembers(offers[..|offers| - 1]);
      assert offers == offers[..|offers| - 1] + [offers[|offers| - 1]];
    }
  }
}

/** Peer records, their merge, the peer store and discovery (discovery.py). */
module Discovery {
  import opened Common
  import Ordering

  type Settings = map<string, string>

  datatype PeerTransport = PeerTransport(transport: string, settings: Settings)

  // ----- Ordered dictionaries, keyed by transport name -----

  function IndexOf(d: seq<PeerTransport>, name: string): (k: nat)
    ensures k <= |d|
    ensures k < |d| ==> d[k].transport == name
    ensures forall i :: 0 <= i < k ==> d[i].transport != name
  {
    if d == [] || d[0].transport == name then 0 else 1 + IndexOf(d[1..], name)
  }

  predicate Has(d: seq<PeerTransport>, name: string) {
    exists i :: 0 <= i < |d| && d[i].transport == name
  }

  /** Each transport name once. */
  predicate Distinct(d: seq<PeerTransport>) {
    forall i, j :: 0 <= i < j < |d| ==> d[i].transport != d[j].transport
  }

  function Overlay(a: PeerTransport, b: PeerTransport): PeerTransport {
    PeerTransport(b.transport, a.settings + b.settings)
  }

  /** A known name keeps its place and takes the new settings over its own. */
  function Put(d: seq<PeerTransport>, t: PeerTransport): seq<PeerTransport> {
    var k := IndexOf(d, t.transport);
    if k == |d| then d + [t] else d[k := Overlay(d[k], t)]
  }

  function PutAll(d: seq<PeerTransport>, ts: seq<PeerTransport>): seq<PeerTransport> {
    if ts == [] then d else Put(PutAll(d, ts[..|ts| - 1]), ts[|ts| - 1])
  }

  /** A dict built from a list: a repeated name keeps its first place and its last value. */
  function DictOf(ts: seq<PeerTransport>): seq<PeerTransport> {
    if ts == [] then [] else Assign(DictOf(ts[..|ts| - 1]), ts[|ts| - 1])
  }

  /** One step of that: a known name keeps its place and takes the new value. */
  function Assign(d: seq<PeerTransport>, t: PeerTransport): seq<PeerTransport> {
    var k := IndexOf(d, t.transport);
    if k == |d| then d + [t] else d[k := t]
  }

  /** Capabilities, each once, in order of first appearance. */
  function Dedup(s: seq<string>): seq<string> {
    if s == [] then []
    else
      var d := Dedup(s[..|s| - 1]);
      if s[|s| - 1] in d then d else d + [s[|s| - 1]]
  }

  // ----- Peers -----

  datatype PeerInfo = PeerInfo(
    name: string,
    fqid: Option<string>,
    fingerprint: Option<string>,
    pubkey: Option<string>,
    nostr_pubkey: Option<string>,
    transports: seq<PeerTransport>,
    rails: seq<string>,
    capabilities: seq<string>,
    discovered_via: string,
    last_seen: Option<real>)
  {
    function Merge(other: PeerInfo): PeerInfo {
      PeerInfo(name, Or(fqid, other.fqid), Or(fingerprint, other.fingerprint), Or(pubkey, other.pubkey),
               Or(nostr_pubkey, other.nostr_pubkey), PutAll(DictOf(transports), other.transports),
               if rails != [] then rails else other.rails, Dedup(capabilities + other.capabilities),
               discovered_via, Latest(last_seen, other.last_seen))
    }
  }

  /** Python's `or` on an optional text: an empty text counts as missing. */
  function Or(a: Option<string>, b: Option<string>): Option<string> {
    if a.Some? && a.value != "" then a else b
  }

  function Latest(a: Option<real>, b: Option<real>): Option<real> {
    if a == None then b else if b == None then a else if b.value > a.value then b else a
  }

  /** The loop of `merge` over the other peer's transports. */
  method MergeTransports(mine: seq<PeerTransport>, others: seq<PeerTransport>) returns (existing: seq<PeerTransport>)
    ensures existing == PutAll(DictOf(mine), others)
  {
    existing := [];
    for i := 0 to |mine|
      invariant existing == DictOf(mine[..i])
    {
      assert mine[..i + 1][..i] == mine[..i];
      var k := IndexOf(existing, mine[i].transport);
      existing := if k == |existing| then existing + [mine[i]] else existing[k := mine[i]];
    }
    assert mine[..|mine|] == mine;
    for i := 0 to |others|
      invariant existing == PutAll(DictOf(mine), others[..i])
    {
      assert others[..i + 1][..i] == others[..i];
      var t := others[i];
      var k := IndexOf(existing, t.transport);
      if k == |existing| {
        existing := existing + [t];
      } else {
        existing := existing[k := PeerTransport(t.transport, existing[k].settings + t.settings)];
      }
    }
    assert others[..|others|] == others;
  }

  // ----- Dictionary algebra -----

  lemma IndexOfUnique(d: seq<PeerTransport>, name: string, k: nat)
    requires Distinct(d) && k < |d| && d[k].transport == name
    ensures IndexOf(d, name) == k
  {
  }

  lemma PutDistinct(d: seq<PeerTransport>, t: PeerTransport)
    requires Distinct(d)
    ensures Distinct(Put(d, t))
    ensures forall n :: Has(Put(d, t), n) <==> Has(d, n) || n == t.transport
  {
    var r, k := Put(d, t), IndexOf(d, t.transport);
    assert r[k].transport == t.transport;
    forall n ensures Has(r, n) <==> Has(d, n) || n == t.transport {
      if Has(d, n) {
        var i :| 0 <= i < |d| && d[i].transport == n;
        assert r[i].transport == n;
      }
    }
  }

  lemma {:induction false} PutAllDistinct(d: seq<PeerTransport>, ts: seq<PeerTransport>)
    requires Distinct(d)
    ensures Distinct(PutAll(d, ts))
    ensures forall n :: Has(PutAll(d, ts), n) <==> Has(d, n) || Has(ts, n)
  {
    if ts != [] {
      var front := ts[..|ts| - 1];
      PutAllDistinct(d, front);
      PutDistinct(PutAll(d, front), ts[|ts| - 1]);
      HasSnoc(front, ts[|ts| - 1]);
      assert ts == front + [ts[|ts| - 1]];
    }
  }

  lemma HasSnoc(d: seq<PeerTransport>, t: PeerTransport)
    ensures forall n :: Has(d + [t], n) <==> Has(d, n) || n == t.transport
  {
    forall n ensures Has(d + [t], n) <==> Has(d, n) || n == t.transport {
      assert (d + [t])[|d|] == t;
      if Has(d, n) {
        var i :| 0 <= i < |d| && d[i].transport == n;
        assert (d + [t])[i].transport == n;
      }
    }
  }

  lemma ReplaceKeeps(d: seq<PeerTransport>, k: nat, t: PeerTransport)
    requires Distinct(d) && k < |d| && d[k].transport == t.transport
    ensures Distinct(d[k := t])
    ensures forall n :: Has(d[k := t], n) <==> Has(d, n)
  {
    var r := d[k := t];
    assert forall i :: 0 <= i < |d| ==> r[i].transport == d[i].transport;
    forall n ensures Has(r, n) <==> Has(d, n) {
      if Has(d, n) {
        var i :| 0 <= i < |d| && d[i].transport == n;
        assert r[i].transport == n;
      }
    }
  }

  lemma {:induction false} DictOfIs(ts: seq<PeerTransport>)
    ensures Distinct(DictOf(ts))
    ensures forall n :: Has(DictOf(ts), n) <==> Has(ts, n)
    ensures Distinct(ts) <==> DictOf(ts) == ts
    ensures |DictOf(ts)| <= |ts|
  {
    if ts != [] {
      var front, t := ts[..|ts| - 1], ts[|ts| - 1];
      DictOfIs(front);
      var d := DictOf(front);
      var k := IndexOf(d, t.transport);
      assert ts == front + [t];
      HasSnoc(front, t);
      DistinctSnocIff(front, t);
      if k < |d| {
        ReplaceKeeps(d, k, t);
        assert Has(d, t.transport);
      } else {
        HasSnoc(d, t);
        DistinctSnocIff(d, t);
      }
    }
  }

  lemma DistinctSnocIff(d: seq<PeerTransport>, t: PeerTransport)
    ensures Distinct(d + [t]) <==> Distinct(d) && !Has(d, t.transport)
    ensures IndexOf(d, t.transport) == |d| <==> !Has(d, t.transport)
  {
    var r := d + [t];
    assert forall i :: 0 <= i < |d| ==> r[i] == d[i];
    if Distinct(r) {
      forall i | 0 <= i < |d| ensures d[i].transport != t.transport { assert r[i].transport != r[|d|].transport; }
      forall i, j | 0 <= i < j < |d| ensures d[i].transport != d[j].transport { assert r[i].transport != r[j].transport; }
    }
  }

  /** Two updates under one name are one with the settings overlaid. */
  lemma PutTwice(d: seq<PeerTransport>, u: PeerTransport, t: PeerTransport)
    requires Distinct(d) && u.transport == t.transport
    ensures Put(Put(d, u), t) == Put(d, Overlay(u, t))
  {
    var k := IndexOf(d, u.transport);
    PutDistinct(d, u);
    IndexOfUnique(Put(d, u), t.transport, k);
    if k < |d| {
      assert d[k].settings + u.settings + t.settings == d[k].settings + (u.settings + t.settings);
    }
  }

  /** An update of a name already there commutes with one under another name. */
  lemma PutCommutes(d: seq<PeerTransport>, t: PeerTransport, v: PeerTransport)
    requires Distinct(d) && Has(d, t.transport) && v.transport != t.transport
    ensures Put(Put(d, t), v) == Put(Put(d, v), t)
  {
    var i, j := IndexOf(d, t.transport), IndexOf(d, v.transport);
    PutDistinct(d, t);
    PutDistinct(d, v);
    IndexOfUnique(Put(d, v), t.transport, i);
    assert Put(d, t)[i].transport == t.transport;
    if j < |d| { IndexOfUnique(Put(d, t), v.transport, j); }
    else { assert IndexOf(Put(d, t), v.transport) == |d|; }
  }

  /** Putting through a dictionary: updating `w` first, then putting it all, is the same. */
  lemma {:induction false} PutThrough(x: seq<PeerTransport>, w: seq<PeerTransport>, t: PeerTransport)
    requires Distinct(x) && Distinct(w)
    ensures PutAll(x, Put(w, t)) == Put(PutAll(x, w), t)
  {
    hide PutAll, Has;
    var k := IndexOf(w, t.transport);
    if k == |w| {
      PutAllSnoc(x, w, t);
    } else {
      var front, v := w[..|w| - 1], w[|w| - 1];
      assert w == front + [v];
      PutAllDistinct(x, front);
      PutAllSnoc(x, front, v);
      if k == |w| - 1 {
        assert Put(w, t) == front + [Overlay(v, t)];
        PutAllSnoc(x, front, Overlay(v, t));
        PutTwice(PutAll(x, front), v, t);
      } else {
        PutInFront(front, v, t, k);
        PutThrough(x, front, t);
        PutAllSnoc(x, Put(front, t), v);
        PutCommutes(PutAll(x, front), t, v);
      }
    }
  }

  lemma PutAllSnoc(x: seq<PeerTransport>, ts: seq<PeerTransport>, t: PeerTransport)
    ensures PutAll(x, ts + [t]) == Put(PutAll(x, ts), t)
  {
    assert (ts + [t])[..|ts|] == ts;
  }

  lemma PutInFront(front: seq<PeerTransport>, v: PeerTransport, t: PeerTransport, k: nat)
    requires Distinct(front + [v]) && k < |front| && front[k].transport == t.transport
    ensures Distinct(front) && Put(front + [v], t) == Put(front, t) + [v]
    ensures Has(front, t.transport) && v.transport != t.transport
  {
    DistinctSnocIff(front, v);
    IndexOfUnique(front, t.transport, k);
    assert (front + [v])[k] == front[k];
    IndexOfUnique(front + [v], t.transport, k);
  }

  lemma {:induction false} PutAllAssociative(x: seq<PeerTransport>, y: seq<PeerTransport>, z: seq<PeerTransport>)
    requires Distinct(x) && Distinct(y)
    ensures PutAll(PutAll(x, y), z) == PutAll(x, PutAll(y, z))
  {
    if z != [] {
      var front := z[..|z| - 1];
      PutAllAssociative(x, y, front);
      PutAllDistinct(y, front);
      PutThrough(x, PutAll(y, front), z[|z| - 1]);
    }
  }

  lemma PutKnown(d: seq<PeerTransport>, i: nat)
    requires Distinct(d) && i < |d|
    ensures Put(d, d[i]) == d
  {
    IndexOfUnique(d, d[i].transport, i);
    assert d[i].settings + d[i].settings == d[i].settings;
    assert d[i := d[i]] == d;
  }

  lemma {:induction false} PutSelf(d: seq<PeerTransport>, n: nat)
    requires Distinct(d) && n <= |d|
    ensures PutAll(d, d[..n]) == d
  {
    hide Put, Distinct;
    if n > 0 {
      PutSelf(d, n - 1);
      assert d[..n][..n - 1] == d[..n - 1];
      PutKnown(d, n - 1);
    }
  }

  /** A list acts as the dictionary its entries make. */
  lemma PutAllFlat(x: seq<PeerTransport>, ts: seq<PeerTransport>)
    requires Distinct(x)
    ensures PutAll(x, ts) == PutAll(x, PutAll([], ts)) && Distinct(PutAll([], ts))
  {
    PutAllAssociative(x, [], ts);
    PutAllDistinct([], ts);
  }

  /** Overlaying a peer's transports a second time changes nothing, whatever they are. */
  lemma PutAllAgain(x: seq<PeerTransport>, ts: seq<PeerTransport>)
    requires Distinct(x)
    ensures PutAll(PutAll(x, ts), ts) == PutAll(x, ts)
  {
    var flat := PutAll([], ts);
    PutAllFlat(x, ts);
    PutAllDistinct(x, ts);
    PutAllFlat(PutAll(x, ts), ts);
    PutAllAssociative(x, flat, flat);
    PutSelf(flat, |flat|);
    assert flat[..|flat|] == flat;
  }

  /** Without repeated names the entries make themselves. */
  lemma {:induction false} FlatOfDistinct(ts: seq<PeerTransport>)
    requires Distinct(ts)
    ensures PutAll([], ts) == ts
  {
    if ts != [] {
      FlatOfDistinct(ts[..|ts| - 1]);
      assert ts == ts[..|ts| - 1] + [ts[|ts| - 1]];
    }
  }

  // ----- Capability lists -----

  predicate Once(s: seq<string>) {
    forall i, j :: 0 <= i < j < |s| ==> s[i] != s[j]
  }

  lemma {:induction false} DedupIs(s: seq<string>)
    ensures forall x :: x in Dedup(s) <==> x in s
    ensures Once(Dedup(s)) && |Dedup(s)| <= |s|
    ensures Dedup(s) == s <==> Once(s)
  {
    if s != [] {
      DedupIs(s[..|s| - 1]);
      assert s == s[..|s| - 1] + [s[|s| - 1]];
    }
  }

  /** One more text is taken exactly when it is new, and comes last. */
  lemma DedupSnoc(s: seq<string>, x: string)
    ensures Dedup(s + [x]) == if x in s then Dedup(s) else Dedup(s) + [x]
  {
    assert (s + [x])[..|s|] == s;
    DedupIs(s);
  }

  lemma SplitLast(a: seq<string>, b: seq<string>)
    requires b != []
    ensures a + b == (a + b[..|b| - 1]) + [b[|b| - 1]]
  {
  }

  lemma {:induction false} DedupLeft(a: seq<string>, b: seq<string>)
    ensures Dedup(Dedup(a) + b) == Dedup(a + b)
  {
    DedupIs(a);
    if b == [] {
      DedupIs(Dedup(a));
      assert a + b == a && Dedup(a) + b == Dedup(a);
    } else {
      var front, x := b[..|b| - 1], b[|b| - 1];
      DedupLeft(a, front);
      SplitLast(a, b);
      SplitLast(Dedup(a), b);
      hide Dedup;
      DedupSnoc(a + front, x);
      DedupSnoc(Dedup(a) + front, x);
    }
  }

  lemma {:induction false} DedupRight(a: seq<string>, b: seq<string>)
    ensures Dedup(a + Dedup(b)) == Dedup(a + b)
  {
    if b == [] {
      assert a + Dedup(b) == a + b;
    } else {
      var front, x := b[..|b| - 1], b[|b| - 1];
      DedupRight(a, front);
      DedupIs(front);
      SplitLast([], b);
      SplitLast(a, b);
      hide Dedup;
      DedupSnoc(front, x);
      DedupSnoc(a + front, x);
      if x !in front {
        SplitLast(a, Dedup(front) + [x]);
        DedupSnoc(a + Dedup(front), x);
      }
    }
  }

  lemma DedupAssociative(a: seq<string>, b: seq<string>, c: seq<string>)
    ensures Dedup(Dedup(a + b) + c) == Dedup(a + Dedup(b + c))
  {
    hide Dedup;
    DedupLeft(a + b, c);
    DedupRight(a, b + c);
    assert a + b + c == a + (b + c);
  }

  // ----- What a list loses as a dictionary -----

  /** The settings under a transport name; none when the name is not there. */
  function SettingsOf(d: seq<PeerTransport>, name: string): Settings {
    var k := IndexOf(d, name);
    if k == |d| then map[] else d[k].settings
  }

  lemma PutSettings(d: seq<PeerTransport>, t: PeerTransport, name: string)
    requires Distinct(d)
    ensures SettingsOf(Put(d, t), name)
            == if name == t.transport then SettingsOf(d, name) + t.settings else SettingsOf(d, name)
  {
    var k, r := IndexOf(d, t.transport), Put(d, t);
    PutDistinct(d, t);
    if name == t.transport {
      IndexOfUnique(r, name, k);
      assert map[] + t.settings == t.settings;
    } else {
      var j := IndexOf(d, name);
      if j < |d| { IndexOfUnique(r, name, j); }
    }
  }

  /** Entry `j` is the last under its name. */
  predicate LastOfName(ts: seq<PeerTransport>, j: nat)
    requires j < |ts|
  {
    forall k :: j < k < |ts| ==> ts[k].transport != ts[j].transport
  }

  /** No repeated transport name hides settings: each last entry has every setting name the
      earlier entries under its name have. */
  ghost predicate HidesNothing(ts: seq<PeerTransport>) {
    forall i, j :: 0 <= i < j < |ts| && ts[i].transport == ts[j].transport && LastOfName(ts, j)
      ==> ts[i].settings.Keys <= ts[j].settings.Keys
  }

  /** The two readings of a list agree on names and places. */
  lemma {:induction false} SameNames(ts: seq<PeerTransport>)
    ensures |PutAll([], ts)| == |DictOf(ts)|
    ensures forall k :: 0 <= k < |DictOf(ts)| ==> PutAll([], ts)[k].transport == DictOf(ts)[k].transport
  {
    if ts != [] {
      var front, t := ts[..|ts| - 1], ts[|ts| - 1];
      SameNames(front);
      SameIndex(PutAll([], front), DictOf(front), t.transport);
    }
  }

  lemma {:induction false} SameIndex(a: seq<PeerTransport>, b: seq<PeerTransport>, name: string)
    requires |a| == |b| && forall k :: 0 <= k < |a| ==> a[k].transport == b[k].transport
    ensures IndexOf(a, name) == IndexOf(b, name)
  {
    var i := IndexOf(a, name);
    if i < |a| { assert b[i].transport == name; }
  }

  lemma SettingsAt(d: seq<PeerTransport>, k: nat)
    requires Distinct(d) && k < |d|
    ensures SettingsOf(d, d[k].transport) == d[k].settings
  {
    IndexOfUnique(d, d[k].transport, k);
  }

  /** Entry `j` or an earlier one under its name has a setting `k`. */
  ghost predicate NamedBy(ts: seq<PeerTransport>, j: nat, k: string)
    requires j < |ts|
  {
    exists i :: 0 <= i <= j && ts[i].transport == ts[j].transport && k in ts[i].settings
  }

  /** Merged in, a list keeps the setting names of all its entries under a name; read as a dict it
      keeps the last entry's settings, and both agree on those. */
  lemma {:induction false} BothReadings(ts: seq<PeerTransport>, j: nat)
    requires j < |ts| && LastOfName(ts, j)
    ensures var all, last := SettingsOf(PutAll([], ts), ts[j].transport), SettingsOf(DictOf(ts), ts[j].transport);
            && last == ts[j].settings
            && (forall k :: k in last ==> k in all && all[k] == last[k])
            && (forall k :: k in all <==> NamedBy(ts, j, k))
  {
    var name := ts[j].transport;
    DictSettings(ts, j);
    FlatSettings(ts, name);
    forall k | k in ts[j].settings
      ensures k in SettingsOf(PutAll([], ts), name) && SettingsOf(PutAll([], ts), name)[k] == ts[j].settings[k]
    {
      LastWins(ts, j, k);
    }
  }

  lemma {:induction false} DictSettings(ts: seq<PeerTransport>, j: nat)
    requires j < |ts| && LastOfName(ts, j)
    ensures SettingsOf(DictOf(ts), ts[j].transport) == ts[j].settings
  {
    var front, t := ts[..|ts| - 1], ts[|ts| - 1];
    DictOfIs(front);
    if j < |ts| - 1 {
      assert LastOfName(front, j) by {
        forall m | j < m < |front| ensures front[m].transport != front[j].transport { assert front[m] == ts[m]; }
      }
      DictSettings(front, j);
      assert t.transport != ts[j].transport;
    }
    AssignSettings(DictOf(front), t, ts[j].transport);
  }

  lemma AssignSettings(d: seq<PeerTransport>, t: PeerTransport, name: string)
    requires Distinct(d)
    ensures SettingsOf(Assign(d, t), name) == if name == t.transport then t.settings else SettingsOf(d, name)
  {
    var r, k := Assign(d, t), IndexOf(d, t.transport);
    if k < |d| { ReplaceKeeps(d, k, t); } else { DistinctSnocIff(d, t); }
    assert r[k] == t;
    if name == t.transport {
      IndexOfUnique(r, name, k);
    } else {
      var i := IndexOf(d, name);
      if i < |d| { assert r[i] == d[i]; IndexOfUnique(r, name, i); } else { AbsentStays(d, t, name); }
    }
  }

  lemma AbsentStays(d: seq<PeerTransport>, t: PeerTransport, name: string)
    requires IndexOf(d, name) == |d| && name != t.transport
    ensures IndexOf(Assign(d, t), name) == |Assign(d, t)|
  {
    var r := Assign(d, t);
    forall i | 0 <= i < |r| ensures r[i].transport != name { }
  }

  lemma {:induction false} FlatSettings(ts: seq<PeerTransport>, name: string)
    ensures forall k :: k in SettingsOf(PutAll([], ts), name) <==>
              exists i :: 0 <= i < |ts| && ts[i].transport == name && k in ts[i].settings
  {
    if ts != [] {
      var front, t := ts[..|ts| - 1], ts[|ts| - 1];
      FlatSettings(front, name);
      PutAllDistinct([], front);
      PutSettings(PutAll([], front), t, name);
      assert ts == front + [t];
    }
  }

  lemma {:induction false} LastWins(ts: seq<PeerTransport>, j: nat, k: string)
    requires j < |ts| && LastOfName(ts, j) && k in ts[j].settings
    ensures var all := SettingsOf(PutAll([], ts), ts[j].transport); k in all && all[k] == ts[j].settings[k]
  {
    var front, t := ts[..|ts| - 1], ts[|ts| - 1];
    PutAllDistinct([], front);
    PutSettings(PutAll([], front), t, ts[j].transport);
    if j < |ts| - 1 {
      assert LastOfName(front, j) by {
        forall m | j < m < |front| ensures front[m].transport != front[j].transport { assert front[m] == ts[m]; }
      }
      LastWins(front, j, k);
    }
  }

  /** The two readings of a list are one exactly when no repeated name hides settings. */
  lemma ReadingsAgreeIff(ts: seq<PeerTransport>)
    ensures PutAll([], ts) == DictOf(ts) <==> HidesNothing(ts)
  {
    if HidesNothing(ts) {
      SameNames(ts);
      forall k | 0 <= k < |DictOf(ts)| ensures PutAll([], ts)[k] == DictOf(ts)[k] { EntryAgrees(ts, k); }
    }
    if PutAll([], ts) == DictOf(ts) {
      forall i, j | 0 <= i < j < |ts| && ts[i].transport == ts[j].transport && LastOfName(ts, j)
        ensures ts[i].settings.Keys <= ts[j].settings.Keys
      {
        NothingHidden(ts, i, j);
      }
    }
  }

  lemma EntryAgrees(ts: seq<PeerTransport>, k: nat)
    requires HidesNothing(ts) && k < |DictOf(ts)| == |PutAll([], ts)|
    requires PutAll([], ts)[k].transport == DictOf(ts)[k].transport
    ensures PutAll([], ts)[k] == DictOf(ts)[k]
  {
    PutAllDistinct([], ts);
    DictOfIs(ts);
    hide PutAll, DictOf;
    var name := DictOf(ts)[k].transport;
    assert Has(DictOf(ts), name);
    var j := LastIndex(ts, name);
    SettingsAt(PutAll([], ts), k);
    SettingsAt(DictOf(ts), k);
    SettingsAgree(ts, j);
  }

  lemma SettingsAgree(ts: seq<PeerTransport>, j: nat)
    requires HidesNothing(ts) && j < |ts| && LastOfName(ts, j)
    ensures SettingsOf(PutAll([], ts), ts[j].transport) == SettingsOf(DictOf(ts), ts[j].transport)
  {
    hide *;
    BothReadings(ts, j);
    var all, last := SettingsOf(PutAll([], ts), ts[j].transport), SettingsOf(DictOf(ts), ts[j].transport);
    forall k | k in all ensures k in last { KeptKey(ts, j, k); }
    SameMap(all, last);
  }

  lemma KeptKey(ts: seq<PeerTransport>, j: nat, k: string)
    requires HidesNothing(ts) && j < |ts| && LastOfName(ts, j)
    requires NamedBy(ts, j, k)
    ensures k in ts[j].settings
  {
    var i :| 0 <= i <= j && ts[i].transport == ts[j].transport && k in ts[i].settings;
    assert k in ts[i].settings.Keys;
  }

  lemma SameMap(a: Settings, b: Settings)
    requires forall k :: k in b ==> k in a && a[k] == b[k]
    requires forall k :: k in a ==> k in b
    ensures a == b
  {
  }

  lemma NothingHidden(ts: seq<PeerTransport>, i: nat, j: nat)
    requires PutAll([], ts) == DictOf(ts)
    requires i < j < |ts| && ts[i].transport == ts[j].transport && LastOfName(ts, j)
    ensures ts[i].settings.Keys <= ts[j].settings.Keys
  {
    BothReadings(ts, j);
    hide PutAll, DictOf, SettingsOf, LastOfName;
    forall k | k in ts[i].settings ensures k in ts[j].settings { assert NamedBy(ts, j, k); }
  }

  lemma {:induction false} LastIndex(ts: seq<PeerTransport>, name: string) returns (j: nat)
    requires Has(ts, name)
    ensures j < |ts| && ts[j].transport == name && LastOfName(ts, j)
  {
    var last := |ts| - 1;
    if ts[last].transport == name {
      j := last;
    } else {
      var front := ts[..last];
      var i :| 0 <= i < |ts| && ts[i].transport == name;
      assert front[i].transport == name;
      j := LastIndex(front, name);
      forall m | j < m < |ts| ensures ts[m].transport != ts[j].transport {
        if m < last { assert front[m] == ts[m]; }
      }
    }
  }

  // ----- The merge -----

  /** Merging is associative around a peer exactly when no repeated transport name of that peer
      hides settings: a list read as a dict keeps the last value, a list merged in keeps all.
      Distinct names, which discovery produces, suffice. */
  lemma MergeAssociativeIff(b: PeerInfo)
    ensures (forall a: PeerInfo, c: PeerInfo :: a.Merge(b).Merge(c) == a.Merge(b.Merge(c)))
            <==> HidesNothing(b.transports)
    ensures Distinct(b.transports) ==> HidesNothing(b.transports)
  {
    ReadingsAgreeIff(b.transports);
    if PutAll([], b.transports) == DictOf(b.transports) {
      forall a: PeerInfo, c: PeerInfo ensures a.Merge(b).Merge(c) == a.Merge(b.Merge(c)) {
        MergeAssociates(a, b, c);
      }
    }
    if forall a: PeerInfo, c: PeerInfo :: a.Merge(b).Merge(c) == a.Merge(b.Merge(c)) {
      var e := EMPTY_PEER;
      assert e.Merge(b).Merge(e) == e.Merge(b.Merge(e));
      DictOfIs(b.transports);
      PutAllDistinct([], b.transports);
      DictOfIs(PutAll([], b.transports));
      FlatOfDistinct(DictOf(b.transports));
      assert DictOf([]) == [];
    }
  }

  /** A peer around which merging does not associate: its second entry for one transport hides
      the first one's setting. */
  lemma HiddenSettingsBreakMerge(b: PeerInfo)
    requires b.transports == [PeerTransport("x", map["a" := "1"]), PeerTransport("x", map["b" := "2"])]
    ensures exists a: PeerInfo, c: PeerInfo :: a.Merge(b).Merge(c) != a.Merge(b.Merge(c))
  {
    MergeAssociativeIff(b);
    var ts := b.transports;
    assert LastOfName(ts, 1) && "a" in ts[0].settings.Keys && "a" !in ts[1].settings.Keys;
  }

  const EMPTY_PEER := PeerInfo("", None, None, None, None, [], [], [], "", None)

  lemma MergeAssociates(a: PeerInfo, b: PeerInfo, c: PeerInfo)
    requires PutAll([], b.transports) == DictOf(b.transports)
    ensures a.Merge(b).Merge(c) == a.Merge(b.Merge(c))
  {
    var x, y := DictOf(a.transports), DictOf(b.transports);
    DictOfIs(a.transports);
    DictOfIs(b.transports);
    PutAllDistinct(x, b.transports);
    DictOfIs(PutAll(x, b.transports));
    PutAllFlat(x, b.transports);
    PutAllAssociative(x, y, c.transports);
    DedupAssociative(a.capabilities, b.capabilities, c.capabilities);
  }

  /** Merging a peer in again changes nothing; merging it into itself changes nothing exactly when
      it repeats no transport name and no capability. */
  lemma MergeAgain(a: PeerInfo, b: PeerInfo)
    ensures a.Merge(b).Merge(b) == a.Merge(b)
    ensures b.Merge(b) == b <==> Distinct(b.transports) && Once(b.capabilities)
  {
    MergeTwice(a, b);
    MergeSelfIff(b);
  }

  lemma MergeTwice(a: PeerInfo, b: PeerInfo)
    ensures a.Merge(b).Merge(b) == a.Merge(b)
  {
    hide Dedup, PutAll, DictOf;
    MergeTransportsAgain(a.transports, b.transports);
    DedupAgain(a.capabilities, b.capabilities);
  }

  lemma MergeSelfIff(b: PeerInfo)
    ensures b.Merge(b) == b <==> Distinct(b.transports) && Once(b.capabilities)
  {
    hide Dedup, PutAll, DictOf, Distinct, Once;
    MergeTransportsAgain(b.transports, b.transports);
    DedupAgain([], b.capabilities);
    DedupIs(b.capabilities);
  }

  lemma MergeTransportsAgain(a: seq<PeerTransport>, b: seq<PeerTransport>)
    ensures PutAll(DictOf(PutAll(DictOf(a), b)), b) == PutAll(DictOf(a), b)
    ensures PutAll(DictOf(b), b) == b <==> Distinct(b)
  {
    DictOfIs(a);
    PutAllDistinct(DictOf(a), b);
    DictOfIs(PutAll(DictOf(a), b));
    PutAllAgain(DictOf(a), b);
    DictOfIs(b);
    PutAllDistinct(DictOf(b), b);
    if Distinct(b) {
      PutSelf(b, |b|);
      assert b[..|b|] == b;
    }
  }

  lemma DedupAgain(a: seq<string>, b: seq<string>)
    ensures Dedup(Dedup(a + b) + b) == Dedup(a + b)
    ensures a == [] ==> Dedup(b + b) == Dedup(b)
  {
    DedupLeft(a + b, b);
    DedupKnown(a + b, b);
    DedupKnown(b, b);
  }

  lemma {:induction false} DedupKnown(a: seq<string>, b: seq<string>)
    requires forall x :: x in b ==> x in a
    ensures Dedup(a + b) == Dedup(a)
  {
    if b == [] {
      assert a + b == a;
    } else {
      var front := b[..|b| - 1];
      assert forall x :: x in front ==> x in b;
      DedupKnown(a, front);
      assert a + b == (a + front) + [b[|b| - 1]];
      DedupSnoc(a + front, b[|b| - 1]);
    }
  }

  /** Nothing is lost: every capability and transport of either peer is there and nothing else,
      each identity is there when either side has one, the first peer's own is kept, and the
      later sighting wins. The second peer's rails give way to the first's. */
  lemma MergeKeeps(a: PeerInfo, b: PeerInfo)
    ensures var m := a.Merge(b);
            && Filled(a.fqid, b.fqid, m.fqid) && Filled(a.fingerprint, b.fingerprint, m.fingerprint)
            && Filled(a.pubkey, b.pubkey, m.pubkey) && Filled(a.nostr_pubkey, b.nostr_pubkey, m.nostr_pubkey)
            && (forall c :: c in m.capabilities <==> c in a.capabilities || c in b.capabilities)
            && (forall n :: Has(m.transports, n) <==> Has(a.transports, n) || Has(b.transports, n))
            && Once(m.capabilities) && Distinct(m.transports)
            && (a.rails != [] ==> m.rails == a.rails) && (a.rails == [] ==> m.rails == b.rails)
            && NotBefore(m.last_seen, a.last_seen) && NotBefore(m.last_seen, b.last_seen)
            && (m.last_seen == a.last_seen || m.last_seen == b.last_seen)
            && m.name == a.name && m.discovered_via == a.discovered_via
  {
    DictOfIs(a.transports);
    PutAllDistinct(DictOf(a.transports), b.transports);
    DedupIs(a.capabilities + b.capabilities);
  }

  predicate Present(s: Option<string>) {
    s.Some? && s.value != ""
  }

  /** `m` is present when either side is, and then the first side's own if it has one. */
  predicate Filled(a: Option<string>, b: Option<string>, m: Option<string>) {
    (Present(m) <==> Present(a) || Present(b)) && (Present(a) ==> m == a) && (!Present(a) ==> m == b)
  }

  predicate NotBefore(x: Option<real>, y: Option<real>) {
    y.Some? ==> x.Some? && x.value >= y.value
  }

  function Names(ts: seq<PeerTransport>): seq<string> {
    seq(|ts|, i requires 0 <= i < |ts| => ts[i].transport)
  }

  lemma NamesPut(d: seq<PeerTransport>, t: PeerTransport)
    requires Distinct(d)
    ensures Names(Put(d, t)) == if t.transport in Names(d) then Names(d) else Names(d) + [t.transport]
    ensures Names(Assign(d, t)) == if t.transport in Names(d) then Names(d) else Names(d) + [t.transport]
  {
    var k := IndexOf(d, t.transport);
    if k < |d| {
      assert Names(d)[k] == t.transport;
    } else {
      assert forall i :: 0 <= i < |d| ==> Names(d)[i] == d[i].transport != t.transport;
    }
  }

  lemma {:induction false} NamesDict(ts: seq<PeerTransport>)
    ensures Names(DictOf(ts)) == Dedup(Names(ts))
  {
    if ts != [] {
      var front, t := ts[..|ts| - 1], ts[|ts| - 1];
      NamesDict(front);
      DictOfIs(front);
      NamesPut(DictOf(front), t);
      DedupIs(Names(front));
      NamesSnoc(ts);
      DedupSnoc(Names(front), t.transport);
    }
  }

  lemma NamesSnoc(b: seq<PeerTransport>)
    requires b != []
    ensures Names(b) == Names(b[..|b| - 1]) + [b[|b| - 1].transport]
  {
  }

  lemma NoNames(a: seq<PeerTransport>)
    ensures Names(a) + Names([]) == Names(a)
  {
  }

  lemma {:induction false} NamesPutAll(a: seq<PeerTransport>, b: seq<PeerTransport>)
    ensures Names(PutAll(DictOf(a), b)) == Dedup(Names(a) + Names(b))
  {
    hide Put, DictOf, Dedup, Distinct, Names;
    if b == [] {
      NamesDict(a);
      NoNames(a);
    } else {
      var front, t := b[..|b| - 1], b[|b| - 1];
      NamesPutAll(a, front);
      DictOfIs(a);
      PutAllDistinct(DictOf(a), front);
      NamesPut(PutAll(DictOf(a), front), t);
      DedupIs(Names(a) + Names(front));
      NamesSnoc(b);
      Regroup(Names(a), Names(front), [t.transport]);
      DedupSnoc(Names(a) + Names(front), t.transport);
    }
  }

  /** Transports and capabilities come in the order of their first appearance, the first peer's before
      the second's. */
  lemma MergeOrder(a: PeerInfo, b: PeerInfo)
    ensures var m := a.Merge(b);
            && Names(m.transports) == Dedup(Names(a.transports) + Names(b.transports))
            && m.capabilities == Dedup(a.capabilities + b.capabilities)
  {
    NamesPutAll(a.transports, b.transports);
  }

  /** Where both peers know a transport the second peer's settings overlay the first's, and
      neither loses a setting name. */
  lemma {:induction false} OverlaidSettings(d: seq<PeerTransport>, ts: seq<PeerTransport>, name: string)
    requires Distinct(d) && Distinct(ts)
    ensures SettingsOf(PutAll(d, ts), name) == SettingsOf(d, name) + SettingsOf(ts, name)
  {
    if ts == [] {
      assert SettingsOf(d, name) + map[] == SettingsOf(d, name);
    } else {
      var front, t := ts[..|ts| - 1], ts[|ts| - 1];
      OverlaidSettings(d, front, name);
      PutAllDistinct(d, front);
      PutSettings(PutAll(d, front), t, name);
      PutLast(front, t);
      assert ts == front + [t];
      PutSettings(front, t, name);
      OverlayAssociative(SettingsOf(d, name), SettingsOf(front, name), t.settings);
    }
  }

  lemma PutLast(front: seq<PeerTransport>, t: PeerTransport)
    requires Distinct(front + [t])
    ensures Put(front, t) == front + [t] && Distinct(front)
  {
    DistinctSnocIff(front, t);
  }

  lemma OverlayAssociative(a: Settings, b: Settings, c: Settings)
    ensures a + b + c == a + (b + c)
  {
  }

  // ----- Gathering sightings -----

  type Peers = map<string, PeerInfo>

  /** Each sighting merges into the entry under its key, or starts one. */
  function Gather(m: Peers, sightings: seq<PeerInfo>, key: string -> string): Peers {
    if sightings == [] then m
    else
      var g := Gather(m, sightings[..|sightings| - 1], key);
      var p := sightings[|sightings| - 1];
      if key(p.name) in g then g[key(p.name) := g[key(p.name)].Merge(p)] else g[key(p.name) := p]
  }

  /** The sightings under one key, in order. */
  function Matching(sightings: seq<PeerInfo>, key: string -> string, k: string): seq<PeerInfo> {
    if sightings == [] then []
    else
      var front := Matching(sightings[..|sightings| - 1], key, k);
      var p := sightings[|sightings| - 1];
      if key(p.name) == k then front + [p] else front
  }

  /** The left fold of some sightings. */
  function MergeAll(s: seq<PeerInfo>): PeerInfo
    requires s != []
  {
    if |s| == 1 then s[0] else MergeAll(s[..|s| - 1]).Merge(s[|s| - 1])
  }

  /** Gathering holds one entry per key seen, the left fold of that key's sightings. */
  lemma {:induction false} GatherIs(sightings: seq<PeerInfo>, key: string -> string, k: string)
    ensures k in Gather(map[], sightings, key) <==> SeenUnder(sightings, key, k)
    ensures Matching(sightings, key, k) != [] <==> k in Gather(map[], sightings, key)
    ensures k in Gather(map[], sightings, key) ==>
              Gather(map[], sightings, key)[k] == MergeAll(Matching(sightings, key, k))
              && key(Gather(map[], sightings, key)[k].name) == k
  {
    if sightings != [] {
      var front, p := sightings[..|sightings| - 1], sightings[|sightings| - 1];
      GatherIs(front, key, k);
      SeenSnoc(front, p, key, k);
      assert sightings == front + [p];
      hide PeerInfo.Merge, SeenUnder;
      MergeAllSnoc(Matching(front, key, k), p);
    }
  }

  predicate SeenUnder(sightings: seq<PeerInfo>, key: string -> string, k: string) {
    exists i :: 0 <= i < |sightings| && key(sightings[i].name) == k
  }

  lemma SeenSnoc(front: seq<PeerInfo>, p: PeerInfo, key: string -> string, k: string)
    ensures SeenUnder(front + [p], key, k) <==> SeenUnder(front, key, k) || key(p.name) == k
  {
    var s := front + [p];
    assert s[|front|] == p;
    if SeenUnder(front, key, k) {
      var i :| 0 <= i < |front| && key(front[i].name) == k;
      assert s[i] == front[i];
    }
  }

  lemma MergeAllSnoc(s: seq<PeerInfo>, p: PeerInfo)
    ensures MergeAll(s + [p]) == if s == [] then p else MergeAll(s).Merge(p)
    ensures MergeAll(s + [p]).name == if s == [] then p.name else MergeAll(s).name
  {
    assert (s + [p])[..|s|] == s;
  }

  lemma {:induction false} GatherConcat(m: Peers, a: seq<PeerInfo>, b: seq<PeerInfo>, key: string -> string)
    ensures Gather(Gather(m, a, key), b, key) == Gather(m, a + b, key)
  {
    if b == [] {
      assert a + b == a;
    } else {
      GatherConcat(m, a, b[..|b| - 1], key);
      assert (a + b)[..|a + b| - 1] == a + b[..|b| - 1];
    }
  }

  const BY_NAME: string -> string := name => name

  /** One of the three loops of `discover_all`. */
  method MergeSightings(merged: Peers, found: seq<PeerInfo>) returns (result: Peers)
    ensures result == Gather(merged, found, BY_NAME)
  {
    result := merged;
    for i := 0 to |found|
      invariant result == Gather(merged, found[..i], BY_NAME)
    {
      assert found[..i + 1][..i] == found[..i];
      var peer := found[i];
      if peer.name in result {
        result := result[peer.name := result[peer.name].Merge(peer)];
      } else {
        result := result[peer.name := peer];
      }
    }
    assert found[..|found|] == found;
  }

  ghost predicate NameSorted(s: seq<PeerInfo>) {
    forall i, j :: 0 <= i < j < |s| ==> Ordering.StringLeq(s[i].name, s[j].name) && s[i].name != s[j].name
  }

  predicate NameLeq(a: PeerInfo, b: PeerInfo) {
    Ordering.StringLeq(a.name, b.name)
  }

  lemma {:induction false} InsertByNameSorted(p: PeerInfo, s: seq<PeerInfo>)
    requires NameSorted(s) && forall q :: q in s ==> q.name != p.name
    ensures NameSorted(Ordering.Insert(p, s, NameLeq))
    ensures forall q :: q in Ordering.Insert(p, s, NameLeq) <==> q == p || q in s
  {
    var r := Ordering.Insert(p, s, NameLeq);
    if s != [] {
      if Ordering.StringLeq(p.name, s[0].name) {
        forall j | 0 <= j < |s| ensures Ordering.StringLeq(p.name, s[j].name) {
          if j > 0 { Ordering.StringLeqTransitive(p.name, s[0].name, s[j].name); }
        }
      } else {
        InsertByNameSorted(p, s[1..]);
        Ordering.StringLeqTotal(p.name, s[0].name);
        assert r[1..] == Ordering.Insert(p, s[1..], NameLeq);
        forall j | 0 < j < |r| ensures Ordering.StringLeq(r[0].name, r[j].name) && r[0].name != r[j].name {
          assert r[j] in r[1..];
        }
      }
    }
  }

  /** `sorted(values, key=name)`: the entries have distinct names, so one order is sorted. */
  method SortedByName(m: Peers) returns (s: seq<PeerInfo>)
    requires forall k :: k in m ==> m[k].name == k
    ensures NameSorted(s) && forall p :: p in s <==> p.name in m && m[p.name] == p
  {
    s := [];
    var rest := m;
    while rest != map[]
      invariant rest.Keys <= m.Keys && forall k :: k in rest ==> rest[k] == m[k]
      invariant NameSorted(s)
      invariant forall p :: p in s <==> p.name in m && p.name !in rest && m[p.name] == p
      decreases |rest.Keys|
    {
      var k :| k in rest;
      InsertByNameSorted(rest[k], s);
      s := Ordering.Insert(rest[k], s, NameLeq);
      var rest' := rest - {k};
      assert rest'.Keys == rest.Keys - {k};
      rest := rest';
    }
  }

  /** Discovery yields one entry per name any source saw, in name order, and each is the left
      fold of that name's sightings in the order syncthing, file, mDNS. */
  method DiscoverAll(syncthing: seq<PeerInfo>, file: seq<PeerInfo>, mdns: seq<PeerInfo>, skipMdns: bool)
    returns (peers: seq<PeerInfo>)
    ensures NameSorted(peers)
    ensures var all := syncthing + file + if skipMdns then [] else mdns;
            && (forall p :: p in peers ==> Matching(all, BY_NAME, p.name) != [] && p == MergeAll(Matching(all, BY_NAME, p.name)))
            && (forall i :: 0 <= i < |all| ==> exists p :: p in peers && p.name == all[i].name)
  {
    ghost var all := syncthing + file + if skipMdns then [] else mdns;
    var merged := MergeSightings(map[], syncthing);
    merged := MergeSightings(merged, file);
    GatherConcat(map[], syncthing, file, BY_NAME);
    if !skipMdns {
      merged := MergeSightings(merged, mdns);
      GatherConcat(map[], syncthing + file, mdns, BY_NAME);
    } else {
      assert all == syncthing + file;
    }
    forall k ensures k in merged ==> merged[k].name == k { GatherIs(all, BY_NAME, k); }
    peers := SortedByName(merged);
    forall p | p in peers ensures Matching(all, BY_NAME, p.name) != [] && p == MergeAll(Matching(all, BY_NAME, p.name)) {
      GatherIs(all, BY_NAME, p.name);
    }
    forall i | 0 <= i < |all| ensures exists p :: p in peers && p.name == all[i].name {
      GatherIs(all, BY_NAME, all[i].name);
      assert merged[all[i].name] in peers;
    }
  }

  // ----- The peer store -----

  /** The file a name is kept under: its letters, digits, '-' and '_'. */
  function SafeName(name: string, isAlnum: char -> bool): string {
    if name == "" then ""
    else (if isAlnum(name[0]) || name[0] == '-' || name[0] == '_' then [name[0]] else "") + SafeName(name[1..], isAlnum)
  }

  /** A letter, digit, '-' or '_' is kept, anything else is dropped, and the rest stays in order. */
  lemma {:induction false} SafeNameIs(a: string, b: string, c: char, isAlnum: char -> bool)
    ensures SafeName(a + b, isAlnum) == SafeName(a, isAlnum) + SafeName(b, isAlnum)
    ensures SafeName([c], isAlnum) == if isAlnum(c) || c == '-' || c == '_' then [c] else ""
    ensures (forall i :: 0 <= i < |a| ==> isAlnum(a[i]) || a[i] == '-' || a[i] == '_') ==> SafeName(a, isAlnum) == a
  {
    assert [c][1..] == "" && SafeName("", isAlnum) == "";
    if a == "" {
      assert a + b == b;
    } else {
      SafeNameIs(a[1..], b, c, isAlnum);
      assert (a + b)[0] == a[0] && (a + b)[1..] == a[1..] + b;
      var kept := if isAlnum(a[0]) || a[0] == '-' || a[0] == '_' then [a[0]] else "";
      Regroup(kept, SafeName(a[1..], isAlnum), SafeName(b, isAlnum));
      assert a == [a[0]] + a[1..];
    }
  }

  class PeerStore {
    const isAlnum: char -> bool
    var files: Peers

    constructor (isAlnum: char -> bool)
      ensures this.isAlnum == isAlnum && files == map[]
    {
      this.isAlnum := isAlnum;
      files := map[];
    }

    function Key(): string -> string {
      name => SafeName(name, isAlnum)
    }

    /** Every file holds a peer whose name maps to it. */
    ghost predicate Valid()
      reads this
    {
      forall k :: k in files ==> Key()(files[k].name) == k
    }

    /** Err is ValueError: a name with no safe character. */
    method Add(peer: PeerInfo) returns (r: Result<(), ()>)
      requires Valid()
      modifies this
      ensures Valid()
      ensures r.Ok? <==> Key()(peer.name) != ""
      ensures files == if r.Ok? then Gather(old(files), [peer], Key()) else old(files)
    {
      var safe := SafeName(peer.name, isAlnum);
      if safe == "" { return Err(()); }
      var merged := peer;
      if safe in files { merged := files[safe].Merge(peer); }
      files := files[SafeName(merged.name, isAlnum) := merged];
      assert [peer][..0] == [];
      return Ok(());
    }
  }

  lemma GatherOne(files: Peers, p: PeerInfo, key: string -> string)
    ensures Gather(files, [p], key)
            == files[key(p.name) := if key(p.name) in files then files[key(p.name)].Merge(p) else p]
  {
    assert [p][..0] == [];
  }

  lemma GatherAgain(files: Peers, p: PeerInfo, key: string -> string)
    ensures var once := Gather(files, [p], key);
            key(p.name) in once && Gather(files, [p, p], key) == once[key(p.name) := once[key(p.name)].Merge(p)]
  {
    hide PeerInfo.Merge;
    assert [p, p][..1] == [p] && [p][..0] == [];
  }

  lemma SameUpdate(files: Peers, k: string, p: PeerInfo)
    requires k in files
    ensures files[k := p] == files <==> p == files[k]
  {
    if files[k := p] == files { assert files[k := p][k] == p; }
    if p == files[k] { assert files[k := files[k]] == files; }
  }

  /** Adding a peer again leaves the store as one more merge would: unchanged when it was already
      there, and when it is new exactly if it repeats no transport and no capability. */
  lemma AddAgainIff(files: Peers, peer: PeerInfo, key: string -> string)
    ensures Gather(files, [peer, peer], key) == Gather(files, [peer], key) <==>
            key(peer.name) in files || (Distinct(peer.transports) && Once(peer.capabilities))
  {
    hide Gather, PeerInfo.Merge, Distinct, Once;
    var k := key(peer.name);
    var once := Gather(files, [peer], key);
    GatherOne(files, peer, key);
    GatherAgain(files, peer, key);
    SameUpdate(once, k, once[k].Merge(peer));
    MergeAgain(if k in files then files[k] else EMPTY_PEER, peer);
  }
}

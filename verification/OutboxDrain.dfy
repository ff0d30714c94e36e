/** Draining a stranded outbox (drain_orphan_outbox.py): a tree of directories, and a loop that
    moves envelopes out of one of them. Directory names are resolved paths, so two arguments may
    name one directory. Reading a file and JSON are an argument. */
module OutboxDrain {
  import opened Common
  import opened Text
  import Ordering

  /** What stands under a name in a directory; the glob sees both, the loop only files. */
  datatype Item = File(content: bytes, mtime: real) | Folder

  type Directory = map<string, Item>
  type Tree = map<string, Directory>

  /** What `_extract` reads of an envelope: its creation time if it has one, and its ttl. */
  datatype Facts = Facts(created: Option<real>, ttl: int)

  /** One pass: the directories, the clock, and what a file parses to (None: not a JSON object). */
  datatype Pass = Pass(source: string, dest: string, archive: string, now: real, apply: bool,
                       parse: bytes -> Option<Facts>)

  datatype Status = Moved | WouldMove | SkipExists

  datatype Counts = Counts(requeue: nat, expired: nat, corrupt: nat, skipped: nat) {
    function Total(): nat { requeue + expired + corrupt + skipped }
  }

  const ZERO := Counts(0, 0, 0, 0)

  function In(t: Tree, d: string): Directory {
    if d in t then t[d] else map[]
  }

  function Lookup(t: Tree, d: string, n: string): Option<Item> {
    if n in In(t, d) then Some(In(t, d)[n]) else None
  }

  predicate IsFile(t: Tree, d: string, n: string) {
    Lookup(t, d, n).Some? && Lookup(t, d, n).value.File?
  }

  const PATTERNS := [".json", ".skc.json"]

  // ----- One envelope -----

  predicate Expired(c: Pass, f: Item)
    requires f.File?
  {
    c.parse(f.content).Some?
    && var facts := c.parse(f.content).value;
       var created := if facts.created.Some? then facts.created.value else f.mtime;
       facts.ttl > 0 && c.now - created > facts.ttl as real
  }

  /** Where an envelope belongs: live ones to the active outbox, the rest to the archive. */
  function Target(c: Pass, f: Item): string
    requires f.File?
  {
    if c.parse(f.content) == None || Expired(c, f) then c.archive else c.dest
  }

  function MoveSpec(t: Tree, c: Pass, n: string, d: string): (Tree, Status)
    requires Lookup(t, c.source, n).Some?
  {
    if n in In(t, d) then (t, SkipExists)
    else if !c.apply then (t, WouldMove)
    else (t[c.source := t[c.source] - {n}][d := In(t, d)[n := t[c.source][n]]], Moved)
  }

  function Count(k: Counts, c: Pass, f: Item, s: Status): Counts
    requires f.File?
  {
    if s == SkipExists then k.(skipped := k.skipped + 1)
    else if c.parse(f.content) == None then k.(corrupt := k.corrupt + 1)
    else if Expired(c, f) then k.(expired := k.expired + 1)
    else k.(requeue := k.requeue + 1)
  }

  datatype State = State(tree: Tree, counts: Counts)

  /** One turn of the loop; a name that is no file there is passed over. */
  function DrainOne(s: State, c: Pass, n: string): State {
    if !IsFile(s.tree, c.source, n) then s
    else
      var f := s.tree[c.source][n];
      var (t, status) := MoveSpec(s.tree, c, n, Target(c, f));
      State(t, Count(s.counts, c, f, status))
  }

  function DrainNames(s: State, c: Pass, names: seq<string>): State {
    if names == [] then s else DrainOne(DrainNames(s, c, names[..|names| - 1]), c, names[|names| - 1])
  }

  // ----- The loop -----

  ghost predicate Listing(names: seq<string>, which: set<string>) {
    && (forall i, j :: 0 <= i < j < |names| ==> Ordering.StringLeq(names[i], names[j]) && names[i] != names[j])
    && (forall n :: n in names <==> n in which)
  }

  lemma ListingTail(names: seq<string>, which: set<string>)
    requires Listing(names, which) && names != []
    ensures Listing(names[1..], which - {names[0]})
  {
    forall m ensures m in names[1..] <==> m in which - {names[0]} { assert names == [names[0]] + names[1..]; }
  }

  lemma ListingCons(n: string, names: seq<string>, which: set<string>)
    requires Listing(names, which) && n !in which
    requires forall m :: m in which ==> Ordering.StringLeq(n, m)
    ensures Listing([n] + names, which + {n})
  {
    var r := [n] + names;
    forall j | 0 < j < |r| ensures Ordering.StringLeq(r[0], r[j]) && r[0] != r[j] { assert r[j] in names; }
  }

  lemma BelowTail(names: seq<string>, which: set<string>, m: string)
    requires Listing(names, which) && m in which && m != names[0]
    ensures Ordering.StringLeq(names[0], m)
  {
    var j :| 0 <= j < |names| && names[j] == m;
  }

  lemma {:induction false} ListingInsert(n: string, names: seq<string>, which: set<string>)
    requires Listing(names, which) && n !in which
    ensures Listing(Ordering.Insert(n, names, Ordering.StringLeq), which + {n})
  {
    if names == [] {
      assert which == {};
      ListingCons(n, names, which);
    } else {
      var first := names[0];
      assert first in which;
      hide Listing, Ordering.StringLeq;
      if Ordering.StringLeq(n, first) {
        forall m | m in which ensures Ordering.StringLeq(n, m) {
          if m != first {
            BelowTail(names, which, m);
            Ordering.StringLeqTransitive(n, first, m);
          }
        }
        ListingCons(n, names, which);
      } else {
        ListingTail(names, which);
        ListingInsert(n, names[1..], which - {first});
        Ordering.StringLeqTotal(n, first);
        forall m | m in which - {first} + {n} ensures Ordering.StringLeq(first, m) {
          if m != n { BelowTail(names, which, m); }
        }
        ListingCons(first, Ordering.Insert(n, names[1..], Ordering.StringLeq), which - {first} + {n});
        assert which - {first} + {n} + {first} == which + {n};
      }
    }
  }

  lemma ListingNothing()
    ensures Listing([], {})
  {
  }

  /** `sorted(source.glob(pattern))`. */
  method Glob(d: Directory, suffix: string) returns (names: seq<string>)
    ensures Listing(names, set n | n in d && EndsWith(n, suffix))
  {
    hide Listing, Ordering.Insert, Ordering.StringLeq, EndsWith;
    names := [];
    var all := set n | n in d && EndsWith(n, suffix);
    var rest := all;
    ghost var done: set<string> := {};
    ListingNothing();
    while rest != {}
      invariant done + rest == all && done !! rest && Listing(names, done)
      decreases |rest|
    {
      var n :| n in rest;
      ListingInsert(n, names, done);
      names := Ordering.Insert(n, names, Ordering.StringLeq);
      rest, done := rest - {n}, done + {n};
    }
    assert done == all;
  }

  class FileSystem {
    var tree: Tree

    constructor (tree: Tree)
      ensures this.tree == tree
    {
      this.tree := tree;
    }

    /** `_move`: never overwrites, and moves nothing in a dry run. */
    method Move(c: Pass, n: string, d: string) returns (status: Status)
      requires Lookup(tree, c.source, n).Some?
      modifies this
      ensures (tree, status) == MoveSpec(old(tree), c, n, d)
    {
      if n in In(tree, d) { return SkipExists; }
      if !c.apply { return WouldMove; }
      var f := tree[c.source][n];
      tree := tree[c.source := tree[c.source] - {n}];
      tree := tree[d := In(tree, d)[n := f]];
      return Moved;
    }

    /** Between two names of the listings: `names` have been drained, and all of them that are
        still files there are known as seen. */
    ghost predicate Progress(c: Pass, before: Tree, counts: Counts, seen: set<string>, names: seq<string>)
      reads this
    {
      && c.source in tree && c.source in before && tree[c.source].Keys <= before[c.source].Keys
      && (forall n :: n in names && n !in seen ==> !IsFile(tree, c.source, n))
      && (forall n :: n in seen ==> n in names)
      && State(tree, counts) == DrainNames(State(before, ZERO), c, names)
    }

    /** The loop body for one path of a listing; a path seen before is passed over. */
    method Visit(c: Pass, n: string, seen: set<string>, counts: Counts, ghost before: Tree, ghost names: seq<string>)
      returns (seen': set<string>, counts': Counts, errors: int)
      requires Progress(c, before, counts, seen, names)
      modifies this
      ensures Progress(c, before, counts', seen', if n in names then names else names + [n]) && errors == 0
    {
      seen', counts', errors := seen, counts, 0;
      assert (names + [n])[..|names|] == names;
      if IsFile(tree, c.source, n) && n !in seen {
        seen' := seen + {n};
        var f := tree[c.source][n];
        var status := Move(c, n, Target(c, f));
        counts' := Count(counts, c, f, status);
        errors := if status in {Moved, WouldMove, SkipExists} then 0 else 1;
      }
    }

    /** One listing: all new names, or only names already drained. */
    method DrainListing(c: Pass, listing: seq<string>, seen: set<string>, counts: Counts, ghost before: Tree,
                        ghost names: seq<string>)
      returns (seen': set<string>, counts': Counts, errors: int)
      requires Progress(c, before, counts, seen, names)
      requires forall i, j :: 0 <= i < j < |listing| ==> listing[i] != listing[j]
      requires names == [] || forall n :: n in listing ==> n in names
      modifies this
      ensures Progress(c, before, counts', seen', if names == [] then listing else names) && errors == 0
    {
      seen', counts', errors := seen, counts, 0;
      ghost var done := names;
      for i := 0 to |listing|
        invariant done == if names == [] then listing[..i] else names
        invariant Progress(c, before, counts', seen', done) && errors == 0
      {
        var more;
        assert listing[..i + 1] == listing[..i] + [listing[i]];
        assert listing[i] in listing;
        seen', counts', more := Visit(c, listing[i], seen', counts', before, done);
        errors := errors + more;
        done := if listing[i] in done then done else done + [listing[i]];
      }
      assert listing[..|listing|] == listing;
    }

    /** The exit status and the counts of one run. */
    method Drain(c: Pass) returns (exit: int, counts: Counts)
      modifies this
      ensures RunsTo(old(tree), c, exit, counts, tree)
    {
      counts := ZERO;
      if c.source !in tree { return 0, counts; }
      if c.apply && c.dest == c.source { return 1, counts; }
      ghost var before := tree;
      var seen: set<string>, errors, more := {}, 0, 0;
      var first := Glob(tree[c.source], PATTERNS[0]);
      seen, counts, errors := DrainListing(c, first, seen, counts, before, []);
      var second := Glob(tree[c.source], PATTERNS[1]);
      forall n | n in second ensures n in first { SuffixOfSuffix(n); }
      seen, counts, more := DrainListing(c, second, seen, counts, before, first);
      assert Listing(first, Envelopes(before, c));
      return if errors + more > 0 then 1 else 0, counts;
    }
  }

  /** What one run comes to: a missing source is an empty success, an active outbox that is the
      source itself is refused under apply, and any other run drains the listed envelopes. */
  ghost predicate RunsTo(t: Tree, c: Pass, exit: int, counts: Counts, u: Tree) {
    if c.source !in t then exit == 0 && counts == ZERO && u == t
    else if c.apply && c.dest == c.source then exit == 1 && counts == ZERO && u == t
    else
      exit == 0
      && exists names :: Listing(names, Envelopes(t, c)) && State(u, counts) == DrainNames(State(t, ZERO), c, names)
  }

  /** What the first pattern lists. */
  function Envelopes(t: Tree, c: Pass): set<string> {
    set n | n in In(t, c.source) && EndsWith(n, PATTERNS[0])
  }

  /** The second pattern matches nothing the first does not. */
  lemma SuffixOfSuffix(n: string)
    ensures EndsWith(n, PATTERNS[1]) ==> EndsWith(n, PATTERNS[0])
  {
    if EndsWith(n, PATTERNS[1]) {
      assert PATTERNS[1][4..] == PATTERNS[0];
      assert n[|n| - 9..][4..] == n[|n| - 5..];
    }
  }

  // ----- What a pass does -----

  /** The final place of every item, from the tree before the pass alone. */
  function Final(t: Tree, c: Pass, d: string, n: string): Option<Item> {
    if !Leaves(t, c, n) then Lookup(t, d, n)
    else if d == c.source then None
    else if d == Target(c, t[c.source][n]) then Lookup(t, c.source, n)
    else Lookup(t, d, n)
  }

  /** The files a pass moves: under apply, those whose name is free where they belong. */
  predicate Leaves(t: Tree, c: Pass, n: string) {
    c.apply && IsFile(t, c.source, n) && n !in In(t, Target(c, t[c.source][n]))
  }

  lemma DrainOneIs(s: State, c: Pass, m: string, d: string, n: string)
    ensures Lookup(DrainOne(s, c, m).tree, d, n) == if n == m then Final(s.tree, c, d, n) else Lookup(s.tree, d, n)
  {
  }

  /** A pass over some names settles each by itself: no envelope's fate depends on another's, or
      on the order of the listing. */
  lemma {:induction false} DrainIs(t: Tree, k: Counts, c: Pass, names: seq<string>, d: string, n: string)
    requires forall i, j :: 0 <= i < j < |names| ==> names[i] != names[j]
    ensures Lookup(DrainNames(State(t, k), c, names).tree, d, n) == if n in names then Final(t, c, d, n) else Lookup(t, d, n)
  {
    if names != [] {
      var front, m := names[..|names| - 1], names[|names| - 1];
      var s := DrainNames(State(t, k), c, front);
      assert names == front + [m];
      DrainIs(t, k, c, front, d, n);
      DrainOneIs(s, c, m, d, n);
      if n == m {
        assert n !in front;
        SameFate(t, k, c, front, n);
      }
    }
  }

  lemma {:induction false} SameFate(t: Tree, k: Counts, c: Pass, front: seq<string>, n: string)
    requires n !in front
    ensures var u := DrainNames(State(t, k), c, front).tree;
            forall d :: Lookup(u, d, n) == Lookup(t, d, n)
    ensures var u := DrainNames(State(t, k), c, front).tree;
            && (Leaves(u, c, n) <==> Leaves(t, c, n))
            && (forall d :: Final(u, c, d, n) == Final(t, c, d, n))
  {
    if front != [] {
      var s := DrainNames(State(t, k), c, front[..|front| - 1]);
      SameFate(t, k, c, front[..|front| - 1], n);
      forall d ensures Lookup(DrainNames(State(t, k), c, front).tree, d, n) == Lookup(t, d, n) {
        DrainOneIs(s, c, front[|front| - 1], d, n);
      }
    }
    var u := DrainNames(State(t, k), c, front).tree;
    assert Lookup(u, c.source, n) == Lookup(t, c.source, n);
    if IsFile(t, c.source, n) {
      var d := Target(c, t[c.source][n]);
      assert Lookup(u, d, n) == Lookup(t, d, n);
    }
  }

  /** The directories among `dirs` that hold this very item under this name. */
  function Places(t: Tree, dirs: set<string>, n: string, x: Item): set<string> {
    set d | d in dirs && Lookup(t, d, n) == Some(x)
  }

  /** Conservation: over any directories that include the three of the pass, every item stands
      under its name in as many places after as before; nothing outside the source is replaced
      or removed, and nothing is moved but from the source to where it belongs. */
  lemma DrainConserves(t: Tree, c: Pass, names: seq<string>, dirs: set<string>, n: string, x: Item)
    requires Listing(names, Envelopes(t, c)) && {c.source, c.dest, c.archive} <= dirs
    ensures var u := DrainNames(State(t, ZERO), c, names).tree;
            && |Places(u, dirs, n, x)| == |Places(t, dirs, n, x)|
            && (forall d :: d != c.source && Lookup(t, d, n).Some? ==> Lookup(u, d, n) == Lookup(t, d, n))
            && (forall d :: Lookup(u, d, n) != Lookup(t, d, n) ==>
                  n in names && Leaves(t, c, n) && d in {c.source, Target(c, t[c.source][n])})
  {
    var u := DrainNames(State(t, ZERO), c, names).tree;
    forall d ensures Lookup(u, d, n) == if n in names then Final(t, c, d, n) else Lookup(t, d, n) {
      DrainIs(t, ZERO, c, names, d, n);
    }
    if n in names && Leaves(t, c, n) {
      MoveKeepsPlaces(t, u, c, dirs, n, x);
    } else {
      assert Places(u, dirs, n, x) == Places(t, dirs, n, x);
    }
  }

  lemma MoveKeepsPlaces(t: Tree, u: Tree, c: Pass, dirs: set<string>, n: string, x: Item)
    requires Leaves(t, c, n) && {c.source, c.dest, c.archive} <= dirs
    requires forall d :: Lookup(u, d, n) == Final(t, c, d, n)
    ensures |Places(u, dirs, n, x)| == |Places(t, dirs, n, x)|
  {
    var before, after := Places(t, dirs, n, x), Places(u, dirs, n, x);
    var y := t[c.source][n];
    var d := Target(c, y);
    assert Lookup(t, d, n) == None && Lookup(u, c.source, n) == None && Lookup(u, d, n) == Some(y);
    if x == y {
      assert c.source in before && d !in before;
      forall e ensures e in after <==> e in before - {c.source} + {d} {
        assert Lookup(u, e, n) == Final(t, c, e, n);
      }
      assert after == before - {c.source} + {d};
    } else {
      forall e ensures e in after <==> e in before { assert Lookup(u, e, n) == Final(t, c, e, n); }
      assert after == before;
    }
  }

  /** A second pass with the same clock finds nothing to move. */
  lemma SecondPassMovesNothing(t: Tree, c: Pass, names: seq<string>, again: seq<string>, d: string, n: string)
    requires Listing(names, Envelopes(t, c)) && c.apply
    requires Listing(again, Envelopes(DrainNames(State(t, ZERO), c, names).tree, c))
    ensures var u := DrainNames(State(t, ZERO), c, names).tree;
            Lookup(DrainNames(State(u, ZERO), c, again).tree, d, n) == Lookup(u, d, n)
  {
    var u := DrainNames(State(t, ZERO), c, names).tree;
    DrainIs(u, ZERO, c, again, d, n);
    if n in again {
      DrainIs(t, ZERO, c, names, c.source, n);
      NoneLeaves(t, c, names, n);
    }
  }

  /** After a pass every envelope still in the source has its name taken where it belongs. */
  lemma NoneLeaves(t: Tree, c: Pass, names: seq<string>, n: string)
    requires Listing(names, Envelopes(t, c)) && c.apply
    ensures var u := DrainNames(State(t, ZERO), c, names).tree; EndsWith(n, PATTERNS[0]) ==> !Leaves(u, c, n)
  {
    var u := DrainNames(State(t, ZERO), c, names).tree;
    DrainIs(t, ZERO, c, names, c.source, n);
    if EndsWith(n, PATTERNS[0]) && IsFile(u, c.source, n) {
      assert Lookup(u, c.source, n) == Lookup(t, c.source, n);
      DrainIs(t, ZERO, c, names, Target(c, u[c.source][n]), n);
    }
  }

  /** An envelope the wrong side of its ttl: aged from its own time, or its file's when it has none;
      a ttl of zero or less never runs out. */
  predicate RunOut(c: Pass, content: bytes, mtime: real) {
    c.parse(content).Some?
    && var facts := c.parse(content).value;
       facts.ttl > 0 && c.now > (if facts.created.Some? then facts.created.value else mtime) + facts.ttl as real
  }

  /** After an applied run every envelope file has left the source, for the active outbox when it
      parses and has not run out and for the archive otherwise, unless its name was taken there; then
      both files are where they were. */
  lemma EnvelopePlaced(t: Tree, c: Pass, exit: int, counts: Counts, u: Tree, n: string)
    requires RunsTo(t, c, exit, counts, u) && c.apply && c.source in t && c.dest != c.source
    requires n in t[c.source] && t[c.source][n].File? && EndsWith(n, ".json")
    ensures var f := t[c.source][n];
            var d := if c.parse(f.content).Some? && !RunOut(c, f.content, f.mtime) then c.dest else c.archive;
            if Lookup(t, d, n) == None then Lookup(u, d, n) == Some(f) && Lookup(u, c.source, n) == None
            else Lookup(u, d, n) == Lookup(t, d, n) && Lookup(u, c.source, n) == Some(f)
  {
    var names :| Listing(names, Envelopes(t, c)) && State(u, counts) == DrainNames(State(t, ZERO), c, names);
    assert n in Envelopes(t, c);
    var d := Target(c, t[c.source][n]);
    DrainIs(t, ZERO, c, names, d, n);
    DrainIs(t, ZERO, c, names, c.source, n);
    hide DrainNames, Listing;
  }

  // ----- Counts -----

  /** How a pass counts one name, from the tree before it; the switch plays no part. */
  function Tally(t: Tree, c: Pass, n: string, k: Counts): Counts {
    if !IsFile(t, c.source, n) then k
    else
      var f := t[c.source][n];
      Count(k, c, f, if n in In(t, Target(c, f)) then SkipExists else WouldMove)
  }

  function TallyAll(t: Tree, c: Pass, names: seq<string>): Counts {
    if names == [] then ZERO else Tally(t, c, names[|names| - 1], TallyAll(t, c, names[..|names| - 1]))
  }

  lemma {:induction false} CountsAre(t: Tree, c: Pass, names: seq<string>)
    requires forall i, j :: 0 <= i < j < |names| ==> names[i] != names[j]
    ensures DrainNames(State(t, ZERO), c, names).counts == TallyAll(t, c, names)
  {
    if names != [] {
      var front, m := names[..|names| - 1], names[|names| - 1];
      CountsAre(t, c, front);
      assert m !in front;
      SameFate(t, ZERO, c, front, m);
      var u := DrainNames(State(t, ZERO), c, front).tree;
      assert Lookup(u, c.source, m) == Lookup(t, c.source, m);
      if IsFile(t, c.source, m) {
        var d := Target(c, t[c.source][m]);
        assert Lookup(u, d, m) == Lookup(t, d, m);
      }
    }
  }

  function Files(t: Tree, c: Pass, names: seq<string>): set<string> {
    set n | n in names && IsFile(t, c.source, n)
  }

  function Taken(t: Tree, c: Pass, names: seq<string>): set<string> {
    set n | n in names && IsFile(t, c.source, n) && n in In(t, Target(c, t[c.source][n]))
  }

  lemma Snoc(t: Tree, c: Pass, front: seq<string>, m: string)
    requires m !in front
    ensures |Files(t, c, front + [m])| == |Files(t, c, front)| + if IsFile(t, c.source, m) then 1 else 0
    ensures |Taken(t, c, front + [m])|
            == |Taken(t, c, front)| + if IsFile(t, c.source, m) && m in In(t, Target(c, t[c.source][m])) then 1 else 0
  {
    assert Files(t, c, front + [m])
           == if IsFile(t, c.source, m) then Files(t, c, front) + {m} else Files(t, c, front);
    assert Taken(t, c, front + [m])
           == if IsFile(t, c.source, m) && m in In(t, Target(c, t[c.source][m]))
              then Taken(t, c, front) + {m} else Taken(t, c, front);
  }

  lemma TallySnoc(t: Tree, c: Pass, front: seq<string>, m: string)
    ensures TallyAll(t, c, front + [m]).Total() == TallyAll(t, c, front).Total() + if IsFile(t, c.source, m) then 1 else 0
    ensures TallyAll(t, c, front + [m]).skipped
            == TallyAll(t, c, front).skipped
               + if IsFile(t, c.source, m) && m in In(t, Target(c, t[c.source][m])) then 1 else 0
  {
    assert (front + [m])[..|front|] == front;
  }

  lemma {:induction false} TallySum(t: Tree, c: Pass, names: seq<string>)
    requires forall i, j :: 0 <= i < j < |names| ==> names[i] != names[j]
    ensures TallyAll(t, c, names).Total() == |Files(t, c, names)|
    ensures TallyAll(t, c, names).skipped == |Taken(t, c, names)|
  {
    if names == [] {
      assert Files(t, c, names) == {} && Taken(t, c, names) == {};
    } else {
      var front, m := names[..|names| - 1], names[|names| - 1];
      assert names == front + [m] && m !in front;
      TallySum(t, c, front);
      TallySnoc(t, c, front, m);
      Snoc(t, c, front, m);
    }
  }

  function EnvelopeFiles(t: Tree, c: Pass): set<string> {
    set n | n in Envelopes(t, c) && IsFile(t, c.source, n)
  }

  /** The envelope files whose name is taken where they belong. */
  function StuckFiles(t: Tree, c: Pass): set<string> {
    set n | n in EnvelopeFiles(t, c) && n in In(t, Target(c, t[c.source][n]))
  }

  /** The four counts sum to the envelope files of the source, and the skips are the stuck ones. */
  lemma CountsSum(t: Tree, c: Pass, names: seq<string>)
    requires Listing(names, Envelopes(t, c))
    ensures var k := DrainNames(State(t, ZERO), c, names).counts;
            k.Total() == |EnvelopeFiles(t, c)| && k.skipped == |StuckFiles(t, c)|
  {
    ListedFiles(t, c, names);
    hide DrainNames, TallyAll, Files, Taken, EnvelopeFiles, StuckFiles;
    CountsAre(t, c, names);
    TallySum(t, c, names);
  }

  lemma ListedFiles(t: Tree, c: Pass, names: seq<string>)
    requires Listing(names, Envelopes(t, c))
    ensures Files(t, c, names) == EnvelopeFiles(t, c) && Taken(t, c, names) == StuckFiles(t, c)
  {
    forall n ensures n in Files(t, c, names) <==> n in EnvelopeFiles(t, c) { assert n in names <==> n in Envelopes(t, c); }
    forall n ensures n in Taken(t, c, names) <==> n in StuckFiles(t, c) { assert n in names <==> n in Envelopes(t, c); }
  }

  datatype Kind = LiveFree | OldFree | CorruptFree | Stuck

  /** What becomes of an envelope file, in words. */
  function KindOf(t: Tree, c: Pass, n: string): Kind
    requires IsFile(t, c.source, n)
  {
    var f := t[c.source][n];
    var live := c.parse(f.content).Some? && !RunOut(c, f.content, f.mtime);
    if n in In(t, if live then c.dest else c.archive) then Stuck
    else if c.parse(f.content) == None then CorruptFree
    else if live then LiveFree
    else OldFree
  }

  function OfKind(t: Tree, c: Pass, names: seq<string>, kind: Kind): set<string> {
    set n | n in names && IsFile(t, c.source, n) && KindOf(t, c, n) == kind
  }

  function CountOf(k: Counts, kind: Kind): nat {
    match kind case LiveFree => k.requeue case OldFree => k.expired case CorruptFree => k.corrupt case Stuck => k.skipped
  }

  lemma TallyKind(t: Tree, c: Pass, n: string, k: Counts, kind: Kind)
    ensures CountOf(Tally(t, c, n, k), kind)
            == CountOf(k, kind) + if IsFile(t, c.source, n) && KindOf(t, c, n) == kind then 1 else 0
  {
  }

  lemma {:induction false} TallyKinds(t: Tree, c: Pass, names: seq<string>, kind: Kind)
    requires forall i, j :: 0 <= i < j < |names| ==> names[i] != names[j]
    ensures CountOf(TallyAll(t, c, names), kind) == |OfKind(t, c, names, kind)|
  {
    hide KindOf, Tally, CountOf;
    if names == [] {
      NothingTallied(t, c, kind);
    } else {
      var front, m := names[..|names| - 1], names[|names| - 1];
      assert names == front + [m] && m !in front;
      TallyKinds(t, c, front, kind);
      TallyKind(t, c, m, TallyAll(t, c, front), kind);
      OfKindSnoc(t, c, front, m, kind);
    }
  }

  lemma NothingTallied(t: Tree, c: Pass, kind: Kind)
    ensures OfKind(t, c, [], kind) == {} && CountOf(TallyAll(t, c, []), kind) == 0
  {
    hide KindOf;
  }

  lemma OfKindSnoc(t: Tree, c: Pass, front: seq<string>, m: string, kind: Kind)
    requires m !in front
    ensures |OfKind(t, c, front + [m], kind)|
            == |OfKind(t, c, front, kind)| + if IsFile(t, c.source, m) && KindOf(t, c, m) == kind then 1 else 0
  {
    hide KindOf;
    assert OfKind(t, c, front + [m], kind)
           == if IsFile(t, c.source, m) && KindOf(t, c, m) == kind then OfKind(t, c, front, kind) + {m}
              else OfKind(t, c, front, kind);
  }

  /** Each of the four counts of a run is the number of envelope files of its kind. */
  lemma CountsAreKinds(t: Tree, c: Pass, exit: int, counts: Counts, u: Tree, kind: Kind)
    requires RunsTo(t, c, exit, counts, u) && c.source in t && !(c.apply && c.dest == c.source)
    ensures CountOf(counts, kind) == |set n | n in EnvelopeFiles(t, c) && KindOf(t, c, n) == kind|
  {
    var names :| Listing(names, Envelopes(t, c)) && State(u, counts) == DrainNames(State(t, ZERO), c, names);
    CountsAre(t, c, names);
    TallyKinds(t, c, names, kind);
    assert OfKind(t, c, names, kind) == set n | n in EnvelopeFiles(t, c) && KindOf(t, c, n) == kind;
  }

  /** Over one listing, a dry pass moves nothing and counts what the real one would. */
  lemma DryPassPredicts(t: Tree, c: Pass, names: seq<string>)
    requires forall i, j :: 0 <= i < j < |names| ==> names[i] != names[j]
    ensures DrainNames(State(t, ZERO), c.(apply := false), names).counts
            == DrainNames(State(t, ZERO), c.(apply := true), names).counts
    ensures DrainNames(State(t, ZERO), c.(apply := false), names).tree == t
  {
    CountsAre(t, c.(apply := false), names);
    CountsAre(t, c.(apply := true), names);
    SameTally(t, c, names);
    DryPassMovesNothing(State(t, ZERO), c.(apply := false), names);
  }

  lemma {:induction false} SameTally(t: Tree, c: Pass, names: seq<string>)
    ensures TallyAll(t, c.(apply := false), names) == TallyAll(t, c.(apply := true), names)
  {
    if names != [] { SameTally(t, c, names[..|names| - 1]); }
  }

  lemma {:induction false} DryPassMovesNothing(s: State, c: Pass, names: seq<string>)
    requires !c.apply
    ensures DrainNames(s, c, names).tree == s.tree
  {
    if names != [] { DryPassMovesNothing(s, c, names[..|names| - 1]); }
  }

  lemma ListingEmptyIff(names: seq<string>, which: set<string>)
    requires Listing(names, which)
    ensures names == [] <==> which == {}
  {
    if names != [] { assert names[0] in which; }
  }

  /** One set of names has one sorted listing. */
  lemma {:induction false} ListingUnique(a: seq<string>, b: seq<string>, which: set<string>)
    requires Listing(a, which) && Listing(b, which)
    ensures a == b
  {
    ListingEmptyIff(a, which);
    ListingEmptyIff(b, which);
    if a != [] {
      assert a[0] in which && a[0] in b;
      assert b[0] in which && b[0] in a;
      Ordering.StringLeqTotal(a[0], b[0]);
      ListingTail(a, which);
      ListingTail(b, which);
      ListingUnique(a[1..], b[1..], which - {a[0]});
      assert a == [a[0]] + a[1..] && b == [b[0]] + b[1..];
    }
  }

  /** A dry run leaves the tree alone, and predicts the exit status and the counts of the real run
      of the same arguments unless the source is there and is the active outbox itself. */
  lemma DryRunPredictsIff(t: Tree, c: Pass, dryExit: int, dryCounts: Counts, dryTree: Tree,
                          exit: int, counts: Counts, u: Tree)
    requires RunsTo(t, c.(apply := false), dryExit, dryCounts, dryTree)
    requires RunsTo(t, c.(apply := true), exit, counts, u)
    ensures dryTree == t
    ensures dryExit == exit && dryCounts == counts <==> (c.source in t ==> c.dest != c.source)
  {
    if c.source in t {
      var dry := c.(apply := false);
      var which := Envelopes(t, c);
      assert Envelopes(t, dry) == which == Envelopes(t, c.(apply := true));
      var names :| Listing(names, which) && State(dryTree, dryCounts) == DrainNames(State(t, ZERO), dry, names);
      DryPassPredicts(t, c, names);
      if c.dest != c.source {
        var again :| Listing(again, which)
                     && State(u, counts) == DrainNames(State(t, ZERO), c.(apply := true), again);
        ListingUnique(names, again, which);
      }
    }
  }

  /** A run that is not refused counts every envelope file of the source. */
  lemma RunCounts(t: Tree, c: Pass, exit: int, counts: Counts, u: Tree)
    requires RunsTo(t, c, exit, counts, u) && c.source in t && !(c.apply && c.dest == c.source)
    ensures counts.Total() == |EnvelopeFiles(t, c)|
  {
    var names :| Listing(names, Envelopes(t, c)) && State(u, counts) == DrainNames(State(t, ZERO), c, names);
    hide EnvelopeFiles, DrainNames, Listing;
    CountsSum(t, c, names);
  }

  /** The counterexample to the promise that a dry run reports what apply would do: with the active
      outbox as its own source the dry run succeeds and counts its files, the real run is refused. */
  method DrainOntoItself(t: Tree, c: Pass) returns (dryExit: int, dry: Counts, exit: int, counts: Counts)
    requires c.source in t && c.dest == c.source
    ensures dryExit == 0 && dry.Total() == |EnvelopeFiles(t, c)|
    ensures exit == 1 && counts == ZERO
  {
    var before := new FileSystem(t);
    dryExit, dry := before.Drain(c.(apply := false));
    RunCounts(t, c.(apply := false), dryExit, dry, before.tree);
    assert EnvelopeFiles(t, c.(apply := false)) == EnvelopeFiles(t, c);
    var after := new FileSystem(t);
    exit, counts := after.Drain(c.(apply := true));
  }
}

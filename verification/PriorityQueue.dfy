/** The envelope priority queue of core.py: a binary min-heap of (priority, counter,
    envelope) entries, specified by the list of waiting envelopes in arrival order. */
module PriorityQueue {
  import opened Common
  import opened Ordering

  datatype Entry<+E> = Entry(priority: int, counter: nat, item: E)
  datatype PopResult<+E> = Popped(item: E) | IndexError

  /** Tuple comparison. Counters are unique, so the envelope itself is never compared. */
  predicate Before<E>(x: Entry<E>, y: Entry<E>) {
    x.priority < y.priority || (x.priority == y.priority && x.counter < y.counter)
  }

  predicate NotAfter<E>(x: Entry<E>, y: Entry<E>) {
    x.priority <= y.priority
  }

  /** Entries in arrival order: counters strictly increase. */
  ghost predicate Arrivals<E>(q: seq<Entry<E>>) {
    forall i, j :: 0 <= i < j < |q| ==> q[i].counter < q[j].counter
  }

  /** Index of the first entry with the smallest priority. */
  function FirstMin<E>(q: seq<Entry<E>>): (m: nat)
    requires q != []
    ensures m < |q|
    ensures forall i :: 0 <= i < |q| ==> q[m].priority <= q[i].priority
    ensures forall i :: 0 <= i < m ==> q[m].priority < q[i].priority
  {
    if |q| == 1 then 0
    else
      var r := 1 + FirstMin(q[1..]);
      if q[0].priority <= q[r].priority then 0 else r
  }

  function Without<T>(q: seq<T>, i: nat): seq<T>
    requires i < |q|
  {
    q[..i] + q[i + 1..]
  }

  function Items<E>(q: seq<Entry<E>>): (r: seq<E>)
    ensures |r| == |q| && forall i :: 0 <= i < |q| ==> r[i] == q[i].item
  {
    seq(|q|, i requires 0 <= i < |q| => q[i].item)
  }

  /** What repeated popping yields. */
  function PopAll<E>(q: seq<Entry<E>>): (r: seq<Entry<E>>)
    decreases |q|
  {
    if q == [] then [] else [q[FirstMin(q)]] + PopAll(Without(q, FirstMin(q)))
  }

  lemma NotAfterIsPreorder<E(!new)>()
    ensures TotalPreorder<Entry<E>>(NotAfter)
  {
  }

  lemma {:induction false} WithoutTied<T(!new)>(q: seq<T>, i: nat, y: T, leq: (T, T) -> bool)
    requires i < |q|
    ensures Tied(Without(q, i), y, leq) == Tied(q[..i], y, leq) + Tied(q[i + 1..], y, leq)
    ensures Tied(q, y, leq) == Tied(q[..i], y, leq)
                            + (if Tie(q[i], y, leq) then [q[i]] else []) + Tied(q[i + 1..], y, leq)
  {
    TiedConcat(q[..i], q[i + 1..], y, leq);
    TiedConcat(q[..i], q[i..], y, leq);
    assert q == q[..i] + q[i..];
    assert q[i..][1..] == q[i + 1..];
  }

  lemma {:induction false} NoTieBelow<E>(q: seq<Entry<E>>, y: Entry<E>)
    requires forall i :: 0 <= i < |q| ==> y.priority < q[i].priority
    ensures Tied(q, y, NotAfter) == []
  {
    if q != [] { NoTieBelow(q[1..], y); }
  }

  /** Popping everything sorts by priority and keeps arrival order inside a priority. */
  lemma {:induction false} PopAllIsStableSort<E(!new)>(q: seq<Entry<E>>)
    ensures PopAll(q) == StableSort(q, NotAfter)
  {
    NotAfterIsPreorder<E>();
    PopAllSorted(q);
    forall y ensures Tied(PopAll(q), y, NotAfter) == Tied(q, y, NotAfter) { PopAllTied(q, y); }
    StableSortUnique(PopAll(q), q, NotAfter);
  }

  lemma {:induction false} PopAllSorted<E(!new)>(q: seq<Entry<E>>)
    ensures Sorted(PopAll(q), NotAfter)
    ensures multiset(PopAll(q)) == multiset(q)
    decreases |q|
  {
    if q != [] {
      var m := FirstMin(q);
      var rest := Without(q, m);
      PopAllSorted(rest);
      WithoutMembers(q, m);
      LeastFirst(q[m], PopAll(rest), rest);
    }
  }

  lemma WithoutMembers<T>(q: seq<T>, m: nat)
    requires m < |q|
    ensures multiset(q) == multiset{q[m]} + multiset(Without(q, m))
    ensures forall z :: z in Without(q, m) ==> z in q
  {
    assert q == q[..m] + [q[m]] + q[m + 1..];
  }

  lemma LeastFirst<E(!new)>(x: Entry<E>, r: seq<Entry<E>>, rest: seq<Entry<E>>)
    requires Sorted(r, NotAfter) && multiset(r) == multiset(rest)
    requires forall z :: z in rest ==> x.priority <= z.priority
    ensures Sorted([x] + r, NotAfter)
    ensures multiset([x] + r) == multiset{x} + multiset(rest)
  {
    forall z | z in r ensures x.priority <= z.priority {
      assert z in multiset(r);
      assert z in rest;
    }
  }

  lemma TiedOne<E>(x: Entry<E>, y: Entry<E>)
    ensures Tied([x], y, NotAfter) == if x.priority == y.priority then [x] else []
  {
    assert [x][1..] == [];
  }

  /** Taking the first-arrived of the most urgent entries to the front moves it past no tie. */
  lemma FirstMinTied<E(!new)>(q: seq<Entry<E>>, y: Entry<E>)
    requires q != []
    ensures var m := FirstMin(q); Tied(q, y, NotAfter) == Tied([q[m]], y, NotAfter) + Tied(Without(q, m), y, NotAfter)
  {
    hide Without, Tied;
    var m := FirstMin(q);
    WithoutTied(q, m, y, NotAfter);
    TiedOne(q[m], y);
    if q[m].priority == y.priority { NoTieBelow(q[..m], y); }
  }

  lemma {:induction false} PopAllTied<E(!new)>(q: seq<Entry<E>>, y: Entry<E>)
    ensures Tied(PopAll(q), y, NotAfter) == Tied(q, y, NotAfter)
    decreases |q|
  {
    hide Tied;
    if q != [] {
      var m := FirstMin(q);
      PopAllTied(Without(q, m), y);
      FirstMinTied(q, y);
      TiedConcat([q[m]], PopAll(Without(q, m)), y, NotAfter);
      PopAllFirst(q);
    }
  }

  /** Entry `k` does not come before its parent. */
  predicate InOrder<E>(h: seq<Entry<E>>, k: int)
    requires 0 < k < |h|
  {
    !Before(h[k], h[(k - 1) / 2])
  }

  /** Entry `k` does not come before the parent of `i`. */
  predicate BelowParentOf<E>(h: seq<Entry<E>>, k: int, i: int)
    requires 0 <= k < |h| && 0 < i < |h|
  {
    !Before(h[k], h[(i - 1) / 2])
  }

  ghost predicate HeapOrdered<E>(h: seq<Entry<E>>) {
    forall i :: 0 < i < |h| ==> InOrder(h, i)
  }

  lemma {:induction false} RootIsLeast<E>(h: seq<Entry<E>>, i: nat)
    requires HeapOrdered(h) && i < |h|
    ensures !Before(h[i], h[0])
  {
    if i > 0 { assert InOrder(h, i); RootIsLeast(h, (i - 1) / 2); }
  }

  function Swap<T>(s: seq<T>, i: nat, j: nat): (r: seq<T>)
    requires i < |s| && j < |s|
    ensures |r| == |s| && r[i] == s[j] && r[j] == s[i]
    ensures forall k :: 0 <= k < |s| && k != i && k != j ==> r[k] == s[k]
    ensures multiset(r) == multiset(s)
  {
    s[i := s[j]][j := s[i]]
  }

  /** A heap except that entry `i` may come before its parent. */
  ghost predicate UpHole<E>(h: seq<Entry<E>>, i: nat)
    requires i < |h|
  {
    && (forall k :: 0 < k < |h| && k != i ==> InOrder(h, k))
    && (forall k :: 0 < k < |h| && (k - 1) / 2 == i && i > 0 ==> BelowParentOf(h, k, i))
  }

  /** A heap except that children of entry `i` may come before it. */
  ghost predicate DownHole<E>(h: seq<Entry<E>>, i: nat) {
    && (forall k :: 0 < k < |h| && (k - 1) / 2 != i ==> InOrder(h, k))
    && (forall k :: 0 < k < |h| && (k - 1) / 2 == i && i > 0 ==> BelowParentOf(h, k, i))
  }

  lemma BubbleStep<E>(h: seq<Entry<E>>, i: nat)
    requires 0 < i < |h| && UpHole(h, i) && !InOrder(h, i)
    ensures UpHole(Swap(h, i, (i - 1) / 2), (i - 1) / 2)
  {
    var p := (i - 1) / 2;
    var r := Swap(h, i, p);
    forall k | 0 < k < |r| && k != p ensures InOrder(r, k) {
      if k != i { assert InOrder(h, k); }
      if (k - 1) / 2 == i { assert BelowParentOf(h, k, i); }
    }
    forall k | 0 < k < |r| && (k - 1) / 2 == p && p > 0 ensures BelowParentOf(r, k, p) {
      assert InOrder(h, p);
      if k != i { assert InOrder(h, k); }
    }
  }

  lemma SinkStep<E>(h: seq<Entry<E>>, i: nat, c: nat)
    requires DownHole(h, i) && i < c < |h| && (c - 1) / 2 == i && Before(h[c], h[i])
    requires forall k :: 0 < k < |h| && (k - 1) / 2 == i ==> !Before(h[k], h[c])
    ensures DownHole(Swap(h, i, c), c)
  {
    var r := Swap(h, i, c);
    forall k | 0 < k < |r| && (k - 1) / 2 != c ensures InOrder(r, k) {
      if (k - 1) / 2 == i {
      } else if k == i {
        assert BelowParentOf(h, c, i);
      } else {
        assert InOrder(h, k);
      }
    }
    forall k | 0 < k < |r| && (k - 1) / 2 == c ensures BelowParentOf(r, k, c) {
      assert InOrder(h, k);
    }
  }

  /** Moves the last entry up to its place. */
  method BubbleUp<E>(h: seq<Entry<E>>) returns (r: seq<Entry<E>>)
    requires h != [] && HeapOrdered(h[..|h| - 1])
    ensures HeapOrdered(r) && multiset(r) == multiset(h)
  {
    r := h;
    var i := |h| - 1;
    forall k | 0 < k < |h| && k != i ensures InOrder(h, k) {
      assert InOrder(h[..|h| - 1], k);
    }
    while i > 0
      invariant 0 <= i < |r| == |h|
      invariant multiset(r) == multiset(h)
      invariant UpHole(r, i)
    {
      if InOrder(r, i) { return; }
      BubbleStep(r, i);
      r := Swap(r, i, (i - 1) / 2);
      i := (i - 1) / 2;
    }
  }

  /** Moves the root down to its place. */
  method SinkDown<E>(h: seq<Entry<E>>) returns (r: seq<Entry<E>>)
    requires DownHole(h, 0)
    ensures HeapOrdered(r) && multiset(r) == multiset(h)
  {
    r := h;
    var i := 0;
    while 2 * i + 1 < |r|
      invariant 0 <= i && |r| == |h|
      invariant multiset(r) == multiset(h)
      invariant DownHole(r, i)
      decreases |r| - i
    {
      var child := 2 * i + 1;
      if child + 1 < |r| && !Before(r[child], r[child + 1]) { child := child + 1; }
      if !Before(r[child], r[i]) {
        forall k | 0 < k < |r| ensures InOrder(r, k) {
          if (k - 1) / 2 == i { assert k == 2 * i + 1 || k == 2 * i + 2; }
        }
        return;
      }
      SinkStep(r, i, child);
      r := Swap(r, i, child);
      i := child;
    }
  }

  /** The root may be replaced by anything: what is below it is still in order. */
  lemma ReplacedRoot<E>(h: seq<Entry<E>>, x: Entry<E>)
    requires |h| > 1 && HeapOrdered(h)
    ensures DownHole(h[..|h| - 1][0 := x], 0)
    ensures multiset(h[..|h| - 1][0 := h[|h| - 1]]) == multiset(h) - multiset{h[0]}
  {
    var rest := h[..|h| - 1];
    var r := rest[0 := x];
    forall k | 0 < k < |r| && (k - 1) / 2 != 0 ensures InOrder(r, k) {
      assert InOrder(h, k);
    }
    var last := h[|h| - 1];
    assert h == [h[0]] + rest[1..] + [last];
    assert rest[0 := last] == [last] + rest[1..];
  }

  lemma WithoutMultiset<T>(q: seq<T>, i: nat)
    requires i < |q|
    ensures multiset(Without(q, i)) == multiset(q) - multiset{q[i]}
  {
    assert q == q[..i] + [q[i]] + q[i + 1..];
  }

  lemma WithoutArrivals<E>(q: seq<Entry<E>>, i: nat)
    requires i < |q| && Arrivals(q)
    ensures Arrivals(Without(q, i))
    ensures forall e :: e in Without(q, i) ==> e in q
  {
  }

  class MessagePriorityQueue<E(!new)> {
    var heap: seq<Entry<E>>
    var counter: nat
    /** The waiting entries in arrival order. */
    ghost var waiting: seq<Entry<E>>

    ghost predicate Valid()
      reads this
    {
      && HeapOrdered(heap)
      && multiset(heap) == multiset(waiting)
      && Arrivals(waiting)
      && (forall e :: e in waiting ==> e.counter < counter)
    }

    constructor ()
      ensures Valid() && waiting == [] && counter == 0
    {
      heap, counter, waiting := [], 0, [];
    }

    method Push(priority: int, item: E)
      requires Valid()
      modifies this
      ensures Valid()
      ensures waiting == old(waiting) + [Entry(priority, old(counter), item)]
      ensures counter == old(counter) + 1
    {
      var e := Entry(priority, counter, item);
      assert (heap + [e])[..|heap|] == heap;
      heap := BubbleUp(heap + [e]);
      waiting := waiting + [e];
      counter := counter + 1;
    }

    /** Takes the first-arrived of the most urgent entries; an empty queue is an IndexError. */
    method Pop() returns (r: PopResult<E>)
      requires Valid()
      modifies this`heap, this`waiting
      ensures Valid()
      ensures old(waiting) == [] ==> r == IndexError && waiting == []
      ensures old(waiting) != [] ==>
                var m := FirstMin(old(waiting));
                r == Popped(old(waiting)[m].item) && waiting == Without(old(waiting), m)
    {
      hide HeapOrdered, DownHole, Without, Arrivals;
      if heap == [] {
        EmptyAgree(heap, waiting);
        return IndexError;
      }
      EmptyAgree(heap, waiting);
      LeastIsFirstMin(heap, waiting);
      ghost var m := FirstMin(waiting);
      WithoutMultiset(waiting, m);
      WithoutArrivals(waiting, m);
      var root := heap[0];
      if |heap| == 1 {
        OneLeft(heap, Without(waiting, m));
        heap := [];
      } else {
        ReplacedRoot(heap, heap[|heap| - 1]);
        heap := SinkDown(heap[..|heap| - 1][0 := heap[|heap| - 1]]);
      }
      waiting := Without(waiting, m);
      r := Popped(root.item);
    }

    /** Empties the queue: urgency order, arrival order inside an urgency. */
    method Drain() returns (result: seq<E>)
      requires Valid()
      modifies this`heap, this`waiting
      ensures Valid() && waiting == []
      ensures result == Items(StableSort(old(waiting), NotAfter))
    {
      result := [];
      ghost var popped: seq<Entry<E>> := [];
      ghost var all := PopAll(waiting);
      PopAllIsStableSort(waiting);
      while heap != []
        invariant Valid()
        invariant result == Items(popped)
        invariant popped + PopAll(waiting) == all
        decreases |waiting|
      {
        EmptyAgree(heap, waiting);
        PopAllStep(waiting, popped);
        popped := popped + [waiting[FirstMin(waiting)]];
        var r := Pop();
        result := result + [r.item];
      }
      EmptyAgree(heap, waiting);
    }
  }

  lemma PopAllStep<E>(q: seq<Entry<E>>, before: seq<Entry<E>>)
    requires q != []
    ensures before + PopAll(q) == before + [q[FirstMin(q)]] + PopAll(Without(q, FirstMin(q)))
    ensures Items(before + [q[FirstMin(q)]]) == Items(before) + [q[FirstMin(q)].item]
  {
    var x := q[FirstMin(q)];
    PopAllFirst(q);
    Regroup(before, [x], PopAll(Without(q, FirstMin(q))));
    ItemsSnoc(before, x);
  }

  lemma PopAllFirst<E>(q: seq<Entry<E>>)
    requires q != []
    ensures PopAll(q) == [q[FirstMin(q)]] + PopAll(Without(q, FirstMin(q)))
  {
  }

  lemma ItemsSnoc<E>(s: seq<Entry<E>>, x: Entry<E>)
    ensures Items(s + [x]) == Items(s) + [x.item]
  {
  }

  lemma OneLeft<E>(h: seq<Entry<E>>, rest: seq<Entry<E>>)
    requires |h| == 1 && multiset(rest) == multiset(h) - multiset{h[0]}
    ensures rest == [] && HeapOrdered<E>([])
  {
    assert h == [h[0]];
    assert multiset(rest) == multiset{};
    assert |multiset(rest)| == |rest|;
  }

  lemma EmptyAgree<T>(a: seq<T>, b: seq<T>)
    requires multiset(a) == multiset(b)
    ensures |a| == |b| && (a == [] <==> b == [])
  {
    assert |multiset(a)| == |a| && |multiset(b)| == |b|;
  }

  /** The heap's root is the entry the arrival list would give up next. */
  lemma LeastIsFirstMin<E>(h: seq<Entry<E>>, q: seq<Entry<E>>)
    requires HeapOrdered(h) && h != [] && q != []
    requires multiset(h) == multiset(q) && Arrivals(q)
    ensures h[0] == q[FirstMin(q)]
  {
    var m := FirstMin(q);
    assert h[0] in multiset(h) && q[m] in multiset(q);
    var i :| 0 <= i < |h| && h[i] == q[m];
    RootIsLeast(h, i);
    var j :| 0 <= j < |q| && q[j] == h[0];
    assert q[m].priority <= q[j].priority;
  }

  // ----- Whole runs -----

  datatype Op<+E> = PushOp(priority: int, item: E) | PopOp | DrainOp

  /** What a client sees of a queue: what waits, what came out, what was ever pushed. */
  datatype History<+E> = History(waiting: seq<Entry<E>>, out: seq<Entry<E>>, pushed: seq<Entry<E>>)

  /** The effect the methods of MessagePriorityQueue are specified by. */
  function Perform<E>(h: History<E>, op: Op<E>): History<E> {
    match op
    case PushOp(p, x) =>
      var e := Entry(p, |h.pushed|, x);
      History(h.waiting + [e], h.out, h.pushed + [e])
    case PopOp =>
      if h.waiting == [] then h
      else
        var m := FirstMin(h.waiting);
        History(Without(h.waiting, m), h.out + [h.waiting[m]], h.pushed)
    case DrainOp =>
      History([], h.out + StableSort(h.waiting, NotAfter), h.pushed)
  }

  function Run<E>(ops: seq<Op<E>>): History<E> {
    if ops == [] then History([], [], []) else Perform(Run(ops[..|ops| - 1]), ops[|ops| - 1])
  }

  lemma ItemsConcat<E>(a: seq<Entry<E>>, b: seq<Entry<E>>)
    ensures Items(a + b) == Items(a) + Items(b)
  {
  }

  /** One queue driven through `ops` hands out what the run says, in that order, and holds what
      the run leaves waiting. */
  method DriveQueue<E(!new)>(ops: seq<Op<E>>) returns (out: seq<E>, queue: MessagePriorityQueue<E>)
    ensures fresh(queue) && queue.Valid()
    ensures out == Items(Run(ops).out) && queue.waiting == Run(ops).waiting
    ensures queue.counter == |Run(ops).pushed|
  {
    hide Without, Arrivals, HeapOrdered;
    queue := new MessagePriorityQueue();
    out := [];
    for i := 0 to |ops|
      invariant fresh(queue) && queue.Valid()
      invariant out == Items(Run(ops[..i]).out) && queue.waiting == Run(ops[..i]).waiting
      invariant queue.counter == |Run(ops[..i]).pushed|
    {
      assert ops[..i + 1][..i] == ops[..i];
      ghost var h := Run(ops[..i]);
      if ops[i].PushOp? {
        queue.Push(ops[i].priority, ops[i].item);
      } else if ops[i].PopOp? {
        var r := queue.Pop();
        if r.Popped? {
          ItemsSnoc(h.out, h.waiting[FirstMin(h.waiting)]);
          out := out + [r.item];
        }
      } else {
        var rest := queue.Drain();
        ItemsConcat(h.out, StableSort(h.waiting, NotAfter));
        out := out + rest;
      }
    }
    assert ops[..|ops|] == ops;
  }

  /** In every interleaving of push, pop and drain the envelopes of one priority come out
      in the order they were pushed, across pops and earlier drains, and what has not
      come out is still waiting. */
  lemma {:induction false} FifoPerPriority<E(!new)>(ops: seq<Op<E>>, y: Entry<E>)
    ensures var h := Run(ops);
            Tied(h.out, y, NotAfter) + Tied(h.waiting, y, NotAfter) == Tied(h.pushed, y, NotAfter)
  {
    if ops != [] {
      var h := Run(ops[..|ops| - 1]);
      FifoPerPriority(ops[..|ops| - 1], y);
      match ops[|ops| - 1]
      case PushOp(p, x) =>
        var e := Entry(p, |h.pushed|, x);
        TiedConcat(h.waiting, [e], y, NotAfter);
        TiedConcat(h.pushed, [e], y, NotAfter);
      case PopOp =>
        if h.waiting != [] { PopKeepsFifo(h, y); }
      case DrainOp =>
        PopAllIsStableSort(h.waiting);
        PopAllTied(h.waiting, y);
        TiedConcat(h.out, StableSort(h.waiting, NotAfter), y, NotAfter);
    }
  }

  lemma PopKeepsFifo<E(!new)>(h: History<E>, y: Entry<E>)
    requires h.waiting != []
    ensures var n := Perform(h, PopOp);
            Tied(n.out, y, NotAfter) + Tied(n.waiting, y, NotAfter)
            == Tied(h.out, y, NotAfter) + Tied(h.waiting, y, NotAfter)
  {
    hide Tied, Without;
    FirstMinTied(h.waiting, y);
    TiedConcat(h.out, [h.waiting[FirstMin(h.waiting)]], y, NotAfter);
  }

  /** Nothing is lost or made up: out and waiting together are what was pushed. */
  lemma {:induction false} RunConserves<E(!new)>(ops: seq<Op<E>>)
    ensures var h := Run(ops); multiset(h.out + h.waiting) == multiset(h.pushed)
  {
    if ops != [] {
      var h := Run(ops[..|ops| - 1]);
      RunConserves(ops[..|ops| - 1]);
      match ops[|ops| - 1]
      case PushOp(p, x) =>
      case PopOp =>
        if h.waiting != [] { WithoutMultiset(h.waiting, FirstMin(h.waiting)); }
      case DrainOp =>
        NotAfterIsPreorder<E>();
        StableSortCorrect(h.waiting, NotAfter);
    }
  }
}

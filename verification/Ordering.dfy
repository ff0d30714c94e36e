/** Stable sorting by a total preorder, the reference the priority queue, the ban
    feeds and peer discovery are proved against. */
module Ordering {

  ghost predicate TotalPreorder<T(!new)>(leq: (T, T) -> bool) {
    && (forall x, y :: leq(x, y) || leq(y, x))
    && (forall x, y, z :: leq(x, y) && leq(y, z) ==> leq(x, z))
  }

  ghost predicate Sorted<T>(s: seq<T>, leq: (T, T) -> bool) {
    forall i, j :: 0 <= i < j < |s| ==> leq(s[i], s[j])
  }

  predicate Tie<T>(x: T, y: T, leq: (T, T) -> bool) {
    leq(x, y) && leq(y, x)
  }

  /** The elements of `s` that rank the same as `x`, in the order `s` has them. */
  function Tied<T>(s: seq<T>, x: T, leq: (T, T) -> bool): seq<T> {
    if s == [] then []
    else if Tie(s[0], x, leq) then [s[0]] + Tied(s[1..], x, leq)
    else Tied(s[1..], x, leq)
  }

  /** Puts `x` in front of the first element that does not rank strictly below it. */
  function Insert<T>(x: T, s: seq<T>, leq: (T, T) -> bool): seq<T> {
    if s == [] || leq(x, s[0]) then [x] + s else [s[0]] + Insert(x, s[1..], leq)
  }

  function StableSort<T>(s: seq<T>, leq: (T, T) -> bool): seq<T> {
    if s == [] then [] else Insert(s[0], StableSort(s[1..], leq), leq)
  }

  lemma {:induction false} InsertElements<T>(x: T, s: seq<T>, leq: (T, T) -> bool)
    ensures multiset(Insert(x, s, leq)) == multiset{x} + multiset(s)
  {
    if s == [] || leq(x, s[0]) {
      assert multiset([x] + s) == multiset{x} + multiset(s);
    } else {
      InsertElements(x, s[1..], leq);
      assert s == [s[0]] + s[1..];
    }
  }

  lemma SortedCons<T>(x: T, s: seq<T>, leq: (T, T) -> bool)
    requires Sorted(s, leq) && forall z :: z in s ==> leq(x, z)
    ensures Sorted([x] + s, leq)
  {
  }

  lemma {:induction false} InsertSorted<T(!new)>(x: T, s: seq<T>, leq: (T, T) -> bool)
    requires TotalPreorder(leq) && Sorted(s, leq)
    ensures Sorted(Insert(x, s, leq), leq)
    ensures multiset(Insert(x, s, leq)) == multiset{x} + multiset(s)
  {
    InsertElements(x, s, leq);
    if s == [] {
    } else if leq(x, s[0]) {
      SortedCons(x, s, leq);
    } else {
      InsertSorted(x, s[1..], leq);
      InsertElements(x, s[1..], leq);
      forall z | z in Insert(x, s[1..], leq) ensures leq(s[0], z) {
        assert z in multiset(Insert(x, s[1..], leq));
        assert z == x || z in s[1..];
      }
      SortedCons(s[0], Insert(x, s[1..], leq), leq);
    }
  }

  lemma {:induction false} InsertTied<T(!new)>(x: T, s: seq<T>, y: T, leq: (T, T) -> bool)
    requires TotalPreorder(leq)
    ensures Tied(Insert(x, s, leq), y, leq) == Tied([x] + s, y, leq)
  {
    if s != [] && !leq(x, s[0]) {
      var r := Insert(x, s[1..], leq);
      InsertTied(x, s[1..], y, leq);
      assert ([s[0]] + r)[1..] == r && ([x] + s)[1..] == s && ([x] + s[1..])[1..] == s[1..];
      assert !(Tie(x, y, leq) && Tie(s[0], y, leq));
    }
  }

  /** The sort is a sorted permutation that keeps ties in their original order. */
  lemma {:induction false} StableSortCorrect<T(!new)>(s: seq<T>, leq: (T, T) -> bool)
    requires TotalPreorder(leq)
    ensures Sorted(StableSort(s, leq), leq)
    ensures multiset(StableSort(s, leq)) == multiset(s)
    ensures forall y :: Tied(StableSort(s, leq), y, leq) == Tied(s, y, leq)
  {
    if s != [] {
      var r := StableSort(s[1..], leq);
      StableSortCorrect(s[1..], leq);
      InsertSorted(s[0], r, leq);
      assert s == [s[0]] + s[1..];
      forall y ensures Tied(StableSort(s, leq), y, leq) == Tied(s, y, leq) {
        InsertTied(s[0], r, y, leq);
        assert ([s[0]] + r)[1..] == r;
      }
    }
  }

  lemma {:induction false} SortMembers<T>(s: seq<T>, leq: (T, T) -> bool)
    ensures forall x :: x in StableSort(s, leq) <==> x in s
  {
    if s != [] {
      SortMembers(s[1..], leq);
      InsertElements(s[0], StableSort(s[1..], leq), leq);
      forall x ensures x in StableSort(s, leq) <==> x in s {
        assert x in StableSort(s, leq) <==> x in multiset(StableSort(s, leq));
        assert s == [s[0]] + s[1..];
      }
    }
  }

  lemma {:induction false} TiedMembers<T>(s: seq<T>, x: T, leq: (T, T) -> bool)
    ensures forall y :: y in Tied(s, x, leq) <==> y in s && Tie(y, x, leq)
  {
    if s != [] {
      TiedMembers(s[1..], x, leq);
      assert s == [s[0]] + s[1..];
    }
  }

  /** Sortedness and the order of ties leave one sequence only. */
  lemma {:induction false} StableOrderUnique<T(!new)>(a: seq<T>, b: seq<T>, leq: (T, T) -> bool)
    requires TotalPreorder(leq) && Sorted(a, leq) && Sorted(b, leq)
    requires forall y :: Tied(a, y, leq) == Tied(b, y, leq)
    ensures a == b
    decreases |a| + |b|
  {
    if a != [] { TiedMembers(a, a[0], leq); TiedMembers(b, a[0], leq); assert a[0] in Tied(b, a[0], leq); }
    if b != [] { TiedMembers(a, b[0], leq); TiedMembers(b, b[0], leq); assert b[0] in Tied(a, b[0], leq); }
    if a != [] && b != [] {
      assert a[0] in Tied(a, a[0], leq) && a[0] in b;
      assert b[0] in Tied(b, b[0], leq) && b[0] in a;
      assert leq(a[0], b[0]) && leq(b[0], a[0]);
      assert Tied(a, a[0], leq)[0] == a[0] && Tied(b, a[0], leq)[0] == b[0];
      assert a[0] == b[0];
      forall y ensures Tied(a[1..], y, leq) == Tied(b[1..], y, leq) {
        assert Tied(a, y, leq) == Tied(b, y, leq);
        if Tie(a[0], y, leq) {
          assert Tied(a[1..], y, leq) == Tied(a, y, leq)[1..];
          assert Tied(b[1..], y, leq) == Tied(b, y, leq)[1..];
        }
      }
      StableOrderUnique(a[1..], b[1..], leq);
      assert a == [a[0]] + a[1..] && b == [b[0]] + b[1..];
    }
  }

  /** Whatever is sorted and keeps ties in order is the stable sort. */
  lemma StableSortUnique<T(!new)>(t: seq<T>, s: seq<T>, leq: (T, T) -> bool)
    requires TotalPreorder(leq) && Sorted(t, leq)
    requires forall y :: Tied(t, y, leq) == Tied(s, y, leq)
    ensures t == StableSort(s, leq)
  {
    StableSortCorrect(s, leq);
    StableOrderUnique(t, StableSort(s, leq), leq);
  }

  lemma {:induction false} TiedConcat<T>(s: seq<T>, t: seq<T>, x: T, leq: (T, T) -> bool)
    ensures Tied(s + t, x, leq) == Tied(s, x, leq) + Tied(t, x, leq)
  {
    if s == [] {
      assert s + t == t;
    } else {
      TiedConcat(s[1..], t, x, leq);
      assert (s + t)[1..] == s[1..] + t;
    }
  }

  lemma {:induction false} TiedOfOneValue<T>(s: seq<T>, y: T, e: T, leq: (T, T) -> bool)
    requires Tie(e, y, leq) && forall x :: x in s && Tie(x, y, leq) ==> x == e
    ensures Tied(s, y, leq) == seq(multiset(s)[e], _ => e)
  {
    if s != [] {
      TiedOfOneValue(s[1..], y, e, leq);
      assert s == [s[0]] + s[1..];
      assert multiset(s) == multiset{s[0]} + multiset(s[1..]);
    }
  }

  // ----- Strings -----

  /** Code point order on strings. */
  predicate StringLeq(a: string, b: string) {
    a == "" || (b != "" && (a[0] < b[0] || (a[0] == b[0] && StringLeq(a[1..], b[1..]))))
  }

  lemma {:induction false} StringLeqTotal(a: string, b: string)
    ensures StringLeq(a, b) || StringLeq(b, a)
    ensures StringLeq(a, b) && StringLeq(b, a) ==> a == b
    decreases |a|
  {
    if a != "" && b != "" {
      StringLeqTotal(a[1..], b[1..]);
      assert a == [a[0]] + a[1..] && b == [b[0]] + b[1..];
    }
  }

  lemma {:induction false} StringLeqTransitive(a: string, b: string, c: string)
    requires StringLeq(a, b) && StringLeq(b, c)
    ensures StringLeq(a, c)
    decreases |a|
  {
    if a != "" && a[0] == b[0] && b[0] == c[0] { StringLeqTransitive(a[1..], b[1..], c[1..]); }
  }

  lemma StringLeqIsPreorder()
    ensures TotalPreorder(StringLeq)
  {
    forall a, b ensures StringLeq(a, b) || StringLeq(b, a) { StringLeqTotal(a, b); }
    forall a, b, c | StringLeq(a, b) && StringLeq(b, c) ensures StringLeq(a, c) { StringLeqTransitive(a, b, c); }
  }
}

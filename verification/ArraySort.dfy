/** Stable sorting by a comparison, as JavaScript's Array.prototype.sort does it. */
module ArraySort {
  import opened Semaphore

  /** A comparison that any two elements can be put in order by. */
  ghost predicate Orders<T(!new)>(leq: (T, T) -> bool) {
    && (forall x, y :: leq(x, y) || leq(y, x))
    && (forall x, y, z :: leq(x, y) && leq(y, z) ==> leq(x, z))
  }

  /** x goes before the first element it may precede. */
  function Insert<T>(x: T, s: seq<T>, leq: (T, T) -> bool): seq<T> {
    if s == [] then [x] else if leq(x, s[0]) then [x] + s else [s[0]] + Insert(x, s[1..], leq)
  }

  function Sort<T>(s: seq<T>, leq: (T, T) -> bool): seq<T> {
    if s == [] then [] else Insert(s[0], Sort(s[1..], leq), leq)
  }

  lemma {:induction false} InsertPermutes<T>(x: T, s: seq<T>, leq: (T, T) -> bool)
    ensures multiset(Insert(x, s, leq)) == multiset(s) + multiset{x}
  {
    if s != [] {
      assert s == [s[0]] + s[1..];
      InsertPermutes(x, s[1..], leq);
    }
  }

  lemma {:induction false} SortPermutes<T>(s: seq<T>, leq: (T, T) -> bool)
    ensures multiset(Sort(s, leq)) == multiset(s)
  {
    if s != [] {
      assert s == [s[0]] + s[1..];
      SortPermutes(s[1..], leq);
      InsertPermutes(s[0], Sort(s[1..], leq), leq);
    }
  }

  ghost predicate Sorted<T>(s: seq<T>, leq: (T, T) -> bool) {
    forall i, j :: 0 <= i < j < |s| ==> leq(s[i], s[j])
  }

  lemma SameMembers<T(!new)>(a: seq<T>, b: seq<T>)
    requires multiset(a) == multiset(b)
    ensures |a| == |b| && forall x :: x in a <==> x in b
  {
    assert |a| == |multiset(a)| == |multiset(b)| == |b|;
    assert forall x :: x in a <==> x in multiset(a);
    assert forall x :: x in b <==> x in multiset(b);
  }

  lemma {:induction false} InsertMembers<T(!new)>(x: T, s: seq<T>, leq: (T, T) -> bool)
    ensures forall y :: y in Insert(x, s, leq) ==> y in s || y == x
  {
    if s != [] && !leq(x, s[0]) {
      InsertMembers(x, s[1..], leq);
      assert forall y :: y in s[1..] ==> y in s;
    }
  }

  lemma SortedFrom<T(!new)>(first: T, rest: seq<T>, leq: (T, T) -> bool)
    requires Sorted(rest, leq) && forall y :: y in rest ==> leq(first, y)
    ensures Sorted([first] + rest, leq)
  {
  }

  lemma {:induction false} InsertSorted<T(!new)>(x: T, s: seq<T>, leq: (T, T) -> bool)
    requires Orders(leq) && Sorted(s, leq)
    ensures Sorted(Insert(x, s, leq), leq)
  {
    if s != [] {
      var first, rest := s[0], s[1..];
      assert forall y :: y in rest ==> leq(first, y);
      if leq(x, first) {
        assert s == [first] + rest;
        assert forall y :: y in s ==> leq(x, y);
        SortedFrom(x, s, leq);
      } else {
        InsertSorted(x, rest, leq);
        InsertMembers(x, rest, leq);
        SortedFrom(first, Insert(x, rest, leq), leq);
      }
    }
  }

  lemma {:induction false} SortSorts<T(!new)>(s: seq<T>, leq: (T, T) -> bool)
    requires Orders(leq)
    ensures Sorted(Sort(s, leq), leq)
  {
    if s != [] {
      SortSorts(s[1..], leq);
      InsertSorted(s[0], Sort(s[1..], leq), leq);
    }
  }

  predicate Tie<T>(x: T, y: T, leq: (T, T) -> bool) { leq(x, y) && leq(y, x) }

  /** The elements that compare equal to x, in the order in which they come. */
  ghost function Ties<T>(s: seq<T>, x: T, leq: (T, T) -> bool): seq<T> {
    if s == [] then []
    else (if Tie(s[0], x, leq) then [s[0]] else []) + Ties(s[1..], x, leq)
  }

  lemma {:induction false} InsertTies<T(!new)>(x: T, s: seq<T>, y: T, leq: (T, T) -> bool)
    requires Orders(leq)
    ensures Ties(Insert(x, s, leq), y, leq) == Ties([x] + s, y, leq)
  {
    assert ([x] + s)[1..] == s;
    if s != [] && !leq(x, s[0]) {
      var first, rest := s[0], s[1..];
      InsertTies(x, rest, y, leq);
      assert ([x] + rest)[1..] == rest;
      assert ([first] + Insert(x, rest, leq))[1..] == Insert(x, rest, leq);
      assert Tie(x, y, leq) && Tie(first, y, leq) ==> leq(x, first);
    }
  }

  /** Elements that compare equal keep their order. */
  lemma {:induction false} SortStable<T(!new)>(s: seq<T>, y: T, leq: (T, T) -> bool)
    requires Orders(leq)
    ensures Ties(Sort(s, leq), y, leq) == Ties(s, y, leq)
  {
    if s != [] {
      SortStable(s[1..], y, leq);
      InsertTies(s[0], Sort(s[1..], leq), y, leq);
      assert ([s[0]] + Sort(s[1..], leq))[1..] == Sort(s[1..], leq);
    }
  }

  lemma TwiceIsTwo<T(!new)>(s: seq<T>, i: nat, j: nat)
    requires i < j < |s| && s[i] == s[j]
    ensures multiset(s)[s[i]] >= 2
  {
    assert s == s[..j] + [s[j]] + s[j + 1..];
    assert s[..j][i] in s[..j];
  }

  lemma {:induction false} OnceIfDistinct<T(!new)>(s: seq<T>)
    requires Distinct(s)
    ensures forall x :: multiset(s)[x] <= 1
  {
    if s != [] {
      assert s == [s[0]] + s[1..];
      OnceIfDistinct(s[1..]);
      assert s[0] !in s[1..];
    }
  }

  lemma SortKeepsDistinct<T(!new)>(s: seq<T>, leq: (T, T) -> bool)
    requires Distinct(s)
    ensures Distinct(Sort(s, leq))
  {
    var r := Sort(s, leq);
    SortPermutes(s, leq);
    OnceIfDistinct(s);
    forall i, j | 0 <= i < j < |r| ensures r[i] != r[j] {
      if r[i] == r[j] { TwiceIsTwo(r, i, j); }
    }
  }
}

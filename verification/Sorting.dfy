/** A stable sort, and what it gives when the order is total. */
module Sorting {

  ghost predicate TotalOrder<T(!new)>(le: (T, T) -> bool) {
    && (forall a, b :: le(a, b) || le(b, a))
    && (forall a, b, c :: le(a, b) && le(b, c) ==> le(a, c))
  }

  /** Puts x behind everything that may come before it. */
  function Insert<T>(s: seq<T>, x: T, le: (T, T) -> bool): seq<T> {
    if s == [] then [x]
    else if le(s[|s| - 1], x) then s + [x]
    else Insert(s[..|s| - 1], x, le) + [s[|s| - 1]]
  }

  function Sort<T>(s: seq<T>, le: (T, T) -> bool): seq<T> {
    if s == [] then [] else Insert(Sort(s[..|s| - 1], le), s[|s| - 1], le)
  }

  ghost predicate Sorted<T(!new)>(s: seq<T>, le: (T, T) -> bool) {
    forall i, j :: 0 <= i < j < |s| ==> le(s[i], s[j])
  }

  lemma {:induction false} InsertContents<T>(s: seq<T>, x: T, le: (T, T) -> bool)
    ensures multiset(Insert(s, x, le)) == multiset(s) + multiset{x}
  {
    if s != [] {
      var front, last := s[..|s| - 1], s[|s| - 1];
      assert s == front + [last];
      InsertContents(front, x, le);
    }
  }

  lemma Members<T>(a: seq<T>, b: seq<T>)
    requires multiset(a) == multiset(b)
    ensures |a| == |b| && forall x :: x in a <==> x in b
  {
    assert |multiset(a)| == |multiset(b)|;
    assert forall x :: x in a <==> x in multiset(a);
    assert forall x :: x in b <==> x in multiset(b);
  }

  lemma {:induction false} InsertBelow<T(!new)>(s: seq<T>, x: T, le: (T, T) -> bool, top: T)
    requires le(x, top) && forall i :: 0 <= i < |s| ==> le(s[i], top)
    ensures forall i :: 0 <= i < |Insert(s, x, le)| ==> le(Insert(s, x, le)[i], top)
  {
    if s != [] && !le(s[|s| - 1], x) {
      InsertBelow(s[..|s| - 1], x, le, top);
    }
  }

  lemma {:induction false} InsertSorted<T(!new)>(s: seq<T>, x: T, le: (T, T) -> bool)
    requires TotalOrder(le) && Sorted(s, le)
    ensures Sorted(Insert(s, x, le), le)
  {
    if s == [] {
    } else {
      var front, last := s[..|s| - 1], s[|s| - 1];
      if !le(last, x) {
        InsertSorted(front, x, le);
        InsertBelow(front, x, le, last);
      }
    }
  }

  lemma {:induction false} SortContents<T>(s: seq<T>, le: (T, T) -> bool)
    ensures multiset(Sort(s, le)) == multiset(s)
  {
    hide Insert;
    if s != [] {
      var front, last := s[..|s| - 1], s[|s| - 1];
      SortContents(front, le);
      InsertContents(Sort(front, le), last, le);
      assert s == front + [last];
    }
  }

  /** The result is sorted and holds the same elements. */
  lemma {:induction false} SortIsSorted<T(!new)>(s: seq<T>, le: (T, T) -> bool)
    requires TotalOrder(le)
    ensures Sorted(Sort(s, le), le) && multiset(Sort(s, le)) == multiset(s)
    ensures |Sort(s, le)| == |s| && forall x :: x in Sort(s, le) <==> x in s
  {
    hide Insert, TotalOrder;
    if s != [] {
      SortIsSorted(s[..|s| - 1], le);
      InsertSorted(Sort(s[..|s| - 1], le), s[|s| - 1], le);
    }
    SortContents(s, le);
    Members(Sort(s, le), s);
  }

  predicate Equivalent<T>(a: T, b: T, le: (T, T) -> bool) {
    le(a, b) && le(b, a)
  }

  /** The elements that the order does not tell from x, as they come. */
  function Peers<T>(s: seq<T>, x: T, le: (T, T) -> bool): seq<T> {
    if s == [] then []
    else
      var front, last := Peers(s[..|s| - 1], x, le), s[|s| - 1];
      if Equivalent(last, x, le) then front + [last] else front
  }

  lemma PeersSnoc<T>(s: seq<T>, last: T, x: T, le: (T, T) -> bool)
    ensures Peers(s + [last], x, le) == Peers(s, x, le) + (if Equivalent(last, x, le) then [last] else [])
  {
    var all := s + [last];
    assert all[..|all| - 1] == s && all[|all| - 1] == last;
  }

  lemma {:induction false} InsertIsStable<T(!new)>(s: seq<T>, y: T, x: T, le: (T, T) -> bool)
    requires TotalOrder(le)
    ensures Peers(Insert(s, y, le), x, le) == Peers(s, x, le) + (if Equivalent(y, x, le) then [y] else [])
  {
    hide Peers;
    if s == [] || le(s[|s| - 1], y) {
      PeersSnoc(s, y, x, le);
      assert s == [] ==> s + [y] == [y];
    } else {
      var front, last := s[..|s| - 1], s[|s| - 1];
      assert s == front + [last];
      InsertIsStable(front, y, x, le);
      PeersSnoc(Insert(front, y, le), last, x, le);
      PeersSnoc(front, last, x, le);
      assert !(Equivalent(last, x, le) && Equivalent(y, x, le));
    }
  }

  /** Elements that the order does not tell apart keep their order. */
  lemma {:induction false} SortIsStable<T(!new)>(s: seq<T>, x: T, le: (T, T) -> bool)
    requires TotalOrder(le)
    ensures Peers(Sort(s, le), x, le) == Peers(s, x, le)
  {
    hide Peers, Insert, TotalOrder;
    if s != [] {
      var front, last := s[..|s| - 1], s[|s| - 1];
      assert s == front + [last];
      SortIsStable(front, x, le);
      InsertIsStable(Sort(front, le), last, x, le);
      PeersSnoc(front, last, x, le);
    }
  }
}

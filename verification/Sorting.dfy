/** Stable sorting, as Python's `sorted` does it, by any total preorder. */
module Sorting {

  ghost predicate Preorder<T(!new)>(le: (T, T) -> bool) {
    && (forall x, y :: le(x, y) || le(y, x))
    && (forall x, y, z :: le(x, y) && le(y, z) ==> le(x, z))
  }

  predicate Tie<T>(le: (T, T) -> bool, x: T, y: T) {
    le(x, y) && le(y, x)
  }

  ghost predicate Sorted<T>(le: (T, T) -> bool, s: seq<T>) {
    forall i, j :: 0 <= i < j < |s| ==> le(s[i], s[j])
  }

  /** The elements of `s` that tie with `x`, in their order in `s`. */
  function Ties<T>(le: (T, T) -> bool, x: T, s: seq<T>): seq<T> {
    if s == [] then []
    else if Tie(le, s[0], x) then [s[0]] + Ties(le, x, s[1..])
    else Ties(le, x, s[1..])
  }

  /** Puts `x` before the first element it does not exceed. */
  function Insert<T>(le: (T, T) -> bool, x: T, s: seq<T>): (r: seq<T>)
    ensures multiset(r) == multiset{x} + multiset(s)
    ensures |r| == |s| + 1
  {
    if s == [] then [x]
    else if le(x, s[0]) then [x] + s
    else
      assert s == [s[0]] + s[1..];
      [s[0]] + Insert(le, x, s[1..])
  }

  function Sort<T>(le: (T, T) -> bool, s: seq<T>): (r: seq<T>)
    ensures multiset(r) == multiset(s)
    ensures |r| == |s|
  {
    if s == [] then []
    else
      assert s == [s[0]] + s[1..];
      Insert(le, s[0], Sort(le, s[1..]))
  }

  lemma SameElements<T>(a: seq<T>, b: seq<T>)
    requires multiset(a) == multiset(b)
    ensures |a| == |b|
    ensures forall x :: x in a <==> x in b
  {
    assert |multiset(a)| == |a| && |multiset(b)| == |b|;
    assert forall x :: x in a <==> x in multiset(a);
    assert forall x :: x in b <==> x in multiset(b);
  }

  lemma {:induction false} InsertSorted<T(!new)>(le: (T, T) -> bool, x: T, s: seq<T>)
    requires Preorder(le) && Sorted(le, s)
    ensures Sorted(le, Insert(le, x, s))
  {
    if s != [] && !le(x, s[0]) {
      var rest := s[1..];
      InsertSorted(le, x, rest);
      var tail := Insert(le, x, rest);
      forall i | 0 <= i < |tail| ensures le(s[0], tail[i]) {
        assert tail[i] in multiset(tail);
        if tail[i] != x {
          assert tail[i] in rest;
          var j :| 0 <= j < |rest| && rest[j] == tail[i];
        }
      }
    }
  }

  lemma {:induction false} SortSorted<T(!new)>(le: (T, T) -> bool, s: seq<T>)
    requires Preorder(le)
    ensures Sorted(le, Sort(le, s))
  {
    if s != [] {
      SortSorted(le, s[1..]);
      InsertSorted(le, s[0], Sort(le, s[1..]));
    }
  }

  lemma TieTransitive<T(!new)>(le: (T, T) -> bool, x: T, t: T, y: T)
    requires Preorder(le) && le(x, t) && le(t, y)
    ensures le(x, y)
  {}

  lemma TiesOfCons<T>(le: (T, T) -> bool, t: T, x: T, s: seq<T>)
    ensures Ties(le, t, [x] + s) == if Tie(le, x, t) then [x] + Ties(le, t, s) else Ties(le, t, s)
  {
    assert ([x] + s)[1..] == s;
  }

  lemma TieLeft<T(!new)>(le: (T, T) -> bool, x: T, y: T, t: T)
    requires Preorder(le) && !le(x, y)
    ensures !(Tie(le, x, t) && Tie(le, y, t))
  {
    if Tie(le, x, t) && Tie(le, y, t) {
      TieTransitive(le, x, t, y);
    }
  }

  lemma {:induction false} InsertTies<T(!new)>(le: (T, T) -> bool, x: T, s: seq<T>, t: T)
    requires forall y :: !le(x, y) ==> !(Tie(le, x, t) && Tie(le, y, t))
    ensures Ties(le, t, Insert(le, x, s)) == if Tie(le, x, t) then [x] + Ties(le, t, s) else Ties(le, t, s)
  {
    if s == [] || le(x, s[0]) {
      TiesOfCons(le, t, x, s);
    } else {
      InsertTies(le, x, s[1..], t);
      TiesOfCons(le, t, s[0], Insert(le, x, s[1..]));
    }
  }

  /** Elements that tie keep their order: the sort is stable. */
  lemma {:induction false} SortStable<T(!new)>(le: (T, T) -> bool, s: seq<T>, t: T)
    requires Preorder(le)
    ensures Ties(le, t, Sort(le, s)) == Ties(le, t, s)
  {
    if s != [] {
      SortStable(le, s[1..], t);
      forall y | !le(s[0], y) ensures !(Tie(le, s[0], t) && Tie(le, y, t)) {
        TieLeft(le, s[0], y, t);
      }
      InsertTies(le, s[0], Sort(le, s[1..]), t);
    }
  }

  /** A sorted sequence is left as it is. */
  lemma {:induction false} SortIdentity<T>(le: (T, T) -> bool, s: seq<T>)
    requires Sorted(le, s)
    ensures Sort(le, s) == s
  {
    if s != [] {
      SortIdentity(le, s[1..]);
    }
  }

  lemma HeadIsLeast<T(!new)>(le: (T, T) -> bool, a: seq<T>, x: T)
    requires Preorder(le) && Sorted(le, a) && x in a
    ensures le(a[0], x)
  {
    var i :| 0 <= i < |a| && a[i] == x;
    assert le(x, x);
  }

  lemma TailElements<T>(a: seq<T>)
    requires a != []
    ensures multiset(a[1..]) == multiset(a) - multiset{a[0]}
    ensures forall x :: x in a[1..] ==> x in a
  {
    assert a == [a[0]] + a[1..];
  }

  lemma SameHead<T(!new)>(le: (T, T) -> bool, a: seq<T>, b: seq<T>)
    requires Preorder(le) && Sorted(le, a) && Sorted(le, b)
    requires multiset(a) == multiset(b) && a != [] && b != []
    ensures Tie(le, a[0], b[0]) && b[0] in a
  {
    SameElements(a, b);
    HeadIsLeast(le, a, b[0]);
    HeadIsLeast(le, b, a[0]);
  }

  /** Two sorted arrangements of the same elements agree when distinct elements never tie. */
  lemma {:induction false} SortedUnique<T(!new)>(le: (T, T) -> bool, a: seq<T>, b: seq<T>)
    requires Preorder(le) && Sorted(le, a) && Sorted(le, b)
    requires multiset(a) == multiset(b)
    requires forall x, y :: x in a && y in a && Tie(le, x, y) ==> x == y
    ensures a == b
  {
    SameElements(a, b);
    if a != [] {
      SameHead(le, a, b);
      assert a[0] == b[0];
      TailElements(a);
      TailElements(b);
      SortedUnique(le, a[1..], b[1..]);
      assert a == [a[0]] + a[1..] && b == [b[0]] + b[1..];
    }
  }

  /** How a sorted sequence is told from its input: elements, order, and order among ties. */
  lemma SortUniquelyDetermined<T(!new)>(le: (T, T) -> bool, a: seq<T>, b: seq<T>)
    requires Preorder(le) && multiset(a) == multiset(b)
    requires forall x, y :: x in a && y in a && Tie(le, x, y) ==> x == y
    ensures Sort(le, a) == Sort(le, b)
  {
    SortSorted(le, a);
    SortSorted(le, b);
    SameElements(a, Sort(le, a));
    SortedUnique(le, Sort(le, a), Sort(le, b));
  }
}

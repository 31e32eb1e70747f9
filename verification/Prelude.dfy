/** Shared value types, sequence vocabulary and the order on text. */
module Prelude {

  datatype Option<+T> = None | Some(value: T) {
    /** Python's `value or default` for a value that is truthy whenever it is present. */
    function Or(default: Option<T>): Option<T> {
      if Some? then this else default
    }

    function GetOr(default: T): T {
      if Some? then value else default
    }
  }

  datatype Result<+T, +E> = Ok(value: T) | Err(error: E)

  /** Identifiers are opaque text; instants and durations are integer microseconds. */
  type Id = string
  type Instant = int

  /** Each character stands for one byte. */
  type Bytes = string

  /** `not value.strip()`, for ASCII white space. */
  predicate Blank(s: string) {
    forall c :: c in s ==> c in {' ', '\t', '\n', '\r'}
  }

  function Max(a: int, b: int): (m: int)
    ensures m >= a && m >= b && (m == a || m == b)
  {
    if a >= b then a else b
  }

  predicate Distinct<T(==)>(s: seq<T>) {
    forall i, j :: 0 <= i < j < |s| ==> s[i] != s[j]
  }

  /** `dict.fromkeys`: the first occurrences, in order. */
  function Dedupe<T(==, !new)>(s: seq<T>): (r: seq<T>)
    ensures Distinct(r)
    ensures forall x: T :: x in r ==> x in s
    ensures forall i :: 0 <= i < |s| ==> s[i] in r
  {
    if s == [] then []
    else
      var init := Dedupe(s[..|s| - 1]);
      var last := s[|s| - 1];
      assert s == s[..|s| - 1] + [last];
      if last in init then init else init + [last]
  }

  function Flatten<T>(ss: seq<seq<T>>): (s: seq<T>) {
    if ss == [] then [] else ss[0] + Flatten(ss[1..])
  }

  lemma ConcatAssociates<T>(a: seq<T>, b: seq<T>, c: seq<T>)
    ensures a + (b + c) == (a + b) + c
  {}

  lemma {:induction false} FlattenConcat<T>(a: seq<seq<T>>, b: seq<seq<T>>)
    ensures Flatten(a + b) == Flatten(a) + Flatten(b)
  {
    if a == [] {
      assert a + b == b;
    } else {
      FlattenConcat(a[1..], b);
      assert (a + b)[1..] == a[1..] + b && (a + b)[0] == a[0];
      ConcatAssociates(a[0], Flatten(a[1..]), Flatten(b));
    }
  }

  lemma FlattenOne<T>(a: seq<T>)
    ensures Flatten([a]) == a
  {
    assert Flatten([a]) == a + Flatten([]);
  }

  lemma {:induction false} FlattenMember<T>(parts: seq<seq<T>>, x: T)
    ensures x in Flatten(parts) <==> exists i :: 0 <= i < |parts| && x in parts[i]
  {
    if parts != [] {
      FlattenMember(parts[1..], x);
      if i :| 0 <= i < |parts[1..]| && x in parts[1..][i] { assert x in parts[i + 1]; }
      if i :| 1 <= i < |parts| && x in parts[i] { assert x in parts[1..][i - 1]; }
    }
  }

  function Filter<T(!new)>(keep: T -> bool, s: seq<T>): (r: seq<T>)
    ensures forall x :: x in r <==> x in s && keep(x)
  {
    if s == [] then []
    else if keep(s[0]) then [s[0]] + Filter(keep, s[1..])
    else Filter(keep, s[1..])
  }

  lemma {:induction false} FilterConcat<T(!new)>(keep: T -> bool, a: seq<T>, b: seq<T>)
    ensures Filter(keep, a + b) == Filter(keep, a) + Filter(keep, b)
  {
    if a == [] {
      assert a + b == b;
    } else {
      FilterConcat(keep, a[1..], b);
      assert (a + b)[1..] == a[1..] + b;
    }
  }

  lemma FilterOne<T(!new)>(keep: T -> bool, x: T)
    ensures Filter(keep, [x]) == if keep(x) then [x] else []
  {
    assert [x][1..] == [];
    assert [x] + Filter(keep, []) == [x];
  }

  function Map<A, B>(f: A -> B, s: seq<A>): (r: seq<B>)
    ensures |r| == |s| && forall i :: 0 <= i < |s| ==> r[i] == f(s[i])
  {
    seq(|s|, i requires 0 <= i < |s| => f(s[i]))
  }

  /** `s` without its element at `i`. */
  function Without<T>(s: seq<T>, i: nat): (r: seq<T>)
    requires i < |s|
    ensures |r| == |s| - 1
    ensures forall k :: 0 <= k < |r| ==> r[k] == if k < i then s[k] else s[k + 1]
    ensures multiset(s) == multiset{s[i]} + multiset(r)
  {
    assert s == s[..i] + [s[i]] + s[i + 1..];
    s[..i] + s[i + 1..]
  }

  lemma MapWithout<A, B>(f: A -> B, s: seq<A>, i: nat)
    requires i < |s|
    ensures Map(f, Without(s, i)) == Without(Map(f, s), i)
  {}

  lemma {:induction false} MapPermutation<A, B>(f: A -> B, a: seq<A>, b: seq<A>)
    requires multiset(a) == multiset(b)
    ensures multiset(Map(f, a)) == multiset(Map(f, b))
  {
    assert |multiset(a)| == |a| && |multiset(b)| == |b|;
    if a != [] {
      assert a[0] in multiset(b);
      var j :| 0 <= j < |b| && b[j] == a[0];
      assert multiset(Without(a, 0)) == multiset(a) - multiset{a[0]};
      assert multiset(Without(b, j)) == multiset(b) - multiset{a[0]};
      MapPermutation(f, Without(a, 0), Without(b, j));
      MapWithout(f, a, 0);
      MapWithout(f, b, j);
    }
  }

  lemma {:induction false} OccursOnce<T>(s: seq<T>, x: T)
    requires Distinct(s)
    ensures multiset(s)[x] <= 1
  {
    if s != [] {
      OccursOnce(s[1..], x);
      assert s == [s[0]] + s[1..] && s[0] !in s[1..];
    }
  }

  lemma DistinctUnderPermutation<T>(a: seq<T>, b: seq<T>)
    requires Distinct(a) && multiset(a) == multiset(b)
    ensures Distinct(b)
  {
    forall i, j | 0 <= i < j < |b| ensures b[i] != b[j] {
      if b[i] == b[j] {
        assert Without(b, i)[j - 1] == b[i];
        assert b[i] in Without(b, i);
        assert multiset(b)[b[i]] >= 2;
        OccursOnce(a, b[i]);
      }
    }
  }

  /** Lexicographic order on text. */
  predicate TextLe(a: string, b: string) {
    if a == [] then true
    else if b == [] then false
    else if a[0] != b[0] then a[0] < b[0]
    else TextLe(a[1..], b[1..])
  }

  lemma {:induction false} TextLeTotal(a: string, b: string)
    ensures TextLe(a, b) || TextLe(b, a)
  {
    if a != [] && b != [] {
      TextLeTotal(a[1..], b[1..]);
    }
  }

  lemma {:induction false} TextLeAntisymmetric(a: string, b: string)
    requires TextLe(a, b) && TextLe(b, a)
    ensures a == b
  {
    if a != [] && b != [] {
      TextLeAntisymmetric(a[1..], b[1..]);
      assert a == [a[0]] + a[1..] && b == [b[0]] + b[1..];
    }
  }

  lemma {:induction false} TextLeTransitive(a: string, b: string, c: string)
    requires TextLe(a, b) && TextLe(b, c)
    ensures TextLe(a, c)
  {
    if a != [] && b != [] && c != [] && a[0] == b[0] == c[0] {
      TextLeTransitive(a[1..], b[1..], c[1..]);
    }
  }

  /** At the first place where they differ, or where it ends, the one text is less. */
  ghost predicate LessText(a: string, b: string) {
    exists k :: LessAt(a, b, k)
  }

  predicate LessAt(a: string, b: string, k: int) {
    0 <= k <= |a| && k < |b| && a[..k] == b[..k] && (k == |a| || a[k] < b[k])
  }

  lemma {:induction false} LessTextIff(a: string, b: string)
    ensures TextLe(a, b) && a != b <==> LessText(a, b)
  {
    if a == [] || b == [] || a[0] != b[0] {
      if TextLe(a, b) && a != b { assert LessAt(a, b, 0); }
    } else {
      LessTextIff(a[1..], b[1..]);
      assert a == [a[0]] + a[1..] && b == [b[0]] + b[1..];
      if k :| LessAt(a[1..], b[1..], k) {
        assert a[..k + 1] == [a[0]] + a[1..][..k] && b[..k + 1] == [b[0]] + b[1..][..k];
        assert LessAt(a, b, k + 1);
      }
      if k :| LessAt(a, b, k) {
        assert k > 0;
        assert a[1..][..k - 1] == a[..k][1..] && b[1..][..k - 1] == b[..k][1..];
        assert LessAt(a[1..], b[1..], k - 1);
      }
    }
  }
}

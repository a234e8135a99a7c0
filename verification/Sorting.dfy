/** The library sort, and why its result is canonical. */
module Sorting {

  // ---------------------------------------------------------------- text order

  /** Text comparison, character by character. */
  predicate TextLess(a: string, b: string) {
    if b == "" then false
    else if a == "" then true
    else a[0] < b[0] || (a[0] == b[0] && TextLess(a[1..], b[1..]))
  }

  lemma {:induction false} TextIrreflexive(a: string)
    ensures !TextLess(a, a)
    decreases |a|
  {
    if a != "" {
      TextIrreflexive(a[1..]);
    }
  }

  lemma {:induction false} TextTransitive(a: string, b: string, c: string)
    requires TextLess(a, b) && TextLess(b, c)
    ensures TextLess(a, c)
    decreases |a|
  {
    if a != "" && a[0] == b[0] == c[0] {
      TextTransitive(a[1..], b[1..], c[1..]);
    }
  }

  lemma {:induction false} TextTotal(a: string, b: string)
    requires !TextLess(a, b) && !TextLess(b, a)
    ensures a == b
    decreases |a|
  {
    if a != "" && b != "" {
      TextTotal(a[1..], b[1..]);
      assert a == [a[0]] + a[1..] && b == [b[0]] + b[1..];
    }
  }

  // ---------------------------------------------------------------- sorting

  ghost predicate StrictWeak<T(!new)>(less: (T, T) -> bool) {
    && (forall x :: !less(x, x))
    && (forall x, y, z :: less(x, y) && less(y, z) ==> less(x, z))
    && (forall x, y, z :: !less(x, y) && !less(y, z) ==> !less(x, z))
  }

  lemma {:induction false} TextStrictWeak()
    ensures StrictWeak(TextLess)
  {
    forall x
      ensures !TextLess(x, x)
    {
      TextIrreflexive(x);
    }
    forall x, y, z | TextLess(x, y) && TextLess(y, z)
      ensures TextLess(x, z)
    {
      TextTransitive(x, y, z);
    }
    forall x, y, z | !TextLess(x, y) && !TextLess(y, z)
      ensures !TextLess(x, z)
    {
      if TextLess(x, z) {
        if TextLess(z, y) {
          TextTransitive(x, z, y);
        } else {
          TextTotal(y, z);
        }
      }
    }
  }

  ghost predicate Ordered<T>(s: seq<T>, less: (T, T) -> bool) {
    forall i, j :: 0 <= i < j < |s| ==> !less(s[j], s[i])
  }

  ghost predicate Increasing<T>(s: seq<T>, less: (T, T) -> bool) {
    forall i, j :: 0 <= i < j < |s| ==> less(s[i], s[j])
  }

  function Insert<T(!new)>(x: T, s: seq<T>, less: (T, T) -> bool): (r: seq<T>)
    ensures multiset(r) == multiset{x} + multiset(s)
    ensures forall y :: y in r <==> y == x || y in s
  {
    if s == [] then [x]
    else if !less(s[0], x) then [x] + s
    else
      var rest := Insert(x, s[1..], less);
      assert s == [s[0]] + s[1..];
      [s[0]] + rest
  }

  /** A stable sort. */
  function SortBy<T(!new)>(s: seq<T>, less: (T, T) -> bool): (r: seq<T>)
    ensures multiset(r) == multiset(s)
    ensures forall y :: y in r <==> y in s
  {
    if s == [] then []
    else
      assert s == [s[0]] + s[1..];
      Insert(s[0], SortBy(s[1..], less), less)
  }

  lemma {:induction false} InsertOrdered<T(!new)>(x: T, s: seq<T>, less: (T, T) -> bool)
    requires StrictWeak(less) && Ordered(s, less)
    ensures Ordered(Insert(x, s, less), less)
    decreases |s|
  {
    if s == [] {
    } else if !less(s[0], x) {
      var r := [x] + s;
      forall j | 0 < j < |r|
        ensures !less(r[j], r[0])
      {
        assert j > 1 ==> !less(s[j - 1], s[0]);
      }
    } else {
      assert Ordered(s[1..], less) by {
        assert forall i :: 0 <= i < |s[1..]| ==> s[1..][i] == s[i + 1];
      }
      InsertOrdered(x, s[1..], less);
      var rest := Insert(x, s[1..], less);
      forall j | 0 <= j < |rest|
        ensures !less(rest[j], s[0])
      {
        if rest[j] == x {
          assert less(x, s[0]) ==> less(x, x);
        } else {
          assert rest[j] in s[1..];
          var k :| 0 <= k < |s[1..]| && s[1..][k] == rest[j];
          assert s[k + 1] == rest[j];
        }
      }
    }
  }

  lemma {:induction false} SortOrdered<T(!new)>(s: seq<T>, less: (T, T) -> bool)
    requires StrictWeak(less)
    ensures Ordered(SortBy(s, less), less)
    decreases |s|
  {
    if s != [] {
      SortOrdered(s[1..], less);
      InsertOrdered(s[0], SortBy(s[1..], less), less);
    }
  }

  lemma {:induction false} SameFirst<T(!new)>(s: seq<T>, t: seq<T>, less: (T, T) -> bool)
    requires StrictWeak(less) && Increasing(s, less) && Increasing(t, less)
    requires s != [] && t != [] && s[0] in t && t[0] in s
    ensures s[0] == t[0]
  {
  }

  lemma {:induction false} NotRepeated<T(!new)>(s: seq<T>, less: (T, T) -> bool)
    requires StrictWeak(less) && Increasing(s, less) && s != []
    ensures s[0] !in s[1..]
  {
  }

  /** An increasing list is determined by the set of its elements. */
  lemma {:induction false} IncreasingUnique<T(!new)>(s: seq<T>, t: seq<T>, less: (T, T) -> bool)
    requires StrictWeak(less) && Increasing(s, less) && Increasing(t, less)
    requires forall x :: x in s <==> x in t
    ensures s == t
    decreases |s|
  {
    assert (s != [] ==> s[0] in s) && (t != [] ==> t[0] in t);
    if s != [] {
      SameFirst(s, t, less);
      NotRepeated(s, less);
      NotRepeated(t, less);
      assert s == [s[0]] + s[1..] && t == [t[0]] + t[1..];
      assert forall i :: 0 <= i < |s[1..]| ==> s[1..][i] == s[i + 1];
      assert forall i :: 0 <= i < |t[1..]| ==> t[1..][i] == t[i + 1];
      forall x
        ensures x in s[1..] <==> x in t[1..]
      {
        assert x in s <==> x == s[0] || x in s[1..];
        assert x in t <==> x == t[0] || x in t[1..];
      }
      IncreasingUnique(s[1..], t[1..], less);
    }
  }
}

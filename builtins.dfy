/** The PHP library functions the engine relies on: explode and implode on a
    single space, array_sum over exact costs, and array_unique on strings. */
module Builtins {

  /** explode(' ', s): the pieces of s between single spaces. An empty string
      gives one empty piece, and two spaces in a row give an empty piece. */
  function Explode(s: string): (r: seq<string>)
    ensures |r| >= 1
    ensures forall k :: 0 <= k < |r| ==> ' ' !in r[k]
  {
    if s == [] then [""]
    else if s[0] == ' ' then [""] + Explode(s[1..])
    else
      var rest := Explode(s[1..]);
      [[s[0]] + rest[0]] + rest[1..]
  }

  /** The lengths of the strings of xs, added up. */
  function Lengths(xs: seq<string>): nat
  {
    if xs == [] then 0 else |xs[0]| + Lengths(xs[1..])
  }

  /** implode(" ", xs): the strings of xs with one space between neighbours.
      The result starts with the first string and is one character longer
      per neighbouring pair than the strings put together. */
  function Implode(xs: seq<string>): (r: string)
    ensures xs == [] ==> r == ""
    ensures |xs| >= 1 ==> xs[0] <= r
    ensures |xs| >= 1 ==> |r| == Lengths(xs) + |xs| - 1
  {
    if xs == [] then ""
    else if |xs| == 1 then xs[0]
    else xs[0] + " " + Implode(xs[1..])
  }

  /** array_sum over a list of costs. A sum of non-negative costs is
      non-negative and at least each of its terms. */
  function ArraySum(xs: seq<int>): (r: int)
    ensures xs == [] ==> r == 0
    ensures (forall k :: 0 <= k < |xs| ==> xs[k] >= 0) ==>
      r >= 0 && forall k :: 0 <= k < |xs| ==> xs[k] <= r
  {
    if xs == [] then 0 else ArraySum(xs[..|xs| - 1]) + xs[|xs| - 1]
  }

  predicate NoDuplicates<T(==)>(s: seq<T>)
  {
    forall i, j :: 0 <= i < j < |s| ==> s[i] != s[j]
  }

  /** Every occurrence of y in s is preceded by an occurrence of x. */
  predicate AppearsBefore<T(==)>(s: seq<T>, x: T, y: T)
  {
    forall q :: 0 <= q < |s| && s[q] == y ==> x in s[..q]
  }

  /** array_unique: keeps the first occurrence of every string, in order. */
  function ArrayUnique(s: seq<string>): (r: seq<string>)
    ensures NoDuplicates(r)
    ensures forall x :: x in r <==> x in s
  {
    if s == [] then []
    else
      var d := ArrayUnique(s[..|s| - 1]);
      var x := s[|s| - 1];
      assert forall y :: y in s <==> y in s[..|s| - 1] || y == x;
      if x in d then d else d + [x]
  }

  /** The survivors of array_unique are in the order of their first
      occurrence in the input. */
  lemma {:induction false} ArrayUniqueKeepsFirstOccurrenceOrder(s: seq<string>)
    ensures forall i, j :: 0 <= i < j < |ArrayUnique(s)| ==>
      AppearsBefore(s, ArrayUnique(s)[i], ArrayUnique(s)[j])
  {
    if s != [] {
      var t := s[..|s| - 1];
      var x := s[|s| - 1];
      var d := ArrayUnique(t);
      ArrayUniqueKeepsFirstOccurrenceOrder(t);
      var r := ArrayUnique(s);
      forall i, j | 0 <= i < j < |r| ensures AppearsBefore(s, r[i], r[j]) {
        forall q | 0 <= q < |s| && s[q] == r[j] ensures r[i] in s[..q] {
          if q == |s| - 1 {
            assert s[..q] == t;
            assert r[i] in d;
          } else {
            assert s[..q] == t[..q];
            assert t[q] == s[q];
            assert t[q] in t;
            assert j < |d|;
            assert AppearsBefore(t, d[i], d[j]);
          }
        }
      }
    }
  }

  /** implode undoes explode. */
  lemma {:induction false} ImplodeExplode(s: string)
    ensures Implode(Explode(s)) == s
  {
    if s != [] {
      var rest := Explode(s[1..]);
      ImplodeExplode(s[1..]);
      if s[0] == ' ' {
        assert Explode(s) == [""] + rest;
        assert ([""] + rest)[1..] == rest;
        assert Implode(Explode(s)) == "" + " " + Implode(rest);
      } else {
        var first := [s[0]] + rest[0];
        assert Explode(s) == [first] + rest[1..];
        if |rest| == 1 {
          assert Implode(Explode(s)) == first;
        } else {
          assert ([first] + rest[1..])[1..] == rest[1..];
          assert Implode(Explode(s)) == first + " " + Implode(rest[1..]);
          assert Implode(rest) == rest[0] + " " + Implode(rest[1..]);
        }
        assert s == [s[0]] + s[1..];
      }
    }
  }

  /** A piece without spaces explodes to itself. */
  lemma {:induction false} ExplodeSingle(a: string)
    requires ' ' !in a
    ensures Explode(a) == [a]
  {
    if a != [] {
      assert ' ' !in a[1..];
      ExplodeSingle(a[1..]);
      assert a == [a[0]] + a[1..];
    }
  }

  /** Exploding a piece without spaces followed by a space splits off that piece. */
  lemma {:induction false} ExplodeCons(a: string, rest: string)
    requires ' ' !in a
    ensures Explode(a + " " + rest) == [a] + Explode(rest)
  {
    if a == [] {
      assert a + " " + rest == [' '] + rest;
      assert (a + " " + rest)[1..] == rest;
    } else {
      var s := a + " " + rest;
      assert s[0] == a[0];
      assert s[1..] == a[1..] + " " + rest;
      assert ' ' !in a[1..];
      ExplodeCons(a[1..], rest);
      assert a == [a[0]] + a[1..];
    }
  }

  /** explode undoes implode when the list is not empty and no piece holds a
      space (implode of an empty list is "", which explodes to [""]). */
  lemma {:induction false} ExplodeImplode(xs: seq<string>)
    requires |xs| >= 1
    requires forall k :: 0 <= k < |xs| ==> ' ' !in xs[k]
    ensures Explode(Implode(xs)) == xs
  {
    if |xs| == 1 {
      ExplodeSingle(xs[0]);
    } else {
      ExplodeImplode(xs[1..]);
      ExplodeCons(xs[0], Implode(xs[1..]));
      assert xs == [xs[0]] + xs[1..];
    }
  }

  /** Summing two lists one after the other is summing their concatenation. */
  lemma {:induction false} ArraySumAppend(a: seq<int>, b: seq<int>)
    ensures ArraySum(a + b) == ArraySum(a) + ArraySum(b)
  {
    if b != [] {
      var b' := b[..|b| - 1];
      assert (a + b)[..|a + b| - 1] == a + b';
      ArraySumAppend(a, b');
    } else {
      assert a + b == a;
    }
  }
}

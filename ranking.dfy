/** Ranking: `ranked_customers` builds one spending record per customer and
    sorts the list with `usort`, highest spend first. PHP's sort is stable
    (since PHP 8.0), so customers with equal spend keep their input order. */
module Ranking {
  import opened Entities
  import opened Spending

  /** The records the loop of `ranked_customers` builds, one per customer in
      input order. */
  function Spendings(customers: seq<Customer>, orderTotals: seq<OrderTotal>): seq<CustomerSpending>
  {
    seq(|customers|, i requires 0 <= i < |customers| =>
      CustomerSpending(customers[i].id, customers[i].firstname, customers[i].lastname,
                       Spent(customers[i].id, orderTotals)))
  }

  /** Highest spend first, as the comparator of `usort` at acme.php:221-223
      orders. */
  predicate SortedBySpend(s: seq<CustomerSpending>)
  {
    forall i, j :: 0 <= i < j < |s| ==> s[i].totalSpent >= s[j].totalSpent
  }

  /** The records of `s` whose spend is `v`, in their order in `s`. */
  function WithSpend(s: seq<CustomerSpending>, v: int): seq<CustomerSpending>
  {
    if s == [] then []
    else (if s[0].totalSpent == v then [s[0]] else []) + WithSpend(s[1..], v)
  }

  /** `r` puts the records of `s` in order of spend and keeps the input order
      among equal spends. */
  ghost predicate StableSortOf(r: seq<CustomerSpending>, s: seq<CustomerSpending>)
  {
    SortedBySpend(r) && forall v :: WithSpend(r, v) == WithSpend(s, v)
  }

  /** Insertion of one record into a list sorted by spend: after every
      record that spent at least as much. */
  function InsertBySpend(x: CustomerSpending, s: seq<CustomerSpending>): seq<CustomerSpending>
  {
    if s == [] then [x]
    else if s[0].totalSpent < x.totalSpent then [x] + s
    else [s[0]] + InsertBySpend(x, s[1..])
  }

  /** The stable sort, as an insertion sort that takes the records in input order. */
  function SortBySpend(s: seq<CustomerSpending>): seq<CustomerSpending>
  {
    if s == [] then [] else InsertBySpend(s[|s| - 1], SortBySpend(s[..|s| - 1]))
  }

  lemma {:induction false} WithSpendAppend(a: seq<CustomerSpending>, b: seq<CustomerSpending>, v: int)
    ensures WithSpend(a + b, v) == WithSpend(a, v) + WithSpend(b, v)
  {
    if a == [] {
      assert a + b == b;
    } else {
      var h: seq<CustomerSpending> := if a[0].totalSpent == v then [a[0]] else [];
      var ab := a + b;
      assert ab[0] == a[0];
      assert ab[1..] == a[1..] + b;
      assert WithSpend(ab, v) == h + WithSpend(a[1..] + b, v);
      WithSpendAppend(a[1..], b, v);
      assert WithSpend(a, v) == h + WithSpend(a[1..], v);
      assert h + (WithSpend(a[1..], v) + WithSpend(b, v)) == (h + WithSpend(a[1..], v)) + WithSpend(b, v);
    }
  }

  lemma {:induction false} WithSpendNone(s: seq<CustomerSpending>, v: int)
    requires forall k :: 0 <= k < |s| ==> s[k].totalSpent != v
    ensures WithSpend(s, v) == []
  {
    if s != [] {
      WithSpendNone(s[1..], v);
    }
  }

  lemma {:induction false} WithSpendMembers(s: seq<CustomerSpending>, v: int, x: CustomerSpending)
    ensures x in WithSpend(s, v) <==> x in s && x.totalSpent == v
  {
    if s != [] {
      WithSpendMembers(s[1..], v, x);
      assert s == [s[0]] + s[1..];
    }
  }

  lemma {:induction false} InsertBySpendMultiset(x: CustomerSpending, s: seq<CustomerSpending>)
    ensures multiset(InsertBySpend(x, s)) == multiset(s) + multiset{x}
  {
    if s != [] && s[0].totalSpent >= x.totalSpent {
      InsertBySpendMultiset(x, s[1..]);
      assert s == [s[0]] + s[1..];
    }
  }

  lemma {:induction false} InsertBySpendSorted(x: CustomerSpending, s: seq<CustomerSpending>)
    requires SortedBySpend(s)
    ensures SortedBySpend(InsertBySpend(x, s))
  {
    if s != [] && s[0].totalSpent >= x.totalSpent {
      var t := s[1..];
      InsertBySpendSorted(x, t);
      InsertBySpendMultiset(x, t);
      var r := InsertBySpend(x, s);
      assert r[1..] == InsertBySpend(x, t);
      forall j | 1 <= j < |r| ensures s[0].totalSpent >= r[j].totalSpent {
        assert r[j] in multiset(InsertBySpend(x, t));
        assert r[j] in t || r[j] == x;
      }
    }
  }

  lemma {:induction false} InsertBySpendGroups(x: CustomerSpending, s: seq<CustomerSpending>, v: int)
    requires SortedBySpend(s)
    ensures WithSpend(InsertBySpend(x, s), v) == WithSpend(s, v) + (if x.totalSpent == v then [x] else [])
  {
    if s == [] {
    } else if s[0].totalSpent < x.totalSpent {
      assert ([x] + s)[1..] == s;
      if x.totalSpent == v {
        WithSpendNone(s, v);
      }
    } else {
      var t := s[1..];
      var h: seq<CustomerSpending> := if s[0].totalSpent == v then [s[0]] else [];
      var tail: seq<CustomerSpending> := if x.totalSpent == v then [x] else [];
      SortedTail(s);
      InsertBySpendGroups(x, t, v);
      var r := InsertBySpend(x, s);
      assert r == [s[0]] + InsertBySpend(x, t);
      assert r[0] == s[0] && r[1..] == InsertBySpend(x, t);
      assert WithSpend(r, v) == h + (WithSpend(t, v) + tail);
      assert WithSpend(s, v) == h + WithSpend(t, v);
      assert h + (WithSpend(t, v) + tail) == (h + WithSpend(t, v)) + tail;
    }
  }

  /** The sort returns a list sorted by spend. */
  lemma {:induction false} SortBySpendSorted(s: seq<CustomerSpending>)
    ensures SortedBySpend(SortBySpend(s))
  {
    if s != [] {
      var init := s[..|s| - 1];
      SortBySpendSorted(init);
      InsertBySpendSorted(s[|s| - 1], SortBySpend(init));
    }
  }

  /** The sort returns a permutation of its input. */
  lemma {:induction false} SortBySpendPermutation(s: seq<CustomerSpending>)
    ensures multiset(SortBySpend(s)) == multiset(s)
  {
    if s != [] {
      var init := s[..|s| - 1];
      var x := s[|s| - 1];
      assert SortBySpend(s) == InsertBySpend(x, SortBySpend(init));
      SortBySpendPermutation(init);
      InsertBySpendMultiset(x, SortBySpend(init));
      assert s == init + [x];
      assert multiset(s) == multiset(init) + multiset{x};
    }
  }

  /** The sort keeps the input order among records of equal spend. */
  lemma {:induction false} SortBySpendStable(s: seq<CustomerSpending>, v: int)
    ensures WithSpend(SortBySpend(s), v) == WithSpend(s, v)
  {
    if s != [] {
      var init := s[..|s| - 1];
      var x := s[|s| - 1];
      var sortedInit := SortBySpend(init);
      assert SortBySpend(s) == InsertBySpend(x, sortedInit);
      SortBySpendStable(init, v);
      SortBySpendSorted(init);
      InsertBySpendGroups(x, sortedInit, v);
      WithSpendAppend(init, [x], v);
      assert WithSpend([x], v) == (if x.totalSpent == v then [x] else []) by {
        assert [x][1..] == [];
      }
      assert s == init + [x];
    }
  }

  /** The sort is a stable sort by spend of its input. */
  lemma SortBySpendIsStableSort(s: seq<CustomerSpending>)
    ensures StableSortOf(SortBySpend(s), s)
    ensures multiset(SortBySpend(s)) == multiset(s)
  {
    SortBySpendSorted(s);
    SortBySpendPermutation(s);
    forall v ensures WithSpend(SortBySpend(s), v) == WithSpend(s, v) {
      SortBySpendStable(s, v);
    }
  }

  /** A stable sort by spend has only one possible result: any list sorted by
      spend whose equal-spend records come in the order of `s` is
      `SortBySpend(s)`. So the insertion sort here gives what PHP's stable
      `usort` gives, whatever algorithm PHP uses. */
  lemma StableSortIsUnique(r: seq<CustomerSpending>, s: seq<CustomerSpending>)
    requires StableSortOf(r, s)
    ensures r == SortBySpend(s)
  {
    SortBySpendIsStableSort(s);
    SortedWithSameGroupsEqual(r, SortBySpend(s));
  }

  lemma {:induction false} SortedWithSameGroupsEqual(r1: seq<CustomerSpending>, r2: seq<CustomerSpending>)
    requires SortedBySpend(r1) && SortedBySpend(r2)
    requires forall v :: WithSpend(r1, v) == WithSpend(r2, v)
    ensures r1 == r2
    decreases |r1|
  {
    if r1 != [] && r2 != [] {
      SameGroupsSameHead(r1, r2);
      SameGroupsSameTail(r1, r2);
      SortedWithSameGroupsEqual(r1[1..], r2[1..]);
      assert r1 == [r1[0]] + r1[1..];
      assert r2 == [r2[0]] + r2[1..];
    } else if r1 != [] {
      WithSpendMembers(r1, r1[0].totalSpent, r1[0]);
      assert false;
    } else if r2 != [] {
      WithSpendMembers(r2, r2[0].totalSpent, r2[0]);
      assert false;
    }
  }

  /** Two lists sorted by spend with the same groups start with the same
      record: both start with the first record of the highest spend. */
  lemma SameGroupsSameHead(r1: seq<CustomerSpending>, r2: seq<CustomerSpending>)
    requires r1 != [] && r2 != []
    requires SortedBySpend(r1) && SortedBySpend(r2)
    requires forall v :: WithSpend(r1, v) == WithSpend(r2, v)
    ensures r1[0] == r2[0]
  {
    var m1, m2 := r1[0].totalSpent, r2[0].totalSpent;
    WithSpendMembers(r2, m1, r1[0]);
    WithSpendMembers(r1, m2, r2[0]);
    assert WithSpend(r1, m1) == WithSpend(r2, m1);
    assert WithSpend(r1, m2) == WithSpend(r2, m2);
    assert m1 == m2;
    assert WithSpend(r1, m1)[0] == r1[0];
    assert WithSpend(r2, m1)[0] == r2[0];
  }

  lemma SameGroupsSameTail(r1: seq<CustomerSpending>, r2: seq<CustomerSpending>)
    requires r1 != [] && r2 != [] && r1[0] == r2[0]
    requires forall v :: WithSpend(r1, v) == WithSpend(r2, v)
    ensures forall v :: WithSpend(r1[1..], v) == WithSpend(r2[1..], v)
  {
    forall v ensures WithSpend(r1[1..], v) == WithSpend(r2[1..], v) {
      var h: seq<CustomerSpending> := if r1[0].totalSpent == v then [r1[0]] else [];
      assert WithSpend(r1, v) == h + WithSpend(r1[1..], v);
      assert WithSpend(r2, v) == h + WithSpend(r2[1..], v);
      assert (h + WithSpend(r1[1..], v))[|h|..] == WithSpend(r1[1..], v);
      assert (h + WithSpend(r2[1..], v))[|h|..] == WithSpend(r2[1..], v);
    }
  }

  /** The first record with spend `v` is the first of its group. */
  lemma {:induction false} WithSpendHead(s: seq<CustomerSpending>, v: int)
    requires WithSpend(s, v) != []
    ensures exists k :: 0 <= k < |s| && s[k] == WithSpend(s, v)[0] && s[k].totalSpent == v &&
                        forall j :: 0 <= j < k ==> s[j].totalSpent != v
  {
    if s[0].totalSpent != v {
      WithSpendHead(s[1..], v);
      var k :| 0 <= k < |s[1..]| && s[1..][k] == WithSpend(s[1..], v)[0] && s[1..][k].totalSpent == v &&
               forall j :: 0 <= j < k ==> s[1..][j].totalSpent != v;
      assert s[k + 1] == s[1..][k];
      forall j | 0 <= j < k + 1 ensures s[j].totalSpent != v {
        if j > 0 {
          assert s[j] == s[1..][j - 1];
        }
      }
    } else {
      assert s[0] == WithSpend(s, v)[0];
    }
  }

  /** The top of the ranking is the first customer, in input order, among
      those who spent the most. */
  lemma RankingHead(s: seq<CustomerSpending>)
    requires s != []
    ensures |SortBySpend(s)| == |s|
    ensures forall j :: 0 <= j < |s| ==> s[j].totalSpent <= SortBySpend(s)[0].totalSpent
    ensures exists k :: 0 <= k < |s| && SortBySpend(s)[0] == s[k] &&
                        forall j :: 0 <= j < k ==> s[j].totalSpent < s[k].totalSpent
  {
    var r := SortBySpend(s);
    SortBySpendIsStableSort(s);
    assert |r| == |s| by {
      assert |multiset(r)| == |multiset(s)|;
    }
    var top := r[0];
    forall j | 0 <= j < |s| ensures s[j].totalSpent <= top.totalSpent {
      assert s[j] in multiset(s);
      var k :| 0 <= k < |r| && r[k] == s[j];
    }
    var v := top.totalSpent;
    assert WithSpend(r, v)[0] == top;
    WithSpendHead(s, v);
  }

  /** What `InsertBySpend` gives when the insertion point is known. */
  lemma {:induction false} InsertBySpendAt(x: CustomerSpending, s: seq<CustomerSpending>, j: nat)
    requires j <= |s|
    requires forall k :: 0 <= k < j ==> s[k].totalSpent >= x.totalSpent
    requires forall k :: j <= k < |s| ==> s[k].totalSpent < x.totalSpent
    ensures InsertBySpend(x, s) == s[..j] + [x] + s[j..]
  {
    if j == 0 {
      assert s[..0] == [] && s[0..] == s;
    } else {
      InsertBySpendAt(x, s[1..], j - 1);
      assert s[1..][..j - 1] == s[1..j];
      assert s[1..][j - 1..] == s[j..];
      assert s[..j] == [s[0]] + s[1..j];
    }
  }

  /** One step of the sort: insert `a[i]` into the sorted prefix `a[..i]`,
      shifting the records that spent less one place to the right. */
  method InsertIntoPrefix(a: array<CustomerSpending>, i: nat)
    requires i < a.Length
    requires SortedBySpend(a[..i])
    modifies a
    ensures a[..i + 1] == InsertBySpend(old(a[i]), old(a[..i]))
    ensures forall k :: i < k < a.Length ==> a[k] == old(a[k])
  {
    ghost var sorted := a[..i];
    var x := a[i];
    var j := i;
    while j > 0 && a[j - 1].totalSpent < x.totalSpent
      invariant 0 <= j <= i
      invariant forall k :: 0 <= k < j ==> a[k] == sorted[k]
      invariant forall k :: j < k <= i ==> a[k] == sorted[k - 1]
      invariant forall k :: j <= k < i ==> sorted[k].totalSpent < x.totalSpent
      invariant forall k :: i < k < a.Length ==> a[k] == old(a[k])
    {
      a[j] := a[j - 1];
      j := j - 1;
    }
    a[j] := x;
    if j > 0 {
      SortedBoundBefore(sorted, j, x.totalSpent);
    }
    InsertionStepResult(a[..], sorted, x, j);
  }

  lemma SortedBoundBefore(s: seq<CustomerSpending>, j: nat, v: int)
    requires SortedBySpend(s)
    requires 0 < j <= |s| && s[j - 1].totalSpent >= v
    ensures forall k :: 0 <= k < j ==> s[k].totalSpent >= v
  {
  }

  lemma SortedTail(s: seq<CustomerSpending>)
    requires s != [] && SortedBySpend(s)
    ensures SortedBySpend(s[1..])
  {
    forall i, j | 0 <= i < j < |s[1..]| ensures s[1..][i].totalSpent >= s[1..][j].totalSpent {
      assert s[1..][i] == s[i + 1] && s[1..][j] == s[j + 1];
    }
  }

  /** The array after one insertion step, as a sequence: the prefix that
      spent at least as much, then the inserted record, then the shifted
      records that spent less. */
  lemma InsertionStepResult(b: seq<CustomerSpending>, sorted: seq<CustomerSpending>, x: CustomerSpending, j: nat)
    requires j <= |sorted| < |b|
    requires forall k :: 0 <= k < j ==> b[k] == sorted[k]
    requires b[j] == x
    requires forall k :: j < k <= |sorted| ==> b[k] == sorted[k - 1]
    requires forall k :: 0 <= k < j ==> sorted[k].totalSpent >= x.totalSpent
    requires forall k :: j <= k < |sorted| ==> sorted[k].totalSpent < x.totalSpent
    ensures b[..|sorted| + 1] == InsertBySpend(x, sorted)
  {
    InsertBySpendAt(x, sorted, j);
    var w := sorted[..j] + [x] + sorted[j..];
    assert |w| == |sorted| + 1;
    forall k | 0 <= k <= |sorted| ensures b[k] == w[k] {
      if k < j {
        assert w[k] == sorted[..j][k];
      } else if k > j {
        assert w[k] == sorted[j..][k - j - 1];
      }
    }
    assert b[..|sorted| + 1] == w;
  }

  /** usort: a stable insertion sort of the array in place. */
  method SortInPlace(a: array<CustomerSpending>)
    modifies a
    ensures a[..] == SortBySpend(old(a[..]))
  {
    ghost var orig := a[..];
    for i := 0 to a.Length
      invariant a[..i] == SortBySpend(orig[..i])
      invariant forall k :: i <= k < a.Length ==> a[k] == orig[k]
    {
      SortBySpendSorted(orig[..i]);
      assert a[i] == orig[i];
      InsertIntoPrefix(a, i);
      assert orig[..i + 1] == orig[..i] + [orig[i]];
      assert orig[..i + 1][..i] == orig[..i];
    }
    assert a[..a.Length] == a[..];
    assert orig[..a.Length] == orig;
  }

  /** `ranked_customers`: one record per customer with their spend, sorted
      by spend with ties in customer order. */
  method RankedCustomers(customers: seq<Customer>, orderTotals: seq<OrderTotal>)
    returns (r: seq<CustomerSpending>)
    ensures r == SortBySpend(Spendings(customers, orderTotals))
    ensures StableSortOf(r, Spendings(customers, orderTotals))
    ensures multiset(r) == multiset(Spendings(customers, orderTotals))
    ensures |r| == |customers|
    ensures forall i :: 0 <= i < |customers| ==>
      CustomerSpending(customers[i].id, customers[i].firstname, customers[i].lastname,
                       Spent(customers[i].id, orderTotals)) in r
  {
    var result: seq<CustomerSpending> := [];
    for i := 0 to |customers|
      invariant result == Spendings(customers[..i], orderTotals)
    {
      var c := customers[i];
      var total := TotalSpent(c, orderTotals);
      result := result + [CustomerSpending(c.id, c.firstname, c.lastname, total)];
    }
    assert customers[..|customers|] == customers;
    var a := new CustomerSpending[|result|](k requires 0 <= k < |result| => result[k]);
    assert a[..] == result;
    SortInPlace(a);
    r := a[..];
    RankingOfSpendings(customers, orderTotals);
  }

  /** The ranking of the customers' records is a stable sort of them, has
      one entry per customer and holds every customer's record. */
  lemma RankingOfSpendings(customers: seq<Customer>, orderTotals: seq<OrderTotal>)
    ensures StableSortOf(SortBySpend(Spendings(customers, orderTotals)), Spendings(customers, orderTotals))
    ensures multiset(SortBySpend(Spendings(customers, orderTotals))) == multiset(Spendings(customers, orderTotals))
    ensures |SortBySpend(Spendings(customers, orderTotals))| == |customers|
    ensures forall i :: 0 <= i < |customers| ==>
      CustomerSpending(customers[i].id, customers[i].firstname, customers[i].lastname,
                       Spent(customers[i].id, orderTotals)) in SortBySpend(Spendings(customers, orderTotals))
  {
    var s := Spendings(customers, orderTotals);
    var r := SortBySpend(s);
    SortBySpendIsStableSort(s);
    assert |r| == |s| by {
      assert |multiset(r)| == |multiset(s)|;
    }
    forall i | 0 <= i < |customers|
      ensures CustomerSpending(customers[i].id, customers[i].firstname, customers[i].lastname,
                               Spent(customers[i].id, orderTotals)) in r
    {
      assert s[i] in multiset(s);
    }
  }
}

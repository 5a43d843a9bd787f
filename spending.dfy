/** Customer spend: `OrderTotal::belongsToCustomer` and `Customer::totalSpent`. */
module Spending {
  import opened Builtins
  import opened Entities

  /** `OrderTotal::belongsToCustomer`: strict comparison of the order's
      customer id. */
  predicate BelongsToCustomer(t: OrderTotal, id: string)
  {
    t.order.customer == id
  }

  /** The totals the loop of `totalSpent` collects into `$totals`. */
  function CustomerTotals(orderTotals: seq<OrderTotal>, id: string): seq<int>
  {
    if orderTotals == [] then []
    else
      var last := orderTotals[|orderTotals| - 1];
      CustomerTotals(orderTotals[..|orderTotals| - 1], id) +
      (if BelongsToCustomer(last, id) then [last.total] else [])
  }

  /** What `totalSpent` returns: array_sum of those totals. */
  function Spent(id: string, orderTotals: seq<OrderTotal>): int
  {
    ArraySum(CustomerTotals(orderTotals, id))
  }

  /** The sum of every order total. */
  function GrandTotal(orderTotals: seq<OrderTotal>): int
  {
    if orderTotals == [] then 0
    else GrandTotal(orderTotals[..|orderTotals| - 1]) + orderTotals[|orderTotals| - 1].total
  }

  /** The spend of every customer id in `ids`, added up. */
  function SpentByAll(ids: seq<string>, orderTotals: seq<OrderTotal>): int
  {
    if ids == [] then 0 else Spent(ids[0], orderTotals) + SpentByAll(ids[1..], orderTotals)
  }

  /** One more order total adds its total to its own customer's spend and
      nothing to anyone else's. */
  lemma SpentStep(id: string, orderTotals: seq<OrderTotal>, t: OrderTotal)
    ensures Spent(id, orderTotals + [t]) ==
      Spent(id, orderTotals) + (if BelongsToCustomer(t, id) then t.total else 0)
  {
    var ts := orderTotals + [t];
    assert ts[..|ts| - 1] == orderTotals;
    var tail: seq<int> := if BelongsToCustomer(t, id) then [t.total] else [];
    ArraySumAppend(CustomerTotals(orderTotals, id), tail);
    assert ArraySum(tail) == (if BelongsToCustomer(t, id) then t.total else 0) by {
      if tail != [] {
        assert tail[..0] == [];
      }
    }
  }

  /** A customer without orders has spent 0. */
  lemma {:induction false} SpentWithoutOrders(id: string, orderTotals: seq<OrderTotal>)
    requires forall k :: 0 <= k < |orderTotals| ==> !BelongsToCustomer(orderTotals[k], id)
    ensures Spent(id, orderTotals) == 0
  {
    if orderTotals != [] {
      var init := orderTotals[..|orderTotals| - 1];
      SpentWithoutOrders(id, init);
      SpentStep(id, init, orderTotals[|orderTotals| - 1]);
      assert init + [orderTotals[|orderTotals| - 1]] == orderTotals;
    }
  }

  /** With non-negative order totals, every customer has spent at least 0. */
  lemma {:induction false} SpentNonNegative(id: string, orderTotals: seq<OrderTotal>)
    requires forall k :: 0 <= k < |orderTotals| ==> orderTotals[k].total >= 0
    ensures Spent(id, orderTotals) >= 0
  {
    if orderTotals != [] {
      var init := orderTotals[..|orderTotals| - 1];
      SpentNonNegative(id, init);
      SpentStep(id, init, orderTotals[|orderTotals| - 1]);
      assert init + [orderTotals[|orderTotals| - 1]] == orderTotals;
    }
  }

  /** One more order total adds its total to the spends of distinct
      customer ids exactly once, and only when its order's customer is one of
      them: the strict comparison lets no total count toward two ids. */
  lemma {:induction false} SpentByAllStep(ids: seq<string>, orderTotals: seq<OrderTotal>, t: OrderTotal)
    requires NoDuplicates(ids)
    ensures SpentByAll(ids, orderTotals + [t]) ==
      SpentByAll(ids, orderTotals) + (if t.order.customer in ids then t.total else 0)
  {
    if ids != [] {
      assert NoDuplicates(ids[1..]) by {
        forall i, j | 0 <= i < j < |ids[1..]| ensures ids[1..][i] != ids[1..][j] {
          assert ids[1..][i] == ids[i + 1] && ids[1..][j] == ids[j + 1];
        }
      }
      SpentByAllStep(ids[1..], orderTotals, t);
      SpentStep(ids[0], orderTotals, t);
      assert ids[0] !in ids[1..] by {
        forall k | 0 <= k < |ids[1..]| ensures ids[1..][k] != ids[0] {
          assert ids[1..][k] == ids[k + 1];
        }
      }
      assert t.order.customer in ids <==> t.order.customer == ids[0] || t.order.customer in ids[1..] by {
        assert ids == [ids[0]] + ids[1..];
      }
    }
  }

  /** Spend is conserved: when the customer ids are distinct and every order
      belongs to one of them, their spends add up to the sum of all order
      totals. */
  lemma {:induction false} SpendingConserved(ids: seq<string>, orderTotals: seq<OrderTotal>)
    requires NoDuplicates(ids)
    requires forall k :: 0 <= k < |orderTotals| ==> orderTotals[k].order.customer in ids
    ensures SpentByAll(ids, orderTotals) == GrandTotal(orderTotals)
  {
    if orderTotals == [] {
      SpentByAllEmpty(ids);
    } else {
      var init := orderTotals[..|orderTotals| - 1];
      var t := orderTotals[|orderTotals| - 1];
      SpendingConserved(ids, init);
      SpentByAllStep(ids, init, t);
      assert init + [t] == orderTotals;
    }
  }

  lemma {:induction false} SpentByAllEmpty(ids: seq<string>)
    ensures SpentByAll(ids, []) == 0
  {
    if ids != [] {
      SpentByAllEmpty(ids[1..]);
    }
  }

  /** `Customer::totalSpent`. */
  method TotalSpent(customer: Customer, orderTotals: seq<OrderTotal>) returns (s: int)
    ensures s == Spent(customer.id, orderTotals)
    ensures (forall k :: 0 <= k < |orderTotals| ==> !BelongsToCustomer(orderTotals[k], customer.id)) ==> s == 0
  {
    var totals: seq<int> := [];
    for i := 0 to |orderTotals|
      invariant totals == CustomerTotals(orderTotals[..i], customer.id)
    {
      assert orderTotals[..i + 1][..i] == orderTotals[..i];
      if BelongsToCustomer(orderTotals[i], customer.id) {
        totals := totals + [orderTotals[i].total];
      }
    }
    assert orderTotals[..|orderTotals|] == orderTotals;
    s := ArraySum(totals);
    if forall k :: 0 <= k < |orderTotals| ==> !BelongsToCustomer(orderTotals[k], customer.id) {
      SpentWithoutOrders(customer.id, orderTotals);
    }
  }
}

/** Order cost: `Order::cost` and `total_order_cost`. An order's product list
    is exploded on single spaces and every token is priced with the first
    product carrying that id; a token no product carries adds nothing. */
module OrderCosts {
  import opened Builtins
  import opened Entities

  datatype Option<T> = None | Some(value: T)

  /** The index of the first product whose id is `id`, as the inner loop of
      `Order::cost` finds it before its `break`. */
  function FindProduct(products: seq<Product>, id: string): (r: Option<nat>)
    ensures r.Some? ==> r.value < |products| && products[r.value].id == id
    ensures r.Some? ==> forall j :: 0 <= j < r.value ==> products[j].id != id
    ensures r.None? <==> forall j :: 0 <= j < |products| ==> products[j].id != id
  {
    if products == [] then None
    else if products[0].id == id then Some(0)
    else
      match FindProduct(products[1..], id)
      case None => None
      case Some(k) => Some(k + 1)
  }

  /** The costs `Order::cost` collects into `$costs` for a token list: one
      entry per matched token, in token order, and none for an unmatched one. */
  function MatchedCosts(ids: seq<string>, products: seq<Product>): seq<int>
  {
    if ids == [] then []
    else
      MatchedCosts(ids[..|ids| - 1], products) +
      match FindProduct(products, ids[|ids| - 1])
      case Some(k) => [products[k].cost]
      case None => []
  }

  /** The cost of an order: array_sum of the collected costs. */
  function Cost(order: Order, products: seq<Product>): int
  {
    ArraySum(MatchedCosts(Explode(order.products), products))
  }

  /** What one token is worth: the cost of the first product with that id,
      or 0 when there is none. */
  function TokenCost(products: seq<Product>, id: string): int
  {
    match FindProduct(products, id)
    case Some(k) => products[k].cost
    case None => 0
  }

  /** The reference definition: the worth of every token, one term per
      occurrence. */
  function TokensCost(ids: seq<string>, products: seq<Product>): int
  {
    if ids == [] then 0 else TokenCost(products, ids[0]) + TokensCost(ids[1..], products)
  }

  /** A token is worth the cost of the first product carrying its id. */
  lemma TokenCostIsFirstMatch(products: seq<Product>, id: string, k: nat)
    requires k < |products| && products[k].id == id
    requires forall j :: 0 <= j < k ==> products[j].id != id
    ensures TokenCost(products, id) == products[k].cost
  {
  }

  /** The worth of a concatenation of token lists is the sum of their worths. */
  lemma {:induction false} TokensCostAppend(a: seq<string>, b: seq<string>, products: seq<Product>)
    ensures TokensCost(a + b, products) == TokensCost(a, products) + TokensCost(b, products)
  {
    if a == [] {
      assert a + b == b;
    } else {
      assert (a + b)[0] == a[0];
      assert (a + b)[1..] == a[1..] + b;
      TokensCostAppend(a[1..], b, products);
    }
  }

  /** array_sum over the collected costs is the sum of the tokens' worths. */
  lemma {:induction false} MatchedCostsSum(ids: seq<string>, products: seq<Product>)
    ensures ArraySum(MatchedCosts(ids, products)) == TokensCost(ids, products)
  {
    if ids != [] {
      var init := ids[..|ids| - 1];
      var last := ids[|ids| - 1];
      MatchedCostsSum(init, products);
      var tail := match FindProduct(products, last)
        case Some(k) => [products[k].cost]
        case None => [];
      ArraySumAppend(MatchedCosts(init, products), tail);
      assert ArraySum(tail) == TokenCost(products, last) by {
        if tail != [] {
          assert tail[..0] == [];
        }
      }
      assert ids == init + [last];
      TokensCostAppend(init, [last], products);
    }
  }

  /** An order costs the sum, over the tokens of its exploded product list in
      order, of the cost of the first product carrying each token. */
  lemma CostIsSumOverTokens(order: Order, products: seq<Product>)
    ensures Cost(order, products) == TokensCost(Explode(order.products), products)
  {
    MatchedCostsSum(Explode(order.products), products);
  }

  /** For a product list written as ids joined by single spaces, the order
      costs the worth of exactly those ids. */
  lemma CostOfJoinedIds(order: Order, ids: seq<string>, products: seq<Product>)
    requires |ids| >= 1 && forall k :: 0 <= k < |ids| ==> ' ' !in ids[k]
    requires order.products == Implode(ids)
    ensures Cost(order, products) == TokensCost(ids, products)
  {
    ExplodeImplode(ids);
    CostIsSumOverTokens(order, products);
  }

  /** A token no product carries can be dropped without changing the cost. */
  lemma UnmatchedTokenAddsNothing(a: seq<string>, id: string, b: seq<string>, products: seq<Product>)
    requires forall j :: 0 <= j < |products| ==> products[j].id != id
    ensures TokensCost(a + [id] + b, products) == TokensCost(a + b, products)
  {
    TokensCostAppend(a + [id], b, products);
    TokensCostAppend(a, [id], products);
    TokensCostAppend(a, b, products);
  }

  /** With non-negative product costs, every order costs at least 0. */
  lemma CostNonNegative(order: Order, products: seq<Product>)
    requires forall j :: 0 <= j < |products| ==> products[j].cost >= 0
    ensures Cost(order, products) >= 0
  {
    MatchedCostsNonNegative(Explode(order.products), products);
  }

  lemma {:induction false} MatchedCostsNonNegative(ids: seq<string>, products: seq<Product>)
    requires forall j :: 0 <= j < |products| ==> products[j].cost >= 0
    ensures forall k :: 0 <= k < |MatchedCosts(ids, products)| ==> MatchedCosts(ids, products)[k] >= 0
  {
    if ids != [] {
      MatchedCostsNonNegative(ids[..|ids| - 1], products);
    }
  }

  /** An empty product list explodes to the single token "": it costs
      nothing unless some product has the empty id. */
  lemma EmptyProductListCost(order: Order, products: seq<Product>)
    requires order.products == ""
    ensures Cost(order, products) == TokenCost(products, "")
    ensures (forall j :: 0 <= j < |products| ==> products[j].id != "") ==> Cost(order, products) == 0
  {
    CostIsSumOverTokens(order, products);
  }

  /** The order of the fixture file, "1 0 1 0", is worth each of the
      products "1" and "0" twice, whatever the product list. */
  lemma RepeatedTokensCountPerOccurrence(order: Order, products: seq<Product>)
    requires order.products == "1 0 1 0"
    ensures Cost(order, products) == 2 * TokenCost(products, "0") + 2 * TokenCost(products, "1")
  {
    var ids := ["1", "0", "1", "0"];
    assert Implode(ids) == "1 0 1 0" by {
      assert Implode(ids[3..]) == "0";
      assert Implode(ids[2..]) == "1 0";
      assert Implode(ids[1..]) == "0 1 0";
    }
    CostOfJoinedIds(order, ids, products);
    assert TokensCost(ids, products) == 2 * TokenCost(products, "0") + 2 * TokenCost(products, "1") by {
      assert TokensCost(ids[3..], products) == TokenCost(products, "0");
      assert TokensCost(ids[2..], products) == TokenCost(products, "1") + TokenCost(products, "0");
    }
  }

  /** `Order::cost`: the nested loop with its `break`, then array_sum. */
  method ComputeCost(order: Order, products: seq<Product>) returns (total: int)
    ensures total == Cost(order, products)
    ensures total == TokensCost(Explode(order.products), products)
  {
    var costs: seq<int> := [];
    var productIds := Explode(order.products);
    for i := 0 to |productIds|
      invariant costs == MatchedCosts(productIds[..i], products)
    {
      var id := productIds[i];
      assert productIds[..i + 1][..i] == productIds[..i];
      var j := 0;
      while j < |products|
        invariant 0 <= j <= |products|
        invariant forall k :: 0 <= k < j ==> products[k].id != id
        invariant costs == MatchedCosts(productIds[..i], products)
      {
        if products[j].id == id {
          TokenCostIsFirstMatch(products, id, j);
          costs := costs + [products[j].cost];
          break;
        }
        j := j + 1;
      }
    }
    assert productIds[..|productIds|] == productIds;
    total := ArraySum(costs);
    CostIsSumOverTokens(order, products);
  }

  /** `total_order_cost`: one total per order, in order, carrying the order
      and its cost. */
  method TotalOrderCost(orders: seq<Order>, products: seq<Product>) returns (r: seq<OrderTotal>)
    ensures |r| == |orders|
    ensures forall i :: 0 <= i < |orders| ==> r[i] == OrderTotal(orders[i], Cost(orders[i], products))
  {
    r := [];
    for i := 0 to |orders|
      invariant |r| == i
      invariant forall j :: 0 <= j < i ==> r[j] == OrderTotal(orders[j], Cost(orders[j], products))
    {
      var total := ComputeCost(orders[i], products);
      r := r + [OrderTotal(orders[i], total)];
    }
  }
}

/** Product purchasers: `Order::hasProduct`, `Product::purchasedByCustomers`
    and `purchased_products_by_customer`. */
module Purchasers {
  import opened Builtins
  import opened Entities

  /** `Order::hasProduct`: `id` is one of the tokens of the exploded product
      list (in_array, taken here as plain string equality). Tokens never hold
      a space, and an empty list explodes to the single token "", so it has
      only the product with the empty id. */
  predicate HasProduct(order: Order, id: string): (r: bool)
    ensures r ==> ' ' !in id
    ensures order.products == "" ==> (r <==> id == "")
  {
    id in Explode(order.products)
  }

  /** The customers the loop of `purchasedByCustomers` collects into
      `$customers`: one per order that has the product, in order. */
  function MatchingCustomers(orders: seq<Order>, id: string): seq<string>
  {
    if orders == [] then []
    else
      var last := orders[|orders| - 1];
      MatchingCustomers(orders[..|orders| - 1], id) +
      (if HasProduct(last, id) then [last.customer] else [])
  }

  /** What `purchasedByCustomers` returns: array_unique of those customers. */
  function PurchasersOf(product: Product, orders: seq<Order>): seq<string>
  {
    ArrayUnique(MatchingCustomers(orders, product.id))
  }

  /** A customer is collected exactly when one of their orders has the product. */
  lemma {:induction false} MatchingCustomersMembers(orders: seq<Order>, id: string, c: string)
    ensures c in MatchingCustomers(orders, id) <==>
      exists k :: 0 <= k < |orders| && HasProduct(orders[k], id) && orders[k].customer == c
  {
    if orders != [] {
      var init := orders[..|orders| - 1];
      MatchingCustomersMembers(init, id, c);
      if c in MatchingCustomers(orders, id) {
        if c !in MatchingCustomers(init, id) {
          var k := |orders| - 1;
          assert HasProduct(orders[k], id) && orders[k].customer == c;
        } else {
          var k :| 0 <= k < |init| && HasProduct(init[k], id) && init[k].customer == c;
          assert orders[k] == init[k];
        }
      } else {
        forall k | 0 <= k < |orders| && HasProduct(orders[k], id)
          ensures orders[k].customer != c
        {
          if k < |init| {
            assert orders[k] == init[k];
          }
        }
      }
    }
  }

  /** `purchasedByCustomers` returns each customer who has an order holding
      the product, exactly once, in the order of their first such order. */
  lemma PurchasersCharacterised(product: Product, orders: seq<Order>)
    ensures NoDuplicates(PurchasersOf(product, orders))
    ensures forall c :: c in PurchasersOf(product, orders) <==>
      exists k :: 0 <= k < |orders| && HasProduct(orders[k], product.id) && orders[k].customer == c
    ensures forall i, j :: 0 <= i < j < |PurchasersOf(product, orders)| ==>
      AppearsBefore(MatchingCustomers(orders, product.id), PurchasersOf(product, orders)[i], PurchasersOf(product, orders)[j])
  {
    forall c
      ensures c in PurchasersOf(product, orders) <==>
        exists k :: 0 <= k < |orders| && HasProduct(orders[k], product.id) && orders[k].customer == c
    {
      MatchingCustomersMembers(orders, product.id, c);
    }
    ArrayUniqueKeepsFirstOccurrenceOrder(MatchingCustomers(orders, product.id));
  }

  /** For a product list written as ids joined by single spaces, an order
      has exactly those ids. */
  lemma HasProductOfJoinedIds(order: Order, ids: seq<string>, id: string)
    requires |ids| >= 1 && forall k :: 0 <= k < |ids| ==> ' ' !in ids[k]
    requires order.products == Implode(ids)
    ensures HasProduct(order, id) <==> id in ids
  {
    ExplodeImplode(ids);
  }

  /** The match is on whole tokens: an id with a space never matches, and
      the order "10 2" has product "10" but not its prefix "1". */
  lemma HasProductMatchesWholeTokens(order: Order, id: string)
    ensures ' ' in id ==> !HasProduct(order, id)
    ensures order.products == "10 2" ==> HasProduct(order, "10") && !HasProduct(order, "1")
  {
    if order.products == "10 2" {
      assert Implode(["10", "2"]) == "10 2";
      HasProductOfJoinedIds(order, ["10", "2"], "10");
      HasProductOfJoinedIds(order, ["10", "2"], "1");
    }
  }

  /** When no order's customer id holds a space and someone bought the
      product, exploding the joined list gives the purchasers back. */
  lemma JoinedPurchasersRoundTrip(product: Product, orders: seq<Order>)
    requires forall k :: 0 <= k < |orders| ==> ' ' !in orders[k].customer
    requires PurchasersOf(product, orders) != []
    ensures Explode(Implode(PurchasersOf(product, orders))) == PurchasersOf(product, orders)
  {
    var p := PurchasersOf(product, orders);
    forall k | 0 <= k < |p| ensures ' ' !in p[k] {
      MatchingCustomersMembers(orders, product.id, p[k]);
    }
    ExplodeImplode(p);
  }

  /** `Product::purchasedByCustomers`. */
  method PurchasedByCustomers(product: Product, orders: seq<Order>) returns (r: seq<string>)
    ensures r == PurchasersOf(product, orders)
    ensures NoDuplicates(r)
    ensures forall c :: c in r <==>
      exists k :: 0 <= k < |orders| && HasProduct(orders[k], product.id) && orders[k].customer == c
  {
    var customers: seq<string> := [];
    for i := 0 to |orders|
      invariant customers == MatchingCustomers(orders[..i], product.id)
    {
      assert orders[..i + 1][..i] == orders[..i];
      if HasProduct(orders[i], product.id) {
        customers := customers + [orders[i].customer];
      }
    }
    assert orders[..|orders|] == orders;
    r := ArrayUnique(customers);
    PurchasersCharacterised(product, orders);
  }

  /** `purchased_products_by_customer`: one entry per product, in product
      order, with the product's id and its purchasers joined by spaces. */
  method PurchasedProductsByCustomer(products: seq<Product>, orders: seq<Order>)
    returns (r: seq<PurchasedProduct>)
    ensures |r| == |products|
    ensures forall i :: 0 <= i < |products| ==>
      r[i] == PurchasedProduct(products[i].id, Implode(PurchasersOf(products[i], orders)))
  {
    r := [];
    for i := 0 to |products|
      invariant |r| == i
      invariant forall j :: 0 <= j < i ==>
        r[j] == PurchasedProduct(products[j].id, Implode(PurchasersOf(products[j], orders)))
    {
      var customers := PurchasedByCustomers(products[i], orders);
      r := r + [PurchasedProduct(products[i].id, Implode(customers))];
    }
  }
}

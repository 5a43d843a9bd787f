/** The row decoders: each turns a list of CSV rows (column name to text) into
    a list of records, one per row and in row order. A row that lacks a text
    column stops the whole list with an error, as PHP's TypeError does when a
    missing key reads as null and reaches a `string` parameter. */
module Decoders {
  import opened Entities

  type Row = map<string, string>

  datatype DecodeError = MissingField(field: string)

  datatype Result<T> = Ok(value: T) | Err(error: DecodeError)

  /** One product from one row of `to_products`: `id` and `name` are copied,
      and `cost` is the cast of the cost text. The cast never fails: a missing cost reads as null, which casts to 0, and
      the text-to-number cast is the parameter `castCost`. */
  function DecodeProduct(row: Row, castCost: string -> int): (r: Result<Product>)
    ensures r.Ok? <==> "id" in row && "name" in row
    ensures r.Ok? ==> r.value.id == row["id"] && r.value.name == row["name"]
    ensures r.Ok? ==> r.value.cost == (if "cost" in row then castCost(row["cost"]) else 0)
    ensures r.Err? ==> r.error == MissingField(if "id" !in row then "id" else "name")
  {
    if "id" !in row then Err(MissingField("id"))
    else if "name" !in row then Err(MissingField("name"))
    else Ok(Product(row["id"], row["name"], if "cost" in row then castCost(row["cost"]) else 0))
  }

  /** One order from one row of `to_orders`: its id, its customer's id and
      its product list are copied from the row. */
  function DecodeOrder(row: Row): (r: Result<Order>)
    ensures r.Ok? <==> "id" in row && "customer" in row && "products" in row
    ensures r.Ok? ==> r.value == Order(row["id"], row["customer"], row["products"])
    ensures r.Err? ==> r.error == MissingField(
      if "id" !in row then "id" else if "customer" !in row then "customer" else "products")
  {
    if "id" !in row then Err(MissingField("id"))
    else if "customer" !in row then Err(MissingField("customer"))
    else if "products" !in row then Err(MissingField("products"))
    else Ok(Order(row["id"], row["customer"], row["products"]))
  }

  /** One customer from one row of `to_customers`: the id and both names are
      copied from the row. */
  function DecodeCustomer(row: Row): (r: Result<Customer>)
    ensures r.Ok? <==> "id" in row && "firstname" in row && "lastname" in row
    ensures r.Ok? ==> r.value == Customer(row["id"], row["firstname"], row["lastname"])
    ensures r.Err? ==> r.error == MissingField(
      if "id" !in row then "id" else if "firstname" !in row then "firstname" else "lastname")
  {
    if "id" !in row then Err(MissingField("id"))
    else if "firstname" !in row then Err(MissingField("firstname"))
    else if "lastname" !in row then Err(MissingField("lastname"))
    else Ok(Customer(row["id"], row["firstname"], row["lastname"]))
  }

  /** to_products: one product per row, in row order, or the error of the
      first row that cannot be decoded. */
  method ToProducts(rows: seq<Row>, castCost: string -> int) returns (r: Result<seq<Product>>)
    ensures r.Ok? <==> forall i :: 0 <= i < |rows| ==> DecodeProduct(rows[i], castCost).Ok?
    ensures r.Ok? ==> |r.value| == |rows|
    ensures r.Ok? ==> forall i :: 0 <= i < |rows| ==> DecodeProduct(rows[i], castCost) == Ok(r.value[i])
    ensures r.Err? ==> exists k :: 0 <= k < |rows| && DecodeProduct(rows[k], castCost) == Err(r.error) &&
                                 forall i :: 0 <= i < k ==> DecodeProduct(rows[i], castCost).Ok?
  {
    var result: seq<Product> := [];
    for i := 0 to |rows|
      invariant |result| == i
      invariant forall j :: 0 <= j < i ==> DecodeProduct(rows[j], castCost) == Ok(result[j])
    {
      var d := DecodeProduct(rows[i], castCost);
      if d.Err? {
        return Err(d.error);
      }
      result := result + [d.value];
    }
    return Ok(result);
  }

  /** to_orders: one order per row, in row order, or the error of the first
      row that cannot be decoded. */
  method ToOrders(rows: seq<Row>) returns (r: Result<seq<Order>>)
    ensures r.Ok? <==> forall i :: 0 <= i < |rows| ==> DecodeOrder(rows[i]).Ok?
    ensures r.Ok? ==> |r.value| == |rows|
    ensures r.Ok? ==> forall i :: 0 <= i < |rows| ==> DecodeOrder(rows[i]) == Ok(r.value[i])
    ensures r.Err? ==> exists k :: 0 <= k < |rows| && DecodeOrder(rows[k]) == Err(r.error) &&
                                 forall i :: 0 <= i < k ==> DecodeOrder(rows[i]).Ok?
  {
    var result: seq<Order> := [];
    for i := 0 to |rows|
      invariant |result| == i
      invariant forall j :: 0 <= j < i ==> DecodeOrder(rows[j]) == Ok(result[j])
    {
      var d := DecodeOrder(rows[i]);
      if d.Err? {
        return Err(d.error);
      }
      result := result + [d.value];
    }
    return Ok(result);
  }

  /** to_customers: one customer per row, in row order, or the error of the
      first row that cannot be decoded. */
  method ToCustomers(rows: seq<Row>) returns (r: Result<seq<Customer>>)
    ensures r.Ok? <==> forall i :: 0 <= i < |rows| ==> DecodeCustomer(rows[i]).Ok?
    ensures r.Ok? ==> |r.value| == |rows|
    ensures r.Ok? ==> forall i :: 0 <= i < |rows| ==> DecodeCustomer(rows[i]) == Ok(r.value[i])
    ensures r.Err? ==> exists k :: 0 <= k < |rows| && DecodeCustomer(rows[k]) == Err(r.error) &&
                                 forall i :: 0 <= i < k ==> DecodeCustomer(rows[i]).Ok?
  {
    var result: seq<Customer> := [];
    for i := 0 to |rows|
      invariant |result| == i
      invariant forall j :: 0 <= j < i ==> DecodeCustomer(rows[j]) == Ok(result[j])
    {
      var d := DecodeCustomer(rows[i]);
      if d.Err? {
        return Err(d.error);
      }
      result := result + [d.value];
    }
    return Ok(result);
  }
}

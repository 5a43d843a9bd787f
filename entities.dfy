/** The engine's records. Every PHP record class is `readonly`, so each one is
    a value here: nothing can change a record after it is built. */
module Entities {

  /** A catalogue entry; `cost` is an exact amount (see README). */
  datatype Product = Product(id: string, name: string, cost: int)

  datatype Customer = Customer(id: string, firstname: string, lastname: string)

  /** `products` is the raw space-separated list of product ids. */
  datatype Order = Order(id: string, customer: string, products: string)

  /** An order together with what it costs. */
  datatype OrderTotal = OrderTotal(order: Order, total: int)

  /** A product id and the space-joined ids of the customers who bought it. */
  datatype PurchasedProduct = PurchasedProduct(id: string, customers: string)

  /** A customer with the sum of what their orders cost. */
  datatype CustomerSpending = CustomerSpending(id: string, firstname: string, lastname: string, totalSpent: int)
}

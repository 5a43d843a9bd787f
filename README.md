# Acme order reports: a verified model of the join-and-aggregate engine

The engine reads three record lists:
- products: id, name, cost;
- orders: id, customer, space-separated product ids;
- customers: id, first name, last name.

It derives three reports from them:
- **order cost**: for each order, the cost of its products;
- **purchased products**: for each product, the distinct customers who ordered it;
- **customer ranking**: for each customer, their total spend, sorted highest first.

This project models that engine (`acme.php`) in Dafny and proves what it computes.

The Dafny files follow the engine's parts:

- `builtins.dfy` (`Builtins`): the PHP functions the engine leans on. It has
  `explode(' ', …)` and `implode(" ", …)` with their two round trips,
  `array_sum`, and `array_unique` (distinct elements, in order of first
  occurrence).
- `entities.dfy` (`Entities`): the `readonly` record classes as datatypes
  (`Product`, `Customer`, `Order`, `OrderTotal`, `PurchasedProduct`, `CustomerSpending`).
- `decoders.dfy` (`Decoders`): `to_products`, `to_orders`, `to_customers`.
- `order_cost.dfy` (`OrderCosts`): `Order::cost` (a nested loop whose
  `break` stops at the first product with the token's id) and `total_order_cost`.
- `purchasers.dfy` (`Purchasers`): `Order::hasProduct`,
  `Product::purchasedByCustomers`, `purchased_products_by_customer`.
- `spending.dfy` (`Spending`): `OrderTotal::belongsToCustomer`, `Customer::totalSpent`.
- `ranking.dfy` (`Ranking`): `ranked_customers` and its stable `usort`,
  done here as an in-place insertion sort on an array.

Each PHP function that loops and appends to a local array is a Dafny
`method` with a loop. The method is proved equal to a specification
function, and lemmas state what that function means. The record classes
are immutable values. Every operation takes its input lists by value and
returns new lists, so no operation can change its inputs. Inside
`ranked_customers`, the sort changes only a fresh array of its own.

Costs are `int` and stand for exact amounts (see "Left out").

## Edge behaviour of the code

- The products field is split on a single space, not on any whitespace.
  Two spaces in a row give an empty token.
- An empty products field gives the single token `""`. So an order with an
  empty product list costs the cost of a product whose id is `""`, if there
  is one, and counts as having that product (`EmptyProductListCost`,
  `HasProduct`).
- A missing or non-numeric `cost` is not an error. A missing one reads as
  null, and `(float)null` is 0; the cast never fails.
- Only a missing text column fails, with a `TypeError` (modelled as
  `MissingField`), and it stops the whole list.

## Model

| member | source | states |
|---|---|---|
| `Builtins.Explode` | acme.php:61 | explode on a single space gives at least one piece, and no piece contains a space |
| `Builtins.ImplodeExplode` | acme.php:61 | joining the exploded pieces with single spaces gives back the original string |
| `Builtins.ExplodeImplode` | acme.php:201 | exploding a non-empty space-joined list of space-free strings gives back the list |
| `Builtins.Implode` | acme.php:201 | implode(" ") gives "" for no strings. Otherwise the result starts with the first string and is one character longer per neighbouring pair than the strings put together, one separator each |
| `Builtins.ArrayUnique` | acme.php:23 | array_unique's result has no duplicates and holds exactly the elements of its input |
| `Builtins.ArrayUniqueKeepsFirstOccurrenceOrder` | acme.php:23 | the survivors of array_unique keep the order of their first occurrences in the input |
| `Builtins.ArraySum` | acme.php:72 | array_sum (also used at acme.php:45) is 0 for an empty list; a sum of non-negative amounts is non-negative and at least each of its terms |
| `Builtins.ArraySumAppend` | acme.php:72 | array_sum of a concatenation is the sum of array_sum of the parts |
| `Decoders.DecodeProduct` | acme.php:140-144 | a row decodes to a product iff it has `id` and `name`. The fields are copied, and the cost is the cast of `cost` (0 when that column is missing). Otherwise the error names the first missing column |
| `Decoders.DecodeOrder` | acme.php:155-159 | a row decodes iff it has `id`, `customer` and `products`. The order carries exactly those values; otherwise the error names the first missing column |
| `Decoders.DecodeCustomer` | acme.php:170-174 | a row decodes iff it has `id`, `firstname` and `lastname`. The customer carries exactly those values; otherwise the error names the first missing column |
| `Decoders.ToProducts` | acme.php:135-148 | success iff every row decodes; then one product per row, in row order. On failure, the error of the first row that does not decode |
| `Decoders.ToOrders` | acme.php:150-163 | success iff every row decodes; then one order per row, in row order. On failure, the error of the first row that does not decode |
| `Decoders.ToCustomers` | acme.php:165-178 | success iff every row decodes; then one customer per row, in row order. On failure, the error of the first row that does not decode |
| `OrderCosts.FindProduct` | acme.php:64-69 | the lookup finds the first product whose id equals the token. It finds none iff no product has that id |
| `OrderCosts.TokenCostIsFirstMatch` | acme.php:64-69 | when several products share an id, a token is worth the cost of the first of them (the `break`) |
| `OrderCosts.CostIsSumOverTokens` | acme.php:57-73 | an order costs the sum, over the tokens of its exploded product list in order, of each token's first-match cost, with unmatched tokens worth 0 |
| `OrderCosts.TokensCostAppend` | acme.php:63-70 | token worths add up over concatenation, so a token listed twice is counted twice |
| `OrderCosts.UnmatchedTokenAddsNothing` | acme.php:64-69 | removing a token that no product carries leaves the cost unchanged |
| `OrderCosts.CostOfJoinedIds` | acme.php:61 | an order whose product list is ids joined by single spaces costs the worth of exactly those ids |
| `OrderCosts.CostNonNegative` | acme.php:57-73 | with non-negative product costs, every order costs at least 0 |
| `OrderCosts.EmptyProductListCost` | acme.php:61 | an empty product list costs the worth of the token `""`, which is 0 when no product has the empty id |
| `OrderCosts.RepeatedTokensCountPerOccurrence` | acme.php:312-320 | the fixture order "1 0 1 0" costs, over any product list, twice the worth of token "0" plus twice the worth of token "1" |
| `OrderCosts.ComputeCost` | acme.php:57-73 | the nested loop with `break`, followed by array_sum, computes the order's cost as defined above |
| `OrderCosts.TotalOrderCost` | acme.php:180-192 | one order total per order, in order; entry i carries order i and its cost |
| `Purchasers.HasProduct` | acme.php:75-80 | hasProduct looks the id up among the tokens of the exploded product list. So an id holding a space is never found, and an order with an empty product list has a product iff its id is `""` |
| `Purchasers.HasProductOfJoinedIds` | acme.php:75-80 | for a product list written as ids joined by single spaces, an order has a product iff its id is one of those ids |
| `Purchasers.HasProductMatchesWholeTokens` | acme.php:75-80 | matching is on whole tokens: an id containing a space never matches, and "10 2" has "10" but not "1" |
| `Purchasers.MatchingCustomersMembers` | acme.php:15-21 | the loop collects a customer iff one of that customer's orders has the product |
| `Purchasers.PurchasersCharacterised` | acme.php:13-24 | the purchasers have no duplicates and are exactly the customers of the orders that have the product, in first-encounter order |
| `Purchasers.JoinedPurchasersRoundTrip` | acme.php:201 | when no customer id contains a space and someone bought the product, exploding the joined purchaser list gives the purchasers back |
| `Purchasers.PurchasedByCustomers` | acme.php:13-24 | the method returns the purchasers: distinct, exactly the customers of the orders that have the product |
| `Purchasers.PurchasedProductsByCustomer` | acme.php:194-206 | one entry per product, in product order; entry i has product i's id and its purchasers joined by single spaces |
| `Spending.SpentByAllStep` | acme.php:90-93 | belongsToCustomer compares the order's customer id strictly. So for distinct customer ids, one more order total raises their combined spend by its total exactly once when its customer is one of them, and not at all otherwise |
| `Spending.SpentStep` | acme.php:39-43 | one more order total adds its total to the spend of its own customer (strict id comparison) and nothing to anyone else's |
| `Spending.SpentWithoutOrders` | acme.php:35-46 | a customer with no orders has spent 0 |
| `Spending.SpentNonNegative` | acme.php:35-46 | with non-negative order totals, every customer has spent at least 0 |
| `Spending.SpendingConserved` | acme.php:35-46 | with distinct customer ids that cover every order, the customers' spends add up to the sum of all order totals |
| `Spending.TotalSpent` | acme.php:35-46 | the loop and array_sum compute the customer's spend, and give 0 when no order total belongs to the customer |
| `Ranking.SortBySpendIsStableSort` | acme.php:221-223 | the sort gives a permutation of its input, non-increasing by spend, with equal spends in input order |
| `Ranking.StableSortIsUnique` | acme.php:221-223 | any list sorted by spend whose equal-spend records keep the input order equals the sort's result, so every stable `usort` agrees with it |
| `Ranking.RankingHead` | acme.php:379-383 | the top of the ranking has the highest spend, and is the first customer in input order with that spend |
| `Ranking.SortInPlace` | acme.php:221-223 | the in-place insertion sort leaves the array equal to the stable sort of its old contents |
| `Ranking.InsertIntoPrefix` | acme.php:221-223 | one insertion step puts the next record into the sorted prefix and leaves the rest of the array alone |
| `Ranking.RankingOfSpendings` | acme.php:212-223 | the sorted list of per-customer records is a stable sort of them and a permutation of them. It has one entry per customer and holds every customer's record with that customer's spend |
| `Ranking.RankedCustomers` | acme.php:208-226 | the ranking is the stable descending sort of one record per customer, with that customer's id, names and spend. It has one entry per customer and is a permutation of those records |

## Left out

- `csv_to_rows` (acme.php:114-133) reads a file with `fopen`/`fgetcsv` through a generator. It is I/O. The decoders take the rows it would yield as a list of maps from column name to text. A null cell (a row shorter than the header) counts as a missing column.
- The `task_*.php` scripts are left out. They read file paths from the environment, print CSV to standard output, and only call the core.
- `php/acme_tests.php` and the `test_*` functions (acme.php:228-389) are left out. They read fixture files that are not part of this model. Their expected values appear only as lemmas over symbolic inputs (`RepeatedTokensCountPerOccurrence`, `RankingHead`). Given the fixtures' row counts, the counts asserted at acme.php:234, 255, 276, 306, 338 and 373 follow from the one-output-per-input contracts.
- Floating point: costs and totals are exact integers. So array_sum's order sensitivity and rounding, the exact float literals of the tests, and the string-cast comparison at acme.php:317-320 are not modelled.
- `DecodeProduct`: PHP's lenient `(float)` cast of the cost text is the parameter `castCost`, not modelled itself. The warning PHP emits for a missing key is not modelled.
- `Purchasers.HasProduct`: `in_array` at acme.php:79 uses PHP's loose comparison, under which numeric strings compare as numbers ("1" == "01"). The model uses plain string equality, the same strict comparison as acme.php:65 and acme.php:92. PHP 8 also treats a numeric string with leading or trailing whitespace as a number, so `" 1" == "1"`. Hence an order listing "01" counts as having product "1" in PHP, but not in this model. The lemmas `HasProductOfJoinedIds` and `HasProductMatchesWholeTokens` inherit this. The clause of `HasProduct` and `HasProductMatchesWholeTokens` saying an id with a space never matches holds only under strict equality: PHP finds the id `" 1"` in the order "1".
- `Ranking.SortInPlace`: PHP's `usort` uses its own hybrid sort, not an insertion sort. `StableSortIsUnique` proves that every stable sort by the same comparator gives the same list, so the result is the same; the steps in between are not.
- The methods of the PHP record classes are free functions over the records here. The records carry no behaviour.
- `Purchasers.PurchasedByCustomers`: `array_unique` (acme.php:23) keeps the original array keys, so PHP returns an array with gaps in its keys. The model returns a plain sequence without those keys. Nothing is lost, since `implode` at acme.php:201 reads only the values, in order.

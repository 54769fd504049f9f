# employee-crud order backend, modelled in Dafny

This project models the domain layer of a Spring order-management backend. That layer has three parts:

- **Orders.** Clients place orders. Each order holds line items, one per product, each with a quantity. The order service creates orders, changes their status, adds, re-quantifies and removes single items, deletes orders together with their items, and lists them a page at a time. Listing re-reads the page's orders in one batch and keeps the page order.
- **Clients and products.** The client and product services keep emails and product names unique, ignoring case. A client cannot be deleted while an order references it. The client listing attaches per-client order counts from one grouped query.
- **Filters.** Sparse filter records are translated into predicates, both for the database (`SpecBuilder`, `OrderSpecs`, `EmployeeSpecs`) and in memory (`EmployeePredicateFactory`).

Around this sit the in-memory employee store, the sort parser, the employee comparator factory, and the global exception handler. The handler maps every exception to an HTTP status, a code and a message.

Layout, one module per source file, plus shared modules:

- `Wrappers` (Option, Result, Outcome).
- `Text` (ASCII case folding, substring, Java white space, `CASE_INSENSITIVE_ORDER`).
- `Errors` (the service exceptions and their messages).
- `Store` (the `Database` class with the `clients`, `products` and `orders` tables as maps, and its invariant).

State-changing service operations are methods on a `Database`. They keep `Valid()`: emails and names are unique ignoring case, every order's client is stored, and every order's items have distinct products and positive quantities. They state their whole new state and their error cases in the order the source checks them. Derived values, filters and listings are functions with lemmas about them.

The filter predicates are a small predicate tree `Pred<T>` that `Eval` evaluates row by row. SQL `LIKE` is modelled as a real matcher with `%` and `_`. The case-insensitive substring reading of `like` is proved for search values free of wildcard characters.

## Model

| member | source | states |
|---|---|---|
| Text.LowerStr | src/main/java/org/example/web/util/SpecBuilder.java:13 | lower-casing keeps the length and lower-cases each character in place |
| Text.CompareAntisymmetric | src/main/java/org/example/web/util/EmployeeComparatorFactory.java:25-27 | the case-insensitive order changes sign when its arguments are swapped |
| Text.CompareZeroIffEqualsIgnoreCase | src/main/java/org/example/web/util/EmployeeComparatorFactory.java:25-27 | the case-insensitive order reports 0 exactly for strings equal ignoring case |
| Text.CompareTransitive | src/main/java/org/example/web/util/EmployeeComparatorFactory.java:25-27 | the case-insensitive order is transitive |
| SpecBuilder.Like | src/main/java/org/example/web/util/SpecBuilder.java:10-14 | a null or blank value accepts every row |
| SpecBuilder.LikeAcceptsIff | src/main/java/org/example/web/util/SpecBuilder.java:10-14 | `like` keeps a row iff the value is blank or its lower-cased text occurs in the lower-cased column (values without wildcards) |
| SpecBuilder.ContainsPatternMatch | src/main/java/org/example/web/util/SpecBuilder.java:13 | the pattern `%v%` matches exactly the texts that contain v, when v has no wildcard |
| SpecBuilder.PercentMatchesAll | src/main/java/org/example/web/util/SpecBuilder.java:13 | a lone `%` matches every text, the empty one included |
| SpecBuilder.LiteralPrefixMatch | src/main/java/org/example/web/util/SpecBuilder.java:13 | a literal followed by `%` matches exactly the texts it prefixes |
| SpecBuilder.LeadingPercentMatch | src/main/java/org/example/web/util/SpecBuilder.java:13 | a leading `%` matches iff the rest of the pattern matches some suffix of the text |
| SpecBuilder.LowerKeepsNoWildcards | src/main/java/org/example/web/util/SpecBuilder.java:13 | lower-casing a value adds no wildcard character |
| SpecBuilder.Eq | src/main/java/org/example/web/util/SpecBuilder.java:16-20 | a null value accepts every row; otherwise a row is kept iff the column equals the value |
| SpecBuilder.Between | src/main/java/org/example/web/util/SpecBuilder.java:22-31 | both bounds give from ≤ x ≤ to, only from gives x ≥ from, only to gives x ≤ to, neither accepts all |
| SpecBuilder.SelectMembers | src/main/java/org/example/web/service/OrderService.java:129-130 | a query returns exactly the stored rows the predicate accepts |
| SpecBuilder.SelectDistinct | src/main/java/org/example/web/util/OrderSpecs.java:15 | filtering never returns a row twice |
| SpecBuilder.SelectAll | src/main/java/org/example/web/util/SpecBuilder.java:12 | a predicate that accepts every row returns the whole table, in order |
| OrderModel.ItemsTotal | src/main/java/org/example/web/model/Order.java:54-57 | itemsTotal is 0 for an order without items, and at least the item count when quantities are positive |
| OrderModel.FindItem | src/main/java/org/example/web/service/OrderService.java:194-195 | the lookup by (order, product) finds an item iff the order holds the product, and the item it finds has that product |
| OrderModel.SetQuantity | src/main/java/org/example/web/service/OrderService.java:203 | only the quantity of the item with that product changes; the products and the other quantities stay |
| OrderModel.ProductsOfCons | src/main/java/org/example/web/model/Order.java:50-52 | the products of an order are its first item's product plus those of the rest |
| OrderModel.HeadNotInTail | src/main/java/org/example/web/model/OrderProduct.java:35-36 | under the unique constraint the first item's product does not recur |
| OrderModel.ConsUnique | src/main/java/org/example/web/model/OrderProduct.java:35-36 | putting a new product in front of unique items keeps them unique |
| OrderModel.ItemsTotalAppend | src/main/java/org/example/web/model/Order.java:54-57 | adding an item adds its quantity to itemsTotal |
| OrderModel.ItemsTotalSetQuantity | src/main/java/org/example/web/model/Order.java:54-57 | changing an item's quantity changes itemsTotal by the difference |
| OrderModel.ItemsTotalRemove | src/main/java/org/example/web/model/Order.java:54-57 | removing an item subtracts its quantity from itemsTotal |
| OrderModel.UnchangedWithoutProduct | src/main/java/org/example/web/service/OrderService.java:212 | setting or removing a product the order does not hold changes nothing |
| OrderModel.SetSameQuantity | src/main/java/org/example/web/service/OrderService.java:197-201 | setting the quantity an item already has leaves the items as they are |
| OrderModel.AppendKeepsWellFormed | src/main/java/org/example/web/model/OrderProduct.java:35-36 | appending a product the order lacks keeps one item per product and adds exactly that product |
| OrderModel.SetQuantityKeepsWellFormed | src/main/java/org/example/web/model/OrderProduct.java:51-52 | a quantity change to a value ≥ 1 keeps the items well formed and the product set unchanged |
| OrderModel.RemoveItemMembers | src/main/java/org/example/web/service/OrderService.java:212 | after removal the items are exactly the old ones with another product |
| OrderModel.RemoveItemSpec | src/main/java/org/example/web/service/OrderService.java:212 | removal keeps the items well formed and takes out exactly that product |
| OrderModel.RemoveItemUnique | src/main/java/org/example/web/model/OrderProduct.java:35-36 | removal keeps the items unique by product |
| OrderModel.JoinRowsAtMostOne | src/main/java/org/example/web/model/OrderProduct.java:35-36 | under the unique constraint an order has at most one item per product, and exactly one iff it holds it |
| Errors.IdText | src/main/java/org/example/web/exception/NotFoundException.java:7-9 | an id's text is a non-empty string of digits |
| Errors.IdTextInjective | src/main/java/org/example/web/exception/NotFoundException.java:7-9 | distinct ids have distinct texts, so a message names one id |
| Errors.DigitCharInjective | src/main/java/org/example/web/exception/NotFoundException.java:8 | distinct digits are written differently |
| Store.CountOrders | src/main/java/org/example/web/repository/ClientRepository.java:31-32 | a client's order count is 0 iff no order references it |
| Store.AboveAll | src/main/java/org/example/web/model/Order.java:35-37 | some id lies above every id in use, so a fresh id always exists |
| OrderService.FirstRepeat | src/main/java/org/example/web/service/OrderService.java:235-240 | no repeat is reported iff the ids are pairwise distinct; a reported id is one of them |
| OrderService.FirstRepeatIsFirst | src/main/java/org/example/web/service/OrderService.java:235-240 | the reported id is the first one that repeats an earlier one: nothing repeats before it |
| OrderService.FirstRepeatExtend | src/main/java/org/example/web/service/OrderService.java:236-239 | a repeat found in a prefix stops the scan, whatever follows |
| OrderService.NoRepeatsCard | src/main/java/org/example/web/service/OrderService.java:64-66 | distinct ids make a set of the same size, so the size-mismatch warning of `create` cannot fire |
| OrderService.FindAllById | src/main/java/org/example/web/service/OrderService.java:243-244 | the batch lookup returns exactly the stored products among the ids |
| OrderService.FetchProducts | src/main/java/org/example/web/service/OrderService.java:232-253 | a repeated id gives DuplicateProductInOrder for the first repeat; else a missing id gives NotFound("Product") for some missing id; else the map holds exactly one entry per requested item |
| OrderService.BuildItems | src/main/java/org/example/web/service/OrderService.java:255-264 | one item per request line, with its product and quantity |
| OrderService.BuildItemsTotal | src/main/java/org/example/web/service/OrderService.java:255-264 | the built items' itemsTotal is the sum of the requested quantities |
| OrderService.BuildItemsWellFormed | src/main/java/org/example/web/service/OrderService.java:258-263 | distinct requested products with quantity ≥ 1 give well-formed items holding exactly those products |
| OrderService.GetOne | src/main/java/org/example/web/service/OrderService.java:104-115 | NotFound("Order") iff the id is absent; otherwise the stored order's client, status, createdAt, items and itemsTotal |
| OrderService.FetchClient | src/main/java/org/example/web/service/OrderService.java:225-227 | NotFound("Client") iff the client is absent, otherwise the stored client |
| OrderService.Create | src/main/java/org/example/web/service/OrderService.java:54-87 | errors in the source's order (client, then repeat, then missing product), with nothing stored; success stores one new order under an unused id, with the request's client, status or NEW, the built items and the clock reading, and reports itemsTotal = sum of quantities, the value a fresh read returns (see Left out) |
| OrderService.UpdateStatus | src/main/java/org/example/web/service/OrderService.java:89-102 | NotFound("Order") and no change for an absent id; equal status changes nothing; otherwise only that order's status changes |
| OrderService.Delete | src/main/java/org/example/web/service/OrderService.java:117-124 | NotFound("Order") and no change for an absent id; otherwise just that order is removed |
| OrderService.DeleteCascade | src/main/java/org/example/web/model/Order.java:50-51 | after removing an order, the item rows are the old ones minus exactly that order's |
| OrderService.AddProduct | src/main/java/org/example/web/service/OrderService.java:156-188 | existing pair gives DuplicateProductInOrder, then NotFound("Order"), then NotFound("Product"), each without change; success appends exactly one item and adds its quantity to itemsTotal, the value a fresh read returns (see Left out) |
| OrderService.ChangeProductQuantity | src/main/java/org/example/web/service/OrderService.java:190-207 | an absent pair gives NotFound("Order item (product)") without change; an equal quantity changes nothing; otherwise only that item's quantity changes and itemsTotal moves by the difference |
| OrderService.RemoveProduct | src/main/java/org/example/web/service/OrderService.java:209-219 | zero deleted rows give NotFound("Order item (product)") without change; otherwise exactly that item goes and itemsTotal drops by its quantity |
| OrderService.FindByIdIn | src/main/java/org/example/web/service/OrderService.java:141-144 | the detail batch holds exactly the stored orders among the page's ids |
| OrderService.Present | src/main/java/org/example/web/service/OrderService.java:146-148 | the kept ids are those the batch returned, and all of them when none vanished |
| OrderService.ProjectInPageOrder | src/main/java/org/example/web/service/OrderService.java:146-150 | the content is one response per kept id, in page order |
| OrderService.FindAll | src/main/java/org/example/web/service/OrderService.java:126-154 | a failed first query issues no detail fetch; an empty page returns an empty page without one; otherwise one fetch of the page's ids and the first query's total |
| OrderService.FindAllContent | src/main/java/org/example/web/service/OrderService.java:139-150 | every id of the page whose order is stored comes back once, in page order, with its current detail |
| OrderService.PresentInBatch | src/main/java/org/example/web/service/OrderService.java:141-148 | filtering by the batch keeps the same ids as filtering by the store |
| OrderSpecs.HasProduct | src/main/java/org/example/web/util/OrderSpecs.java:12-19 | null accepts every order; otherwise an order is kept iff one of its items has the product |
| OrderSpecs.Build | src/main/java/org/example/web/util/OrderSpecs.java:21-25 | an order is kept iff status matches (when given), createdAt lies in the inclusive range, and it holds the product (when given) |
| OrderSpecs.AllNullKeepsAll | src/main/java/org/example/web/util/OrderSpecs.java:21-25 | an all-null filter returns every order |
| OrderSpecs.StatusNameInjective | src/main/java/org/example/web/model/OrderStatus.java:9-15 | distinct statuses are stored under distinct names |
| OrderSpecs.StatusFilterKeeps | src/main/java/org/example/web/util/OrderSpecs.java:21-22 | a status filter keeps exactly the orders in that status |
| OrderSpecs.JoinOncePerOrder | src/main/java/org/example/web/util/OrderSpecs.java:15-17 | the join yields one row for each accepted order and none for the others |
| OrderSpecs.NoOrderTwice | src/main/java/org/example/web/util/OrderSpecs.java:15 | the filtered listing never holds an order twice |
| ClientService.UnstoredHasNoOrders | src/main/java/org/example/web/service/ClientService.java:47 | a client not yet stored has no orders, so a new client's count of 0 is its actual count |
| ClientService.Create | src/main/java/org/example/web/service/ClientService.java:39-48 | DuplicateEmail and no change when the email is taken ignoring case; otherwise one new client under an unused id, reported as the request's names, email and phone with 0 orders, which is its true order count |
| ClientService.GetOne | src/main/java/org/example/web/service/ClientService.java:50-56 | NotFound("Client") iff absent; otherwise the full response: the id, the stored client's names, email and phone, and the number of orders that reference it |
| ClientService.Update | src/main/java/org/example/web/service/ClientService.java:58-74 | NotFound without change; DuplicateEmail only when the email changes other than in case and is taken; otherwise the fields are replaced and the fresh count reported |
| ClientService.Delete | src/main/java/org/example/web/service/ClientService.java:76-86 | NotFound for an absent client; ClientInUse and no change while an order references it; otherwise just that client is removed |
| ClientService.SpecAccepts | src/main/java/org/example/web/service/ClientService.java:91-95 | a client is kept iff each of first name, last name, email and phone matches its value as a case-insensitive substring, blank values ignored |
| ClientService.GroupedCounts | src/main/java/org/example/web/repository/ClientRepository.java:23-29 | the grouped query returns a count for exactly the page's clients that have orders |
| ClientService.RowIds | src/main/java/org/example/web/service/ClientService.java:100 | the ids of the page's rows, in page order |
| ClientService.MapRows | src/main/java/org/example/web/service/ClientService.java:107-109 | one response per row, in page order, each with its count from the map |
| ClientService.FindAll | src/main/java/org/example/web/service/ClientService.java:88-113 | failure issues no count query; an empty page issues none; otherwise one count query for the page's ids; content in page order, each row the full response of its client with its true order count (0 when it has none); total copied |
| ProductService.Create | src/main/java/org/example/web/service/ProductService.java:36-47 | DuplicateProductName and no change when the name is taken ignoring case; otherwise one new product under an unused id, reported with the request's name, description and price |
| ProductService.GetOne | src/main/java/org/example/web/service/ProductService.java:49-54 | NotFound("Product") iff absent; otherwise the full response: the id and the stored product's name, description and price |
| ProductService.Update | src/main/java/org/example/web/service/ProductService.java:56-68 | NotFound without change; DuplicateProductName only when the name changes other than in case and another product holds it; otherwise the fields are replaced |
| ProductService.Delete | src/main/java/org/example/web/service/ProductService.java:70-77 | NotFound and no change for an absent product; otherwise just that product is removed, without a reference check |
| ProductService.SpecAccepts | src/main/java/org/example/web/service/ProductService.java:81-85 | a product is kept iff its name contains the value ignoring case (blank ignored) and its price lies within the present inclusive bounds |
| ProductService.List | src/main/java/org/example/web/service/ProductService.java:79-94 | one full response (id, name, description, price) per row, in page order, total kept; a failure passes through |
| EmployeeSpecs.Contains | src/main/java/org/example/web/util/EmployeeSpecs.java:12-14 | an absent term gives no specification, a present one always gives one |
| EmployeeSpecs.FirstNameContains | src/main/java/org/example/web/util/EmployeeSpecs.java:10-15 | no restriction iff the term is absent |
| EmployeeSpecs.LastNameContains | src/main/java/org/example/web/util/EmployeeSpecs.java:16-21 | no restriction iff the term is absent |
| EmployeeSpecs.HasRole | src/main/java/org/example/web/util/EmployeeSpecs.java:23-27 | no restriction iff the role is absent; otherwise exactly the employees with that role |
| EmployeeSpecs.RoleMatch | src/main/java/org/example/web/model/EmployeeRole.java:7 | two roles are stored under the same name iff they are the same role |
| EmployeeSpecs.FirstNameContainsIff | src/main/java/org/example/web/util/EmployeeSpecs.java:12-13 | a present term keeps an employee iff its lower-cased text occurs in the lower-cased first name |
| EmployeeSpecs.LastNameContainsIff | src/main/java/org/example/web/util/EmployeeSpecs.java:18-19 | the same on the last name |
| EmployeeSpecs.BlankTermStillApplied | src/main/java/org/example/web/util/EmployeeSpecs.java:12-13 | a blank term still filters: " " rejects "Ann", where SpecBuilder's `like` would accept |
| EmployeePredicateFactory.Build | src/main/java/org/example/web/util/EmployeePredicateFactory.java:9-20 | an employee is kept iff its first name equals the given one ignoring case (when given) and its role is the given one (when given); the sort has no effect |
| EmployeePredicateFactory.NameIsExactNotSubstring | src/main/java/org/example/web/util/EmployeePredicateFactory.java:11-14 | a first-name filter needs the whole name: "ann" rejects "Anna", "ANNA" accepts it |
| InMemoryEmployeeRepository.InMemoryEmployeeRepository.constructor | src/main/java/org/example/web/repository/InMemoryEmployeeRepository.java:21 | the store starts empty |
| InMemoryEmployeeRepository.InMemoryEmployeeRepository.Save | src/main/java/org/example/web/repository/InMemoryEmployeeRepository.java:24-30 | an existing id is kept and a missing one becomes an unused id; the employee is stored under it, replacing any old entry, and nothing else changes |
| InMemoryEmployeeRepository.InMemoryEmployeeRepository.FindById | src/main/java/org/example/web/repository/InMemoryEmployeeRepository.java:33-35 | present iff stored, and then the stored employee |
| InMemoryEmployeeRepository.InMemoryEmployeeRepository.FindAll | src/main/java/org/example/web/repository/InMemoryEmployeeRepository.java:38-40 | exactly the stored employees, one per entry |
| InMemoryEmployeeRepository.InMemoryEmployeeRepository.DeleteById | src/main/java/org/example/web/repository/InMemoryEmployeeRepository.java:43-48 | an absent id fails with NoSuchElement and nothing changes; otherwise only that entry is removed |
| InMemoryEmployeeRepository.InMemoryEmployeeRepository.ExistsByEmail | src/main/java/org/example/web/repository/InMemoryEmployeeRepository.java:51-55 | true iff a stored email equals the argument ignoring case |
| SortParser.Segments | src/main/java/org/example/web/util/SortParser.java:10 | cutting at commas always yields at least one piece |
| SortParser.SegmentsJoin | src/main/java/org/example/web/util/SortParser.java:10 | the pieces hold no comma and, joined by commas, give the text back |
| SortParser.FirstSegment | src/main/java/org/example/web/util/SortParser.java:10-11 | the first piece is the text before the first comma |
| SortParser.DropTrailingEmpty | src/main/java/org/example/web/util/SortParser.java:10 | dropping trailing empty pieces keeps a prefix that ends in a non-empty piece and keeps every non-empty piece |
| SortParser.Parse | src/main/java/org/example/web/util/SortParser.java:8-15 | an absent input gives an absent result; a successful parse always gives an order |
| SortParser.ParseFailsIffAllCommas | src/main/java/org/example/web/util/SortParser.java:10-11 | `str[0]` throws exactly for a non-empty text made only of commas |
| SortParser.ParseMeaning | src/main/java/org/example/web/util/SortParser.java:10-12 | on success the field is the text before the first comma, and the order is ascending unless a second piece exists and equals "desc" ignoring case |
| SortParser.AllCommasSegments | src/main/java/org/example/web/util/SortParser.java:10 | an all-comma text cuts into empty pieces only |
| SortParser.SomeSegmentNonEmpty | src/main/java/org/example/web/util/SortParser.java:10 | a text with a non-comma character has a non-empty piece |
| SortParser.AllEmptyDropped | src/main/java/org/example/web/util/SortParser.java:10 | pieces that are all empty are all dropped |
| SortParser.NoCommaOneSegment | src/main/java/org/example/web/util/SortParser.java:10 | a text without a comma is one piece |
| SortParser.SegmentsAfterHead | src/main/java/org/example/web/util/SortParser.java:10 | a comma-free head before a comma is the first piece |
| SortParser.ParseFieldAndDirection | src/main/java/org/example/web/util/SortParser.java:10-12 | "field,direction" is descending iff the direction is "desc" ignoring case |
| SortParser.ParseTrailingComma | src/main/java/org/example/web/util/SortParser.java:10-12 | "field," is ascending, because the trailing empty piece is dropped |
| SortParser.ParseIgnoresRest | src/main/java/org/example/web/util/SortParser.java:11-12 | pieces after the second are ignored |
| SortParser.TwoPiecesKept | src/main/java/org/example/web/util/SortParser.java:10 | a non-empty second piece survives the dropping of trailing empties |
| SortParser.ExampleTrailingComma | src/main/java/org/example/web/util/SortParser.java:10-12 | "name," parses to ascending by name |
| SortParser.ExampleDescendingAnyCase | src/main/java/org/example/web/util/SortParser.java:12 | "name,DESC" parses to descending by name |
| SortParser.DescInCapitals | src/main/java/org/example/web/util/SortParser.java:12 | "desc" equals "DESC" ignoring case |
| SortParser.ExampleExtraPieces | src/main/java/org/example/web/util/SortParser.java:11-12 | "email,desc,extra" parses to descending by email |
| SortParser.ExampleOnlyCommas | src/main/java/org/example/web/util/SortParser.java:10-11 | ",," makes the parse throw |
| EmployeeComparatorFactory.CompareIds | src/main/java/org/example/web/util/EmployeeComparatorFactory.java:16 | id comparison is negative, zero or positive as the first id is smaller, equal or larger |
| EmployeeComparatorFactory.KeyOf | src/main/java/org/example/web/util/EmployeeComparatorFactory.java:24-29 | "lastName", "firstName" and "email" select their field; every other name selects id order |
| EmployeeComparatorFactory.Build | src/main/java/org/example/web/util/EmployeeComparatorFactory.java:14-33 | no order gives ascending id order; otherwise the field's key, reversed iff not ascending |
| EmployeeComparatorFactory.CompareByAntisymmetric | src/main/java/org/example/web/util/EmployeeComparatorFactory.java:16-28 | each key's comparison changes sign when its arguments are swapped |
| EmployeeComparatorFactory.CompareByTransitive | src/main/java/org/example/web/util/EmployeeComparatorFactory.java:16-28 | each key's comparison is transitive |
| EmployeeComparatorFactory.DescendingNegates | src/main/java/org/example/web/util/EmployeeComparatorFactory.java:31 | descending order negates the ascending comparison, for every field |
| EmployeeComparatorFactory.FallsBackToId | src/main/java/org/example/web/util/EmployeeComparatorFactory.java:16-20 | no order, or an unknown field, orders by id, reversed when descending; only equal ids compare equal |
| EmployeeComparatorFactory.NamedFieldIgnoresCase | src/main/java/org/example/web/util/EmployeeComparatorFactory.java:25-27 | with a named field, in either direction, two employees compare equal iff that field's texts are equal ignoring case |
| EmployeeComparatorFactory.BuiltIsComparator | src/main/java/org/example/web/util/EmployeeComparatorFactory.java:14-33 | whatever is built changes sign when its arguments are swapped and is transitive |
| GlobalExceptionHandler.Respond | src/main/java/org/example/web/exception/GlobalExceptionHandler.java:22-41 | the body carries the chosen status value and reason phrase, the request path, the code and the message |
| GlobalExceptionHandler.Handle | src/main/java/org/example/web/exception/GlobalExceptionHandler.java:43-92 | every exception gets a response with the request path and status 400, 404, 409 or 500 |
| GlobalExceptionHandler.StatusAndCodeAgree | src/main/java/org/example/web/exception/GlobalExceptionHandler.java:31-39 | status, reason phrase and code always agree, and each code has one status |
| GlobalExceptionHandler.ConflictIff | src/main/java/org/example/web/exception/GlobalExceptionHandler.java:43-52 | a 409 is given exactly for the listed conflict exceptions, carrying the exception's message |
| GlobalExceptionHandler.ServiceErrorResponse | src/main/java/org/example/web/exception/GlobalExceptionHandler.java:43-57 | NotFound gives 404 and the duplicates give 409, both with the exception's message; ClientInUse and NoSuchElement fall to 500 "Unexpected server error" |
| GlobalExceptionHandler.ValidationMessageFirst | src/main/java/org/example/web/exception/GlobalExceptionHandler.java:59-66 | 400 VALIDATION_ERROR, with the first field error's field and message, or "Validation error" |
| GlobalExceptionHandler.ConstraintMessageFirst | src/main/java/org/example/web/exception/GlobalExceptionHandler.java:68-75 | 400 CONSTRAINT_VIOLATION, with the first violation's path and message, or "Constraint violation" |
| GlobalExceptionHandler.BadRequestMessageIff | src/main/java/org/example/web/exception/GlobalExceptionHandler.java:77-87 | 400 BAD_REQUEST, and the message differs from "Bad request" iff the body was unreadable and a cause is present |
| Text.IndexOfNonWhitespace | src/main/java/org/example/web/util/SpecBuilder.java:35-37 | the scan stops at the first non-white-space character, or at the end when there is none |
| Text.Enclose | src/main/java/org/example/web/exception/NotFoundException.java:8 | a message built around a value starts with its template prefix and holds the value right after it |
| SpecBuilder.IsBlank | src/main/java/org/example/web/util/SpecBuilder.java:35-37 | blank iff null or the scan for a non-white-space character reaches the end |
| OrderModel.CountProduct | src/main/java/org/example/web/service/OrderService.java:212 | the rows `deleteByOrderIdAndProductId` deletes: at most the number of items, and 0 iff the order does not hold the product |
| OrderModel.RemoveItem | src/main/java/org/example/web/service/OrderService.java:212 | exactly the counted rows go, and no remaining item holds the product |
| Errors.Message | src/main/java/org/example/web/exception/NotFoundException.java:7-9 | every message names its subject: a not-found message starts with the entity and contains the id, and the other exceptions' messages contain their id, email or name |
| Errors.NotFoundMessageNamesId | src/main/java/org/example/web/exception/NotFoundException.java:7-9 | two not-found messages for one entity are equal only for the same id |
| Store.EmailTaken | src/main/java/org/example/web/repository/ClientRepository.java:16 | `existsByEmailIgnoreCase` is true iff the case-folded email is among the stored clients' case-folded emails |
| Store.NameTaken | src/main/java/org/example/web/repository/ProductRepository.java:11 | `existsByNameIgnoreCase` is true iff the case-folded name is among the stored products' case-folded names |
| Store.NameTakenByOther | src/main/java/org/example/web/repository/ProductRepository.java:13 | `existsByNameIgnoreCaseAndIdNot` implies `existsByNameIgnoreCase`, differs from it only when the product itself has that name, and equals it for an unstored id |
| OrderService.HasItem | src/main/java/org/example/web/service/OrderService.java:160 | `existsByOrderIdAndProductId` is true iff the order is stored and counts at least one row for the product |
| ClientService.Spec | src/main/java/org/example/web/service/ClientService.java:91-95 | a filter with every field blank accepts every client |
| ProductService.Spec | src/main/java/org/example/web/service/ProductService.java:81-85 | an accepted product lies within every present price bound; with a blank name, exactly the products within the bounds are accepted |
| SortParser.Split | src/main/java/org/example/web/util/SortParser.java:10 | the pieces are a prefix of the comma cuts, hold no comma, and, when there is a comma, end in a non-empty piece |
| GlobalExceptionHandler.IsConflict | src/main/java/org/example/web/exception/GlobalExceptionHandler.java:43-49 | a service exception is on the conflict list iff it is neither a not-found exception nor ClientInUse |

## Left out

- Persistence: JPA sessions, flush, entity graphs and lazy loading are not modelled. Each repository becomes a lookup in a map of the `Database` class.
- `itemsTotal` is a `@Formula` that Hibernate fills in only when it loads an entity. The model computes it from the current items, which is what a fresh read returns. Inside the one transaction of a service call the source behaves differently:
  - `OrderService.Create`: `save` then `getOne` hands back the same managed instance, which was never loaded, so the source responds with a null `itemsTotal`. The model reports the sum of the requested quantities.
  - `OrderService.AddProduct`: `findById` loads the order with the old total, and `getOne` hands back that instance, so the source responds with the total from before the append. The model reports the old total plus the new quantity.
- Transactions, rollback and concurrent requests are not modelled, so neither is the check-then-act race in `addProduct` and the client and product uniqueness checks. The unique constraint on (order, product) is kept as a state invariant instead.
- Paging: the first query's page (ids, rows and total) is an input to the listing functions, and `Pageable` sorting is not modelled. `Page.empty` is modelled as an empty page with total 0, and `PageImpl`'s own adjustment of the total is not modelled.
- UUIDs become natural numbers. A fresh id is any id not in use, not a random one, and ids are rendered in decimal in messages.
- The clock becomes the `now` parameter of `OrderService.Create`. Logging, the MDC request id and the timestamp of `ApiError` are dropped.
- Case folding is ASCII-only (`Text.Lower`), with no locale. `OrderModel` orders store `OrderStatus` by constant name, which is what the status filter compares against.
- `SpecBuilder.LikeAcceptsIff`: the substring reading of `like` is proved only for search values without `%`, `_` or `\`. A value with wildcards is evaluated by the model's LIKE matcher, whose escape-character handling is not modelled.
- Prices are integers, and `BigDecimal` arithmetic and scale are not modelled; prices are only compared.
- `LocalDateTime`/`Instant` conversion of the createdAt bounds is not modelled; timestamps are integers.
- `ClientService.ToResponse`: the mapper's two-argument `toResponse` is not part of the shipped mapper source. It is modelled as reading the count from the map and defaulting to 0 when the map has no entry.
- The MapStruct mappers (`OrderMapper`, `ClientMapper`, `ProductMapper`, `EmployeeMapper`) are generated code and not part of this model. Responses are derived records.
- Null inputs are not modelled:
  - a null product list in `create`, which makes `fetchProducts` throw;
  - a null status in `updateStatus`, which the source stores as is;
  - null entity fields.
  Request validation (`@NotBlank`, `@Min(1)`, non-null ids) appears only as preconditions, such as quantity ≥ 1.
- Controllers, `OpenApiConfig`, `RequestFilter`, `EmployeeService`, `EmployeeController` and `DemoRunner` are not part of this model. They are HTTP wiring, documentation, a thread-local correlation id, a service that calls repository methods that do not exist, and start-up seeding.
- `EmployeeSpecs`: combining its specifications with `where`/`and` is not modelled. An absent specification is `None`.
- `OrderService.FetchProducts`: which missing product is reported depends on `HashSet` iteration order. The model says only that it is one of the requested ids that is missing.
- `OrderService.BuildItems`: the item set is modelled as a sequence in request order. The products are distinct at that point, so the set holds one item per request line.
- `InMemoryEmployeeRepository.InMemoryEmployeeRepository.Save`: the source mutates the caller's object when it assigns the id. The model returns the updated value instead, so aliasing is not captured.
- `InMemoryEmployeeRepository.InMemoryEmployeeRepository.FindAll`: the order of the values (`ConcurrentHashMap` iteration order) is not specified, and concurrent access is not modelled.
- `GlobalExceptionHandler.Handle`: only the exception kinds the handlers name are distinguished. Every other exception is `Unexpected`.
- Four test expectations disagree with the code. The model follows the code, except for the first:
  - The order-creation test (src/test/java/org/example/web/service/OrderServiceIT.java:84) expects `itemsTotal` 2 in the response, which the source leaves null (see the `itemsTotal` line above). The model reports 2, as the test does.
  - Updating to a null status is not rejected, since `updateStatus` has no such check.
  - Deleting a client in use answers 500, because `ClientInUseException` is not on the conflict list.
  - Deleting a product has no reference check and no "PRODUCT_IN_USE" code.
- `ProductService.Delete`: the service code does no reference check, and the model follows it. The design intent of rejecting the delete while an order item holds the product is not modelled. Neither is the database's foreign key from `order_products` to `products`, which would make the commit fail with a data-integrity conflict; the store invariant therefore does not require order items to refer to stored products.

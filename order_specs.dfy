/** `OrderSpecs`: the filter of the order listing. */
module OrderSpecs {
  import opened Wrappers
  import opened OrderModel
  import opened SpecBuilder

  /** `OrderFilter`; the status arrives as text and is compared with the
      stored constant name. */
  datatype OrderFilter = OrderFilter(status: Option<string>, from: Option<int>, to: Option<int>, productId: Option<ProductId>)

  function StatusColumn(o: Order): string { StatusName(o.status) }
  function CreatedAtColumn(o: Order): int { o.createdAt }
  function ProductsColumn(o: Order): set<ProductId> { ProductsOf(o.items) }

  /** `hasProduct`: an inner join on the items with `distinct`. */
  function HasProduct(productId: Option<ProductId>): (p: Pred<Order>)
    ensures productId.None? ==> forall o :: Eval(p, o)
    ensures productId.Some? ==>
      forall o :: Eval(p, o) <==> exists k :: 0 <= k < |o.items| && o.items[k].product == productId.value
  {
    if productId.None? then Conjunction else Related(ProductsColumn, productId.value)
  }

  /** `build`: status, then the createdAt range, then the product. */
  function Build(f: OrderFilter): (p: Pred<Order>)
    ensures forall o :: Eval(p, o) <==>
      && (f.status.None? || StatusName(o.status) == f.status.value)
      && (f.from.None? || f.from.value <= o.createdAt)
      && (f.to.None? || o.createdAt <= f.to.value)
      && (f.productId.None? || exists k :: 0 <= k < |o.items| && o.items[k].product == f.productId.value)
  {
    var status := Eq(StatusColumn, f.status);
    var range := Between(CreatedAtColumn, f.from, f.to);
    var product := HasProduct(f.productId);
    assert forall o :: Eval(status, o) <==> f.status.None? || StatusName(o.status) == f.status.value;
    assert forall o :: Eval(range, o) <==>
      (f.from.None? || f.from.value <= o.createdAt) && (f.to.None? || o.createdAt <= f.to.value);
    And(And(status, range), product)
  }

  /** An all-null filter keeps every order. */
  lemma AllNullKeepsAll(rows: seq<Order>)
    ensures Select(Build(OrderFilter(None, None, None, None)), rows) == rows
  {
    SelectAll(Build(OrderFilter(None, None, None, None)), rows);
  }

  lemma StatusNameInjective(a: OrderStatus, b: OrderStatus)
    requires StatusName(a) == StatusName(b)
    ensures a == b
  {
  }

  /** A status filter keeps exactly the orders in that status. */
  lemma StatusFilterKeeps(rows: seq<Order>, s: OrderStatus, o: Order)
    ensures o in Select(Build(OrderFilter(Some(StatusName(s)), None, None, None)), rows) <==> o in rows && o.status == s
  {
    SelectMembers(Build(OrderFilter(Some(StatusName(s)), None, None, None)), rows, o);
    if StatusName(o.status) == StatusName(s) {
      StatusNameInjective(o.status, s);
    }
  }

  /** The join behind `hasProduct` yields one row for each accepted order
      with unique items and none for the others. */
  lemma JoinOncePerOrder(o: Order, pid: ProductId)
    requires UniqueProducts(o.items)
    ensures CountProduct(o.items, pid) == (if Eval(HasProduct(Some(pid)), o) then 1 else 0)
  {
    JoinRowsAtMostOne(o.items, pid);
  }

  /** The listing never holds an order twice. */
  lemma NoOrderTwice(f: OrderFilter, rows: seq<Order>)
    requires Distinct(rows)
    ensures Distinct(Select(Build(f), rows))
  {
    SelectDistinct(Build(f), rows);
  }
}

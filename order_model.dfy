/** The `Order` aggregate and its `OrderProduct` line items.
    An order owns its items (cascade ALL), so the items live inside the order
    value; an item is identified by its product within its order, which is the
    (order, product) equality and the unique constraint of the entity. */
module OrderModel {
  import opened Wrappers

  type ClientId = nat
  type ProductId = nat
  type OrderId = nat

  datatype OrderStatus = NEW | PROCESSING | COMPLETED | CANCELED

  /** The constant's name, which is what `@Enumerated(EnumType.STRING)` stores. */
  function StatusName(s: OrderStatus): string
  {
    match s
    case NEW => "NEW"
    case PROCESSING => "PROCESSING"
    case COMPLETED => "COMPLETED"
    case CANCELED => "CANCELED"
  }

  /** One `OrderProduct` row of an order: its product and its quantity. */
  datatype Item = Item(product: ProductId, quantity: int)

  /** One `orders` row with the items it owns. */
  datatype Order = Order(createdAt: int, status: OrderStatus, client: ClientId, items: seq<Item>)

  /** The unique constraint on (order_id, product_id), within one order. */
  predicate UniqueProducts(items: seq<Item>)
  {
    forall i, j :: 0 <= i < j < |items| ==> items[i].product != items[j].product
  }

  predicate QuantitiesPositive(items: seq<Item>)
  {
    forall i :: 0 <= i < |items| ==> items[i].quantity >= 1
  }

  predicate WellFormed(items: seq<Item>)
  {
    UniqueProducts(items) && QuantitiesPositive(items)
  }

  /** The products an order holds. */
  function ProductsOf(items: seq<Item>): set<ProductId>
  {
    set x | x in items :: x.product
  }

  lemma ProductsOfCons(items: seq<Item>)
    requires items != []
    ensures ProductsOf(items) == {items[0].product} + ProductsOf(items[1..])
  {
    assert items == [items[0]] + items[1..];
  }

  /** Under the unique constraint the first item's product is not repeated. */
  lemma HeadNotInTail(items: seq<Item>)
    requires UniqueProducts(items) && items != []
    ensures items[0].product !in ProductsOf(items[1..])
  {
    forall i | 0 <= i < |items| - 1 ensures items[1..][i].product != items[0].product {
      assert items[1..][i] == items[i + 1];
    }
  }

  lemma ConsUnique(x: Item, rest: seq<Item>)
    requires UniqueProducts(rest) && x.product !in ProductsOf(rest)
    ensures UniqueProducts([x] + rest)
  {
    var r := [x] + rest;
    forall i, j | 0 <= i < j < |r| ensures r[i].product != r[j].product {
      assert r[j] == rest[j - 1];
      if i > 0 { assert r[i] == rest[i - 1]; } else { assert rest[j - 1] in rest; }
    }
  }

  /** The `@Formula` column `itemsTotal`: coalesce(sum(quantity), 0). */
  function ItemsTotal(items: seq<Item>): (total: int)
    ensures items == [] ==> total == 0
    ensures QuantitiesPositive(items) ==> total >= |items|
  {
    if items == [] then 0 else items[0].quantity + ItemsTotal(items[1..])
  }

  /** How many items of the order have this product: the rows an inner join on
      `items` yields for one order with `product.id = pid`. */
  function CountProduct(items: seq<Item>, pid: ProductId): (n: nat)
    ensures n <= |items|
    ensures n == 0 <==> pid !in ProductsOf(items)
  {
    if items == [] then 0
    else
      ProductsOfCons(items);
      (if items[0].product == pid then 1 else 0) + CountProduct(items[1..], pid)
  }

  /** `findByOrderIdAndProductId` inside one order: the position of the item. */
  function FindItem(items: seq<Item>, pid: ProductId): (r: Option<nat>)
    ensures r.None? <==> pid !in ProductsOf(items)
    ensures r.Some? ==> r.value < |items| && items[r.value].product == pid
  {
    if items == [] then None
    else if items[0].product == pid then Some(0)
    else match FindItem(items[1..], pid)
      case None => None
      case Some(k) => Some(k + 1)
  }

  /** `item.setQuantity(q)` on the item of product pid. */
  function SetQuantity(items: seq<Item>, pid: ProductId, q: int): (r: seq<Item>)
    ensures |r| == |items|
    ensures forall i :: 0 <= i < |items| ==> r[i].product == items[i].product
    ensures forall i :: 0 <= i < |items| ==> r[i].quantity == if items[i].product == pid then q else items[i].quantity
  {
    seq(|items|, i requires 0 <= i < |items| => if items[i].product == pid then Item(pid, q) else items[i])
  }

  /** The quantity of the item holding pid. */
  function QuantityOf(items: seq<Item>, pid: ProductId): int
    requires pid in ProductsOf(items)
  {
    items[FindItem(items, pid).value].quantity
  }

  /** `deleteByOrderIdAndProductId` inside one order. */
  function RemoveItem(items: seq<Item>, pid: ProductId): (r: seq<Item>)
    ensures |r| == |items| - CountProduct(items, pid)
    ensures forall i :: 0 <= i < |r| ==> r[i].product != pid
  {
    if items == [] then []
    else (if items[0].product == pid then [] else [items[0]]) + RemoveItem(items[1..], pid)
  }

  /** Every item row of the store, as (order, product, quantity). */
  ghost function ItemRows(orders: map<OrderId, Order>): set<(OrderId, ProductId, int)>
  {
    set oid, k | oid in orders && 0 <= k < |orders[oid].items| ::
      (oid, orders[oid].items[k].product, orders[oid].items[k].quantity)
  }

  /** The order as the detail fetch returns it (`OrderResponse`). */
  datatype OrderResponse = OrderResponse(
    id: OrderId, createdAt: int, status: OrderStatus, clientId: ClientId,
    items: seq<Item>, itemsTotal: int)

  function ToResponse(id: OrderId, o: Order): OrderResponse
  {
    OrderResponse(id, o.createdAt, o.status, o.client, o.items, ItemsTotal(o.items))
  }

  // ---- the derived sum ----

  /** Adding an item adds its quantity to itemsTotal. */
  lemma {:induction false} ItemsTotalAppend(items: seq<Item>, x: Item)
    ensures ItemsTotal(items + [x]) == ItemsTotal(items) + x.quantity
  {
    if items != [] {
      assert (items + [x])[1..] == items[1..] + [x];
      ItemsTotalAppend(items[1..], x);
    }
  }

  /** Changing one item's quantity changes itemsTotal by the difference. */
  lemma {:induction false} ItemsTotalSetQuantity(items: seq<Item>, k: nat, q: int)
    requires UniqueProducts(items) && k < |items|
    ensures ItemsTotal(SetQuantity(items, items[k].product, q)) == ItemsTotal(items) - items[k].quantity + q
  {
    var pid := items[k].product;
    var r := SetQuantity(items, pid, q);
    assert r[1..] == SetQuantity(items[1..], pid, q);
    if k == 0 {
      HeadNotInTail(items);
      UnchangedWithoutProduct(items[1..], pid, q);
    } else {
      assert items[0].product != pid;
      ItemsTotalSetQuantity(items[1..], k - 1, q);
    }
  }

  lemma {:induction false} UnchangedWithoutProduct(items: seq<Item>, pid: ProductId, q: int)
    requires pid !in ProductsOf(items)
    ensures SetQuantity(items, pid, q) == items
    ensures RemoveItem(items, pid) == items
  {
    if items != [] {
      ProductsOfCons(items);
      UnchangedWithoutProduct(items[1..], pid, q);
      assert SetQuantity(items, pid, q) == [items[0]] + SetQuantity(items[1..], pid, q);
      assert items == [items[0]] + items[1..];
    }
  }

  /** Removing an item subtracts its quantity from itemsTotal. */
  lemma {:induction false} ItemsTotalRemove(items: seq<Item>, k: nat)
    requires UniqueProducts(items) && k < |items|
    ensures ItemsTotal(RemoveItem(items, items[k].product)) == ItemsTotal(items) - items[k].quantity
  {
    var pid := items[k].product;
    var rest := RemoveItem(items[1..], pid);
    if k == 0 {
      HeadNotInTail(items);
      UnchangedWithoutProduct(items[1..], pid, 0);
      assert RemoveItem(items, pid) == rest;
    } else {
      assert items[0].product != pid by {
        assert items[1..][k - 1] == items[k];
      }
      assert RemoveItem(items, pid) == [items[0]] + rest;
      assert ([items[0]] + rest)[1..] == rest;
      ItemsTotalRemove(items[1..], k - 1);
    }
  }

  /** Setting the quantity an item already has changes nothing. */
  lemma {:induction false} SetSameQuantity(items: seq<Item>, pid: ProductId)
    requires UniqueProducts(items) && pid in ProductsOf(items)
    ensures SetQuantity(items, pid, QuantityOf(items, pid)) == items
  {
    var k := FindItem(items, pid).value;
    var r := SetQuantity(items, pid, QuantityOf(items, pid));
    forall i | 0 <= i < |items| ensures r[i] == items[i] {
      if items[i].product == pid && i != k {
        assert false;
      }
    }
  }

  // ---- the (order, product) uniqueness ----

  /** Appending a product the order does not hold keeps the items unique. */
  lemma AppendKeepsWellFormed(items: seq<Item>, x: Item)
    requires WellFormed(items) && x.product !in ProductsOf(items) && x.quantity >= 1
    ensures WellFormed(items + [x])
    ensures ProductsOf(items + [x]) == ProductsOf(items) + {x.product}
  {
    var r := items + [x];
    forall i, j | 0 <= i < j < |r| ensures r[i].product != r[j].product {
      assert r[i] == items[i];
      if j == |items| {
        assert items[i] in items;
      }
    }
    assert forall i :: 0 <= i < |items| ==> r[i] == items[i];
    assert forall y :: y in r <==> y in items || y == x;
  }

  lemma SetQuantityKeepsWellFormed(items: seq<Item>, pid: ProductId, q: int)
    requires WellFormed(items) && q >= 1
    ensures WellFormed(SetQuantity(items, pid, q))
    ensures ProductsOf(SetQuantity(items, pid, q)) == ProductsOf(items)
  {
    var r := SetQuantity(items, pid, q);
    forall p | p in ProductsOf(items) ensures p in ProductsOf(r) {
      var x :| x in items && x.product == p;
      var i :| 0 <= i < |items| && items[i] == x;
      assert r[i] in r;
    }
    forall p | p in ProductsOf(r) ensures p in ProductsOf(items) {
      var x :| x in r && x.product == p;
      var i :| 0 <= i < |r| && r[i] == x;
      assert items[i] in items;
    }
  }

  /** Removing keeps exactly the other items, in their order. */
  lemma {:induction false} RemoveItemMembers(items: seq<Item>, pid: ProductId)
    ensures forall x :: x in RemoveItem(items, pid) <==> x in items && x.product != pid
  {
    if items != [] {
      RemoveItemMembers(items[1..], pid);
      assert items == [items[0]] + items[1..];
    }
  }

  /** Removing keeps the items well formed and takes out just that product. */
  lemma {:induction false} RemoveItemSpec(items: seq<Item>, pid: ProductId)
    requires WellFormed(items)
    ensures WellFormed(RemoveItem(items, pid))
    ensures ProductsOf(RemoveItem(items, pid)) == ProductsOf(items) - {pid}
  {
    RemoveItemMembers(items, pid);
    RemoveItemUnique(items, pid);
    var r := RemoveItem(items, pid);
    forall i | 0 <= i < |r| ensures r[i].quantity >= 1 {
      assert r[i] in r;
      var j :| 0 <= j < |items| && items[j] == r[i];
    }
  }

  lemma {:induction false} RemoveItemUnique(items: seq<Item>, pid: ProductId)
    requires UniqueProducts(items)
    ensures UniqueProducts(RemoveItem(items, pid))
  {
    if items != [] {
      assert UniqueProducts(items[1..]) by {
        forall i, j | 0 <= i < j < |items| - 1 ensures items[1..][i].product != items[1..][j].product {
          assert items[1..][i] == items[i + 1] && items[1..][j] == items[j + 1];
        }
      }
      RemoveItemUnique(items[1..], pid);
      var rest := RemoveItem(items[1..], pid);
      if items[0].product != pid {
        HeadNotInTail(items);
        RemoveItemMembers(items[1..], pid);
        assert ProductsOf(rest) <= ProductsOf(items[1..]);
        ConsUnique(items[0], rest);
        assert RemoveItem(items, pid) == [items[0]] + rest;
      } else {
        assert RemoveItem(items, pid) == rest;
      }
    }
  }

  /** Under the unique constraint the join behind `hasProduct` yields at most
      one row per order, so `distinct` never has duplicates to remove. */
  lemma {:induction false} JoinRowsAtMostOne(items: seq<Item>, pid: ProductId)
    requires UniqueProducts(items)
    ensures CountProduct(items, pid) <= 1
    ensures CountProduct(items, pid) == 1 <==> pid in ProductsOf(items)
  {
    if items != [] {
      assert UniqueProducts(items[1..]) by {
        forall i, j | 0 <= i < j < |items| - 1 ensures items[1..][i].product != items[1..][j].product {
          assert items[1..][i] == items[i + 1] && items[1..][j] == items[j + 1];
        }
      }
      JoinRowsAtMostOne(items[1..], pid);
      HeadNotInTail(items);
      ProductsOfCons(items);
    }
  }
}

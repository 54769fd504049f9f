/** `OrderService`: creating orders, changing their status and their items,
    deleting them and listing them a page at a time. */
module OrderService {
  import opened Wrappers
  import opened Errors
  import opened OrderModel
  import opened Store

  /** `OrderProductRequest`. */
  datatype ItemRequest = ItemRequest(productId: ProductId, quantity: int)

  /** `OrderRequest`; an absent status defaults to NEW. */
  datatype OrderRequest = OrderRequest(clientId: ClientId, status: Option<OrderStatus>, products: seq<ItemRequest>)

  /** The `@Min(1)` on each requested quantity, enforced before the service runs. */
  predicate QuantitiesValid(list: seq<ItemRequest>)
  {
    forall k :: 0 <= k < |list| ==> list[k].quantity >= 1
  }

  function ProductIds(list: seq<ItemRequest>): (ids: seq<ProductId>)
    ensures |ids| == |list|
    ensures forall k :: 0 <= k < |list| ==> ids[k] == list[k].productId
  {
    seq(|list|, k requires 0 <= k < |list| => list[k].productId)
  }

  function Elems(ids: seq<nat>): set<nat>
  {
    set k | 0 <= k < |ids| :: ids[k]
  }

  predicate NoRepeats(ids: seq<nat>)
  {
    forall i, j :: 0 <= i < j < |ids| ==> ids[i] != ids[j]
  }

  /** The id the duplicate check of `fetchProducts` reports: the first one
      that repeats an earlier one. */
  function FirstRepeat(ids: seq<nat>): (r: Option<nat>)
    ensures r.None? <==> NoRepeats(ids)
    ensures r.Some? ==> r.value in ids
  {
    if ids == [] then None
    else
      var init := ids[..|ids| - 1];
      var last := ids[|ids| - 1];
      assert forall i :: 0 <= i < |init| ==> init[i] == ids[i];
      match FirstRepeat(init)
      case Some(p) => Some(p)
      case None => if last in init then Some(last) else None
  }

  /** The reported id occurs before its position and nothing repeats before it. */
  lemma {:induction false} FirstRepeatIsFirst(ids: seq<nat>)
    requires FirstRepeat(ids).Some?
    ensures exists j :: 0 <= j < |ids| && ids[j] == FirstRepeat(ids).value && ids[j] in ids[..j] && NoRepeats(ids[..j])
  {
    var init := ids[..|ids| - 1];
    if FirstRepeat(init).Some? {
      FirstRepeatIsFirst(init);
      var j :| 0 <= j < |init| && init[j] == FirstRepeat(init).value && init[j] in init[..j] && NoRepeats(init[..j]);
      assert init[..j] == ids[..j];
    } else {
      assert ids[..|ids| - 1] == init;
    }
  }

  /** A repeat found in a prefix is the repeat of the whole list. */
  lemma {:induction false} FirstRepeatExtend(xs: seq<nat>, ys: seq<nat>)
    requires FirstRepeat(xs).Some?
    ensures FirstRepeat(xs + ys) == FirstRepeat(xs)
    decreases |ys|
  {
    if ys != [] {
      var zs := xs + ys;
      assert zs[..|zs| - 1] == xs + ys[..|ys| - 1];
      FirstRepeatExtend(xs, ys[..|ys| - 1]);
    } else {
      assert xs + ys == xs;
    }
  }

  lemma {:induction false} NoRepeatsCard(ids: seq<nat>)
    requires NoRepeats(ids)
    ensures |Elems(ids)| == |ids|
  {
    if ids != [] {
      var init := ids[..|ids| - 1];
      assert NoRepeats(init);
      NoRepeatsCard(init);
      assert Elems(ids) == Elems(init) + {ids[|ids| - 1]};
      assert ids[|ids| - 1] !in Elems(init);
    }
  }

  predicate AllStored(products: map<ProductId, Product>, list: seq<ItemRequest>)
  {
    forall k :: 0 <= k < |list| ==> list[k].productId in products
  }

  /** `productRepo.findAllById`: the stored products among the ids. */
  function FindAllById(products: map<ProductId, Product>, ids: set<ProductId>): (m: map<ProductId, Product>)
    ensures forall pid :: pid in m <==> pid in ids && pid in products
    ensures forall pid :: pid in m ==> m[pid] == products[pid]
  {
    map pid | pid in ids && pid in products :: products[pid]
  }

  /** `fetchProducts`: the duplicate check, one batch lookup, and the check
      for missing ids. Which missing id is reported depends on the HashSet's
      iteration order, so it is left unspecified. */
  method FetchProducts(db: Database, list: seq<ItemRequest>) returns (r: Result<map<ProductId, Product>, Error>)
    ensures FirstRepeat(ProductIds(list)).Some? ==>
      r == Failure(DuplicateProductInOrder(FirstRepeat(ProductIds(list)).value))
    ensures FirstRepeat(ProductIds(list)).None? && !AllStored(db.products, list) ==>
      r.Failure? && r.error.NotFound? && r.error.entity == ProductEntity &&
      r.error.id in ProductIds(list) && r.error.id !in db.products
    ensures r.Success? <==> FirstRepeat(ProductIds(list)).None? && AllStored(db.products, list)
    ensures r.Success? ==> r.value == FindAllById(db.products, Elems(ProductIds(list)))
    ensures r.Success? ==> |r.value| == |list| && forall k :: 0 <= k < |list| ==> list[k].productId in r.value
  {
    var ids := ProductIds(list);
    var unique: set<ProductId> := {};
    var i := 0;
    while i < |list|
      invariant 0 <= i <= |list|
      invariant unique == Elems(ids[..i])
      invariant FirstRepeat(ids[..i]).None?
    {
      var pid := list[i].productId;
      assert ids[..i + 1] == ids[..i] + [pid];
      assert ids[..i + 1][..i] == ids[..i];
      if pid in unique {
        assert FirstRepeat(ids[..i + 1]) == Some(pid);
        FirstRepeatExtend(ids[..i + 1], ids[i + 1..]);
        assert ids[..i + 1] + ids[i + 1..] == ids;
        return Failure(DuplicateProductInOrder(pid));
      }
      unique := unique + {pid};
      i := i + 1;
    }
    assert ids[..|list|] == ids;
    var found := FindAllById(db.products, unique);
    var rest := unique;
    while rest != {}
      invariant rest <= unique
      invariant forall pid :: pid in unique - rest ==> pid in found
      decreases rest
    {
      var pid :| pid in rest;
      if pid !in found {
        assert pid in ids;
        return Failure(NotFound(ProductEntity, pid));
      }
      rest := rest - {pid};
    }
    assert found.Keys == unique;
    NoRepeatsCard(ids);
    assert forall k :: 0 <= k < |list| ==> list[k].productId in unique by {
      forall k | 0 <= k < |list| ensures list[k].productId in unique {
        assert ids[k] == list[k].productId;
      }
    }
    return Success(found);
  }

  /** `buildItems`: one item per request line, carrying its quantity. The
      source collects them into a HashSet; with distinct products that set has
      one element per line, and the model keeps request order. */
  function BuildItems(list: seq<ItemRequest>): (items: seq<Item>)
    ensures |items| == |list|
    ensures forall k :: 0 <= k < |list| ==> items[k] == Item(list[k].productId, list[k].quantity)
  {
    seq(|list|, k requires 0 <= k < |list| => Item(list[k].productId, list[k].quantity))
  }

  /** The sum of the requested quantities. */
  function RequestedTotal(list: seq<ItemRequest>): int
  {
    if list == [] then 0 else list[0].quantity + RequestedTotal(list[1..])
  }

  lemma {:induction false} BuildItemsTotal(list: seq<ItemRequest>)
    ensures ItemsTotal(BuildItems(list)) == RequestedTotal(list)
  {
    if list != [] {
      assert BuildItems(list)[1..] == BuildItems(list[1..]);
      BuildItemsTotal(list[1..]);
    }
  }

  lemma BuildItemsWellFormed(list: seq<ItemRequest>)
    requires NoRepeats(ProductIds(list)) && QuantitiesValid(list)
    ensures WellFormed(BuildItems(list))
    ensures ProductsOf(BuildItems(list)) == Elems(ProductIds(list))
  {
    var items := BuildItems(list);
    var ids := ProductIds(list);
    forall i, j | 0 <= i < j < |items| ensures items[i].product != items[j].product {
      assert ids[i] != ids[j];
    }
    forall p | p in Elems(ids) ensures p in ProductsOf(items) {
      var k :| 0 <= k < |ids| && ids[k] == p;
      assert items[k] in items;
    }
  }

  function DefaultStatus(status: Option<OrderStatus>): OrderStatus
  {
    if status.Some? then status.value else NEW
  }

  /** The order `create` stores; its creation timestamp is the clock reading. */
  function NewOrder(req: OrderRequest, now: int): Order
  {
    Order(now, DefaultStatus(req.status), req.clientId, BuildItems(req.products))
  }

  /** `getOne`: the detailed order, or NotFound. */
  function GetOne(db: Database, id: OrderId): (r: Result<OrderResponse, Error>)
    reads db
    ensures r.Failure? <==> id !in db.orders
    ensures r.Failure? ==> r.error == NotFound(OrderEntity, id)
    ensures r.Success? ==>
      && r.value.id == id && r.value.clientId == db.orders[id].client
      && r.value.status == db.orders[id].status && r.value.createdAt == db.orders[id].createdAt
      && r.value.items == db.orders[id].items && r.value.itemsTotal == ItemsTotal(db.orders[id].items)
  {
    if id in db.orders then Success(ToResponse(id, db.orders[id])) else Failure(NotFound(OrderEntity, id))
  }

  /** `fetchClient`. */
  function FetchClient(db: Database, id: ClientId): (r: Result<Client, Error>)
    reads db
    ensures r.Failure? <==> id !in db.clients
    ensures r.Failure? ==> r.error == NotFound(ClientEntity, id)
    ensures r.Success? ==> r.value == db.clients[id]
  {
    if id in db.clients then Success(db.clients[id]) else Failure(NotFound(ClientEntity, id))
  }

  /** `create`: client, then duplicates, then missing products; on success a
      new order under a fresh id. */
  method Create(db: Database, req: OrderRequest, now: int) returns (r: Result<OrderResponse, Error>)
    requires db.Valid() && QuantitiesValid(req.products)
    modifies db
    ensures db.Valid()
    ensures db.clients == old(db.clients) && db.products == old(db.products)
    ensures req.clientId !in old(db.clients) ==> r == Failure(NotFound(ClientEntity, req.clientId))
    ensures req.clientId in old(db.clients) && FirstRepeat(ProductIds(req.products)).Some? ==>
      r == Failure(DuplicateProductInOrder(FirstRepeat(ProductIds(req.products)).value))
    ensures (req.clientId in old(db.clients) && FirstRepeat(ProductIds(req.products)).None? &&
             !AllStored(old(db.products), req.products)) ==>
      r.Failure? && r.error.NotFound? && r.error.entity == ProductEntity &&
      r.error.id in ProductIds(req.products) && r.error.id !in db.products
    ensures r.Success? <==>
      req.clientId in old(db.clients) && FirstRepeat(ProductIds(req.products)).None? &&
      AllStored(old(db.products), req.products)
    ensures r.Failure? ==> db.orders == old(db.orders)
    ensures r.Success? ==>
      && r.value.id !in old(db.orders)
      && db.orders == old(db.orders)[r.value.id := NewOrder(req, now)]
      && r == GetOne(db, r.value.id)
      && r.value.itemsTotal == RequestedTotal(req.products)
  {
    var client := FetchClient(db, req.clientId);
    if client.Failure? {
      return Failure(client.error);
    }
    var products := FetchProducts(db, req.products);
    if products.Failure? {
      return Failure(products.error);
    }
    var order := NewOrder(req, now);
    BuildItemsWellFormed(req.products);
    BuildItemsTotal(req.products);
    ghost var bound := AboveAll(db.orders.Keys);
    assert bound !in db.orders;
    var id: OrderId :| id !in db.orders;
    db.orders := db.orders[id := order];
    r := GetOne(db, id);
  }

  /** `updateStatus`: only the status changes, and nothing when it is the same. */
  method UpdateStatus(db: Database, id: OrderId, status: OrderStatus) returns (r: Result<OrderResponse, Error>)
    requires db.Valid()
    modifies db
    ensures db.Valid()
    ensures db.clients == old(db.clients) && db.products == old(db.products)
    ensures id !in old(db.orders) ==> r == Failure(NotFound(OrderEntity, id)) && db.orders == old(db.orders)
    ensures id in old(db.orders) && old(db.orders[id].status) == status ==> db.orders == old(db.orders)
    ensures id in old(db.orders) ==>
      && db.orders == old(db.orders)[id := old(db.orders[id]).(status := status)]
      && r == GetOne(db, id) && r.Success? && r.value.status == status
  {
    if id !in db.orders {
      return Failure(NotFound(OrderEntity, id));
    }
    var entity := db.orders[id];
    if entity.status == status {
      assert db.orders[id := entity.(status := status)] == db.orders;
      return GetOne(db, id);
    }
    db.orders := db.orders[id := entity.(status := status)];
    r := GetOne(db, id);
  }

  /** `delete`: the order goes and, by cascade, every item of it. */
  method Delete(db: Database, id: OrderId) returns (r: Outcome<Error>)
    requires db.Valid()
    modifies db
    ensures db.Valid()
    ensures db.clients == old(db.clients) && db.products == old(db.products)
    ensures id !in old(db.orders) ==> r == Fail(NotFound(OrderEntity, id)) && db.orders == old(db.orders)
    ensures id in old(db.orders) ==> r == Pass && db.orders == old(db.orders) - {id}
  {
    if id !in db.orders {
      return Fail(NotFound(OrderEntity, id));
    }
    db.orders := db.orders - {id};
    r := Pass;
  }

  /** After the delete, the item rows are the old ones minus those of the order. */
  lemma DeleteCascade(orders: map<OrderId, Order>, id: OrderId)
    ensures ItemRows(orders - {id}) == set row | row in ItemRows(orders) && row.0 != id
  {
    var after := orders - {id};
    forall row | row in ItemRows(orders) && row.0 != id ensures row in ItemRows(after) {
      var oid, k :| oid in orders && 0 <= k < |orders[oid].items| &&
        row == (oid, orders[oid].items[k].product, orders[oid].items[k].quantity);
      assert oid in after && after[oid] == orders[oid];
    }
    forall row | row in ItemRows(after) ensures row in ItemRows(orders) && row.0 != id {
      var oid, k :| oid in after && 0 <= k < |after[oid].items| &&
        row == (oid, after[oid].items[k].product, after[oid].items[k].quantity);
      assert oid in orders && after[oid] == orders[oid];
    }
  }

  /** `existsByOrderIdAndProductId`. */
  predicate HasItem(orders: map<OrderId, Order>, oid: OrderId, pid: ProductId)
    ensures HasItem(orders, oid, pid) <==> oid in orders && CountProduct(orders[oid].items, pid) > 0
  {
    oid in orders && pid in ProductsOf(orders[oid].items)
  }

  /** `addProduct`: pair check, then order, then product; on success exactly
      one item is appended. */
  method AddProduct(db: Database, orderId: OrderId, req: ItemRequest) returns (r: Result<OrderResponse, Error>)
    requires db.Valid() && req.quantity >= 1
    modifies db
    ensures db.Valid()
    ensures db.clients == old(db.clients) && db.products == old(db.products)
    ensures HasItem(old(db.orders), orderId, req.productId) ==>
      r == Failure(DuplicateProductInOrder(req.productId))
    ensures !HasItem(old(db.orders), orderId, req.productId) && orderId !in old(db.orders) ==>
      r == Failure(NotFound(OrderEntity, orderId))
    ensures (orderId in old(db.orders) && !HasItem(old(db.orders), orderId, req.productId) &&
             req.productId !in db.products) ==>
      r == Failure(NotFound(ProductEntity, req.productId))
    ensures r.Failure? ==> db.orders == old(db.orders)
    ensures r.Success? <==>
      orderId in old(db.orders) && !HasItem(old(db.orders), orderId, req.productId) && req.productId in db.products
    ensures r.Success? ==>
      && db.orders == old(db.orders)[orderId := old(db.orders[orderId]).(
           items := old(db.orders[orderId].items) + [Item(req.productId, req.quantity)])]
      && r == GetOne(db, orderId)
      && r.value.itemsTotal == ItemsTotal(old(db.orders[orderId].items)) + req.quantity
  {
    if HasItem(db.orders, orderId, req.productId) {
      return Failure(DuplicateProductInOrder(req.productId));
    }
    if orderId !in db.orders {
      return Failure(NotFound(OrderEntity, orderId));
    }
    if req.productId !in db.products {
      return Failure(NotFound(ProductEntity, req.productId));
    }
    var order := db.orders[orderId];
    var item := Item(req.productId, req.quantity);
    AppendKeepsWellFormed(order.items, item);
    ItemsTotalAppend(order.items, item);
    db.orders := db.orders[orderId := order.(items := order.items + [item])];
    r := GetOne(db, orderId);
  }

  /** `changeProductQuantity`: only that item's quantity changes. */
  method ChangeProductQuantity(db: Database, orderId: OrderId, productId: ProductId, quantity: int)
    returns (r: Result<OrderResponse, Error>)
    requires db.Valid() && quantity >= 1
    modifies db
    ensures db.Valid()
    ensures db.clients == old(db.clients) && db.products == old(db.products)
    ensures !HasItem(old(db.orders), orderId, productId) ==>
      r == Failure(NotFound(OrderItemEntity, productId)) && db.orders == old(db.orders)
    ensures (HasItem(old(db.orders), orderId, productId) &&
             QuantityOf(old(db.orders[orderId].items), productId) == quantity) ==> db.orders == old(db.orders)
    ensures HasItem(old(db.orders), orderId, productId) ==>
      && db.orders == old(db.orders)[orderId := old(db.orders[orderId]).(
           items := SetQuantity(old(db.orders[orderId].items), productId, quantity))]
      && r == GetOne(db, orderId) && r.Success?
      && r.value.itemsTotal ==
         ItemsTotal(old(db.orders[orderId].items)) - QuantityOf(old(db.orders[orderId].items), productId) + quantity
  {
    if !HasItem(db.orders, orderId, productId) {
      return Failure(NotFound(OrderItemEntity, productId));
    }
    var order := db.orders[orderId];
    var k := FindItem(order.items, productId).value;
    var oldQuantity := order.items[k].quantity;
    ItemsTotalSetQuantity(order.items, k, quantity);
    if oldQuantity == quantity {
      SetSameQuantity(order.items, productId);
      assert db.orders[orderId := order.(items := order.items)] == db.orders;
      return GetOne(db, orderId);
    }
    SetQuantityKeepsWellFormed(order.items, productId, quantity);
    db.orders := db.orders[orderId := order.(items := SetQuantity(order.items, productId, quantity))];
    r := GetOne(db, orderId);
  }

  /** `removeProduct`: the delete query reports how many rows it removed,
      which the unique constraint keeps at 0 or 1. */
  method RemoveProduct(db: Database, orderId: OrderId, productId: ProductId) returns (r: Result<OrderResponse, Error>)
    requires db.Valid()
    modifies db
    ensures db.Valid()
    ensures db.clients == old(db.clients) && db.products == old(db.products)
    ensures !HasItem(old(db.orders), orderId, productId) ==>
      r == Failure(NotFound(OrderItemEntity, productId)) && db.orders == old(db.orders)
    ensures HasItem(old(db.orders), orderId, productId) ==>
      && db.orders == old(db.orders)[orderId := old(db.orders[orderId]).(
           items := RemoveItem(old(db.orders[orderId].items), productId))]
      && ProductsOf(db.orders[orderId].items) == ProductsOf(old(db.orders[orderId].items)) - {productId}
      && r == GetOne(db, orderId) && r.Success?
      && r.value.itemsTotal ==
         ItemsTotal(old(db.orders[orderId].items)) - QuantityOf(old(db.orders[orderId].items), productId)
  {
    var deleted := if orderId in db.orders then CountProduct(db.orders[orderId].items, productId) else 0;
    if orderId in db.orders {
      JoinRowsAtMostOne(db.orders[orderId].items, productId);
    }
    if deleted == 0 {
      return Failure(NotFound(OrderItemEntity, productId));
    }
    var order := db.orders[orderId];
    var k := FindItem(order.items, productId).value;
    ItemsTotalRemove(order.items, k);
    RemoveItemSpec(order.items, productId);
    db.orders := db.orders[orderId := order.(items := RemoveItem(order.items, productId))];
    r := GetOne(db, orderId);
  }

  // ---- findAll ----

  /** `findByIdIn`: the stored orders among the page's ids. */
  function FindByIdIn(orders: map<OrderId, Order>, ids: seq<OrderId>): (m: map<OrderId, Order>)
    ensures forall oid :: oid in m <==> oid in ids && oid in orders
    ensures forall oid :: oid in m ==> m[oid] == orders[oid]
  {
    map oid | oid in orders && oid in ids :: orders[oid]
  }

  /** The stream `ids -> byId::get -> nonNull -> toResponse`. */
  function Project(ids: seq<OrderId>, byId: map<OrderId, Order>): seq<OrderResponse>
  {
    if ids == [] then []
    else (if ids[0] in byId then [ToResponse(ids[0], byId[ids[0]])] else []) + Project(ids[1..], byId)
  }

  /** The page's ids that the batch returned, in page order. */
  function Present(ids: seq<OrderId>, byId: map<OrderId, Order>): (r: seq<OrderId>)
    ensures forall x :: x in r <==> x in ids && x in byId
    ensures (forall k :: 0 <= k < |ids| ==> ids[k] in byId) ==> r == ids
  {
    if ids == [] then []
    else (if ids[0] in byId then [ids[0]] else []) + Present(ids[1..], byId)
  }

  /** The content is the responses for the present ids, in page order. */
  lemma {:induction false} ProjectInPageOrder(ids: seq<OrderId>, byId: map<OrderId, Order>)
    ensures |Project(ids, byId)| == |Present(ids, byId)|
    ensures forall k :: 0 <= k < |Present(ids, byId)| ==>
      Present(ids, byId)[k] in byId &&
      Project(ids, byId)[k] == ToResponse(Present(ids, byId)[k], byId[Present(ids, byId)[k]])
  {
    if ids != [] {
      ProjectInPageOrder(ids[1..], byId);
    }
  }

  /** The outcome of `findAll`: the result, and the ids of the detail fetch
      when one is issued. The first query's page (already filtered with
      `OrderSpecs.Build` and paged) or its failure is the input. */
  datatype ListOutcome<E> = ListOutcome(result: Result<Page<OrderResponse>, E>, detailFetch: Option<seq<OrderId>>)

  function FindAll<E>(db: Database, first: Result<Page<OrderId>, E>): (out: ListOutcome<E>)
    reads db
    ensures first.Failure? ==> out.result == Failure(first.error) && out.detailFetch.None?
    ensures first.Success? && first.value.content == [] ==>
      out.result == Success(Page([], 0)) && out.detailFetch.None?
    ensures first.Success? && first.value.content != [] ==>
      && out.detailFetch == Some(first.value.content)
      && out.result.Success?
      && out.result.value.total == first.value.total
      && out.result.value.content == Project(first.value.content, FindByIdIn(db.orders, first.value.content))
  {
    match first
    case Failure(e) => ListOutcome(Failure(e), None)
    case Success(page) =>
      if page.content == [] then ListOutcome(Success(Page([], 0)), None)
      else
        var byId := FindByIdIn(db.orders, page.content);
        ListOutcome(Success(Page(Project(page.content, byId), page.total)), Some(page.content))
  }

  /** Every id of the page whose order is stored comes back, in page order,
      each with its current detail. */
  lemma FindAllContent<E>(db: Database, first: Result<Page<OrderId>, E>)
    requires first.Success? && first.value.content != []
    ensures var ids := first.value.content;
      var content := FindAll(db, first).result.value.content;
      var present := Present(ids, db.orders);
      && |content| == |present|
      && (forall k :: 0 <= k < |present| ==>
            present[k] in db.orders && content[k] == ToResponse(present[k], db.orders[present[k]]))
  {
    var ids := first.value.content;
    var byId := FindByIdIn(db.orders, ids);
    PresentInBatch(ids, db.orders);
    ProjectInPageOrder(ids, byId);
  }

  lemma {:induction false} PresentInBatch(ids: seq<OrderId>, orders: map<OrderId, Order>)
    ensures Present(ids, FindByIdIn(orders, ids)) == Present(ids, orders)
  {
    if ids != [] {
      PresentTail(ids, orders);
    }
  }

  lemma {:induction false} PresentTail(ids: seq<OrderId>, orders: map<OrderId, Order>)
    requires ids != []
    ensures Present(ids, FindByIdIn(orders, ids)) == Present(ids, orders)
    decreases |ids|
  {
    PresentSub(ids[1..], FindByIdIn(orders, ids), orders);
  }

  /** Filtering against a map that agrees with the store on the list's ids. */
  lemma {:induction false} PresentSub(ids: seq<OrderId>, m: map<OrderId, Order>, orders: map<OrderId, Order>)
    requires forall x :: x in ids ==> (x in m <==> x in orders)
    ensures Present(ids, m) == Present(ids, orders)
  {
    if ids != [] {
      PresentSub(ids[1..], m, orders);
    }
  }
}

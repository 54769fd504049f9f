/** `ProductService`: products with case-insensitively unique names, listed
    by name and price range. */
module ProductService {
  import opened Wrappers
  import opened Text
  import opened Errors
  import opened OrderModel
  import opened Store
  import opened SpecBuilder

  /** `ProductRequest`; every field is required. */
  datatype ProductRequest = ProductRequest(name: string, description: string, price: int)

  datatype ProductResponse = ProductResponse(id: ProductId, name: string, description: string, price: int)

  function ToEntity(req: ProductRequest): Product
  {
    Product(req.name, req.description, req.price)
  }

  function ToResponse(id: ProductId, p: Product): ProductResponse
  {
    ProductResponse(id, p.name, p.description, p.price)
  }

  /** `create`: refused when the name is taken ignoring case. */
  method Create(db: Database, req: ProductRequest) returns (r: Result<ProductResponse, Error>)
    requires db.Valid()
    modifies db
    ensures db.Valid()
    ensures db.orders == old(db.orders) && db.clients == old(db.clients)
    ensures NameTaken(old(db.products), req.name) ==>
      r == Failure(DuplicateProductName(req.name)) && db.products == old(db.products)
    ensures !NameTaken(old(db.products), req.name) ==>
      && r.Success? && r.value.id !in old(db.products)
      && db.products == old(db.products)[r.value.id := ToEntity(req)]
      && r.value == ProductResponse(r.value.id, req.name, req.description, req.price)
  {
    if NameTaken(db.products, req.name) {
      return Failure(DuplicateProductName(req.name));
    }
    ghost var bound := AboveAll(db.products.Keys);
    assert bound !in db.products;
    var id: ProductId :| id !in db.products;
    db.products := db.products[id := ToEntity(req)];
    r := Success(ToResponse(id, db.products[id]));
  }

  /** `getOne`. */
  function GetOne(db: Database, id: ProductId): (r: Result<ProductResponse, Error>)
    reads db
    ensures r.Failure? <==> id !in db.products
    ensures r.Failure? ==> r.error == NotFound(ProductEntity, id)
    ensures r.Success? ==>
      var p := db.products[id];
      r.value == ProductResponse(id, p.name, p.description, p.price)
  {
    if id in db.products then Success(ToResponse(id, db.products[id])) else Failure(NotFound(ProductEntity, id))
  }

  /** `update`: the duplicate check applies only when the name changes other
      than in case, and looks only at the other products. */
  method Update(db: Database, id: ProductId, req: ProductRequest) returns (r: Result<ProductResponse, Error>)
    requires db.Valid()
    modifies db
    ensures db.Valid()
    ensures db.orders == old(db.orders) && db.clients == old(db.clients)
    ensures id !in old(db.products) ==> r == Failure(NotFound(ProductEntity, id)) && db.products == old(db.products)
    ensures (id in old(db.products) && !EqualsIgnoreCase(old(db.products[id].name), req.name) &&
             NameTakenByOther(old(db.products), req.name, id)) ==>
      r == Failure(DuplicateProductName(req.name)) && db.products == old(db.products)
    ensures r.Success? <==>
      id in old(db.products) &&
      (EqualsIgnoreCase(old(db.products[id].name), req.name) || !NameTakenByOther(old(db.products), req.name, id))
    ensures r.Success? ==> db.products == old(db.products)[id := ToEntity(req)] && r == GetOne(db, id)
  {
    if id !in db.products {
      return Failure(NotFound(ProductEntity, id));
    }
    var entity := db.products[id];
    if !EqualsIgnoreCase(entity.name, req.name) && NameTakenByOther(db.products, req.name, id) {
      return Failure(DuplicateProductName(req.name));
    }
    db.products := db.products[id := ToEntity(req)];
    r := GetOne(db, id);
  }

  /** `delete`: no check for orders that hold the product. */
  method Delete(db: Database, id: ProductId) returns (r: Outcome<Error>)
    requires db.Valid()
    modifies db
    ensures db.Valid()
    ensures db.orders == old(db.orders) && db.clients == old(db.clients)
    ensures id !in old(db.products) ==> r == Fail(NotFound(ProductEntity, id)) && db.products == old(db.products)
    ensures id in old(db.products) ==> r == Pass && db.products == old(db.products) - {id}
  {
    if id !in db.products {
      return Fail(NotFound(ProductEntity, id));
    }
    db.products := db.products - {id};
    r := Pass;
  }

  // ---- list ----

  /** `ProductFilter`: an optional name and optional inclusive price bounds. */
  datatype ProductFilter = ProductFilter(name: Option<string>, priceMin: Option<int>, priceMax: Option<int>)

  function NameColumn(p: Product): string { p.name }
  function PriceColumn(p: Product): int { p.price }

  function Spec(f: ProductFilter): (s: Pred<Product>)
    ensures forall p :: Eval(s, p) ==>
      (f.priceMin.None? || f.priceMin.value <= p.price) && (f.priceMax.None? || p.price <= f.priceMax.value)
    ensures IsBlank(f.name) ==> forall p :: Eval(s, p) <==>
      (f.priceMin.None? || f.priceMin.value <= p.price) && (f.priceMax.None? || p.price <= f.priceMax.value)
  {
    And(Like(NameColumn, f.name), Between(PriceColumn, f.priceMin, f.priceMax))
  }

  /** The filter: name substring ignoring case (blank ignored) and price within
      the given bounds. */
  lemma SpecAccepts(f: ProductFilter, p: Product)
    requires f.name.Some? ==> NoWildcards(f.name.value)
    ensures Eval(Spec(f), p) <==>
      && (IsBlank(f.name) || IsSubstring(LowerStr(f.name.value), LowerStr(p.name)))
      && (f.priceMin.None? || f.priceMin.value <= p.price)
      && (f.priceMax.None? || p.price <= f.priceMax.value)
  {
    assert NameColumn(p) == p.name && PriceColumn(p) == p.price;
    LikeAcceptsIff(NameColumn, f.name, p);
  }

  /** `page.map(toResponse)`: one response per row, in page order, total kept. */
  function List<E>(first: Result<Page<(ProductId, Product)>, E>): (r: Result<Page<ProductResponse>, E>)
    ensures first.Failure? ==> r == Failure(first.error)
    ensures first.Success? ==>
      && r.Success? && r.value.total == first.value.total
      && |r.value.content| == |first.value.content|
      && forall k :: 0 <= k < |first.value.content| ==>
           var row := first.value.content[k];
           r.value.content[k] == ProductResponse(row.0, row.1.name, row.1.description, row.1.price)
  {
    match first
    case Failure(e) => Failure(e)
    case Success(page) =>
      var rows := page.content;
      Success(Page(seq(|rows|, k requires 0 <= k < |rows| => ToResponse(rows[k].0, rows[k].1)), page.total))
  }
}

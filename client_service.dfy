/** `ClientService`: clients with case-insensitively unique emails, who
    cannot be deleted while they have orders, listed with their order counts. */
module ClientService {
  import opened Wrappers
  import opened Text
  import opened Errors
  import opened OrderModel
  import opened Store
  import opened SpecBuilder

  /** `ClientRequest`; every field is `@NotBlank`, hence present. */
  datatype ClientRequest = ClientRequest(firstName: string, lastName: string, email: string, phone: string)

  datatype ClientResponse = ClientResponse(
    id: ClientId, firstName: string, lastName: string, email: string, phone: string, ordersCount: nat)

  function ToEntity(req: ClientRequest): Client
  {
    Client(req.firstName, req.lastName, req.email, req.phone)
  }

  /** The response, with the order count looked up in the counts map; a
      client the map does not name has no orders. */
  function ToResponse(id: ClientId, c: Client, counts: map<ClientId, nat>): ClientResponse
  {
    ClientResponse(id, c.firstName, c.lastName, c.email, c.phone, if id in counts then counts[id] else 0)
  }

  /** A client not yet stored has no orders, since every order's client is stored. */
  lemma UnstoredHasNoOrders(db: Database, id: ClientId)
    requires db.Valid() && id !in db.clients
    ensures CountOrders(db.orders, id) == 0
  {
  }

  /** `create`: refused when the email is taken ignoring case. */
  method Create(db: Database, req: ClientRequest) returns (r: Result<ClientResponse, Error>)
    requires db.Valid()
    modifies db
    ensures db.Valid()
    ensures db.orders == old(db.orders) && db.products == old(db.products)
    ensures EmailTaken(old(db.clients), req.email) ==>
      r == Failure(DuplicateEmail(req.email)) && db.clients == old(db.clients)
    ensures !EmailTaken(old(db.clients), req.email) ==>
      && r.Success? && r.value.id !in old(db.clients)
      && db.clients == old(db.clients)[r.value.id := ToEntity(req)]
      && r.value == ClientResponse(r.value.id, req.firstName, req.lastName, req.email, req.phone, 0)
      && r.value.ordersCount == CountOrders(db.orders, r.value.id)
  {
    if EmailTaken(db.clients, req.email) {
      return Failure(DuplicateEmail(req.email));
    }
    ghost var bound := AboveAll(db.clients.Keys);
    assert bound !in db.clients;
    var id: ClientId :| id !in db.clients;
    UnstoredHasNoOrders(db, id);
    db.clients := db.clients[id := ToEntity(req)];
    r := Success(ToResponse(id, db.clients[id], map[id := 0]));
  }

  /** `getOne`: the client with the number of orders that reference it. */
  function GetOne(db: Database, id: ClientId): (r: Result<ClientResponse, Error>)
    reads db
    ensures r.Failure? <==> id !in db.clients
    ensures r.Failure? ==> r.error == NotFound(ClientEntity, id)
    ensures r.Success? ==>
      var c := db.clients[id];
      r.value == ClientResponse(id, c.firstName, c.lastName, c.email, c.phone, |OrdersOf(db.orders, id)|)
  {
    if id !in db.clients then Failure(NotFound(ClientEntity, id))
    else Success(ToResponse(id, db.clients[id], map[id := CountOrders(db.orders, id)]))
  }

  /** `update`: the duplicate check applies only when the email changes
      other than in case. */
  method Update(db: Database, id: ClientId, req: ClientRequest) returns (r: Result<ClientResponse, Error>)
    requires db.Valid()
    modifies db
    ensures db.Valid()
    ensures db.orders == old(db.orders) && db.products == old(db.products)
    ensures id !in old(db.clients) ==> r == Failure(NotFound(ClientEntity, id)) && db.clients == old(db.clients)
    ensures (id in old(db.clients) && !EqualsIgnoreCase(old(db.clients[id].email), req.email) &&
             EmailTaken(old(db.clients), req.email)) ==>
      r == Failure(DuplicateEmail(req.email)) && db.clients == old(db.clients)
    ensures r.Success? <==>
      id in old(db.clients) &&
      (EqualsIgnoreCase(old(db.clients[id].email), req.email) || !EmailTaken(old(db.clients), req.email))
    ensures r.Success? ==>
      && db.clients == old(db.clients)[id := ToEntity(req)]
      && r == GetOne(db, id)
  {
    if id !in db.clients {
      return Failure(NotFound(ClientEntity, id));
    }
    var entity := db.clients[id];
    if !EqualsIgnoreCase(entity.email, req.email) && EmailTaken(db.clients, req.email) {
      return Failure(DuplicateEmail(req.email));
    }
    db.clients := db.clients[id := ToEntity(req)];
    r := GetOne(db, id);
  }

  /** `delete`: refused while an order references the client. */
  method Delete(db: Database, id: ClientId) returns (r: Outcome<Error>)
    requires db.Valid()
    modifies db
    ensures db.Valid()
    ensures db.orders == old(db.orders) && db.products == old(db.products)
    ensures id !in old(db.clients) ==> r == Fail(NotFound(ClientEntity, id)) && db.clients == old(db.clients)
    ensures id in old(db.clients) && CountOrders(old(db.orders), id) > 0 ==>
      r == Fail(ClientInUse(id)) && db.clients == old(db.clients)
    ensures r == Pass <==> id in old(db.clients) && CountOrders(old(db.orders), id) == 0
    ensures r == Pass ==> db.clients == old(db.clients) - {id}
  {
    if id !in db.clients {
      return Fail(NotFound(ClientEntity, id));
    }
    if CountOrders(db.orders, id) > 0 {
      return Fail(ClientInUse(id));
    }
    db.clients := db.clients - {id};
    r := Pass;
  }

  // ---- findAll ----

  /** `ClientFilter`; each field may be absent. */
  datatype ClientFilter = ClientFilter(firstName: Option<string>, lastName: Option<string>,
                                       email: Option<string>, phone: Option<string>)

  function FirstNameColumn(c: Client): string { c.firstName }
  function LastNameColumn(c: Client): string { c.lastName }
  function EmailColumn(c: Client): string { c.email }
  function PhoneColumn(c: Client): string { c.phone }

  function Spec(f: ClientFilter): (p: Pred<Client>)
    ensures IsBlank(f.firstName) && IsBlank(f.lastName) && IsBlank(f.email) && IsBlank(f.phone) ==>
      forall c :: Eval(p, c)
  {
    And(And(And(Like(FirstNameColumn, f.firstName), Like(LastNameColumn, f.lastName)),
            Like(EmailColumn, f.email)), Like(PhoneColumn, f.phone))
  }

  predicate Accepts(value: Option<string>, field: string)
  {
    IsBlank(value) || IsSubstring(LowerStr(value.value), LowerStr(field))
  }

  predicate Plain(value: Option<string>)
  {
    value.Some? ==> NoWildcards(value.value)
  }

  /** The filter is the conjunction of case-insensitive substring tests, a
      blank field imposing none. */
  lemma SpecAccepts(f: ClientFilter, c: Client)
    requires Plain(f.firstName) && Plain(f.lastName) && Plain(f.email) && Plain(f.phone)
    ensures Eval(Spec(f), c) <==>
      Accepts(f.firstName, c.firstName) && Accepts(f.lastName, c.lastName) &&
      Accepts(f.email, c.email) && Accepts(f.phone, c.phone)
  {
    assert FirstNameColumn(c) == c.firstName && LastNameColumn(c) == c.lastName;
    assert EmailColumn(c) == c.email && PhoneColumn(c) == c.phone;
    LikeAcceptsIff(FirstNameColumn, f.firstName, c);
    LikeAcceptsIff(LastNameColumn, f.lastName, c);
    LikeAcceptsIff(EmailColumn, f.email, c);
    LikeAcceptsIff(PhoneColumn, f.phone, c);
    var first := Like(FirstNameColumn, f.firstName);
    var last := Like(LastNameColumn, f.lastName);
    var names := And(first, last);
    var withEmail := And(names, Like(EmailColumn, f.email));
    assert Eval(names, c) == (Eval(first, c) && Eval(last, c));
    assert Eval(withEmail, c) == (Eval(names, c) && Eval(Like(EmailColumn, f.email), c));
  }

  /** `countOrdersByClientIds`: a grouped count, so only clients with at
      least one order get an entry. */
  function GroupedCounts(orders: map<OrderId, Order>, ids: seq<ClientId>): (m: map<ClientId, nat>)
    ensures forall c :: c in m <==> c in ids && CountOrders(orders, c) > 0
  {
    map c | c in ids && CountOrders(orders, c) > 0 :: CountOrders(orders, c)
  }

  function RowIds(rows: seq<(ClientId, Client)>): (ids: seq<ClientId>)
    ensures |ids| == |rows| && forall k :: 0 <= k < |rows| ==> ids[k] == rows[k].0
  {
    seq(|rows|, k requires 0 <= k < |rows| => rows[k].0)
  }

  function MapRows(rows: seq<(ClientId, Client)>, counts: map<ClientId, nat>): (content: seq<ClientResponse>)
    ensures |content| == |rows|
    ensures forall k :: 0 <= k < |rows| ==> content[k] == ToResponse(rows[k].0, rows[k].1, counts)
  {
    seq(|rows|, k requires 0 <= k < |rows| => ToResponse(rows[k].0, rows[k].1, counts))
  }

  /** The outcome of `findAll`: the result, and the ids of the count query
      when one is issued. */
  datatype ListOutcome<E> = ListOutcome(result: Result<Page<ClientResponse>, E>, countQuery: Option<seq<ClientId>>)

  function FindAll<E>(db: Database, first: Result<Page<(ClientId, Client)>, E>): (out: ListOutcome<E>)
    reads db
    ensures first.Failure? ==> out.result == Failure(first.error) && out.countQuery.None?
    ensures first.Success? ==> out.result.Success? && out.result.value.total == first.value.total
    ensures first.Success? ==> (out.countQuery.None? <==> first.value.content == [])
    ensures first.Success? && first.value.content != [] ==> out.countQuery == Some(RowIds(first.value.content))
    ensures first.Success? ==>
      var rows := first.value.content;
      var content := out.result.value.content;
      && |content| == |rows|
      && (forall k :: 0 <= k < |rows| ==>
            content[k] == ClientResponse(rows[k].0, rows[k].1.firstName, rows[k].1.lastName, rows[k].1.email,
                                         rows[k].1.phone, CountOrders(db.orders, rows[k].0)))
  {
    match first
    case Failure(e) => ListOutcome(Failure(e), None)
    case Success(page) =>
      var ids := RowIds(page.content);
      var counts := if ids == [] then map[] else GroupedCounts(db.orders, ids);
      var content := MapRows(page.content, counts);
      ListOutcome(Success(Page(content, page.total)), if ids == [] then None else Some(ids))
  }
}

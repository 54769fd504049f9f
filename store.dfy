/** The persistent state the three services share: the `clients`,
    `products` and `orders` tables, each keyed by id. The repositories of the
    source become lookups in these maps. */
module Store {
  import opened Text
  import opened OrderModel

  /** A `clients` row. */
  datatype Client = Client(firstName: string, lastName: string, email: string, phone: string)

  /** A `products` row; the price is an integer amount (only compared). */
  datatype Product = Product(name: string, description: string, price: int)

  /** What the services keep true: no two clients share an email and no two
      products share a name, ignoring case; every order references a stored
      client; and every order's items have distinct products and positive
      quantities. Product references are not part of it: product delete does
      no reference check. */
  ghost predicate StoreInvariant(clients: map<ClientId, Client>, products: map<ProductId, Product>,
                                 orders: map<OrderId, Order>)
  {
    && EmailsUnique(clients)
    && NamesUnique(products)
    && (forall oid :: oid in orders ==> orders[oid].client in clients)
    && (forall oid :: oid in orders ==> WellFormed(orders[oid].items))
  }

  ghost predicate EmailsUnique(clients: map<ClientId, Client>)
  {
    forall a, b :: a in clients && b in clients && a != b ==>
      !EqualsIgnoreCase(clients[a].email, clients[b].email)
  }

  ghost predicate NamesUnique(products: map<ProductId, Product>)
  {
    forall a, b :: a in products && b in products && a != b ==>
      !EqualsIgnoreCase(products[a].name, products[b].name)
  }

  /** A page of a listing: its content and the total the count query reported. */
  datatype Page<T> = Page(content: seq<T>, total: nat)

  class Database {
    var clients: map<ClientId, Client>
    var products: map<ProductId, Product>
    var orders: map<OrderId, Order>

    ghost predicate Valid()
      reads this
    {
      StoreInvariant(clients, products, orders)
    }

    constructor ()
      ensures Valid()
      ensures clients == map[] && products == map[] && orders == map[]
    {
      clients := map[];
      products := map[];
      orders := map[];
    }
  }

  /** The case-folded e-mails of the stored clients, as a case-insensitive
      unique index on the column would hold them. */
  function EmailIndex(clients: map<ClientId, Client>): set<string>
  {
    set id | id in clients :: LowerStr(clients[id].email)
  }

  /** The case-folded names of the stored products. */
  function NameIndex(products: map<ProductId, Product>): set<string>
  {
    set id | id in products :: LowerStr(products[id].name)
  }

  /** `existsByEmailIgnoreCase`: the folded e-mail is in the index. */
  predicate EmailTaken(clients: map<ClientId, Client>, email: string)
    ensures EmailTaken(clients, email) <==> LowerStr(email) in EmailIndex(clients)
  {
    exists id :: id in clients && EqualsIgnoreCase(clients[id].email, email)
  }

  /** `existsByNameIgnoreCase`: the folded name is in the index. */
  predicate NameTaken(products: map<ProductId, Product>, name: string)
    ensures NameTaken(products, name) <==> LowerStr(name) in NameIndex(products)
  {
    exists id :: id in products && EqualsIgnoreCase(products[id].name, name)
  }

  /** `existsByNameIgnoreCaseAndIdNot`: the name is taken by a product other
      than `self`; it differs from `existsByNameIgnoreCase` only by the
      product `self` itself. */
  predicate NameTakenByOther(products: map<ProductId, Product>, name: string, self: ProductId)
    ensures NameTakenByOther(products, name, self) ==> NameTaken(products, name)
    ensures NameTaken(products, name) && !NameTakenByOther(products, name, self) ==>
      self in products && EqualsIgnoreCase(products[self].name, name)
    ensures self !in products ==> (NameTakenByOther(products, name, self) <==> NameTaken(products, name))
  {
    exists id :: id in products && id != self && EqualsIgnoreCase(products[id].name, name)
  }

  /** `countOrdersByClientId`: the orders that reference the client. */
  function OrdersOf(orders: map<OrderId, Order>, client: ClientId): set<OrderId>
  {
    set oid | oid in orders && orders[oid].client == client
  }

  function CountOrders(orders: map<OrderId, Order>, client: ClientId): (n: nat)
    ensures n == 0 <==> forall oid :: oid in orders ==> orders[oid].client != client
  {
    var s := OrdersOf(orders, client);
    assert s == {} <==> forall oid :: oid in orders ==> orders[oid].client != client by {
      forall oid | oid in orders && orders[oid].client == client ensures oid in s {
      }
      if s != {} {
        var oid :| oid in s;
      }
    }
    |s|
  }

  /** A value above every id in use, so ids not in use always exist (the
      generated UUID stands for any such id). */
  lemma {:induction false} AboveAll(ids: set<nat>) returns (b: nat)
    ensures forall x :: x in ids ==> x < b
  {
    if ids == {} {
      b := 0;
    } else {
      var x :| x in ids;
      var rest := AboveAll(ids - {x});
      b := if x < rest then rest else x + 1;
      forall y | y in ids ensures y < b {
        if y != x {
          assert y in ids - {x};
        }
      }
    }
  }
}

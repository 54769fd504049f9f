/** The exceptions the services throw, with the messages their constructors
    compose. Ids are rendered in decimal, standing in for `UUID.toString`. */
module Errors {
  import opened Text

  /** The entity names the services pass to `NotFoundException`. */
  const ClientEntity: string := "Client"
  const ProductEntity: string := "Product"
  const OrderEntity: string := "Order"
  const OrderItemEntity: string := "Order item (product)"

  datatype Error =
    | NotFound(entity: string, id: nat)
    | DuplicateProductInOrder(productId: nat)
    | DuplicateEmail(email: string)
    | DuplicateProductName(name: string)
    | ClientInUse(clientId: nat)
    | ProductInUse(productId: nat)
    /** `NoSuchElementException` of the in-memory employee store. */
    | NoSuchElement(employeeId: nat)

  function DigitChar(d: nat): char
    requires d < 10
  {
    "0123456789"[d]
  }

  /** Decimal text of an id. */
  function IdText(n: nat): (s: string)
    ensures |s| >= 1
    ensures forall i :: 0 <= i < |s| ==> '0' <= s[i] <= '9'
    decreases n
  {
    if n < 10 then [DigitChar(n)] else IdText(n / 10) + [DigitChar(n % 10)]
  }

  /** `getMessage()` of each exception: every message names the entity, id,
      e-mail or product name it is about. */
  function Message(e: Error): (m: string)
    ensures e.NotFound? ==> OccursAt(e.entity, m, 0) && IsSubstring(IdText(e.id), m)
    ensures e.DuplicateProductInOrder? ==> IsSubstring(IdText(e.productId), m)
    ensures e.DuplicateEmail? ==> IsSubstring(e.email, m)
    ensures e.DuplicateProductName? ==> IsSubstring(e.name, m)
    ensures e.ClientInUse? ==> IsSubstring(IdText(e.clientId), m)
    ensures e.ProductInUse? ==> IsSubstring(IdText(e.productId), m)
    ensures e.NoSuchElement? ==> IsSubstring(IdText(e.employeeId), m)
  {
    match e
    case NotFound(entity, id) =>
      var m := Enclose(entity + " with id ", IdText(id), " not found");
      assert m[..|entity|] == (entity + " with id ")[..|entity|] == entity;
      m
    case DuplicateProductInOrder(pid) => Enclose("Повторяющийся товар в заказе: ", IdText(pid), "")
    case DuplicateEmail(email) => Enclose("Сотрудник с email + ", email, " уже существует")
    case DuplicateProductName(name) => Enclose("Продукт с названием ", name, " уже существует")
    case ClientInUse(id) => Enclose("Клиент ", IdText(id), " имеет заказы")
    case ProductInUse(id) => Enclose("Продукт  ", IdText(id), " уже используется в заказах")
    case NoSuchElement(id) => Enclose("Employee not found: ", IdText(id), "")
  }

  /** A not-found message determines the id it reports. */
  lemma NotFoundMessageNamesId(entity: string, a: nat, b: nat)
    requires Message(NotFound(entity, a)) == Message(NotFound(entity, b))
    ensures a == b
  {
    var m := Message(NotFound(entity, a));
    var n := |entity| + |" with id "|;
    assert m[n..|m| - |" not found"|] == IdText(a);
    assert m[n..|m| - |" not found"|] == IdText(b);
    IdTextInjective(a, b);
  }

  /** Distinct ids have distinct texts, so a message names its id unambiguously. */
  lemma {:induction false} IdTextInjective(a: nat, b: nat)
    requires IdText(a) == IdText(b)
    ensures a == b
    decreases a
  {
    var s := IdText(a);
    if a >= 10 && b >= 10 {
      assert IdText(a / 10) == s[..|s| - 1] == IdText(b / 10);
      IdTextInjective(a / 10, b / 10);
      DigitCharInjective(a % 10, b % 10);
    } else if a < 10 && b < 10 {
      DigitCharInjective(a, b);
    }
  }

  lemma DigitCharInjective(a: nat, b: nat)
    requires a < 10 && b < 10 && DigitChar(a) == DigitChar(b)
    ensures a == b
  {
  }
}

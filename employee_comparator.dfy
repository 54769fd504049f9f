/** `EmployeeComparatorFactory`: the ordering of the employee listing. */
module EmployeeComparatorFactory {
  import opened Wrappers
  import opened Text
  import opened Employees
  import opened SortParser

  /** The key a comparator orders by. */
  datatype Key = ById | ByLastName | ByFirstName | ByEmail

  /** A comparator: a key, and whether `reversed()` was applied. */
  datatype EmployeeComparator = EmployeeComparator(key: Key, reversed: bool)

  /** Stored employees carry an id; `comparing(Employee::getId)` would throw
      on a missing one. The name keys compare text only and need no id. */
  predicate Stored(e: Employee)
  {
    e.id.Some?
  }

  /** Id order, with the -1/0/1 results of `compareTo`. */
  function CompareIds(a: nat, b: nat): (c: int)
    ensures c < 0 <==> a < b
    ensures c == 0 <==> a == b
  {
    if a < b then -1 else if a == b then 0 else 1
  }

  function CompareBy(key: Key, a: Employee, b: Employee): int
    requires key == ById ==> Stored(a) && Stored(b)
  {
    match key
    case ById => CompareIds(a.id.value, b.id.value)
    case ByLastName => CompareIgnoreCase(a.lastName, b.lastName)
    case ByFirstName => CompareIgnoreCase(a.firstName, b.firstName)
    case ByEmail => CompareIgnoreCase(a.email, b.email)
  }

  /** `compare(a, b)`; a reversed comparator compares its arguments swapped. */
  function Compare(c: EmployeeComparator, a: Employee, b: Employee): int
    requires c.key == ById ==> Stored(a) && Stored(b)
  {
    if c.reversed then CompareBy(c.key, b, a) else CompareBy(c.key, a, b)
  }

  /** The switch on the field name, with id order for any other name. */
  function KeyOf(field: string): (k: Key)
    ensures k == ByLastName <==> field == "lastName"
    ensures k == ByFirstName <==> field == "firstName"
    ensures k == ByEmail <==> field == "email"
  {
    if field == "lastName" then ByLastName
    else if field == "firstName" then ByFirstName
    else if field == "email" then ByEmail
    else ById
  }

  /** `build`. */
  function Build(order: Option<SortOrder>): (c: EmployeeComparator)
    ensures order.None? ==> c == EmployeeComparator(ById, false)
    ensures order.Some? ==> c.key == KeyOf(order.value.field) && c.reversed == !order.value.asc
  {
    if order.None? then EmployeeComparator(ById, false)
    else
      var comparator := EmployeeComparator(KeyOf(order.value.field), false);
      if order.value.asc then comparator else comparator.(reversed := true)
  }

  lemma CompareByAntisymmetric(key: Key, a: Employee, b: Employee)
    requires key == ById ==> Stored(a) && Stored(b)
    ensures CompareBy(key, a, b) == -CompareBy(key, b, a)
  {
    match key
    case ById =>
    case ByLastName => CompareAntisymmetric(a.lastName, b.lastName);
    case ByFirstName => CompareAntisymmetric(a.firstName, b.firstName);
    case ByEmail => CompareAntisymmetric(a.email, b.email);
  }

  /** Descending negates the ascending comparison, whatever the field. */
  lemma DescendingNegates(field: string, a: Employee, b: Employee)
    requires KeyOf(field) == ById ==> Stored(a) && Stored(b)
    ensures Compare(Build(Some(SortOrder(field, false))), a, b) == -Compare(Build(Some(SortOrder(field, true))), a, b)
  {
    CompareByAntisymmetric(KeyOf(field), a, b);
  }

  /** No sort order, or an unknown field, orders by id; descending reverses it. */
  lemma FallsBackToId(order: Option<SortOrder>, a: Employee, b: Employee)
    requires Stored(a) && Stored(b)
    requires order.Some? ==> order.value.field !in {"lastName", "firstName", "email"}
    ensures order.None? || order.value.asc ==> (Compare(Build(order), a, b) < 0 <==> a.id.value < b.id.value)
    ensures order.Some? && !order.value.asc ==> (Compare(Build(order), a, b) < 0 <==> b.id.value < a.id.value)
    ensures Compare(Build(order), a, b) == 0 <==> a.id == b.id
  {
  }

  /** A named field orders by that field's text ignoring case. */
  lemma NamedFieldIgnoresCase(field: string, asc: bool, a: Employee, b: Employee)
    requires field in {"lastName", "firstName", "email"}
    ensures var text := (e: Employee) => if field == "lastName" then e.lastName
                                          else if field == "firstName" then e.firstName else e.email;
      Compare(Build(Some(SortOrder(field, asc))), a, b) == 0 <==> EqualsIgnoreCase(text(a), text(b))
  {
    CompareZeroIffEqualsIgnoreCase(a.lastName, b.lastName);
    CompareZeroIffEqualsIgnoreCase(a.firstName, b.firstName);
    CompareZeroIffEqualsIgnoreCase(a.email, b.email);
    CompareZeroIffEqualsIgnoreCase(b.lastName, a.lastName);
    CompareZeroIffEqualsIgnoreCase(b.firstName, a.firstName);
    CompareZeroIffEqualsIgnoreCase(b.email, a.email);
  }

  /** Whatever `build` returns is a valid comparator: its sign flips with the
      arguments and "not after" is transitive. */
  lemma BuiltIsComparator(order: Option<SortOrder>, a: Employee, b: Employee, x: Employee)
    requires Build(order).key == ById ==> Stored(a) && Stored(b) && Stored(x)
    ensures Compare(Build(order), a, b) == -Compare(Build(order), b, a)
    ensures Compare(Build(order), a, b) <= 0 && Compare(Build(order), b, x) <= 0 ==> Compare(Build(order), a, x) <= 0
  {
    var c := Build(order);
    CompareByAntisymmetric(c.key, a, b);
    if Compare(c, a, b) <= 0 && Compare(c, b, x) <= 0 {
      if c.reversed {
        CompareByTransitive(c.key, x, b, a);
      } else {
        CompareByTransitive(c.key, a, b, x);
      }
    }
  }

  lemma CompareByTransitive(key: Key, a: Employee, b: Employee, x: Employee)
    requires key == ById ==> Stored(a) && Stored(b) && Stored(x)
    requires CompareBy(key, a, b) <= 0 && CompareBy(key, b, x) <= 0
    ensures CompareBy(key, a, x) <= 0
  {
    match key
    case ById =>
    case ByLastName => CompareTransitive(a.lastName, b.lastName, x.lastName);
    case ByFirstName => CompareTransitive(a.firstName, b.firstName, x.firstName);
    case ByEmail => CompareTransitive(a.email, b.email, x.email);
  }
}

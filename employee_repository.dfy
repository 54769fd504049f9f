/** `InMemoryEmployeeRepository`: employees kept in a map from id. */
module InMemoryEmployeeRepository {
  import opened Wrappers
  import opened Text
  import opened Errors
  import opened Store
  import opened Employees

  class InMemoryEmployeeRepository {
    var employees: map<nat, Employee>

    /** Every stored employee carries the id it is stored under. */
    ghost predicate Valid()
      reads this
    {
      forall k :: k in employees ==> employees[k].id == Some(k)
    }

    constructor ()
      ensures Valid() && employees == map[]
    {
      employees := map[];
    }

    /** `save`: an employee without an id gets one not in use, then is put
        under its id, replacing whatever was there. */
    method Save(e: Employee) returns (saved: Employee)
      requires Valid()
      modifies this
      ensures Valid()
      ensures e.id.Some? ==> saved == e
      ensures e.id.None? ==> saved.id.Some? && saved.id.value !in old(employees) && saved == e.(id := saved.id)
      ensures saved.id.Some? && employees == old(employees)[saved.id.value := saved]
    {
      saved := e;
      if e.id.None? {
        ghost var bound := AboveAll(employees.Keys);
        assert bound !in employees;
        var id: nat :| id !in employees;
        saved := e.(id := Some(id));
      }
      employees := employees[saved.id.value := saved];
    }

    /** `findById`. */
    function FindById(id: nat): (r: Option<Employee>)
      reads this
      ensures r.Some? <==> id in employees
      ensures r.Some? ==> r.value == employees[id]
    {
      if id in employees then Some(employees[id]) else None
    }

    /** `findAll`: a copy of the stored values, in the map's iteration order. */
    method FindAll() returns (all: seq<Employee>)
      requires Valid()
      ensures |all| == |employees|
      ensures forall e :: e in all <==> e in employees.Values
    {
      all := [];
      var rest := employees.Keys;
      while rest != {}
        invariant rest <= employees.Keys
        invariant |all| + |rest| == |employees.Keys|
        invariant forall e :: e in all <==> exists k :: k in employees.Keys - rest && employees[k] == e
        decreases rest
      {
        var k :| k in rest;
        all := all + [employees[k]];
        rest := rest - {k};
      }
      assert employees.Keys - rest == employees.Keys;
      assert |employees.Keys| == |employees|;
    }

    /** `deleteById`: an absent id throws and nothing changes. */
    method DeleteById(id: nat) returns (r: Outcome<Error>)
      requires Valid()
      modifies this
      ensures Valid()
      ensures id !in old(employees) ==> r == Fail(NoSuchElement(id)) && employees == old(employees)
      ensures id in old(employees) ==> r == Pass && employees == old(employees) - {id}
    {
      if id !in employees {
        return Fail(NoSuchElement(id));
      }
      employees := employees - {id};
      r := Pass;
    }

    /** `existsByEmail`: a scan of the stored values. */
    method ExistsByEmail(email: string) returns (found: bool)
      ensures found <==> exists k :: k in employees && EqualsIgnoreCase(employees[k].email, email)
    {
      found := false;
      var rest := employees.Keys;
      while rest != {}
        invariant rest <= employees.Keys
        invariant found <==> exists k :: k in employees.Keys - rest && EqualsIgnoreCase(employees[k].email, email)
        decreases rest
      {
        var k :| k in rest;
        if EqualsIgnoreCase(employees[k].email, email) {
          found := true;
        }
        rest := rest - {k};
      }
    }
  }
}

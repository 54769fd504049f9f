/** The `Employee` entity and the filters over it. */
module Employees {
  import opened Wrappers

  datatype EmployeeRole = MANAGER | ADMINISTRATOR

  /** An employee; the id is absent until the store assigns one. */
  datatype Employee = Employee(
    id: Option<nat>, firstName: string, lastName: string, email: string, password: string, role: EmployeeRole)
}

/** `EmployeeSpecs`: each builder yields no restriction (a null
    specification, here None) for an absent argument. */
module EmployeeSpecs {
  import opened Wrappers
  import opened Text
  import opened SpecBuilder
  import opened Employees

  function FirstNameColumn(e: Employee): string { e.firstName }
  function LastNameColumn(e: Employee): string { e.lastName }

  function RoleName(r: EmployeeRole): string
  {
    match r
    case MANAGER => "MANAGER"
    case ADMINISTRATOR => "ADMINISTRATOR"
  }

  function RoleColumn(e: Employee): string { RoleName(e.role) }

  /** The `like` on a lower-cased column that both name builders emit. A
      present term is applied even when it is blank. */
  function Contains(column: Employee -> string, term: Option<string>): (s: Option<Pred<Employee>>)
    ensures s.None? <==> term.None?
  {
    if term.None? then None else Some(Matches(column, "%" + LowerStr(term.value) + "%"))
  }

  function FirstNameContains(term: Option<string>): (s: Option<Pred<Employee>>)
    ensures s.None? <==> term.None?
  {
    Contains(FirstNameColumn, term)
  }

  function LastNameContains(term: Option<string>): (s: Option<Pred<Employee>>)
    ensures s.None? <==> term.None?
  {
    Contains(LastNameColumn, term)
  }

  function HasRole(role: Option<EmployeeRole>): (s: Option<Pred<Employee>>)
    ensures s.None? <==> role.None?
    ensures s.Some? ==> forall e :: Eval(s.value, e) <==> e.role == role.value
  {
    if role.None? then None
    else
      var p := Equals(RoleColumn, RoleName(role.value));
      assert forall e :: Eval(p, e) <==> e.role == role.value by {
        forall e ensures Eval(p, e) <==> e.role == role.value {
          assert RoleColumn(e) == RoleName(e.role);
          RoleMatch(e.role, role.value);
        }
      }
      Some(p)
  }

  lemma RoleMatch(a: EmployeeRole, b: EmployeeRole)
    ensures RoleName(a) == RoleName(b) <==> a == b
  {
  }

  /** A present term accepts exactly the employees whose lower-cased first
      name contains the lower-cased term. */
  lemma FirstNameContainsIff(term: string, e: Employee)
    requires NoWildcards(term)
    ensures Eval(FirstNameContains(Some(term)).value, e) <==> IsSubstring(LowerStr(term), LowerStr(e.firstName))
  {
    LowerKeepsNoWildcards(term);
    assert FirstNameColumn(e) == e.firstName;
    ContainsPatternMatch(LowerStr(e.firstName), LowerStr(term));
  }

  lemma LastNameContainsIff(term: string, e: Employee)
    requires NoWildcards(term)
    ensures Eval(LastNameContains(Some(term)).value, e) <==> IsSubstring(LowerStr(term), LowerStr(e.lastName))
  {
    LowerKeepsNoWildcards(term);
    assert LastNameColumn(e) == e.lastName;
    ContainsPatternMatch(LowerStr(e.lastName), LowerStr(term));
  }

  /** A blank term is still applied: a single space rejects a first name
      without one, where `SpecBuilder.like` would accept every row. */
  lemma BlankTermStillApplied()
    ensures var e := Employee(None, "Ann", "Lee", "ann@example.com", "secret", MANAGER);
      && !Eval(FirstNameContains(Some(" ")).value, e)
      && Eval(Like(FirstNameColumn, Some(" ")), e)
  {
    var e := Employee(None, "Ann", "Lee", "ann@example.com", "secret", MANAGER);
    FirstNameContainsIff(" ", e);
    assert LowerStr("Ann") == "ann";
    assert LowerStr(" ") == " ";
    assert !IsSubstring(" ", "ann") by {
      forall i | 0 <= i <= 2 ensures !OccursAt(" ", "ann", i) {
        assert "ann"[i..i + 1][0] == "ann"[i];
      }
    }
    assert IsBlankText(" ") by {
      assert IsWhitespace(' ');
    }
  }
}

/** `EmployeePredicateFactory`: the in-memory filter. */
module EmployeePredicateFactory {
  import opened Wrappers
  import opened Text
  import opened Employees

  /** The filter record it takes, which also carries a sort. */
  datatype EmployeeFilter = EmployeeFilter(firstName: Option<string>, role: Option<EmployeeRole>, sort: Option<string>)

  /** Start from "always true" and conjoin the present conditions. */
  function Build(f: EmployeeFilter): (p: Employee -> bool)
    ensures forall e :: p(e) <==>
      (f.firstName.None? || EqualsIgnoreCase(e.firstName, f.firstName.value)) &&
      (f.role.None? || e.role == f.role.value)
  {
    var always := (e: Employee) => true;
    var byName := if f.firstName.Some?
      then (e: Employee) => always(e) && EqualsIgnoreCase(e.firstName, f.firstName.value)
      else always;
    var byRole := if f.role.Some?
      then (e: Employee) => byName(e) && e.role == f.role.value
      else byName;
    byRole
  }

  /** A present first name must match in full, ignoring case: a prefix does
      not match. */
  lemma NameIsExactNotSubstring()
    ensures var e := Employee(None, "Anna", "Lee", "anna@example.com", "secret", MANAGER);
      !Build(EmployeeFilter(Some("ann"), None, None))(e) &&
      Build(EmployeeFilter(Some("ANNA"), None, None))(e)
  {
    assert LowerStr("Anna") == "anna";
    assert LowerStr("ANNA") == "anna";
    assert |LowerStr("ann")| == 3;
  }
}

/**
 * The employee page: its search filter, the copies made when editing an
 * employee, and the enablement of its Add and Save buttons.
 */
module EmployeePage {
  import opened Wrappers
  import opened Text
  import opened Seqs

  /**
   * An employee record as the page holds it. The list comes without a
   * password key (None); the page guards name and email as possibly absent.
   */
  datatype Employee = Employee(
    id: int, username: string, password: Option<string>,
    name: Option<string>, email: Option<string>, phone: string, role: string)

  /** `field?.toLowerCase().includes(term.toLowerCase())` */
  predicate FoldedFieldIncludes(field: Option<string>, term: string)
  {
    field.Some? && Includes(ToLower(field.value), ToLower(term))
  }

  /** The test `filteredEmployees` applies: the name or the email contains the term, ignoring case. */
  predicate EmployeeMatches(e: Employee, term: string)
  {
    FoldedFieldIncludes(e.name, term) || FoldedFieldIncludes(e.email, term)
  }

  /** `filteredEmployees` */
  function FilteredEmployees(employees: seq<Employee>, term: string): seq<Employee>
  {
    Filter(employees, (e: Employee) => EmployeeMatches(e, term))
  }

  /**
   * The result is an order-preserving subsequence holding exactly the employees
   * whose name or email contains the term, and it ignores the term's case.
   */
  lemma FilteredEmployeesSpec(employees: seq<Employee>, term: string, e: Employee)
    ensures IsSubsequence(FilteredEmployees(employees, term), employees)
    ensures e in FilteredEmployees(employees, term)
        <==> e in employees && (FoldedFieldIncludes(e.name, term) || FoldedFieldIncludes(e.email, term))
    ensures FilteredEmployees(employees, term) == FilteredEmployees(employees, ToLower(term))
    ensures multiset(FilteredEmployees(employees, term))[e] == if EmployeeMatches(e, term) then multiset(employees)[e] else 0
  {
    FilterIsSubsequence(employees, (e: Employee) => EmployeeMatches(e, term));
    FilterMembership(employees, (e: Employee) => EmployeeMatches(e, term), e);
    FilterCount(employees, (e: Employee) => EmployeeMatches(e, term), e);
    ToLowerIdempotent(term);
    FilterSamePredicate(employees, (e: Employee) => EmployeeMatches(e, term),
                        (e: Employee) => EmployeeMatches(e, ToLower(term)));
  }

  /** JavaScript truthiness of an optional string: present and non-empty. */
  predicate Truthy(x: Option<string>)
  {
    x.Some? && x.value != ""
  }

  /**
   * The body `handleEditEmployee` sends: the record without its password key
   * when the password is falsy, the record itself otherwise.
   */
  function WithoutEmptyPassword(e: Employee): (r: Employee)
    ensures r.password.Some? <==> Truthy(e.password)
    ensures r.password.Some? ==> r.password == e.password
    ensures r.(password := e.password) == e
  {
    if Truthy(e.password) then e else e.(password := None)
  }

  /** `handleEditEmployee`'s payload: copy the record, then delete its password key in place if falsy. */
  method EditPayload(selected: Employee) returns (data: Employee)
    ensures data == WithoutEmptyPassword(selected)
  {
    data := selected;
    if !Truthy(data.password) {
      data := data.(password := None);
    }
  }

  /** `openEditDialog`: a copy whose password is the empty string. */
  function OpenEditDialog(e: Employee): (r: Employee)
    ensures r.password == Some("")
    ensures r.(password := e.password) == e
  {
    e.(password := Some(""))
  }

  /**
   * Editing without typing a password sends no password at all: the update
   * body is the record as opened, minus the password key. Typing one sends it.
   */
  lemma EditWithoutPasswordOmitsIt(e: Employee, typed: string)
    ensures WithoutEmptyPassword(OpenEditDialog(e)) == e.(password := None)
    ensures typed != "" ==> WithoutEmptyPassword(OpenEditDialog(e).(password := Some(typed))) == e.(password := Some(typed))
  {
  }

  /** The add dialog's form. */
  datatype NewEmployeeForm = NewEmployeeForm(
    username: string, password: string, name: string, email: string, phone: string, role: string)

  /** `!username || !password || !name` disables Add. */
  predicate AddEmployeeEnabled(form: NewEmployeeForm)
  {
    form.username != "" && form.password != "" && form.name != ""
  }

  /** `!selectedEmployee?.username || !selectedEmployee?.name` disables Save. */
  predicate SaveEmployeeEnabled(selected: Option<Employee>)
  {
    selected.Some? && selected.value.username != "" && Truthy(selected.value.name)
  }

  /** `resetForm`: every field empty and the role EMPLOYEE. */
  function ResetEmployeeForm(): NewEmployeeForm
  {
    NewEmployeeForm("", "", "", "", "", "EMPLOYEE")
  }

  /** Add needs a username, a password and a name; a reset form has none of them. */
  lemma AddEmployeeRule(form: NewEmployeeForm)
    ensures AddEmployeeEnabled(form) <==> form.username != "" && form.password != "" && form.name != ""
    ensures form.password == "" ==> !AddEmployeeEnabled(form)
    ensures !AddEmployeeEnabled(ResetEmployeeForm())
    ensures ResetEmployeeForm().role == "EMPLOYEE"
    ensures AddEmployeeEnabled(ResetEmployeeForm().(username := form.username, password := form.password, name := form.name))
         == AddEmployeeEnabled(form)
  {
  }

  /**
   * Save needs a username and a name but not a password, so the blanked
   * password of the edit dialog never disables it.
   */
  lemma SaveEmployeeRule(e: Employee)
    ensures SaveEmployeeEnabled(Some(OpenEditDialog(e))) == SaveEmployeeEnabled(Some(e))
    ensures SaveEmployeeEnabled(Some(e)) <==> e.username != "" && Truthy(e.name)
    ensures !SaveEmployeeEnabled(None)
  {
  }
}

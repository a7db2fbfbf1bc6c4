/**
 * The employee page's edit request as the user service receives it: what the
 * page's password stripping achieves against the service's update rule.
 */
module EmployeeEdit {
  import opened Wrappers
  import opened UserStore
  import EmployeePage
  import Users

  /** A key of the JSON body: absent when the page's record has no such key. */
  function FieldOf(x: Option<string>): Users.Field<string>
  {
    if x.Some? then Users.Value(x.value) else Users.Undefined
  }

  /** The body `updateEmployee` sends, read as the service's update request. */
  function UpdateBody(payload: EmployeePage.Employee): (dto: Users.UpdateUserDto)
    requires payload.role == "EMPLOYEE" || payload.role == "MANAGER"
    ensures dto.password.Undefined? <==> payload.password.None?
    ensures dto.role == Users.Value(if payload.role == "MANAGER" then Manager else Employee)
  {
    Users.UpdateUserDto(
      Users.Value(payload.username), FieldOf(payload.password), FieldOf(payload.name),
      FieldOf(payload.email), Users.Value(payload.phone),
      Users.Value(if payload.role == "MANAGER" then Manager else Employee))
  }

  /**
   * Saving the edit dialog without typing a password keeps the stored
   * password; were the blank password sent, the service would store "".
   */
  lemma EditWithoutPasswordKeepsStoredOne(stored: User, e: EmployeePage.Employee, hash: string -> string)
    requires e.role == "EMPLOYEE" || e.role == "MANAGER"
    ensures Users.Patched(stored, UpdateBody(EmployeePage.WithoutEmptyPassword(EmployeePage.OpenEditDialog(e))), hash).password
         == stored.password
    ensures Users.Patched(stored, UpdateBody(EmployeePage.OpenEditDialog(e)), hash).password == ""
  {
    Users.PatchedFields(stored, UpdateBody(EmployeePage.WithoutEmptyPassword(EmployeePage.OpenEditDialog(e))), hash);
    Users.PatchedFields(stored, UpdateBody(EmployeePage.OpenEditDialog(e)), hash);
  }
}

/**
 * The users table the two services share. The table assigns increasing ids and
 * refuses a second row with the same id, username or email, as its unique
 * constraints do; the services read it with `findUnique`/`findFirst` and
 * change it with `create`, `update` and `delete`.
 */
module UserStore {
  import opened Wrappers
  import opened Seqs

  datatype Role = Employee | Manager

  /** A stored user; `password` is whatever the writing service stored. */
  datatype User = User(
    id: int, username: string, password: string,
    name: string, email: string, phone: string, role: Role)

  /** A row to insert: every column except the id the table assigns. */
  datatype NewUser = NewUser(
    username: string, password: string, name: string, email: string, phone: string, role: Role)

  /** The errors the services throw, and the two the table raises itself. */
  datatype ServiceError =
    | UserNotFound        // 'User không tồn tại'
    | DuplicateUser       // 'Username hoặc Email đã tồn tại'
    | CreateFailed        // 'Tạo người dùng không thành công'
    | InvalidCredentials  // 'Email hoặc mật khẩu không đúng'
    | EmailTaken          // 'Email đã tồn tại'
    | UniqueViolation     // the table refuses a duplicate username or email
    | RecordNotFound      // the table refuses to update or delete a missing row

  /** The table's unique constraints: no two rows share an id, a username or an email. */
  predicate UniqueKeys(users: seq<User>)
  {
    forall i, j :: 0 <= i < j < |users| ==>
      users[i].id != users[j].id && users[i].username != users[j].username && users[i].email != users[j].email
  }

  /** Some row other than the one at `skip` has this username or this email. */
  predicate Clashes(users: seq<User>, skip: int, username: string, email: string)
  {
    exists j :: 0 <= j < |users| && j != skip && (users[j].username == username || users[j].email == email)
  }

  /** `findUnique({ where: { id } })`, as a position. */
  function IndexOfId(users: seq<User>, id: int): Option<nat>
  {
    FindIndex(users, (u: User) => u.id == id)
  }

  /** `findUnique({ where: { id } })` */
  function FindById(users: seq<User>, id: int): Option<User>
  {
    Find(users, (u: User) => u.id == id)
  }

  /** `findUnique({ where: { username } })` */
  function FindByUsername(users: seq<User>, username: string): Option<User>
  {
    Find(users, (u: User) => u.username == username)
  }

  /** `findUnique({ where: { email } })` */
  function FindByEmail(users: seq<User>, email: string): Option<User>
  {
    Find(users, (u: User) => u.email == email)
  }

  /** Under the constraints, looking up a row's own id, username or email finds that row. */
  lemma LookupsFindTheRow(users: seq<User>, i: nat)
    requires UniqueKeys(users) && i < |users|
    ensures IndexOfId(users, users[i].id) == Some(i)
    ensures FindById(users, users[i].id) == Some(users[i])
    ensures FindByUsername(users, users[i].username) == Some(users[i])
    ensures FindByEmail(users, users[i].email) == Some(users[i])
  {
    FindUnique(users, (u: User) => u.id == users[i].id, i);
    FindUnique(users, (u: User) => u.username == users[i].username, i);
    FindUnique(users, (u: User) => u.email == users[i].email, i);
  }

  lemma AppendKeepsUnique(users: seq<User>, u: User)
    requires UniqueKeys(users)
    requires forall j :: 0 <= j < |users| ==> users[j].id != u.id
    requires !Clashes(users, |users|, u.username, u.email)
    ensures UniqueKeys(users + [u])
  {
  }

  lemma ReplaceKeepsUnique(users: seq<User>, i: nat, u: User)
    requires UniqueKeys(users) && i < |users| && u.id == users[i].id
    requires !Clashes(users, i, u.username, u.email)
    ensures UniqueKeys(users[i := u])
  {
  }

  lemma RemoveKeepsUnique(users: seq<User>, i: nat)
    requires UniqueKeys(users) && i < |users|
    ensures UniqueKeys(users[..i] + users[i + 1..])
  {
    var r := users[..i] + users[i + 1..];
    forall a, b | 0 <= a < b < |r|
      ensures r[a].id != r[b].id && r[a].username != r[b].username && r[a].email != r[b].email
    {
      var a' := if a < i then a else a + 1;
      var b' := if b < i then b else b + 1;
      assert r[a] == users[a'] && r[b] == users[b'];
    }
  }

  /** The users table. */
  class UserTable {
    var users: seq<User>
    var nextId: int

    /** The constraints hold and every id is below the next one to assign. */
    ghost predicate Valid()
      reads this
    {
      UniqueKeys(users) && forall i :: 0 <= i < |users| ==> users[i].id < nextId
    }

    constructor ()
      ensures Valid() && users == [] && nextId == 1
    {
      users := [];
      nextId := 1;
    }

    /** `user.create({ data })`: refused on a duplicate username or email, else appended under a fresh id. */
    method Insert(data: NewUser) returns (r: Result<User, ServiceError>)
      requires Valid()
      modifies this
      ensures Valid()
      ensures Clashes(old(users), |old(users)|, data.username, data.email) ==>
                r == Failure(UniqueViolation) && users == old(users) && nextId == old(nextId)
      ensures !Clashes(old(users), |old(users)|, data.username, data.email) ==>
                && r == Success(User(old(nextId), data.username, data.password, data.name, data.email, data.phone, data.role))
                && users == old(users) + [r.value] && nextId == old(nextId) + 1
    {
      if Clashes(users, |users|, data.username, data.email) {
        r := Failure(UniqueViolation);
        return;
      }
      var u := User(nextId, data.username, data.password, data.name, data.email, data.phone, data.role);
      AppendKeepsUnique(users, u);
      users := users + [u];
      nextId := nextId + 1;
      r := Success(u);
    }

    /** `user.update({ where: { id }, data })`, given the whole new row. */
    method Replace(id: int, u: User) returns (r: Result<User, ServiceError>)
      requires Valid() && u.id == id
      modifies this
      ensures Valid() && nextId == old(nextId)
      ensures IndexOfId(old(users), id).None? ==> r == Failure(RecordNotFound) && users == old(users)
      ensures IndexOfId(old(users), id).Some? ==>
                var i := IndexOfId(old(users), id).value;
                if Clashes(old(users), i, u.username, u.email)
                then r == Failure(UniqueViolation) && users == old(users)
                else r == Success(u) && users == old(users)[i := u]
    {
      var k := IndexOfId(users, id);
      if k.None? {
        r := Failure(RecordNotFound);
        return;
      }
      var i := k.value;
      if Clashes(users, i, u.username, u.email) {
        r := Failure(UniqueViolation);
        return;
      }
      ReplaceKeepsUnique(users, i, u);
      users := users[i := u];
      r := Success(u);
    }

    /** `user.delete({ where: { id } })`: refused when no row has the id, else removes and returns it. */
    method Remove(id: int) returns (r: Result<User, ServiceError>)
      requires Valid()
      modifies this
      ensures Valid() && nextId == old(nextId)
      ensures IndexOfId(old(users), id).None? ==> r == Failure(RecordNotFound) && users == old(users)
      ensures IndexOfId(old(users), id).Some? ==>
                var i := IndexOfId(old(users), id).value;
                r == Success(old(users)[i]) && users == old(users)[..i] + old(users)[i + 1..]
    {
      var k := IndexOfId(users, id);
      if k.None? {
        r := Failure(RecordNotFound);
        return;
      }
      var i := k.value;
      r := Success(users[i]);
      RemoveKeepsUnique(users, i);
      users := users[..i] + users[i + 1..];
    }
  }
}

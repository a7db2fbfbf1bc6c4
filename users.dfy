/**
 * The user service: listing without passwords, lookup by id, creation with a
 * uniqueness check and a hashed password, partial update, and deletion.
 * Password hashing is the service's `hash` function, left uninterpreted.
 */
module Users {
  import opened Wrappers
  import opened Seqs
  import opened UserStore

  /** What `getAll` selects of a user: every column but the password. */
  datatype UserView = UserView(id: int, username: string, name: string, email: string, phone: string, role: Role)

  function Project(u: User): UserView
  {
    UserView(u.id, u.username, u.name, u.email, u.phone, u.role)
  }

  /**
   * `getAll`: every user projected to its public columns. The list follows the
   * model's table order; the query itself promises no order.
   */
  function GetAll(users: seq<User>): (r: seq<UserView>)
    ensures |r| == |users|
    ensures forall i :: 0 <= i < |users| ==>
      r[i].id == users[i].id && r[i].username == users[i].username && r[i].name == users[i].name
      && r[i].email == users[i].email && r[i].phone == users[i].phone && r[i].role == users[i].role
  {
    seq(|users|, i requires 0 <= i < |users| => Project(users[i]))
  }

  /** The list never depends on a password: two tables that differ only in passwords list alike. */
  lemma GetAllIgnoresPasswords(a: seq<User>, b: seq<User>)
    requires |a| == |b|
    requires forall i :: 0 <= i < |a| ==> a[i].(password := b[i].password) == b[i]
    ensures GetAll(a) == GetAll(b)
  {
    assert forall i :: 0 <= i < |a| ==> GetAll(a)[i] == GetAll(b)[i];
  }

  /** A user added to the table appears once more, at the end of the list. */
  lemma GetAllAppend(users: seq<User>, u: User)
    ensures GetAll(users + [u]) == GetAll(users) + [Project(u)]
  {
    assert forall i :: 0 <= i < |users| ==> (users + [u])[i] == users[i];
  }

  /** `getOne`: the user with the id, or 'User không tồn tại'. */
  function GetOne(users: seq<User>, id: int): (r: Result<User, ServiceError>)
    ensures r.Failure? <==> forall i :: 0 <= i < |users| ==> users[i].id != id
    ensures r.Failure? ==> r.error == UserNotFound
    ensures r.Success? ==> r.value in users && r.value.id == id
  {
    match FindById(users, id)
    case None => Failure(UserNotFound)
    case Some(u) => Success(u)
  }

  /** Under the table's constraints `getOne` returns exactly the row with that id. */
  lemma GetOneReturnsTheRow(users: seq<User>, i: nat)
    requires UniqueKeys(users) && i < |users|
    ensures GetOne(users, users[i].id) == Success(users[i])
  {
    LookupsFindTheRow(users, i);
  }

  /** The body of a create request. */
  datatype CreateUserDto = CreateUserDto(
    username: string, password: string, email: string, name: string, phone: string, role: Role)

  /** The `findFirst` of `create`: some user has the username OR the email. */
  function FindExisting(users: seq<User>, username: string, email: string): (r: Option<User>)
    ensures r.None? <==> !Clashes(users, |users|, username, email)
    ensures r.Some? ==> r.value in users && (r.value.username == username || r.value.email == email)
  {
    Find(users, (u: User) => u.username == username || u.email == email)
  }

  /** `create({ data: dto })`: the request's fields as a row. */
  function RowOf(dto: CreateUserDto): NewUser
  {
    NewUser(dto.username, dto.password, dto.name, dto.email, dto.phone, dto.role)
  }

  /** A value of an update request: absent, null, or given. */
  datatype Field<T> = Undefined | Null | Value(v: T)

  /** The body of an update request; every field optional. */
  datatype UpdateUserDto = UpdateUserDto(
    username: Field<string>, password: Field<string>, name: Field<string>,
    email: Field<string>, phone: Field<string>, role: Field<Role>)

  /** `if (dto.password)`: a given, non-empty password. */
  predicate PasswordTruthy(dto: UpdateUserDto)
  {
    dto.password.Value? && dto.password.v != ""
  }

  /** `dto.password = await bcrypt.hash(dto.password, …)` when the password is truthy. */
  function HashPassword(dto: UpdateUserDto, hash: string -> string): UpdateUserDto
  {
    if PasswordTruthy(dto) then dto.(password := Value(hash(dto.password.v))) else dto
  }

  /**
   * One entry surviving `value !== undefined && value !== null` overwrites the
   * column; a dropped entry leaves it as it was.
   */
  function Overwrite<T>(current: T, f: Field<T>): T
  {
    if f.Value? then f.v else current
  }

  /** `update({ data: Object.fromEntries(kept entries) })` applied to the stored row. */
  function ApplyPatch(u: User, dto: UpdateUserDto): User
  {
    User(u.id, Overwrite(u.username, dto.username), Overwrite(u.password, dto.password),
         Overwrite(u.name, dto.name), Overwrite(u.email, dto.email),
         Overwrite(u.phone, dto.phone), Overwrite(u.role, dto.role))
  }

  /** The row `update` writes for the stored row u. */
  function Patched(u: User, dto: UpdateUserDto, hash: string -> string): User
  {
    ApplyPatch(u, HashPassword(dto, hash))
  }

  /**
   * The update rule: the id never changes; a field given a value (even the
   * empty string) takes it; an undefined or null field keeps its old value;
   * the password is hashed only when it is truthy, so an empty one is stored
   * as the empty string.
   */
  lemma PatchedFields(u: User, dto: UpdateUserDto, hash: string -> string)
    ensures var r := Patched(u, dto, hash);
      && r.id == u.id
      && (dto.username.Value? ==> r.username == dto.username.v)
      && (!dto.username.Value? ==> r.username == u.username)
      && (dto.name.Value? ==> r.name == dto.name.v) && (!dto.name.Value? ==> r.name == u.name)
      && (dto.email.Value? ==> r.email == dto.email.v) && (!dto.email.Value? ==> r.email == u.email)
      && (dto.phone.Value? ==> r.phone == dto.phone.v) && (!dto.phone.Value? ==> r.phone == u.phone)
      && (dto.role.Value? ==> r.role == dto.role.v) && (!dto.role.Value? ==> r.role == u.role)
      && (PasswordTruthy(dto) ==> r.password == hash(dto.password.v))
      && (dto.password == Value("") ==> r.password == "")
      && (!dto.password.Value? ==> r.password == u.password)
  {
  }

  /** A request whose every field is undefined or null rewrites the row unchanged. */
  lemma EmptyPatchKeepsRow(u: User, dto: UpdateUserDto, hash: string -> string)
    requires !dto.username.Value? && !dto.password.Value? && !dto.name.Value?
    requires !dto.email.Value? && !dto.phone.Value? && !dto.role.Value?
    ensures Patched(u, dto, hash) == u
  {
  }

  /** Without a password, sending the same update twice is sending it once. */
  lemma PatchIdempotent(u: User, dto: UpdateUserDto, hash: string -> string)
    requires !PasswordTruthy(dto)
    ensures Patched(Patched(u, dto, hash), dto, hash) == Patched(u, dto, hash)
  {
  }

  /** The user service, over the shared table. */
  class UserService {
    const db: UserTable
    const hash: string -> string

    constructor (db: UserTable, hash: string -> string)
      ensures this.db == db && this.hash == hash
    {
      this.db := db;
      this.hash := hash;
    }

    /**
     * `create`: refused when a user already has the username or the email;
     * otherwise stores the request with its password hashed. Whatever fails
     * inside, the caller sees only 'Tạo người dùng không thành công'.
     */
    method Create(dto: CreateUserDto) returns (r: Result<User, ServiceError>)
      requires db.Valid()
      modifies db
      ensures db.Valid()
      ensures r.Failure? <==> Clashes(old(db.users), |old(db.users)|, dto.username, dto.email)
      ensures r.Failure? ==> r.error == CreateFailed && db.users == old(db.users) && db.nextId == old(db.nextId)
      ensures r.Success? ==>
        && r.value == User(old(db.nextId), dto.username, hash(dto.password), dto.name, dto.email, dto.phone, dto.role)
        && db.users == old(db.users) + [r.value] && db.nextId == old(db.nextId) + 1
    {
      var outcome: Result<User, ServiceError>;
      var existing := FindExisting(db.users, dto.username, dto.email);
      if existing.Some? {
        outcome := Failure(DuplicateUser);
      } else {
        var data := dto;
        data := data.(password := hash(data.password));
        outcome := db.Insert(RowOf(data));
      }
      if outcome.Failure? {
        r := Failure(CreateFailed);
      } else {
        r := outcome;
      }
    }

    /**
     * `update`: 'User không tồn tại' when no user has the id; otherwise writes
     * the patched row, which the table refuses if its username or email now
     * belongs to another user.
     */
    method Update(id: int, dto: UpdateUserDto) returns (r: Result<User, ServiceError>)
      requires db.Valid()
      modifies db
      ensures db.Valid() && db.nextId == old(db.nextId)
      ensures IndexOfId(old(db.users), id).None? ==> r == Failure(UserNotFound) && db.users == old(db.users)
      ensures IndexOfId(old(db.users), id).Some? ==>
        var i := IndexOfId(old(db.users), id).value;
        var u := Patched(old(db.users)[i], dto, hash);
        if Clashes(old(db.users), i, u.username, u.email)
        then r == Failure(UniqueViolation) && db.users == old(db.users)
        else r == Success(u) && db.users == old(db.users)[i := u]
    {
      var existing := FindById(db.users, id);
      if existing.None? {
        r := Failure(UserNotFound);
        return;
      }
      var data := dto;
      if PasswordTruthy(data) {
        data := data.(password := Value(hash(data.password.v)));
      }
      var u := ApplyPatch(existing.value, data);
      r := db.Replace(id, u);
    }

    /**
     * `delete`: the table refuses a missing id with its own error, so the
     * service's 'User không tồn tại' branch is never reached; otherwise the
     * row is removed and returned.
     */
    method Delete(id: int) returns (r: Result<User, ServiceError>)
      requires db.Valid()
      modifies db
      ensures db.Valid() && db.nextId == old(db.nextId)
      ensures IndexOfId(old(db.users), id).None? ==> r == Failure(RecordNotFound) && db.users == old(db.users)
      ensures IndexOfId(old(db.users), id).Some? ==>
        var i := IndexOfId(old(db.users), id).value;
        r == Success(old(db.users)[i]) && db.users == old(db.users)[..i] + old(db.users)[i + 1..]
      ensures r.Failure? ==> r.error != UserNotFound
    {
      r := db.Remove(id);
    }
  }
}

/** The auth service: `login` by username and plain password, and `register`. */
module Auth {
  import opened Wrappers
  import opened Seqs
  import opened UserStore
  import Users

  /**
   * `login`: the user with that username, provided its stored password equals
   * the given one. An unknown username and a wrong password give the same error.
   */
  function Login(users: seq<User>, username: string, password: string): (r: Result<User, ServiceError>)
    ensures r.Success? ==> r.value in users && r.value.username == username && r.value.password == password
    ensures (forall i :: 0 <= i < |users| ==> users[i].username != username) ==> r.Failure?
    ensures r.Failure? ==> r.error == InvalidCredentials
  {
    match FindByUsername(users, username)
    case None => Failure(InvalidCredentials)
    case Some(u) => if u.password != password then Failure(InvalidCredentials) else Success(u)
  }

  /** Under the table's constraints, login succeeds iff some user has both the username and the password. */
  lemma LoginSucceedsIff(users: seq<User>, username: string, password: string)
    requires UniqueKeys(users)
    ensures Login(users, username, password).Success?
        <==> exists i :: 0 <= i < |users| && users[i].username == username && users[i].password == password
  {
    if exists i :: 0 <= i < |users| && users[i].username == username && users[i].password == password {
      var i :| 0 <= i < |users| && users[i].username == username && users[i].password == password;
      LookupsFindTheRow(users, i);
    }
  }

  /** The auth service, over the table the user service also writes. */
  class AuthService {
    const db: UserTable

    constructor (db: UserTable)
      ensures this.db == db
    {
      this.db := db;
    }

    /**
     * `register`: 'Email đã tồn tại' when a user has the email. Only the email
     * is checked: a taken username reaches the table, which refuses it with its
     * own error. Otherwise stores the user as given, password unhashed, with
     * the role EMPLOYEE.
     */
    method Register(username: string, password: string, name: string, email: string, phone: string)
      returns (r: Result<User, ServiceError>)
      requires db.Valid()
      modifies db
      ensures db.Valid()
      ensures FindByEmail(old(db.users), email).Some? ==>
        r == Failure(EmailTaken) && db.users == old(db.users) && db.nextId == old(db.nextId)
      ensures FindByEmail(old(db.users), email).None? && FindByUsername(old(db.users), username).Some? ==>
        r == Failure(UniqueViolation) && db.users == old(db.users) && db.nextId == old(db.nextId)
      ensures FindByEmail(old(db.users), email).None? && FindByUsername(old(db.users), username).None? ==>
        && r == Success(User(old(db.nextId), username, password, name, email, phone, Employee))
        && db.users == old(db.users) + [r.value] && db.nextId == old(db.nextId) + 1
    {
      var existing := FindByEmail(db.users, email);
      if existing.Some? {
        r := Failure(EmailTaken);
        return;
      }
      r := db.Insert(NewUser(username, password, name, email, phone, Employee));
    }

    /**
     * `register` as `create` stores users: the same checks, but the password
     * is stored hashed, so that a hashing `login` accepts it.
     */
    method RegisterHashed(hash: string -> string, username: string, password: string, name: string,
                          email: string, phone: string)
      returns (r: Result<User, ServiceError>)
      requires db.Valid()
      modifies db
      ensures db.Valid()
      ensures FindByEmail(old(db.users), email).Some? ==>
        r == Failure(EmailTaken) && db.users == old(db.users) && db.nextId == old(db.nextId)
      ensures FindByEmail(old(db.users), email).None? && FindByUsername(old(db.users), username).Some? ==>
        r == Failure(UniqueViolation) && db.users == old(db.users) && db.nextId == old(db.nextId)
      ensures FindByEmail(old(db.users), email).None? && FindByUsername(old(db.users), username).None? ==>
        && r == Success(User(old(db.nextId), username, hash(password), name, email, phone, Employee))
        && db.users == old(db.users) + [r.value] && db.nextId == old(db.nextId) + 1
    {
      var existing := FindByEmail(db.users, email);
      if existing.Some? {
        r := Failure(EmailTaken);
        return;
      }
      r := db.Insert(NewUser(username, hash(password), name, email, phone, Employee));
    }
  }

  /** The first user with a username is found again after rows are appended. */
  lemma LoginAfterAppend(users: seq<User>, u: User, password: string)
    requires forall i :: 0 <= i < |users| ==> users[i].username != u.username
    ensures Login(users + [u], u.username, password) == if u.password == password then Success(u) else Failure(InvalidCredentials)
  {
    var p := (v: User) => v.username == u.username;
    FindAppend(users, [u], p);
    assert Find([u], p) == Some(u);
  }

  /** A user who registers can log in with the password they registered with. */
  lemma RegisteredUserCanLogIn(users: seq<User>, id: int, username: string, password: string,
                               name: string, email: string, phone: string)
    requires FindByUsername(users, username).None?
    ensures Login(users + [User(id, username, password, name, email, phone, Employee)], username, password).Success?
  {
    LoginAfterAppend(users, User(id, username, password, name, email, phone, Employee), password);
  }

  /**
   * As written, a user stored by the user service's `create` cannot log in
   * with the password given at creation: the table holds its hash and `login`
   * compares the plain password with it.
   */
  lemma CreatedUserCannotLogIn(users: seq<User>, id: int, dto: Users.CreateUserDto, hash: string -> string)
    requires !Clashes(users, |users|, dto.username, dto.email)
    requires hash(dto.password) != dto.password
    ensures Login(users + [User(id, dto.username, hash(dto.password), dto.name, dto.email, dto.phone, dto.role)],
                  dto.username, dto.password) == Failure(InvalidCredentials)
  {
    LoginAfterAppend(users, User(id, dto.username, hash(dto.password), dto.name, dto.email, dto.phone, dto.role), dto.password);
  }

  /** `login` comparing the stored password with the hash of the given one. */
  function LoginHashed(users: seq<User>, hash: string -> string, username: string, password: string)
    : (r: Result<User, ServiceError>)
    ensures r.Success? ==> r.value in users && r.value.username == username && r.value.password == hash(password)
    ensures r.Failure? ==> r.error == InvalidCredentials
  {
    match FindByUsername(users, username)
    case None => Failure(InvalidCredentials)
    case Some(u) => if u.password != hash(password) then Failure(InvalidCredentials) else Success(u)
  }

  /** With the hashing login, a user stored by `create` logs in with the password given at creation. */
  lemma CreatedUserLogsInHashed(users: seq<User>, id: int, dto: Users.CreateUserDto, hash: string -> string)
    requires !Clashes(users, |users|, dto.username, dto.email)
    ensures var u := User(id, dto.username, hash(dto.password), dto.name, dto.email, dto.phone, dto.role);
            LoginHashed(users + [u], hash, dto.username, dto.password) == Success(u)
  {
    var u := User(id, dto.username, hash(dto.password), dto.name, dto.email, dto.phone, dto.role);
    var p := (v: User) => v.username == u.username;
    FindAppend(users, [u], p);
    assert Find([u], p) == Some(u);
  }

  /** A user stored by the hashing register logs in under the hashing login. */
  lemma RegisteredUserLogsInHashed(users: seq<User>, hash: string -> string, id: int, username: string,
                                   password: string, name: string, email: string, phone: string)
    requires FindByUsername(users, username).None?
    ensures var u := User(id, username, hash(password), name, email, phone, Employee);
            LoginHashed(users + [u], hash, username, password) == Success(u)
  {
    var u := User(id, username, hash(password), name, email, phone, Employee);
    var p := (v: User) => v.username == username;
    FindAppend(users, [u], p);
    assert Find([u], p) == Some(u);
  }

  /**
   * The as-written register stores the password unhashed, so under the
   * hashing login its users are refused whenever the hash differs.
   */
  lemma UnhashedRegisterFailsHashedLogin(users: seq<User>, hash: string -> string, id: int, username: string,
                                         password: string, name: string, email: string, phone: string)
    requires FindByUsername(users, username).None?
    requires hash(password) != password
    ensures LoginHashed(users + [User(id, username, password, name, email, phone, Employee)], hash, username, password)
         == Failure(InvalidCredentials)
  {
    var u := User(id, username, password, name, email, phone, Employee);
    var p := (v: User) => v.username == username;
    FindAppend(users, [u], p);
    assert Find([u], p) == Some(u);
  }
}

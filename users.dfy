/** The user directory of `UserService`: the users table, sign-up with a unique email
    and a hashed password, lookups, and the password-guarded account removal that
    purges the user's session tokens before the user. Password hashing is the
    `Hasher` collaborator the service is built with. */
module Users {
  import opened Common
  import Table
  import Tokens

  /** A row of the users table; `password` holds the digest, never the plaintext. */
  datatype User = User(id: nat, name: string, email: string, password: string)

  /** The input of `createUser`. */
  datatype CreateUserDto = CreateUserDto(name: string, email: string, password: string)

  /** The input of `removeUser`: the id comes from the caller's session, the password
      from the request body and may be missing. */
  datatype DeleteUserDto = DeleteUserDto(id: nat, password: Option<string>)

  /** The error object `createUser` throws. */
  datatype HttpError = HttpError(code: int, message: string)

  const CONFLICT: int := 409
  const EMAIL_TAKEN := "User with this email already exists"
  const PASSWORD_REQUIRED := "Password is required"
  const PASSWORD_INCORRECT := "Password is incorrect"

  /** Salted one-way hashing: `hash(password, salt)` gives a digest and
      `compare(password, digest)` tells whether the password produced it. */
  datatype Hasher = Hasher(hash: (string, string) -> string, compare: (string, string) -> bool)
  {
    /** A password always matches a digest made from it, whatever the salt. */
    ghost predicate Sound()
    {
      forall password, salt :: compare(password, hash(password, salt))
    }
  }

  function UserId(u: User): int
  {
    u.id
  }

  /** The criteria `{ email }`. */
  function EmailIs(email: string): User -> bool
  {
    (u: User) => u.email == email
  }

  /** The criteria `{ id }`. */
  function IdIs(id: int): User -> bool
  {
    (u: User) => u.id == id
  }

  /** No two users share an email (rows are told apart by their distinct ids). */
  ghost predicate EmailsUnique(users: seq<User>)
  {
    forall u, v :: u in users && v in users && u.email == v.email ==> u == v
  }

  /** `findUserByEmail` / `checkIsUserExist`. */
  function FindByEmail(users: seq<User>, email: string): (r: Option<User>)
    ensures r.Some? <==> exists u :: u in users && u.email == email
    ensures r.Some? ==> r.value in users && r.value.email == email
  {
    Table.FindOneBy(users, EmailIs(email))
  }

  /** `findUserById`. */
  function FindById(users: seq<User>, id: int): (r: Option<User>)
    ensures r.Some? <==> exists u :: u in users && u.id == id
    ensures r.Some? ==> r.value in users && r.value.id == id
  {
    Table.FindOneBy(users, IdIs(id))
  }

  /** With unique emails the lookup by email finds the one user who has it. */
  lemma FindByEmailUnique(users: seq<User>, u: User)
    requires EmailsUnique(users)
    requires u in users
    ensures FindByEmail(users, u.email) == Some(u)
  {
  }

  /** The outcome of `createUser` when the next generated id is `id` and the password
      hashes to `digest`: a CONFLICT error exactly when the email is taken, otherwise
      the new user with the given name and email and the digest as password. */
  function CreateOutcome(users: seq<User>, id: nat, dto: CreateUserDto, digest: string): (r: Result<User, HttpError>)
    ensures r.Failure? <==> exists u :: u in users && u.email == dto.email
    ensures r.Failure? ==> r.error == HttpError(CONFLICT, EMAIL_TAKEN)
    ensures r.Success? ==> r.value == User(id, dto.name, dto.email, digest)
  {
    if FindByEmail(users, dto.email).Some? then Failure(HttpError(CONFLICT, EMAIL_TAKEN))
    else Success(User(id, dto.name, dto.email, digest))
  }

  /** The users table after a `createUser` with outcome `r`: one row more on
      success, unchanged on conflict. */
  function AfterCreate(users: seq<User>, r: Result<User, HttpError>): seq<User>
  {
    if r.Success? then users + [r.value] else users
  }

  /** Sign-up keeps emails unique. */
  lemma CreateKeepsEmailsUnique(users: seq<User>, id: nat, dto: CreateUserDto, digest: string)
    requires EmailsUnique(users)
    ensures EmailsUnique(AfterCreate(users, CreateOutcome(users, id, dto, digest)))
  {
    var r := CreateOutcome(users, id, dto, digest);
    if r.Success? {
      var after := users + [r.value];
      forall u, v | u in after && v in after && u.email == v.email
        ensures u == v
      {
        assert u in users || u == r.value;
        assert v in users || v == r.value;
      }
    }
  }

  /** After a successful sign-up the lookup by that email finds the new user. */
  lemma CreatedUserFound(users: seq<User>, id: nat, dto: CreateUserDto, digest: string)
    requires CreateOutcome(users, id, dto, digest).Success?
    ensures FindByEmail(AfterCreate(users, CreateOutcome(users, id, dto, digest)), dto.email)
            == Some(CreateOutcome(users, id, dto, digest).value)
  {
    var user := CreateOutcome(users, id, dto, digest).value;
    var found := FindByEmail(users + [user], dto.email);
    assert user in users + [user];
    assert found.value in users || found.value == user;
  }

  /** What `removeUser` decides before deleting anything. */
  datatype Removal = UnknownUser | PasswordRequired | PasswordIncorrect | Authorized(user: User)

  /** The guards of `removeUser`, in the source's order: the user must exist, a
      non-empty password must be given, and it must match the stored digest. */
  function CheckRemoval(users: seq<User>, compare: (string, string) -> bool, dto: DeleteUserDto): (v: Removal)
    ensures v.UnknownUser? <==> forall u :: u in users ==> u.id != dto.id
    ensures v.PasswordRequired? <==> (exists u :: u in users && u.id == dto.id) && !Truthy(dto.password)
    ensures v.PasswordIncorrect? ==>
              Truthy(dto.password) && exists u :: u in users && u.id == dto.id && !compare(dto.password.value, u.password)
    ensures v.Authorized? ==>
              v.user in users && v.user.id == dto.id && Truthy(dto.password) && compare(dto.password.value, v.user.password)
  {
    match FindById(users, dto.id)
    case None => UnknownUser
    case Some(user) =>
      if !Truthy(dto.password) then PasswordRequired
      else if !compare(dto.password.value, user.password) then PasswordIncorrect
      else Authorized(user)
  }

  /** What `removeUser` answers for each decision; only an authorized removal
      deletes, and it deletes the one row with that id. */
  function RemovalResponse(v: Removal): (res: Table.DeleteResult)
    ensures res.affected == 0 <==> !v.Authorized?
  {
    match v
    case UnknownUser => Table.DeleteResult(0, None)
    case PasswordRequired => Table.DeleteResult(0, Some(PASSWORD_REQUIRED))
    case PasswordIncorrect => Table.DeleteResult(0, Some(PASSWORD_INCORRECT))
    case Authorized(_) => Table.DeleteResult(1, None)
  }

  /** The users table after `userRepository.delete(id)`: that user is gone and
      every other user is kept. */
  function AfterRemoveUser(users: seq<User>, id: int): (r: seq<User>)
    ensures forall u :: u in r <==> u in users && u.id != id
  {
    Table.DeleteWhere(users, IdIs(id))
  }

  /** Deleting a stored user by id removes exactly one row and keeps ids increasing. */
  lemma RemoveStoredUser(users: seq<User>, user: User)
    requires Table.Increasing(users, UserId)
    requires user in users
    ensures Table.Increasing(AfterRemoveUser(users, user.id), UserId)
    ensures |users| - |AfterRemoveUser(users, user.id)| == 1
  {
    Table.DeleteWhereKeepsIncreasing(users, IdIs(user.id), UserId);
    Table.DeleteWhereCount(users, IdIs(user.id));
    Table.CountUniqueKey(users, IdIs(user.id), UserId, user.id);
  }

  /** A user who signed up with a non-empty password can remove their account with
      that password, as long as the hasher is sound. */
  lemma CreateThenRemove(users: seq<User>, id: nat, dto: CreateUserDto, hasher: Hasher, salt: string)
    requires hasher.Sound()
    requires forall u :: u in users ==> u.id < id
    requires CreateOutcome(users, id, dto, hasher.hash(dto.password, salt)).Success?
    requires dto.password != ""
    ensures var r := CreateOutcome(users, id, dto, hasher.hash(dto.password, salt));
            CheckRemoval(AfterCreate(users, r), hasher.compare, DeleteUserDto(id, Some(dto.password)))
            == Authorized(r.value)
  {
    var r := CreateOutcome(users, id, dto, hasher.hash(dto.password, salt));
    var after := users + [r.value];
    var found := FindById(after, id);
    assert r.value in after;
    assert found == Some(r.value) by {
      assert found.value in users || found.value == r.value;
    }
  }

  /** The user directory: the users table, plus the tokens table it shares with the
      token service (reached through that service). */
  class UserService {
    var users: seq<User>
    var nextId: nat
    const hasher: Hasher
    const tokens: Tokens.TokensService

    /** Ids are generated in increasing order, emails are unique, and the shared
        tokens table is well formed. */
    ghost predicate Valid()
      reads this, tokens
    {
      && Table.Increasing(users, UserId)
      && (forall u :: u in users ==> u.id < nextId)
      && EmailsUnique(users)
      && tokens.Valid()
    }

    constructor (hasher: Hasher, tokens: Tokens.TokensService)
      requires tokens.Valid()
      ensures Valid()
      ensures users == [] && this.hasher == hasher && this.tokens == tokens
    {
      users := [];
      nextId := 0;
      this.hasher := hasher;
      this.tokens := tokens;
    }

    /** `createUser`, with `salt` standing for the salt bcrypt draws at random.
        The tokens table is not touched. */
    method CreateUser(dto: CreateUserDto, salt: string) returns (r: Result<User, HttpError>)
      requires Valid()
      modifies this
      ensures Valid()
      ensures r == CreateOutcome(old(users), old(nextId), dto, hasher.hash(dto.password, salt))
      ensures users == AfterCreate(old(users), r)
    {
      var isExist := CheckIsUserExist(dto.email);
      if isExist.Some? {
        return Failure(HttpError(CONFLICT, EMAIL_TAKEN));
      }
      var hashedPassword := hasher.hash(dto.password, salt);
      var user := User(nextId, dto.name, dto.email, hashedPassword);
      CreateKeepsEmailsUnique(users, nextId, dto, hashedPassword);
      users := users + [user];
      nextId := nextId + 1;
      return Success(user);
    }

    /** `checkIsUserExist`: the user with that email, if any. */
    method CheckIsUserExist(email: string) returns (r: Option<User>)
      ensures r == FindByEmail(users, email)
    {
      r := FindByEmail(users, email);
    }

    /** `getUsers`: every stored user, digests included. */
    method GetUsers() returns (r: seq<User>)
      ensures r == users
    {
      r := users;
    }

    /** `findUserById`. */
    method FindUserById(id: int) returns (r: Option<User>)
      ensures r == FindById(users, id)
    {
      r := FindById(users, id);
    }

    /** `findUserByEmail`. */
    method FindUserByEmail(email: string) returns (r: Option<User>)
      ensures r == FindByEmail(users, email)
    {
      r := FindByEmail(users, email);
    }

    /** `removeUser`: when a guard fails, nothing changes and the answer says
        `affected: 0` (with a message for the password guards); otherwise the user's
        token rows are purged first, then the user row, and one row is affected. */
    method RemoveUser(dto: DeleteUserDto) returns (res: Table.DeleteResult)
      requires Valid()
      modifies this, tokens
      ensures Valid() && nextId == old(nextId) && tokens.nextId == old(tokens.nextId)
      ensures var v := CheckRemoval(old(users), hasher.compare, dto);
              && res == RemovalResponse(v)
              && users == (if v.Authorized? then AfterRemoveUser(old(users), dto.id) else old(users))
              && tokens.rows == (if v.Authorized? then Tokens.AfterRemoveUserTokens(old(tokens.rows), dto.id)
                                 else old(tokens.rows))
    {
      var found := FindUserById(dto.id);
      if found.None? {
        return Table.DeleteResult(0, None);
      }
      var user := found.value;
      if !Truthy(dto.password) {
        return Table.DeleteResult(0, Some(PASSWORD_REQUIRED));
      }
      if !hasher.compare(dto.password.value, user.password) {
        return Table.DeleteResult(0, Some(PASSWORD_INCORRECT));
      }
      var _ := tokens.RemoveTokensByUserId(user.id);
      var before := users;
      RemoveStoredUser(before, user);
      users := AfterRemoveUser(users, user.id);
      res := Table.DeleteResult(|before| - |users|, None);
    }
  }
}

/**
 * Sign-up and login. The users table is a small store of its own; building a
 * user (hashing the password, stamping the times) and checking a password
 * against its hash are parameters, since model/user.go is not part of this
 * model. Login answers an unknown user, a failed lookup and a wrong password
 * with one and the same reply.
 */
module AuthHandler {
  import opened Wrappers
  import opened Http
  import opened Jwt

  datatype User = User(id: int, username: string, email: string, passwordHash: string, createdAt: int, updatedAt: int)

  datatype SignUpInput = SignUpInput(username: string, email: string, password: string)

  datatype LoginInput = LoginInput(username: string, password: string)

  /** The first user with the given name, in insertion order. */
  function FindByUsername(users: seq<User>, username: string): (r: Option<User>)
    ensures r.Some? ==> r.value in users && r.value.username == username
    ensures r.None? ==> forall k :: 0 <= k < |users| ==> users[k].username != username
  {
    if users == [] then None
    else if users[0].username == username then Some(users[0])
    else FindByUsername(users[1..], username)
  }

  /** A user added under a name nobody has yet is the one found under that name. */
  lemma {:induction false} FindAfterAppend(users: seq<User>, u: User)
    requires FindByUsername(users, u.username).None?
    ensures FindByUsername(users + [u], u.username) == Some(u)
  {
    if users != [] {
      assert (users + [u])[1..] == users[1..] + [u];
      FindAfterAppend(users[1..], u);
    }
  }

  /** Adding a user leaves the lookup of every other name as it was. */
  lemma {:induction false} FindOtherAfterAppend(users: seq<User>, u: User, name: string)
    requires name != u.username
    ensures FindByUsername(users + [u], name) == FindByUsername(users, name)
  {
    if users != [] {
      assert (users + [u])[1..] == users[1..] + [u];
      FindOtherAfterAppend(users[1..], u, name);
    }
  }

  /** The users table and its id sequence. */
  class UserStore {
    var users: seq<User>
    var nextId: int

    ghost predicate Valid()
      reads this
    {
      0 < nextId && forall k :: 0 <= k < |users| ==> 0 < users[k].id < nextId
    }

    constructor Empty()
      ensures Valid() && users == []
    {
      users, nextId := [], 1;
    }

    /**
     * Create: inserts the user and returns the id the table generated for
     * it; on a failed insert the table is unchanged.
     */
    method Create(u: User, fails: bool) returns (ok: bool, id: int)
      requires Valid()
      modifies this
      ensures Valid()
      ensures ok == !fails
      ensures ok ==> id == old(nextId) && users == old(users) + [u.(id := id)]
      ensures ok ==> forall k :: 0 <= k < |old(users)| ==> old(users)[k].id < id
      ensures !ok ==> users == old(users) && id == u.id
      ensures old(nextId) <= nextId
    {
      if fails {
        return false, u.id;
      }
      id := nextId;
      users := users + [u.(id := id)];
      nextId := nextId + 1;
      ok := true;
    }
  }

  /**
   * SignUp: 400 with the decoder's text for a bad body, 500 when the user
   * cannot be built or saved, and 201 with the user stored otherwise.
   */
  method SignUp(store: UserStore, body: Result<SignUpInput, string>,
                newUser: SignUpInput -> Option<User>, saveFails: bool)
    returns (reply: Reply)
    requires store.Valid()
    modifies store
    ensures store.Valid()
    ensures body.Failure? ==> reply == Reply(StatusBadRequest, body.error)
    ensures body.Success? && newUser(body.value).None? ==> reply == Reply(StatusInternalServerError, "Failed to create user")
    ensures body.Success? && newUser(body.value).Some? && saveFails ==>
      reply == Reply(StatusInternalServerError, "Failed to save user")
    ensures reply == Reply(StatusCreated, "") <==> body.Success? && newUser(body.value).Some? && !saveFails
    ensures reply != Reply(StatusCreated, "") ==> store.users == old(store.users)
    ensures reply == Reply(StatusCreated, "") ==>
      store.users == old(store.users) + [newUser(body.value).value.(id := old(store.nextId))]
  {
    if body.Failure? {
      return Reply(StatusBadRequest, body.error);
    }
    var user := newUser(body.value);
    if user.None? {
      return Reply(StatusInternalServerError, "Failed to create user");
    }
    var ok, _ := store.Create(user.value, saveFails);
    if !ok {
      return Reply(StatusInternalServerError, "Failed to save user");
    }
    reply := Reply(StatusCreated, "");
  }

  /** A login reply, and the issued token when there is one. */
  datatype LoginResult = LoginResult(reply: Reply, token: Option<Token>)

  const InvalidCredentials: LoginResult := LoginResult(Reply(StatusUnauthorized, "Invalid credentials"), None)

  /**
   * Login: looks the user up by name, checks the password, and issues a
   * token for the user's id at clock reading now. Signing an HS256 token
   * with a byte-string key cannot fail, so the "Failed to generate token"
   * reply never occurs.
   */
  function Login(users: seq<User>, body: Result<LoginInput, string>, lookupFails: bool,
                 checkPassword: (User, string) -> bool, secret: string, now: int): (r: LoginResult)
    ensures body.Failure? ==> r == LoginResult(Reply(StatusBadRequest, body.error), None)
    ensures r.token.Some? <==>
      && body.Success? && !lookupFails
      && FindByUsername(users, body.value.username).Some?
      && checkPassword(FindByUsername(users, body.value.username).value, body.value.password)
    ensures r.token.Some? ==>
      r.reply == Reply(StatusOK, "") &&
      r.token.value == GenerateJWT(FindByUsername(users, body.value.username).value.id, secret, now)
    ensures body.Success? && r.token.None? ==> r == InvalidCredentials
  {
    if body.Failure? then LoginResult(Reply(StatusBadRequest, body.error), None)
    else
      var user := if lookupFails then None else FindByUsername(users, body.value.username);
      if user.None? then InvalidCredentials
      else if !checkPassword(user.value, body.value.password) then InvalidCredentials
      else LoginResult(Reply(StatusOK, ""), Some(GenerateJWT(user.value.id, secret, now)))
  }

  /**
   * An unknown user name and a known one with the wrong password get the
   * same reply, so a client cannot tell which names exist.
   */
  lemma CredentialFailuresAlike(users: seq<User>, unknown: string, known: string, p1: string, p2: string,
                                checkPassword: (User, string) -> bool, secret: string, now: int)
    requires FindByUsername(users, unknown).None?
    requires FindByUsername(users, known).Some? && !checkPassword(FindByUsername(users, known).value, p2)
    ensures Login(users, Success(LoginInput(unknown, p1)), false, checkPassword, secret, now) ==
            Login(users, Success(LoginInput(known, p2)), false, checkPassword, secret, now)
    ensures Login(users, Success(LoginInput(unknown, p1)), false, checkPassword, secret, now) == InvalidCredentials
  {
  }

  /** The token a login issues validates to the user's id for a day, under the same secret. */
  lemma LoginTokenValidates(users: seq<User>, input: LoginInput, checkPassword: (User, string) -> bool,
                            secret: string, now: int, later: int)
    requires Login(users, Success(input), false, checkPassword, secret, now).token.Some?
    requires later <= now + Lifetime
    ensures ValidateJWT(Login(users, Success(input), false, checkPassword, secret, now).token, secret, later) ==
            Returned(FindByUsername(users, input.username).value.id, None)
  {
  }

  /**
   * Sign up, then log in: a user stored under a fresh name, whose password
   * check accepts the password, logs in and gets a token for its stored id;
   * logins under every other name are unaffected.
   */
  lemma SignUpThenLogin(users: seq<User>, stored: User, password: string, other: LoginInput,
                        checkPassword: (User, string) -> bool, secret: string, now: int)
    requires FindByUsername(users, stored.username).None?
    requires checkPassword(stored, password)
    requires other.username != stored.username
    ensures Login(users + [stored], Success(LoginInput(stored.username, password)), false, checkPassword, secret, now) ==
            LoginResult(Reply(StatusOK, ""), Some(GenerateJWT(stored.id, secret, now)))
    ensures Login(users + [stored], Success(other), false, checkPassword, secret, now) ==
            Login(users, Success(other), false, checkPassword, secret, now)
  {
    FindAfterAppend(users, stored);
    FindOtherAfterAppend(users, stored, other.username);
  }
}

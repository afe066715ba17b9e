/**
 * The account service: `register`, `login`, `whoami` and `changePassword`
 * over the `users` table, each one atomic step that checks its guards in a
 * fixed order and either fails with one of the service's errors, leaving the
 * table as it was, or changes exactly one row.
 *
 * The table is a map from row id to row. The digest (`hash('sha512', …)`) is
 * the service's `hash` arrow: deterministic, and nothing more is assumed of
 * it. The session token codec (`encrypt`/`decrypt`) is a pair of arrows that
 * round-trip. Fresh row ids and the clock are parameters.
 */
module Accounts {
  import opened Wrappers

  /**
   * A row as the service reads it. `password` holds the digest written by
   * `register`. `hash` is the row's `hash` property, which `changePassword`
   * compares against; no write of the service ever sets it.
   */
  datatype Row = Row(
    id: string,
    username: string,
    email: string,
    password: string,
    hash: Option<string>,
    isActive: bool,
    created: int,
    lastLogin: Option<int>)

  /** The columns `whoami` selects. */
  datatype PublicUser = PublicUser(id: string, username: string, email: string, created: int, lastLogin: Option<int>)

  function Public(row: Row): PublicUser
  {
    PublicUser(row.id, row.username, row.email, row.created, row.lastLogin)
  }

  datatype AuthError =
    | MissingRegistrationFields
    | AlreadyExists
    | MissingCredentials
    | InvalidCredentials
    | DecryptFailed
    | MissingPasswords
    | UserNotFound
  {
    /** The message of the thrown `Error`. */
    function Message(): string
    {
      match this
      case MissingRegistrationFields => "Username, email, and password are required"
      case AlreadyExists => "Username or email already exists"
      case MissingCredentials => "Username and password are required"
      case InvalidCredentials => "Invalid credentials"
      case DecryptFailed => "Failed to decrypt token"
      case MissingPasswords => "Current password and new password are required"
      case UserNotFound => "User not found"
    }
  }

  const PasswordChanged: string := "Password changed successfully"

  /** What a session token carries; a missing claim is "". */
  datatype TokenPayload = TokenPayload(userId: string, username: string)

  /** `encrypt(userId, username)` and `decrypt(token)`, which yields `None` for a token it rejects. */
  datatype SessionCodec = SessionCodec(encrypt: (string, string) -> string, decrypt: string -> Option<TokenPayload>)

  /** Every token `encrypt` makes decrypts to the claims it was made from. */
  ghost predicate Sound(codec: SessionCodec)
  {
    forall userId, username :: codec.decrypt(codec.encrypt(userId, username)) == Some(TokenPayload(userId, username))
  }

  /** What `login` returns: the row as it was read, and the session token. */
  datatype LoginResult = LoginResult(user: Row, token: string)

  // ---------------------------------------------------------------------------
  // The table

  predicate UsernamesUnique(users: map<string, Row>)
  {
    forall a, b :: a in users && b in users && users[a].username == users[b].username ==> a == b
  }

  /**
   * The table as the service keeps it: every row is stored under its own
   * non-empty id, and usernames and emails are unique.
   */
  predicate TableValid(users: map<string, Row>)
  {
    && (forall id :: id in users ==> users[id].id == id && id != "")
    && UsernamesUnique(users)
    && (forall a, b :: a in users && b in users && users[a].email == users[b].email ==> a == b)
  }

  /** Some row has this username or this email. */
  predicate Taken(users: map<string, Row>, username: string, email: string)
  {
    exists id :: id in users && (users[id].username == username || users[id].email == email)
  }

  /** The id of the row with this username (`where('username', …).first()`). */
  ghost function UserIdByName(users: map<string, Row>, username: string): (id: Option<string>)
    ensures id.Some? ==> id.value in users && users[id.value].username == username
    ensures id.None? ==> forall k :: k in users ==> users[k].username != username
  {
    if exists k :: k in users && users[k].username == username then
      var k :| k in users && users[k].username == username;
      Some(k)
    else
      None
  }

  /** With unique usernames, the row found by name is the only one with that name. */
  lemma UserIdByNameUnique(users: map<string, Row>, username: string, id: string)
    requires UsernamesUnique(users)
    requires id in users && users[id].username == username
    ensures UserIdByName(users, username) == Some(id)
  {
  }

  // ---------------------------------------------------------------------------
  // register

  /**
   * The guards of `register` in their order: all three fields present, then
   * no row with the same username or the same email.
   */
  function RegisterError(users: map<string, Row>, username: string, email: string, password: string): (e: Option<AuthError>)
    ensures e == Some(MissingRegistrationFields) <==> username == "" || email == "" || password == ""
    ensures e == Some(AlreadyExists) <==> username != "" && email != "" && password != "" && Taken(users, username, email)
    ensures e.None? <==> username != "" && email != "" && password != "" && !Taken(users, username, email)
  {
    if username == "" || email == "" || password == "" then Some(MissingRegistrationFields)
    else if Taken(users, username, email) then Some(AlreadyExists)
    else None
  }

  /** The row `register` inserts: the digest of the password, active, created now, never logged in. */
  function NewRow(hash: string -> string, username: string, email: string, password: string, id: string, now: int): Row
  {
    Row(id, username, email, hash(password), None, true, now, None)
  }

  /** A successful registration keeps usernames and emails unique. */
  lemma RegisterKeepsTableValid(users: map<string, Row>, hash: string -> string, username: string, email: string,
                                password: string, id: string, now: int)
    requires TableValid(users)
    requires id != "" && id !in users
    requires RegisterError(users, username, email, password).None?
    ensures TableValid(users[id := NewRow(hash, username, email, password, id, now)])
  {
    var row := NewRow(hash, username, email, password, id, now);
    forall k | k in users
      ensures users[k].username != username && users[k].email != email
    {
      assert !(k in users && (users[k].username == username || users[k].email == email));
    }
  }

  // ---------------------------------------------------------------------------
  // login

  /**
   * The guards of `login` in their order: both fields present, then a row
   * with that username, then its stored digest equal to the password's.
   */
  ghost function LoginError(users: map<string, Row>, hash: string -> string, username: string, password: string): (e: Option<AuthError>)
    ensures e == Some(MissingCredentials) <==> username == "" || password == ""
    ensures e.Some? ==> e == Some(MissingCredentials) || e == Some(InvalidCredentials)
    ensures e.None? ==> UserIdByName(users, username).Some?
    ensures e.None? ==> users[UserIdByName(users, username).value].password == hash(password)
  {
    if username == "" || password == "" then Some(MissingCredentials)
    else match UserIdByName(users, username)
      case None => Some(InvalidCredentials)
      case Some(id) => if hash(password) != users[id].password then Some(InvalidCredentials) else None
  }

  /**
   * An unknown username and a wrong password give the same error: with both
   * fields present, `login` fails with "Invalid credentials" exactly when no
   * row has that username and that digest.
   */
  lemma InvalidCredentialsIff(users: map<string, Row>, hash: string -> string, username: string, password: string)
    requires UsernamesUnique(users)
    requires username != "" && password != ""
    ensures LoginError(users, hash, username, password) == Some(InvalidCredentials)
            <==> !exists id :: id in users && users[id].username == username && users[id].password == hash(password)
  {
    if id :| id in users && users[id].username == username && users[id].password == hash(password) {
      UserIdByNameUnique(users, username, id);
    }
  }

  /** `login` looks at neither `isActive` nor anything but username and digest. */
  lemma {:induction false} LoginIgnoresIsActive(users: map<string, Row>, hash: string -> string, id: string, active: bool,
                                                username: string, password: string)
    requires UsernamesUnique(users) && id in users
    ensures LoginError(users[id := users[id].(isActive := active)], hash, username, password)
            == LoginError(users, hash, username, password)
  {
    var after := users[id := users[id].(isActive := active)];
    assert UsernamesUnique(after);
    if k :| k in users && users[k].username == username {
      UserIdByNameUnique(users, username, k);
      UserIdByNameUnique(after, username, k);
    }
  }

  /** A user who has just registered can log in with the same username and password. */
  lemma RegisteredUserCanLogIn(users: map<string, Row>, hash: string -> string, username: string, email: string,
                               password: string, id: string, now: int)
    requires TableValid(users)
    requires id != "" && id !in users
    requires RegisterError(users, username, email, password).None?
    ensures var after := users[id := NewRow(hash, username, email, password, id, now)];
            && LoginError(after, hash, username, password).None?
            && UserIdByName(after, username) == Some(id)
  {
    RegisterKeepsTableValid(users, hash, username, email, password, id, now);
    UserIdByNameUnique(users[id := NewRow(hash, username, email, password, id, now)], username, id);
  }

  // ---------------------------------------------------------------------------
  // whoami

  /** The token decrypts to a payload with a non-empty `userId`. */
  predicate NamesUser(codec: SessionCodec, token: string)
  {
    codec.decrypt(token).Some? && codec.decrypt(token).value.userId != ""
  }

  /**
   * `whoami`: the token must decrypt to a non-empty `userId`, and a row must
   * have that id; the answer is that row's public columns.
   */
  function WhoamiOf(codec: SessionCodec, users: map<string, Row>, token: string): (r: Result<PublicUser, AuthError>)
    ensures r == Failure(DecryptFailed) <==> !NamesUser(codec, token)
    ensures r == Failure(UserNotFound) <==> NamesUser(codec, token) && codec.decrypt(token).value.userId !in users
    ensures r.Success? <==> NamesUser(codec, token) && codec.decrypt(token).value.userId in users
    ensures r.Success? ==> r.value == Public(users[codec.decrypt(token).value.userId])
  {
    match codec.decrypt(token)
    case None => Failure(DecryptFailed)
    case Some(payload) =>
      if payload.userId == "" then Failure(DecryptFailed)
      else if payload.userId !in users then Failure(UserNotFound)
      else Success(Public(users[payload.userId]))
  }

  /** The token `login` hands out names its row: `whoami` answers with that row. */
  lemma LoginTokenIdentifiesUser(codec: SessionCodec, users: map<string, Row>, row: Row)
    requires Sound(codec)
    requires row.id in users && users[row.id].id == row.id && row.id != ""
    ensures WhoamiOf(codec, users, codec.encrypt(row.id, row.username)) == Success(Public(users[row.id]))
  {
    assert codec.decrypt(codec.encrypt(row.id, row.username)) == Some(TokenPayload(row.id, row.username));
  }

  // ---------------------------------------------------------------------------
  // changePassword

  /**
   * Which stored value `changePassword` compares the current password's
   * digest with: the row's `hash` property (as the service is written), or
   * its `password` column (where `register` and `login` keep the digest).
   */
  datatype DigestField = HashProperty | PasswordColumn

  function StoredDigest(field: DigestField, row: Row): Option<string>
  {
    match field
    case HashProperty => row.hash
    case PasswordColumn => Some(row.password)
  }

  /**
   * The guards of `changePassword` in their order: the token, both
   * passwords present, the row, then the current password's digest.
   */
  function ChangePasswordError(codec: SessionCodec, users: map<string, Row>, hash: string -> string, field: DigestField,
                               token: string, currentPassword: string, newPassword: string): (e: Option<AuthError>)
    ensures e == Some(DecryptFailed) <==> !NamesUser(codec, token)
    ensures e == Some(MissingPasswords) <==> NamesUser(codec, token) && (currentPassword == "" || newPassword == "")
    ensures e == Some(UserNotFound) <==>
              && NamesUser(codec, token) && currentPassword != "" && newPassword != ""
              && codec.decrypt(token).value.userId !in users
    ensures e == Some(InvalidCredentials) <==>
              && NamesUser(codec, token) && currentPassword != "" && newPassword != ""
              && codec.decrypt(token).value.userId in users
              && StoredDigest(field, users[codec.decrypt(token).value.userId]) != Some(hash(currentPassword))
    ensures e.None? <==>
              && NamesUser(codec, token) && currentPassword != "" && newPassword != ""
              && codec.decrypt(token).value.userId in users
              && StoredDigest(field, users[codec.decrypt(token).value.userId]) == Some(hash(currentPassword))
  {
    match codec.decrypt(token)
    case None => Some(DecryptFailed)
    case Some(payload) =>
      if payload.userId == "" then Some(DecryptFailed)
      else if currentPassword == "" || newPassword == "" then Some(MissingPasswords)
      else if payload.userId !in users then Some(UserNotFound)
      else if Some(hash(currentPassword)) != StoredDigest(field, users[payload.userId]) then Some(InvalidCredentials)
      else None
  }

  /**
   * As written, `changePassword` rejects every user whose row has no `hash`
   * property, which is every row `register` inserts: whatever the passwords,
   * the call fails, and once the token and both passwords are present it
   * fails with "Invalid credentials", even for the right current password.
   */
  lemma ChangePasswordAsWrittenRejects(codec: SessionCodec, users: map<string, Row>, hash: string -> string,
                                       token: string, currentPassword: string, newPassword: string)
    requires codec.decrypt(token).Some? && codec.decrypt(token).value.userId in users
    requires users[codec.decrypt(token).value.userId].hash.None?
    ensures ChangePasswordError(codec, users, hash, HashProperty, token, currentPassword, newPassword).Some?
    ensures NamesUser(codec, token) && currentPassword != "" && newPassword != "" ==>
              ChangePasswordError(codec, users, hash, HashProperty, token, currentPassword, newPassword) == Some(InvalidCredentials)
  {
  }

  /** The row `changePassword` leaves: only the digest of the new password changes. */
  function WithPassword(users: map<string, Row>, hash: string -> string, id: string, newPassword: string): (after: map<string, Row>)
    requires id in users
    ensures after.Keys == users.Keys
    ensures forall k :: k in users && k != id ==> after[k] == users[k]
    ensures after[id] == users[id].(password := hash(newPassword))
  {
    users[id := users[id].(password := hash(newPassword))]
  }

  /**
   * With the comparison against the `password` column, a user who has just
   * registered can change the password with the session token `login` gives,
   * after which the new password logs in and the old one, when its digest
   * differs, does not.
   */
  lemma IntendedChangePasswordAfterRegister(codec: SessionCodec, users: map<string, Row>, hash: string -> string,
                                            username: string, email: string, password: string, id: string, now: int,
                                            newPassword: string)
    requires Sound(codec) && TableValid(users)
    requires id != "" && id !in users
    requires RegisterError(users, username, email, password).None?
    requires newPassword != ""
    ensures var registered := users[id := NewRow(hash, username, email, password, id, now)];
            var token := codec.encrypt(id, username);
            && ChangePasswordError(codec, registered, hash, PasswordColumn, token, password, newPassword).None?
            && LoginError(WithPassword(registered, hash, id, newPassword), hash, username, newPassword).None?
            && (hash(password) != hash(newPassword) ==>
                  LoginError(WithPassword(registered, hash, id, newPassword), hash, username, password) == Some(InvalidCredentials))
  {
    var registered := users[id := NewRow(hash, username, email, password, id, now)];
    RegisterKeepsTableValid(users, hash, username, email, password, id, now);
    assert codec.decrypt(codec.encrypt(id, username)) == Some(TokenPayload(id, username));
    var changed := WithPassword(registered, hash, id, newPassword);
    assert UsernamesUnique(changed) by {
      forall a, b | a in changed && b in changed && changed[a].username == changed[b].username
        ensures a == b
      {
        assert changed[a].username == registered[a].username;
        assert changed[b].username == registered[b].username;
      }
    }
    UserIdByNameUnique(changed, username, id);
  }

  // ---------------------------------------------------------------------------
  // The service

  class AuthService {
    const hash: string -> string
    const codec: SessionCodec
    var users: map<string, Row>

    ghost predicate Valid()
      reads this
    {
      Sound(codec) && TableValid(users)
    }

    constructor (hash: string -> string, codec: SessionCodec, users: map<string, Row>)
      requires Sound(codec) && TableValid(users)
      ensures Valid()
      ensures this.hash == hash && this.codec == codec && this.users == users
    {
      this.hash := hash;
      this.codec := codec;
      this.users := users;
    }

    /**
     * `register`: on success inserts exactly one row and returns the inserted
     * rows (`returning('*')`); on failure the table is unchanged.
     */
    method Register(username: string, email: string, password: string, freshId: string, now: int)
      returns (r: Result<seq<Row>, AuthError>)
      requires Valid()
      requires freshId != "" && freshId !in users
      modifies this`users
      ensures Valid()
      ensures RegisterError(old(users), username, email, password).Some? ==>
                r == Failure(RegisterError(old(users), username, email, password).value) && users == old(users)
      ensures RegisterError(old(users), username, email, password).None? ==>
                && r == Success([NewRow(hash, username, email, password, freshId, now)])
                && users == old(users)[freshId := NewRow(hash, username, email, password, freshId, now)]
    {
      if username == "" || email == "" || password == "" {
        return Failure(MissingRegistrationFields);
      }
      if Taken(users, username, email) {
        return Failure(AlreadyExists);
      }
      var row := Row(freshId, username, email, hash(password), None, true, now, None);
      RegisterKeepsTableValid(users, hash, username, email, password, freshId, now);
      users := users[freshId := row];
      r := Success([row]);
    }

    /**
     * `login`: on success sets only that row's `lastLogin` to now and returns
     * the row as it was read, with the token `encrypt(id, username)`.
     */
    method Login(username: string, password: string, now: int) returns (r: Result<LoginResult, AuthError>)
      requires Valid()
      modifies this`users
      ensures Valid()
      ensures LoginError(old(users), hash, username, password).Some? ==>
                r == Failure(LoginError(old(users), hash, username, password).value) && users == old(users)
      ensures LoginError(old(users), hash, username, password).None? ==>
                var id := UserIdByName(old(users), username).value;
                && r == Success(LoginResult(old(users)[id], codec.encrypt(id, username)))
                && users == old(users)[id := old(users)[id].(lastLogin := Some(now))]
    {
      if username == "" || password == "" {
        return Failure(MissingCredentials);
      }
      if id :| id in users && users[id].username == username {
        UserIdByNameUnique(users, username, id);
        var user := users[id];
        if hash(password) != user.password {
          return Failure(InvalidCredentials);
        }
        users := users[id := user.(lastLogin := Some(now))];
        assert UsernamesUnique(users) by {
          forall a, b | a in users && b in users && users[a].username == users[b].username
            ensures a == b
          {
            assert users[a].username == old(users)[a].username;
            assert users[b].username == old(users)[b].username;
          }
        }
        r := Success(LoginResult(user, codec.encrypt(user.id, user.username)));
      } else {
        r := Failure(InvalidCredentials);
      }
    }

    /** `whoami`: reads the table and changes nothing. */
    method Whoami(token: string) returns (r: Result<PublicUser, AuthError>)
      ensures r == WhoamiOf(codec, users, token)
    {
      var payload := codec.decrypt(token);
      if payload.None? || payload.value.userId == "" {
        return Failure(DecryptFailed);
      }
      var userId := payload.value.userId;
      if userId !in users {
        return Failure(UserNotFound);
      }
      r := Success(Public(users[userId]));
    }

    /**
     * `changePassword` as written, comparing with the row's `hash`
     * property: on success sets only that row's `password` to the new
     * password's digest, with no check on its length; on failure the table
     * is unchanged.
     */
    method ChangePassword(token: string, currentPassword: string, newPassword: string) returns (r: Result<string, AuthError>)
      requires Valid()
      modifies this`users
      ensures Valid()
      ensures ChangePasswordError(codec, old(users), hash, HashProperty, token, currentPassword, newPassword).Some? ==>
                && r == Failure(ChangePasswordError(codec, old(users), hash, HashProperty, token, currentPassword, newPassword).value)
                && users == old(users)
      ensures ChangePasswordError(codec, old(users), hash, HashProperty, token, currentPassword, newPassword).None? ==>
                && r == Success(PasswordChanged)
                && users == WithPassword(old(users), hash, codec.decrypt(token).value.userId, newPassword)
    {
      var payload := codec.decrypt(token);
      if payload.None? || payload.value.userId == "" {
        return Failure(DecryptFailed);
      }
      var userId := payload.value.userId;
      if currentPassword == "" || newPassword == "" {
        return Failure(MissingPasswords);
      }
      if userId !in users {
        return Failure(UserNotFound);
      }
      var user := users[userId];
      if Some(hash(currentPassword)) != user.hash {
        return Failure(InvalidCredentials);
      }
      users := WithPassword(users, hash, user.id, newPassword);
      assert UsernamesUnique(users) by {
        forall a, b | a in users && b in users && users[a].username == users[b].username
          ensures a == b
        {
          assert users[a].username == old(users)[a].username;
          assert users[b].username == old(users)[b].username;
        }
      }
      r := Success(PasswordChanged);
    }
  }
}

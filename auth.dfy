/** Registration and login against the user table, which is keyed by email.
    Password hashing and token signing are library calls; they are kept
    symbolic: a hash is a value of its own type that only `Compare` looks into,
    and a token is the payload and lifetime the signer is given. */
module Auth {
  import opened Wrappers

  /** A bcrypt salt: the cost factor and the random part `bcrypt.genSalt` draws,
      which the model receives as a parameter. */
  datatype Salt = Salt(rounds: nat, nonce: nat)

  const SaltRounds: nat := 10

  /** A bcrypt digest. It is not a string, so it can never be mistaken for, or
      returned as, a plain-text password. */
  datatype PasswordHash = Bcrypt(salt: Salt, secret: string)

  /** `bcrypt.hash(password, salt)`. */
  function Hash(password: string, salt: Salt): PasswordHash {
    Bcrypt(salt, password)
  }

  /** `bcrypt.compare(password, hash)`: true exactly for the password that was hashed,
      whatever the salt. */
  function Compare(password: string, hash: PasswordHash): bool {
    hash.secret == password
  }

  /** Token lifetime, "30d", in seconds. */
  const TokenLifetime: int := 30 * 24 * 60 * 60

  /** What `jwt.sign({ id }, secret, { expiresIn: "30d" })` encodes: the payload,
      the issue time and the expiry, in seconds. */
  datatype Token = Token(id: nat, issuedAt: int, expiresAt: int)

  /** `generateToken(id)` at time `now`. */
  function GenerateToken(id: nat, now: int): (t: Token)
    ensures t.id == id && t.issuedAt == now
    ensures t.expiresAt - t.issuedAt == 2592000
  {
    Token(id, now, now + TokenLifetime)
  }

  /** A verifier accepts a token until its expiry time. */
  predicate Accepts(t: Token, now: int) {
    now < t.expiresAt
  }

  datatype User = User(id: nat, name: string, email: string, password: PasswordHash)

  /** The user as the responses show it: no password field of any kind. */
  datatype PublicUser = PublicUser(id: nat, name: string, email: string)

  function Public(u: User): PublicUser {
    PublicUser(u.id, u.name, u.email)
  }

  datatype AuthResponse = AuthResponse(user: PublicUser, token: Token)

  datatype AuthError =
    | MissingFields       // 400 "Please provide all fields" / "Please provide email and password"
    | UserExists          // 400 "User already exists"
    | InvalidCredentials  // 400 "Invalid credentials"

  class UserTable {
    var users: map<string, User>
    var nextId: nat

    /** Each user sits under its own email and has an id below the next one to hand
        out; no two users share an id. */
    ghost predicate Valid()
      reads this
    {
      (forall e :: e in users ==> users[e].email == e && users[e].id < nextId) &&
      (forall e1, e2 :: e1 in users && e2 in users && e1 != e2 ==> users[e1].id != users[e2].id)
    }

    constructor ()
      ensures Valid() && users == map[] && nextId == 1
    {
      users := map[];
      nextId := 1;
    }

    /** `register`: all three fields are required and the email must be new; the
        stored password is the hash of the given one. */
    method Register(name: Option<string>, email: Option<string>, password: Option<string>, nonce: nat, now: int)
      returns (r: Result<AuthResponse, AuthError>)
      requires Valid()
      modifies this
      ensures Valid()
      ensures !(Truthy(name) && Truthy(email) && Truthy(password)) ==>
        r == Failure(MissingFields) && unchanged(this)
      ensures Truthy(name) && Truthy(email) && Truthy(password) && email.value in old(users) ==>
        r == Failure(UserExists) && unchanged(this)
      ensures r.Success? <==>
        Truthy(name) && Truthy(email) && Truthy(password) && email.value !in old(users)
      ensures r.Success? ==>
        var u := User(old(nextId), name.value, email.value, Hash(password.value, Salt(SaltRounds, nonce)));
        users == old(users)[email.value := u] &&
        nextId == old(nextId) + 1 &&
        Compare(password.value, users[email.value].password) &&
        r.value == AuthResponse(Public(u), GenerateToken(u.id, now))
    {
      if !(Truthy(name) && Truthy(email) && Truthy(password)) {
        return Failure(MissingFields);
      }
      if email.value in users {
        return Failure(UserExists);
      }
      var salt := Salt(SaltRounds, nonce);
      var hashed := Hash(password.value, salt);
      var user := User(nextId, name.value, email.value, hashed);
      users := users[email.value := user];
      nextId := nextId + 1;
      r := Success(AuthResponse(Public(user), GenerateToken(user.id, now)));
    }

    /** `login`: an unknown email and a wrong password give the same error; a
        successful login issues a token for the user's id. The table is only read. */
    method Login(email: Option<string>, password: Option<string>, now: int)
      returns (r: Result<AuthResponse, AuthError>)
      requires Valid()
      ensures !(Truthy(email) && Truthy(password)) ==> r == Failure(MissingFields)
      ensures Truthy(email) && Truthy(password) ==>
        (r.Success? <==> email.value in users && Compare(password.value, users[email.value].password))
      ensures Truthy(email) && Truthy(password) && r.Failure? ==> r == Failure(InvalidCredentials)
      ensures r.Success? ==>
        r.value.user == Public(users[email.value]) &&
        r.value.token == GenerateToken(users[email.value].id, now)
    {
      if !(Truthy(email) && Truthy(password)) {
        return Failure(MissingFields);
      }
      if email.value !in users {
        return Failure(InvalidCredentials);
      }
      var user := users[email.value];
      var isMatch := Compare(password.value, user.password);
      if !isMatch {
        return Failure(InvalidCredentials);
      }
      r := Success(AuthResponse(Public(user), GenerateToken(user.id, now)));
    }
  }

  /** A fresh table: registering succeeds, registering the same email again fails,
      logging in with the registered password returns the registered user, and
      logging in with another password fails like an unknown email does. */
  method RegisterThenLogin(name: string, email: string, password: string, other: string, nonce: nat, now: int)
    returns (first: Result<AuthResponse, AuthError>, second: Result<AuthResponse, AuthError>,
             login: Result<AuthResponse, AuthError>, wrong: Result<AuthResponse, AuthError>,
             unknown: Result<AuthResponse, AuthError>)
    requires name != "" && email != "" && password != "" && other != "" && other != password
    ensures first.Success? && second == Failure(UserExists)
    ensures login.Success? && login.value.user == first.value.user
    ensures Accepts(login.value.token, now) && !Accepts(login.value.token, now + TokenLifetime)
    ensures wrong == unknown == Failure(InvalidCredentials)
  {
    var table := new UserTable();
    first := table.Register(Some(name), Some(email), Some(password), nonce, now);
    second := table.Register(Some(name), Some(email), Some(other), nonce, now);
    login := table.Login(Some(email), Some(password), now);
    wrong := table.Login(Some(email), Some(other), now);
    unknown := table.Login(Some(email + "x"), Some(password), now);
  }
}

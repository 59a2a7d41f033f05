/**
 * The signup and login handlers over an in-memory user store keyed by email.
 * Password hashing, hash comparison and token signing are supplied from
 * outside as functions the model knows nothing about, except, where a proof
 * needs it, that comparing a password with its own hash succeeds.
 */
module AuthController {
  import opened Js
  import opened Common

  type Email = string

  /** A stored user; `password` holds the hash, as the table does. */
  datatype User = User(id: UserId, email: Email, password: string, createdAt: Time)

  type UserStore = map<Email, User>

  /** The token payload `{ userId, email }` with the `iat` and `exp` claims the signer adds. */
  datatype Claims = Claims(userId: UserId, email: Email, issuedAt: Time, expiresAt: Time)

  /** `expiresIn: "24h"`, in seconds. */
  const TokenLifetime: nat := 24 * 60 * 60

  /**
   * The external collaborators: `hash(password, salt)` is the salted bcrypt
   * hash, `compare(password, hash)` the bcrypt check, `sign(claims)` the
   * token signed with the server's secret.
   */
  datatype Crypto = Crypto(
    hash: (string, nat) -> string,
    compare: (string, string) -> bool,
    sign: Claims -> string)

  /** bcrypt's one promise the model relies on: a password matches its own hash. */
  ghost predicate HashSound(crypto: Crypto) {
    forall p, salt :: crypto.compare(p, crypto.hash(p, salt))
  }

  /** The public fields of a user: no password, hashed or otherwise. */
  datatype PublicUser = PublicUser(id: UserId, email: Email, createdAt: Time)

  datatype Body =
    | Message(message: string)
    | Authenticated(message: string, user: PublicUser, token: string)

  /** An HTTP status code, a JSON body, and the user store after the request. */
  datatype Reply = Reply(code: int, body: Body, store: UserStore)

  /** The request body of both handlers. */
  datatype Credentials = Credentials(email: Field, password: Field)

  const FieldsRequired := "Email and password are required"
  const UserExists := "User already exists"
  const InvalidCredentials := "Invalid credentials"

  /** Every user is stored under its own email. */
  ghost predicate WellKeyed(store: UserStore) {
    forall e :: e in store ==> store[e].email == e
  }

  /** The user id is already taken, so the insert would violate the primary key. */
  predicate IdInUse(store: UserStore, id: UserId) {
    exists e :: e in store && store[e].id == id
  }

  function Public(u: User): PublicUser {
    PublicUser(u.id, u.email, u.createdAt)
  }

  /** The signed token for a user issued at `now`. */
  function TokenFor(crypto: Crypto, u: User, now: Time): string {
    crypto.sign(Claims(u.id, u.email, now, now + TokenLifetime))
  }

  /** The response of a successful signup or login: the public user and a token over `{ userId, email }`. */
  function Welcome(message: string, crypto: Crypto, u: User, now: Time): Body {
    Authenticated(message, Public(u), TokenFor(crypto, u, now))
  }

  /** The welcome reply does not depend on the stored password hash: nothing of it leaks into the body. */
  lemma WelcomeIgnoresPassword(message: string, crypto: Crypto, u: User, now: Time, other: string)
    ensures Welcome(message, crypto, u, now) == Welcome(message, crypto, u.(password := other), now)
  {
  }

  /**
   * `signup`. `newId` is the next serial id, `salt` the hash's random salt and
   * `now` the clock, for both `created_at` and the token.
   */
  function Signup(store: UserStore, req: Credentials, crypto: Crypto, newId: UserId, salt: nat, now: Time): (r: Reply)
    ensures !Truthy(req.email) || !Truthy(req.password) ==> r == Reply(400, Message(FieldsRequired), store)
    ensures Truthy(req.email) && Truthy(req.password) && req.email.s in store ==>
      r == Reply(400, Message(UserExists), store)
    ensures r.code == 201 <==>
      Truthy(req.email) && Truthy(req.password) && req.email.s !in store && !IdInUse(store, newId)
    ensures Truthy(req.email) && Truthy(req.password) && req.email.s !in store && IdInUse(store, newId) ==>
      r == Reply(500, Message(InternalError), store)
    ensures r.code != 201 ==> r.store == store
    ensures r.code == 201 ==>
      && r.store.Keys == store.Keys + {req.email.s}
      && (forall e :: e in store ==> r.store[e] == store[e])
      && var u := r.store[req.email.s];
      && u.id == newId && u.email == req.email.s && u.createdAt == now
      && u.password == crypto.hash(req.password.s, salt)
      && r.body == Welcome("User created successfully", crypto, u, now)
  {
    if !Truthy(req.email) || !Truthy(req.password) then Reply(400, Message(FieldsRequired), store)
    else if req.email.s in store then Reply(400, Message(UserExists), store)
    else if IdInUse(store, newId) then Reply(500, Message(InternalError), store)
    else
      var u := User(newId, req.email.s, crypto.hash(req.password.s, salt), now);
      Reply(201, Welcome("User created successfully", crypto, u, now), store[req.email.s := u])
  }

  /** The credentials name a stored user whose hash the password matches. */
  predicate Matches(store: UserStore, req: Credentials, crypto: Crypto)
    requires req.email.Text? && req.password.Text?
  {
    req.email.s in store && crypto.compare(req.password.s, store[req.email.s].password)
  }

  /** `login`: never changes the store; unknown email and wrong password give one and the same reply. */
  function Login(store: UserStore, req: Credentials, crypto: Crypto, now: Time): (r: Reply)
    ensures r.store == store
    ensures !Truthy(req.email) || !Truthy(req.password) ==> r == Reply(400, Message(FieldsRequired), store)
    ensures Truthy(req.email) && Truthy(req.password) && !Matches(store, req, crypto) ==>
      r == Reply(401, Message(InvalidCredentials), store)
    ensures r.code == 200 <==> Truthy(req.email) && Truthy(req.password) && Matches(store, req, crypto)
    ensures r.code == 200 ==> r.body == Welcome("Login successful", crypto, store[req.email.s], now)
  {
    if !Truthy(req.email) || !Truthy(req.password) then Reply(400, Message(FieldsRequired), store)
    else if req.email.s !in store then Reply(401, Message(InvalidCredentials), store)
    else
      var u := store[req.email.s];
      if !crypto.compare(req.password.s, u.password) then Reply(401, Message(InvalidCredentials), store)
      else Reply(200, Welcome("Login successful", crypto, u, now), store)
  }

  /** Signup keeps every user stored under its own email. */
  lemma SignupPreservesWellKeyed(store: UserStore, req: Credentials, crypto: Crypto, newId: UserId, salt: nat, now: Time)
    requires WellKeyed(store)
    ensures WellKeyed(Signup(store, req, crypto, newId, salt, now).store)
  {
  }

  /**
   * Signing up and then logging in with the same credentials succeeds for the
   * same user, given only that bcrypt accepts a password against its own hash.
   */
  lemma SignupThenLogin(store: UserStore, email: string, password: string, crypto: Crypto,
                        newId: UserId, salt: nat, t1: Time, t2: Time)
    requires HashSound(crypto)
    requires Signup(store, Credentials(Text(email), Text(password)), crypto, newId, salt, t1).code == 201
    ensures var s := Signup(store, Credentials(Text(email), Text(password)), crypto, newId, salt, t1).store;
      var r := Login(s, Credentials(Text(email), Text(password)), crypto, t2);
      && r.code == 200
      && r.body.user == PublicUser(newId, email, t1)
      && r.body.token == crypto.sign(Claims(newId, email, t2, t2 + TokenLifetime))
  {
    var req := Credentials(Text(email), Text(password));
    var s := Signup(store, req, crypto, newId, salt, t1).store;
    assert crypto.compare(password, crypto.hash(password, salt));
    assert Matches(s, req, crypto);
  }

  /** A second signup with a registered email is refused and adds nobody. */
  lemma SignupTwice(store: UserStore, req: Credentials, other: Credentials, crypto: Crypto,
                    id1: UserId, id2: UserId, salt1: nat, salt2: nat, t1: Time, t2: Time)
    requires Signup(store, req, crypto, id1, salt1, t1).code == 201
    requires other.email == req.email && Truthy(other.password)
    ensures var s := Signup(store, req, crypto, id1, salt1, t1).store;
      Signup(s, other, crypto, id2, salt2, t2) == Reply(400, Message(UserExists), s)
  {
  }

  /**
   * An unknown email and a wrong password for a known one produce identical
   * replies, so a caller cannot tell which of the two happened.
   */
  lemma LoginFailuresIndistinguishable(store: UserStore, unknown: Credentials, wrong: Credentials, crypto: Crypto,
                                       t1: Time, t2: Time)
    requires Truthy(unknown.email) && Truthy(unknown.password) && unknown.email.s !in store
    requires Truthy(wrong.email) && Truthy(wrong.password) && wrong.email.s in store
    requires !crypto.compare(wrong.password.s, store[wrong.email.s].password)
    ensures Login(store, unknown, crypto, t1) == Login(store, wrong, crypto, t2)
    ensures Login(store, unknown, crypto, t1) == Reply(401, Message(InvalidCredentials), store)
  {
  }

  /** The required-field check comes before any look at the store: its reply is the same for every store. */
  lemma MissingFieldsIgnoreStore(s1: UserStore, s2: UserStore, req: Credentials, crypto: Crypto,
                                 id: UserId, salt: nat, now: Time)
    requires !Truthy(req.email) || !Truthy(req.password)
    ensures Signup(s1, req, crypto, id, salt, now).code == Signup(s2, req, crypto, id, salt, now).code == 400
    ensures Login(s1, req, crypto, now).body == Login(s2, req, crypto, now).body == Message(FieldsRequired)
  {
  }
}

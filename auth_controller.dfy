/** The two request handlers of backend/src/controllers/authController.js.
    `registerUser` is a method that mutates the `User` collection;
    `loginUser` only reads it and is a function of the stored map. bcrypt
    and the clock are parameters. */
module AuthController {

  import opened Wrappers
  import opened UserModel
  import opened Jwt

  /** bcrypt as two uninterpreted operations: `hash(password, salt)` and
      `compare(password, digest)`. */
  datatype Bcrypt = Bcrypt(hash: (string, string) -> string, compare: (string, string) -> bool)

  /** The one property of bcrypt this core relies on: a password always
      matches a digest made from it, whatever the salt. */
  ghost predicate Sound(bc: Bcrypt) {
    forall pw: string, salt: string :: bc.compare(pw, bc.hash(pw, salt))
  }

  /** `req.body` of a registration; an absent JSON field is `None`. */
  datatype RegisterRequest = RegisterRequest(
    role: Option<string>,
    name: Option<string>,
    email: Option<string>,
    password: Option<string>,
    profile: Profile)

  /** `req.body` of a login. */
  datatype LoginRequest = LoginRequest(email: Option<string>, password: Option<string>)

  /** The sanitised user object the handlers return: no password path. */
  datatype UserView = UserView(id: ObjectId, name: string, email: string, role: string)

  /** An HTTP response: status code and JSON body. Error bodies carry only
      `message`; `user` and `token` are present only on success. */
  datatype Reply = Reply(status: nat, message: string, user: Option<UserView>, token: Option<Token>)

  /** A registration's reply together with the collection afterwards. */
  datatype Outcome = Outcome(reply: Reply, db: Db)

  /** JavaScript truthiness of a string field: present and not "". */
  predicate Present(field: Option<string>) {
    field.Some? && field.value != ""
  }

  predicate AllFieldsPresent(req: RegisterRequest) {
    Present(req.role) && Present(req.name) && Present(req.email) && Present(req.password)
  }

  function ViewOf(u: User): (v: UserView) {
    UserView(u.id, u.name, u.email, u.role)
  }

  function Failure(status: nat, message: string): (r: Reply) {
    Reply(status, message, None, None)
  }

  const AllFieldsRequired := Failure(400, "All fields are required")
  const AlreadyExists := Failure(400, "User with this email already exists")
  const RegistrationServerError := Failure(500, "Server error during registration")
  const CredentialsRequired := Failure(400, "Email and password are required")
  const InvalidCredentials := Failure(400, "Invalid email or password")

  /** The record `registerUser` builds: the request's role, name and email,
      the digest in place of the password, a fresh id and no profile paths. */
  function NewRecord(db: Db, req: RegisterRequest, bc: Bcrypt, salt: string): (u: User)
    requires AllFieldsPresent(req)
  {
    User(db.nextId, req.name.value, req.email.value, bc.hash(req.password.value, salt),
         req.role.value, NoProfile)
  }

  /** What `registerUser` does to the collection `db` and what it answers,
      step by step with early returns: presence check, duplicate lookup,
      hashing, id assignment, `save()` (whose failure lands in the catch
      block), sanitised reply. */
  function Register(db: Db, req: RegisterRequest, bc: Bcrypt, salt: string): (o: Outcome)
    ensures o.reply.status == 201 || o.reply.status == 400 || o.reply.status == 500
    ensures o.reply.status != 201 ==> o.db.users == db.users && o.reply.user.None? && o.reply.token.None?
    ensures o.reply.status == 201 ==> req.email.Some? && req.email.value in o.db.users
    ensures o.reply.status == 400 ==> o.db == db
    ensures o.db.nextId == db.nextId || o.db.nextId == db.nextId + 1
    ensures o.db.nextId == db.nextId + 1 <==> AllFieldsPresent(req) && req.email.value !in db.users
  {
    if !AllFieldsPresent(req) then Outcome(AllFieldsRequired, db)
    else if FindByEmail(db.users, req.email.value).Some? then Outcome(AlreadyExists, db)
    else
      var u := NewRecord(db, req, bc, salt);
      var generated := Db(db.users, db.nextId + 1);
      if SaveCheck(generated.users, u).Some? then Outcome(RegistrationServerError, generated)
      else Outcome(Reply(201, req.role.value + " registered successfully!", Some(ViewOf(u)), None),
                   Db(db.users[u.email := u], generated.nextId))
  }

  /** `registerUser` against the live collection. */
  method RegisterUser(store: UserCollection, req: RegisterRequest, bc: Bcrypt, salt: string)
    returns (reply: Reply)
    requires store.Valid()
    modifies store
    ensures store.Valid()
    ensures Outcome(reply, store.State()) == Register(old(store.State()), req, bc, salt)
  {
    if !AllFieldsPresent(req) {
      return AllFieldsRequired;
    }
    var existingUser := FindByEmail(store.users, req.email.value);
    if existingUser.Some? {
      return AlreadyExists;
    }
    var hashedPassword := bc.hash(req.password.value, salt);
    var id := store.NewObjectId();
    var newUser := User(id, req.name.value, req.email.value, hashedPassword, req.role.value, NoProfile);
    var err := store.Save(newUser);
    if err.Some? {
      return RegistrationServerError;
    }
    return Reply(201, req.role.value + " registered successfully!", Some(ViewOf(newUser)), None);
  }

  /** `loginUser`: presence check, lookup by the raw email, password check
      against the stored digest, then the sanitised view and a token whose
      payload is the stored id, email and role. It reads the collection and
      never writes it. */
  function LoginUser(users: map<string, User>, req: LoginRequest, bc: Bcrypt, secret: string, now: nat)
    : (r: Reply)
    ensures !Present(req.email) || !Present(req.password) ==> r == CredentialsRequired
    ensures r.status == 200 <==>
      && Present(req.email) && Present(req.password)
      && req.email.value in users
      && bc.compare(req.password.value, users[req.email.value].password)
    ensures r.status == 200 ==>
      var u := users[req.email.value];
      && r.message == "Login successful!"
      && r.user == Some(ViewOf(u))
      && r.token.Some? && r.token.value.claims == Claims(u.id, u.email, u.role, now, now + ExpiresIn)
      && r.token.value.signedWith == secret
    ensures Present(req.email) && Present(req.password) && r.status != 200 ==> r == InvalidCredentials
  {
    if !Present(req.email) || !Present(req.password) then CredentialsRequired
    else
      var found := FindByEmail(users, req.email.value);
      if found.None? then InvalidCredentials
      else
        var user := found.value;
        if !bc.compare(req.password.value, user.password) then InvalidCredentials
        else
          var token := Sign(user.id, user.email, user.role, secret, now);
          Reply(200, "Login successful!", Some(ViewOf(user)), Some(token))
  }

  // ----- Properties of registration -----

  /** A request missing any of the four fields is refused and nothing is stored. */
  lemma RegisterRequiresAllFields(db: Db, req: RegisterRequest, bc: Bcrypt, salt: string)
    requires !AllFieldsPresent(req)
    ensures Register(db, req, bc, salt) == Outcome(Reply(400, "All fields are required", None, None), db)
  {
  }

  /** An email that is already stored is refused and nothing changes. */
  lemma RegisterRejectsDuplicate(db: Db, req: RegisterRequest, bc: Bcrypt, salt: string)
    requires AllFieldsPresent(req) && req.email.value in db.users
    ensures Register(db, req, bc, salt) ==
      Outcome(Reply(400, "User with this email already exists", None, None), db)
  {
  }

  /** A role outside the enum passes the presence check but fails at save:
      500 and no document stored. */
  lemma RegisterRejectsUnknownRole(db: Db, req: RegisterRequest, bc: Bcrypt, salt: string)
    requires AllFieldsPresent(req) && req.email.value !in db.users
    requires req.role.value !in Roles
    ensures var o := Register(db, req, bc, salt);
      o.reply == Reply(500, "Server error during registration", None, None) && o.db.users == db.users
  {
  }

  /** When registration succeeds, and exactly when: all fields present, the
      email new, the role in the enum and the digest non-empty. Success adds
      one document under the request's email, holding the digest and no
      profile paths, touches no other entry, and answers 201 with the
      sanitised view of that document. Every other outcome leaves the
      stored documents unchanged. */
  lemma RegisterSucceeds(db: Db, req: RegisterRequest, bc: Bcrypt, salt: string)
    requires Consistent(db)
    ensures var o := Register(db, req, bc, salt);
      && (o.reply.status == 201 <==>
            && AllFieldsPresent(req) && req.email.value !in db.users
            && req.role.value in Roles && bc.hash(req.password.value, salt) != "")
      && (o.reply.status == 201 ==>
            var u := NewRecord(db, req, bc, salt);
            && o.db.users.Keys == db.users.Keys + {req.email.value}
            && o.db.users[req.email.value] == u
            && (forall e :: e in db.users ==> o.db.users[e] == db.users[e])
            && o.reply == Reply(201, req.role.value + " registered successfully!",
                                Some(ViewOf(u)), None))
      && (o.reply.status != 201 ==> o.db.users == db.users && o.reply.user.None?)
  {
    if AllFieldsPresent(req) && req.email.value !in db.users {
      var u := NewRecord(db, req, bc, salt);
      assert !IdTaken(db.users, u.id);
    }
  }

  /** A password whose digest comes out empty fails the `required` check on
      `password` at save: 500 and no document stored. */
  lemma RegisterRejectsEmptyDigest(db: Db, req: RegisterRequest, bc: Bcrypt, salt: string)
    requires AllFieldsPresent(req) && req.email.value !in db.users
    requires bc.hash(req.password.value, salt) == ""
    ensures var o := Register(db, req, bc, salt);
      o.reply == Reply(500, "Server error during registration", None, None) && o.db.users == db.users
  {
  }

  /** The two messages a successful registration can carry. */
  lemma SuccessMessage(role: string)
    requires role in Roles
    ensures || role + " registered successfully!" == "user registered successfully!"
            || role + " registered successfully!" == "counselor registered successfully!"
  {
  }

  /** Every reply of `registerUser` is one of a fixed set: the two 400s, the
      500, or the 201 whose message names one of the two roles. */
  lemma RegisterRepliesAreFixed(db: Db, req: RegisterRequest, bc: Bcrypt, salt: string)
    ensures var r := Register(db, req, bc, salt).reply;
      || r == AllFieldsRequired
      || r == AlreadyExists
      || r == RegistrationServerError
      || (&& r.status == 201 && r.user.Some? && r.token.None?
          && (r.message == "user registered successfully!"
              || r.message == "counselor registered successfully!"))
  {
    if AllFieldsPresent(req) && req.email.value !in db.users {
      var u := NewRecord(db, req, bc, salt);
      if SaveCheck(db.users, u).None? {
        SuccessMessage(req.role.value);
      }
    }
  }

  /** Every registration keeps the collection consistent: emails unique,
      documents schema-valid, ids distinct. */
  lemma RegisterKeepsConsistent(db: Db, req: RegisterRequest, bc: Bcrypt, salt: string)
    requires Consistent(db)
    ensures Consistent(Register(db, req, bc, salt).db)
  {
    if AllFieldsPresent(req) && req.email.value !in db.users {
      var u := NewRecord(db, req, bc, salt);
      var generated := Db(db.users, db.nextId + 1);
      if SaveCheck(generated.users, u).None? {
        SaveKeepsConsistent(generated, u);
      }
    }
  }

  /** Registering is not idempotent: after a successful registration, any
      further registration with the same email fails with the duplicate
      message (or the missing-field one) and changes nothing. */
  lemma RegisterTwiceFails(db: Db, req: RegisterRequest, again: RegisterRequest,
                           bc: Bcrypt, salt: string, salt': string)
    requires Register(db, req, bc, salt).reply.status == 201
    requires again.email == req.email
    ensures var first := Register(db, req, bc, salt).db;
      Register(first, again, bc, salt') ==
        Outcome(if AllFieldsPresent(again) then AlreadyExists else AllFieldsRequired, first)
  {
  }

  // ----- Properties of login -----

  /** An unknown email and a wrong password for a known email produce
      identical status and body. (Response timing is not modelled.) */
  lemma LoginFailuresIdentical(users: map<string, User>, other: map<string, User>,
                               email: string, password: string,
                               bc: Bcrypt, secret: string, now: nat)
    requires email != "" && password != ""
    requires email !in users
    requires email in other && !bc.compare(password, other[email].password)
    ensures var req := LoginRequest(Some(email), Some(password));
      && LoginUser(users, req, bc, secret, now) == LoginUser(other, req, bc, secret, now)
      && LoginUser(users, req, bc, secret, now) == Reply(400, "Invalid email or password", None, None)
  {
  }

  /** Login reads only the entry stored under the requested email: two
      collections that agree on that entry give the same reply. */
  lemma LoginReadsOneEntry(users: map<string, User>, other: map<string, User>, req: LoginRequest,
                           bc: Bcrypt, secret: string, now: nat)
    requires req.email.Some?
    requires FindByEmail(users, req.email.value) == FindByEmail(other, req.email.value)
    ensures LoginUser(users, req, bc, secret, now) == LoginUser(other, req, bc, secret, now)
  {
  }

  /** Emails match exactly: an account stored as "Ann@x.com" cannot be
      logged into as "ann@x.com", and does not block registering it. */
  lemma EmailMatchIsExact(u: User, req: RegisterRequest, bc: Bcrypt, salt: string, secret: string, now: nat)
    requires u.email == "Ann@x.com"
    requires AllFieldsPresent(req) && req.email.value == "ann@x.com"
    ensures LoginUser(map["Ann@x.com" := u], LoginRequest(Some("ann@x.com"), Some("pw12345")), bc, secret, now)
      == InvalidCredentials
    ensures Register(Db(map["Ann@x.com" := u], u.id + 1), req, bc, salt).reply != AlreadyExists
  {
    assert "ann@x.com"[0] != "Ann@x.com"[0];
  }

  // ----- Register, then log in -----

  /** Round trip: once registration succeeds, logging in with the same email
      and password succeeds, returns the same view as the registration did,
      and issues a token for that document's id, email and role. */
  lemma RegisterThenLogin(db: Db, req: RegisterRequest, bc: Bcrypt, salt: string, secret: string, now: nat)
    requires Sound(bc)
    requires Register(db, req, bc, salt).reply.status == 201
    ensures var o := Register(db, req, bc, salt);
      var r := LoginUser(o.db.users, LoginRequest(req.email, req.password), bc, secret, now);
      && r.status == 200
      && r.user == o.reply.user
      && r.token == Some(Sign(db.nextId, req.email.value, req.role.value, secret, now))
  {
    assert bc.compare(req.password.value, bc.hash(req.password.value, salt));
  }
}

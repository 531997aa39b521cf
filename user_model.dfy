/** The `User` collection: the record shape declared by `UserSchema`
    (backend/src/models/User.js), the constraints Mongoose enforces when a
    document is saved (required paths, the role enum, the unique indexes on
    `email` and `_id`), and the collection itself as a mutable map from
    email to record. */
module UserModel {

  import opened Wrappers

  /** Store-generated document identifier (Mongo's `_id`). */
  type ObjectId = nat

  /** The values accepted by the schema's `enum` on `role`. */
  const Roles: set<string> := {"user", "counselor"}

  /** The nine optional profile paths; each is a plain string or absent. */
  datatype Profile = Profile(
    major: Option<string>,
    year: Option<string>,
    livingSituation: Option<string>,
    goals: Option<string>,
    dob: Option<string>,
    emergencyName: Option<string>,
    emergencyRelation: Option<string>,
    emergencyNumber: Option<string>,
    supportNetwork: Option<string>)

  /** A profile with every optional path absent. */
  const NoProfile: Profile := Profile(None, None, None, None, None, None, None, None, None)

  /** One document of the collection. `password` holds the bcrypt digest.
      Required string paths are plain strings: Mongoose's `required`
      validator treats a missing value and the empty string alike, so ""
      stands for "missing" here. */
  datatype User = User(
    id: ObjectId,
    name: string,
    email: string,
    password: string,
    role: string,
    profile: Profile)

  /** What a failed `save()` reports. */
  datatype SaveError =
    | ValidationError(path: string)
    | DuplicateKey(index: string)

  /** The collection's contents together with the id generator's state. */
  datatype Db = Db(users: map<string, User>, nextId: ObjectId)

  /** Schema validation: the four required paths are non-empty and `role`
      is one of the enum values. Optional paths impose nothing. */
  predicate SchemaValid(u: User) {
    && u.name != ""
    && u.email != ""
    && u.password != ""
    && u.role != ""
    && u.role in Roles
  }

  /** Some stored document already carries this `_id`. */
  predicate IdTaken(users: map<string, User>, id: ObjectId) {
    exists e :: e in users && users[e].id == id
  }

  /** The collection's invariant: every document is stored under its own
      email (so no two documents share an email), every document passed
      schema validation, and `_id`s are distinct and were all issued by the
      generator. */
  ghost predicate Consistent(db: Db) {
    && (forall e :: e in db.users ==>
          db.users[e].email == e && SchemaValid(db.users[e]) && db.users[e].id < db.nextId)
    && (forall e1, e2 :: e1 in db.users && e2 in db.users && e1 != e2 ==>
          db.users[e1].id != db.users[e2].id)
  }

  /** `User.findOne({ email })`: exact string match, no normalisation. */
  function FindByEmail(users: map<string, User>, email: string): (r: Option<User>)
    ensures r.Some? <==> email in users
    ensures r.Some? ==> r.value == users[email]
  {
    if email in users then Some(users[email]) else None
  }

  /** In a consistent collection, looking up the key is the query
      `findOne({ email })`: a document is found exactly when some stored
      document's `email` path equals the query, and the one found has it. */
  lemma FindByEmailIsQuery(db: Db, email: string)
    requires Consistent(db)
    ensures FindByEmail(db.users, email).Some? <==>
      exists k :: k in db.users && db.users[k].email == email
    ensures FindByEmail(db.users, email).Some? ==> FindByEmail(db.users, email).value.email == email
  {
    if exists k :: k in db.users && db.users[k].email == email {
      var k :| k in db.users && db.users[k].email == email;
      assert k == email;
    }
  }

  /** The outcome of `save()` for a new document: schema validation first
      (paths in declaration order), then the unique index on `email`, then
      the one on `_id`. `None` means the document was inserted. */
  function SaveCheck(users: map<string, User>, u: User): (r: Option<SaveError>)
    ensures r.None? <==> SchemaValid(u) && u.email !in users && !IdTaken(users, u.id)
    ensures !SchemaValid(u) ==> r.Some? && r.value.ValidationError?
    ensures SchemaValid(u) && u.email in users ==> r == Some(DuplicateKey("email"))
  {
    if u.name == "" then Some(ValidationError("name"))
    else if u.email == "" then Some(ValidationError("email"))
    else if u.password == "" then Some(ValidationError("password"))
    else if u.role == "" || u.role !in Roles then Some(ValidationError("role"))
    else if u.email in users then Some(DuplicateKey("email"))
    else if IdTaken(users, u.id) then Some(DuplicateKey("_id"))
    else None
  }

  /** Inserting a document that `save()` accepts keeps the collection
      consistent, provided its id came from the generator. */
  lemma SaveKeepsConsistent(db: Db, u: User)
    requires Consistent(db)
    requires u.id < db.nextId
    requires SaveCheck(db.users, u).None?
    ensures Consistent(Db(db.users[u.email := u], db.nextId))
  {
    var users' := db.users[u.email := u];
    forall e1, e2 | e1 in users' && e2 in users' && e1 != e2
      ensures users'[e1].id != users'[e2].id
    {
      if e1 == u.email {
        assert users'[e2] == db.users[e2];
      } else if e2 == u.email {
        assert users'[e1] == db.users[e1];
      }
    }
  }

  /** Email is unique across all documents of a consistent collection. */
  lemma EmailUnique(db: Db, e1: string, e2: string)
    requires Consistent(db)
    requires e1 in db.users && e2 in db.users
    ensures db.users[e1].email == db.users[e2].email <==> e1 == e2
  {
  }

  /** The `User` model: a collection of documents keyed by email. */
  class UserCollection {
    var users: map<string, User>
    var nextId: ObjectId

    ghost predicate Valid()
      reads this
    {
      Consistent(Db(users, nextId))
    }

    /** The collection's abstract value. */
    function State(): (db: Db)
      reads this
    {
      Db(users, nextId)
    }

    constructor ()
      ensures Valid()
      ensures users == map[] && nextId == 0
    {
      users := map[];
      nextId := 0;
    }

    /** `new User({...})` assigns a fresh `_id` before anything is saved. */
    method NewObjectId() returns (id: ObjectId)
      requires Valid()
      modifies this`nextId
      ensures Valid()
      ensures id == old(nextId) && nextId == old(nextId) + 1
      ensures !IdTaken(users, id)
    {
      id := nextId;
      nextId := nextId + 1;
    }

    /** `doc.save()` for a new document: insert it if validation and both
        unique indexes allow, otherwise leave the collection as it was. */
    method Save(u: User) returns (err: Option<SaveError>)
      requires Valid()
      requires u.id < nextId
      modifies this`users
      ensures Valid()
      ensures err == SaveCheck(old(users), u)
      ensures users == if err.None? then old(users)[u.email := u] else old(users)
    {
      err := SaveCheck(users, u);
      if err.None? {
        SaveKeepsConsistent(Db(users, nextId), u);
        users := users[u.email := u];
      }
    }
  }
}

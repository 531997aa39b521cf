# Credential lifecycle of the wellness backend, in Dafny

This project models the part of the backend that creates and checks
credentials: the `registerUser` and `loginUser` handlers
(`backend/src/controllers/authController.js`) running against the Mongoose
`User` collection declared in `backend/src/models/User.js`.

- `UserModel` (user_model.dfy) is the schema: the `User` record with its
  four required paths and nine optional profile paths, the role enum
  (`user`, `counselor`), and the collection as a class `UserCollection`
  whose field `users: map<string, User>` maps each email to its document.
  `NewObjectId` stands for the `_id` Mongoose assigns when a document is
  constructed. `Save` stands for `doc.save()`: it runs schema validation and
  then the unique indexes on `email` and `_id`. The invariant `Consistent`
  says every document is stored under its own email, passed validation, and
  has a distinct `_id`.
- `Jwt` (jwt.dfy) is the token: the payload `{id, email, role}` plus the
  `iat` and `exp` claims that `jwt.sign` adds, with `exp = iat + 3600` for
  `expiresIn: '1h'`. A token is its claims plus a record of which secret
  its signature was made with; the secret itself is not part of what the
  client receives. `Live` is the expiry rule of section 4.1.4 of RFC 7519.
- `AuthController` (auth_controller.dfy) has the handlers. bcrypt is a pair
  of uninterpreted operations `hash(password, salt)` and
  `compare(password, digest)`. The only thing assumed about them is
  `Sound`: a password always matches a digest made from it. `Register` is
  the specification of `registerUser` as a function of the collection's
  state. `RegisterUser` is the handler as an imperative method on a
  `UserCollection`, proved equal to it. `LoginUser` is a function of the
  stored map, so it cannot write to the collection.
- `Lifecycle` (lifecycle.dfy) runs any sequence of registrations one after
  another. It proves that each email is registered at most once, that a
  stored document is never replaced, and that every successful registrant
  can later log in.

The sanitised view `UserView` has no password path, so no reply can carry
the digest. Every reply is one of a fixed set of status and message pairs.

Some of what the code does may be unexpected. The model follows it:
- An unknown role is not rejected by the handler's validation. It passes
  the presence check, fails schema validation at `save()`, and the catch
  block answers 500 "Server error during registration".
- A duplicate email is answered with 400, not a conflict status.
- Registration stores no profile paths, even when the request carries
  them. The handler builds the document from role, name, email and the
  digest only.
- The signing secret falls back to a hard-coded value in the code. Here
  the secret is a parameter (see Left out).

## Model

| member | source | states |
|---|---|---|
| UserModel.SchemaValid | backend/src/models/User.js:5-8 | A document passes validation exactly when name, email, password and role are all non-empty and role is "user" or "counselor". The profile paths impose nothing. |
| UserModel.Consistent | backend/src/models/User.js:4-18 | The collection invariant: every document is stored under its own email, so no two documents share an email. Every document passed schema validation. All `_id`s are distinct and were issued by the generator. |
| UserModel.FindByEmailIsQuery | backend/src/controllers/authController.js:58 | In a consistent collection, looking up the email key is the query `findOne({ email })`. A document is found exactly when some stored document's `email` path equals the query string, and the document found has that email. |
| UserModel.SaveCheck | backend/src/models/User.js:4-18 | `save()` inserts a document exactly when the required paths are non-empty, the role is in the enum, and neither the email nor the `_id` is already stored. A schema violation is a validation error. A taken email is a duplicate-key error on `email`. |
| UserModel.SaveKeepsConsistent | backend/src/models/User.js:5-8 | Inserting a document that `save()` accepts, with a generated id, keeps the invariant: emails unique, documents valid, ids distinct. |
| UserModel.EmailUnique | backend/src/models/User.js:6 | In a consistent collection, two documents share an email only if they are the same document. |
| UserModel.UserCollection.constructor | backend/src/models/User.js:20 | An empty collection satisfies the invariant. |
| UserModel.UserCollection.NewObjectId | backend/src/controllers/authController.js:24-29 | Constructing a document draws an `_id` no stored document has. Only the id generator changes. |
| UserModel.UserCollection.Save | backend/src/controllers/authController.js:31 | The collection gains the document under its email when `SaveCheck` accepts it, and is otherwise unchanged. The invariant is kept. |
| Jwt.Sign | backend/src/controllers/authController.js:69-73 | The token carries exactly the given id, email and role. It is issued at `now`, expires exactly one hour (3600 s) later, and is live when issued. It records the secret its signature was made with. |
| Jwt.SignedTokenLifetime | backend/src/controllers/authController.js:69-73 | The signed token carries exactly the given id, email and role and the given secret. It is live at every instant before one hour after issue, and at none from then on. |
| AuthController.Register | backend/src/controllers/authController.js:8-47 | Every registration answers 201, 400 or 500. Any outcome but 201 leaves the stored documents unchanged and returns no user and no token. A 400 leaves the whole state unchanged. A 201 leaves the request's email stored. The id generator advances by one exactly when all fields are present and the email is new, that is, when `new User` is reached; otherwise it stays put. |
| AuthController.RegisterUser | backend/src/controllers/authController.js:8-47 | The handler's reply and the collection's new state are exactly those of the `Register` specification applied to the old state. The collection invariant is kept. |
| AuthController.LoginUser | backend/src/controllers/authController.js:50-91 | A missing or empty email or password gives 400 "Email and password are required". Login gives 200 exactly when the email is stored and the password matches its digest. Success gives "Login successful!", the stored document's id, name, email and role, and a token with claims {id, email, role, iat = now, exp = now + 3600}. Every other outcome is 400 "Invalid email or password". |
| AuthController.RegisterRequiresAllFields | backend/src/controllers/authController.js:12-14 | If role, name, email or password is missing or empty, the reply is 400 "All fields are required" and the collection is unchanged. |
| AuthController.RegisterRejectsDuplicate | backend/src/controllers/authController.js:16-19 | If the email is already stored, the reply is 400 "User with this email already exists" and the collection is unchanged. |
| AuthController.RegisterRejectsUnknownRole | backend/src/models/User.js:8 | A present role outside the enum, with a new email, gives 500 "Server error during registration" and stores nothing. |
| AuthController.RegisterRejectsEmptyDigest | backend/src/models/User.js:7 | A request with all fields present and a new email, whose password digest comes out empty, fails the `required` check on `password` at save. The reply is 500 "Server error during registration" and nothing is stored. |
| AuthController.RegisterRepliesAreFixed | backend/src/controllers/authController.js:12-46 | Every registration reply is one of four: 400 "All fields are required", 400 "User with this email already exists", 500 "Server error during registration", or 201 with a user, no token and the message "user registered successfully!" or "counselor registered successfully!". |
| AuthController.RegisterSucceeds | backend/src/controllers/authController.js:21-42 | In a consistent collection, registration answers 201 exactly when all fields are present, the email is new, the role is in the enum and the digest is non-empty. Then exactly one document is added, under the request's email. It holds the fresh id, role, name, email, `hash(password, salt)` and no profile paths. No other entry changes. The reply is "<role> registered successfully!" with the view {id, name, email, role}. Every other outcome leaves the documents unchanged and returns no user. |
| AuthController.RegisterKeepsConsistent | backend/src/controllers/authController.js:24-31 | Every registration keeps the collection invariant. |
| AuthController.RegisterTwiceFails | backend/src/controllers/authController.js:16-19 | After a successful registration, another one with the same email fails (duplicate, or missing fields) and changes nothing. |
| AuthController.LoginFailuresIdentical | backend/src/controllers/authController.js:58-66 | An unregistered email and a registered email with a wrong password give the identical status and body, 400 "Invalid email or password". |
| AuthController.LoginReadsOneEntry | backend/src/controllers/authController.js:58 | Login's reply depends only on the document stored under the requested email. |
| AuthController.EmailMatchIsExact | backend/src/models/User.js:6 | Emails are compared exactly. "ann@x.com" cannot log into the account stored as "Ann@x.com". Registering "ann@x.com" is not refused as a duplicate of it. |
| AuthController.RegisterThenLogin | backend/src/controllers/authController.js:21-86 | Given a sound bcrypt, after a successful registration, logging in with the same email and password succeeds. It returns the view the registration returned and a token for the new id, email and role. |
| Lifecycle.RegisterAll | backend/src/controllers/authController.js:8-47 | Running registrations one after another yields exactly one reply per request. The id generator never moves backwards. |
| Lifecycle.RegisterAllKeepsConsistent | backend/src/models/User.js:4-18 | Any sequence of registrations keeps the collection invariant. |
| Lifecycle.RegisteredIsPermanent | backend/src/controllers/authController.js:16-31 | In a consistent collection, a stored document is never replaced or removed by later registrations. Registered is a terminal state. |
| Lifecycle.RegisteredExactlyOnce | backend/src/controllers/authController.js:16-19 | Starting from a consistent collection, over any sequence of registrations an email ends up stored exactly when it was stored before or exactly one request registered it. At most one registration per email succeeds, and none succeeds for an email already taken. |
| Lifecycle.LoginAfterRun | backend/src/controllers/authController.js:58-66 | Given a sound bcrypt and a consistent starting collection, anyone whose registration succeeded anywhere in a run can log in at the end with the same email and password. They get back the view their registration returned. |

## Left out

- bcrypt internals are not modelled: salt generation with cost factor 10, the hash algorithm, and the constant-time compare. The salt is a parameter. `hash` and `compare` are uninterpreted, and only `Sound` is assumed. So the model cannot show that the digest hides the password, or that two salts give different digests. Nor does it capture bcrypt's 72-byte password truncation.
- JWT signing and the secret's fallback are not modelled. Signing cryptography is absent, and the secret is a parameter, so the `process.env.JWT_SECRET || 'secretkey'` fallback is not modelled. This code never verifies a token; `Live` only states what `exp` means.
- LoginFailuresIdentical: response timing is not modelled. An unknown email is answered before `bcrypt.compare` runs, so the time taken still distinguishes it from a wrong password. Only status and body are proved identical.
- Concurrency is not modelled. Requests are handled one at a time, so the race between the lookup and the save of two concurrent registrations is not represented. The unique index on `email` is still modelled in `Save`.
- Database and library failures are not modelled: a lost connection, or an exception from bcrypt or the JWT library. The only 500 the model produces is a failed `save()`. Login's 500 path has no cause inside the model.
- Request fields are optional strings. JSON numbers, booleans and objects are not modelled, and neither are query-operator objects passed through to `findOne`.
- A required path that is missing is represented by the empty string. Mongoose's `required` validator rejects both alike.
- `SaveCheck` reports only the first violation. Mongoose collects every failing path, but the handler discards the error either way.
- Time is a natural number of seconds passed in as `now`. It stands for `Math.floor(Date.now() / 1000)`.
- Error logging through `console.error` is not modelled.
- The front-end pages, the chat assistant and the server wiring in `backend/src/server.js` are not part of this model.

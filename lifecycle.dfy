/** A credential's lifecycle across many requests handled one after another:
    a sequence of registrations run against the collection, and what a later
    login sees. Each email moves from unregistered to registered at most
    once and then never changes. */
module Lifecycle {

  import opened Wrappers
  import opened UserModel
  import opened Jwt
  import opened AuthController

  /** One `registerUser` request with the salt bcrypt drew for it. */
  datatype RegisterCall = RegisterCall(req: RegisterRequest, salt: string)

  /** The collection after a sequence of registrations and the replies, in order. */
  datatype Run = Run(db: Db, replies: seq<Reply>)

  /** Handle the registrations in `calls` in order, starting from `db`. */
  function RegisterAll(db: Db, calls: seq<RegisterCall>, bc: Bcrypt): (r: Run)
    ensures |r.replies| == |calls|
    ensures r.db.nextId >= db.nextId
    decreases |calls|
  {
    if calls == [] then Run(db, [])
    else
      var prev := RegisterAll(db, calls[..|calls| - 1], bc);
      var last := calls[|calls| - 1];
      var o := Register(prev.db, last.req, bc, last.salt);
      Run(o.db, prev.replies + [o.reply])
  }

  /** How many of the calls registered `email` successfully. */
  function SuccessCount(calls: seq<RegisterCall>, replies: seq<Reply>, email: string): (n: nat)
    requires |calls| == |replies|
    decreases |calls|
  {
    if calls == [] then 0
    else
      var n := |calls| - 1;
      SuccessCount(calls[..n], replies[..n], email)
        + (if replies[n].status == 201 && calls[n].req.email == Some(email) then 1 else 0)
  }

  /** Running registrations keeps the collection consistent. */
  lemma {:induction false} RegisterAllKeepsConsistent(db: Db, calls: seq<RegisterCall>, bc: Bcrypt)
    requires Consistent(db)
    ensures Consistent(RegisterAll(db, calls, bc).db)
    decreases |calls|
  {
    if calls != [] {
      var prefix := calls[..|calls| - 1];
      var last := calls[|calls| - 1];
      RegisterAllKeepsConsistent(db, prefix, bc);
      RegisterKeepsConsistent(RegisterAll(db, prefix, bc).db, last.req, bc, last.salt);
    }
  }

  /** Registered is a terminal state: a stored document is never replaced
      or removed by later registrations. */
  lemma {:induction false} RegisteredIsPermanent(db: Db, calls: seq<RegisterCall>, bc: Bcrypt, email: string)
    requires Consistent(db)
    requires email in db.users
    ensures var r := RegisterAll(db, calls, bc);
      email in r.db.users && r.db.users[email] == db.users[email]
    decreases |calls|
  {
    if calls != [] {
      var prefix := calls[..|calls| - 1];
      var last := calls[|calls| - 1];
      RegisteredIsPermanent(db, prefix, bc, email);
      RegisterAllKeepsConsistent(db, prefix, bc);
      RegisterSucceeds(RegisterAll(db, prefix, bc).db, last.req, bc, last.salt);
    }
  }

  /** Over any sequence of registrations, an email ends up registered exactly
      when it was registered before or exactly one of the calls registered
      it; so at most one registration per email ever succeeds, and none
      succeeds for an email that was already taken. */
  lemma {:induction false} RegisteredExactlyOnce(db: Db, calls: seq<RegisterCall>, bc: Bcrypt, email: string)
    requires Consistent(db)
    ensures var r := RegisterAll(db, calls, bc);
      SuccessCount(calls, r.replies, email) + (if email in db.users then 1 else 0)
        == (if email in r.db.users then 1 else 0)
    decreases |calls|
  {
    if calls != [] {
      var n := |calls| - 1;
      var prefix := calls[..n];
      var last := calls[n];
      var prev := RegisterAll(db, prefix, bc);
      var r := RegisterAll(db, calls, bc);
      RegisteredExactlyOnce(db, prefix, bc, email);
      RegisterAllKeepsConsistent(db, prefix, bc);
      RegisterSucceeds(prev.db, last.req, bc, last.salt);
      assert r.replies[..n] == prev.replies;
      assert r.replies[n] == Register(prev.db, last.req, bc, last.salt).reply;
    }
  }

  /** Running `xs` and then `ys` is running `xs + ys`. */
  lemma {:induction false} RegisterAllAppend(db: Db, xs: seq<RegisterCall>, ys: seq<RegisterCall>, bc: Bcrypt)
    ensures var first := RegisterAll(db, xs, bc);
      var second := RegisterAll(first.db, ys, bc);
      RegisterAll(db, xs + ys, bc) == Run(second.db, first.replies + second.replies)
    decreases |ys|
  {
    if ys == [] {
      assert xs + ys == xs;
    } else {
      var m := |ys| - 1;
      assert (xs + ys)[..|xs + ys| - 1] == xs + ys[..m];
      assert (xs + ys)[|xs + ys| - 1] == ys[m];
      RegisterAllAppend(db, xs, ys[..m], bc);
    }
  }

  /** Round trip over a whole run: whoever registered successfully at any
      point can afterwards log in with the same email and password, and gets
      back the view their registration returned. */
  lemma LoginAfterRun(db: Db, calls: seq<RegisterCall>, bc: Bcrypt, i: nat, secret: string, now: nat)
    requires Sound(bc)
    requires Consistent(db)
    requires i < |calls|
    requires RegisterAll(db, calls, bc).replies[i].status == 201
    ensures var r := RegisterAll(db, calls, bc);
      var login := LoginUser(r.db.users, LoginRequest(calls[i].req.email, calls[i].req.password), bc, secret, now);
      login.status == 200 && login.user == r.replies[i].user
  {
    var xs, ys := calls[..i + 1], calls[i + 1..];
    assert calls == xs + ys;
    RegisterAllAppend(db, xs, ys, bc);
    var before := RegisterAll(db, calls[..i], bc);
    assert xs[..|xs| - 1] == calls[..i];
    var call := calls[i];
    var o := Register(before.db, call.req, bc, call.salt);
    var first := RegisterAll(db, xs, bc);
    assert first == Run(o.db, before.replies + [o.reply]);
    assert RegisterAll(db, calls, bc).replies[i] == o.reply;
    RegisterAllKeepsConsistent(db, calls[..i], bc);
    RegisterSucceeds(before.db, call.req, bc, call.salt);
    RegisterKeepsConsistent(before.db, call.req, bc, call.salt);
    var email := call.req.email.value;
    RegisteredIsPermanent(o.db, ys, bc, email);
    assert bc.compare(call.req.password.value, bc.hash(call.req.password.value, call.salt));
  }
}

/** The token issued at login: `jwt.sign(payload, secret, { expiresIn: '1h' })`.
    Signing is not modelled cryptographically; a token is its claim set
    together with the secret its signature was made with. */
module Jwt {

  /** `expiresIn: '1h'`, in seconds. */
  const ExpiresIn: nat := 3600

  /** The payload `{ id, email, role }` plus the registered claims the
      library adds: `iat` (issue time) and `exp` (expiry), both in seconds. */
  datatype Claims = Claims(id: nat, email: string, role: string, iat: nat, exp: nat)

  /** A signed token. `signedWith` stands for the signature made with the
      server's secret; it records which secret signed the claims and is not
      a value the token discloses. */
  datatype Token = Token(claims: Claims, signedWith: string)

  /** Sign the payload at time `now`: the token carries exactly the given
      payload, is issued at `now`, expires one hour later and is live when
      issued. */
  function Sign(id: nat, email: string, role: string, secret: string, now: nat): (t: Token)
    ensures t.claims.id == id && t.claims.email == email && t.claims.role == role
    ensures t.claims.iat == now && t.claims.exp - t.claims.iat == ExpiresIn
    ensures t.signedWith == secret
    ensures Live(t, now)
  {
    Token(Claims(id, email, role, now, now + ExpiresIn), secret)
  }

  /** The expiry rule of section 4.1.4 of RFC 7519: a token must not be
      accepted on or after its `exp` time. */
  predicate Live(t: Token, at: nat) {
    at < t.claims.exp
  }

  /** A token signed at `now` carries exactly the given payload, and is live
      at every instant of the hour that starts at `now` and at no later one. */
  lemma SignedTokenLifetime(id: nat, email: string, role: string, secret: string, now: nat, at: nat)
    requires now <= at
    ensures var t := Sign(id, email, role, secret, now);
      && t.claims.id == id && t.claims.email == email && t.claims.role == role
      && t.signedWith == secret
      && (Live(t, at) <==> at - now < ExpiresIn)
  {
  }
}

/**
  JSON Web Tokens (RFC 7519), kept abstract: `sign` and `verify` are uninterpreted functions
  supplied by the caller, and `Sound` states the only facts the application relies on. The
  application signs `{ id_user, email }` with `expiresIn: "1h"`, so the `exp` claim of section
  4.1.4 of RFC 7519 is the issue time plus 3600 seconds. Times are whole seconds.
 */
module Tokens {
  import opened Wrappers
  import opened Store

  /** What `jwt.verify` hands back: a string payload, or a claim set. */
  datatype Decoded = Text(text: string) | Claims(idUser: Option<int>, email: Option<string>, iat: int, exp: int)

  /** `verify` either decodes the token or throws with a reason ("jwt expired", "invalid signature", ...). */
  datatype Verification = Verified(payload: Decoded) | Rejected(reason: string)

  /** The two library calls: `sign(payload, key)` and `verify(token, key, now)`. */
  datatype Jwt = Jwt(sign: (Decoded, string) -> string, verify: (string, string, int) -> Verification)

  /** `expiresIn: "1h"`. */
  const Lifetime := 3600

  const ExpiredReason := "jwt expired"

  /** A claim set past its `exp` is refused: `verify` fails once `now >= exp`. */
  predicate Expired(d: Decoded, now: int) {
    d.Claims? && now >= d.exp
  }

  /** The contract of the signing library: a token signed with a key verifies under that key, to the
      same payload, until it expires; nothing else verifies; and a token is one non-empty word. */
  ghost predicate Sound(j: Jwt) {
    && (forall d, key, now :: j.verify(j.sign(d, key), key, now) == if Expired(d, now) then Rejected(ExpiredReason) else Verified(d))
    && (forall t, key, now, d :: j.verify(t, key, now) == Verified(d) ==> t == j.sign(d, key) && !Expired(d, now))
    && (forall d, key :: j.sign(d, key) != "" && ' ' !in j.sign(d, key))
  }

  /** `jwt.sign`/`jwt.verify` throw when the key is undefined or empty. */
  predicate KeyUsable(secret: Option<string>) {
    secret.Some? && secret.value != ""
  }

  /** `process.env.JWT_SECRET || "fallback_secret"`, used by registration only. */
  function KeyOrFallback(secret: Option<string>): (k: string)
    ensures KeyUsable(secret) ==> k == secret.value
    ensures !KeyUsable(secret) ==> k == "fallback_secret"
  {
    if KeyUsable(secret) then secret.value else "fallback_secret"
  }

  /** The claims every issued token carries for user `u` at time `now`. */
  function ClaimsFor(u: User, now: int): (d: Decoded)
    ensures d.Claims? && d.idUser == Some(u.idUser) && d.email == Some(u.email)
    ensures d.exp - d.iat == Lifetime
  {
    Claims(Some(u.idUser), Some(u.email), now, now + Lifetime)
  }

  /** An issued token verifies to its claims for exactly one hour, and never afterwards. */
  lemma IssuedTokenLifetime(j: Jwt, u: User, key: string, issued: int, now: int)
    requires Sound(j)
    ensures j.verify(j.sign(ClaimsFor(u, issued), key), key, now) ==
            if now < issued + Lifetime then Verified(ClaimsFor(u, issued)) else Rejected(ExpiredReason)
  {
  }

  /** Whatever verifies under a key is that key's signature of the payload it decodes to, and unexpired. */
  lemma VerifiedMeansSigned(j: Jwt, t: string, key: string, now: int)
    requires Sound(j) && j.verify(t, key, now).Verified?
    ensures t == j.sign(j.verify(t, key, now).payload, key)
    ensures !Expired(j.verify(t, key, now).payload, now)
  {
  }
}

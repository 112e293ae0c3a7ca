/** JSON Web Tokens (RFC 7519) as `jsonwebtoken` signs and verifies them with one shared secret. The signature
    algorithm is not modelled: a signed token records the claims, the secret it was signed with, and its "iat"
    and "exp" claims (whole seconds). */
module Jwt {
  import opened Common

  type Secret = string

  /** The payloads the user model signs: an access token carries `_id`, email, username and fullName; a refresh
      token carries `_id` only. */
  datatype Claims =
    | AccessClaims(id: Id, email: string, username: string, fullName: string)
    | RefreshClaims(id: Id)

  /** A token as it travels in a cookie or a request body: either the serialization of a signed token, or any
      other text (empty, truncated, tampered). Two tokens are the same string exactly when they are equal here. */
  datatype Token =
    | Signed(claims: Claims, key: Secret, iat: int, exp: int)
    | Text(raw: string)

  /** Why `jwt.verify` throws. */
  datatype VerifyError = Malformed | InvalidSignature | Expired

  /** `jwt.sign(claims, key, {expiresIn})` at time `now`: "iat" is `now` and "exp" is `now + expiresIn`. */
  function Sign(claims: Claims, key: Secret, now: int, expiresIn: nat): Token
  {
    Signed(claims, key, now, now + expiresIn)
  }

  /** `jwt.verify(t, key)` at time `now`: the payload must decode, the signature must be made with `key`, and
      `now` must be before "exp" (section 4.1.4 of RFC 7519); then the claims are returned. */
  function Verify(t: Token, key: Secret, now: int): Result<Claims, VerifyError>
  {
    match t
    case Text(_) => Err(Malformed)
    case Signed(claims, k, _, exp) =>
      if k != key then Err(InvalidSignature)
      else if now >= exp then Err(Expired)
      else Ok(claims)
  }

  /** The `_id` claim a token carries, if it is a signed token at all. */
  function Subject(t: Token): Option<Id>
  {
    if t.Signed? then Some(t.claims.id) else None
  }

  /** Verification succeeds exactly for a token signed with the same secret whose "exp" is still ahead. */
  lemma VerifyAccepts(t: Token, key: Secret, now: int, c: Claims)
    ensures Verify(t, key, now) == Ok(c) <==> t.Signed? && t.key == key && now < t.exp && t.claims == c
  {
  }

  /** A freshly signed token verifies until its lifetime has passed, then fails as expired; under any other
      secret it fails its signature check. */
  lemma SignThenVerify(c: Claims, key: Secret, iat: int, ttl: nat, now: int, other: Secret)
    requires iat <= now
    requires other != key
    ensures now < iat + ttl ==> Verify(Sign(c, key, iat, ttl), key, now) == Ok(c)
    ensures now >= iat + ttl ==> Verify(Sign(c, key, iat, ttl), key, now) == Err(Expired)
    ensures Verify(Sign(c, key, iat, ttl), other, now) == Err(InvalidSignature)
  {
  }

  /** `jsonwebtoken` is deterministic: tokens for the same payload signed in different seconds differ. */
  lemma SignedAtDifferentTimes(c: Claims, key: Secret, t1: int, t2: int, ttl: nat)
    requires t1 != t2
    ensures Sign(c, key, t1, ttl) != Sign(c, key, t2, ttl)
  {
  }
}

/** The bcrypt wrapper of `src/utils/password.js`, as parameters. Hashing is salted and
    one-way; the model does not look inside it, it only relies on `Sound`. */
module Password {
  /** What `bcrypt.genSalt(10)` returns; random, so the caller supplies it. */
  type Salt = string

  /** `hashPassword` (given the salt it drew) and `comparePassword`. */
  datatype Hasher = Hasher(hash: (string, Salt) -> string, compare: (string, string) -> bool)

  /** The one property the service relies on: a password matches its own hash. */
  ghost predicate Sound(h: Hasher)
  {
    forall p: string, s: Salt :: h.compare(p, h.hash(p, s))
  }
}

/** The `jsonwebtoken` calls of `src/utils/jwt.js` and `src/middleware/auth.js`, as parameters:
    signing a payload at a time, and verifying a token at a time. */
module Jwt {
  import opened Clock

  /** What `generateToken` is given: `{ id, email, name }`. */
  datatype Payload = Payload(id: int, email: string, name: string)

  /** What `jwt.verify` decodes: the payload plus issue and expiry times. */
  datatype Claims = Claims(id: int, email: string, name: string, iat: Timestamp, exp: Timestamp)

  /** The outcome of `jwt.verify`: decoded claims, a `TokenExpiredError`, or any other error. */
  datatype Verdict = Verified(claims: Claims) | Expired | Invalid

  /** `jwt.sign` with the process secret and `expiresIn` (`ttl`, 24 hours by default),
      and `jwt.verify` with the same secret. */
  datatype TokenService = TokenService(sign: (Payload, Timestamp) -> string,
                                       verify: (string, Timestamp) -> Verdict,
                                       ttl: nat)

  /** A compact token is non-empty and has no space in it. */
  predicate WellFormed(token: string)
  {
    token != "" && ' ' !in token
  }

  /** The claims a token signed at `iat` carries. */
  function Issued(p: Payload, iat: Timestamp, ttl: nat): Claims
  {
    Claims(p.id, p.email, p.name, iat, iat + ttl)
  }

  /** What the service relies on from the library: a token it signed is well formed,
      verifies to its own claims until its expiry, and is reported expired from then on. */
  ghost predicate Honest(svc: TokenService)
  {
    forall p: Payload, iat: Timestamp ::
      WellFormed(svc.sign(p, iat)) &&
      forall now: Timestamp ::
        svc.verify(svc.sign(p, iat), now) ==
          if now < iat + svc.ttl then Verified(Issued(p, iat, svc.ttl)) else Expired
  }
}

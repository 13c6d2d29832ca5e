/** Roles, session-token claims, the password hasher and the owner-or-admin
    rule shared by the account and tourist-spot handlers.

    bcrypt is modelled symbolically. A digest records the cost factor, the
    salt that `bcrypt.hash` drew and the secret it was computed from, so
    that `bcrypt.compare` holds exactly for that secret. The salt is a
    parameter, because the hasher draws it at random. A JSON Web Token
    (RFC 7519) is modelled as its claims. The signature, the server secret
    and the token lifetime are not modelled. */
module Credentials {

  datatype Role = ADMIN | USER

  /** The identity a session token carries, and that the authentication
      middleware puts in `req.user`. */
  datatype Claims = Claims(id: string, role: Role, email: string)

  /** A signed session token, seen through the claims it carries. */
  datatype AccessToken = Jwt(claims: Claims)

  /** The cost factor every `bcrypt.hash` call in the handlers passes. */
  const BcryptRounds: nat := 10

  /** What the password column holds. `Digest` is a bcrypt hash. `Raw` is a
      value written to the column without going through the hasher. */
  datatype PasswordHash = Digest(rounds: nat, salt: nat, secret: string) | Raw(text: string)

  /** `bcrypt.compare(plain, h)`. */
  predicate Matches(plain: string, h: PasswordHash) {
    h.Digest? && h.secret == plain
  }

  /** `bcrypt.hash(plain, 10)` with the salt it drew. The digest verifies
      the password it was made from and no other. */
  function Hash(plain: string, salt: nat): (h: PasswordHash)
    ensures h.Digest? && h.rounds == BcryptRounds
    ensures forall q :: Matches(q, h) <==> q == plain
  {
    Digest(BcryptRounds, salt, plain)
  }

  /** The owner-or-admin rule: an ADMIN may act on anything, anyone else
      only on what carries their own user id. */
  predicate MayActFor(caller: Claims, ownerId: string) {
    caller.role == ADMIN || caller.id == ownerId
  }
}

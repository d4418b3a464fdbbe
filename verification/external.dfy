/**
  The libraries the handlers call and the model does not open up: password
  hashing (bcrypt), email syntax checking (the request validator's `isEmail`)
  and avatar URLs (gravatar) are function-valued fields of a `Services`
  record passed to every handler; token signing (jsonwebtoken) is reduced to
  the claims and lifetime a signed token carries.
 */
module External {
  import opened Store

  /** A bcrypt salt: its cost factor and the random part `genSalt` draws. */
  datatype Salt = Salt(rounds: nat, random: string)

  /** The cost factor passed to `genSalt` at registration. */
  const SaltRounds: nat := 10

  /** The options passed to the avatar lookup: size, rating and fallback image. */
  datatype AvatarOptions = AvatarOptions(size: string, rating: string, fallback: string)

  const RegistrationAvatar := AvatarOptions("200", "pg", "mm")

  datatype Services = Services(
    hash: (string, Salt) -> string,
    compare: (string, string) -> bool,
    gravatar: (string, AvatarOptions) -> string,
    isEmail: string -> bool)

  /** The one property of bcrypt the model relies on: a password matches its own hash. */
  ghost predicate CompareAcceptsHash(x: Services)
  {
    forall p, s :: x.compare(p, x.hash(p, s))
  }

  /** The claims of an issued token, `{ user: { id } }`. */
  datatype Payload = Payload(userId: Id)

  /** A signed token: its claims and its lifetime in seconds. The signature
      over the server's secret is not modelled. */
  datatype Token = Token(payload: Payload, expiresIn: nat)

  /** The lifetime given to every token, in seconds (100 hours). */
  const TokenLifetime: nat := 360000

  /** `jwt.sign({ user: { id } }, secret, { expiresIn: 360000 })`. */
  function Issue(id: Id): Token
  {
    Token(Payload(id), TokenLifetime)
  }
}

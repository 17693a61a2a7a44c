/**
 * The framework's password-hashing primitive, seen from outside.
 *
 * `Make` stands for `Hash::make` and `Check` for `Hash::check`. A real
 * bcrypt digest draws a random salt; here the salt is a parameter. The
 * digest is a type of its own, so a stored digest can never be equal to a
 * plaintext password. The only property the rest of the model relies on is
 * that a password checks against a digest made from it.
 */
module Hashing {

  /** The random salt `Hash::make` draws for each digest. */
  type Salt = nat

  /** An ideal one-way digest: what it is made of is never read outside this module. */
  datatype Digest = Bcrypt(salt: Salt, key: string)

  /** `Hash::check(password, digest)`. */
  predicate Check(password: string, digest: Digest)
  {
    digest.key == password
  }

  /** `Hash::make(password)` with the salt it drew. */
  function Make(password: string, salt: Salt): (digest: Digest)
    ensures Check(password, digest)
  {
    Bcrypt(salt, password)
  }
}

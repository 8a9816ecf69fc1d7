/**
 * The password hashing the user model delegates to werkzeug
 * (`generate_password_hash`, `check_password_hash`). The digest below is a
 * stand-in for the real key-derivation function: what the model relies on
 * is only that a hash made from a password checks against that password,
 * and that the stored value is a salt and a number, not the password.
 */
module Passwords {

  /** The stored form: the random salt and the digest of salt and password. */
  datatype PasswordHash = PasswordHash(salt: string, digest: nat)

  const Modulus: nat := 2305843009213693951

  /** A polynomial digest of a text, standing in for the salted key derivation. */
  function Digest(s: string): (d: nat)
    ensures d < Modulus
  {
    if s == [] then 0 else (Digest(s[..|s| - 1]) * 131 + (s[|s| - 1] as int)) % Modulus
  }

  /** `generate_password_hash(password)`, with the random salt as a parameter. */
  function Generate(password: string, salt: string): PasswordHash {
    PasswordHash(salt, Digest(salt + password))
  }

  /** `check_password_hash(hash, password)`. */
  predicate Check(hash: PasswordHash, password: string) {
    Digest(hash.salt + password) == hash.digest
  }

  lemma CheckGenerated(password: string, salt: string)
    ensures Check(Generate(password, salt), password)
  {
  }
}

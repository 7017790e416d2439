/** Password storage as the user resource uses it: a salted one-way digest
    is stored in place of the password, and a login attempt verifies a
    candidate password against the stored digest.

    The key derivation (pbkdf2-sha256 in the service) is represented by a
    fixed polynomial hash. Nothing in the model depends on which function
    it is: the only fact relied upon is that a password verifies against
    its own digest, whatever salt was drawn. */
module Credentials {

  /** Modulus of the stand-in key derivation. */
  const KeySpace: nat := 1_000_000_007

  /** A stored password: the salt drawn at hashing time and the derived key. */
  datatype Digest = Digest(salt: nat, key: nat)

  /** The derived key of `password` under `salt`. */
  function DeriveKey(salt: nat, password: string): (k: nat)
    ensures k < KeySpace
    decreases |password|
  {
    if |password| == 0 then salt % KeySpace
    else (DeriveKey(salt, password[..|password| - 1]) * 31 + password[|password| - 1] as nat) % KeySpace
  }

  /** Hashes `password` with a freshly drawn `salt`. */
  function Hash(password: string, salt: nat): (d: Digest)
    ensures d.salt == salt
    ensures d.key < KeySpace
  {
    Digest(salt, DeriveKey(salt, password))
  }

  /** Does `password` verify against the stored digest `d`? */
  predicate Verify(password: string, d: Digest)
  {
    DeriveKey(d.salt, password) == d.key
  }

  /** A password always verifies against a digest made from it. */
  lemma VerifyOwnHash(password: string, salt: nat)
    ensures Verify(password, Hash(password, salt))
  {
  }
}

/**
 * app/utils/security.py: hashing and verifying passwords through a
 * passlib context whose only scheme is argon2.  The argon2 function itself
 * is abstract here: a stored argon2 hash records which secret it was made
 * from, the salt drawn for it, and the cost parameters it was made with.
 */
module Passwords {
  import opened Wrappers

  /** The argon2 cost parameters (memory, time, parallelism, version), as one comparable value. */
  type HashParams = nat

  /** The parameters the context's argon2 handler currently hashes with. */
  const CurrentParams: HashParams := 1

  /** A stored password column value. */
  datatype StoredPassword =
    | Argon2Hash(secret: string, salt: nat, params: HashParams)
      /** Any text that is not an argon2 hash, such as a password stored unhashed. */
    | Unrecognised(text: string)

  /** `hash_password`: argon2 with the current parameters and a freshly drawn salt. */
  function HashPassword(password: string, salt: nat): (h: StoredPassword)
    ensures h.Argon2Hash? && h.params == CurrentParams
  {
    Argon2Hash(password, salt, CurrentParams)
  }

  /** Whether the context would re-hash a verified password stored as `h`. */
  predicate NeedsUpdate(h: StoredPassword)
  {
    h.Argon2Hash? && h.params != CurrentParams
  }

  /** `(is_verified, updated_password)`. */
  datatype Verification = Verification(verified: bool, updated: Option<StoredPassword>)

  /**
   * `verify_password` (`CryptContext.verify_and_update`): a stored value the
   * context cannot identify is a `ValueError`; otherwise the secret is
   * checked and, when it matches a hash made with outdated parameters, a new
   * hash (salted with `newSalt`) is returned for storage.
   */
  function VerifyPassword(password: string, stored: StoredPassword, newSalt: nat): (r: Result<Verification, string>)
    ensures r.Err? <==> stored.Unrecognised?
    ensures r.Err? ==> r.error == "hash could not be identified"
    ensures r.Ok? ==> (r.value.verified <==> stored.secret == password)
    ensures r.Ok? ==> (r.value.updated.Some? <==> r.value.verified && NeedsUpdate(stored))
    ensures r.Ok? && r.value.updated.Some? ==> r.value.updated.value == HashPassword(password, newSalt)
  {
    match stored
    case Unrecognised(_) => Err("hash could not be identified")
    case Argon2Hash(secret, _, params) =>
      if secret != password then Ok(Verification(false, None))
      else if params != CurrentParams then Ok(Verification(true, Some(HashPassword(password, newSalt))))
      else Ok(Verification(true, None))
  }

  /** A fresh hash verifies the password it was made from, needs no update, and rejects every other password. */
  lemma HashThenVerify(password: string, other: string, salt: nat, newSalt: nat)
    ensures VerifyPassword(password, HashPassword(password, salt), newSalt) == Ok(Verification(true, None))
    ensures other != password ==>
              VerifyPassword(other, HashPassword(password, salt), newSalt) == Ok(Verification(false, None))
  {
  }

  /** The replacement hash returned by a verification is itself current and verifies the same password. */
  lemma UpdatedHashIsCurrent(password: string, stored: StoredPassword, newSalt: nat, laterSalt: nat)
    requires VerifyPassword(password, stored, newSalt).Ok?
    requires VerifyPassword(password, stored, newSalt).value.updated.Some?
    ensures !NeedsUpdate(VerifyPassword(password, stored, newSalt).value.updated.value)
    ensures VerifyPassword(password, VerifyPassword(password, stored, newSalt).value.updated.value, laterSalt)
            == Ok(Verification(true, None))
  {
  }
}

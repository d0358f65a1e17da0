/** The credential store: `hash_password` and `check_password`.
    bcrypt itself is foreign code; it is represented symbolically by a hash
    value that records the salt drawn by `gensalt` and the password it was
    made from, so that only its observable contract is modelled:
    checking a password against its own hash succeeds, and against the hash
    of any other password fails. */
module Credentials {

  /** A bcrypt hash. `salt` is the value `bcrypt.gensalt()` returned; `origin`
      stands for the one-way digest and is never read by anything but
      `CheckPassword`. */
  datatype PasswordHash = PasswordHash(salt: nat, origin: string)

  function HashPassword(plain: string, salt: nat): (h: PasswordHash)
    ensures CheckPassword(plain, h)
    ensures forall other: string :: other != plain ==> !CheckPassword(other, h)
  {
    PasswordHash(salt, plain)
  }

  predicate CheckPassword(plain: string, hashed: PasswordHash) {
    hashed.origin == plain
  }

  /** Salting does not change which passwords a hash accepts. */
  lemma SaltIrrelevant(plain: string, candidate: string, s1: nat, s2: nat)
    ensures CheckPassword(candidate, HashPassword(plain, s1))
        <==> CheckPassword(candidate, HashPassword(plain, s2))
  {
  }
}

/**
 The password hashing the routes delegate to bcrypt.

 Only bcrypt's contract is modelled: a hash embeds the salt it was made with,
 and `Verify` recomputes the digest of a candidate password under that salt.
 The digest itself is a stand-in (a 64-bit polynomial string hash); no
 property of the account directory depends on its definition beyond the
 round trip `Verify(p, Hash(p, salt))`. The salt is an input, as the random
 salt bcrypt draws for every call.
 */
module Credentials {

  const DigestModulus: nat := 0x1_0000_0000_0000_0000

  /** A stored password hash: the salt it was made with and the digest. */
  datatype PasswordHash = PasswordHash(salt: string, digest: nat)

  /**
   Polynomial string hash folded over `s`, kept within 64 bits. It is a
   stand-in for bcrypt's digest: its contract only records the 64-bit bound
   and there is nothing about it to prove.
   */
  function Fold(s: string, acc: nat): (d: nat)
    requires acc < DigestModulus
    ensures d < DigestModulus
    decreases |s|
  {
    if s == [] then acc
    else Fold(s[1..], (acc * 33 + s[0] as int) % DigestModulus)
  }

  function Digest(salt: string, password: string): nat
  {
    Fold(salt + password, 5381)
  }

  /** bcrypt.compare: does `password` reproduce the stored digest under its salt? */
  predicate Verify(password: string, h: PasswordHash)
  {
    h.digest == Digest(h.salt, password)
  }

  /** bcrypt.hash: the result embeds the salt and verifies the password it was made from. */
  function Hash(password: string, salt: string): (h: PasswordHash)
    ensures h.salt == salt
    ensures Verify(password, h)
  {
    PasswordHash(salt, Digest(salt, password))
  }

  /**
   Hashing the same password twice, with the two different salts two calls
   draw, gives two different stored hashes, and both verify.
   */
  lemma HashesDifferBySalt(password: string, salt1: string, salt2: string)
    requires salt1 != salt2
    ensures Hash(password, salt1) != Hash(password, salt2)
    ensures Verify(password, Hash(password, salt1)) && Verify(password, Hash(password, salt2))
  {
  }
}

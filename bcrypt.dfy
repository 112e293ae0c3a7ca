/** The password hasher as the core sees it: `bcrypt.hash(plain, rounds)` and `bcrypt.compare(plain, hash)`.
    The key schedule and the salt generator are not modelled: the salt is an argument, and the digest is an
    injective value of the part of the plaintext bcrypt reads, which only `Compare` inspects, by recomputing it
    with the cost and salt the hash embeds. */
module Bcrypt {

  /** The cost factor the pre-save hook passes to `bcrypt.hash`. */
  const SaltRounds: nat := 10

  /** bcrypt's key schedule reads at most this many bytes of the password and ignores the rest. */
  const MaxKeyBytes: nat := 72

  /** The random salt `bcrypt.hash` draws; the model takes it as an argument. */
  type Salt = nat

  /** A bcrypt hash: its cost, its salt, and the checksum computed from them and the key. The checksum is
      kept as the key it was computed from, which nothing but `Compare` reads. */
  datatype Digest = Digest(rounds: nat, salt: Salt, checksum: string)

  /** The part of a password bcrypt hashes: its first `MaxKeyBytes` characters, each standing for one byte. */
  function Key(plain: string): (k: string)
    ensures |k| <= MaxKeyBytes
    ensures k <= plain
    ensures |plain| <= MaxKeyBytes ==> k == plain
  {
    if |plain| <= MaxKeyBytes then plain else plain[..MaxKeyBytes]
  }

  /** `bcrypt.hash(plain, SaltRounds)` with the salt `salt`. */
  function Hash(plain: string, salt: Salt): Digest
  {
    Digest(SaltRounds, salt, Key(plain))
  }

  /** `bcrypt.compare(plain, d)`: recompute with the embedded cost and salt and compare the results. */
  predicate Compare(plain: string, d: Digest)
  {
    Digest(d.rounds, d.salt, Key(plain)) == d
  }

  /** A password matches its own hash, whatever salt was drawn. */
  lemma CompareOwnHash(plain: string, salt: Salt)
    ensures Compare(plain, Hash(plain, salt))
  {
  }

  /** A password matches a hash exactly when it agrees with the hashed password on the bytes bcrypt reads. */
  lemma CompareHash(plain: string, other: string, salt: Salt)
    ensures Compare(other, Hash(plain, salt)) <==> Key(other) == Key(plain)
  {
  }

  /** A password that differs from the hashed one within its first `MaxKeyBytes` characters never matches. */
  lemma CompareOtherPassword(plain: string, other: string, salt: Salt)
    requires Key(other) != Key(plain)
    ensures !Compare(other, Hash(plain, salt))
  {
  }

  /** Past `MaxKeyBytes` characters a password's tail is ignored: any two passwords sharing that prefix both
      match the hash of either. */
  lemma CompareIgnoresTail(plain: string, other: string, salt: Salt)
    requires |plain| >= MaxKeyBytes && |other| >= MaxKeyBytes
    requires plain[..MaxKeyBytes] == other[..MaxKeyBytes]
    ensures Compare(other, Hash(plain, salt))
  {
  }

  /** Two hashes of one password drawn with different salts differ, and both match the password. */
  lemma HashIsSalted(plain: string, s1: Salt, s2: Salt)
    requires s1 != s2
    ensures Hash(plain, s1) != Hash(plain, s2)
    ensures Compare(plain, Hash(plain, s1)) && Compare(plain, Hash(plain, s2))
  {
  }
}

/**
 * bcrypt, modelled symbolically: a digest is a term that records its cost
 * factor and the value it was computed from, so it can never equal that
 * value and `compare` succeeds only against the digest of the same plaintext.
 * This digest is injective and is not itself a candidate string; bcrypt's
 * use of only the first 72 bytes of a password, its salting and the cost of
 * the computation are not modelled.
 */
module Bcrypt {

  /** The cost factor the save hook passes to `bcrypt.hash`. */
  const SaltRounds: nat := 10

  /** The value held in a user's `password` path: a plaintext, or a digest of some earlier value. */
  datatype Password = Plain(text: string) | Digest(cost: nat, preimage: Password)

  /**
   * `bcrypt.compare(candidate, stored)`: true exactly when `stored` is a digest
   * of the plaintext `candidate`; a value that is not a digest matches nothing.
   */
  predicate Compare(candidate: string, stored: Password)
    ensures Compare(candidate, stored) ==> stored.Digest? && stored != Plain(candidate)
  {
    stored.Digest? && stored.preimage == Plain(candidate)
  }

  /**
   * `bcrypt.hash(p, cost)`: a digest distinct from `p`, which `Compare`
   * accepts for exactly one candidate when `p` is a plaintext and for none
   * when `p` is already a digest.
   */
  function Hash(p: Password, cost: nat): (h: Password)
    ensures h.Digest? && h != p
    ensures forall q :: Compare(q, h) <==> p == Plain(q)
  {
    DigestDiffers(p, cost);
    Digest(cost, p)
  }

  /** No value is its own digest. */
  lemma {:induction false} DigestDiffers(p: Password, cost: nat)
    ensures Digest(cost, p) != p
    decreases p
  {
    if p.Digest? {
      DigestDiffers(p.preimage, cost);
    }
  }

  /**
   * Hashing a digest again loses the plaintext: no candidate string matches
   * a double hash (for bcrypt, whose digests are strings, this holds of the
   * original plaintext but not of the first digest's own text).
   */
  lemma RehashMatchesNothing(p: string, cost1: nat, cost2: nat, q: string)
    ensures !Compare(q, Hash(Hash(Plain(p), cost1), cost2))
  {
  }
}

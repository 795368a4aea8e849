/**
 * The generic proof-of-work helper of the blockchain package: a digest of
 * `data + string(nonce)` and a linear scan over nonces 0, 1, 2, ...
 *
 * Its target prefix is `difficulty` NUL characters (`string(make([]rune, difficulty))`),
 * not `difficulty` '0' digits.  A hex digest contains no NUL, so for every difficulty
 * from 1 to 64 no nonce meets the target and the scan never ends.
 */
module Proof {

  import opened Wrappers
  import opened Digest
  import opened Runes

  /** `CalculateHash(data, nonce)`: the digest of `data` followed by the rune `nonce`. */
  function CalculateHash(digest: DigestFn, data: string, nonce: int): (hash: string)
    ensures IsHexDigest(hash)
  {
    digest(data + RuneStr(nonce))
  }

  /** The target prefix: `difficulty` NUL characters. */
  function NulPrefix(difficulty: nat): string {
    seq(difficulty, _ => '\0')
  }

  /** The loop's exit test `hash[:difficulty] == prefix`. */
  predicate Meets(hash: string, difficulty: nat)
    requires difficulty <= |hash|
  {
    hash[..difficulty] == NulPrefix(difficulty)
  }

  /** A hash and the nonce that produced it, as `ProofOfWork` returns them. */
  datatype Solution = Solution(hash: string, nonce: int)

  /**
   * `ProofOfWork(data, difficulty)`, cut off after `fuel` nonces.  Go panics for a negative
   * difficulty (`make`) and for one above 64 (the slice of a 64-character digest), hence
   * the precondition.  `None` means that the first `fuel` nonces all missed the target:
   * the Go loop is still running at that point.
   */
  method ProofOfWork(digest: DigestFn, data: string, difficulty: int, fuel: nat)
    returns (r: Option<Solution>)
    requires 0 <= difficulty <= DigestLength
    ensures r.Some? ==> 0 <= r.value.nonce < fuel
    ensures r.Some? ==> r.value.hash == CalculateHash(digest, data, r.value.nonce)
    ensures r.Some? ==> r.value.hash[..difficulty] == NulPrefix(difficulty)
    ensures r.Some? ==>
      forall n :: 0 <= n < r.value.nonce ==> !Meets(CalculateHash(digest, data, n), difficulty)
    ensures r.None? ==>
      forall n :: 0 <= n < fuel ==> !Meets(CalculateHash(digest, data, n), difficulty)
    ensures difficulty == 0 && 0 < fuel ==> r == Some(Solution(CalculateHash(digest, data, 0), 0))
    ensures 1 <= difficulty ==> r.None?
  {
    if 1 <= difficulty {
      forall n | 0 <= n
        ensures !Meets(CalculateHash(digest, data, n), difficulty)
      {
        NoProofAtPositiveDifficulty(digest, data, difficulty, n);
      }
    }
    var prefix := NulPrefix(difficulty);
    var nonce := 0;
    while nonce < fuel
      invariant 0 <= nonce <= fuel
      invariant forall n :: 0 <= n < nonce ==> !Meets(CalculateHash(digest, data, n), difficulty)
    {
      var hash := CalculateHash(digest, data, nonce);
      if hash[..difficulty] == prefix {
        return Some(Solution(hash, nonce));
      }
      nonce := nonce + 1;
    }
    return None;
  }

  /** For difficulty 1 to 64 no nonce meets the target: a hex digest has no NUL. */
  lemma NoProofAtPositiveDifficulty(digest: DigestFn, data: string, difficulty: int, nonce: int)
    requires 1 <= difficulty <= DigestLength
    ensures !Meets(CalculateHash(digest, data, nonce), difficulty)
  {
    var hash := CalculateHash(digest, data, nonce);
    assert IsHexChar(hash[0]);
    assert hash[..difficulty][0] == hash[0];
    assert NulPrefix(difficulty)[0] == '\0';
  }
}

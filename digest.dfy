/**
 * The digest library the node links against: `hex.EncodeToString(sha256.Sum256([]byte(s)))`.
 *
 * The library is foreign code, so it is not modelled; it enters the model as a
 * function-valued parameter of type `DigestFn`.  The constraint of that type holds the
 * only two facts the model assumes about the library: every digest is 64 characters
 * long, and every character is a lower-case hexadecimal digit.
 */
module Digest {

  /** The alphabet of `hex.EncodeToString`. */
  predicate IsHexChar(c: char) {
    '0' <= c <= '9' || 'a' <= c <= 'f'
  }

  /** The length of a digest: 32 bytes, two hex digits each. */
  const DigestLength: nat := 64

  /** What the library returns for any input: 64 lower-case hex digits. */
  predicate IsHexDigest(s: string) {
    |s| == DigestLength && forall i :: 0 <= i < |s| ==> IsHexChar(s[i])
  }

  /** A digest made of zeros only; it shows that the assumptions can be met. */
  const ZeroDigest: string := seq(DigestLength, _ => '0')

  lemma ZeroDigestIsHex()
    ensures IsHexDigest(ZeroDigest)
  {
  }

  /** Assumption about the foreign library: its output is always a 64-digit hex string. */
  type DigestFn = f: string -> string | forall s :: IsHexDigest(f(s))
    witness (s: string) => ZeroDigest

  /** A digest function within the assumptions that maps `input` to the given digest. */
  ghost function DigestWith(input: string, hash: string): (f: DigestFn)
    requires IsHexDigest(hash)
    ensures f(input) == hash
  {
    ZeroDigestIsHex();
    var f := (s: string) => if s == input then hash else ZeroDigest;
    assert forall s :: IsHexDigest(f(s));
    f
  }
}

/** SHA-256 digests in hexadecimal, and the expression that is meant to accept them. */
module Digests {
  predicate IsHex(c: char) { '0' <= c <= '9' || 'a' <= c <= 'f' }

  predicate IsDigest(s: string) { |s| == 64 && forall i | 0 <= i < 64 :: IsHex(s[i]) }

  /** `^[0-9a-f]{64}$`, used with `match`: a final newline is taken too. */
  predicate IsTaken(s: string) {
    (|s| == 64 || (|s| == 65 && s[64] == '\n')) && forall i | 0 <= i < 64 :: IsHex(s[i])
  }

  /** Of what is taken, the digests are what has no newline. */
  lemma DigestIffNoNewline(s: string)
    requires IsTaken(s)
    ensures IsDigest(s) <==> '\n' !in s
  {
    if |s| == 65 { assert s[64] in s; }
  }
}

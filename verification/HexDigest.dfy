/** SHA-256 digests as text (internal/hexdigest/hexdigest.go). */
module HexDigest {
  /** Sixty-four lower-case hexadecimal digits. */
  predicate ValidDigest(s: string) {
    |s| == 64 && forall i | 0 <= i < |s| :: '0' <= s[i] <= '9' || 'a' <= s[i] <= 'f'
  }
}

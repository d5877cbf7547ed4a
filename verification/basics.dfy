/** Vocabulary shared by every module: optional values, identifiers and the
    fixed numbers of the guest-scan policy. */
module Basics {

  datatype Option<+T> = None | Some(value: T)

  type Id = string
  type Digest = string
  type Host = string

  /** Largest integer a JavaScript number holds exactly. */
  const MAX_SAFE: int := 9_007_199_254_740_991

  const UINT32_MAX: int := 0xffff_ffff
  const UINT64_MAX: int := 0xffff_ffff_ffff_ffff

  const ACCESS_SECONDS: int := 1_800
  const RETENTION_SECONDS: int := 86_400
  const LEASE_SECONDS: int := 15
  const HARD_DEADLINE_SECONDS: int := 45
  const MAX_ATTEMPTS: int := 3

  /** Last second that has a four-digit year. */
  const MAX_UNIX_SECONDS: int := 253_402_300_799

  predicate AsciiLetterOrDigit(c: char) {
    '0' <= c <= '9' || 'A' <= c <= 'Z' || 'a' <= c <= 'z'
  }

  /** One letter or digit, then at most 127 letters, digits, '_' or '-'. */
  predicate ValidId(s: Id) {
    && 1 <= |s| <= 128
    && AsciiLetterOrDigit(s[0])
    && forall i | 0 <= i < |s| :: AsciiLetterOrDigit(s[i]) || s[i] == '_' || s[i] == '-'
  }

  predicate LowerHex(c: char) {
    '0' <= c <= '9' || 'a' <= c <= 'f'
  }

  const SHA256_PREFIX: string := "sha256:"

  /** "sha256:" and sixty-four lower-case hexadecimal digits. */
  predicate ValidDigest(d: Digest) {
    && |d| == 71
    && d[..7] == SHA256_PREFIX
    && forall i | 7 <= i < 71 :: LowerHex(d[i])
  }

  predicate PositiveSafe(n: int) {
    0 < n <= MAX_SAFE
  }

  predicate U64(n: int) {
    0 <= n <= UINT64_MAX
  }

  function Min(a: int, b: int): int {
    if a < b then a else b
  }
}

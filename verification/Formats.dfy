/** The syntactic checks the Agent and the Controller share. Strings are
    sequences of characters; lower case and white space follow the ASCII rules. */
module Formats {

  const MAX_PATH_BYTES: nat := 4096

  predicate IsHexDigit(c: char) {
    '0' <= c <= '9' || 'a' <= c <= 'f' || 'A' <= c <= 'F'
  }

  /** Hex text of a SHA-256 digest: `hex.DecodeString` succeeds with 32 bytes. */
  predicate ValidDigest(s: string) {
    |s| == 64 && forall i :: 0 <= i < |s| ==> IsHexDigit(s[i])
  }

  predicate IsDashPosition(i: int) {
    i == 8 || i == 13 || i == 18 || i == 23
  }

  /** 36 characters, dashes at four fixed places and 32 hex digits elsewhere.
      (The code strips every dash before decoding 16 bytes, so no fifth one fits.) */
  predicate ValidUuid(s: string) {
    |s| == 36 &&
    forall i :: 0 <= i < |s| ==> if IsDashPosition(i) then s[i] == '-' else IsHexDigit(s[i])
  }

  predicate IsControl(c: char) {
    c < ' ' || c == 0x7f as char
  }

  predicate SafeInventoryString(s: string, limit: nat) {
    && 0 < |s| <= limit
    && s[0] != ' ' && s[|s| - 1] != ' '
    && forall i :: 0 <= i < |s| ==> !IsControl(s[i])
  }

  predicate IsLower(s: string) {
    forall i :: 0 <= i < |s| ==> !('A' <= s[i] <= 'Z')
  }

  predicate ValidHandle(s: string) {
    && 1 <= |s| <= 64
    && forall i :: 0 <= i < |s| ==> 'a' <= s[i] <= 'z' || '0' <= s[i] <= '9' || s[i] == '-'
  }
}

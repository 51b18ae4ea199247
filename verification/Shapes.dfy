/** The character and length rules that requests are checked against. */
module Shapes {

  const MAX_SAFE := 9007199254740991

  predicate IdChar(c: char) { 'A' <= c <= 'Z' || 'a' <= c <= 'z' || '0' <= c <= '9' || c in "._:-" }

  predicate BoundedId(s: string) { 0 < |s| <= 128 && forall i | 0 <= i < |s| :: IdChar(s[i]) }

  predicate BoundedProjectId(s: string)
  {
    && 0 < |s| <= 64
    && s[0] !in "._-"
    && forall i | 0 <= i < |s| :: IdChar(s[i]) && s[i] != ':'
  }

  predicate HexChar(c: char) { '0' <= c <= '9' || 'a' <= c <= 'f' }

  predicate Fingerprint(s: string)
  {
    |s| == 71 && s[..7] == "sha256:" && forall i | 7 <= i < 71 :: HexChar(s[i])
  }

  predicate Printable(c: char) { ' ' <= c && !(0x7f as char <= c <= 0x9f as char) }

  predicate BoundedText(s: string, limit: nat) { 0 < |s| <= limit && forall i | 0 <= i < |s| :: Printable(s[i]) }
}

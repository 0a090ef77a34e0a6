/**
 * The parts of Go's `strings` and `unicode` packages that the message store relies on:
 * `strings.ToLower` (restricted to ASCII letters) and `strings.TrimSpace`.
 */
module Strings {

  /** `unicode.IsSpace`: the characters `strings.TrimSpace` removes. */
  predicate IsSpace(c: char) {
    || c == ' '
    || '\t' <= c <= '\r'            // \t, \n, \v, \f, \r
    || c == '\U{85}' || c == '\U{A0}'
    || c == '\U{1680}'
    || '\U{2000}' <= c <= '\U{200A}'
    || c == '\U{2028}' || c == '\U{2029}'
    || c == '\U{202F}' || c == '\U{205F}' || c == '\U{3000}'
  }

  /** ASCII lower-casing of one character: only 'A'..'Z' change. */
  function LowerChar(c: char): char {
    if 'A' <= c <= 'Z' then (c as int + 32) as char else c
  }

  /** `strings.ToLower`, character by character. */
  function ToLower(s: string): (r: string)
    ensures |r| == |s|
    ensures forall i | 0 <= i < |s| :: r[i] == LowerChar(s[i])
  {
    seq(|s|, i requires 0 <= i < |s| => LowerChar(s[i]))
  }

  /** The sequence read back to front. */
  function Reverse<T>(s: seq<T>): (r: seq<T>)
    ensures |r| == |s|
    ensures forall i | 0 <= i < |s| :: r[i] == s[|s| - 1 - i]
  {
    seq(|s|, i requires 0 <= i < |s| => s[|s| - 1 - i])
  }

  /** The index of the first character at or after `i` that is not white space, or `|s|`. */
  function FirstNonSpace(s: string, i: nat): (a: nat)
    requires i <= |s|
    ensures i <= a <= |s|
    ensures forall j | i <= j < a :: IsSpace(s[j])
    ensures a < |s| ==> !IsSpace(s[a])
    decreases |s| - i
  {
    if i < |s| && IsSpace(s[i]) then FirstNonSpace(s, i + 1) else i
  }

  /**
   * The end of `s[a..e]` once the white space at its end is cut off: everything from there to `e`
   * is white space, and the character before it is not.
   */
  function EndOfText(s: string, a: nat, e: nat): (b: nat)
    requires a <= e <= |s|
    ensures a <= b <= e
    ensures forall j | b <= j < e :: IsSpace(s[j])
    ensures a < b ==> !IsSpace(s[b - 1])
    ensures a < e && !IsSpace(s[a]) ==> a < b
    decreases e
  {
    if a < e && IsSpace(s[e - 1]) then EndOfText(s, a, e - 1) else e
  }

  /**
   * `strings.TrimSpace`. The result is the middle of `s` left after cutting white space off both
   * ends: it is empty exactly when `s` is all white space, never starts or ends with white space,
   * and is `s` itself when `s` neither starts nor ends with white space.
   */
  function TrimSpace(s: string): (r: string)
    ensures |r| <= |s|
    ensures var a := FirstNonSpace(s, 0);
              && a + |r| <= |s| && r == s[a..a + |r|]
              && (forall i | 0 <= i < a :: IsSpace(s[i]))
              && (forall i | a + |r| <= i < |s| :: IsSpace(s[i]))
    ensures r == [] <==> forall i | 0 <= i < |s| :: IsSpace(s[i])
    ensures r != [] ==> !IsSpace(r[0]) && !IsSpace(r[|r| - 1])
    ensures s == [] || (!IsSpace(s[0]) && !IsSpace(s[|s| - 1])) ==> r == s
  {
    var a := FirstNonSpace(s, 0);
    s[a..EndOfText(s, a, |s|)]
  }

  /** Trimming twice is trimming once. */
  lemma TrimSpaceIdempotent(s: string)
    ensures TrimSpace(TrimSpace(s)) == TrimSpace(s)
  {
  }
}

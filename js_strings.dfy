/** `String.prototype.trim`, which `copyText` uses to recognise a blank message (script.js:116). */
module JsStrings {

  /** The code points ECMAScript counts as WhiteSpace or LineTerminator, the ones `trim` strips:
      tab, vertical tab, form feed, space, no-break space, the byte order mark, the other
      space separators of Unicode category Zs, line feed, carriage return and the line and
      paragraph separators. */
  predicate IsWhiteSpace(c: char) {
    || c == '\t' || c == '\U{000B}' || c == '\U{000C}' || c == ' '
    || c == '\U{00A0}' || c == '\U{FEFF}'
    || c == '\U{1680}' || '\U{2000}' <= c <= '\U{200A}'
    || c == '\U{202F}' || c == '\U{205F}' || c == '\U{3000}'
    || c == '\n' || c == '\r' || c == '\U{2028}' || c == '\U{2029}'
  }

  predicate AllWhiteSpace(s: string) {
    forall i :: 0 <= i < |s| ==> IsWhiteSpace(s[i])
  }

  /** How many white-space characters `s` starts with. */
  function LeadingWhiteSpace(s: string): (k: nat)
    ensures k <= |s|
    ensures AllWhiteSpace(s[..k])
    ensures k < |s| ==> !IsWhiteSpace(s[k])
  {
    if s == [] || !IsWhiteSpace(s[0]) then 0 else 1 + LeadingWhiteSpace(s[1..])
  }

  /** How many white-space characters `s` ends with. */
  function TrailingWhiteSpace(s: string): (k: nat)
    ensures k <= |s|
    ensures AllWhiteSpace(s[|s| - k..])
    ensures k < |s| ==> !IsWhiteSpace(s[|s| - 1 - k])
  {
    if s == [] || !IsWhiteSpace(s[|s| - 1]) then 0 else 1 + TrailingWhiteSpace(s[..|s| - 1])
  }

  /** Cutting a white-space prefix and a white-space suffix, each maximal, leaves a piece that
      is empty exactly when all of `s` is white space, and otherwise starts and ends with a
      character that is not white space. */
  lemma TrimmedPiece(s: string, start: nat, trail: nat)
    requires start <= |s| && AllWhiteSpace(s[..start]) && (start < |s| ==> !IsWhiteSpace(s[start]))
    requires start + trail <= |s| && AllWhiteSpace(s[|s| - trail..])
    requires start + trail < |s| ==> !IsWhiteSpace(s[|s| - 1 - trail])
    ensures start + trail == |s| <==> AllWhiteSpace(s)
    ensures start + trail < |s| ==> !IsWhiteSpace(s[start]) && !IsWhiteSpace(s[|s| - 1 - trail])
  {
    if start + trail == |s| {
      assert s == s[..start] + s[|s| - trail..];
    } else {
      assert !IsWhiteSpace(s[start]);
    }
  }

  /** `s.trim()`: the white space at both ends removed. What is left is one contiguous piece
      of `s` that neither starts nor ends with white space, and it is empty exactly when
      every character of `s` is white space. */
  function Trim(s: string): (r: string)
    ensures r == [] <==> AllWhiteSpace(s)
    ensures r != [] ==> !IsWhiteSpace(r[0]) && !IsWhiteSpace(r[|r| - 1])
    ensures var k := LeadingWhiteSpace(s);
      && k + |r| <= |s| && s[k..k + |r|] == r
      && AllWhiteSpace(s[..k]) && AllWhiteSpace(s[k + |r|..])
  {
    var start := LeadingWhiteSpace(s);
    var rest := s[start..];
    var trail := TrailingWhiteSpace(rest);
    assert rest[|rest| - trail..] == s[|s| - trail..];
    assert trail < |rest| ==> rest[|rest| - 1 - trail] == s[|s| - 1 - trail];
    TrimmedPiece(s, start, trail);
    assert rest[..|rest| - trail] == s[start..|s| - trail];
    rest[..|rest| - trail]
  }

  /** `s.trim() === ''`. */
  predicate IsBlank(s: string)
    ensures IsBlank(s) <==> AllWhiteSpace(s)
  {
    Trim(s) == ""
  }
}

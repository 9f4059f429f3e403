/** The string helpers the content script relies on: JavaScript's
    `String.prototype.trim` and `truncateText` (src/content.js). Lengths
    count characters. */
module TextUtil {

  /** The characters `trim` removes: WhiteSpace and LineTerminator of the
      ECMAScript language specification (sections 12.2 and 12.3), with the
      space separators of Unicode category Zs spelled out. */
  predicate IsWhitespace(c: char)
  {
    || ('\U{9}' <= c <= '\U{D}')
    || c == ' ' || c == '\U{A0}' || c == '\U{1680}'
    || ('\U{2000}' <= c <= '\U{200A}')
    || c == '\U{2028}' || c == '\U{2029}' || c == '\U{202F}' || c == '\U{205F}' || c == '\U{3000}'
    || c == '\U{FEFF}'
  }

  /** `s` with its leading whitespace removed. */
  function TrimStart(s: string): (r: string)
    ensures |r| <= |s| && r == s[|s| - |r|..]
    ensures forall i | 0 <= i < |s| - |r| :: IsWhitespace(s[i])
    ensures |r| > 0 ==> !IsWhitespace(r[0])
    decreases |s|
  {
    if |s| > 0 && IsWhitespace(s[0]) then TrimStart(s[1..]) else s
  }

  /** `s` with its trailing whitespace removed. */
  function TrimEnd(s: string): (r: string)
    ensures |r| <= |s| && r == s[..|r|]
    ensures forall i | |r| <= i < |s| :: IsWhitespace(s[i])
    ensures |r| > 0 ==> !IsWhitespace(r[|r| - 1])
    decreases |s|
  {
    if |s| > 0 && IsWhitespace(s[|s| - 1]) then TrimEnd(s[..|s| - 1]) else s
  }

  /** `trim`: the contiguous middle of `s` that neither starts nor ends with
      whitespace, everything cut away on either side being whitespace. */
  function Trim(s: string): (r: string)
    ensures exists i, j :: TrimmedAt(s, i, j) && r == s[i..j]
    ensures |r| > 0 ==> !IsWhitespace(r[0]) && !IsWhitespace(r[|r| - 1])
  {
    var front := TrimStart(s);
    var r := TrimEnd(front);
    assert TrimmedAt(s, |s| - |front|, |s| - |front| + |r|);
    r
  }

  /** Cutting `s` to `s[i..j]` removes only whitespace. */
  ghost predicate TrimmedAt(s: string, i: int, j: int)
  {
    && 0 <= i <= j <= |s|
    && (forall k | 0 <= k < i :: IsWhitespace(s[k]))
    && (forall k | j <= k < |s| :: IsWhitespace(s[k]))
  }

  /** A trimmed string is all non-whitespace at its ends, so trimming again
      changes nothing. */
  lemma TrimIdempotent(s: string)
    ensures Trim(Trim(s)) == Trim(s)
  {
  }

  const Ellipsis: string := "..."

  /** The cut point of `substring(0, maxLength)`: a negative end is read as 0. */
  function CutPoint(maxLength: int): nat
  {
    if maxLength < 0 then 0 else maxLength
  }

  /** `truncateText`: the text itself when it is at most `maxLength` long,
      otherwise its first `maxLength` characters followed by "...". */
  function TruncateText(text: string, maxLength: int): (r: string)
    ensures |text| <= maxLength ==> r == text
    ensures |text| > maxLength ==> |r| == CutPoint(maxLength) + |Ellipsis| && r[CutPoint(maxLength)..] == Ellipsis
    ensures var keep := if |text| < CutPoint(maxLength) then |text| else CutPoint(maxLength);
      |r| >= keep && r[..keep] == text[..keep]
  {
    if |text| > maxLength then text[..CutPoint(maxLength)] + Ellipsis else text
  }

  /** The result is never longer than `maxLength` plus the ellipsis. */
  lemma TruncateBound(text: string, maxLength: int)
    ensures |TruncateText(text, maxLength)| <= CutPoint(maxLength) + |Ellipsis|
  {
  }

  /** Truncating twice with the same limit is truncating once: a truncated
      text is cut at the same point and gets the same ellipsis back. */
  lemma TruncateIdempotent(text: string, maxLength: int)
    ensures TruncateText(TruncateText(text, maxLength), maxLength) == TruncateText(text, maxLength)
  {
  }
}

/** The two JavaScript string primitives the validators use: `trim()` and
    `length`. Strings are sequences of Unicode scalar values. */
module Text {
  import opened Seqs

  /** The ECMAScript WhiteSpace and LineTerminator code points: exactly what
      `String.prototype.trim` strips and what the regular-expression class `\s`
      matches. */
  predicate IsSpace(c: char) {
    || c == '\t' || c == '\n' || c == '\U{B}' || c == '\U{C}' || c == '\r' || c == ' '
    || c == '\U{A0}' || c == '\U{1680}' || '\U{2000}' <= c <= '\U{200A}'
    || c == '\U{2028}' || c == '\U{2029}' || c == '\U{202F}' || c == '\U{205F}'
    || c == '\U{3000}' || c == '\U{FEFF}'
  }

  /** The line terminators, which the regular-expression `.` does not match. */
  predicate IsLineTerminator(c: char) {
    c == '\n' || c == '\r' || c == '\U{2028}' || c == '\U{2029}'
  }

  /** Leading whitespace removed: a suffix of `s` that is empty or starts
      with a non-space, and everything cut off is whitespace. */
  function TrimStart(s: string): (r: string)
    ensures |r| <= |s| && r == s[|s| - |r|..]
    ensures forall i :: 0 <= i < |s| - |r| ==> IsSpace(s[i])
    ensures r == [] || !IsSpace(r[0])
  {
    if s != [] && IsSpace(s[0]) then TrimStart(s[1..]) else s
  }

  /** Trailing whitespace removed: a prefix of `s` that is empty or ends with
      a non-space, and everything cut off is whitespace. */
  function TrimEnd(s: string): (r: string)
    ensures |r| <= |s| && r == s[..|r|]
    ensures forall i :: |r| <= i < |s| ==> IsSpace(s[i])
    ensures r == [] || !IsSpace(r[|r| - 1])
  {
    if s != [] && IsSpace(s[|s| - 1]) then TrimEnd(s[..|s| - 1]) else s
  }

  /** `s.trim()` */
  function Trim(s: string): string {
    TrimEnd(TrimStart(s))
  }

  /** The reading of "blank" that does not go through `trim`. */
  predicate HasVisibleChar(s: string) {
    exists i :: 0 <= i < |s| && !IsSpace(s[i])
  }

  /** `s.trim() === ""`, the blank check of the name, title and description
      validators: it holds exactly when every character is whitespace. */
  function IsBlank(s: string): (b: bool)
    ensures b <==> !HasVisibleChar(s)
  {
    Trim(s) == ""
  }

  /** A code point outside the Basic Multilingual Plane, which UTF-16 encodes
      as a surrogate pair. */
  predicate IsAstral(c: char) {
    c as int >= 0x1_0000
  }

  /** `s.length`: JavaScript counts UTF-16 code units, so a code point above
      U+FFFF counts twice. */
  function JsLength(s: string): (n: nat)
    ensures |s| <= n <= 2 * |s|
    ensures n == |s| <==> forall i :: 0 <= i < |s| ==> s[i] as int < 0x1_0000
  {
    if s == [] then 0
    else
      var rest := JsLength(s[1..]);
      assert forall i :: 1 <= i < |s| ==> s[i] == s[1..][i - 1];
      (if s[0] as int < 0x1_0000 then 1 else 2) + rest
  }

  /** The exact UTF-16 count: one code unit per code point, plus one more
      for each code point outside the Basic Multilingual Plane. */
  lemma {:induction false} JsLengthCountsSurrogates(s: string)
    ensures JsLength(s) == |s| + |Filter(s, IsAstral)|
  {
    if s != [] {
      JsLengthCountsSurrogates(s[1..]);
    }
  }
}

/** String operations the modelled code calls on both its Rust and its TypeScript side. */
module Text {

  predicate StartsWith(s: string, prefix: string) {
    prefix <= s
  }

  /** The first `c`, or the length where there is none. */
  function IndexOf(s: string, c: char): (k: nat)
    ensures k <= |s|
    ensures forall i :: 0 <= i < k ==> s[i] != c
    ensures k < |s| ==> s[k] == c
  {
    if s == [] || s[0] == c then 0 else 1 + IndexOf(s[1..], c)
  }

  /** `str::trim` removes `char::is_whitespace`: the Unicode White_Space property. */
  predicate IsRustSpace(c: char) {
    '\t' <= c <= '\r' || c == ' ' || c == '\U{85}' || c == '\U{A0}' || c == '\U{1680}'
    || '\U{2000}' <= c <= '\U{200A}' || c == '\U{2028}' || c == '\U{2029}' || c == '\U{202F}'
    || c == '\U{205F}' || c == '\U{3000}'
  }

  /** `String.prototype.trim` removes WhiteSpace and LineTerminator: no U+0085, but U+FEFF. */
  predicate IsJsSpace(c: char) {
    (IsRustSpace(c) && c != '\U{85}') || c == '\U{FEFF}'
  }

  function TrimStart(s: string, space: char -> bool): (r: string)
    ensures r == [] || !space(r[0])
    ensures |r| <= |s| && r == s[|s| - |r|..]
    ensures forall i :: 0 <= i < |s| - |r| ==> space(s[i])
  {
    if s != [] && space(s[0]) then TrimStart(s[1..], space) else s
  }

  function TrimEnd(s: string, space: char -> bool): (r: string)
    ensures r == [] || !space(r[|r| - 1])
    ensures r <= s
    ensures forall i :: |r| <= i < |s| ==> space(s[i])
  {
    if s != [] && space(s[|s| - 1]) then TrimEnd(s[..|s| - 1], space) else s
  }

  function Trim(s: string, space: char -> bool): (r: string)
    ensures r == [] || (!space(r[0]) && !space(r[|r| - 1]))
    ensures |r| <= |s|
    ensures s == [] || (!space(s[0]) && !space(s[|s| - 1])) ==> r == s
  {
    TrimEnd(TrimStart(s, space), space)
  }

  /** `str::trim`. */
  function RustTrim(s: string): string {
    Trim(s, IsRustSpace)
  }

  /** `String.prototype.trim`. */
  function JsTrim(s: string): string {
    Trim(s, IsJsSpace)
  }

  function ToLowerChar(c: char): char {
    if 'A' <= c <= 'Z' then (c as int + 32) as char else c
  }

  /** `to_ascii_lowercase`. */
  function ToLower(s: string): (r: string)
    ensures |r| == |s|
    ensures forall i :: 0 <= i < |s| ==> r[i] == ToLowerChar(s[i])
  {
    seq(|s|, i requires 0 <= i < |s| => ToLowerChar(s[i]))
  }

  /** `str::replace` of a character. */
  function ReplaceChar(s: string, c: char, into: string): string {
    if s == "" then "" else (if s[0] == c then into else [s[0]]) + ReplaceChar(s[1..], c, into)
  }

  lemma {:induction false} ReplaceCharJoins(a: string, b: string, c: char, into: string)
    ensures ReplaceChar(a + b, c, into) == ReplaceChar(a, c, into) + ReplaceChar(b, c, into)
  {
    if a == "" {
      assert a + b == b;
    } else {
      var first := if a[0] == c then into else [a[0]];
      var x, y := ReplaceChar(a[1..], c, into), ReplaceChar(b, c, into);
      ReplaceCharJoins(a[1..], b, c, into);
      assert (a + b)[1..] == a[1..] + b;
      assert first + (x + y) == first + x + y;
    }
  }

  lemma {:induction false} ReplaceAbsent(s: string, c: char, into: string)
    requires c !in s
    ensures ReplaceChar(s, c, into) == s
  {
    if s != "" {
      ReplaceAbsent(s[1..], c, into);
    }
  }
}

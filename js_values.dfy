/**
 * JavaScript values as the three rules see them: the `value` of a literal
 * node, a property key's `value`, and the strings the rules compare, trim
 * and scan.
 */
module JsValues {

  /**
   * The values a `Literal` node's `value` field can hold. Numbers are kept as
   * integers (no literal the rules inspect needs fractions or NaN); `Obj`
   * stands for a regular-expression object, which is never strictly equal to
   * another literal's value.
   */
  datatype JsValue =
    | Undefined
    | Null
    | Bool(b: bool)
    | Num(n: int)
    | Str(s: string)
    | Obj

  /** JavaScript truthiness (`if (!value)`). */
  predicate Truthy(v: JsValue) {
    match v
    case Undefined => false
    case Null => false
    case Bool(b) => b
    case Num(n) => n != 0
    case Str(s) => s != []
    case Obj => true
  }

  /** Strict equality `===` between two literal values. */
  predicate StrictEquals(a: JsValue, b: JsValue) {
    match a
    case Undefined => b.Undefined?
    case Null => b.Null?
    case Bool(x) => b.Bool? && b.b == x
    case Num(x) => b.Num? && b.n == x
    case Str(x) => b.Str? && b.s == x
    case Obj => false
  }

  /**
   * The characters `String.prototype.trim` removes: the JavaScript
   * WhiteSpace set (tab, vertical tab, form feed, space, no-break space,
   * byte order mark and the Unicode space separators) and the line
   * terminators.
   */
  predicate IsJsWhitespace(c: char) {
    c == '\t' || c == '\n' || c == '\U{B}' || c == '\U{C}' || c == '\r' || c == ' '
    || c == '\U{A0}' || c == '\U{1680}' || ('\U{2000}' <= c <= '\U{200A}')
    || c == '\U{2028}' || c == '\U{2029}' || c == '\U{202F}' || c == '\U{205F}'
    || c == '\U{3000}' || c == '\U{FEFF}'
  }

  predicate AllWhitespace(s: string) {
    forall k :: 0 <= k < |s| ==> IsJsWhitespace(s[k])
  }

  /** Drops the leading whitespace of `s`. */
  function TrimStart(s: string): (r: string)
    ensures |r| <= |s| && r == s[|s| - |r|..]
    ensures r == [] || !IsJsWhitespace(r[0])
    ensures AllWhitespace(s[..|s| - |r|])
  {
    if s == [] || !IsJsWhitespace(s[0]) then s
    else
      var r := TrimStart(s[1..]);
      assert s[1..][..|s| - 1 - |r|] == s[1..|s| - |r|];
      r
  }

  /** Drops the trailing whitespace of `s`. */
  function TrimEnd(s: string): (r: string)
    ensures |r| <= |s| && r == s[..|r|]
    ensures r == [] || !IsJsWhitespace(r[|r| - 1])
    ensures AllWhitespace(s[|r|..])
  {
    if s == [] || !IsJsWhitespace(s[|s| - 1]) then s
    else
      var r := TrimEnd(s[..|s| - 1]);
      assert s[..|s| - 1][|r|..] == s[|r|..|s| - 1];
      r
  }

  /** `String.prototype.trim`. */
  function Trim(s: string): (r: string)
  {
    TrimEnd(TrimStart(s))
  }

  /** Trimming leaves nothing exactly when the string is all whitespace. */
  lemma TrimEmptyIffBlank(s: string)
    ensures Trim(s) == [] <==> AllWhitespace(s)
  {
    var a := TrimStart(s);
    if a != [] {
      assert a[0..] == a;
    }
  }

  /** Trimming keeps a string that has no whitespace at either end. */
  lemma TrimKeepsInner(s: string)
    requires s != [] && !IsJsWhitespace(s[0]) && !IsJsWhitespace(s[|s| - 1])
    ensures Trim(s) == s
  {
  }

  /** ASCII lower-casing, the case folding the `i` flag applies to the URL prefixes. */
  function AsciiLower(c: char): (r: char)
    ensures 'A' <= c <= 'Z' ==> r as int == c as int + 32
    ensures !('A' <= c <= 'Z') ==> r == c
  {
    if 'A' <= c <= 'Z' then (c as int + 32) as char else c
  }

  /** `s` starts with `p`. */
  predicate StartsWith(s: string, p: string) {
    |p| <= |s| && s[..|p|] == p
  }

  /** `s` starts with the lower-case ASCII word `p`, ignoring the case of the letters of `s`. */
  predicate StartsWithIgnoringCase(s: string, p: string)
    decreases |p|
  {
    |p| <= |s| && (p == [] || (AsciiLower(s[0]) == p[0] && StartsWithIgnoringCase(s[1..], p[1..])))
  }

  /** The recursive prefix test compares the folded characters of `s` with `p`, position by position. */
  lemma {:induction false} StartsWithIgnoringCaseIff(s: string, p: string)
    ensures StartsWithIgnoringCase(s, p) <==> |p| <= |s| && forall k :: 0 <= k < |p| ==> AsciiLower(s[k]) == p[k]
    decreases |p|
  {
    if p != [] && |p| <= |s| {
      StartsWithIgnoringCaseIff(s[1..], p[1..]);
      if StartsWithIgnoringCase(s, p) {
        forall k | 0 <= k < |p|
          ensures AsciiLower(s[k]) == p[k]
        {
          if k > 0 {
            assert s[1..][k - 1] == s[k] && p[1..][k - 1] == p[k];
          }
        }
      } else if AsciiLower(s[0]) == p[0] {
        var k :| 0 <= k < |p| - 1 && AsciiLower(s[1..][k]) != p[1..][k];
        assert AsciiLower(s[k + 1]) != p[k + 1];
      }
    }
  }
}

/**
 * The `no-missing-interpolation-keys` rule: a string or template literal
 * passed to a translation function may hold placeholders such as
 * `{{name}}`; each placeholder must be named by a key of the object passed
 * as the second argument.
 */
module NoMissingInterpolationKeys {
  import opened Wrappers
  import opened JsValues
  import opened Syntax
  import Utils

  const ErrorMessage := "Missing key in interpolation function"

  /**
   * The rule's options. An option that is not given is the empty list or the
   * empty string; the rule treats an empty delimiter like a missing one.
   */
  datatype Options = Options(functionNames: seq<string>, prefix: string, suffix: string)

  const DefaultOptions := Options([], "", "")

  /** The prefix in force: the configured one, or `{{` when it is empty or absent. */
  function Prefix(o: Options): (p: string)
    ensures p != []
    ensures o.prefix != [] ==> p == o.prefix
  {
    if o.prefix == [] then "{{" else o.prefix
  }

  /** The suffix in force: the configured one, or `}}` when it is empty or absent. */
  function Suffix(o: Options): (s: string)
    ensures s != []
    ensures o.suffix != [] ==> s == o.suffix
  {
    if o.suffix == [] then "}}" else o.suffix
  }

  // ---------------------------------------------------------------------
  // escapeRegex
  // ---------------------------------------------------------------------

  /** The characters `escapeRegex` puts a backslash before: `-[]{}()*+?.,\^$|#` and whitespace. */
  predicate IsEscaped(c: char) {
    c in "-[]{}()*+?.,\\^$|#" || IsJsWhitespace(c)
  }

  /** `escapeRegex`: a backslash before every character of `IsEscaped`. */
  function EscapeRegex(text: string): string
  {
    if text == [] then []
    else (if IsEscaped(text[0]) then ['\\', text[0]] else [text[0]]) + EscapeRegex(text[1..])
  }

  /** Characters with a meaning of their own in a pattern, in or out of a bracketed class. */
  predicate IsRegexSyntax(c: char) {
    c in "^$\\.*+?()[]{}|-"
  }

  predicate IsAsciiAlnum(c: char) {
    'a' <= c <= 'z' || 'A' <= c <= 'Z' || '0' <= c <= '9'
  }

  /**
   * Read as a pattern, `r` stands for the literal text `s` (and, inside
   * brackets, for exactly the characters of `s`): each character of `s` is
   * written either as itself, when it has no meaning of its own, or behind a
   * backslash that only makes it literal (an identity escape, which a letter
   * or digit would not be).
   */
  predicate DenotesLiteral(r: string, s: string)
    decreases |r|
  {
    if r == [] then s == []
    else if r[0] == '\\' then
      |r| >= 2 && !IsAsciiAlnum(r[1]) && s != [] && r[1] == s[0] && DenotesLiteral(r[2..], s[1..])
    else
      !IsRegexSyntax(r[0]) && s != [] && r[0] == s[0] && DenotesLiteral(r[1..], s[1..])
  }

  /** The escaped text stands for the text itself, so the rule's pattern looks for the delimiters literally. */
  lemma {:induction false} EscapeRegexIsLiteral(text: string)
    ensures DenotesLiteral(EscapeRegex(text), text)
    decreases |text|
  {
    if text != [] {
      EscapeRegexIsLiteral(text[1..]);
      var r := EscapeRegex(text);
      if IsEscaped(text[0]) {
        assert r[2..] == EscapeRegex(text[1..]);
      } else {
        assert r[1..] == EscapeRegex(text[1..]);
      }
    }
  }

  // ---------------------------------------------------------------------
  // The placeholder pattern `prefix[^suffix]*suffix`, flag g
  // ---------------------------------------------------------------------

  /** `m` is a whole placeholder: the prefix, a run with no character of the suffix, the suffix. */
  predicate IsPlaceholder(m: string, prefix: string, suffix: string) {
    && |prefix| + |suffix| <= |m|
    && m[..|prefix|] == prefix
    && m[|m| - |suffix|..] == suffix
    && forall x :: |prefix| <= x < |m| - |suffix| ==> m[x] !in suffix
  }

  /** The first position from `k` on that holds a character of `stops`, or the end of `s`. */
  function NextStop(s: string, k: nat, stops: string): (j: nat)
    requires k <= |s|
    ensures k <= j <= |s|
    ensures forall x :: k <= x < j ==> s[x] !in stops
    ensures j < |s| ==> s[j] in stops
    decreases |s| - k
  {
    if k == |s| || s[k] in stops then k else NextStop(s, k + 1, stops)
  }

  /**
   * The length of the placeholder at the start of `s`, if one starts there:
   * the greedy `[^suffix]*` stops at the first character of the suffix, where
   * the suffix itself must follow.
   */
  function MatchAt(s: string, prefix: string, suffix: string): (r: Option<nat>)
    ensures r.Some? ==> |prefix| + |suffix| <= r.value <= |s|
  {
    if !StartsWith(s, prefix) then None
    else
      var j := NextStop(s, |prefix|, suffix);
      if StartsWith(s[j..], suffix) then Some(j + |suffix|) else None
  }

  /** A placeholder at the start of `s` is where `MatchAt` ends. */
  lemma PlaceholderIsMatch(s: string, prefix: string, suffix: string, e: nat)
    requires suffix != [] && e <= |s| && IsPlaceholder(s[..e], prefix, suffix)
    ensures MatchAt(s, prefix, suffix) == Some(e)
  {
    var m := s[..e];
    var j0 := e - |suffix|;
    assert s[..|prefix|] == m[..|prefix|];
    assert m[j0] == suffix[0];
    assert forall x :: |prefix| <= x < j0 ==> s[x] == m[x];
    assert s[j0] == m[j0];
    assert s[j0..][..|suffix|] == m[j0..];
  }

  /** Where `MatchAt` ends, a placeholder starts `s`. */
  lemma MatchIsPlaceholder(s: string, prefix: string, suffix: string, e: nat)
    requires MatchAt(s, prefix, suffix) == Some(e)
    ensures e <= |s| && IsPlaceholder(s[..e], prefix, suffix)
  {
    var j := NextStop(s, |prefix|, suffix);
    var m := s[..e];
    assert m[..|prefix|] == s[..|prefix|];
    assert m[j..] == s[j..e];
    assert s[j..][..|suffix|] == s[j..e];
    assert forall x :: |prefix| <= x < |m| - |suffix| ==> m[x] == s[x];
  }

  /**
   * Finding the first suffix character decides the match: a placeholder of
   * length `e` starts `s` exactly when `MatchAt` ends there, so backtracking
   * could never find another one.
   */
  lemma MatchAtIff(s: string, prefix: string, suffix: string, e: nat)
    requires suffix != []
    ensures MatchAt(s, prefix, suffix) == Some(e) <==> e <= |s| && IsPlaceholder(s[..e], prefix, suffix)
  {
    if e <= |s| && IsPlaceholder(s[..e], prefix, suffix) {
      PlaceholderIsMatch(s, prefix, suffix, e);
    }
    if MatchAt(s, prefix, suffix) == Some(e) {
      MatchIsPlaceholder(s, prefix, suffix, e);
    }
  }

  /** `value.match(pattern)` with the `g` flag: every match, left to right, each search resuming after the previous match. */
  function Scan(s: string, prefix: string, suffix: string): (ms: seq<string>)
    requires prefix != [] && suffix != []
    decreases |s|
  {
    if s == [] then []
    else
      match MatchAt(s, prefix, suffix)
      case Some(e) => [s[..e]] + Scan(s[e..], prefix, suffix)
      case None => Scan(s[1..], prefix, suffix)
  }

  /** Every match the scan returns is a whole placeholder. */
  lemma {:induction false} ScanFindsPlaceholders(s: string, prefix: string, suffix: string)
    requires prefix != [] && suffix != []
    ensures forall m :: m in Scan(s, prefix, suffix) ==> IsPlaceholder(m, prefix, suffix)
    decreases |s|
  {
    if s != [] {
      match MatchAt(s, prefix, suffix)
      case Some(e) =>
        MatchIsPlaceholder(s, prefix, suffix, e);
        ScanFindsPlaceholders(s[e..], prefix, suffix);
      case None =>
        ScanFindsPlaceholders(s[1..], prefix, suffix);
    }
  }

  /** Text whose first character does not begin the prefix has no match at its start. */
  lemma NoMatchOffPrefix(s: string, prefix: string, suffix: string)
    requires s != [] && prefix != [] && s[0] != prefix[0]
    ensures MatchAt(s, prefix, suffix).None?
  {
  }

  /** No placeholder occurs anywhere in `s`. */
  predicate NoPlaceholder(s: string, prefix: string, suffix: string) {
    forall a, b :: 0 <= a <= b <= |s| ==> !IsPlaceholder(s[a..b], prefix, suffix)
  }

  /** When no match starts the text, no placeholder is a prefix of it. */
  lemma NoMatchNoLeadingPlaceholder(s: string, prefix: string, suffix: string, b: nat)
    requires suffix != [] && b <= |s|
    requires MatchAt(s, prefix, suffix).None?
    ensures !IsPlaceholder(s[0..b], prefix, suffix)
  {
    MatchAtIff(s, prefix, suffix, b);
    assert s[..b] == s[0..b];
  }

  /** An empty scan means the text holds no placeholder. */
  lemma {:induction false} EmptyScanNoPlaceholder(s: string, prefix: string, suffix: string)
    requires prefix != [] && suffix != []
    requires Scan(s, prefix, suffix) == []
    ensures NoPlaceholder(s, prefix, suffix)
    decreases |s|
  {
    if s != [] {
      assert MatchAt(s, prefix, suffix).None?;
      assert Scan(s[1..], prefix, suffix) == [];
      EmptyScanNoPlaceholder(s[1..], prefix, suffix);
      forall a, b | 0 <= a <= b <= |s|
        ensures !IsPlaceholder(s[a..b], prefix, suffix)
      {
        if a == 0 {
          NoMatchNoLeadingPlaceholder(s, prefix, suffix, b);
        } else {
          PlaceholderInTail(s, a, b);
        }
      }
    } else {
      assert forall a, b :: 0 <= a <= b <= |s| ==> s[a..b] == [];
    }
  }

  /** A slice that does not start at the beginning is a slice of the tail. */
  lemma PlaceholderInTail(s: string, a: nat, b: nat)
    requires 0 < a <= b <= |s|
    ensures s[1..][a - 1..b - 1] == s[a..b]
  {
  }

  /** A placeholder anywhere in the text makes the scan find something. */
  lemma {:induction false} PlaceholderNonEmptyScan(s: string, prefix: string, suffix: string, a: nat, b: nat)
    requires prefix != [] && suffix != []
    requires a <= b <= |s| && IsPlaceholder(s[a..b], prefix, suffix)
    ensures Scan(s, prefix, suffix) != []
    decreases |s|
  {
    if MatchAt(s, prefix, suffix).None? {
      if a == 0 {
        NoMatchNoLeadingPlaceholder(s, prefix, suffix, b);
      } else {
        PlaceholderInTail(s, a, b);
        PlaceholderNonEmptyScan(s[1..], prefix, suffix, a - 1, b - 1);
      }
    }
  }

  /** A scan that finds something found a placeholder of the text. */
  lemma {:induction false} NonEmptyScanHasPlaceholder(s: string, prefix: string, suffix: string)
    requires prefix != [] && suffix != []
    requires Scan(s, prefix, suffix) != []
    ensures !NoPlaceholder(s, prefix, suffix)
    decreases |s|
  {
    match MatchAt(s, prefix, suffix)
    case Some(e) =>
      MatchAtIff(s, prefix, suffix, e);
      assert s[0..e] == s[..e];
    case None =>
      NonEmptyScanHasPlaceholder(s[1..], prefix, suffix);
      var a, b :| 0 <= a <= b <= |s| - 1 && IsPlaceholder(s[1..][a..b], prefix, suffix);
      assert s[1..][a..b] == s[a + 1..b + 1];
  }

  /** The scan comes back empty exactly when the text holds no placeholder at all. */
  lemma ScanEmptyIffNoPlaceholder(s: string, prefix: string, suffix: string)
    requires prefix != [] && suffix != []
    ensures Scan(s, prefix, suffix) == [] <==> NoPlaceholder(s, prefix, suffix)
  {
    if Scan(s, prefix, suffix) == [] {
      EmptyScanNoPlaceholder(s, prefix, suffix);
    } else {
      NonEmptyScanHasPlaceholder(s, prefix, suffix);
    }
  }

  /** Text with no character that begins the prefix contributes nothing to the scan. */
  lemma {:induction false} ScanSkips(w: string, rest: string, prefix: string, suffix: string)
    requires prefix != [] && suffix != []
    requires forall x :: 0 <= x < |w| ==> w[x] != prefix[0]
    ensures Scan(w + rest, prefix, suffix) == Scan(rest, prefix, suffix)
    decreases |w|
  {
    if w != [] {
      assert (w + rest)[0] == w[0];
      NoMatchOffPrefix(w + rest, prefix, suffix);
      assert (w + rest)[1..] == w[1..] + rest;
      ScanSkips(w[1..], rest, prefix, suffix);
    } else {
      assert w + rest == rest;
    }
  }

  /** A placeholder at the start of the text is the first match, and the scan resumes after it. */
  lemma ScanTakes(inner: string, rest: string, prefix: string, suffix: string)
    requires prefix != [] && suffix != []
    requires forall x :: 0 <= x < |inner| ==> inner[x] !in suffix
    ensures Scan(prefix + inner + suffix + rest, prefix, suffix) == [prefix + inner + suffix] + Scan(rest, prefix, suffix)
  {
    var m := prefix + inner + suffix;
    var s := m + rest;
    assert s[..|m|] == m;
    assert m[..|prefix|] == prefix;
    assert m[|m| - |suffix|..] == suffix;
    assert IsPlaceholder(m, prefix, suffix);
    MatchAtIff(s, prefix, suffix, |m|);
    assert s[|m|..] == rest;
  }

  // ---------------------------------------------------------------------
  // From a match to a variable name
  // ---------------------------------------------------------------------

  /**
   * `m.replace(/prefix|suffix/g, "")`: every occurrence of either delimiter
   * removed, left to right, the prefix tried first at each position.
   */
  function Strip(m: string, prefix: string, suffix: string): (r: string)
    requires prefix != [] && suffix != []
    ensures |r| <= |m|
    decreases |m|
  {
    if m == [] then []
    else if StartsWith(m, prefix) then Strip(m[|prefix|..], prefix, suffix)
    else if StartsWith(m, suffix) then Strip(m[|suffix|..], prefix, suffix)
    else [m[0]] + Strip(m[1..], prefix, suffix)
  }

  /** Text where no delimiter can begin is kept as it is. */
  lemma {:induction false} StripKeepsPlain(w: string, rest: string, prefix: string, suffix: string)
    requires prefix != [] && suffix != []
    requires forall x :: 0 <= x < |w| ==> w[x] != prefix[0] && w[x] != suffix[0]
    ensures Strip(w + rest, prefix, suffix) == w + Strip(rest, prefix, suffix)
    decreases |w|
  {
    if w != [] {
      assert (w + rest)[1..] == w[1..] + rest;
      StripKeepsPlain(w[1..], rest, prefix, suffix);
      assert w == [w[0]] + w[1..];
    } else {
      assert w + rest == rest;
    }
  }

  /** Stripping a placeholder whose inner text holds no delimiter character leaves the inner text. */
  lemma StripPlaceholder(inner: string, prefix: string, suffix: string)
    requires prefix != [] && suffix != []
    requires forall x :: 0 <= x < |inner| ==> inner[x] != prefix[0] && inner[x] != suffix[0]
    requires prefix[0] != suffix[0]
    ensures Strip(prefix + inner + suffix, prefix, suffix) == inner
  {
    var m := prefix + inner + suffix;
    assert m[..|prefix|] == prefix;
    assert m[|prefix|..] == inner + suffix;
    StripKeepsPlain(inner, suffix, prefix, suffix);
    assert suffix[..|suffix|] == suffix;
    assert suffix[|suffix|..] == [];
    assert inner + [] == inner;
  }

  /**
   * A second prefix inside a match is removed as well: `[^suffix]*` lets the
   * prefix's characters through, so `{{a{{b}}` is one match, stripped to `ab`.
   */
  lemma StripNestedPrefix(a: string, b: string, prefix: string, suffix: string)
    requires prefix != [] && suffix != [] && prefix[0] != suffix[0]
    requires forall x :: 0 <= x < |a| ==> a[x] != prefix[0] && a[x] != suffix[0]
    requires forall x :: 0 <= x < |b| ==> b[x] != prefix[0] && b[x] != suffix[0]
    ensures Strip(prefix + a + prefix + b + suffix, prefix, suffix) == a + b
  {
    var x := prefix + b + suffix;
    var m := prefix + a + prefix + b + suffix;
    calc {
      Strip(m, prefix, suffix);
      { assert m == prefix + (a + x) by { Regroup(prefix, a, x); } }
      Strip(prefix + (a + x), prefix, suffix);
      { StripLeadingPrefix(a + x, prefix, suffix); }
      Strip(a + x, prefix, suffix);
      { StripKeepsPlain(a, x, prefix, suffix); }
      a + Strip(x, prefix, suffix);
      { StripPlaceholder(b, prefix, suffix); }
      a + b;
    }
  }

  /** Regrouping a concatenation of three texts. */
  lemma Regroup(p: string, a: string, x: string)
    ensures p + a + x == p + (a + x)
  {
  }

  /** A prefix at the start of the text is removed. */
  lemma StripLeadingPrefix(rest: string, prefix: string, suffix: string)
    requires prefix != [] && suffix != []
    ensures Strip(prefix + rest, prefix, suffix) == Strip(rest, prefix, suffix)
  {
    var m := prefix + rest;
    assert m[..|prefix|] == prefix;
    assert m[|prefix|..] == rest;
  }

  /** The variable a match names: the match stripped of its delimiters and trimmed. */
  function VariableOf(m: string, prefix: string, suffix: string): string
    requires prefix != [] && suffix != []
  {
    Trim(Strip(m, prefix, suffix))
  }

  /** The variable of each match, in order. */
  function VariablesOf(ms: seq<string>, prefix: string, suffix: string): (vs: seq<string>)
    requires prefix != [] && suffix != []
    ensures |vs| == |ms|
    decreases |ms|
  {
    if ms == [] then [] else [VariableOf(ms[0], prefix, suffix)] + VariablesOf(ms[1..], prefix, suffix)
  }

  /** The variables the text's placeholders name, one per placeholder, in order. */
  function Variables(value: string, o: Options): seq<string>
  {
    VariablesOf(Scan(value, Prefix(o), Suffix(o)), Prefix(o), Suffix(o))
  }

  /**
   * `p.key.name` for one property: the key's name, `None` for a key without a
   * `name`. A spread has no `key`, but it never reaches the `map`: the handler
   * has already returned for it, so `None` there only makes the function total.
   */
  function KeyOf(p: ObjectMember): Option<string> {
    match p
    case KeyedMember(name) => name
    case SpreadMember => None
  }

  /** `argumentProperties`: the key names of the second argument when it is an object expression, and none otherwise. */
  function ArgumentKeys(arguments: seq<Arg>): (keys: seq<Option<string>>)
    ensures |arguments| >= 2 && arguments[1].ArgObject? ==> |keys| == |arguments[1].properties|
    ensures !(|arguments| >= 2 && arguments[1].ArgObject?) ==> keys == []
  {
    if |arguments| >= 2 && arguments[1].ArgObject? then
      seq(|arguments[1].properties|, x requires 0 <= x < |arguments[1].properties| => KeyOf(arguments[1].properties[x]))
    else []
  }

  /** The variables no key names, in order: what the `forEach` reports, one per occurrence. */
  function Missing(vs: seq<string>, keys: seq<Option<string>>): (r: seq<string>)
    ensures |r| <= |vs|
    ensures forall x :: 0 <= x < |r| ==> r[x] in vs && Some(r[x]) !in keys
    decreases |vs|
  {
    if vs == [] then []
    else
      var last := vs[|vs| - 1];
      Missing(vs[..|vs| - 1], keys) + (if Some(last) in keys then [] else [last])
  }

  /** Each variable is missing as often as it occurs when no key names it, and never otherwise. */
  lemma {:induction false} MissingCounts(vs: seq<string>, keys: seq<Option<string>>, v: string)
    ensures multiset(Missing(vs, keys))[v] == if Some(v) in keys then 0 else multiset(vs)[v]
    decreases |vs|
  {
    if vs != [] {
      var init := vs[..|vs| - 1];
      MissingCounts(init, keys, v);
      assert vs == init + [vs[|vs| - 1]];
    }
  }

  /** With no keys at all, every variable is missing. */
  lemma {:induction false} NoKeysAllMissing(vs: seq<string>)
    ensures Missing(vs, []) == vs
    decreases |vs|
  {
    if vs != [] {
      NoKeysAllMissing(vs[..|vs| - 1]);
      assert vs == vs[..|vs| - 1] + [vs[|vs| - 1]];
    }
  }

  /** Nothing is missing exactly when a key names every variable. */
  lemma {:induction false} NoneMissingIffAllNamed(vs: seq<string>, keys: seq<Option<string>>)
    ensures Missing(vs, keys) == [] <==> forall x :: 0 <= x < |vs| ==> Some(vs[x]) in keys
    decreases |vs|
  {
    if vs != [] {
      var init := vs[..|vs| - 1];
      NoneMissingIffAllNamed(init, keys);
      assert forall x :: 0 <= x < |init| ==> init[x] == vs[x];
    }
  }

  /** Passing more keys never adds a report. */
  lemma {:induction false} MoreKeysFewerMissing(vs: seq<string>, keys: seq<Option<string>>, keys': seq<Option<string>>)
    requires forall k :: k in keys ==> k in keys'
    ensures |Missing(vs, keys')| <= |Missing(vs, keys)|
    decreases |vs|
  {
    if vs != [] {
      MoreKeysFewerMissing(vs[..|vs| - 1], keys, keys');
    }
  }

  // ---------------------------------------------------------------------
  // The handler
  // ---------------------------------------------------------------------

  /** What the handler does for a text node under a call: returns early, throws, or checks the variables. */
  datatype Outcome = Skipped | Throws | Checked(missing: seq<string>)

  /** The callee is `t` or one of the configured function names (so it is an identifier). */
  predicate IsTranslationCall(o: Options, callee: Expr) {
    var name := NameOf(callee);
    name.Some? && (name.value in o.functionNames || name.value == "t")
  }

  /** The second argument is an identifier, or an object expression with a spread: its keys are not known. */
  predicate KeysUnknown(arguments: seq<Arg>) {
    |arguments| >= 2 &&
    (arguments[1].ArgIdentifier? || (arguments[1].ArgObject? && SpreadMember in arguments[1].properties))
  }

  /**
   * The outcome for the literal or template `k` that is an argument (or the
   * callee) of a call with this callee and these arguments. A truthy value
   * that is not a string has no `match` method, so the call throws.
   */
  function OutcomeOf(o: Options, callee: Expr, arguments: seq<Arg>, k: NodeKind): Outcome
  {
    var value := Utils.GetValueFromNode(k);
    if !IsTranslationCall(o, callee) || KeysUnknown(arguments) || !Truthy(value) then Skipped
    else if !value.Str? then Throws
    else Checked(Missing(Variables(value.s, o), ArgumentKeys(arguments)))
  }

  /** The `forEach` over the variables: one report on the node for each variable that no key names. */
  method ReportMissing(node: nat, variables: seq<string>, keys: seq<Option<string>>) returns (diagnostics: seq<Diagnostic>)
    ensures |diagnostics| == |Missing(variables, keys)|
    ensures forall d :: d in diagnostics ==> d == Diagnostic(node, ErrorMessage)
  {
    diagnostics := [];
    for k := 0 to |variables|
      invariant |diagnostics| == |Missing(variables[..k], keys)|
      invariant forall d :: d in diagnostics ==> d == Diagnostic(node, ErrorMessage)
    {
      assert variables[..k + 1][..k] == variables[..k];
      if Some(variables[k]) !in keys {
        diagnostics := diagnostics + [Diagnostic(node, ErrorMessage)];
      }
    }
    assert variables[..|variables|] == variables;
  }

  /**
   * The `CallExpression > :matches(Literal, TemplateLiteral)` handler for
   * node `i`: the early returns of the source in order, then the `forEach`
   * that reports each missing variable on the node.
   */
  method OnTextInCall(t: Tree, o: Options, i: nat) returns (thrown: bool, diagnostics: seq<Diagnostic>)
    requires WellFormed(t) && i < |t| && IsText(t[i].kind)
    requires t[i].parent.Some? && t[t[i].parent.value].kind.Call?
    ensures var call := t[t[i].parent.value].kind;
            var r := OutcomeOf(o, call.callee, call.arguments, t[i].kind);
            && (thrown <==> r.Throws?)
            && |diagnostics| == (if r.Checked? then |r.missing| else 0)
            && forall d :: d in diagnostics ==> d == Diagnostic(i, ErrorMessage)
  {
    var call := t[t[i].parent.value].kind;
    thrown, diagnostics := false, [];
    var name := NameOf(call.callee);
    if name.None? || (name.value !in o.functionNames && name.value != "t") {
      return;
    }
    var arguments := call.arguments;
    if |arguments| >= 2 && arguments[1].ArgIdentifier? {
      return;
    }
    if |arguments| >= 2 && arguments[1].ArgObject? && SpreadMember in arguments[1].properties {
      return;
    }
    var value := Utils.GetValueFromNode(t[i].kind);
    if !Truthy(value) {
      return;
    }
    if !value.Str? {
      thrown := true;
      return;
    }
    diagnostics := ReportMissing(i, Variables(value.s, o), ArgumentKeys(arguments));
  }
}

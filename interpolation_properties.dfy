/** What `no-missing-interpolation-keys` decides, and how it treats the calls its documentation shows. */
module NoMissingInterpolationKeysProperties {
  import opened Wrappers
  import opened JsValues
  import opened Syntax
  import opened NoMissingInterpolationKeys
  import Utils

  // ---------------------------------------------------------------------
  // When the rule looks at all
  // ---------------------------------------------------------------------

  /** The variables are checked exactly for a translation call whose keys are knowable and whose text is a non-empty string. */
  lemma CheckedIff(o: Options, callee: Expr, arguments: seq<Arg>, k: NodeKind)
    ensures OutcomeOf(o, callee, arguments, k).Checked? <==>
      && IsTranslationCall(o, callee)
      && !KeysUnknown(arguments)
      && Utils.GetValueFromNode(k).Str? && Utils.GetValueFromNode(k).s != []
  {
  }

  /** A call through a member expression (`i18n.t(...)`) is never checked: the callee has no `name`. */
  lemma MemberCalleeSkipped(o: Options, obj: Expr, property: Expr, arguments: seq<Arg>, k: NodeKind)
    ensures OutcomeOf(o, Member(obj, property), arguments, k) == Skipped
  {
  }

  /** A function other than `t` and the configured names is not a translation call. */
  lemma UnlistedCalleeSkipped(o: Options, name: string, arguments: seq<Arg>, k: NodeKind)
    requires name != "t" && name !in o.functionNames
    ensures OutcomeOf(o, Ident(name), arguments, k) == Skipped
  {
  }

  /** Values passed as an identifier (`t('Hi {{name}}', user)`) cannot be checked. */
  lemma IdentifierValuesSkipped(o: Options, callee: Expr, first: Arg, name: string, rest: seq<Arg>, k: NodeKind)
    ensures OutcomeOf(o, callee, [first, ArgIdentifier(name)] + rest, k) == Skipped
  {
  }

  /** An object with a spread (`{ ...user, lastName }`) may hold any key, so it is not checked. */
  lemma SpreadValuesSkipped(o: Options, callee: Expr, first: Arg, properties: seq<ObjectMember>, rest: seq<Arg>, k: NodeKind)
    requires SpreadMember in properties
    ensures OutcomeOf(o, callee, [first, ArgObject(properties)] + rest, k) == Skipped
  {
  }

  /** A falsy value (an empty string, a template that begins with an expression) is skipped. */
  lemma FalsyValueSkipped(o: Options, callee: Expr, arguments: seq<Arg>, k: NodeKind)
    requires !Truthy(Utils.GetValueFromNode(k))
    ensures OutcomeOf(o, callee, arguments, k) == Skipped
  {
  }

  /** A truthy value that is not a string reaches `value.match`, which it does not have: the handler throws. */
  lemma NonStringValueThrows(o: Options, callee: Expr, arguments: seq<Arg>, k: NodeKind)
    requires IsTranslationCall(o, callee) && !KeysUnknown(arguments)
    requires Truthy(Utils.GetValueFromNode(k)) && !Utils.GetValueFromNode(k).Str?
    ensures OutcomeOf(o, callee, arguments, k) == Throws
  {
  }

  // ---------------------------------------------------------------------
  // What is reported
  // ---------------------------------------------------------------------

  /**
   * Each variable is reported once per placeholder naming it, when no key of
   * the second argument names it, and never when one does.
   */
  lemma ReportsPerPlaceholder(o: Options, callee: Expr, arguments: seq<Arg>, k: NodeKind, v: string)
    requires OutcomeOf(o, callee, arguments, k).Checked?
    ensures var value := Utils.GetValueFromNode(k).s;
            multiset(OutcomeOf(o, callee, arguments, k).missing)[v] ==
              if Some(v) in ArgumentKeys(arguments) then 0 else multiset(Variables(value, o))[v]
  {
    MissingCounts(Variables(Utils.GetValueFromNode(k).s, o), ArgumentKeys(arguments), v);
  }

  /** Without a second argument, or with one that is not an object expression, every placeholder is reported. */
  lemma NoValuesAllReported(o: Options, callee: Expr, arguments: seq<Arg>, k: NodeKind)
    requires !(|arguments| >= 2 && arguments[1].ArgObject?)
    requires OutcomeOf(o, callee, arguments, k).Checked?
    ensures OutcomeOf(o, callee, arguments, k).missing == Variables(Utils.GetValueFromNode(k).s, o)
  {
    NoKeysAllMissing(Variables(Utils.GetValueFromNode(k).s, o));
  }

  /**
   * Adding properties to the object passed second never adds a report: no
   * variable is reported more often, so neither is the total.
   */
  lemma ExtraKeysHarmless(o: Options, callee: Expr, arguments: seq<Arg>, properties: seq<ObjectMember>,
                          extra: seq<ObjectMember>, k: NodeKind, v: string)
    requires |arguments| >= 2 && arguments[1] == ArgObject(properties)
    requires OutcomeOf(o, callee, arguments, k).Checked?
    requires OutcomeOf(o, callee, arguments[1 := ArgObject(properties + extra)], k).Checked?
    ensures var more := OutcomeOf(o, callee, arguments[1 := ArgObject(properties + extra)], k).missing;
            var fewer := OutcomeOf(o, callee, arguments, k).missing;
            multiset(more)[v] <= multiset(fewer)[v] && |more| <= |fewer|
  {
    var arguments' := arguments[1 := ArgObject(properties + extra)];
    var vs := Variables(Utils.GetValueFromNode(k).s, o);
    var keys := ArgumentKeys(arguments);
    var keys' := ArgumentKeys(arguments');
    assert forall x :: 0 <= x < |keys| ==> keys[x] == keys'[x];
    assert forall key :: key in keys ==> key in keys' by {
      forall key | key in keys ensures key in keys' {
        var x :| 0 <= x < |keys| && keys[x] == key;
        assert keys'[x] == key;
      }
    }
    MoreKeysFewerMissing(vs, keys, keys');
    MissingCounts(vs, keys, v);
    MissingCounts(vs, keys', v);
  }

  /** With every variable named by a key, nothing is reported. */
  lemma AllNamedNothingReported(o: Options, callee: Expr, arguments: seq<Arg>, k: NodeKind)
    requires OutcomeOf(o, callee, arguments, k).Checked?
    requires var vs := Variables(Utils.GetValueFromNode(k).s, o);
             forall x :: 0 <= x < |vs| ==> Some(vs[x]) in ArgumentKeys(arguments)
    ensures OutcomeOf(o, callee, arguments, k).missing == []
  {
    NoneMissingIffAllNamed(Variables(Utils.GetValueFromNode(k).s, o), ArgumentKeys(arguments));
  }

  // ---------------------------------------------------------------------
  // Reading placeholders off concrete text
  // ---------------------------------------------------------------------

  /** No character of `w` is `c`. */
  predicate Avoids(w: string, c: char) {
    forall x :: 0 <= x < |w| ==> w[x] != c
  }

  /** The variables of plain text, a placeholder, and the rest: the placeholder's trimmed inner text first. */
  lemma VariablesStep(w: string, inner: string, rest: string, prefix: string, suffix: string)
    requires prefix != [] && suffix != [] && prefix[0] != suffix[0]
    requires Avoids(w, prefix[0]) && Avoids(inner, prefix[0])
    requires forall x :: 0 <= x < |inner| ==> inner[x] !in suffix
    ensures VariablesOf(Scan(w + prefix + inner + suffix + rest, prefix, suffix), prefix, suffix)
         == [Trim(inner)] + VariablesOf(Scan(rest, prefix, suffix), prefix, suffix)
  {
    var m := prefix + inner + suffix;
    assert w + prefix + inner + suffix + rest == w + (m + rest);
    assert m + rest == prefix + inner + suffix + rest;
    ScanSkips(w, m + rest, prefix, suffix);
    ScanTakes(inner, rest, prefix, suffix);
    assert forall x :: 0 <= x < |inner| ==> inner[x] != suffix[0] by {
      assert suffix[0] in suffix;
    }
    StripPlaceholder(inner, prefix, suffix);
    VariablesOfCons(m, Scan(rest, prefix, suffix), prefix, suffix);
  }

  /** The variables of a leading match, then of the rest. */
  lemma VariablesOfCons(m: string, ms: seq<string>, prefix: string, suffix: string)
    requires prefix != [] && suffix != []
    ensures VariablesOf([m] + ms, prefix, suffix) == [VariableOf(m, prefix, suffix)] + VariablesOf(ms, prefix, suffix)
  {
    assert ([m] + ms)[1..] == ms;
  }

  /** Text in which the prefix cannot begin has no variables. */
  lemma VariablesNone(w: string, prefix: string, suffix: string)
    requires prefix != [] && suffix != []
    requires Avoids(w, prefix[0])
    ensures VariablesOf(Scan(w, prefix, suffix), prefix, suffix) == []
  {
    ScanSkips(w, [], prefix, suffix);
    assert w + [] == w;
  }

  /** A name as placeholders hold it: not empty, no brackets or braces, no whitespace at either end. */
  predicate PlainName(name: string) {
    && name != []
    && Avoids(name, '{') && Avoids(name, '}') && Avoids(name, '[') && Avoids(name, ']')
    && !IsJsWhitespace(name[0]) && !IsJsWhitespace(name[|name| - 1])
  }

  lemma AvoidsJoin(a: string, b: string, c: char)
    requires Avoids(a, c) && Avoids(b, c)
    ensures Avoids(a + b, c)
  {
    assert forall x :: |a| <= x < |a + b| ==> (a + b)[x] == b[x - |a|];
  }

  /** Text without the suffix's one character holds no character of a doubled suffix. */
  lemma OutsideSuffix(inner: string, suffix: string)
    requires suffix == "}}" || suffix == "]]"
    requires Avoids(inner, suffix[0])
    ensures forall x :: 0 <= x < |inner| ==> inner[x] !in suffix
  {
  }

  /** The variables of a text that starts with a placeholder: its trimmed inner text first. */
  lemma VariablesLead(inner: string, rest: string, prefix: string, suffix: string)
    requires prefix != [] && suffix != [] && prefix[0] != suffix[0]
    requires Avoids(inner, prefix[0])
    requires forall x :: 0 <= x < |inner| ==> inner[x] !in suffix
    ensures VariablesOf(Scan(prefix + inner + suffix + rest, prefix, suffix), prefix, suffix)
         == [Trim(inner)] + VariablesOf(Scan(rest, prefix, suffix), prefix, suffix)
  {
    var m := prefix + inner + suffix;
    ScanTakes(inner, rest, prefix, suffix);
    assert forall x :: 0 <= x < |inner| ==> inner[x] != suffix[0] by {
      assert suffix[0] in suffix;
    }
    StripPlaceholder(inner, prefix, suffix);
    VariablesOfCons(m, Scan(rest, prefix, suffix), prefix, suffix);
  }

  /** A text whose only placeholder is `prefix + inner + suffix`, after plain text `w`. */
  lemma VariablesOne(w: string, inner: string, prefix: string, suffix: string)
    requires prefix != [] && suffix != [] && prefix[0] != suffix[0]
    requires Avoids(w, prefix[0]) && Avoids(inner, prefix[0])
    requires forall x :: 0 <= x < |inner| ==> inner[x] !in suffix
    ensures VariablesOf(Scan(w + prefix + inner + suffix, prefix, suffix), prefix, suffix) == [Trim(inner)]
  {
    VariablesStep(w, inner, [], prefix, suffix);
    assert w + prefix + inner + suffix + [] == w + prefix + inner + suffix;
    VariablesNone([], prefix, suffix);
  }

  /** `'Hi {{name}}'` names one variable. */
  lemma HiNameVariables(name: string)
    requires PlainName(name)
    ensures Variables("Hi " + "{{" + name + "}}", DefaultOptions) == [name]
  {
    OutsideSuffix(name, "}}");
    VariablesOne("Hi ", name, "{{", "}}");
    TrimKeepsInner(name);
  }

  /** Spaces around a name are trimmed away: `" name "` becomes `"name"`. */
  lemma TrimPadded(name: string)
    requires PlainName(name)
    ensures Trim(" " + name + " ") == name
  {
    assert (" " + name + " ")[1..] == name + " ";
    assert TrimStart(" " + name + " ") == name + " ";
    assert (name + " ")[..|name|] == name;
    assert TrimEnd(name + " ") == TrimEnd(name);
    TrimKeepsInner(name);
  }

  /** `'With {{ spaces }}'`: the whitespace around a name is trimmed away. */
  lemma SpacesTrimmed(name: string)
    requires PlainName(name)
    ensures Variables("With " + "{{" + (" " + name + " ") + "}}", DefaultOptions) == [name]
  {
    var inner := " " + name + " ";
    AvoidsJoin(" ", name, '{');
    AvoidsJoin(" " + name, " ", '{');
    AvoidsJoin(" ", name, '}');
    AvoidsJoin(" " + name, " ", '}');
    OutsideSuffix(inner, "}}");
    VariablesOne("With ", inner, "{{", "}}");
    TrimPadded(name);
  }

  /** `'{{a}} {{a}}'` names the same variable twice. */
  lemma RepeatedVariable(name: string)
    requires PlainName(name)
    ensures Variables("{{" + name + "}}" + (" " + "{{" + name + "}}"), DefaultOptions) == [name] + [name]
  {
    OutsideSuffix(name, "}}");
    TrimKeepsInner(name);
    var rest := " " + "{{" + name + "}}";
    VariablesLead(name, rest, "{{", "}}");
    VariablesOne(" ", name, "{{", "}}");
  }

  /** With `[[`/`]]` delimiters, `{{...}}` is plain text. */
  lemma CustomDelimiters(name: string, other: string)
    requires PlainName(name) && PlainName(other)
    ensures Variables("Hi " + "[[" + name + "]]" + (" {{" + other + "}}"), Options([], "[[", "]]")) == [name]
  {
    OutsideSuffix(name, "]]");
    var rest := " {{" + other + "}}";
    VariablesStep("Hi ", name, rest, "[[", "]]");
    TrimKeepsInner(name);
    BracedAvoids(other, '[');
    VariablesNone(rest, "[[", "]]");
  }

  /** `" {{" + other + "}}"` holds no `c` when `other` holds none and `c` is not a space or a brace. */
  lemma BracedAvoids(other: string, c: char)
    requires Avoids(other, c) && c != ' ' && c != '{' && c != '}'
    ensures Avoids(" {{" + other + "}}", c)
  {
    var r := " {{" + other + "}}";
    forall x | 0 <= x < |r|
      ensures r[x] != c
    {
      if x < 3 {
        assert r[x] == " {{"[x];
      } else if x < 3 + |other| {
        assert r[x] == other[x - 3];
      } else {
        assert r[x] == "}}"[x - 3 - |other|];
      }
    }
  }

  // ---------------------------------------------------------------------
  // Calls from the rule's documentation
  // ---------------------------------------------------------------------

  function TextArg(s: string): Arg {
    ArgLiteral(Str(s))
  }

  /** A translation call with a string as its only argument reports every variable of the string. */
  lemma TextOnlyCall(o: Options, callee: Expr, text: string)
    requires IsTranslationCall(o, callee) && text != []
    ensures OutcomeOf(o, callee, [TextArg(text)], Lit(Str(text))) == Checked(Variables(text, o))
  {
    NoKeysAllMissing(Variables(text, o));
  }

  /** A translation call with a string and an object with one identifier key reports the variables that key does not name. */
  lemma TextAndKeyCall(o: Options, callee: Expr, text: string, key: string)
    requires IsTranslationCall(o, callee) && text != []
    ensures OutcomeOf(o, callee, [TextArg(text), ArgObject([KeyedMember(Some(key))])], Lit(Str(text)))
         == Checked(Missing(Variables(text, o), [Some(key)]))
  {
    var arguments := [TextArg(text), ArgObject([KeyedMember(Some(key))])];
    assert !KeysUnknown(arguments);
    var keys := ArgumentKeys(arguments);
    assert |keys| == 1 && keys[0] == Some(key);
    assert keys == [Some(key)];
  }

  /** `t('Hi {{name}}')` reports `name`. */
  lemma HiNameReported(name: string)
    requires PlainName(name)
    ensures var text := "Hi " + "{{" + name + "}}";
      OutcomeOf(DefaultOptions, Ident("t"), [TextArg(text)], Lit(Str(text))) == Checked([name])
  {
    HiNameVariables(name);
    TextOnlyCall(DefaultOptions, Ident("t"), "Hi " + "{{" + name + "}}");
  }

  /** `t('Hi {{name}}', { name: 'Bob' })` reports nothing. */
  lemma HiNameNamed(name: string)
    requires PlainName(name)
    ensures var text := "Hi " + "{{" + name + "}}";
      OutcomeOf(DefaultOptions, Ident("t"), [TextArg(text), ArgObject([KeyedMember(Some(name))])], Lit(Str(text))) == Checked([])
  {
    HiNameVariables(name);
    TextAndKeyCall(DefaultOptions, Ident("t"), "Hi " + "{{" + name + "}}", name);
    assert [name][..0] == [];
  }

  /** `t('Hi {{name}}', user)` is skipped. */
  lemma HiNameUserSkipped(name: string)
    requires PlainName(name)
    ensures var text := "Hi " + "{{" + name + "}}";
      OutcomeOf(DefaultOptions, Ident("t"), [TextArg(text), ArgIdentifier("user")], Lit(Str(text))) == Skipped
  {
  }

  /** `someFunction('Hi {{name}}')` is not a translation call without options. */
  lemma UnconfiguredFunctionSkipped(name: string)
    ensures var text := "Hi " + "{{" + name + "}}";
      OutcomeOf(DefaultOptions, Ident("someFunction"), [TextArg(text)], Lit(Str(text))) == Skipped
  {
  }

  /** `someFunction('Hi {{name}}')` is checked once `someFunction` is configured. */
  lemma ConfiguredFunctionChecked(name: string)
    requires PlainName(name)
    ensures var text := "Hi " + "{{" + name + "}}";
      OutcomeOf(Options(["someFunction"], "", ""), Ident("someFunction"), [TextArg(text)], Lit(Str(text))) == Checked([name])
  {
    var o := Options(["someFunction"], "", "");
    HiNameVariables(name);
    assert Variables("Hi " + "{{" + name + "}}", o) == Variables("Hi " + "{{" + name + "}}", DefaultOptions);
    TextOnlyCall(o, Ident("someFunction"), "Hi " + "{{" + name + "}}");
  }

  /** `t('{{a}} {{a}}')` reports twice, once per placeholder. */
  lemma RepeatedReportedTwice(name: string)
    requires PlainName(name)
    ensures var text := "{{" + name + "}}" + (" " + "{{" + name + "}}");
      OutcomeOf(DefaultOptions, Ident("t"), [TextArg(text)], Lit(Str(text))) == Checked([name] + [name])
  {
    RepeatedVariable(name);
    TextOnlyCall(DefaultOptions, Ident("t"), "{{" + name + "}}" + (" " + "{{" + name + "}}"));
  }

  /** `` t(`${value} under`) ``: the template's first chunk is empty, so there is no value to check. */
  lemma LeadingExpressionSkipped()
    ensures OutcomeOf(DefaultOptions, Ident("t"), [ArgTemplate(1)], Template(["", " under"], 1)) == Skipped
  {
  }

  /** `t(5)` throws: a number has no `match` method. */
  lemma NumberThrows()
    ensures OutcomeOf(DefaultOptions, Ident("t"), [ArgLiteral(Num(5))], Lit(Num(5))) == Throws
  {
  }
}

/**
 * What the no-string-literal rule promises, proved about the policy
 * predicates and the pass: which exits report, what is never reported,
 * the case-insensitive URL test, and the rule's behaviour on small trees
 * taken from the cases its tests describe.
 */
module NoStringLiteralProperties {
  import opened Wrappers
  import opened JsValues
  import opened Syntax
  import opened NoStringLiteral
  import opened NoStringLiteralPass
  import Utils

  //----------------------------------------------------------------------
  // Runs
  //----------------------------------------------------------------------

  /**
   * A pass reports node `n` exactly when it leaves `n` and `n` is
   * reportable, always with the rule's message.
   */
  lemma {:induction false} ReportsExactly(t: Tree, o: Options, events: seq<Event>)
    requires WellFormed(t) && ValidEvents(t, events)
    ensures forall d :: d in ExpectedReports(t, o, events) ==>
      && d.message == ErrorMessage && d.node < |t|
      && Exit(d.node) in events && ShouldReport(t, o, d.node)
    ensures forall n: nat :: n < |t| && Exit(n) in events && ShouldReport(t, o, n) ==>
      Diagnostic(n, ErrorMessage) in ExpectedReports(t, o, events)
    decreases |events|
  {
    if events != [] {
      var m := |events| - 1;
      ReportsExactly(t, o, events[..m]);
      assert events == events[..m] + [events[m]];
    }
  }

  /** A literal some listener lets through is never reported. */
  lemma ExemptNeverReported(t: Tree, o: Options, events: seq<Event>, i: nat)
    requires WellFormed(t) && ValidEvents(t, events) && i < |t| && Exempt(t, o, i)
    ensures forall d :: d in ExpectedReports(t, o, events) ==> d.node != i
  {
    ReportsExactly(t, o, events);
  }

  /** A string literal that is empty or only whitespace is never reported. */
  lemma BlankNeverReported(t: Tree, o: Options, events: seq<Event>, i: nat, s: string)
    requires WellFormed(t) && ValidEvents(t, events) && i < |t|
    requires t[i].kind == Lit(Str(s)) && AllWhitespace(s)
    ensures forall d :: d in ExpectedReports(t, o, events) ==> d.node != i
  {
    ReportsExactly(t, o, events);
    TrimEmptyIffBlank(s);
  }

  /** A literal whose value is not a string (a number, a boolean, `null`, a regex) is never reported. */
  lemma NonStringNeverReported(t: Tree, o: Options, events: seq<Event>, i: nat, v: JsValue)
    requires WellFormed(t) && ValidEvents(t, events) && i < |t|
    requires t[i].kind == Lit(v) && !v.Str? && !v.Undefined?
    ensures forall d :: d in ExpectedReports(t, o, events) ==> d.node != i
  {
    ReportsExactly(t, o, events);
  }

  /** A string literal, or a template whose first chunk, starts with a URL prefix: never reported. */
  lemma UrlNeverReported(t: Tree, o: Options, events: seq<Event>, i: nat, s: string)
    requires WellFormed(t) && ValidEvents(t, events) && i < |t|
    requires t[i].kind == Lit(Str(s)) || (t[i].kind.Template? && |t[i].kind.quasis| > 0 && t[i].kind.quasis[0] == s)
    requires IsUrlString(s)
    ensures forall d :: d in ExpectedReports(t, o, events) ==> d.node != i
  {
    ReportsExactly(t, o, events);
    assert s != [] by {
      assert StartsWithIgnoringCase(s, "http://") || StartsWithIgnoringCase(s, "https://")
        || StartsWithIgnoringCase(s, "//") || StartsWithIgnoringCase(s, "tel:")
        || StartsWithIgnoringCase(s, "mailto:") || StartsWithIgnoringCase(s, "file://");
    }
    assert IsUrl(t[i].kind);
  }

  /** A template with no text and at most one expression, such as `${count}`, is never reported. */
  lemma BareTemplateNeverReported(t: Tree, o: Options, events: seq<Event>, i: nat, quasis: seq<string>, e: nat)
    requires WellFormed(t) && ValidEvents(t, events) && i < |t|
    requires t[i].kind == Template(quasis, e) && (forall q :: q in quasis ==> q == []) && e <= 1
    ensures forall d :: d in ExpectedReports(t, o, events) ==> d.node != i
  {
    ReportsExactly(t, o, events);
  }

  //----------------------------------------------------------------------
  // The URL test ignores case
  //----------------------------------------------------------------------

  /** Two strings that differ at most in the case of ASCII letters. */
  predicate SameIgnoringCase(s: string, s': string) {
    |s| == |s'| && forall k :: 0 <= k < |s| ==> AsciiLower(s[k]) == AsciiLower(s'[k])
  }

  lemma {:induction false} PrefixIgnoresCase(s: string, s': string, p: string)
    requires SameIgnoringCase(s, s')
    ensures StartsWithIgnoringCase(s, p) <==> StartsWithIgnoringCase(s', p)
    decreases |p|
  {
    if p != [] && |p| <= |s| {
      assert SameIgnoringCase(s[1..], s'[1..]) by {
        forall k | 0 <= k < |s| - 1
          ensures AsciiLower(s[1..][k]) == AsciiLower(s'[1..][k])
        {
          assert s[1..][k] == s[k + 1] && s'[1..][k] == s'[k + 1];
        }
      }
      PrefixIgnoresCase(s[1..], s'[1..], p[1..]);
    }
  }

  /** The `i` flag: changing the case of letters never changes whether a string is a URL. */
  lemma UrlIgnoresCase(s: string, s': string)
    requires SameIgnoringCase(s, s')
    ensures IsUrlString(s) <==> IsUrlString(s')
  {
    PrefixIgnoresCase(s, s', "http://");
    PrefixIgnoresCase(s, s', "https://");
    PrefixIgnoresCase(s, s', "//");
    PrefixIgnoresCase(s, s', "tel:");
    PrefixIgnoresCase(s, s', "mailto:");
    PrefixIgnoresCase(s, s', "file://");
  }

  /** Whatever follows the prefix, `HTTPS://` and `Mailto:` in any case make a URL. */
  lemma UrlExamples(rest: string)
    ensures IsUrlString("HTTPS://" + rest)
    ensures IsUrlString("Mailto:" + rest)
  {
    StartsWithIgnoringCaseIff("HTTPS://" + rest, "https://");
    StartsWithIgnoringCaseIff("Mailto:" + rest, "mailto:");
  }

  /** `ftp://` is not one of the prefixes. */
  lemma FtpIsNotUrl(rest: string)
    ensures !IsUrlString("ftp://" + rest)
  {
    var s := "ftp://" + rest;
    assert s[0] == 'f' && s[1] == 't';
    assert !StartsWithIgnoringCase(s, "file://") by {
      StartsWithIgnoringCaseIff(s, "file://");
    }
  }

  //----------------------------------------------------------------------
  // Exemption on small trees
  //----------------------------------------------------------------------

  /** When no other listener lets the literal through, exemption is what the one listener decides. */
  lemma OnlyListener(t: Tree, o: Options, i: nat, l0: Listener)
    requires WellFormed(t) && i < |t|
    requires forall l :: l != l0 ==> !Selects(t, i, l)
    ensures Exempt(t, o, i) <==> ExemptBy(t, o, i, l0)
  {
    ExemptIffSomeListener(t, o, i);
    forall l | l != l0
      ensures !ExemptBy(t, o, i, l)
    {
      ExemptNeedsSelector(t, o, i, l);
    }
  }

  /** A literal at the top of the tree is never exempt: every selector needs a parent. */
  lemma RootNeverExempt(t: Tree, o: Options, i: nat)
    requires WellFormed(t) && i < |t| && t[i].parent.None?
    ensures !Exempt(t, o, i)
  {
    ExemptIffSomeListener(t, o, i);
    assert Ancestors(t, i) == [];
  }

  /** Under any enclosing call or `new` with an ignored callee, however far up, a literal is exempt. */
  lemma IgnoredCallExempts(t: Tree, o: Options, i: nat, a: nat)
    requires WellFormed(t) && i < |t|
    requires a in Ancestors(t, i) && IsIgnoredCallNode(o, t[a].kind)
    ensures Exempt(t, o, i)
  {
    ExemptIffSomeListener(t, o, i);
    assert ExemptBy(t, o, i, CallDescendant);
  }

  /** `const NAME = value`: the literal directly under a top-level declarator. */
  predicate UnderDeclarator(t: Tree, i: nat)
    requires WellFormed(t) && i < |t|
  {
    t[i].parent.Some? && t[t[i].parent.value].kind.Declarator? && t[t[i].parent.value].parent.None?
  }

  /** Under a top-level declarator only the declarator rule can exempt the literal. */
  lemma ExemptUnderDeclarator(t: Tree, o: Options, i: nat)
    requires WellFormed(t) && i < |t| && UnderDeclarator(t, i)
    ensures Exempt(t, o, i) <==> DeclaratorExempts(t[t[i].parent.value].kind.idName, ValueField(t[i].kind))
  {
    var d := t[i].parent.value;
    assert Ancestors(t, i) == [d];
    forall l | l != DeclaratorDescendant
      ensures !Selects(t, i, l)
    {
    }
    OnlyListener(t, o, i, DeclaratorDescendant);
  }

  /** `<tag attribute="...">`: the literal is an attribute value on a top-level opening element. */
  predicate OnTopLevelAttribute(t: Tree, i: nat)
    requires WellFormed(t) && i < |t|
  {
    && t[i].parent.Some? && t[t[i].parent.value].kind.JsxAttribute?
    && var a := t[i].parent.value;
       t[a].parent.Some? && t[t[a].parent.value].parent.None?
  }

  /** The ancestors of such a literal: the attribute, then the opening element. */
  lemma AttributeChain(t: Tree, i: nat)
    requires WellFormed(t) && i < |t| && OnTopLevelAttribute(t, i)
    ensures var a := t[i].parent.value;
      && Ancestors(t, i) == [a, t[a].parent.value]
      && NearestOfType(t, i, JSXAttribute) == Some(a)
      && NearestOfType(t, i, JSXOpeningElement) == t[a].parent
  {
    var a := t[i].parent.value;
    var e := t[a].parent.value;
    assert t[e].kind.JsxOpeningElement?;
    assert Chain(t, Some(e)) == [e];
  }

  /** Such a literal has an attribute parent and an opening element above it, and nothing else. */
  lemma AttributeAncestorTypes(t: Tree, i: nat)
    requires WellFormed(t) && i < |t| && OnTopLevelAttribute(t, i)
    ensures forall ty :: HasAncestorOfType(t, i, ty) ==> ty == JSXAttribute || ty == JSXOpeningElement
    ensures forall ty :: ParentHasType(t, i, ty) ==> ty == JSXAttribute
  {
    AttributeChain(t, i);
    var a := t[i].parent.value;
    assert TypeOf(t[a].kind) == JSXAttribute && TypeOf(t[t[a].parent.value].kind) == JSXOpeningElement;
  }

  /** On such an attribute no selector but the attribute one matches. */
  lemma OnlyAttributeSelector(t: Tree, i: nat)
    requires WellFormed(t) && i < |t| && OnTopLevelAttribute(t, i)
    ensures forall l :: l != JsxAttributeDescendant ==> !Selects(t, i, l)
  {
    AttributeAncestorTypes(t, i);
  }

  /** On such an attribute only the attribute policy can exempt the literal. */
  lemma ExemptOnAttribute(t: Tree, o: Options, i: nat)
    requires WellFormed(t) && i < |t| && OnTopLevelAttribute(t, i)
    ensures var a := t[i].parent.value;
      Exempt(t, o, i) <==> AttributeExempt(o, t[t[a].parent.value].kind.tagName, t[a].kind.name)
  {
    AttributeChain(t, i);
    OnlyAttributeSelector(t, i);
    OnlyListener(t, o, i, JsxAttributeDescendant);
  }

  /** `{ key: value }`: the literal is the value of a top-level property. */
  predicate InTopLevelProperty(t: Tree, i: nat)
    requires WellFormed(t) && i < |t|
  {
    t[i].parent.Some? && t[t[i].parent.value].kind.Prop? && t[t[i].parent.value].parent.None?
  }

  /** Inside such a property only the object-key rule can exempt the literal. */
  lemma ExemptInProperty(t: Tree, o: Options, i: nat)
    requires WellFormed(t) && i < |t| && InTopLevelProperty(t, i)
    ensures Exempt(t, o, i) <==> PropertyExempts(o, t[t[i].parent.value].kind, ValueField(t[i].kind))
  {
    var p := t[i].parent.value;
    assert Ancestors(t, i) == [p];
    forall l | l != PropertyDescendant
      ensures !Selects(t, i, l)
    {
    }
    OnlyListener(t, o, i, PropertyDescendant);
  }

  //----------------------------------------------------------------------
  // Examples
  //----------------------------------------------------------------------

  /** Text the exit handler does not skip: a string with no whitespace at its ends that is not a URL. */
  lemma PlainTextNotSkipped(s: string)
    requires s != [] && !IsJsWhitespace(s[0]) && !IsJsWhitespace(s[|s| - 1])
    requires !IsUrlString(s)
    ensures !ExitSkips(Lit(Str(s)))
  {
    TrimKeepsInner(s);
  }

  /** The texts of the examples below are not skipped by the exit handler. */
  lemma GreetingNotSkipped()
    ensures !ExitSkips(Lit(Str("Hello there!")))
  {
    PlainTextNotSkipped("Hello there!");
  }

  lemma BarNotSkipped()
    ensures !ExitSkips(Lit(Str("BAR")))
  {
    PlainTextNotSkipped("BAR");
  }

  lemma ImageNotSkipped()
    ensures !ExitSkips(Lit(Str("image")))
  {
    PlainTextNotSkipped("image");
  }

  /** Both name and value must be SCREAMING_CASE, unless the name starts with `NON_DISPLAY_`. */
  lemma DeclaratorExamples()
    ensures !DeclaratorExempts(Some("MESSAGE"), Str("Hello there!"))
    ensures DeclaratorExempts(Some("FOO"), Str("BAR"))
    ensures !DeclaratorExempts(Some("foo"), Str("BAR"))
    ensures DeclaratorExempts(Some("NON_DISPLAY_GREETING"), Str("Hello there!"))
    ensures !DeclaratorExempts(None, Str("BAR"))
  {
    assert !IsUpperCase("Hello there!") by {
      assert !('A' <= "Hello there!"[1] <= 'Z');
    }
    assert !IsUpperCase("foo") by {
      assert !('A' <= "foo"[0] <= 'Z');
    }
    assert "NON_DISPLAY_GREETING"[..12] == "NON_DISPLAY_";
  }

  /** `const NAME = 'value'` as a two-node tree. */
  function DeclaratorTree(name: string, value: string): (t: Tree)
    ensures WellFormed(t) && |t| == 2 && UnderDeclarator(t, 1)
    ensures t[1].kind == Lit(Str(value)) && t[0].kind.idName == Some(name)
  {
    [Node(Declarator(Some(name)), None), Node(Lit(Str(value)), Some(0))]
  }

  /** `const MESSAGE = 'Hello there!'` is reported: the value is not SCREAMING_CASE. */
  lemma MessageConstantReported()
    ensures ShouldReport(DeclaratorTree("MESSAGE", "Hello there!"), NoOptions, 1)
  {
    ExemptUnderDeclarator(DeclaratorTree("MESSAGE", "Hello there!"), NoOptions, 1);
    DeclaratorExamples();
    GreetingNotSkipped();
  }

  /** `const FOO = 'BAR'` is exempt: name and value are both SCREAMING_CASE. */
  lemma ScreamingConstantExempt()
    ensures Exempt(DeclaratorTree("FOO", "BAR"), NoOptions, 1)
  {
    ExemptUnderDeclarator(DeclaratorTree("FOO", "BAR"), NoOptions, 1);
    DeclaratorExamples();
  }

  /** `const foo = 'BAR'` is reported: the name is not SCREAMING_CASE. */
  lemma LowerCaseConstantReported()
    ensures ShouldReport(DeclaratorTree("foo", "BAR"), NoOptions, 1)
  {
    ExemptUnderDeclarator(DeclaratorTree("foo", "BAR"), NoOptions, 1);
    DeclaratorExamples();
    BarNotSkipped();
  }

  /** `const NON_DISPLAY_GREETING = 'Hello there!'` is exempt whatever the value. */
  lemma NonDisplayConstantExempt()
    ensures Exempt(DeclaratorTree("NON_DISPLAY_GREETING", "Hello there!"), NoOptions, 1)
  {
    ExemptUnderDeclarator(DeclaratorTree("NON_DISPLAY_GREETING", "Hello there!"), NoOptions, 1);
    DeclaratorExamples();
  }

  /** A template as the only node of a tree. */
  function TemplateTree(quasis: seq<string>, expressions: nat): (t: Tree)
    ensures WellFormed(t) && |t| == 1 && t[0].kind == Template(quasis, expressions) && t[0].parent.None?
  {
    [Node(Template(quasis, expressions), None)]
  }

  /** `${number}` on its own is let through; `${number}${letter}` is reported. */
  lemma TemplateExamples()
    ensures !ShouldReport(TemplateTree(["", ""], 1), NoOptions, 0)
    ensures ShouldReport(TemplateTree(["", "", ""], 2), NoOptions, 0)
  {
    RootNeverExempt(TemplateTree(["", "", ""], 2), NoOptions, 0);
    assert !IsBareTemplate(Template(["", "", ""], 2));
  }

  /** `<tag attribute="image" />` as a three-node tree. */
  function AttributeTree(tag: string, attribute: string): (t: Tree)
    ensures WellFormed(t) && |t| == 3 && OnTopLevelAttribute(t, 2)
    ensures t[1].kind == JsxAttribute(attribute) && t[0].kind == JsxOpeningElement(Some(tag))
    ensures t[2].parent == Some(1) && t[1].parent == Some(0)
  {
    [Node(JsxOpeningElement(Some(tag)), None), Node(JsxAttribute(attribute), Some(0)), Node(Lit(Str("image")), Some(1))]
  }

  /** Both words of the style pattern begin with a capital `C` or `S`: a name without one never matches it. */
  lemma NoStylePattern(attribute: string)
    requires forall k :: 0 <= k < |attribute| ==> attribute[k] != 'C' && attribute[k] != 'S'
    ensures !MatchesIgnoredAttributePattern(attribute)
  {
    forall k | 1 <= k < |attribute|
      ensures !StartsWith(attribute[k..], "ClassName") && !StartsWith(attribute[k..], "Style")
    {
      assert attribute[k..][0] == attribute[k];
    }
  }

  /** On a plain tag, a flagged pair is not let through: `<img alt>`. */
  lemma ImageAltFlagged()
    ensures !AttributeExempt(NoOptions, Some("img"), "alt")
  {
    assert FindIncludedAttributes(FlaggedJsxAttributesAndElements, Some("img"), "alt") by {
      assert "img" in FlaggedJsxAttributesAndElements[1].elements;
    }
    NoStylePattern("alt");
  }

  /** By default a flagged attribute (`aria-label`, `title`, ...) is not let through on any tag, nor on a member-expression tag. */
  lemma FlaggedAttributeOnAnyTag(tag: Option<string>, attribute: string)
    requires attribute in FlaggedJsxAttributes
    ensures !AttributeExempt(NoOptions, tag, attribute)
  {
    NoStylePattern(attribute);
  }

  /** `<button value>` is a flagged pair. */
  lemma ButtonValueFlagged()
    ensures !AttributeExempt(NoOptions, Some("button"), "value")
  {
    assert FindIncludedAttributes(FlaggedJsxAttributesAndElements, Some("button"), "value") by {
      assert "button" in FlaggedJsxAttributesAndElements[0].elements;
    }
    NoStylePattern("value");
  }

  /** `<img alt="image">` is reported. */
  lemma ImageAltReported()
    ensures ShouldReport(AttributeTree("img", "alt"), NoOptions, 2)
  {
    ExemptOnAttribute(AttributeTree("img", "alt"), NoOptions, 2);
    ImageAltFlagged();
    ImageNotSkipped();
  }

  /**
   * A capital letter anywhere in the tag name makes a component: by default
   * only the ignored attributes and style-like names are let through on it.
   */
  lemma ComponentAttributes(tag: string, attribute: string)
    requires HasUpperCaseLetter(tag)
    ensures AttributeExempt(NoOptions, Some(tag), attribute) <==>
      attribute in IgnoredJsxAttributes || MatchesIgnoredAttributePattern(attribute)
  {
  }

  /** Unflagged attributes of plain tags, ignored attributes and style-like names are let through. */
  lemma ExemptAttributes()
    ensures AttributeExempt(NoOptions, Some("div"), "name")
    ensures AttributeExempt(NoOptions, Some("Icon"), "className")
    ensures AttributeExempt(NoOptions, Some("Icon"), "iconClassName")
  {
    assert !HasUpperCaseLetter("div") by {
      forall k | 0 <= k < 3 ensures !('A' <= "div"[k] <= 'Z') { }
    }
    assert "iconClassName"[4..] == "ClassName";
  }

  /** `{ key: value }` with an identifier key. */
  function PropertyTree(key: string, value: NodeKind): (t: Tree)
    requires IsText(value)
    ensures WellFormed(t) && |t| == 2 && InTopLevelProperty(t, 1)
    ensures t[0].kind == Prop(Some(key), Undefined) && t[1].kind == value
  {
    [Node(Prop(Some(key), Undefined), None), Node(value, Some(0))]
  }

  /**
   * Under an identifier key, a template is exempt (the key's `value` and the
   * template's `value` are both `undefined`) while a string literal is not,
   * unless the key is ignored.
   */
  lemma PropertyExamples()
    ensures Exempt(PropertyTree("label", Template(["Hello ", ""], 1)), NoOptions, 1)
    ensures !Exempt(PropertyTree("label", Lit(Str("Hello"))), NoOptions, 1)
    ensures Exempt(PropertyTree("key", Lit(Str("Hello"))), NoOptions, 1)
  {
    ExemptInProperty(PropertyTree("label", Template(["Hello ", ""], 1)), NoOptions, 1);
    ExemptInProperty(PropertyTree("label", Lit(Str("Hello"))), NoOptions, 1);
    ExemptInProperty(PropertyTree("key", Lit(Str("Hello"))), NoOptions, 1);
  }

  //----------------------------------------------------------------------
  // Ignored callees
  //----------------------------------------------------------------------

  /** The object name is the first identifier property of the callee's object, or the object itself. */
  lemma ObjectCalleeExamples()
    ensures CalleeIgnoredBy(NoOptions, Member(Ident("document"), Ident("querySelector")))
    ensures CalleeIgnoredBy(NoOptions, Member(Member(Ident("window"), Ident("document")), Ident("createElement")))
  {
    assert EntryMatches(IgnoredFunctionsObjects[0], Some("document"), Some("querySelector"));
    assert EntryMatches(IgnoredFunctionsObjects[0], Some("document"), Some("createElement"));
  }

  /** A member outside the table, or a table member reached through another object name, is not ignored. */
  lemma UnlistedCalleeExamples()
    ensures !CalleeIgnoredBy(NoOptions, Member(Ident("document"), Ident("write")))
    ensures !CalleeIgnoredBy(NoOptions, Member(Member(Ident("document"), Ident("body")), Ident("querySelector")))
  {
  }

  /**
   * Whatever the options and the object: a native string method, a name of
   * `ignoreFunctions` called as a member or directly, `require`, `t` and
   * dynamic `import()` are ignored callees.
   */
  lemma IgnoredCalleeNames(o: Options, obj: Expr, name: string)
    ensures name in IgnoredNativeFunctions ==> CalleeIgnoredBy(o, Member(obj, Ident(name)))
    ensures name in o.ignoreFunctions ==> CalleeIgnoredBy(o, Member(obj, Ident(name)))
    ensures name in IgnoredFunctions || name in o.ignoreFunctions <==> CalleeIgnoredBy(o, Ident(name))
    ensures CalleeIgnoredBy(o, ImportExpr)
  {
  }

  /** Native string methods, dynamic `import()` and the default function names are ignored. */
  lemma OtherCalleeExamples()
    ensures CalleeIgnoredBy(NoOptions, Member(Ident("name"), Ident("includes")))
    ensures CalleeIgnoredBy(NoOptions, ImportExpr)
    ensures CalleeIgnoredBy(NoOptions, Ident("t")) && !CalleeIgnoredBy(NoOptions, Ident("alert"))
  {
  }

  /** An entry without `functions` covers every member of each of its objects, however the object is reached. */
  lemma EntryWithoutFunctions(o: Options, e: FunctionsOnObjects, obj: Expr, property: Expr)
    requires e in o.ignoreFunctionsOnObjects && e.functions.None?
    requires ObjectNameOf(obj).Some? && ObjectNameOf(obj).value in e.objects
    ensures CalleeIgnoredBy(o, Member(obj, property))
  {
    var k :| 0 <= k < |o.ignoreFunctionsOnObjects| && o.ignoreFunctionsOnObjects[k] == e;
    assert EntryMatches(o.ignoreFunctionsOnObjects[k], ObjectNameOf(obj), NameOf(property));
  }

  /** An entry with `functions` covers each of those functions on each of its objects. */
  lemma EntryWithFunctions(o: Options, e: FunctionsOnObjects, obj: Expr, name: string)
    requires e in o.ignoreFunctionsOnObjects && e.functions.Some? && name in e.functions.value
    requires ObjectNameOf(obj).Some? && ObjectNameOf(obj).value in e.objects
    ensures CalleeIgnoredBy(o, Member(obj, Ident(name)))
  {
    var k :| 0 <= k < |o.ignoreFunctionsOnObjects| && o.ignoreFunctionsOnObjects[k] == e;
    assert EntryMatches(o.ignoreFunctionsOnObjects[k], ObjectNameOf(obj), Some(name));
  }

  /** An entry with `functions` needs both names: `logger.info` is covered, `logger.warn` and `console.info` are not. */
  lemma EntryWithFunctionsExamples()
    ensures var o := NoOptions.(ignoreFunctionsOnObjects := [FunctionsOnObjects(["logger"], Some(["info"]))]);
      && CalleeIgnoredBy(o, Member(Ident("logger"), Ident("info")))
      && !CalleeIgnoredBy(o, Member(Ident("logger"), Ident("warn")))
      && !CalleeIgnoredBy(o, Member(Ident("console"), Ident("info")))
  {
    var o := NoOptions.(ignoreFunctionsOnObjects := [FunctionsOnObjects(["logger"], Some(["info"]))]);
    assert EntryMatches(o.ignoreFunctionsOnObjects[0], Some("logger"), Some("info"));
  }
}

/**
 * The `no-dynamic-translation-keys` rule: the first argument of a
 * translation call must be a static key, a literal or a template without
 * embedded expressions.
 */
module NoDynamicTranslationKeys {
  import opened Wrappers
  import opened JsValues
  import opened Syntax

  const ErrorMessage := "Dynamic value used as translation key"

  /** The rule's options; `functionNames` is empty when it is not given. */
  datatype Options = Options(functionNames: seq<string>)

  /** The name a call is known by: the property's name for `obj.name(...)`, the identifier's otherwise. */
  function CalleeName(callee: Expr): (name: Option<string>)
    ensures callee.Ident? ==> name == Some(callee.name)
    ensures callee.Member? ==> name == NameOf(callee.property)
    ensures !callee.Ident? && !callee.Member? ==> name.None?
  {
    match callee
    case Member(_, property) => NameOf(property)
    case _ => NameOf(callee)
  }

  /** Calls of `t` or of a configured function name are translation calls. */
  predicate IsTranslationCallee(o: Options, callee: Expr) {
    var name := CalleeName(callee);
    name.Some? && (name.value == "t" || name.value in o.functionNames)
  }

  /** A key whose text is known statically: a literal, or a template with no expressions. */
  predicate IsStaticKey(a: Arg) {
    a.ArgLiteral? || (a.ArgTemplate? && a.expressions == 0)
  }

  /**
   * The `CallExpression` handler: at most one report, anchored on the call,
   * exactly when a translation call's first argument is missing or not a
   * static key.
   */
  function Check(o: Options, node: nat, callee: Expr, arguments: seq<Arg>): (ds: seq<Diagnostic>)
    ensures |ds| <= 1
    ensures forall d :: d in ds ==> d == Diagnostic(node, ErrorMessage)
    ensures ds != [] <==> IsTranslationCallee(o, callee) && (arguments == [] || !IsStaticKey(arguments[0]))
  {
    var name := CalleeName(callee);
    if name.None? || (name.value != "t" && name.value !in o.functionNames) then []
    else if |arguments| > 0 && arguments[0].ArgLiteral? then []
    else if |arguments| > 0 && arguments[0].ArgTemplate? && arguments[0].expressions == 0 then []
    else [Diagnostic(node, ErrorMessage)]
  }

  /** The handler applied to a call node of the tree. */
  function OnCall(o: Options, t: Tree, i: nat): seq<Diagnostic>
    requires i < |t| && t[i].kind.Call?
  {
    Check(o, i, t[i].kind.callee, t[i].kind.arguments)
  }

  // ---------------------------------------------------------------------
  // Properties
  // ---------------------------------------------------------------------

  /** Only the first argument decides: the values passed after the key do not matter. */
  lemma OnlyFirstArgument(o: Options, node: nat, callee: Expr, key: Arg, rest: seq<Arg>, rest': seq<Arg>)
    ensures Check(o, node, callee, [key] + rest) == Check(o, node, callee, [key] + rest')
  {
  }

  /** A call whose callee has no name (`getT()(key)`, `fns[0](key)`) is never reported. */
  lemma UnnamedNeverReported(o: Options, node: nat, callee: Expr, arguments: seq<Arg>)
    requires CalleeName(callee).None?
    ensures Check(o, node, callee, arguments) == []
  {
  }

  /** A translation call with no argument at all is reported: there is no static key. */
  lemma NoArgumentReported(o: Options, node: nat, callee: Expr)
    requires IsTranslationCallee(o, callee)
    ensures Check(o, node, callee, []) == [Diagnostic(node, ErrorMessage)]
  {
  }

  /** Any literal is a static key, whatever its value. */
  lemma LiteralAccepted(o: Options, node: nat, callee: Expr, v: JsValue, rest: seq<Arg>)
    ensures Check(o, node, callee, [ArgLiteral(v)] + rest) == []
  {
  }

  /** A template is a static key exactly when it embeds no expression. */
  lemma TemplateAcceptedIffNoExpressions(o: Options, node: nat, callee: Expr, expressions: nat, rest: seq<Arg>)
    requires IsTranslationCallee(o, callee)
    ensures Check(o, node, callee, [ArgTemplate(expressions)] + rest) == [] <==> expressions == 0
  {
  }

  /** The callee's object path plays no part: only the last property's name counts. */
  lemma ObjectPathIgnored(o: Options, node: nat, obj: Expr, obj': Expr, property: Expr, arguments: seq<Arg>)
    ensures Check(o, node, Member(obj, property), arguments) == Check(o, node, Member(obj', property), arguments)
  {
  }

  /** `utils.i18.next.t(key)` is reported, and `i18n.translate('Hello {{name}}', ...)` accepted once `translate` is configured. */
  lemma MemberCalleeExamples(node: nat)
    ensures var callee := Member(Member(Member(Ident("utils"), Ident("i18")), Ident("next")), Ident("t"));
      Check(Options([]), node, callee, [ArgIdentifier("key")]) == [Diagnostic(node, ErrorMessage)]
    ensures Check(Options(["translate"]), node, Member(Ident("i18n"), Ident("translate")),
                  [ArgLiteral(Str("Hello {{name}}")), ArgObject([KeyedMember(Some("name"))])]) == []
  {
  }

  /** `t(key)`, `t(...keys)`, `` t(`Hello ${name}`) `` and `t('Hello' + ' there!')` are reported; `someFunction(arg)` is not without options. */
  lemma DynamicKeyExamples(node: nat)
    ensures Check(Options([]), node, Ident("t"), [ArgIdentifier("key")]) != []
    ensures Check(Options([]), node, Ident("t"), [ArgSpread]) != []
    ensures Check(Options([]), node, Ident("t"), [ArgTemplate(1)]) != []
    ensures Check(Options([]), node, Ident("t"), [ArgOther]) != []
    ensures Check(Options([]), node, Ident("someFunction"), [ArgIdentifier("arg")]) == []
    ensures Check(Options(["translate"]), node, Ident("translate"), [ArgIdentifier("greeting")]) != []
  {
  }
}

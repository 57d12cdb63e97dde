/**
 * The no-string-literal rule's tables, helpers and exemption predicates,
 * as pure functions of the tree, the options and a node. Each `Exempt...`
 * predicate is what one entry handler decides (its selector and its
 * condition); `Exempt` is their disjunction, and `ShouldReport` is the
 * exit handler's verdict.
 */
module NoStringLiteral {
  import opened Wrappers
  import opened JsValues
  import opened Syntax
  import Utils

  const ErrorMessage := "String literal not allowed"

  const ComparisonOperators: seq<string> := ["===", "!==", "==", "!=", "<", ">", "<=", ">="]
  const IgnoreComponentNames: seq<string> := ["Trans"]
  const IgnoredClassProperties: seq<string> := ["displayName"]
  const IgnoredFunctions: seq<string> := ["require", "t"]
  const IgnoreObjectKeys: seq<string> := ["id", "key"]
  const IgnoredNativeFunctions: seq<string> :=
    ["includes", "startsWith", "endsWith", "indexOf", "lastIndexOf", "join", "split", "replace"]

  /** An `ignoreFunctionsOnObjects` entry; without `functions` it covers every member of the objects. */
  datatype FunctionsOnObjects = FunctionsOnObjects(objects: seq<string>, functions: Option<seq<string>>)

  const IgnoredFunctionsObjects: seq<FunctionsOnObjects> := [
    FunctionsOnObjects(["document"], Some(["getElementById", "getElementsByClassName",
      "getElementsByTagName", "querySelector", "querySelectorAll", "createElement"])),
    FunctionsOnObjects(["window"], Some(["postMessage", "addEventListener", "removeEventListener"])),
    FunctionsOnObjects(["performance"], Some(["mark", "measure", "clearMarks", "getEntriesByName",
      "getEntriesByType", "clearMeasures"])),
    FunctionsOnObjects(["localStorage"], Some(["getItem", "setItem"])),
    FunctionsOnObjects(["Intl"], Some(["DateTimeFormat", "NumberFormat", "ListFormat", "RelativeTimeFormat"])),
    FunctionsOnObjects(["React"], Some(["createElement"]))
  ]

  const ButtonIgnoredAttributes: seq<string> := ["type", "for", "form", "name"]
  const InputIgnoredAttributes: seq<string> :=
    ["type", "autoComplete", "form", "name", "tabIndex", "list", "minLength", "maxLength",
     "size", "pattern", "min", "max", "step"]
  const LinkIgnoredAttributes: seq<string> := ["target", "rel", "to"]
  const IgnoredJsxAttributes: seq<string> :=
    ["id", "className", "tabIndex", "aria-labelledby", "style", "styles", "role", "key"]
  const FlaggedJsxAttributes: seq<string> := ["aria-label", "aria-placeholder", "aria-valuetext", "title"]

  /** An entry pairing elements with attributes (`ignoreAttributesOnElements` and the flagged pairs). */
  datatype AttributesOnElements = AttributesOnElements(attributes: seq<string>, elements: seq<string>)

  const FlaggedJsxAttributesAndElements: seq<AttributesOnElements> := [
    AttributesOnElements(["value"], ["button"]),
    AttributesOnElements(["alt"], ["img"]),
    AttributesOnElements(["value", "placeholder"], ["input"]),
    AttributesOnElements(["label"], ["option"]),
    AttributesOnElements(["placeholder"], ["textarea"])
  ]

  /** The rule's options; an option that is not given is the empty list. */
  datatype Options = Options(
    ignoreFunctions: seq<string>,
    ignoreFunctionsOnObjects: seq<FunctionsOnObjects>,
    ignoreAttributesOnElements: seq<AttributesOnElements>,
    ignoreAttributes: seq<string>,
    ignoreObjectKeys: seq<string>,
    buttonComponents: seq<string>,
    inputComponents: seq<string>,
    linkComponents: seq<string>)

  const NoOptions := Options([], [], [], [], [], [], [], [])

  //----------------------------------------------------------------------
  // Helpers
  //----------------------------------------------------------------------

  /** `/^[A-Z_-]+$/`: non-empty, and only capitals, underscores and dashes. */
  predicate IsUpperCase(s: string) {
    |s| > 0 && forall k :: 0 <= k < |s| ==> ('A' <= s[k] <= 'Z' || s[k] == '_' || s[k] == '-')
  }

  /**
   * `isUpperCase(node.value)`: the regex tests the value's string form; the
   * form of a number, a boolean, `null`, `undefined` or a regex literal
   * always holds a character outside `[A-Z_-]`, so only strings can pass.
   */
  predicate IsUpperCaseValue(v: JsValue) {
    v.Str? && IsUpperCase(v.s)
  }

  /** `/[A-Z]/`: some capital letter anywhere in the string. */
  predicate HasUpperCaseLetter(s: string) {
    exists k :: 0 <= k < |s| && 'A' <= s[k] <= 'Z'
  }

  /**
   * `isFirstLetterUpperCase(jsxTag.name.name)`: despite its name, true when
   * ANY letter of the tag name is a capital. A member-expression tag has no
   * `name.name`, and the string "undefined" has no capital.
   */
  predicate IsFirstLetterUpperCase(tagName: Option<string>) {
    tagName.Some? && HasUpperCaseLetter(tagName.value)
  }

  /** `isIgnoredClassProperty(parent)`: a `displayName` class property or assignment. */
  predicate IsIgnoredClassProperty(k: NodeKind) {
    match k
    case ClassProp(keyName) => keyName.Some? && keyName.value in IgnoredClassProperties
    case Assign(left) => left.Some? && left.value in IgnoredClassProperties
    case _ => false
  }

  /**
   * The object name `findIgnoreCallees` settles on, starting from
   * `callee.obj`: step to `.property` while there is one, stopping at the
   * first identifier, then take `.name`.
   */
  function ObjectNameOf(e: Expr): Option<string> {
    match e
    case Member(_, p) => if p.Ident? then Some(p.name) else ObjectNameOf(p)
    case Ident(n) => Some(n)
    case _ => None
  }

  /** One entry of an object/function ignore list matches the object name and member name. */
  predicate EntryMatches(entry: FunctionsOnObjects, objectName: Option<string>, propertyName: Option<string>) {
    && objectName.Some? && objectName.value in entry.objects
    && (entry.functions.Some? ==> propertyName.Some? && propertyName.value in entry.functions.value)
  }

  /** `findIgnoreCallees(entries, callee)` finds an entry. */
  predicate MatchesAnyEntry(entries: seq<FunctionsOnObjects>, callee: Expr)
    requires callee.Member?
  {
    exists k :: 0 <= k < |entries| && EntryMatches(entries[k], ObjectNameOf(callee.obj), NameOf(callee.property))
  }

  /** The ignored-callee policy of `isIgnoredCallee`. */
  predicate CalleeIgnoredBy(o: Options, callee: Expr) {
    match callee
    case Ident(n) => n in IgnoredFunctions || n in o.ignoreFunctions
    case Member(_, p) =>
      || MatchesAnyEntry(IgnoredFunctionsObjects, callee)
      || MatchesAnyEntry(o.ignoreFunctionsOnObjects, callee)
      || (p.Ident? && p.name in IgnoredNativeFunctions)
      || (p.Ident? && p.name in o.ignoreFunctions)
    case ImportExpr => true
    case _ => false
  }

  /** `findIncludedAttributes(pairs, jsxTag, parent)` finds an entry. */
  predicate FindIncludedAttributes(pairs: seq<AttributesOnElements>, tagName: Option<string>, attribute: string) {
    exists k :: 0 <= k < |pairs| && tagName.Some? && tagName.value in pairs[k].elements && attribute in pairs[k].attributes
  }

  /** `isIgnoredAttribute(components, attributes, jsxTag, parent)`. */
  predicate IsIgnoredAttribute(components: seq<string>, attributes: seq<string>, tagName: Option<string>, attribute: string) {
    tagName.Some? && tagName.value in components && attribute in attributes
  }

  predicate IsLineTerminator(c: char) {
    c == '\n' || c == '\r' || c == '\U{2028}' || c == '\U{2029}'
  }

  /** `/.+(ClassName|Style|Styles)/` finds a match: a non-line-break character followed by `ClassName` or `Style`. */
  predicate MatchesIgnoredAttributePattern(attribute: string) {
    exists k :: 1 <= k < |attribute| && !IsLineTerminator(attribute[k - 1])
      && (StartsWith(attribute[k..], "ClassName") || StartsWith(attribute[k..], "Style"))
  }

  /** The attribute policy of the `JSXAttribute` handler, its three branches joined. */
  predicate AttributeExempt(o: Options, tagName: Option<string>, attribute: string) {
    var defaultFlagged := FindIncludedAttributes(FlaggedJsxAttributesAndElements, tagName, attribute);
    var optionIgnore := FindIncludedAttributes(o.ignoreAttributesOnElements, tagName, attribute);
    var validHtmlAttribute :=
      attribute !in FlaggedJsxAttributes && !defaultFlagged && !IsFirstLetterUpperCase(tagName);
    || validHtmlAttribute || optionIgnore
    || attribute in IgnoredJsxAttributes || attribute in o.ignoreAttributes
    || MatchesIgnoredAttributePattern(attribute)
    || IsIgnoredAttribute(o.buttonComponents, ButtonIgnoredAttributes, tagName, attribute)
    || IsIgnoredAttribute(o.inputComponents, InputIgnoredAttributes, tagName, attribute)
    || IsIgnoredAttribute(o.linkComponents, LinkIgnoredAttributes, tagName, attribute)
  }

  /** The value test of the `VariableDeclarator` handler. */
  predicate DeclaratorExempts(idName: Option<string>, value: JsValue) {
    || (idName.Some? && IsUpperCase(idName.value) && IsUpperCaseValue(value))
    || (idName.Some? && StartsWith(idName.value, "NON_DISPLAY_"))
  }

  /** A call or `new` whose callee is ignored. */
  predicate IsIgnoredCallNode(o: Options, k: NodeKind) {
    (k.Call? || k.New?) && CalleeIgnoredBy(o, k.callee)
  }

  /** A `<Trans>` element. */
  predicate IsIgnoredComponent(k: NodeKind) {
    k.JsxElement? && k.tagName.Some? && k.tagName.value in IgnoreComponentNames
  }

  /** A property whose key is ignored, or whose key's value is strictly equal to `value`. */
  predicate PropertyExempts(o: Options, k: NodeKind, value: JsValue) {
    && k.Prop?
    && (|| (k.keyName.Some? && (k.keyName.value in IgnoreObjectKeys || k.keyName.value in o.ignoreObjectKeys))
        || StrictEquals(k.keyValue, value))
  }

  //----------------------------------------------------------------------
  // One predicate per entry handler
  //----------------------------------------------------------------------

  /** `AssignmentExpression :matches(Literal, TemplateLiteral)`. */
  predicate ExemptAsAssignedClassProperty(t: Tree, i: nat)
    requires WellFormed(t) && i < |t|
  {
    HasAncestorOfType(t, i, AssignmentExpression) && t[i].parent.Some? && IsIgnoredClassProperty(t[t[i].parent.value].kind)
  }

  /** `BinaryExpression > :matches(Literal, TemplateLiteral)`. */
  predicate ExemptAsComparisonOperand(t: Tree, i: nat)
    requires WellFormed(t) && i < |t|
  {
    ParentHasType(t, i, BinaryExpression) && t[t[i].parent.value].kind.operator in ComparisonOperators
  }

  /** `:matches(CallExpression, NewExpression) :matches(Literal, TemplateLiteral)`. */
  predicate ExemptByIgnoredCall(t: Tree, o: Options, i: nat)
    requires WellFormed(t) && i < |t|
  {
    exists a :: a in Ancestors(t, i) && IsIgnoredCallNode(o, t[a].kind)
  }

  /** `ClassProperty :matches(Literal, TemplateLiteral)`. */
  predicate ExemptAsClassPropertyValue(t: Tree, i: nat)
    requires WellFormed(t) && i < |t|
  {
    HasAncestorOfType(t, i, ClassProperty) && t[i].parent.Some? && IsIgnoredClassProperty(t[t[i].parent.value].kind)
  }

  /** `ExportAllDeclaration :matches(Literal, TemplateLiteral)`. */
  predicate ExemptInExportAll(t: Tree, i: nat)
    requires WellFormed(t) && i < |t|
  {
    HasAncestorOfType(t, i, ExportAllDeclaration)
  }

  /** `ExportNamedDeclaration > :matches(Literal, TemplateLiteral)`. */
  predicate ExemptAsExportSource(t: Tree, i: nat)
    requires WellFormed(t) && i < |t|
  {
    ParentHasType(t, i, ExportNamedDeclaration)
  }

  /** `ImportDeclaration :matches(Literal, TemplateLiteral)`. */
  predicate ExemptInImport(t: Tree, i: nat)
    requires WellFormed(t) && i < |t|
  {
    HasAncestorOfType(t, i, ImportDeclaration)
  }

  /** `JSXElement :matches(Literal, TemplateLiteral)`. */
  predicate ExemptInIgnoredComponent(t: Tree, i: nat)
    requires WellFormed(t) && i < |t|
  {
    exists a :: a in Ancestors(t, i) && IsIgnoredComponent(t[a].kind)
  }

  /** The tag name of the nearest opening element and the name of the nearest attribute. */
  function AttributeContext(t: Tree, i: nat): (r: (Option<string>, string))
    requires WellFormed(t) && i < |t|
    requires HasAncestorOfType(t, i, JSXAttribute)
  {
    AttributeHasOpeningElement(t, i);
    var tag := NearestOfType(t, i, JSXOpeningElement).value;
    var attribute := NearestOfType(t, i, JSXAttribute).value;
    JsxTypes(t[tag].kind);
    JsxTypes(t[attribute].kind);
    (t[tag].kind.tagName, t[attribute].kind.name)
  }

  /** `JSXAttribute :matches(Literal, TemplateLiteral)`. */
  predicate ExemptAsAttributeValue(t: Tree, o: Options, i: nat)
    requires WellFormed(t) && i < |t|
  {
    HasAncestorOfType(t, i, JSXAttribute) && AttributeExempt(o, AttributeContext(t, i).0, AttributeContext(t, i).1)
  }

  /** `MemberExpression > :matches(Literal, TemplateLiteral)`. */
  predicate ExemptAsMemberChild(t: Tree, i: nat)
    requires WellFormed(t) && i < |t|
  {
    ParentHasType(t, i, MemberExpression)
  }

  /** `Property :matches(Literal, TemplateLiteral)`. */
  predicate ExemptByObjectKey(t: Tree, o: Options, i: nat)
    requires WellFormed(t) && i < |t|
  {
    exists a :: a in Ancestors(t, i) && PropertyExempts(o, t[a].kind, ValueField(t[i].kind))
  }

  /** `SwitchCase > :matches(Literal, TemplateLiteral)`. */
  predicate ExemptAsSwitchCaseTest(t: Tree, i: nat)
    requires WellFormed(t) && i < |t|
  {
    ParentHasType(t, i, SwitchCase)
  }

  /** `TaggedTemplateExpression > TemplateLiteral`. */
  predicate ExemptByIgnoredTag(t: Tree, o: Options, i: nat)
    requires WellFormed(t) && i < |t|
  {
    t[i].kind.Template? && ParentHasType(t, i, TaggedTemplateExpression)
    && CalleeIgnoredBy(o, t[t[i].parent.value].kind.tag)
  }

  /** `VariableDeclarator :matches(Literal, TemplateLiteral)`. */
  predicate ExemptAsConstant(t: Tree, i: nat)
    requires WellFormed(t) && i < |t|
  {
    HasAncestorOfType(t, i, VariableDeclarator)
    && DeclaratorExempts(t[NearestOfType(t, i, VariableDeclarator).value].kind.idName, ValueField(t[i].kind))
  }

  /** The rule's entry listeners, one per selector. */
  datatype Listener =
    | AssignmentDescendant | ComparisonOperand | CallDescendant | ClassPropertyDescendant
    | ExportAllDescendant | ExportNamedChild | ImportDescendant | JsxElementDescendant
    | JsxAttributeDescendant | MemberChild | PropertyDescendant | SwitchCaseChild
    | TaggedTemplateChild | DeclaratorDescendant

  /** The listeners in the order the rule declares them. */
  const Listeners: seq<Listener> := [
    AssignmentDescendant, ComparisonOperand, CallDescendant, ClassPropertyDescendant,
    ExportAllDescendant, ExportNamedChild, ImportDescendant, JsxElementDescendant,
    JsxAttributeDescendant, MemberChild, PropertyDescendant, SwitchCaseChild,
    TaggedTemplateChild, DeclaratorDescendant]

  /** The listener's selector matches the literal or template `i`. */
  predicate Selects(t: Tree, i: nat, l: Listener)
    requires WellFormed(t) && i < |t|
  {
    match l
    case AssignmentDescendant => HasAncestorOfType(t, i, AssignmentExpression)
    case ComparisonOperand => ParentHasType(t, i, BinaryExpression)
    case CallDescendant => HasAncestorOfType(t, i, CallExpression) || HasAncestorOfType(t, i, NewExpression)
    case ClassPropertyDescendant => HasAncestorOfType(t, i, ClassProperty)
    case ExportAllDescendant => HasAncestorOfType(t, i, ExportAllDeclaration)
    case ExportNamedChild => ParentHasType(t, i, ExportNamedDeclaration)
    case ImportDescendant => HasAncestorOfType(t, i, ImportDeclaration)
    case JsxElementDescendant => HasAncestorOfType(t, i, JSXElement)
    case JsxAttributeDescendant => HasAncestorOfType(t, i, JSXAttribute)
    case MemberChild => ParentHasType(t, i, MemberExpression)
    case PropertyDescendant => HasAncestorOfType(t, i, Property)
    case SwitchCaseChild => ParentHasType(t, i, SwitchCase)
    case TaggedTemplateChild => t[i].kind.Template? && ParentHasType(t, i, TaggedTemplateExpression)
    case DeclaratorDescendant => HasAncestorOfType(t, i, VariableDeclarator)
  }

  /** The listener adds node `i` to `visited`. */
  predicate ExemptBy(t: Tree, o: Options, i: nat, l: Listener)
    requires WellFormed(t) && i < |t|
  {
    match l
    case AssignmentDescendant => ExemptAsAssignedClassProperty(t, i)
    case ComparisonOperand => ExemptAsComparisonOperand(t, i)
    case CallDescendant => ExemptByIgnoredCall(t, o, i)
    case ClassPropertyDescendant => ExemptAsClassPropertyValue(t, i)
    case ExportAllDescendant => ExemptInExportAll(t, i)
    case ExportNamedChild => ExemptAsExportSource(t, i)
    case ImportDescendant => ExemptInImport(t, i)
    case JsxElementDescendant => ExemptInIgnoredComponent(t, i)
    case JsxAttributeDescendant => ExemptAsAttributeValue(t, o, i)
    case MemberChild => ExemptAsMemberChild(t, i)
    case PropertyDescendant => ExemptByObjectKey(t, o, i)
    case SwitchCaseChild => ExemptAsSwitchCaseTest(t, i)
    case TaggedTemplateChild => ExemptByIgnoredTag(t, o, i)
    case DeclaratorDescendant => ExemptAsConstant(t, i)
  }

  /** The call handler only finds a call or `new` among the ancestors. */
  lemma CallWalkNeedsSelector(t: Tree, o: Options, i: nat)
    requires WellFormed(t) && i < |t|
    ensures ExemptByIgnoredCall(t, o, i) ==> HasAncestorOfType(t, i, CallExpression) || HasAncestorOfType(t, i, NewExpression)
  {
    if ExemptByIgnoredCall(t, o, i) {
      var a :| a in Ancestors(t, i) && IsIgnoredCallNode(o, t[a].kind);
      assert TypeOf(t[a].kind) == CallExpression || TypeOf(t[a].kind) == NewExpression;
    }
  }

  /** The `<Trans>` handler only finds a JSX element among the ancestors. */
  lemma ComponentWalkNeedsSelector(t: Tree, i: nat)
    requires WellFormed(t) && i < |t|
    ensures ExemptInIgnoredComponent(t, i) ==> HasAncestorOfType(t, i, JSXElement)
  {
    if ExemptInIgnoredComponent(t, i) {
      var a :| a in Ancestors(t, i) && IsIgnoredComponent(t[a].kind);
      assert TypeOf(t[a].kind) == JSXElement;
    }
  }

  /** The object-key handler only finds a property among the ancestors. */
  lemma PropertyWalkNeedsSelector(t: Tree, o: Options, i: nat)
    requires WellFormed(t) && i < |t|
    ensures ExemptByObjectKey(t, o, i) ==> HasAncestorOfType(t, i, Property)
  {
    if ExemptByObjectKey(t, o, i) {
      var a :| a in Ancestors(t, i) && PropertyExempts(o, t[a].kind, ValueField(t[i].kind));
      assert TypeOf(t[a].kind) == Property;
    }
  }

  /** A listener only lets through literals its selector matches. */
  lemma ExemptNeedsSelector(t: Tree, o: Options, i: nat, l: Listener)
    requires WellFormed(t) && i < |t|
    ensures ExemptBy(t, o, i, l) ==> Selects(t, i, l)
  {
    CallWalkNeedsSelector(t, o, i);
    ComponentWalkNeedsSelector(t, i);
    PropertyWalkNeedsSelector(t, o, i);
  }

  /** Some listener of `ls` adds the node to `visited`. */
  predicate ExemptAmong(t: Tree, o: Options, i: nat, ls: seq<Listener>)
    requires WellFormed(t) && i < |t|
    decreases |ls|
  {
    && |ls| > 0
    && (ExemptAmong(t, o, i, ls[..|ls| - 1]) || ExemptBy(t, o, i, ls[|ls| - 1]))
  }

  /** Some entry listener of the rule adds the node to `visited`. */
  predicate Exempt(t: Tree, o: Options, i: nat)
    requires WellFormed(t) && i < |t|
  {
    ExemptAmong(t, o, i, Listeners)
  }

  /** `ExemptAmong` is "some listener of the list exempts the node". */
  lemma {:induction false} ExemptAmongIff(t: Tree, o: Options, i: nat, ls: seq<Listener>)
    requires WellFormed(t) && i < |t|
    ensures ExemptAmong(t, o, i, ls) <==> exists k :: 0 <= k < |ls| && ExemptBy(t, o, i, ls[k])
    decreases |ls|
  {
    if |ls| > 0 {
      var n := |ls| - 1;
      ExemptAmongIff(t, o, i, ls[..n]);
      if ExemptAmong(t, o, i, ls[..n]) {
        var k :| 0 <= k < n && ExemptBy(t, o, i, ls[..n][k]);
        assert ls[..n][k] == ls[k];
      }
      if exists k :: 0 <= k < |ls| && ExemptBy(t, o, i, ls[k]) {
        var k :| 0 <= k < |ls| && ExemptBy(t, o, i, ls[k]);
        if k < n {
          assert ls[..n][k] == ls[k];
        }
      }
    }
  }

  /** `Listeners` names every listener. */
  lemma ListenersComplete(l: Listener)
    ensures l in Listeners
  {
  }

  /** A literal is exempt exactly when one of the rule's listeners lets it through. */
  lemma ExemptIffSomeListener(t: Tree, o: Options, i: nat)
    requires WellFormed(t) && i < |t|
    ensures Exempt(t, o, i) <==> exists l :: ExemptBy(t, o, i, l)
  {
    ExemptAmongIff(t, o, i, Listeners);
    forall l | ExemptBy(t, o, i, l)
      ensures exists k :: 0 <= k < |Listeners| && ExemptBy(t, o, i, Listeners[k])
    {
      ListenersComplete(l);
    }
  }

  /** The literals some listener lets through. */
  ghost function ExemptNodes(t: Tree, o: Options): set<nat>
    requires WellFormed(t)
  {
    set j | 0 <= j < |t| && IsText(t[j].kind) && Exempt(t, o, j)
  }

  //----------------------------------------------------------------------
  // The exit handler
  //----------------------------------------------------------------------

  /** A value the exit handler lets through: a blank string, or anything defined that is not a string. */
  predicate SkipsValue(v: JsValue) {
    (v.Str? && Trim(v.s) == []) || (!v.Undefined? && !v.Str?)
  }

  /** `/^https?:\/\/|^\/\/|^tel:|^mailto:|^file:\/\//i` on a string. */
  predicate IsUrlString(s: string) {
    || StartsWithIgnoringCase(s, "http://")
    || StartsWithIgnoringCase(s, "https://")
    || StartsWithIgnoringCase(s, "//")
    || StartsWithIgnoringCase(s, "tel:")
    || StartsWithIgnoringCase(s, "mailto:")
    || StartsWithIgnoringCase(s, "file://")
  }

  /**
   * `isUrl(node)`: the regex tests the string form of the extracted value;
   * the forms of `undefined`, `null`, numbers, booleans and regex literals
   * never start with a URL prefix.
   */
  predicate IsUrl(k: NodeKind) {
    var v := Utils.GetValueFromNode(k);
    v.Str? && IsUrlString(v.s)
  }

  /** A template with no text at all and at most one expression, such as `${count}`. */
  predicate IsBareTemplate(k: NodeKind) {
    k.Template? && (forall q :: q in k.quasis ==> q == []) && k.expressions <= 1
  }

  /** The exit handler returns early for reasons of the node alone. */
  predicate ExitSkips(k: NodeKind) {
    SkipsValue(ValueField(k)) || IsUrl(k) || IsBareTemplate(k)
  }

  /** The rule reports node `i` when it leaves it. */
  predicate ShouldReport(t: Tree, o: Options, i: nat)
    requires WellFormed(t) && i < |t|
  {
    IsText(t[i].kind) && !Exempt(t, o, i) && !ExitSkips(t[i].kind)
  }
}

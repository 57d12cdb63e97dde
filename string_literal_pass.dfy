/**
 * One pass of the no-string-literal rule over a tree: the per-pass
 * `visited` set, the entry handlers that add to it, the exit handler that
 * reports, and the traversal that feeds them the host's enter/exit events.
 */
module NoStringLiteralPass {
  import opened Wrappers
  import opened JsValues
  import opened Syntax
  import opened NoStringLiteral

  /** `getNearestAncestor(node, type)`: the nearest ancestor of that type, if any. */
  method GetNearestAncestor(t: Tree, i: nat, ty: NodeType) returns (r: Option<nat>)
    requires WellFormed(t) && i < |t|
    ensures r == NearestOfType(t, i, ty)
  {
    var temp: Option<nat> := t[i].parent;
    while temp.Some?
      invariant temp.Some? ==> temp.value < |t|
      invariant FirstOfType(t, temp, ty) == NearestOfType(t, i, ty)
      decreases if temp.Some? then temp.value + 1 else 0
    {
      if TypeOf(t[temp.value].kind) == ty {
        return temp;
      }
      temp := t[temp.value].parent;
    }
    return temp;
  }

  /** `findIgnoreCallees(entries, callee)`: some entry covers the member call. */
  method FindIgnoreCallees(entries: seq<FunctionsOnObjects>, callee: Expr) returns (found: bool)
    requires callee.Member?
    ensures found == MatchesAnyEntry(entries, callee)
  {
    var objectName := callee.obj;
    while objectName.Member?
      invariant ObjectNameOf(objectName) == ObjectNameOf(callee.obj)
      decreases objectName
    {
      objectName := objectName.property;
      if objectName.Ident? {
        break;
      }
    }
    var name := NameOf(objectName);
    found := exists k :: 0 <= k < |entries| && EntryMatches(entries[k], name, NameOf(callee.property));
  }

  /** `isIgnoredCallee(callee)`. */
  method IsIgnoredCallee(o: Options, callee: Expr) returns (ignored: bool)
    ensures ignored == CalleeIgnoredBy(o, callee)
  {
    match callee
    case Ident(n) =>
      ignored := n in IgnoredFunctions || n in o.ignoreFunctions;
    case Member(_, p) =>
      var defaultIgnore := FindIgnoreCallees(IgnoredFunctionsObjects, callee);
      var optionIgnore := FindIgnoreCallees(o.ignoreFunctionsOnObjects, callee);
      var nativeFunctionIgnore := p.Ident? && p.name in IgnoredNativeFunctions;
      var ignoreFunctionsOption := p.Ident? && p.name in o.ignoreFunctions;
      ignored := defaultIgnore || optionIgnore || nativeFunctionIgnore || ignoreFunctionsOption;
    case ImportExpr =>
      ignored := true;
    case _ =>
      ignored := false;
  }

  /** The host's traversal events: entering and leaving a node. */
  datatype Event = Enter(node: nat) | Exit(node: nat)

  /** The nodes entered by a sequence of events. */
  function EnteredNodes(events: seq<Event>): (s: set<nat>)
    ensures forall j :: Enter(j) in events ==> j in s
    decreases |events|
  {
    if events == [] then {}
    else
      var last := events[|events| - 1];
      assert events == events[..|events| - 1] + [last];
      EnteredNodes(events[..|events| - 1]) + (if last.Enter? then {last.node} else {})
  }

  /** Every event names a node of the tree, and a node is entered before it is left. */
  predicate ValidEvents(t: Tree, events: seq<Event>)
    decreases |events|
  {
    || events == []
    || (var last := events[|events| - 1];
        && ValidEvents(t, events[..|events| - 1])
        && last.node < |t|
        && (last.Exit? ==> last.node in EnteredNodes(events[..|events| - 1])))
  }

  /** What `ValidEvents` says about the event at position `k`. */
  lemma {:induction false} ValidEventAt(t: Tree, events: seq<Event>, k: nat)
    requires ValidEvents(t, events) && k < |events|
    ensures events[k].node < |t|
    ensures events[k].Exit? ==> events[k].node in EnteredNodes(events[..k])
    decreases |events|
  {
    var n := |events| - 1;
    if k < n {
      ValidEventAt(t, events[..n], k);
      assert events[..n][k] == events[k];
      assert events[..n][..k] == events[..k];
    }
  }

  /** The nodes whose exit reports. */
  ghost function ReportedNodes(t: Tree, o: Options): set<nat>
    requires WellFormed(t)
  {
    set j | 0 <= j < |t| && ShouldReport(t, o, j)
  }

  /** What the rule reports for a sequence of events: one diagnostic per exit from a reportable node. */
  ghost function ExpectedReports(t: Tree, o: Options, events: seq<Event>): seq<Diagnostic>
    requires WellFormed(t)
    requires ValidEvents(t, events)
  {
    if events == [] then []
    else
      var last := events[|events| - 1];
      ExpectedReports(t, o, events[..|events| - 1])
        + (if last.Exit? && last.node in ReportedNodes(t, o) then [Diagnostic(last.node, ErrorMessage)] else [])
  }

  class Pass {
    const tree: Tree
    const options: Options
    /** The literals some entry handler has let through. */
    var visited: set<nat>
    /** What the pass has reported, in order. */
    var diagnostics: seq<Diagnostic>
    /** The nodes entered so far. */
    ghost var entered: set<nat>

    /** The marked nodes are exactly the entered literals some listener lets through. */
    ghost predicate Valid()
      reads this
    {
      WellFormed(tree) && visited == entered * ExemptNodes(tree, options)
    }

    constructor (tree: Tree, options: Options)
      requires WellFormed(tree)
      ensures Valid()
      ensures this.tree == tree && this.options == options
      ensures visited == {} && diagnostics == [] && entered == {}
    {
      this.tree := tree;
      this.options := options;
      visited := {};
      diagnostics := [];
      entered := {};
    }

    method OnAssignmentDescendant(i: nat) returns (exempt: bool)
      requires WellFormed(tree) && i < |tree| && IsText(tree[i].kind)
      requires HasAncestorOfType(tree, i, AssignmentExpression)
      ensures exempt == ExemptAsAssignedClassProperty(tree, i)
    {
      exempt := false;
      var parent := tree[i].parent.value;
      if IsIgnoredClassProperty(tree[parent].kind) {
        exempt := true;
      }
    }

    method OnComparisonOperand(i: nat) returns (exempt: bool)
      requires WellFormed(tree) && i < |tree| && IsText(tree[i].kind)
      requires ParentHasType(tree, i, BinaryExpression)
      ensures exempt == ExemptAsComparisonOperand(tree, i)
    {
      exempt := false;
      var parent := tree[i].parent.value;
      if tree[parent].kind.operator in ComparisonOperators {
        exempt := true;
      }
    }

    /** Walks up through every enclosing call and `new`, stopping at the first ignored callee. */
    method OnCallDescendant(i: nat) returns (exempt: bool)
      requires WellFormed(tree) && i < |tree| && IsText(tree[i].kind)
      ensures exempt == ExemptByIgnoredCall(tree, options, i)
    {
      exempt := false;
      var temp: Option<nat> := tree[i].parent;
      ghost var P := (k: NodeKind) => IsIgnoredCallNode(options, k);
      AnyInChainIffExists(tree, temp, P);
      while temp.Some?
        invariant temp.Some? ==> temp.value < |tree|
        invariant AnyInChain(tree, temp, P) == ExemptByIgnoredCall(tree, options, i)
        decreases if temp.Some? then temp.value + 1 else 0
      {
        var k := tree[temp.value].kind;
        if k.Call? || k.New? {
          var ignored := IsIgnoredCallee(options, k.callee);
          if ignored {
            exempt := true;
            return;
          }
        }
        temp := tree[temp.value].parent;
      }
    }

    method OnClassPropertyDescendant(i: nat) returns (exempt: bool)
      requires WellFormed(tree) && i < |tree| && IsText(tree[i].kind)
      requires HasAncestorOfType(tree, i, ClassProperty)
      ensures exempt == ExemptAsClassPropertyValue(tree, i)
    {
      exempt := false;
      var parent := tree[i].parent.value;
      if IsIgnoredClassProperty(tree[parent].kind) {
        exempt := true;
      }
    }

    /** `export * from 'mod'`. */
    method OnExportAllDescendant(i: nat) returns (exempt: bool)
      requires WellFormed(tree) && i < |tree| && IsText(tree[i].kind)
      requires HasAncestorOfType(tree, i, ExportAllDeclaration)
      ensures exempt == ExemptInExportAll(tree, i)
    {
      exempt := true;
    }

    /** `export { named } from 'mod'`. */
    method OnExportNamedChild(i: nat) returns (exempt: bool)
      requires WellFormed(tree) && i < |tree| && IsText(tree[i].kind)
      requires ParentHasType(tree, i, ExportNamedDeclaration)
      ensures exempt == ExemptAsExportSource(tree, i)
    {
      exempt := true;
    }

    /** `import { abc } from 'abc'`. */
    method OnImportDescendant(i: nat) returns (exempt: bool)
      requires WellFormed(tree) && i < |tree| && IsText(tree[i].kind)
      requires HasAncestorOfType(tree, i, ImportDeclaration)
      ensures exempt == ExemptInImport(tree, i)
    {
      exempt := true;
    }

    /** Walks up looking for an enclosing `<Trans>` element. */
    method OnJsxElementDescendant(i: nat) returns (exempt: bool)
      requires WellFormed(tree) && i < |tree| && IsText(tree[i].kind)
      ensures exempt == ExemptInIgnoredComponent(tree, i)
    {
      exempt := false;
      var temp: Option<nat> := tree[i].parent;
      ghost var P := IsIgnoredComponent;
      AnyInChainIffExists(tree, temp, P);
      while temp.Some?
        invariant temp.Some? ==> temp.value < |tree|
        invariant AnyInChain(tree, temp, P) == ExemptInIgnoredComponent(tree, i)
        decreases if temp.Some? then temp.value + 1 else 0
      {
        var k := tree[temp.value].kind;
        if IsIgnoredComponent(k) {
          exempt := true;
          return;
        }
        temp := tree[temp.value].parent;
      }
    }

    /** The attribute policy, in the source's order of branches. */
    method OnJsxAttributeDescendant(i: nat) returns (exempt: bool)
      requires WellFormed(tree) && i < |tree| && IsText(tree[i].kind)
      requires HasAncestorOfType(tree, i, JSXAttribute)
      ensures exempt == ExemptAsAttributeValue(tree, options, i)
    {
      var parent := GetNearestAncestor(tree, i, JSXAttribute);
      AttributeHasOpeningElement(tree, i);
      var jsxTag := GetNearestAncestor(tree, i, JSXOpeningElement);
      JsxTypes(tree[jsxTag.value].kind);
      JsxTypes(tree[parent.value].kind);
      var tagName := tree[jsxTag.value].kind.tagName;
      var attribute := tree[parent.value].kind.name;

      exempt := AttributePolicy(tagName, attribute);
    }

    /** The three branches of the attribute handler, for the tag and attribute names it found. */
    method AttributePolicy(tagName: Option<string>, attribute: string) returns (exempt: bool)
      ensures exempt == AttributeExempt(options, tagName, attribute)
    {
      exempt := false;
      var defaultFlagged := FindIncludedAttributes(FlaggedJsxAttributesAndElements, tagName, attribute);
      var optionIgnore := FindIncludedAttributes(options.ignoreAttributesOnElements, tagName, attribute);
      var isCustomComponent := IsFirstLetterUpperCase(tagName);
      var validHtmlAttribute := attribute !in FlaggedJsxAttributes && !defaultFlagged && !isCustomComponent;

      if validHtmlAttribute || optionIgnore {
        exempt := true;
      } else if attribute in IgnoredJsxAttributes || attribute in options.ignoreAttributes
             || MatchesIgnoredAttributePattern(attribute) {
        exempt := true;
      } else if || IsIgnoredAttribute(options.buttonComponents, ButtonIgnoredAttributes, tagName, attribute)
                || IsIgnoredAttribute(options.inputComponents, InputIgnoredAttributes, tagName, attribute)
                || IsIgnoredAttribute(options.linkComponents, LinkIgnoredAttributes, tagName, attribute) {
        exempt := true;
      }
    }

    /** `object['some-property']`. */
    method OnMemberChild(i: nat) returns (exempt: bool)
      requires WellFormed(tree) && i < |tree| && IsText(tree[i].kind)
      requires ParentHasType(tree, i, MemberExpression)
      ensures exempt == ExemptAsMemberChild(tree, i)
    {
      exempt := true;
    }

    /** Walks up through every enclosing property, checking its key. */
    method OnPropertyDescendant(i: nat) returns (exempt: bool)
      requires WellFormed(tree) && i < |tree| && IsText(tree[i].kind)
      ensures exempt == ExemptByObjectKey(tree, options, i)
    {
      exempt := false;
      var value := ValueField(tree[i].kind);
      var temp: Option<nat> := tree[i].parent;
      ghost var P := (k: NodeKind) => PropertyExempts(options, k, value);
      AnyInChainIffExists(tree, temp, P);
      while temp.Some?
        invariant temp.Some? ==> temp.value < |tree|
        invariant AnyInChain(tree, temp, P) == ExemptByObjectKey(tree, options, i)
        decreases if temp.Some? then temp.value + 1 else 0
      {
        var k := tree[temp.value].kind;
        var isValidProperty := k.Prop?;
        if isValidProperty && k.keyName.Some?
           && (k.keyName.value in IgnoreObjectKeys || k.keyName.value in options.ignoreObjectKeys) {
          exempt := true;
          return;
        }
        if isValidProperty && StrictEquals(k.keyValue, value) {
          exempt := true;
          return;
        }
        temp := tree[temp.value].parent;
      }
    }

    method OnSwitchCaseChild(i: nat) returns (exempt: bool)
      requires WellFormed(tree) && i < |tree| && IsText(tree[i].kind)
      requires ParentHasType(tree, i, SwitchCase)
      ensures exempt == ExemptAsSwitchCaseTest(tree, i)
    {
      exempt := true;
    }

    method OnTaggedTemplateChild(i: nat) returns (exempt: bool)
      requires WellFormed(tree) && i < |tree| && tree[i].kind.Template?
      requires ParentHasType(tree, i, TaggedTemplateExpression)
      ensures exempt == ExemptByIgnoredTag(tree, options, i)
    {
      exempt := false;
      var parent := tree[i].parent.value;
      var ignored := IsIgnoredCallee(options, tree[parent].kind.tag);
      if ignored {
        exempt := true;
      }
    }

    method OnDeclaratorDescendant(i: nat) returns (exempt: bool)
      requires WellFormed(tree) && i < |tree| && IsText(tree[i].kind)
      requires HasAncestorOfType(tree, i, VariableDeclarator)
      ensures exempt == ExemptAsConstant(tree, i)
    {
      exempt := false;
      var declarator := GetNearestAncestor(tree, i, VariableDeclarator);
      var idName := tree[declarator.value].kind.idName;
      var value := ValueField(tree[i].kind);
      if || (idName.Some? && IsUpperCase(idName.value) && IsUpperCaseValue(value))
         || (idName.Some? && StartsWith(idName.value, "NON_DISPLAY_")) {
        exempt := true;
      }
    }

    /**
     * Runs listener `l` on node `i` when its selector matches. The three
     * selectors whose handlers walk every ancestor are checked inside the walk.
     */
    method Listen(l: Listener, i: nat) returns (exempt: bool)
      requires WellFormed(tree) && i < |tree| && IsText(tree[i].kind)
      ensures exempt == ExemptBy(tree, options, i, l)
    {
      exempt := false;
      match l {
        case AssignmentDescendant =>
          if HasAncestorOfType(tree, i, AssignmentExpression) {
            exempt := OnAssignmentDescendant(i);
          }
        case ComparisonOperand =>
          if ParentHasType(tree, i, BinaryExpression) {
            exempt := OnComparisonOperand(i);
          }
        case CallDescendant =>
          exempt := OnCallDescendant(i);
        case ClassPropertyDescendant =>
          if HasAncestorOfType(tree, i, ClassProperty) {
            exempt := OnClassPropertyDescendant(i);
          }
        case ExportAllDescendant =>
          if HasAncestorOfType(tree, i, ExportAllDeclaration) {
            exempt := OnExportAllDescendant(i);
          }
        case ExportNamedChild =>
          if ParentHasType(tree, i, ExportNamedDeclaration) {
            exempt := OnExportNamedChild(i);
          }
        case ImportDescendant =>
          if HasAncestorOfType(tree, i, ImportDeclaration) {
            exempt := OnImportDescendant(i);
          }
        case JsxElementDescendant =>
          exempt := OnJsxElementDescendant(i);
        case JsxAttributeDescendant =>
          if HasAncestorOfType(tree, i, JSXAttribute) {
            exempt := OnJsxAttributeDescendant(i);
          }
        case MemberChild =>
          if ParentHasType(tree, i, MemberExpression) {
            exempt := OnMemberChild(i);
          }
        case PropertyDescendant =>
          exempt := OnPropertyDescendant(i);
        case SwitchCaseChild =>
          if ParentHasType(tree, i, SwitchCase) {
            exempt := OnSwitchCaseChild(i);
          }
        case TaggedTemplateChild =>
          if tree[i].kind.Template? && ParentHasType(tree, i, TaggedTemplateExpression) {
            exempt := OnTaggedTemplateChild(i);
          }
        case DeclaratorDescendant =>
          if HasAncestorOfType(tree, i, VariableDeclarator) {
            exempt := OnDeclaratorDescendant(i);
          }
      }
    }

    /** Every listener in declaration order: some listener lets the literal through. */
    method RunListeners(i: nat) returns (exempt: bool)
      requires WellFormed(tree) && i < |tree| && IsText(tree[i].kind)
      ensures exempt == Exempt(tree, options, i)
    {
      exempt := false;
      for k := 0 to |Listeners|
        invariant exempt == ExemptAmong(tree, options, i, Listeners[..k])
      {
        var e := Listen(Listeners[k], i);
        exempt := exempt || e;
        assert Listeners[..k + 1][..k] == Listeners[..k];
      }
      assert Listeners[..|Listeners|] == Listeners;
    }

    /** Entering a node: each listener whose selector matches may add it; adding it once is the same. */
    method OnEnter(i: nat)
      requires Valid() && i < |tree|
      modifies this`visited, this`entered
      ensures Valid() && entered == old(entered) + {i}
      ensures visited == old(visited) + (if i in ExemptNodes(tree, options) then {i} else {})
    {
      entered := entered + {i};
      if !IsText(tree[i].kind) {
        assert i !in ExemptNodes(tree, options);
        return;
      }
      var exempt := RunListeners(i);
      assert exempt == (i in ExemptNodes(tree, options));
      if exempt {
        visited := visited + {i};
      }
    }

    /** Leaving a node: the `:exit` handler. */
    method OnExit(i: nat)
      requires Valid() && i < |tree| && i in entered
      modifies this`diagnostics
      ensures Valid()
      ensures diagnostics == old(diagnostics)
        + (if ShouldReport(tree, options, i) then [Diagnostic(i, ErrorMessage)] else [])
    {
      var k := tree[i].kind;
      if !IsText(k) {
        return;
      }
      // visited and passed linting
      if i in visited {
        return;
      }
      // anything that is not a string, and blank strings
      var v := ValueField(k);
      if (v.Str? && Trim(v.s) == []) || (!v.Undefined? && !v.Str?) || v.Null? {
        return;
      }
      if IsUrl(k) {
        return;
      }
      // a template made of at most one expression and no text
      if k.Template? && (forall q :: q in k.quasis ==> q == []) && k.expressions <= 1 {
        return;
      }
      diagnostics := diagnostics + [Diagnostic(i, ErrorMessage)];
    }

    /** One traversal event: entering runs the entry listeners, leaving runs the exit handler. */
    method Handle(e: Event)
      requires Valid() && e.node < |tree| && (e.Exit? ==> e.node in entered)
      modifies this`visited, this`entered, this`diagnostics
      ensures Valid()
      ensures entered == old(entered) + (if e.Enter? then {e.node} else {})
      ensures diagnostics == old(diagnostics)
        + (if e.Exit? && e.node in ReportedNodes(tree, options) then [Diagnostic(e.node, ErrorMessage)] else [])
    {
      match e {
        case Enter(j) =>
          OnEnter(j);
        case Exit(j) =>
          OnExit(j);
      }
    }
  }

  /** Runs one pass, with a fresh `visited` set, over the host's events. */
  method Run(tree: Tree, options: Options, events: seq<Event>) returns (diagnostics: seq<Diagnostic>)
    requires WellFormed(tree)
    requires ValidEvents(tree, events)
    ensures diagnostics == ExpectedReports(tree, options, events)
  {
    var pass := new Pass(tree, options);
    var k := 0;
    while k < |events|
      invariant 0 <= k <= |events|
      invariant ValidEvents(tree, events[..k])
      invariant pass.Valid() && pass.tree == tree && pass.options == options
      invariant pass.entered == EnteredNodes(events[..k])
      invariant pass.diagnostics == ExpectedReports(tree, options, events[..k])
    {
      assert events[..k + 1] == events[..k] + [events[k]];
      ValidEventAt(tree, events, k);
      pass.Handle(events[k]);
      k := k + 1;
    }
    assert events[..|events|] == events;
    diagnostics := pass.diagnostics;
  }
}

/**
 * The syntax tree the rules are handed by the parser, as an arena: a
 * sequence of nodes, each with a kind and the index of its parent. Each kind
 * carries the fields of its children that the rules read (a call's callee
 * and arguments, a property's key, an attribute's name), in the shape the
 * ESTree/JSX node gives them.
 */
module Syntax {
  import opened Wrappers
  import opened JsValues

  /** Expressions in callee and tag position. */
  datatype Expr =
    | Ident(name: string)
      /** `obj.property` or `obj[property]` (ESTree's `object` field is `obj` here); a non-computed property is an `Ident`. */
    | Member(obj: Expr, property: Expr)
    | ExprLiteral(value: JsValue)
      /** The callee of a dynamic `import(...)`, a node of type `Import`. */
    | ImportExpr
    | OtherExpr

  /** An entry of an object expression's `properties`. */
  datatype ObjectMember =
      /** A property; `keyName` is the key's `name`, present when the key is an identifier. */
    | KeyedMember(keyName: Option<string>)
      /** `...rest`, a node of type `ExperimentalSpreadProperty`. */
    | SpreadMember

  /** A call argument, as far as the two translation-call rules look into it. */
  datatype Arg =
    | ArgLiteral(value: JsValue)
    | ArgTemplate(expressions: nat)
    | ArgIdentifier(name: string)
    | ArgObject(properties: seq<ObjectMember>)
    | ArgSpread
    | ArgOther

  /** `e.name`, present on identifiers only. */
  function NameOf(e: Expr): Option<string> {
    if e.Ident? then Some(e.name) else None
  }

  /** The kinds of node the rules distinguish, with the fields they read. */
  datatype NodeKind =
    | Lit(value: JsValue)
      /** The raw text of each quasi, and the number of embedded expressions. */
    | Template(quasis: seq<string>, expressions: nat)
    | Call(callee: Expr, arguments: seq<Arg>)
    | New(callee: Expr)
    | MemberExpr
      /** `leftPropertyName` is `left.property.name`, when the left side is a member expression. */
    | Assign(leftPropertyName: Option<string>)
    | Binary(operator: string)
    | ClassProp(keyName: Option<string>)
      /** `keyName` is `key.name`, `keyValue` is `key.value` (`Undefined` for an identifier key). */
    | Prop(keyName: Option<string>, keyValue: JsValue)
      /** `idName` is `id.name`, absent for a destructuring pattern. */
    | Declarator(idName: Option<string>)
    | Case
    | ImportDecl
    | ExportAll
    | ExportNamed
    | TaggedTemplate(tag: Expr)
      /** `tagName` is `openingElement.name.name`, absent for a member-expression tag such as `Foo.Bar`. */
    | JsxElement(tagName: Option<string>)
    | JsxOpeningElement(tagName: Option<string>)
    | JsxAttribute(name: string)
    | OtherNode

  /** ESTree node types, as the `type` field names them. */
  datatype NodeType =
    | Literal | TemplateLiteral | CallExpression | NewExpression | MemberExpression
    | AssignmentExpression | BinaryExpression | ClassProperty | Property
    | VariableDeclarator | SwitchCase | ImportDeclaration | ExportAllDeclaration
    | ExportNamedDeclaration | TaggedTemplateExpression | JSXElement
    | JSXOpeningElement | JSXAttribute | OtherType

  /** The node's `type`. */
  function TypeOf(k: NodeKind): NodeType {
    match k
    case Lit(_) => Literal
    case Template(_, _) => TemplateLiteral
    case Call(_, _) => CallExpression
    case New(_) => NewExpression
    case MemberExpr => MemberExpression
    case Assign(_) => AssignmentExpression
    case Binary(_) => BinaryExpression
    case ClassProp(_) => ClassProperty
    case Prop(_, _) => Property
    case Declarator(_) => VariableDeclarator
    case Case => SwitchCase
    case ImportDecl => ImportDeclaration
    case ExportAll => ExportAllDeclaration
    case ExportNamed => ExportNamedDeclaration
    case TaggedTemplate(_) => TaggedTemplateExpression
    case JsxElement(_) => JSXElement
    case JsxOpeningElement(_) => JSXOpeningElement
    case JsxAttribute(_) => JSXAttribute
    case OtherNode => OtherType
  }

  /** The two JSX types the attribute handler looks up belong to exactly their kinds. */
  lemma JsxTypes(k: NodeKind)
    ensures TypeOf(k) == JSXAttribute <==> k.JsxAttribute?
    ensures TypeOf(k) == JSXOpeningElement <==> k.JsxOpeningElement?
  {
  }

  /** A string or template literal: the nodes every rule here is about. */
  predicate IsText(k: NodeKind) {
    k.Lit? || k.Template?
  }

  /** The node's own `value` field: a literal's value, and `undefined` on every other kind. */
  function ValueField(k: NodeKind): (v: JsValue)
    ensures !k.Lit? ==> v == Undefined
  {
    if k.Lit? then k.value else Undefined
  }

  datatype Node = Node(kind: NodeKind, parent: Option<nat>)

  type Tree = seq<Node>

  /**
   * What the parser guarantees: parents come before their children (so the
   * parent chain ends at a root), and an attribute sits on an opening element.
   */
  predicate WellFormed(t: Tree) {
    && (forall i :: 0 <= i < |t| && t[i].parent.Some? ==> t[i].parent.value < i)
    && (forall i :: 0 <= i < |t| && t[i].kind.JsxAttribute? ==> t[i].parent.Some?)
    && (forall i, j :: 0 <= i < |t| && 0 <= j < |t| && t[i].kind.JsxAttribute? && t[i].parent == Some(j) ==>
          t[j].kind.JsxOpeningElement?)
  }

  /** The node `p` and its ancestors, nearest first: what `while (temp) { ...; temp = temp.parent }` visits. */
  function Chain(t: Tree, p: Option<nat>): (c: seq<nat>)
    requires WellFormed(t)
    requires p.Some? ==> p.value < |t|
    ensures forall k :: 0 <= k < |c| ==> c[k] < |t|
    ensures p.None? <==> c == []
    ensures p.Some? ==> c[0] == p.value
    ensures p.Some? ==> forall k :: 0 <= k < |c| ==> c[k] <= p.value
    decreases if p.Some? then p.value + 1 else 0
  {
    match p
    case None => []
    case Some(k) => [k] + Chain(t, t[k].parent)
  }

  /** The ancestors of node `i`, nearest first. */
  function Ancestors(t: Tree, i: nat): seq<nat>
    requires WellFormed(t) && i < |t|
  {
    Chain(t, t[i].parent)
  }

  /** ESLint's descendant selector `T node`: some ancestor of `i` has type `ty`. */
  predicate HasAncestorOfType(t: Tree, i: nat, ty: NodeType)
    requires WellFormed(t) && i < |t|
  {
    exists a :: a in Ancestors(t, i) && TypeOf(t[a].kind) == ty
  }

  /** ESLint's child selector `T > node`: the parent of `i` has type `ty`. */
  predicate ParentHasType(t: Tree, i: nat, ty: NodeType)
    requires WellFormed(t) && i < |t|
  {
    t[i].parent.Some? && TypeOf(t[t[i].parent.value].kind) == ty
  }

  /**
   * The first node of `Chain(t, p)` whose type is `ty`. Parents come before
   * their children, so the first node of the walk with the type is the one
   * of largest index.
   */
  function FirstOfType(t: Tree, p: Option<nat>, ty: NodeType): (r: Option<nat>)
    requires WellFormed(t)
    requires p.Some? ==> p.value < |t|
    ensures r.Some? ==> r.value in Chain(t, p) && TypeOf(t[r.value].kind) == ty
    ensures r.Some? ==> forall a :: a in Chain(t, p) && TypeOf(t[a].kind) == ty ==> a <= r.value
    ensures r.None? ==> forall a :: a in Chain(t, p) ==> TypeOf(t[a].kind) != ty
    decreases if p.Some? then p.value + 1 else 0
  {
    match p
    case None => None
    case Some(k) => if TypeOf(t[k].kind) == ty then Some(k) else FirstOfType(t, t[k].parent, ty)
  }

  /** The nearest ancestor of `i` of type `ty`, as `getNearestAncestor` defines it. */
  function NearestOfType(t: Tree, i: nat, ty: NodeType): (r: Option<nat>)
    requires WellFormed(t) && i < |t|
    ensures r.Some? <==> HasAncestorOfType(t, i, ty)
    ensures r.Some? ==> r.value in Ancestors(t, i) && TypeOf(t[r.value].kind) == ty
    ensures r.Some? ==> forall a :: a in Ancestors(t, i) && TypeOf(t[a].kind) == ty ==> a <= r.value
  {
    FirstOfType(t, t[i].parent, ty)
  }

  /** Each step of a chain goes to the parent of the node before it. */
  lemma {:induction false} ChainStep(t: Tree, p: Option<nat>, a: nat)
    requires WellFormed(t)
    requires p.Some? ==> p.value < |t|
    requires a in Chain(t, p)
    ensures t[a].parent.Some? ==> t[a].parent.value in Chain(t, p)
    decreases if p.Some? then p.value + 1 else 0
  {
    var k := p.value;
    if a != k {
      ChainStep(t, t[k].parent, a);
    }
  }

  /** Some node of `Chain(t, p)` satisfies `P`: what a walk up the parents that stops at the first such node decides. */
  predicate AnyInChain(t: Tree, p: Option<nat>, P: NodeKind -> bool)
    requires WellFormed(t)
    requires p.Some? ==> p.value < |t|
    decreases if p.Some? then p.value + 1 else 0
  {
    match p
    case None => false
    case Some(k) => P(t[k].kind) || AnyInChain(t, t[k].parent, P)
  }

  /** The walk finds a node exactly when the chain holds one. */
  lemma {:induction false} AnyInChainIffExists(t: Tree, p: Option<nat>, P: NodeKind -> bool)
    requires WellFormed(t)
    requires p.Some? ==> p.value < |t|
    ensures AnyInChain(t, p, P) <==> exists a :: a in Chain(t, p) && P(t[a].kind)
    decreases if p.Some? then p.value + 1 else 0
  {
    match p
    case None =>
    case Some(k) =>
      AnyInChainIffExists(t, t[k].parent, P);
      assert Chain(t, p) == [k] + Chain(t, t[k].parent);
  }

  /** The nearest opening element above an attribute's literal exists: the attribute sits on one. */
  lemma AttributeHasOpeningElement(t: Tree, i: nat)
    requires WellFormed(t) && i < |t|
    requires HasAncestorOfType(t, i, JSXAttribute)
    ensures HasAncestorOfType(t, i, JSXOpeningElement)
  {
    var a := NearestOfType(t, i, JSXAttribute).value;
    JsxTypes(t[a].kind);
    var element := t[a].parent.value;
    ChainStep(t, t[i].parent, a);
    JsxTypes(t[element].kind);
  }

  /** A diagnostic: the node it is anchored on and its message. */
  datatype Diagnostic = Diagnostic(node: nat, message: string)
}

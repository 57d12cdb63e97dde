/** The value extractor shared by the rules (`getValueFromNode`). */
module Utils {
  import opened JsValues
  import opened Syntax

  /** The template's first chunk of raw text, when there is one and it is not empty. */
  predicate HasFirstChunk(k: NodeKind) {
    k.Template? && |k.quasis| > 0 && k.quasis[0] != []
  }

  /**
   * The statically known text of a literal-like node: the first raw chunk
   * of a template when that chunk is not empty, otherwise the node's own
   * `value` field (which a template does not have).
   */
  function GetValueFromNode(k: NodeKind): (v: JsValue)
    ensures HasFirstChunk(k) ==> v == Str(k.quasis[0])
    ensures !HasFirstChunk(k) ==> v == ValueField(k)
    ensures k.Template? ==> (Truthy(v) <==> HasFirstChunk(k))
  {
    if HasFirstChunk(k) then Str(k.quasis[0]) else ValueField(k)
  }

  /** Only the first chunk of a template is read: later chunks and the expressions do not matter. */
  lemma OnlyFirstChunkRead(first: string, rest: seq<string>, rest': seq<string>, e: nat, e': nat)
    ensures GetValueFromNode(Template([first] + rest, e)) == GetValueFromNode(Template([first] + rest', e'))
  {
  }

  /** A template that begins with an expression (an empty first chunk) yields `undefined`. */
  lemma EmptyFirstChunkIsUndefined(rest: seq<string>, e: nat)
    ensures GetValueFromNode(Template([""] + rest, e)) == Undefined
  {
  }

  /** A literal's value comes back unchanged, strings or not. */
  lemma LiteralValueUnchanged(v: JsValue)
    ensures GetValueFromNode(Lit(v)) == v
  {
  }
}

/**
 * The syntax-tree preparation pass that turns `Foundry.primitive(:op, a, b)`
 * into a node of type `op` with children `a, b`.
 */
module ExpandPrimitives {
  import opened Wrappers

  /** A syntax-tree node, or one of the atoms found among a node's children. */
  datatype Term =
    | Node(kind: string, children: seq<Term>)
    | Sym(name: string)
    | Int(value: int)
    | NilTerm

  /** Ruby's multiple assignment from a child list: a missing child reads as `nil`. */
  function Child(children: seq<Term>, i: nat): (t: Term)
    ensures i < |children| ==> t == children[i]
    ensures i >= |children| ==> t == NilTerm
  {
    if i < |children| then children[i] else NilTerm
  }

  function NoMethod(name: string): Exception {
    Exception(NoMethodError, "undefined method `" + name + "'")
  }

  /** The three conditions under which a call node is a primitive invocation. */
  predicate IsPrimitiveCall(call: Term)
    requires call.Node?
  {
    var receiver := Child(call.children, 0);
    && Child(call.children, 1) == Sym("primitive")
    && receiver.Node?
    && receiver.kind == "const_ref"
    && Child(receiver.children, 0) == Sym("Foundry")
  }

  /**
   * `ExpandPrimitives#on_call`. A primitive invocation becomes a node whose
   * type is the first child of the first argument and whose children are the
   * remaining arguments; when that first child is missing (`nil`),
   * `updated` keeps the type `call`. Any other call yields `nil` (the `if`
   * has no else branch). Calling `type` or `children` on something that is not a node
   * raises, as in the source.
   */
  function OnCall(call: Term): (r: Result<Term>)
    requires call.Node? && call.kind == "call"
    ensures (Child(call.children, 1) == Sym("primitive") && !Child(call.children, 0).Node?)
            ==> r.Err?
    ensures (!IsPrimitiveCall(call) && (Child(call.children, 1) != Sym("primitive")
                                         || Child(call.children, 0).Node?))
            ==> r == Ok(NilTerm)
    ensures r.Ok? && r.value.Node? ==> IsPrimitiveCall(call)
    ensures IsPrimitiveCall(call) ==>
              var arguments := Child(call.children, 2);
              r.Ok? <==> (&& arguments.Node? && |arguments.children| > 0
                          && arguments.children[0].Node?
                          && (Child(arguments.children[0].children, 0).Sym? || Child(arguments.children[0].children, 0).NilTerm?))
    ensures r.Ok? && IsPrimitiveCall(call) ==>
              var args := Child(call.children, 2).children;
              var op := Child(args[0].children, 0);
              r.value == Node(if op.Sym? then op.name else call.kind, args[1..])
  {
    var receiver, name, arguments := Child(call.children, 0), Child(call.children, 1), Child(call.children, 2);
    if name != Sym("primitive") then Ok(NilTerm)
    else if !receiver.Node? then Err(NoMethod("type"))
    else if receiver.kind != "const_ref" || Child(receiver.children, 0) != Sym("Foundry") then Ok(NilTerm)
    else if !arguments.Node? then Err(NoMethod("children"))
    else if |arguments.children| == 0 || !arguments.children[0].Node? then Err(NoMethod("children"))
    else
      var primitive, primitiveArgs := arguments.children[0], arguments.children[1..];
      match Child(primitive.children, 0)
      case Sym(op) => Ok(Node(op, primitiveArgs))
      case NilTerm => Ok(Node(call.kind, primitiveArgs))
      case _ => Err(Exception(UnsupportedName, "primitive name is not a symbol"))
  }

  /** The call node that the surface syntax `Foundry.primitive :op, args...` parses to. */
  function PrimitiveCall(op: string, args: seq<Term>): (call: Term)
    ensures call.Node? && call.kind == "call"
  {
    Node("call", [
      Node("const_ref", [Sym("Foundry")]),
      Sym("primitive"),
      Node("arglist", [Node("symbol", [Sym(op)])] + args)])
  }

  /** Expanding a primitive invocation written in the surface syntax yields exactly the node `(op args...)`. */
  lemma ExpandsWrittenPrimitive(op: string, args: seq<Term>)
    ensures OnCall(PrimitiveCall(op, args)) == Ok(Node(op, args))
  {
    var call := PrimitiveCall(op, args);
    var arglist := Node("arglist", [Node("symbol", [Sym(op)])] + args);
    assert Child(call.children, 2) == arglist;
    assert arglist.children[1..] == args;
  }
}

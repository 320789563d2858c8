/**
 * The instruction trees that the tree-walking interpreter evaluates. Every
 * node carries its source location; the interpreter records the node being
 * processed and the enclosing scopes for backtraces.
 */
module InterpreterNodes {
  import opened Wrappers

  /** Where a node comes from; `func` is the enclosing method's name when the node records it. */
  datatype Loc = Loc(file: string, line: nat, func: Option<string>)

  datatype Node = Node(op: Op, loc: Loc)

  /** One `name = value` pair of a `let`. */
  datatype VarInit = VarInit(name: string, value: Node)

  /** An element of an `array` node: a plain element or a `splat` whose contents are spliced in. */
  datatype Elem = Plain(node: Node) | Splat(node: Node)

  /**
   * The node types that the modelled handlers accept. An optional child
   * (`Option<Node>`) is one that the tree may leave out as `nil`.
   */
  datatype Op =
    | NilNode
    | TrueNode
    | FalseNode
    | IntegerNode(i: int)
    | SymbolNode(name: string)
    | SelfNode
    | ArgsNode
    | ProcRefNode
    | ConstBaseNode
    | LetNode(vars: seq<VarInit>, body: seq<Node>)
    | VarNode(name: string)
    | MutNode(name: string, value: Node)
    | EvalMutNode(name: string, value: Node)
    | BlockNode(body: seq<Node>)
    | ArrayNode(elems: seq<Elem>)
    | ArraySliceNode(tuple: Node, from: int, to: int)
    | ArrayBiggerThanNode(tuple: Node, length: int)
    | ArrayUnshiftNode(tuple: Node, value: Node)
    | ConstRefInNode(cref: Node, name: string)
    | ConstDeclareNode(scope: Option<Node>, name: string, value: Node)
    | DefineModuleNode(scope: Option<Node>, name: string)
    | DefineClassNode(scope: Option<Node>, name: string, superclass: Option<Node>)
    | IfNode(cond: Node, ifTrue: Node, ifFalse: Node)
    | WhileNode(cond: Node, loopBody: Node)
    | UntilNode(cond: Node, loopBody: Node)
    | CheckArityNode(args: Node, from: int, upTo: Option<int>)
}

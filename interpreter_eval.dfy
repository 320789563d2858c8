/**
 * What the tree-walking interpreter computes: one function per handler,
 * each taking the interpreter's state before the node and giving the
 * result (a value, or the error it raises) with the state afterwards.
 * `fuel` bounds the number of `while`/`until` iterations.
 */
module InterpreterEval {
  import opened Wrappers
  import opened Objects
  import opened InterpreterNodes
  import opened InterpreterState
  import opened InterpreterPrimitives

  datatype Outcome = Outcome(result: Result<Value>, state: State)

  /** `Array#pop`, which leaves an empty stack as it is. */
  function Pop(s: seq<Node>): (r: seq<Node>)
    ensures r <= s && (|s| > 0 ==> |r| == |s| - 1)
  {
    if |s| == 0 then s else s[..|s| - 1]
  }

  lemma PopPrefix(p: seq<Node>, s: seq<Node>, x: Node)
    requires p <= s + [x]
    ensures Pop(p) <= s
  {
    if |p| == |s| + 1 {
      assert p == s + [x];
      assert Pop(p) == s;
    } else {
      assert p <= s by {
        assert forall i :: 0 <= i < |p| ==> p[i] == (s + [x])[i];
      }
    }
  }

  /**
   * What every handler keeps: the state stays well formed and only grows,
   * the binding, the current node and the interpreter's fixed context are
   * as before, and the scope stack is as before on success and a prefix of
   * it after an error.
   */
  predicate Keeps(st: State, o: Outcome) {
    && WF(o.state) && Grows(st, o.state)
    && o.state.binding == st.binding
    && o.state.currentInsn == st.currentInsn
    && o.state.selfValue == st.selfValue && o.state.args == st.args && o.state.block == st.block
    && o.state.scopeStack <= st.scopeStack
    && (o.result.Ok? ==> o.state.scopeStack == st.scopeStack)
  }

  /** Leaving a scope (pop, restore the binding) undoes entering it, and after an error leaves a prefix. */
  lemma LeaveScope(st: State, mid: State, o: Outcome, x: Node)
    requires WF(st) && Grows(st, mid) && Keeps(mid, o)
    requires mid.currentInsn == st.currentInsn
    requires mid.selfValue == st.selfValue && mid.args == st.args && mid.block == st.block
    requires mid.scopeStack == st.scopeStack + [x] || (mid.scopeStack == st.scopeStack && o.result.Err?)
    ensures Keeps(st, Outcome(o.result, o.state.(scopeStack := Pop(o.state.scopeStack), binding := st.binding)))
  {
    PopPrefix(o.state.scopeStack, st.scopeStack, x);
  }

  /** `process`: the node is the current one while its handler runs, and the previous one afterwards. */
  function Eval(st: State, n: Node, fuel: nat): (o: Outcome)
    requires WF(st)
    ensures Keeps(st, o)
    decreases fuel, n, 4, 0
  {
    var h := Handle(st.(currentInsn := Some(n)), n, fuel);
    Outcome(h.result, h.state.(currentInsn := st.currentInsn))
  }

  /** The dispatch on the node type: literals and the initial context here, the rest by section. */
  function Handle(st: State, n: Node, fuel: nat): (o: Outcome)
    requires WF(st)
    ensures Keeps(st, o)
    decreases fuel, n, 3, 0
  {
    if IsLeafOp(n.op) then Outcome(Ok(Leaf(st, n.op)), st)
    else if IsVariableOp(n.op) then HandleVariable(st, n, fuel)
    else if IsTupleOp(n.op) then HandleTuple(st, n, fuel)
    else if IsConstantOp(n.op) then HandleConstant(st, n, fuel)
    else HandleControl(st, n, fuel)
  }

  predicate IsLeafOp(op: Op) {
    op.NilNode? || op.TrueNode? || op.FalseNode? || op.IntegerNode? || op.SymbolNode?
    || op.SelfNode? || op.ArgsNode? || op.ProcRefNode? || op.ConstBaseNode?
  }

  /** The literals, and the context the interpreter was made with (`self`, the arguments, the block). */
  function Leaf(st: State, op: Op): Value
    requires IsLeafOp(op)
  {
    match op
    case NilNode => Nil
    case TrueNode => True
    case FalseNode => False
    case IntegerNode(i) => Integer(i)
    case SymbolNode(s) => Symbol(s)
    case SelfNode => st.selfValue
    case ArgsNode => st.args
    case ProcRefNode => st.block
    case ConstBaseNode => ModuleRef(ObjectId)
  }

  predicate IsVariableOp(op: Op) {
    op.LetNode? || op.VarNode? || op.MutNode? || op.EvalMutNode? || op.BlockNode?
  }

  predicate IsTupleOp(op: Op) {
    op.ArrayNode? || op.ArraySliceNode? || op.ArrayBiggerThanNode? || op.ArrayUnshiftNode?
  }

  predicate IsConstantOp(op: Op) {
    op.ConstRefInNode? || op.ConstDeclareNode? || op.DefineModuleNode? || op.DefineClassNode?
  }

  predicate IsControlOp(op: Op) {
    op.IfNode? || op.WhileNode? || op.UntilNode? || op.CheckArityNode?
  }

  function HandleVariable(st: State, n: Node, fuel: nat): (o: Outcome)
    requires WF(st) && IsVariableOp(n.op)
    ensures Keeps(st, o)
    decreases fuel, n, 2, 0
  {
    match n.op
    case LetNode(_, _) => OnLet(st, n, fuel)
    case VarNode(name) => Outcome(Lookup(st, name), st)
    case MutNode(_, _) => OnMut(st, n, fuel)
    case EvalMutNode(_, _) => OnEvalMut(st, n, fuel)
    case BlockNode(_) => OnBlock(st, n, fuel)
  }

  function HandleTuple(st: State, n: Node, fuel: nat): (o: Outcome)
    requires WF(st) && IsTupleOp(n.op)
    ensures Keeps(st, o)
    decreases fuel, n, 2, 0
  {
    match n.op
    case ArrayNode(_) => EvalElems(st, n, 0, [], fuel)
    case ArraySliceNode(_, _, _) => OnArraySlice(st, n, fuel)
    case ArrayBiggerThanNode(_, _) => OnArrayBiggerThan(st, n, fuel)
    case ArrayUnshiftNode(_, _) => OnArrayUnshift(st, n, fuel)
  }

  function HandleConstant(st: State, n: Node, fuel: nat): (o: Outcome)
    requires WF(st) && IsConstantOp(n.op)
    ensures Keeps(st, o)
    decreases fuel, n, 2, 0
  {
    match n.op
    case ConstRefInNode(_, _) => OnConstRefIn(st, n, fuel)
    case ConstDeclareNode(_, _, _) => OnConstDeclare(st, n, fuel)
    case DefineModuleNode(_, _) => OnDefineModule(st, n, fuel)
    case DefineClassNode(_, _, _) => OnDefineClass(st, n, fuel)
  }

  function HandleControl(st: State, n: Node, fuel: nat): (o: Outcome)
    requires WF(st) && IsControlOp(n.op)
    ensures Keeps(st, o)
    decreases fuel, n, 2, 0
  {
    match n.op
    case IfNode(_, _, _) => OnIf(st, n, fuel)
    case WhileNode(_, _) => ProcessLoop(st, n, false, fuel)
    case UntilNode(_, _) => ProcessLoop(st, n, true, fuel)
    case CheckArityNode(_, _, _) => OnCheckArity(st, n, fuel)
  }

  // ---- variables and scopes ----

  /**
   * `let`: a new scope chained on the current binding (or a first one),
   * the variables defined in order, then the body with the node pushed on
   * the scope stack. Afterwards, and also when anything raised, the stack
   * is popped and the old binding restored.
   */
  function OnLet(st: State, n: Node, fuel: nat): (o: Outcome)
    requires WF(st) && n.op.LetNode?
    ensures Keeps(st, o)
    decreases fuel, n, 1, 0
  {
    var inner := NewScope(st);
    var d := DefineVars(inner, n, 0, fuel);
    if d.result.Err? then
      LeaveScope(st, inner, d, n);
      Outcome(d.result, d.state.(scopeStack := Pop(d.state.scopeStack), binding := st.binding))
    else
      var pushed := d.state.(scopeStack := d.state.scopeStack + [n]);
      var b := EvalBody(pushed, n, 0, Nil, fuel);
      LeaveScope(st, pushed, b, n);
      Outcome(b.result, b.state.(scopeStack := Pop(b.state.scopeStack), binding := st.binding))
  }

  /** The initialisers of a `let`, from the `i`-th on, each defined in the new scope once evaluated. */
  function DefineVars(st: State, n: Node, i: nat, fuel: nat): (o: Outcome)
    requires WF(st) && n.op.LetNode? && i <= |n.op.vars|
    ensures Keeps(st, o)
    decreases fuel, n, 0, |n.op.vars| - i
  {
    if i == |n.op.vars| then Outcome(Ok(Nil), st)
    else
      var o := Eval(st, n.op.vars[i].value, fuel);
      if o.result.Err? then o
      else match Define(o.state, n.op.vars[i].name, o.result.value)
        case Err(e) => Outcome(Err(e), o.state)
        case Ok(s) => DefineVars(s, n, i + 1, fuel)
  }

  /** `process_all(body).last || NIL`, from the `i`-th statement on, `last` being the value so far. */
  function EvalBody(st: State, n: Node, i: nat, last: Value, fuel: nat): (o: Outcome)
    requires WF(st) && (n.op.LetNode? || n.op.BlockNode?) && i <= |n.op.body|
    ensures Keeps(st, o)
    decreases fuel, n, 0, |n.op.body| - i
  {
    if i == |n.op.body| then Outcome(Ok(last), st)
    else
      var o := Eval(st, n.op.body[i], fuel);
      if o.result.Err? then o
      else EvalBody(o.state, n, i + 1, o.result.value, fuel)
  }

  /** `block`: the body with the node pushed on the scope stack, popped afterwards. */
  function OnBlock(st: State, n: Node, fuel: nat): (o: Outcome)
    requires WF(st) && n.op.BlockNode?
    ensures Keeps(st, o)
    decreases fuel, n, 1, 0
  {
    var b := EvalBody(st.(scopeStack := st.scopeStack + [n]), n, 0, Nil, fuel);
    PopPrefix(b.state.scopeStack, st.scopeStack, n);
    Outcome(b.result, b.state.(scopeStack := Pop(b.state.scopeStack)))
  }

  /** `mut!` (and the last step of `eval_mut!`): the value, then the variable updated where it is defined. */
  function OnMut(st: State, n: Node, fuel: nat): (o: Outcome)
    requires WF(st) && (n.op.MutNode? || n.op.EvalMutNode?)
    ensures Keeps(st, o)
    decreases fuel, n, 0, 0
  {
    var o := Eval(st, n.op.value, fuel);
    if o.result.Err? then o
    else match Mutate(o.state, n.op.name, o.result.value)
      case Err(e) => Outcome(Err(e), o.state)
      case Ok(s) => Outcome(Ok(o.result.value), s)
  }

  /** `eval_mut!`: like `mut!`, after defining the variable as NIL in the current scope if it is undefined. */
  function OnEvalMut(st: State, n: Node, fuel: nat): (o: Outcome)
    requires WF(st) && n.op.EvalMutNode?
    ensures Keeps(st, o)
    decreases fuel, n, 1, 0
  {
    match IsDefined(st, n.op.name)
    case Err(e) => Outcome(Err(e), st)
    case Ok(defined) =>
      if defined then OnMut(st, n, fuel)
      else OnMut(Define(st, n.op.name, Nil).value, n, fuel)
  }

  // ---- tuples ----

  /**
   * `array`: the elements from the `i`-th on, in order; a splat element
   * contributes the contents of the tuple it evaluates to.
   */
  function EvalElems(st: State, n: Node, i: nat, parts: seq<Part>, fuel: nat): (o: Outcome)
    requires WF(st) && n.op.ArrayNode? && i <= |n.op.elems|
    ensures Keeps(st, o)
    decreases fuel, n, 0, |n.op.elems| - i
  {
    if i == |n.op.elems| then Outcome(Ok(Tuple(Splice(parts))), st)
    else
      var o := Eval(st, n.op.elems[i].node, fuel);
      if o.result.Err? then o
      else if n.op.elems[i].Plain? then EvalElems(o.state, n, i + 1, parts + [One(o.result.value)], fuel)
      else match o.result.value
        case Tuple(vs) => EvalElems(o.state, n, i + 1, parts + [Spliced(vs)], fuel)
        case _ => Outcome(Err(Exception(NoMethodError, "undefined method to_ary")), o.state)
  }

  const NotATuple := Exception(NoMethodError, "undefined method for a value that is not a tuple")

  /** `array_slice`: the elements `from..to` of the tuple, inclusive. */
  function OnArraySlice(st: State, n: Node, fuel: nat): (o: Outcome)
    requires WF(st) && n.op.ArraySliceNode?
    ensures Keeps(st, o)
    decreases fuel, n, 1, 0
  {
    var o := Eval(st, n.op.tuple, fuel);
    if o.result.Err? then o
    else match o.result.value
      case Tuple(vs) =>
        (match InclusiveSlice(vs, n.op.from, n.op.to)
         case Some(s) => Outcome(Ok(Tuple(s)), o.state)
         case None => Outcome(Err(Exception(ArgumentError, "tuple slice out of range")), o.state))
      case _ => Outcome(Err(NotATuple), o.state)
  }

  /** `array_bigger_than`: TRUE exactly when the tuple is longer than `length`. */
  function OnArrayBiggerThan(st: State, n: Node, fuel: nat): (o: Outcome)
    requires WF(st) && n.op.ArrayBiggerThanNode?
    ensures Keeps(st, o)
    decreases fuel, n, 1, 0
  {
    var o := Eval(st, n.op.tuple, fuel);
    if o.result.Err? then o
    else match o.result.value
      case Tuple(vs) => Outcome(Ok(BiggerThan(vs, n.op.length)), o.state)
      case _ => Outcome(Err(NotATuple), o.state)
  }

  /** `array_unshift`: the tuple, then the value, then a tuple with the value in front. */
  function OnArrayUnshift(st: State, n: Node, fuel: nat): (o: Outcome)
    requires WF(st) && n.op.ArrayUnshiftNode?
    ensures Keeps(st, o)
    decreases fuel, n, 1, 0
  {
    var a := Eval(st, n.op.tuple, fuel);
    if a.result.Err? then a
    else
      var v := Eval(a.state, n.op.value, fuel);
      if v.result.Err? then v
      else match a.result.value
        case Tuple(vs) => Outcome(Ok(Tuple([v.result.value] + vs)), v.state)
        case _ => Outcome(Err(NotATuple), v.state)
  }

  // ---- constants, modules and classes ----

  /** `const_ref_in`: the cref's scopes in order (`[Object]` when empty), then the first scope's ancestors. */
  function OnConstRefIn(st: State, n: Node, fuel: nat): (o: Outcome)
    requires WF(st) && n.op.ConstRefInNode?
    ensures Keeps(st, o)
    decreases fuel, n, 1, 0
  {
    var o := Eval(st, n.op.cref, fuel);
    if o.result.Err? then o
    else if !o.result.value.Tuple? then Outcome(Err(NotATuple), o.state)
    else
      var es := o.result.value.elems;
      var cref := if |es| == 0 then [ModuleRef(ObjectId)] else es;
      match FindConstIn(o.state, cref, n.op.name)
      case Err(e) => Outcome(Err(e), o.state)
      case Ok(c) =>
        if c != Undef then Outcome(Ok(c), o.state)
        else match ModuleOf(o.state, cref[0])
          case None => Outcome(Err(Exception(NoMethodError, "undefined method ancestors")), o.state)
          case Some(id) =>
            match FindConstIn(o.state, AncestorRefs(o.state, id), n.op.name)
            case Err(e) => Outcome(Err(e), o.state)
            case Ok(c2) =>
              if c2 != Undef then Outcome(Ok(c2), o.state)
              else Outcome(Err(Exception(InterpreterError, "uninitialized constant " + n.op.name)), o.state)
  }

  /** The scope of a declaration: the evaluated scope node, or `Object` when the node is absent. */
  function EvalScope(st: State, n: Node, fuel: nat): (o: Outcome)
    requires WF(st) && (n.op.ConstDeclareNode? || n.op.DefineModuleNode? || n.op.DefineClassNode?)
    ensures Keeps(st, o)
    ensures n.op.scope.None? ==> o == Outcome(Ok(ModuleRef(ObjectId)), st)
    decreases fuel, n, 0, 0
  {
    match n.op.scope
    case None => Outcome(Ok(ModuleRef(ObjectId)), st)
    case Some(s) => Eval(st, s, fuel)
  }

  const NotAModule := Exception(NoMethodError, "undefined method for a value that is not a module")

  /** `const_declare`: the scope, then the value; raises when the scope itself already has the constant. */
  function OnConstDeclare(st: State, n: Node, fuel: nat): (o: Outcome)
    requires WF(st) && n.op.ConstDeclareNode?
    ensures Keeps(st, o)
    decreases fuel, n, 1, 0
  {
    var s := EvalScope(st, n, fuel);
    if s.result.Err? then s
    else
      var v := Eval(s.state, n.op.value, fuel);
      if v.result.Err? then v
      else match ModuleOf(v.state, s.result.value)
        case None => Outcome(Err(NotAModule), v.state)
        case Some(id) =>
          if DefinesConst(v.state, id, n.op.name) then
            Outcome(Err(Exception(InterpreterError, "already initialized constant " + n.op.name)), v.state)
          else
            Outcome(Ok(v.result.value), ConstSet(v.state, id, n.op.name, v.result.value))
  }

  /** `define_module`: the module the scope already sees under the name, or a new one set in the scope. */
  function OnDefineModule(st: State, n: Node, fuel: nat): (o: Outcome)
    requires WF(st) && n.op.DefineModuleNode?
    ensures Keeps(st, o)
    decreases fuel, n, 1, 0
  {
    var s := EvalScope(st, n, fuel);
    if s.result.Err? then s
    else match ModuleOf(s.state, s.result.value)
      case None => Outcome(Err(NotAModule), s.state)
      case Some(id) =>
        match ConstGet(s.state, id, n.op.name)
        case Err(e) => Outcome(Err(e), s.state)
        case Ok(m) =>
          if m != Undef then
            if ModuleOf(s.state, m).Some? then Outcome(Ok(m), s.state)
            else Outcome(Err(Exception(InterpreterError, n.op.name + " is not a module")), s.state)
          else
            var created := NewModule(s.state);
            var made := ModuleRef(|s.state.modules|);
            Outcome(Ok(made), ConstSet(created, id, n.op.name, made))
  }

  /** The superclass of a `define_class`: the evaluated node, or `Object` when the node is absent. */
  function EvalSuperclass(st: State, n: Node, fuel: nat): (o: Outcome)
    requires WF(st) && n.op.DefineClassNode?
    ensures Keeps(st, o)
    ensures n.op.superclass.None? ==> o == Outcome(Ok(ModuleRef(ObjectId)), st)
    decreases fuel, n, 0, 0
  {
    match n.op.superclass
    case None => Outcome(Ok(ModuleRef(ObjectId)), st)
    case Some(s) => Eval(st, s, fuel)
  }

  /** Is `v` a class of the VM? */
  predicate IsClass(st: State, v: Value) {
    ModuleOf(st, v).Some? && st.modules[v.id].isClass
  }

  /**
   * `define_class`: the superclass, then the scope; the class the scope
   * already sees under the name, or a new subclass of the superclass set
   * in the scope.
   */
  function OnDefineClass(st: State, n: Node, fuel: nat): (o: Outcome)
    requires WF(st) && n.op.DefineClassNode?
    ensures Keeps(st, o)
    decreases fuel, n, 1, 0
  {
    var sup := EvalSuperclass(st, n, fuel);
    if sup.result.Err? then sup
    else
      var s := EvalScope(sup.state, n, fuel);
      if s.result.Err? then s
      else match ModuleOf(s.state, s.result.value)
        case None => Outcome(Err(NotAModule), s.state)
        case Some(id) =>
          match ConstGet(s.state, id, n.op.name)
          case Err(e) => Outcome(Err(e), s.state)
          case Ok(k) =>
            if k != Undef then
              if IsClass(s.state, k) then Outcome(Ok(k), s.state)
              else Outcome(Err(Exception(InterpreterError, n.op.name + " is not a class")), s.state)
            else if !IsClass(s.state, sup.result.value) then
              Outcome(Err(Exception(ArgumentError, "superclass must be a class")), s.state)
            else
              var created := NewClass(s.state, sup.result.value.id);
              var made := ModuleRef(|s.state.modules|);
              Outcome(Ok(made), ConstSet(created, id, n.op.name, made))
  }

  // ---- control flow ----

  /** `if`: the false branch exactly when the condition is NIL or FALSE. */
  function OnIf(st: State, n: Node, fuel: nat): (o: Outcome)
    requires WF(st) && n.op.IfNode?
    ensures Keeps(st, o)
    decreases fuel, n, 1, 0
  {
    var c := Eval(st, n.op.cond, fuel);
    if c.result.Err? then c
    else if Truthy(c.result.value) then Eval(c.state, n.op.ifTrue, fuel)
    else Eval(c.state, n.op.ifFalse, fuel)
  }

  /**
   * `process_loop`: evaluate the condition; stop with NIL when its
   * truthiness is `breakOn`, otherwise run the body and go round again.
   * Each round spends one unit of `fuel`.
   */
  function ProcessLoop(st: State, n: Node, breakOn: bool, fuel: nat): (o: Outcome)
    requires WF(st) && (n.op.WhileNode? || n.op.UntilNode?)
    ensures Keeps(st, o)
    decreases fuel, n, 1, 0
  {
    if fuel == 0 then Outcome(Err(Exception(FuelExhausted, "loop bound reached")), st)
    else
      var c := Eval(st, n.op.cond, fuel);
      if c.result.Err? then c
      else if Truthy(c.result.value) == breakOn then Outcome(Ok(Nil), c.state)
      else
        var b := Eval(c.state, n.op.loopBody, fuel);
        if b.result.Err? then b
        else ProcessLoop(b.state, n, breakOn, fuel - 1)
  }

  /** Equal fuel gives equal loops (spares the solver an arithmetic detour). */
  lemma SameLoopFuel(st: State, n: Node, breakOn: bool, a: nat, b: nat)
    requires WF(st) && (n.op.WhileNode? || n.op.UntilNode?) && a == b
    ensures ProcessLoop(st, n, breakOn, a) == ProcessLoop(st, n, breakOn, b)
  {
  }

  /** `check_arity`: NIL when the tuple's size is within `from..upTo`, the arity error otherwise. */
  function OnCheckArity(st: State, n: Node, fuel: nat): (o: Outcome)
    requires WF(st) && n.op.CheckArityNode?
    ensures Keeps(st, o)
    decreases fuel, n, 1, 0
  {
    var a := Eval(st, n.op.args, fuel);
    if a.result.Err? then a
    else match a.result.value
      case Tuple(vs) => Outcome(CheckArity(|vs|, n.op.from, n.op.upTo), a.state)
      case _ => Outcome(Err(NotATuple), a.state)
  }
}

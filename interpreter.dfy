/**
 * `Foundry::Interpreter::Base`: the tree-walking interpreter as an object
 * whose handlers update its fields in place. Every method is proved to
 * compute what the matching function of `InterpreterEval` says.
 */
module Interpreter {
  import opened Wrappers
  import opened Objects
  import opened InterpreterNodes
  import opened InterpreterState
  import opened InterpreterPrimitives
  import opened InterpreterEval
  import opened Backtrace

  class Interpreter {
    const selfValue: Value
    const args: Value
    const block: Value
    /** The VM's binding objects, which `binding` and their parents point into. */
    var scopes: seq<Scope>
    var binding: Option<nat>
    var scopeStack: seq<Node>
    var currentInsn: Option<Node>
    /** The VM's modules and classes. */
    var modules: seq<ModuleObj>

    /** The interpreter's fields together with the VM objects they reach. */
    function Current(): State
      reads this
    {
      State(selfValue, args, block, scopes, binding, scopeStack, currentInsn, modules)
    }

    ghost predicate Valid()
      reads this
    {
      WF(Current())
    }

    /** A fresh interpreter for an executable whose binding is `binding`: no current node, an empty stack. */
    constructor(selfValue: Value, args: Value, block: Value, binding: Option<nat>, scopes: seq<Scope>, modules: seq<ModuleObj>)
      requires WF(State(selfValue, args, block, scopes, binding, [], None, modules))
      ensures Valid()
      ensures Current() == State(selfValue, args, block, scopes, binding, [], None, modules)
    {
      this.selfValue := selfValue;
      this.args := args;
      this.block := block;
      this.scopes := scopes;
      this.binding := binding;
      this.scopeStack := [];
      this.currentInsn := None;
      this.modules := modules;
    }

    // ---- stack traces ----

    /** What a backtrace reads of this interpreter: the locations of its scope stack and of its current node. */
    function Frame(): Backtrace.Frame
      reads this
    {
      Backtrace.Frame(
        seq(|scopeStack|, i requires 0 <= i < |scopeStack| reads this => scopeStack[i].loc),
        if currentInsn.Some? then Some(currentInsn.value.loc) else None)
    }

    /** `collect_backtrace_part`: the stack, with the current node on top when asked for, turned into items. */
    method CollectBacktracePart(includeCurrent: bool) returns (r: Result<seq<BacktraceItem>>)
      ensures r == PartOf(Frame(), includeCurrent)
    {
      var stack := Frame().stack;
      if includeCurrent {
        if currentInsn.None? {
          return Err(Exception(NoMethodError, "undefined method function for nil"));
        }
        stack := stack + [currentInsn.value.loc];
      }
      assert PartEntries(Frame(), includeCurrent) == Ok(stack);
      var items := ItemsOf(stack);
      r := Ok(items);
    }

    /** `collect_backtrace`: this interpreter's part, then those of the outer interpreters `outers`, innermost first. */
    method CollectBacktrace(includeCurrent: bool, outers: seq<Backtrace.Frame>) returns (r: Result<seq<seq<BacktraceItem>>>)
      ensures r == Backtrace.CollectBacktrace([Frame()] + outers, includeCurrent)
    {
      var part := CollectBacktracePart(includeCurrent);
      if part.Err? {
        return Err(part.error);
      }
      assert ([Frame()] + outers)[1..] == outers;
      if outers == [] {
        r := Ok([part.value]);
      } else {
        r := Ok([part.value] + Backtrace.CollectBacktrace(outers, false).value);
      }
    }

    /** `process`: the handler for `n` runs with `n` as the current node; the previous one is restored. */
    method Process(n: Node, fuel: nat) returns (r: Result<Value>)
      requires Valid()
      modifies this
      ensures Outcome(r, Current()) == Eval(old(Current()), n, fuel)
      decreases fuel, n, 4, 0
    {
      var prev := currentInsn;
      currentInsn := Some(n);
      r := Dispatch(n, fuel);
      currentInsn := prev;
    }

    method Dispatch(n: Node, fuel: nat) returns (r: Result<Value>)
      requires Valid()
      modifies this
      ensures Outcome(r, Current()) == Handle(old(Current()), n, fuel)
      decreases fuel, n, 3, 0
    {
      if IsLeafOp(n.op) {
        r := Ok(Leaf(Current(), n.op));
      } else if IsVariableOp(n.op) {
        r := DispatchVariable(n, fuel);
      } else if IsTupleOp(n.op) {
        r := DispatchTuple(n, fuel);
      } else if IsConstantOp(n.op) {
        r := DispatchConstant(n, fuel);
      } else {
        r := DispatchControl(n, fuel);
      }
    }

    method DispatchVariable(n: Node, fuel: nat) returns (r: Result<Value>)
      requires Valid() && IsVariableOp(n.op)
      modifies this
      ensures Outcome(r, Current()) == HandleVariable(old(Current()), n, fuel)
      decreases fuel, n, 2, 0
    {
      match n.op
      case LetNode(_, _) => r := OnLet(n, fuel);
      case VarNode(name) => r := Lookup(Current(), name);
      case MutNode(_, _) => r := OnMut(n, fuel);
      case EvalMutNode(_, _) => r := OnEvalMut(n, fuel);
      case BlockNode(_) => r := OnBlock(n, fuel);
    }

    method DispatchTuple(n: Node, fuel: nat) returns (r: Result<Value>)
      requires Valid() && IsTupleOp(n.op)
      modifies this
      ensures Outcome(r, Current()) == HandleTuple(old(Current()), n, fuel)
      decreases fuel, n, 2, 0
    {
      match n.op
      case ArrayNode(_) => r := OnArray(n, fuel);
      case ArraySliceNode(_, _, _) => r := OnArraySlice(n, fuel);
      case ArrayBiggerThanNode(_, _) => r := OnArrayBiggerThan(n, fuel);
      case ArrayUnshiftNode(_, _) => r := OnArrayUnshift(n, fuel);
    }

    method DispatchConstant(n: Node, fuel: nat) returns (r: Result<Value>)
      requires Valid() && IsConstantOp(n.op)
      modifies this
      ensures Outcome(r, Current()) == HandleConstant(old(Current()), n, fuel)
      decreases fuel, n, 2, 0
    {
      match n.op
      case ConstRefInNode(_, _) => r := OnConstRefIn(n, fuel);
      case ConstDeclareNode(_, _, _) => r := OnConstDeclare(n, fuel);
      case DefineModuleNode(_, _) => r := OnDefineModule(n, fuel);
      case DefineClassNode(_, _, _) => r := OnDefineClass(n, fuel);
    }

    method DispatchControl(n: Node, fuel: nat) returns (r: Result<Value>)
      requires Valid() && IsControlOp(n.op)
      modifies this
      ensures Outcome(r, Current()) == HandleControl(old(Current()), n, fuel)
      decreases fuel, n, 2, 0
    {
      match n.op
      case IfNode(_, _, _) => r := OnIf(n, fuel);
      case WhileNode(_, _) => r := ProcessLoop(n, false, fuel);
      case UntilNode(_, _) => r := ProcessLoop(n, true, fuel);
      case CheckArityNode(_, _, _) => r := OnCheckArity(n, fuel);
    }

    // ---- variables and scopes ----

    method OnLet(n: Node, fuel: nat) returns (r: Result<Value>)
      requires Valid() && n.op.LetNode?
      modifies this
      ensures Outcome(r, Current()) == InterpreterEval.OnLet(old(Current()), n, fuel)
      decreases fuel, n, 1, 0
    {
      var oldEnv := binding;
      EnterScope();
      r := DefineAll(n, fuel);
      if r.Ok? {
        scopeStack := scopeStack + [n];
        r := ProcessBody(n, fuel);
      }
      scopeStack := Pop(scopeStack);
      binding := oldEnv;
    }

    /**
     * `@binding.chain`, or `VI.new_binding` when there is no binding:
     * either way a fresh scope whose parent is the current binding.
     */
    method EnterScope()
      requires Valid()
      modifies this
      ensures Valid() && Current() == NewScope(old(Current()))
    {
      scopes := scopes + [Scope(map[], binding)];
      binding := Some(|scopes| - 1);
    }

    /** `vars.each { |name, value| @binding.define name, process(value) }` */
    method DefineAll(n: Node, fuel: nat) returns (r: Result<Value>)
      requires Valid() && n.op.LetNode?
      modifies this
      ensures Outcome(r, Current()) == DefineVars(old(Current()), n, 0, fuel)
      decreases fuel, n, 0, |n.op.vars|
    {
      ghost var start := Current();
      var i := 0;
      while i < |n.op.vars|
        invariant i <= |n.op.vars| && Valid()
        invariant DefineVars(Current(), n, i, fuel) == DefineVars(start, n, 0, fuel)
      {
        var v := Process(n.op.vars[i].value, fuel);
        if v.Err? {
          return v;
        }
        match Define(Current(), n.op.vars[i].name, v.value) {
          case Err(e) =>
            return Err(e);
          case Ok(s) =>
            scopes := s.scopes;
        }
        i := i + 1;
      }
      r := Ok(Nil);
    }

    /** `process_all(body).last || NIL` for a `let` or `block` node. */
    method ProcessBody(n: Node, fuel: nat) returns (r: Result<Value>)
      requires Valid() && (n.op.LetNode? || n.op.BlockNode?)
      modifies this
      ensures Outcome(r, Current()) == EvalBody(old(Current()), n, 0, Nil, fuel)
      decreases fuel, n, 0, |n.op.body|
    {
      ghost var start := Current();
      var last := Nil;
      var i := 0;
      while i < |n.op.body|
        invariant i <= |n.op.body| && Valid()
        invariant EvalBody(Current(), n, i, last, fuel) == EvalBody(start, n, 0, Nil, fuel)
      {
        var v := Process(n.op.body[i], fuel);
        if v.Err? {
          return v;
        }
        last := v.value;
        i := i + 1;
      }
      r := Ok(last);
    }

    method OnBlock(n: Node, fuel: nat) returns (r: Result<Value>)
      requires Valid() && n.op.BlockNode?
      modifies this
      ensures Outcome(r, Current()) == InterpreterEval.OnBlock(old(Current()), n, fuel)
      decreases fuel, n, 1, 0
    {
      scopeStack := scopeStack + [n];
      r := ProcessBody(n, fuel);
      scopeStack := Pop(scopeStack);
    }

    method OnMut(n: Node, fuel: nat) returns (r: Result<Value>)
      requires Valid() && (n.op.MutNode? || n.op.EvalMutNode?)
      modifies this
      ensures Outcome(r, Current()) == InterpreterEval.OnMut(old(Current()), n, fuel)
      decreases fuel, n, 0, 0
    {
      r := Process(n.op.value, fuel);
      if r.Ok? {
        match Mutate(Current(), n.op.name, r.value)
        case Err(e) => r := Err(e);
        case Ok(s) => scopes := s.scopes;
      }
    }

    method OnEvalMut(n: Node, fuel: nat) returns (r: Result<Value>)
      requires Valid() && n.op.EvalMutNode?
      modifies this
      ensures Outcome(r, Current()) == InterpreterEval.OnEvalMut(old(Current()), n, fuel)
      decreases fuel, n, 1, 0
    {
      match IsDefined(Current(), n.op.name)
      case Err(e) =>
        r := Err(e);
      case Ok(defined) =>
        if !defined {
          scopes := Define(Current(), n.op.name, Nil).value.scopes;
        }
        r := OnMut(n, fuel);
    }

    // ---- tuples ----

    /** `array`: appends each element, or the contents of each splatted tuple, to `result`. */
    method OnArray(n: Node, fuel: nat) returns (r: Result<Value>)
      requires Valid() && n.op.ArrayNode?
      modifies this
      ensures Outcome(r, Current()) == EvalElems(old(Current()), n, 0, [], fuel)
      decreases fuel, n, 0, |n.op.elems|
    {
      ghost var start := Current();
      ghost var parts: seq<Part> := [];
      var result: seq<Value> := [];
      var i := 0;
      while i < |n.op.elems|
        invariant i <= |n.op.elems| && Valid()
        invariant result == Splice(parts)
        invariant EvalElems(Current(), n, i, parts, fuel) == EvalElems(start, n, 0, [], fuel)
      {
        match n.op.elems[i] {
          case Splat(e) =>
          var v := Process(e, fuel);
          if v.Err? {
            return v;
          }
          if !v.value.Tuple? {
            return Err(Exception(NoMethodError, "undefined method to_ary"));
          }
          assert (parts + [Spliced(v.value.elems)])[..|parts|] == parts;
          result := result + v.value.elems;
          parts := parts + [Spliced(v.value.elems)];
        case Plain(e) =>
          var v := Process(e, fuel);
          if v.Err? {
            return v;
          }
          assert (parts + [One(v.value)])[..|parts|] == parts;
          result := result + [v.value];
          parts := parts + [One(v.value)];
        }
        i := i + 1;
      }
      r := Ok(Tuple(result));
    }

    method OnArraySlice(n: Node, fuel: nat) returns (r: Result<Value>)
      requires Valid() && n.op.ArraySliceNode?
      modifies this
      ensures Outcome(r, Current()) == InterpreterEval.OnArraySlice(old(Current()), n, fuel)
      decreases fuel, n, 1, 0
    {
      var a := Process(n.op.tuple, fuel);
      if a.Err? {
        return a;
      }
      if !a.value.Tuple? {
        return Err(NotATuple);
      }
      match InclusiveSlice(a.value.elems, n.op.from, n.op.to)
      case Some(s) => r := Ok(Tuple(s));
      case None => r := Err(Exception(ArgumentError, "tuple slice out of range"));
    }

    method OnArrayBiggerThan(n: Node, fuel: nat) returns (r: Result<Value>)
      requires Valid() && n.op.ArrayBiggerThanNode?
      modifies this
      ensures Outcome(r, Current()) == InterpreterEval.OnArrayBiggerThan(old(Current()), n, fuel)
      decreases fuel, n, 1, 0
    {
      var a := Process(n.op.tuple, fuel);
      if a.Err? {
        return a;
      }
      if !a.value.Tuple? {
        return Err(NotATuple);
      }
      r := if |a.value.elems| > n.op.length then Ok(True) else Ok(False);
    }

    method OnArrayUnshift(n: Node, fuel: nat) returns (r: Result<Value>)
      requires Valid() && n.op.ArrayUnshiftNode?
      modifies this
      ensures Outcome(r, Current()) == InterpreterEval.OnArrayUnshift(old(Current()), n, fuel)
      decreases fuel, n, 1, 0
    {
      var a := Process(n.op.tuple, fuel);
      if a.Err? {
        return a;
      }
      var v := Process(n.op.value, fuel);
      if v.Err? {
        return v;
      }
      if !a.value.Tuple? {
        return Err(NotATuple);
      }
      r := Ok(Tuple([v.value] + a.value.elems));
    }

    // ---- constants, modules and classes ----

    method OnConstRefIn(n: Node, fuel: nat) returns (r: Result<Value>)
      requires Valid() && n.op.ConstRefInNode?
      modifies this
      ensures Outcome(r, Current()) == InterpreterEval.OnConstRefIn(old(Current()), n, fuel)
      decreases fuel, n, 1, 0
    {
      var c := Process(n.op.cref, fuel);
      if c.Err? {
        return c;
      }
      if !c.value.Tuple? {
        return Err(NotATuple);
      }
      var cref := c.value.elems;
      if |cref| == 0 {
        cref := [ModuleRef(ObjectId)];
      }
      r := FindConstIn(Current(), cref, n.op.name);
      if r.Ok? && r.value == Undef {
        match ModuleOf(Current(), cref[0])
        case None =>
          r := Err(Exception(NoMethodError, "undefined method ancestors"));
        case Some(id) =>
          r := FindConstIn(Current(), AncestorRefs(Current(), id), n.op.name);
          if r.Ok? && r.value == Undef {
            r := Err(Exception(InterpreterError, "uninitialized constant " + n.op.name));
          }
      }
    }

    /** The scope of a declaration, `Object` when the node is absent. */
    method ProcessScope(n: Node, fuel: nat) returns (r: Result<Value>)
      requires Valid() && (n.op.ConstDeclareNode? || n.op.DefineModuleNode? || n.op.DefineClassNode?)
      modifies this
      ensures Outcome(r, Current()) == EvalScope(old(Current()), n, fuel)
      decreases fuel, n, 0, 0
    {
      match n.op.scope
      case None => r := Ok(ModuleRef(ObjectId));
      case Some(s) => r := Process(s, fuel);
    }

    method OnConstDeclare(n: Node, fuel: nat) returns (r: Result<Value>)
      requires Valid() && n.op.ConstDeclareNode?
      modifies this
      ensures Outcome(r, Current()) == InterpreterEval.OnConstDeclare(old(Current()), n, fuel)
      decreases fuel, n, 1, 0
    {
      var scope := ProcessScope(n, fuel);
      if scope.Err? {
        return scope;
      }
      r := Process(n.op.value, fuel);
      if r.Err? {
        return;
      }
      match ModuleOf(Current(), scope.value)
      case None =>
        r := Err(NotAModule);
      case Some(id) =>
        if DefinesConst(Current(), id, n.op.name) {
          r := Err(Exception(InterpreterError, "already initialized constant " + n.op.name));
        } else {
          modules := ConstSet(Current(), id, n.op.name, r.value).modules;
        }
    }

    method OnDefineModule(n: Node, fuel: nat) returns (r: Result<Value>)
      requires Valid() && n.op.DefineModuleNode?
      modifies this
      ensures Outcome(r, Current()) == InterpreterEval.OnDefineModule(old(Current()), n, fuel)
      decreases fuel, n, 1, 0
    {
      var scope := ProcessScope(n, fuel);
      if scope.Err? {
        return scope;
      }
      match ModuleOf(Current(), scope.value)
      case None =>
        r := Err(NotAModule);
      case Some(id) =>
        r := ConstGet(Current(), id, n.op.name);
        if r.Ok? {
          if r.value != Undef {
            if ModuleOf(Current(), r.value).None? {
              r := Err(Exception(InterpreterError, n.op.name + " is not a module"));
            }
          } else {
            r := Ok(ModuleRef(|modules|));
            modules := NewModule(Current()).modules;
            modules := ConstSet(Current(), id, n.op.name, r.value).modules;
          }
        }
    }

    /** The superclass of a `define_class`, `Object` when the node is absent. */
    method ProcessSuperclass(n: Node, fuel: nat) returns (r: Result<Value>)
      requires Valid() && n.op.DefineClassNode?
      modifies this
      ensures Outcome(r, Current()) == EvalSuperclass(old(Current()), n, fuel)
      decreases fuel, n, 0, 0
    {
      match n.op.superclass
      case None => r := Ok(ModuleRef(ObjectId));
      case Some(s) => r := Process(s, fuel);
    }

    method OnDefineClass(n: Node, fuel: nat) returns (r: Result<Value>)
      requires Valid() && n.op.DefineClassNode?
      modifies this
      ensures Outcome(r, Current()) == InterpreterEval.OnDefineClass(old(Current()), n, fuel)
      decreases fuel, n, 1, 0
    {
      var superclass := ProcessSuperclass(n, fuel);
      if superclass.Err? {
        return superclass;
      }
      var scope := ProcessScope(n, fuel);
      if scope.Err? {
        return scope;
      }
      match ModuleOf(Current(), scope.value)
      case None =>
        r := Err(NotAModule);
      case Some(id) =>
        r := ConstGet(Current(), id, n.op.name);
        if r.Ok? {
          if r.value != Undef {
            if !IsClass(Current(), r.value) {
              r := Err(Exception(InterpreterError, n.op.name + " is not a class"));
            }
          } else if !IsClass(Current(), superclass.value) {
            r := Err(Exception(ArgumentError, "superclass must be a class"));
          } else {
            r := Ok(ModuleRef(|modules|));
            modules := NewClass(Current(), superclass.value.id).modules;
            modules := ConstSet(Current(), id, n.op.name, r.value).modules;
          }
        }
    }

    // ---- control flow ----

    method OnIf(n: Node, fuel: nat) returns (r: Result<Value>)
      requires Valid() && n.op.IfNode?
      modifies this
      ensures Outcome(r, Current()) == InterpreterEval.OnIf(old(Current()), n, fuel)
      decreases fuel, n, 1, 0
    {
      var c := Process(n.op.cond, fuel);
      if c.Err? {
        return c;
      }
      if c.value == Nil || c.value == False {
        r := Process(n.op.ifFalse, fuel);
      } else {
        r := Process(n.op.ifTrue, fuel);
      }
    }

    /** `process_loop`: a `while true` loop, each round spending one unit of `fuel`. */
    method ProcessLoop(n: Node, breakOn: bool, fuel: nat) returns (r: Result<Value>)
      requires Valid() && (n.op.WhileNode? || n.op.UntilNode?)
      modifies this
      ensures Outcome(r, Current()) == InterpreterEval.ProcessLoop(old(Current()), n, breakOn, fuel)
      decreases fuel, n, 1, 1
    {
      ghost var start := Current();
      var f: nat := fuel;
      while true
        invariant f <= fuel && Valid()
        invariant InterpreterEval.ProcessLoop(Current(), n, breakOn, f) == InterpreterEval.ProcessLoop(start, n, breakOn, fuel)
        decreases f
      {
        var done;
        done, r := LoopRound(n, breakOn, f);
        if done {
          return;
        }
        ghost var before := f;
        f := f - 1;
        SameLoopFuel(Current(), n, breakOn, f, before - 1);
      }
    }

    /**
     * One round of `process_loop`: the condition, then (unless it breaks)
     * the body. `done` says the loop is over with result `r` (also when no
     * fuel is left); otherwise the loop goes on with one unit of fuel less.
     */
    method LoopRound(n: Node, breakOn: bool, fuel: nat) returns (done: bool, r: Result<Value>)
      requires Valid() && (n.op.WhileNode? || n.op.UntilNode?)
      modifies this
      ensures Valid()
      ensures done ==> Outcome(r, Current()) == InterpreterEval.ProcessLoop(old(Current()), n, breakOn, fuel)
      ensures !done ==> fuel > 0 && InterpreterEval.ProcessLoop(Current(), n, breakOn, fuel - 1) == InterpreterEval.ProcessLoop(old(Current()), n, breakOn, fuel)
      decreases fuel, n, 1, 0
    {
      if fuel == 0 {
        return true, Err(Exception(FuelExhausted, "loop bound reached"));
      }
      var c := Process(n.op.cond, fuel);
      if c.Err? {
        return true, c;
      }
      if Truthy(c.value) == breakOn {
        return true, Ok(Nil);
      }
      r := Process(n.op.loopBody, fuel);
      done := r.Err?;
    }

    method OnCheckArity(n: Node, fuel: nat) returns (r: Result<Value>)
      requires Valid() && n.op.CheckArityNode?
      modifies this
      ensures Outcome(r, Current()) == InterpreterEval.OnCheckArity(old(Current()), n, fuel)
      decreases fuel, n, 1, 0
    {
      var a := Process(n.op.args, fuel);
      if a.Err? {
        return a;
      }
      if !a.value.Tuple? {
        return Err(NotATuple);
      }
      r := CheckArity(|a.value.elems|, n.op.from, n.op.upTo);
    }
  }
}

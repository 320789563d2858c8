/**
 * Properties of the interpreter's handlers, stated over the functions of
 * `InterpreterEval` (which the `Interpreter` class is proved to follow).
 */
module InterpreterProperties {
  import opened Wrappers
  import opened Objects
  import opened InterpreterNodes
  import opened InterpreterState
  import opened InterpreterPrimitives
  import opened InterpreterEval

  // ---- truthiness in `if`, `while` and `until` ----

  /** `if` runs the false branch exactly when the condition is NIL or FALSE. */
  lemma IfFollowsTruthiness(st: State, n: Node, fuel: nat)
    requires WF(st) && n.op.IfNode?
    ensures var c := Eval(st, n.op.cond, fuel);
      && (c.result.Err? ==> OnIf(st, n, fuel) == c)
      && (c.result.Ok? && (c.result.value == Nil || c.result.value == False) ==> OnIf(st, n, fuel) == Eval(c.state, n.op.ifFalse, fuel))
      && (c.result.Ok? && c.result.value != Nil && c.result.value != False ==> OnIf(st, n, fuel) == Eval(c.state, n.op.ifTrue, fuel))
  {
  }

  /** A loop that finishes normally yields NIL. */
  lemma {:induction false} LoopYieldsNil(st: State, n: Node, breakOn: bool, fuel: nat)
    requires WF(st) && (n.op.WhileNode? || n.op.UntilNode?)
    ensures var o := ProcessLoop(st, n, breakOn, fuel); o.result.Ok? ==> o.result.value == Nil
    decreases fuel
  {
    if fuel > 0 {
      var c := Eval(st, n.op.cond, fuel);
      if c.result.Ok? && Truthy(c.result.value) != breakOn {
        var b := Eval(c.state, n.op.loopBody, fuel);
        if b.result.Ok? {
          LoopYieldsNil(b.state, n, breakOn, fuel - 1);
        }
      }
    }
  }

  /** A literal node yields its value and leaves the state as it was. */
  lemma LeafLeavesState(st: State, n: Node, fuel: nat)
    requires WF(st) && IsLeafOp(n.op)
    ensures Eval(st, n, fuel) == Outcome(Ok(Leaf(st, n.op)), st)
  {
  }

  /** `while false` and `while nil` never run their body; `until` with a truthy literal neither. */
  lemma LoopOnFixedCondition(st: State, n: Node, fuel: nat)
    requires WF(st) && (n.op.WhileNode? || n.op.UntilNode?) && IsLeafOp(n.op.cond.op) && fuel > 0
    requires n.op.WhileNode? ==> n.op.cond.op.NilNode? || n.op.cond.op.FalseNode?
    requires n.op.UntilNode? ==> n.op.cond.op.TrueNode? || n.op.cond.op.IntegerNode?
    ensures Handle(st, n, fuel) == Outcome(Ok(Nil), st)
  {
    LeafLeavesState(st, n.op.cond, fuel);
    var breakOn := n.op.UntilNode?;
    assert Truthy(Leaf(st, n.op.cond.op)) == breakOn;
    assert ProcessLoop(st, n, breakOn, fuel) == Outcome(Ok(Nil), st);
    assert Handle(st, n, fuel) == HandleControl(st, n, fuel);
  }

  // ---- `let` ----

  /** Chaining a new scope keeps every variable of the enclosing chain visible. */
  lemma NewScopeSeesOuter(st: State, name: string)
    requires WF(st) && st.binding.Some?
    ensures Lookup(NewScope(st), name) == Lookup(st, name)
  {
    var inner := NewScope(st);
    FindScopeExtend(st.scopes, inner.scopes, st.binding.value, name);
  }

  /** Adding scopes on top does not change what an existing chain finds. */
  lemma {:induction false} FindScopeExtend(scopes: seq<Scope>, more: seq<Scope>, b: nat, name: string)
    requires |scopes| <= |more| && more[..|scopes|] == scopes && b < |scopes|
    ensures FindScope(more, b, name) == FindScope(scopes, b, name)
    decreases b
  {
    assert more[b] == scopes[b];
    if name !in scopes[b].vars && scopes[b].parent.Some? && scopes[b].parent.value < b {
      FindScopeExtend(scopes, more, scopes[b].parent.value, name);
    }
  }

  /**
   * The initialisers of a `let` run in order: once the `i`-th is
   * evaluated, its variable is defined in the new scope (visible to the
   * rest of the initialisers and to the body) before the next one runs.
   */
  lemma DefinesBeforeNext(st: State, n: Node, i: nat, fuel: nat)
    requires WF(st) && n.op.LetNode? && i < |n.op.vars| && st.binding.Some?
    ensures var o := Eval(st, n.op.vars[i].value, fuel);
      o.result.Ok? ==>
        && Define(o.state, n.op.vars[i].name, o.result.value).Ok?
        && var s := Define(o.state, n.op.vars[i].name, o.result.value).value;
        && Lookup(s, n.op.vars[i].name) == Ok(o.result.value)
        && DefineVars(st, n, i, fuel) == DefineVars(s, n, i + 1, fuel)
  {
  }

  /** A `let` with an empty body yields NIL once its initialisers succeed. */
  lemma EmptyLetYieldsNil(st: State, n: Node, fuel: nat)
    requires WF(st) && n.op.LetNode? && n.op.body == []
    ensures DefineVars(NewScope(st), n, 0, fuel).result.Ok? ==> OnLet(st, n, fuel).result == Ok(Nil)
  {
  }

  // ---- `eval_mut!` ----

  /** After `eval_mut!` succeeds, the variable holds the assigned value. */
  lemma EvalMutAssigns(st: State, n: Node, fuel: nat)
    requires WF(st) && n.op.EvalMutNode?
    ensures var o := OnEvalMut(st, n, fuel); o.result.Ok? ==> Lookup(o.state, n.op.name) == Ok(o.result.value)
  {
  }

  /**
   * `eval_mut!` of an undefined variable: the variable is already defined
   * when the value is evaluated, and once `eval_mut!` succeeds it is
   * defined and holds the value.
   */
  lemma EvalMutDefinesFirst(st: State, n: Node, fuel: nat)
    requires WF(st) && n.op.EvalMutNode? && IsDefined(st, n.op.name) == Ok(false)
    ensures Define(st, n.op.name, Nil).Ok? && IsDefined(Define(st, n.op.name, Nil).value, n.op.name) == Ok(true)
    ensures var o := OnEvalMut(st, n, fuel);
      o.result.Ok? ==> IsDefined(o.state, n.op.name) == Ok(true) && Lookup(o.state, n.op.name) == Ok(o.result.value)
  {
    var d := Define(st, n.op.name, Nil).value;
    assert OnChain(d.scopes, d.binding.value, d.binding.value) && DefinesVar(d.scopes, d.binding.value, n.op.name);
    EvalMutAssigns(st, n, fuel);
  }

  // ---- tuples ----

  /** The elements built so far stay, in order, at the front of the tuple `array` returns. */
  lemma {:induction false} ArrayKeepsPrefix(st: State, n: Node, i: nat, parts: seq<Part>, fuel: nat)
    requires WF(st) && n.op.ArrayNode? && i <= |n.op.elems|
    ensures var o := EvalElems(st, n, i, parts, fuel);
      o.result.Ok? ==> o.result.value.Tuple? && Splice(parts) <= o.result.value.elems
    decreases |n.op.elems| - i
  {
    if i < |n.op.elems| {
      var o := Eval(st, n.op.elems[i].node, fuel);
      if o.result.Ok? {
        var p := if n.op.elems[i].Plain? then One(o.result.value) else Spliced(if o.result.value.Tuple? then o.result.value.elems else []);
        if n.op.elems[i].Plain? || o.result.value.Tuple? {
          ArrayKeepsPrefix(o.state, n, i + 1, parts + [p], fuel);
          SpliceAppend(parts, [p]);
        }
      }
    }
  }

  /**
   * The values of the element nodes from the `i`-th on, each evaluated in
   * the state the previous one left; `None` once one of them raises.
   */
  function PlainValues(st: State, n: Node, i: nat, fuel: nat): (r: Option<seq<Value>>)
    requires WF(st) && n.op.ArrayNode? && i <= |n.op.elems|
    ensures r.Some? ==> |r.value| == |n.op.elems| - i
    decreases |n.op.elems| - i
  {
    if i == |n.op.elems| then Some([])
    else
      var o := Eval(st, n.op.elems[i].node, fuel);
      if o.result.Err? then None
      else match PlainValues(o.state, n, i + 1, fuel)
        case None => None
        case Some(vs) => Some([o.result.value] + vs)
  }

  /**
   * Without splats, `array` succeeds exactly when every element node does,
   * and the tuple holds the elements built so far followed by the value of
   * each element node, in order.
   */
  lemma {:induction false} ArrayWithoutSplats(st: State, n: Node, i: nat, parts: seq<Part>, fuel: nat)
    requires WF(st) && n.op.ArrayNode? && i <= |n.op.elems|
    requires forall j :: 0 <= j < |n.op.elems| ==> n.op.elems[j].Plain?
    requires forall j :: 0 <= j < |parts| ==> parts[j].One?
    ensures var o := EvalElems(st, n, i, parts, fuel);
      && (o.result.Ok? <==> PlainValues(st, n, i, fuel).Some?)
      && (o.result.Ok? ==> o.result.value == Tuple(Splice(parts) + PlainValues(st, n, i, fuel).value))
      && (o.result.Ok? ==> |o.result.value.elems| == |parts| + |n.op.elems| - i)
    decreases |n.op.elems| - i
  {
    SpliceWithoutSplats(parts);
    if i < |n.op.elems| {
      var o := Eval(st, n.op.elems[i].node, fuel);
      if o.result.Ok? {
        var next := parts + [One(o.result.value)];
        ArrayWithoutSplats(o.state, n, i + 1, next, fuel);
        SpliceAppend(parts, [One(o.result.value)]);
        var rest := PlainValues(o.state, n, i + 1, fuel);
        if rest.Some? {
          assert Splice(next) + rest.value == Splice(parts) + ([o.result.value] + rest.value);
        }
      }
    }
  }

  /** `array_slice` with bounds inside the tuple yields the elements `from` to `to`, both included. */
  lemma SliceNodeIsInclusive(st: State, n: Node, fuel: nat)
    requires WF(st) && n.op.ArraySliceNode?
    requires var a := Eval(st, n.op.tuple, fuel);
      a.result.Ok? && a.result.value.Tuple? && 0 <= n.op.from <= n.op.to < |a.result.value.elems|
    ensures var a := Eval(st, n.op.tuple, fuel);
      OnArraySlice(st, n, fuel).result == Ok(Tuple(a.result.value.elems[n.op.from..n.op.to + 1]))
  {
    var a := Eval(st, n.op.tuple, fuel);
    SliceInRange(a.result.value.elems, n.op.from, n.op.to);
  }

  /**
   * `array_unshift` puts the value in front of the tuple's elements: the
   * result's first element is the value and the rest is the old tuple. A
   * value that is not a tuple raises.
   */
  lemma UnshiftNodePrepends(st: State, n: Node, fuel: nat)
    requires WF(st) && n.op.ArrayUnshiftNode?
    ensures var a := Eval(st, n.op.tuple, fuel);
      var o := OnArrayUnshift(st, n, fuel);
      o.result.Ok? ==>
        && a.result.Ok? && a.result.value.Tuple? && o.result.value.Tuple?
        && |o.result.value.elems| == |a.result.value.elems| + 1
        && o.result.value.elems[0] == Eval(a.state, n.op.value, fuel).result.value
        && o.result.value.elems[1..] == a.result.value.elems
    ensures var a := Eval(st, n.op.tuple, fuel);
      a.result.Ok? && !a.result.value.Tuple? && Eval(a.state, n.op.value, fuel).result.Ok? ==>
        OnArrayUnshift(st, n, fuel).result == Err(NotATuple)
  {
    var a := Eval(st, n.op.tuple, fuel);
    var o := OnArrayUnshift(st, n, fuel);
    if o.result.Ok? {
      var v := Eval(a.state, n.op.value, fuel);
      assert o.result.value.elems == [v.result.value] + a.result.value.elems;
    }
  }

  /** `array_bigger_than` yields TRUE exactly when the tuple is longer than `length`, FALSE otherwise. */
  lemma BiggerThanNodeCompares(st: State, n: Node, fuel: nat)
    requires WF(st) && n.op.ArrayBiggerThanNode?
    ensures var a := Eval(st, n.op.tuple, fuel);
      a.result.Ok? && a.result.value.Tuple? ==>
        OnArrayBiggerThan(st, n, fuel).result == Ok(if |a.result.value.elems| > n.op.length then True else False)
  {
  }

  /** `check_arity` raises exactly when the argument count is outside `from..upTo`, and yields NIL otherwise. */
  lemma CheckArityNodeRaises(st: State, n: Node, fuel: nat)
    requires WF(st) && n.op.CheckArityNode?
    ensures var a := Eval(st, n.op.args, fuel);
      a.result.Ok? && a.result.value.Tuple? ==>
        var o := OnCheckArity(st, n, fuel);
        && (o.result.Err? <==> ArityViolated(|a.result.value.elems|, n.op.from, n.op.upTo))
        && (o.result.Ok? ==> o.result.value == Nil)
  {
  }

  // ---- constant lookup ----

  /** Is `v` a module of the VM? */
  predicate IsModule(st: State, v: Value) {
    ModuleOf(st, v).Some?
  }

  /** Is `v` a module of the VM that itself defines `name`? */
  predicate ScopeDefines(st: State, v: Value, name: string) {
    ModuleOf(st, v).Some? && DefinesConst(st, v.id, name)
  }

  /** Over scopes that are all modules, `find_const_in` never raises, and yields UNDEF when no scope defines the name. */
  lemma {:induction false} FindConstInOverModules(st: State, scopes: seq<Value>, name: string)
    requires forall j :: 0 <= j < |scopes| ==> IsModule(st, scopes[j])
    ensures FindConstIn(st, scopes, name).Ok?
    ensures (forall j :: 0 <= j < |scopes| ==> !ScopeDefines(st, scopes[j], name)) ==> FindConstIn(st, scopes, name) == Ok(Undef)
  {
    if |scopes| > 0 {
      assert ModuleOf(st, scopes[0]).Some?;
      FindConstInOverModules(st, scopes[1..], name);
    }
  }

  /** `find_const_in` yields the constant of the first scope that defines the name. */
  lemma {:induction false} FindConstInFirst(st: State, scopes: seq<Value>, name: string, k: nat)
    requires k < |scopes| && forall j :: 0 <= j <= k ==> IsModule(st, scopes[j])
    requires forall j :: 0 <= j < k ==> !ScopeDefines(st, scopes[j], name)
    requires ScopeDefines(st, scopes[k], name)
    ensures FindConstIn(st, scopes, name) == Ok(st.modules[scopes[k].id].consts[name])
  {
    assert ModuleOf(st, scopes[0]).Some?;
    if k > 0 {
      FindConstInFirst(st, scopes[1..], name, k - 1);
    }
  }

  /** `const_get` on a module of the VM never raises: every ancestor is a module. */
  lemma ConstGetNeverRaises(st: State, id: nat, name: string)
    requires AncestorsExist(st.modules) && id < |st.modules|
    ensures ConstGet(st, id, name).Ok?
  {
    FindConstInOverModules(st, AncestorRefs(st, id), name);
  }

  /** `const_get` finds a module's own constant before any inherited one. */
  lemma ConstGetOwnFirst(st: State, id: nat, name: string)
    requires AncestorsExist(st.modules) && id < |st.modules| && DefinesConst(st, id, name)
    ensures ConstGet(st, id, name) == Ok(st.modules[id].consts[name])
  {
    assert AncestorRefs(st, id)[0] == ModuleRef(id);
  }

  /** Setting a constant keeps every module's ancestors valid. */
  lemma ConstSetKeepsAncestors(st: State, id: nat, name: string, v: Value)
    requires WF(st) && id < |st.modules| && AncestorsExist(st.modules)
    ensures AncestorsExist(ConstSet(st, id, name, v).modules)
  {
  }

  /** A new module keeps every module's ancestors valid. */
  lemma NewModuleKeepsAncestors(st: State)
    requires WF(st) && AncestorsExist(st.modules)
    ensures AncestorsExist(NewModule(st).modules)
  {
  }

  /** A new class keeps every module's ancestors valid, and has its superclass's ancestors after itself. */
  lemma NewClassKeepsAncestors(st: State, superclass: nat)
    requires WF(st) && superclass < |st.modules| && AncestorsExist(st.modules)
    ensures AncestorsExist(NewClass(st, superclass).modules)
    ensures NewClass(st, superclass).modules[|st.modules|].ancestors[1..] == st.modules[superclass].ancestors
  {
    var r := NewClass(st, superclass);
    forall m, j | 0 <= m < |r.modules| && 0 <= j < |r.modules[m].ancestors|
      ensures r.modules[m].ancestors[j] < |r.modules|
    {
      if m == |st.modules| && j > 0 {
        assert r.modules[m].ancestors[j] == st.modules[superclass].ancestors[j - 1];
      }
    }
  }

  // ---- constant nodes ----

  /** `const_ref_in` with an empty scope list looks the name up in `Object`, and raises when `Object` does not see it. */
  lemma EmptyCrefMeansObject(st: State, n: Node, fuel: nat)
    requires WF(st) && n.op.ConstRefInNode?
    requires var o := Eval(st, n.op.cref, fuel); o.result == Ok(Tuple([])) && AncestorsExist(o.state.modules)
    ensures var o := Eval(st, n.op.cref, fuel);
      && ConstGet(o.state, ObjectId, n.op.name).Ok?
      && OnConstRefIn(st, n, fuel).result ==
        if ConstGet(o.state, ObjectId, n.op.name) == Ok(Undef)
        then Err(Exception(InterpreterError, "uninitialized constant " + n.op.name))
        else ConstGet(o.state, ObjectId, n.op.name)
  {
    var o := Eval(st, n.op.cref, fuel);
    ConstGetNeverRaises(o.state, ObjectId, n.op.name);
    var objectOnly := [ModuleRef(ObjectId)];
    if DefinesConst(o.state, ObjectId, n.op.name) {
      ConstGetOwnFirst(o.state, ObjectId, n.op.name);
      assert FindConstIn(o.state, objectOnly, n.op.name) == Ok(o.state.modules[ObjectId].consts[n.op.name]);
    } else {
      assert FindConstIn(o.state, objectOnly[1..], n.op.name) == Ok(Undef);
    }
  }

  /** `const_ref_in` raises "uninitialized constant" when neither the scopes nor the first scope's ancestors define the name. */
  lemma UndefinedConstantRaises(st: State, n: Node, fuel: nat)
    requires WF(st) && n.op.ConstRefInNode?
    requires var o := Eval(st, n.op.cref, fuel);
      && o.result.Ok? && o.result.value.Tuple? && |o.result.value.elems| > 0
      && (forall j :: 0 <= j < |o.result.value.elems| ==> IsModule(o.state, o.result.value.elems[j]))
      && (forall j :: 0 <= j < |o.result.value.elems| ==> !ScopeDefines(o.state, o.result.value.elems[j], n.op.name))
      && AncestorsExist(o.state.modules)
      && ConstGet(o.state, o.result.value.elems[0].id, n.op.name) == Ok(Undef)
    ensures OnConstRefIn(st, n, fuel).result == Err(Exception(InterpreterError, "uninitialized constant " + n.op.name))
  {
    var o := Eval(st, n.op.cref, fuel);
    FindConstInOverModules(o.state, o.result.value.elems, n.op.name);
  }

  /** Declaring the same constant twice in `Object` raises the second time. */
  lemma RedeclarationRaises(st: State, n: Node, fuel: nat)
    requires WF(st) && n.op.ConstDeclareNode? && n.op.scope.None? && IsLeafOp(n.op.value.op)
    ensures var o := OnConstDeclare(st, n, fuel);
      o.result.Ok? ==> OnConstDeclare(o.state, n, fuel).result == Err(Exception(InterpreterError, "already initialized constant " + n.op.name))
  {
    var o := OnConstDeclare(st, n, fuel);
    LeafLeavesState(st, n.op.value, fuel);
    if o.result.Ok? {
      LeafLeavesState(o.state, n.op.value, fuel);
    }
  }

  /** A successful declaration leaves the constant set to the declared value in the scope. */
  lemma DeclarationSetsConstant(st: State, n: Node, fuel: nat)
    requires WF(st) && n.op.ConstDeclareNode?
    ensures var o := OnConstDeclare(st, n, fuel);
      var s := EvalScope(st, n, fuel);
      o.result.Ok? ==>
        && s.result.Ok? && s.result.value.ModuleRef? && s.result.value.id < |o.state.modules|
        && DefinesConst(o.state, s.result.value.id, n.op.name)
        && o.state.modules[s.result.value.id].consts[n.op.name] == o.result.value
  {
  }

  /** `module Name` at the top level reopens the module the first one created. */
  lemma DefineModuleReopens(st: State, n: Node, fuel: nat)
    requires WF(st) && n.op.DefineModuleNode? && n.op.scope.None? && AncestorsExist(st.modules)
    ensures var o := OnDefineModule(st, n, fuel);
      o.result.Ok? ==> o.result.value.ModuleRef? && OnDefineModule(o.state, n, fuel) == o
  {
    var o := OnDefineModule(st, n, fuel);
    ConstGetNeverRaises(st, ObjectId, n.op.name);
    if ConstGet(st, ObjectId, n.op.name) == Ok(Undef) {
      var created := NewModule(st);
      var made := ModuleRef(|st.modules|);
      NewModuleKeepsAncestors(st);
      ConstSetKeepsAncestors(created, ObjectId, n.op.name, made);
      ConstGetOwnFirst(o.state, ObjectId, n.op.name);
    }
  }

  /** `class Name` at the top level (no superclass given) reopens the class the first one created. */
  lemma DefineClassReopens(st: State, n: Node, fuel: nat)
    requires WF(st) && n.op.DefineClassNode? && n.op.scope.None? && n.op.superclass.None? && AncestorsExist(st.modules)
    ensures var o := OnDefineClass(st, n, fuel);
      o.result.Ok? ==> IsClass(o.state, o.result.value) && OnDefineClass(o.state, n, fuel) == o
  {
    var o := OnDefineClass(st, n, fuel);
    ConstGetNeverRaises(st, ObjectId, n.op.name);
    if ConstGet(st, ObjectId, n.op.name) == Ok(Undef) {
      var created := NewClass(st, ObjectId);
      var made := ModuleRef(|st.modules|);
      NewClassKeepsAncestors(st, ObjectId);
      ConstSetKeepsAncestors(created, ObjectId, n.op.name, made);
      ConstGetOwnFirst(o.state, ObjectId, n.op.name);
    }
  }
}

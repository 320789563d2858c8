/**
 * The state that the interpreter's handlers read and update: the binding
 * chain of lexical scopes, the stack of enclosing scope nodes, the node
 * being processed, and the VM's modules with their constants.
 */
module InterpreterState {
  import opened Wrappers
  import opened Objects
  import opened InterpreterNodes

  /** One lexical scope: its variables and the scope it was chained from. */
  datatype Scope = Scope(vars: map<string, Value>, parent: Option<nat>)

  /** A VM module or class: its own constants and its ancestors, itself first. */
  datatype ModuleObj = ModuleObj(isClass: bool, consts: map<string, Value>, ancestors: seq<nat>)

  /** `VI::Object`, the root class, is module 0. */
  const ObjectId: nat := 0

  /**
   * `selfValue`, `args` and `block` are fixed when the interpreter is made.
   * Scopes live in an arena indexed by position, so that a binding chain is
   * shared: restoring `binding` after a `let` keeps every update made to
   * the outer scopes in the meantime. Modules are referred to by position
   * (`ModuleRef(id)`) in the same way.
   */
  datatype State = State(
    selfValue: Value,
    args: Value,
    block: Value,
    scopes: seq<Scope>,
    binding: Option<nat>,
    scopeStack: seq<Node>,
    currentInsn: Option<Node>,
    modules: seq<ModuleObj>)

  /** Every scope was chained from an older one. */
  predicate ParentsBelow(scopes: seq<Scope>) {
    forall i :: 0 <= i < |scopes| && scopes[i].parent.Some? ==> scopes[i].parent.value < i
  }

  /** Ancestor chains start with the module itself and name existing modules. */
  predicate AncestorsExist(modules: seq<ModuleObj>) {
    && (forall m :: 0 <= m < |modules| ==> |modules[m].ancestors| > 0 && modules[m].ancestors[0] == m)
    && (forall m, j :: 0 <= m < |modules| && 0 <= j < |modules[m].ancestors| ==> modules[m].ancestors[j] < |modules|)
  }

  /** What the handlers rely on: the binding exists and `Object` is a class. */
  predicate WF(st: State) {
    && (st.binding.Some? ==> st.binding.value < |st.scopes|)
    && |st.modules| > ObjectId && st.modules[ObjectId].isClass
  }

  /** Scopes and modules are only ever added. */
  predicate Grows(before: State, after: State) {
    && |before.scopes| <= |after.scopes|
    && |before.modules| <= |after.modules|
  }

  // ---- bindings ----

  /**
   * Scope `s` lies on the chain that starts at `b`: it is `b` itself or on
   * the chain of `b`'s parent. Links only lead to older scopes; a link that
   * does not ends the chain.
   */
  predicate OnChain(scopes: seq<Scope>, b: nat, s: nat)
    decreases b
  {
    && b < |scopes|
    && (s == b
        || (scopes[b].parent.Some? && scopes[b].parent.value < b && OnChain(scopes, scopes[b].parent.value, s)))
  }

  /** Scope `t` exists and defines `name` itself. */
  predicate DefinesVar(scopes: seq<Scope>, t: nat, name: string) {
    t < |scopes| && name in scopes[t].vars
  }

  /** Every scope on a chain is at most its start. */
  lemma {:induction false} OnChainBelow(scopes: seq<Scope>, b: nat, s: nat)
    requires OnChain(scopes, b, s)
    ensures s <= b < |scopes|
    decreases b
  {
    if s != b {
      OnChainBelow(scopes, scopes[b].parent.value, s);
    }
  }

  /** No scope on a chain is newer than its start. */
  lemma NothingAbove(scopes: seq<Scope>, b: nat)
    ensures forall t: nat :: OnChain(scopes, b, t) ==> t <= b
  {
    forall t: nat | OnChain(scopes, b, t)
      ensures t <= b
    {
      OnChainBelow(scopes, b, t);
    }
  }

  /**
   * The nearest scope of the chain starting at `b` that defines `name`:
   * every scope on the chain before it (newer, so with a larger index) does
   * not, and `None` means no scope on the chain does.
   */
  function FindScope(scopes: seq<Scope>, b: nat, name: string): (r: Option<nat>)
    ensures r.Some? ==> OnChain(scopes, b, r.value) && DefinesVar(scopes, r.value, name)
    ensures r.Some? ==> forall t: nat :: OnChain(scopes, b, t) && t > r.value ==> !DefinesVar(scopes, t, name)
    ensures r.None? ==> forall t: nat :: OnChain(scopes, b, t) ==> !DefinesVar(scopes, t, name)
    decreases b
  {
    if b >= |scopes| then None
    else if name in scopes[b].vars then NothingAbove(scopes, b); Some(b)
    else match scopes[b].parent
      case None => None
      case Some(p) => if p < b then FindScope(scopes, p, name) else None
  }

  /** `Binding#chain` (or `VI.new_binding` without a binding): a fresh scope on top of the current one. */
  function NewScope(st: State): (r: State)
    requires WF(st)
    ensures WF(r) && Grows(st, r)
    ensures r == st.(scopes := r.scopes, binding := r.binding)
    ensures r.binding == Some(|st.scopes|) && |r.scopes| == |st.scopes| + 1
    ensures r.scopes[|st.scopes|] == Scope(map[], st.binding)
  {
    st.(scopes := st.scopes + [Scope(map[], st.binding)], binding := Some(|st.scopes|))
  }

  const NilBinding := Exception(NoMethodError, "undefined method for nil: no binding")

  /** `@binding.define(name, v)`: set `name` in the innermost scope. */
  function Define(st: State, name: string, v: Value): (r: Result<State>)
    requires WF(st)
    ensures r.Ok? <==> st.binding.Some?
    ensures r.Ok? ==> WF(r.value) && r.value == st.(scopes := r.value.scopes)
    ensures r.Ok? ==> |r.value.scopes| == |st.scopes|
    ensures r.Ok? ==> r.value.scopes[st.binding.value].vars == st.scopes[st.binding.value].vars[name := v]
    ensures r.Ok? ==> r.value.scopes[st.binding.value].parent == st.scopes[st.binding.value].parent
    ensures r.Ok? ==> forall i :: 0 <= i < |st.scopes| && i != st.binding.value ==> r.value.scopes[i] == st.scopes[i]
  {
    if st.binding.None? then Err(NilBinding)
    else
      var b := st.binding.value;
      Ok(st.(scopes := st.scopes[b := st.scopes[b].(vars := st.scopes[b].vars[name := v])]))
  }

  /** `@binding.defined?(name)`: does some scope on the binding's chain define `name`? */
  function IsDefined(st: State, name: string): (r: Result<bool>)
    requires WF(st)
    ensures r.Ok? <==> st.binding.Some?
    ensures r.Ok? ==> (r.value <==> exists t: nat :: OnChain(st.scopes, st.binding.value, t) && DefinesVar(st.scopes, t, name))
  {
    if st.binding.None? then Err(NilBinding)
    else Ok(FindScope(st.scopes, st.binding.value, name).Some?)
  }

  /** `@binding.apply(name)`: the value in the nearest scope that defines `name`. */
  function Lookup(st: State, name: string): (r: Result<Value>)
    requires WF(st)
    ensures r.Ok? <==> st.binding.Some? && FindScope(st.scopes, st.binding.value, name).Some?
    ensures r.Ok? ==> r.value == st.scopes[FindScope(st.scopes, st.binding.value, name).value].vars[name]
    ensures st.binding.Some? ==> (r.Ok? <==> exists t: nat :: OnChain(st.scopes, st.binding.value, t) && DefinesVar(st.scopes, t, name))
  {
    if st.binding.None? then Err(NilBinding)
    else match FindScope(st.scopes, st.binding.value, name)
      case None => Err(Exception(RuntimeError, "undefined local variable " + name))
      case Some(s) => Ok(st.scopes[s].vars[name])
  }

  /** `@binding.mutate(name, v)`: update `name` in the nearest scope that defines it. */
  function Mutate(st: State, name: string, v: Value): (r: Result<State>)
    requires WF(st)
    ensures r.Ok? <==> st.binding.Some? && FindScope(st.scopes, st.binding.value, name).Some?
    ensures r.Ok? ==> WF(r.value) && r.value == st.(scopes := r.value.scopes) && |r.value.scopes| == |st.scopes|
    ensures r.Ok? ==> Lookup(r.value, name) == Ok(v)
    ensures r.Ok? ==>
      var s := FindScope(st.scopes, st.binding.value, name).value;
      && r.value.scopes[s] == st.scopes[s].(vars := st.scopes[s].vars[name := v])
      && forall i :: 0 <= i < |st.scopes| && i != s ==> r.value.scopes[i] == st.scopes[i]
  {
    if st.binding.None? then Err(NilBinding)
    else match FindScope(st.scopes, st.binding.value, name)
      case None => Err(Exception(RuntimeError, "undefined local variable " + name))
      case Some(s) =>
        var r := st.(scopes := st.scopes[s := st.scopes[s].(vars := st.scopes[s].vars[name := v])]);
        assert FindScope(r.scopes, st.binding.value, name) == Some(s) by {
          FindScopeAfterUpdate(st.scopes, st.binding.value, name, s, v);
        }
        Ok(r)
  }

  /** Updating a variable in the scope that already holds it does not change where it is found. */
  lemma {:induction false} FindScopeAfterUpdate(scopes: seq<Scope>, b: nat, name: string, s: nat, v: Value)
    requires FindScope(scopes, b, name) == Some(s)
    ensures FindScope(scopes[s := scopes[s].(vars := scopes[s].vars[name := v])], b, name) == Some(s)
    decreases b
  {
    if name !in scopes[b].vars {
      FindScopeAfterUpdate(scopes, scopes[b].parent.value, name, s, v);
    }
  }

  // ---- modules and constants ----

  /** The module a value refers to, if it is one. */
  function ModuleOf(st: State, v: Value): (r: Option<nat>)
    ensures r.Some? <==> v.ModuleRef? && v.id < |st.modules|
    ensures r.Some? ==> r.value == v.id
  {
    if v.ModuleRef? && v.id < |st.modules| then Some(v.id) else None
  }

  /** Does module `id` itself (not its ancestors) define `name`? */
  predicate DefinesConst(st: State, id: nat, name: string)
    requires id < |st.modules|
  {
    name in st.modules[id].consts
  }

  /**
   * `find_const_in(scopes, name)`: the constant from the first scope that
   * defines it itself, or UNDEF. Asking a value that is not a module raises.
   */
  function FindConstIn(st: State, scopes: seq<Value>, name: string): (r: Result<Value>)
  {
    if |scopes| == 0 then Ok(Undef)
    else match ModuleOf(st, scopes[0])
      case None => Err(Exception(NoMethodError, "undefined method const_defined?"))
      case Some(id) =>
        if DefinesConst(st, id, name) then Ok(st.modules[id].consts[name])
        else FindConstIn(st, scopes[1..], name)
  }

  /** The ancestors of a module, as module values. */
  function AncestorRefs(st: State, id: nat): seq<Value>
    requires id < |st.modules|
  {
    seq(|st.modules[id].ancestors|, j requires 0 <= j < |st.modules[id].ancestors| => ModuleRef(st.modules[id].ancestors[j]))
  }

  /** `Module#const_get(name)`: `name` looked up along the module's ancestors. */
  function ConstGet(st: State, id: nat, name: string): Result<Value>
    requires id < |st.modules|
  {
    FindConstIn(st, AncestorRefs(st, id), name)
  }

  /** `Module#const_set(name, v)` on module `id`. */
  function ConstSet(st: State, id: nat, name: string, v: Value): (r: State)
    requires WF(st) && id < |st.modules|
    ensures WF(r) && Grows(st, r) && |r.modules| == |st.modules|
    ensures r == st.(modules := r.modules)
    ensures r.modules[id].consts == st.modules[id].consts[name := v]
    ensures r.modules[id].isClass == st.modules[id].isClass && r.modules[id].ancestors == st.modules[id].ancestors
    ensures forall m :: 0 <= m < |st.modules| && m != id ==> r.modules[m] == st.modules[m]
  {
    st.(modules := st.modules[id := st.modules[id].(consts := st.modules[id].consts[name := v])])
  }

  /** `VI.new_module`: a fresh module whose only ancestor is itself. */
  function NewModule(st: State): (r: State)
    requires WF(st)
    ensures WF(r) && Grows(st, r) && |r.modules| == |st.modules| + 1
    ensures r == st.(modules := r.modules) && r.modules[..|st.modules|] == st.modules
    ensures !r.modules[|st.modules|].isClass && r.modules[|st.modules|].consts == map[]
    ensures r.modules[|st.modules|].ancestors == [|st.modules|]
  {
    st.(modules := st.modules + [ModuleObj(false, map[], [|st.modules|])])
  }

  /** `VI.new_class(superclass)`: a fresh class whose ancestors are itself, then the superclass's. */
  function NewClass(st: State, superclass: nat): (r: State)
    requires WF(st) && superclass < |st.modules|
    ensures WF(r) && Grows(st, r) && |r.modules| == |st.modules| + 1
    ensures r == st.(modules := r.modules) && r.modules[..|st.modules|] == st.modules
    ensures r.modules[|st.modules|].isClass && r.modules[|st.modules|].consts == map[]
    ensures r.modules[|st.modules|].ancestors == [|st.modules|] + st.modules[superclass].ancestors
  {
    st.(modules := st.modules + [ModuleObj(true, map[], [|st.modules|] + st.modules[superclass].ancestors)])
  }
}

/**
 * `Codegen#emit_type`: how LIR types lower to LLVM layouts, and how a
 * local variable is addressed inside the lowered scope chain
 * (`LvarLoadInsn`/`LvarStoreInsn`).
 */
module CodegenTypes {
  import opened Wrappers
  import opened CodegenNames

  /** A VM class, by its name (if it has one) and its object id. */
  datatype ClassInfo = ClassInfo(name: Option<string>, id: nat)

  /** The LIR types the code generator meets. */
  datatype Ty =
    | Bottom
    | TupleTy(elems: seq<Ty>)
    /** A scope: its variables in order, and the enclosing scope's type. */
    | BindingTy(vars: seq<Var>, next: Option<Ty>)
    /** Instances of an ordinary (non-singleton) class. */
    | RubyTy(klass: ClassInfo)
    | MachineInteger(width: nat)
    /** Any type the lowering has no arm for. */
    | OtherTy(desc: string)

  datatype Var = Var(name: string, ty: Ty)

  /** LLVM types, with named structs by name (their bodies live in the LLVM module). */
  datatype Layout = Void | Struct(fields: seq<Layout>) | IntTy(width: nat) | Ptr(to: Layout) | Named(name: string)

  const UnableToLowerType := Exception(RuntimeError, "unable to lower type")

  /** The name of a class's instance struct: `i.` and the class body's name. */
  function ImpName(k: ClassInfo): string {
    "i." + Name(None, k.name, None, k.id)
  }

  /** `emit_type(type)`. */
  function Lower(t: Ty): (r: Result<Layout>)
    decreases t
  {
    match t
    case Bottom => Ok(Void)
    case TupleTy(es) =>
      (match LowerSeq(es)
       case Err(e) => Err(e)
       case Ok(fs) => Ok(Struct(fs)))
    case BindingTy(vs, next) =>
      (match LowerVars(vs)
       case Err(e) => Err(e)
       case Ok(fs) =>
         if next.None? then Ok(Struct(fs))
         else match Lower(next.value)
           case Err(e) => Err(e)
           case Ok(p) => Ok(Struct([p] + fs)))
    case RubyTy(k) => Ok(Ptr(Named(ImpName(k))))
    case MachineInteger(w) => Ok(IntTy(w))
    case OtherTy(_) => Err(UnableToLowerType)
  }

  /** The lowerings of a list of types, in order; the first failure wins. */
  function LowerSeq(ts: seq<Ty>): (r: Result<seq<Layout>>)
    decreases ts
  {
    if |ts| == 0 then Ok([])
    else match Lower(ts[0])
      case Err(e) => Err(e)
      case Ok(l) =>
        match LowerSeq(ts[1..])
        case Err(e) => Err(e)
        case Ok(ls) => Ok([l] + ls)
  }

  /** The lowerings of a scope's variable types, in order. */
  function LowerVars(vs: seq<Var>): (r: Result<seq<Layout>>)
    decreases vs
  {
    if |vs| == 0 then Ok([])
    else match Lower(vs[0].ty)
      case Err(e) => Err(e)
      case Ok(l) =>
        match LowerVars(vs[1..])
        case Err(e) => Err(e)
        case Ok(ls) => Ok([l] + ls)
  }

  /** Every type inside `t` has a lowering arm. */
  predicate Supported(t: Ty)
    decreases t
  {
    match t
    case TupleTy(es) => forall i :: 0 <= i < |es| ==> Supported(es[i])
    case BindingTy(vs, next) => (forall i :: 0 <= i < |vs| ==> Supported(vs[i].ty)) && (next.Some? ==> Supported(next.value))
    case OtherTy(_) => false
    case _ => true
  }

  /** A list of types lowers exactly when each does, to their lowerings in order. */
  lemma {:induction false} LowerSeqEach(ts: seq<Ty>)
    ensures LowerSeq(ts).Ok? <==> forall i :: 0 <= i < |ts| ==> Lower(ts[i]).Ok?
    ensures LowerSeq(ts).Ok? ==> |LowerSeq(ts).value| == |ts| && forall i :: 0 <= i < |ts| ==> LowerSeq(ts).value[i] == Lower(ts[i]).value
    decreases |ts|
  {
    if |ts| > 0 {
      LowerSeqEach(ts[1..]);
      assert forall i :: 1 <= i < |ts| ==> ts[1..][i - 1] == ts[i];
    }
  }

  /** A scope's variables lower exactly when each type does, to their lowerings in order. */
  lemma {:induction false} LowerVarsEach(vs: seq<Var>)
    ensures LowerVars(vs).Ok? <==> forall i :: 0 <= i < |vs| ==> Lower(vs[i].ty).Ok?
    ensures LowerVars(vs).Ok? ==> |LowerVars(vs).value| == |vs| && forall i :: 0 <= i < |vs| ==> LowerVars(vs).value[i] == Lower(vs[i].ty).value
    decreases |vs|
  {
    if |vs| > 0 {
      LowerVarsEach(vs[1..]);
      assert forall i :: 1 <= i < |vs| ==> vs[1..][i - 1] == vs[i];
    }
  }

  /** A type lowers exactly when it is supported throughout; otherwise lowering raises "unable to lower type". */
  lemma {:induction false} LowerIffSupported(t: Ty)
    ensures Lower(t).Ok? <==> Supported(t)
    ensures Lower(t).Err? ==> Lower(t).error == UnableToLowerType
    decreases t
  {
    match t
    case TupleTy(es) =>
      LowerSeqEach(es);
      forall i | 0 <= i < |es| { LowerIffSupported(es[i]); }
      LowerSeqError(es);
    case BindingTy(vs, next) =>
      LowerVarsEach(vs);
      forall i | 0 <= i < |vs| { LowerIffSupported(vs[i].ty); }
      LowerVarsError(vs);
      if next.Some? {
        LowerIffSupported(next.value);
      }
    case _ =>
  }

  lemma {:induction false} LowerSeqError(ts: seq<Ty>)
    requires forall i :: 0 <= i < |ts| ==> Lower(ts[i]).Err? ==> Lower(ts[i]).error == UnableToLowerType
    ensures LowerSeq(ts).Err? ==> LowerSeq(ts).error == UnableToLowerType
    decreases |ts|
  {
    if |ts| > 0 {
      assert forall i :: 1 <= i < |ts| ==> ts[1..][i - 1] == ts[i];
      LowerSeqError(ts[1..]);
    }
  }

  lemma {:induction false} LowerVarsError(vs: seq<Var>)
    requires forall i :: 0 <= i < |vs| ==> Lower(vs[i].ty).Err? ==> Lower(vs[i].ty).error == UnableToLowerType
    ensures LowerVars(vs).Err? ==> LowerVars(vs).error == UnableToLowerType
    decreases |vs|
  {
    if |vs| > 0 {
      assert forall i :: 1 <= i < |vs| ==> vs[1..][i - 1] == vs[i];
      LowerVarsError(vs[1..]);
    }
  }

  /** The first element that fails to lower decides the error of the whole list. */
  lemma {:induction false} LowerSeqFirstError(ts: seq<Ty>, i: nat)
    requires i < |ts| && (forall j :: 0 <= j < i ==> Lower(ts[j]).Ok?) && Lower(ts[i]).Err?
    ensures LowerSeq(ts) == Err(Lower(ts[i]).error)
    decreases i
  {
    if i > 0 {
      assert forall j :: 0 <= j < i - 1 ==> ts[1..][j] == ts[j + 1];
      LowerSeqFirstError(ts[1..], i - 1);
    }
  }

  /** The first variable whose type fails to lower decides the error of the whole scope. */
  lemma {:induction false} LowerVarsFirstError(vs: seq<Var>, i: nat)
    requires i < |vs| && (forall j :: 0 <= j < i ==> Lower(vs[j].ty).Ok?) && Lower(vs[i].ty).Err?
    ensures LowerVars(vs) == Err(Lower(vs[i].ty).error)
    decreases i
  {
    if i > 0 {
      assert forall j :: 0 <= j < i - 1 ==> vs[1..][j] == vs[j + 1];
      LowerVarsFirstError(vs[1..], i - 1);
    }
  }

  /** A tuple lowers to the struct of its element lowerings, in order. */
  lemma TupleLowering(es: seq<Ty>)
    requires Lower(TupleTy(es)).Ok?
    ensures var l := Lower(TupleTy(es)).value;
      l.Struct? && |l.fields| == |es| && forall i :: 0 <= i < |es| ==> Lower(es[i]).Ok? && l.fields[i] == Lower(es[i]).value
  {
    LowerSeqEach(es);
  }

  /**
   * A scope lowers to the struct of its variables' lowerings, after the
   * enclosing scope's own layout (held by value) when there is one.
   */
  lemma BindingLowering(vs: seq<Var>, next: Option<Ty>)
    requires Lower(BindingTy(vs, next)).Ok?
    ensures var l := Lower(BindingTy(vs, next)).value;
      var shift := if next.Some? then 1 else 0;
      && l.Struct? && |l.fields| == |vs| + shift
      && (next.Some? ==> Lower(next.value).Ok? && l.fields[0] == Lower(next.value).value)
      && forall i :: 0 <= i < |vs| ==> Lower(vs[i].ty).Ok? && l.fields[i + shift] == Lower(vs[i].ty).value
  {
    LowerVarsEach(vs);
    var fs := LowerVars(vs).value;
    var l := Lower(BindingTy(vs, next)).value;
    if next.Some? {
      var p := Lower(next.value).value;
      assert l == Struct([p] + fs);
      forall i | 0 <= i < |vs|
        ensures l.fields[i + 1] == Lower(vs[i].ty).value
      {
        assert ([p] + fs)[i + 1] == fs[i];
      }
    } else {
      assert l == Struct(fs);
    }
  }

  // ---- local-variable addressing ----

  /** The scope type reached after `depth` hops to the enclosing scope, if the chain is that long. */
  function Hop(t: Ty, depth: nat): Option<Ty>
    decreases depth
  {
    if depth == 0 then Some(t)
    else if t.BindingTy? && t.next.Some? then Hop(t.next.value, depth - 1)
    else None
  }

  /** `index_of(name)`: the position of the first variable called `name`. */
  function IndexOf(vs: seq<Var>, name: string): (r: Option<nat>)
    ensures r.Some? ==> r.value < |vs| && vs[r.value].name == name && forall j :: 0 <= j < r.value ==> vs[j].name != name
    ensures r.None? ==> forall j :: 0 <= j < |vs| ==> vs[j].name != name
  {
    if |vs| == 0 then None
    else if vs[0].name == name then Some(0)
    else match IndexOf(vs[1..], name)
      case None => None
      case Some(k) => Some(k + 1)
  }

  const NoScope := Exception(NoMethodError, "undefined method next for nil")
  const NoVariable := Exception(NoMethodError, "variable is not in the scope")

  /**
   * The field that holds `name` in the scope reached after `depth` hops:
   * its position in that scope, shifted by one when that scope has an
   * enclosing scope in field 0.
   */
  function LvarSlot(t: Ty, depth: nat, name: string): (r: Result<nat>)
  {
    match Hop(t, depth)
    case None => Err(NoScope)
    case Some(b) =>
      if !b.BindingTy? then Err(NoScope)
      else match IndexOf(b.vars, name)
        case None => Err(NoVariable)
        case Some(j) => Ok(if b.next.Some? then j + 1 else j)
  }

  /** Each hop through field 0 lands on the layout of the enclosing scope. */
  lemma HopFollowsFieldZero(t: Ty)
    requires t.BindingTy? && t.next.Some? && Lower(t).Ok?
    ensures Hop(t, 1) == Some(t.next.value)
    ensures Lower(t.next.value).Ok? && Lower(t).value.fields[0] == Lower(t.next.value).value
  {
    BindingLowering(t.vars, t.next);
  }

  /** The slot a load or store addresses holds exactly the variable's own layout. */
  lemma LvarSlotHoldsVariable(t: Ty, depth: nat, name: string)
    requires LvarSlot(t, depth, name).Ok?
    ensures var b := Hop(t, depth).value;
      var j := IndexOf(b.vars, name).value;
      && b.vars[j].name == name
      && LvarSlot(t, depth, name).value == j + (if b.next.Some? then 1 else 0)
      && (Lower(b).Ok? ==>
            var l := Lower(b).value;
            var slot := LvarSlot(t, depth, name).value;
            l.Struct? && slot < |l.fields| && Lower(b.vars[j].ty).Ok? && l.fields[slot] == Lower(b.vars[j].ty).value)
  {
    var b := Hop(t, depth).value;
    if Lower(b).Ok? {
      BindingLowering(b.vars, b.next);
    }
  }
}

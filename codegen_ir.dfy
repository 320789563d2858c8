/**
 * The vocabulary of the code generator: LIR functions on one side and,
 * on the other, the LLVM values and instructions it builds, kept as a log
 * of operations rather than built through the LLVM library.
 */
module CodegenIr {
  import opened Wrappers
  import opened Objects
  import opened CodegenTypes

  // ---- LIR ----

  /** VM objects the generated code refers to as constants. */
  datatype Datum = NilObj | TrueObj | FalseObj | Toplevel | OtherObj(id: nat)

  /** An LIR operand: a function argument, a basic block, an instruction's result or a constant. */
  datatype LirValue = Arg(index: nat) | BlockRef(blockName: string) | InsnRef(id: nat) | Constant(datum: Datum)

  /** One incoming edge of an LIR phi: the predecessor block and the value it brings. */
  datatype PhiOperand = PhiOperand(block: string, value: LirValue)

  datatype InsnKind =
    | BindingInsn(ty: Ty, next: LirValue)
    | LvarLoad(binding: LirValue, bindingTy: Ty, depth: nat, name: string)
    | LvarStore(binding: LirValue, bindingTy: Ty, depth: nat, name: string, value: LirValue)
    | TupleInsn(ty: Ty, operands: seq<LirValue>)
    | TupleRef(tuple: LirValue, index: nat)
    | TupleSlice(ty: Ty, tuple: LirValue, range: seq<nat>)
    | IntegerOp(operation: string, left: LirValue, right: LirValue)
    | Invoke(callee: string, arguments: seq<LirValue>)
    | Branch(target: string)
    | BranchIf(condition: LirValue, trueTarget: string, falseTarget: string)
    | PhiInsn(ty: Ty, edges: seq<PhiOperand>)
    | ReturnInsn(valueTy: Ty, value: LirValue)
    | TraceInsn(operand: LirValue, operandTy: Ty)
    /** An instruction class the code generator has no arm for. */
    | OtherInsn(className: string)

  /** An LIR instruction; `id` stands for the instruction object's identity. */
  datatype LirInsn = LirInsn(id: nat, kind: InsnKind)
  datatype LirBlock = LirBlock(name: string, insns: seq<LirInsn>)
  datatype LirArg = LirArg(name: string, ty: Ty)
  datatype LirFunction = LirFunction(name: string, arguments: seq<LirArg>, returnTy: Ty, blocks: seq<LirBlock>)

  /** No two instructions of `f` share an identity. */
  predicate UniqueIds(f: LirFunction) {
    forall b1, i1, b2, i2 ::
      0 <= b1 < |f.blocks| && 0 <= i1 < |f.blocks[b1].insns| && 0 <= b2 < |f.blocks| && 0 <= i2 < |f.blocks[b2].insns|
      && f.blocks[b1].insns[i1].id == f.blocks[b2].insns[i2].id
      ==> b1 == b2 && i1 == i2
  }

  /** The phi instructions among `insns`, in order. */
  function PhisIn(insns: seq<LirInsn>): (r: seq<LirInsn>)
    ensures |r| <= |insns|
    ensures forall j :: 0 <= j < |r| ==> r[j].kind.PhiInsn?
  {
    if |insns| == 0 then []
    else PhisIn(insns[..|insns| - 1]) + (if insns[|insns| - 1].kind.PhiInsn? then [insns[|insns| - 1]] else [])
  }

  /** The phi instructions of `blocks`, block by block. */
  function PhisOf(blocks: seq<LirBlock>): seq<LirInsn> {
    if |blocks| == 0 then [] else PhisOf(blocks[..|blocks| - 1]) + PhisIn(blocks[|blocks| - 1].insns)
  }

  // ---- LLVM ----

  /** LLVM values. */
  datatype LVal =
    /** Parameter `index` of the `fn`-th declared function. */
    | Param(fn: nat, index: nat)
    | BasicBlock(fn: nat, blockName: string)
    /** The result of the `index`-th instruction built. */
    | Reg(index: nat)
    /** An integer address cast to a pointer. */
    | PinnedAddr(addr: bv64, ty: Layout)
    /** A VM object emitted as a global. */
    | Global(datum: Datum)
    | UndefOf(ty: Layout)
    | Bitcast(v: LVal, ty: Layout)
    | I32(n: int)
    | I64(bits: bv64)
    | FunctionRef(fn: nat)

  datatype Pred = Slt | Sle | Sgt | Sge | Eq | Ne
  datatype ArithOp = Add | Sub | Mul | Div

  datatype Incoming = Incoming(block: LVal, value: LVal)

  /** LLVM instructions. */
  datatype LOp =
    | Alloca(ty: Layout)
    | Gep(base: LVal, path: seq<LVal>)
    | Store(value: LVal, ptr: LVal)
    | Load(ptr: LVal)
    | InsertValue(agg: LVal, elem: LVal, index: nat)
    | ExtractValue(agg: LVal, index: nat)
    | Arith(op: ArithOp, left: LVal, right: LVal)
    | ICmp(pred: Pred, left: LVal, right: LVal)
    | Select(cond: LVal, ifTrue: LVal, ifFalse: LVal)
    | Call(callee: LVal, args: seq<LVal>)
    | Br(target: LVal)
    | CondBr(cond: LVal, ifTrue: LVal, ifFalse: LVal)
    | Phi(ty: Layout, incoming: seq<Incoming>)
    | Ret(value: LVal)
    | RetVoid
    | PtrToInt(v: LVal)
    | And(left: LVal, right: LVal)
    | SExt(v: LVal)

  /** An instruction built in basic block `block`. */
  datatype LInsn = LInsn(block: LVal, op: LOp)

  /** A function declaration of the LLVM module. */
  datatype Decl = Decl(name: string, params: seq<Layout>, ret: Layout)

  /** `indices(values)`: each integer as an `i32` constant. */
  function Indices(vs: seq<int>): (r: seq<LVal>)
    ensures |r| == |vs| && forall i :: 0 <= i < |vs| ==> r[i] == I32(vs[i])
  {
    seq(|vs|, i requires 0 <= i < |vs| => I32(vs[i]))
  }

  /** `int_ptr_type`: pointers are handled as 64-bit integers. */
  const IntPtr := IntTy(64)

  // ---- immediates and truthiness ----

  /** The addresses `nil`, `true` and `false` are pinned at. */
  const NilAddr: bv64 := 0
  const TrueAddr: bv64 := 1
  const FalseAddr: bv64 := 2

  /** The bit `branch_if` clears before comparing with zero. */
  const FalseBit: bv64 := 2

  /** The pointer type a pinned immediate gets: a pointer to the empty struct `i.<class name>`. */
  function PinnedTy(className: string): Layout {
    Ptr(Named("i." + className))
  }

  /** The class a pinned immediate belongs to, and its address. */
  function PinnedClass(d: Datum): string
    requires d.NilObj? || d.TrueObj? || d.FalseObj?
  {
    if d.NilObj? then "NilClass" else if d.TrueObj? then "TrueClass" else "FalseClass"
  }

  function PinnedAddrOf(d: Datum): bv64
    requires d.NilObj? || d.TrueObj? || d.FalseObj?
  {
    if d.NilObj? then NilAddr else if d.TrueObj? then TrueAddr else FalseAddr
  }

  /** What `branch_if` tests: the condition's address with the FALSE bit cleared is not zero. */
  predicate BranchTakesTrue(addr: bv64) {
    addr & !FalseBit != 0
  }

  /** A conditional branch goes to its false target exactly for the addresses of `nil` and `false`. */
  lemma BranchFalseExactlyForNilAndFalse(addr: bv64)
    ensures !BranchTakesTrue(addr) <==> addr == NilAddr || addr == FalseAddr
  {
  }

  /** The datum the interpreter's immediates compile to. */
  function DatumOf(v: Value): Option<Datum> {
    match v
    case Nil => Some(NilObj)
    case True => Some(TrueObj)
    case False => Some(FalseObj)
    case _ => None
  }

  /** Compiled branches agree with the interpreter's truthiness on `nil`, `true` and `false`. */
  lemma BranchAgreesWithInterpreter(v: Value)
    requires DatumOf(v).Some?
    ensures BranchTakesTrue(PinnedAddrOf(DatumOf(v).value)) == Truthy(v)
  {
  }

  // ---- integer operations ----

  /** The signed comparison an LIR comparison operator lowers to. */
  function ComparePred(operation: string): (r: Option<Pred>)
    ensures r.Some? <==> operation in {"<", "<=", ">", ">=", "==", "!="}
  {
    if operation == "<" then Some(Slt)
    else if operation == "<=" then Some(Sle)
    else if operation == ">" then Some(Sgt)
    else if operation == ">=" then Some(Sge)
    else if operation == "==" then Some(Eq)
    else if operation == "!=" then Some(Ne)
    else None
  }

  /** The arithmetic an LIR arithmetic operator lowers to. */
  function ArithOpOf(operation: string): (r: Option<ArithOp>)
    ensures r.Some? <==> operation in {"+", "-", "*", "/"}
    ensures r.Some? ==> ComparePred(operation).None?
  {
    if operation == "+" then Some(Add)
    else if operation == "-" then Some(Sub)
    else if operation == "*" then Some(Mul)
    else if operation == "/" then Some(Div)
    else None
  }

  // ---- aggregates ----

  /**
   * The fields of an aggregate value built by a chain of `insertvalue`s:
   * each field maps to the value inserted into it last; `undef` has none.
   */
  function FieldsOf(code: seq<LInsn>, v: LVal): map<nat, LVal>
    decreases if v.Reg? then v.index + 1 else 0
  {
    if v.Reg? && v.index < |code| && code[v.index].op.InsertValue? then
      var op := code[v.index].op;
      var base := if op.agg.Reg? && op.agg.index < v.index then FieldsOf(code, op.agg) else map[];
      base[op.index := op.elem]
    else map[]
  }

  /** Building more instructions does not change what an earlier aggregate holds. */
  lemma {:induction false} FieldsOfExtend(code: seq<LInsn>, more: seq<LInsn>, v: LVal)
    requires code <= more && (v.Reg? ==> v.index < |code|)
    ensures FieldsOf(more, v) == FieldsOf(code, v)
    decreases if v.Reg? then v.index + 1 else 0
  {
    if v.Reg? {
      assert more[v.index] == code[v.index];
      var op := code[v.index].op;
      if op.InsertValue? && op.agg.Reg? && op.agg.index < v.index {
        FieldsOfExtend(code, more, op.agg);
      }
    }
  }
}

/**
 * `Foundry::LIR::Transform::Codegen`: lowers LIR functions to LLVM. The
 * generator is an object whose caches (`@types`, `@data`, `@values`), phi
 * fix-up list and LLVM module grow as functions are lowered; the LLVM
 * module is kept as its list of function declarations, its basic blocks
 * and the log of instructions built.
 */
module Codegen {
  import opened Wrappers
  import opened CodegenNames
  import opened CodegenTypes
  import opened CodegenIr

  /** `b` keeps every entry of `a`. */
  ghost predicate Extends<K, V>(a: map<K, V>, b: map<K, V>) {
    forall k :: k in a ==> k in b && b[k] == a[k]
  }

  /** Every memoised layout is the lowering of its type. */
  ghost predicate TypesSound(types: map<Ty, Layout>) {
    forall t :: t in types ==> Lower(t) == Ok(types[t])
  }

  /** `nil`, `true` and `false` sit at their pinned addresses. */
  ghost predicate ImmediatesPinned(data: map<Datum, LVal>) {
    && NilObj in data && data[NilObj] == PinnedAddr(NilAddr, PinnedTy("NilClass"))
    && TrueObj in data && data[TrueObj] == PinnedAddr(TrueAddr, PinnedTy("TrueClass"))
    && FalseObj in data && data[FalseObj] == PinnedAddr(FalseAddr, PinnedTy("FalseClass"))
  }

  /** No two declarations of the LLVM module share a name. */
  ghost predicate UniqueNames(functions: seq<Decl>) {
    forall i, j :: 0 <= i < j < |functions| ==> functions[i].name != functions[j].name
  }

  /** The LIR module finds each function under its own name. */
  predicate KeyedByName(lir: map<string, LirFunction>) {
    forall name :: name in lir ==> lir[name].name == name
  }

  /** `@llvm.functions[name]`: the declaration called `name`, if any. */
  function FindDecl(functions: seq<Decl>, name: string): (r: Option<nat>)
    ensures r.Some? ==> r.value < |functions| && functions[r.value].name == name
    ensures r.None? ==> forall j :: 0 <= j < |functions| ==> functions[j].name != name
  {
    if |functions| == 0 then None
    else if functions[|functions| - 1].name == name then Some(|functions| - 1)
    else FindDecl(functions[..|functions| - 1], name)
  }

  /** The class `Type.klass(klass)` of a pinned immediate's class lowers to the pinned pointer type. */
  lemma PinnedLowering(className: string, id: nat)
    requires className == "NilClass" || className == "TrueClass" || className == "FalseClass"
    ensures Lower(RubyTy(ClassInfo(Some(className), id))) == Ok(PinnedTy(className))
  {
    assert forall i :: 0 <= i < |className| ==> className[i] != ':';
    CleanNameKept(className);
  }

  /** `bootstrap_types`' types: each immediate's class is a pointer to its `i.` struct. */
  function PinnedTypes(nilClassId: nat, trueClassId: nat, falseClassId: nat): map<Ty, Layout> {
    map[
      RubyTy(ClassInfo(Some("NilClass"), nilClassId)) := PinnedTy("NilClass"),
      RubyTy(ClassInfo(Some("TrueClass"), trueClassId)) := PinnedTy("TrueClass"),
      RubyTy(ClassInfo(Some("FalseClass"), falseClassId)) := PinnedTy("FalseClass")]
  }

  /** `bootstrap_types`' objects: `nil`, `true` and `false` at their addresses, and `TOPLEVEL`. */
  function PinnedData(): (r: map<Datum, LVal>)
    ensures ImmediatesPinned(r)
  {
    map[
      NilObj := PinnedAddr(NilAddr, PinnedTy("NilClass")),
      TrueObj := PinnedAddr(TrueAddr, PinnedTy("TrueClass")),
      FalseObj := PinnedAddr(FalseAddr, PinnedTy("FalseClass")),
      Toplevel := Global(Toplevel)]
  }

  /** The pinned types agree with the lowering `emit_type` would compute. */
  lemma PinnedTypesSound(nilClassId: nat, trueClassId: nat, falseClassId: nat)
    ensures TypesSound(PinnedTypes(nilClassId, trueClassId, falseClassId))
  {
    PinnedLowering("NilClass", nilClassId);
    PinnedLowering("TrueClass", trueClassId);
    PinnedLowering("FalseClass", falseClassId);
  }

  const UnableToLowerValue := Exception(RuntimeError, "unable to lower value")
  const UnableToLowerIntegerOp := Exception(RuntimeError, "unable to lower IntegerOp")
  const CannotLower := Exception(RuntimeError, "cannot lower")
  const NoFunction := Exception(NoMethodError, "undefined method name for nil")
  const TraceName := "foundry.trace"

  // ---- function declarations ----

  /** The LIR types of `f`'s arguments, in order. */
  function ArgTys(f: LirFunction): (r: seq<Ty>)
    ensures |r| == |f.arguments| && forall i :: 0 <= i < |r| ==> r[i] == f.arguments[i].ty
  {
    seq(|f.arguments|, i requires 0 <= i < |f.arguments| => f.arguments[i].ty)
  }

  /** Declarations only accumulate, so a name once declared stays declared. */
  lemma FindDeclGrows(before: seq<Decl>, after: seq<Decl>, name: string)
    requires before <= after && FindDecl(before, name).Some?
    ensures FindDecl(after, name).Some?
  {
    var i := FindDecl(before, name).value;
    assert after[i].name == name;
  }

  /** Under unique names, the declaration called `name` is the one `@llvm.functions[name]` finds. */
  lemma FindDeclUnique(functions: seq<Decl>, i: nat)
    requires UniqueNames(functions) && i < |functions|
    ensures FindDecl(functions, functions[i].name) == Some(i)
  {
  }

  /** The declaration of the tracing hook: `void foundry.trace(i64)`. */
  const TraceDecl := Decl(TraceName, [IntPtr], Void)

  /** The longest name among the declarations. */
  function LongestName(functions: seq<Decl>): (r: nat)
    ensures forall i :: 0 <= i < |functions| ==> |functions[i].name| <= r
  {
    if |functions| == 0 then 0
    else
      var m := LongestName(functions[..|functions| - 1]);
      assert forall i :: 0 <= i < |functions| - 1 ==> functions[..|functions| - 1][i] == functions[i];
      if |functions[|functions| - 1].name| > m then |functions[|functions| - 1].name| else m
  }

  /**
   * The name LLVM gives a declaration whose name is taken: `name` with a
   * suffix. The suffix here is `.` and a run of `1`s longer than any
   * declared name, so the result clashes with nothing.
   */
  function FreshName(functions: seq<Decl>, name: string): (r: string)
    ensures r != name && |name| < |r|
    ensures forall i :: 0 <= i < |functions| ==> functions[i].name != r
  {
    name + "." + seq(LongestName(functions), _ => '1')
  }

  /**
   * The declarations after a trace as written: `@llvm.functions.add` on
   * every trace. The module keeps names unique, so once `foundry.trace`
   * is declared the new declaration is renamed.
   */
  function DeclareTraceAsWritten(functions: seq<Decl>): (r: seq<Decl>)
    ensures |r| == |functions| + 1 && r[..|functions|] == functions
    ensures r[|functions|].params == TraceDecl.params && r[|functions|].ret == TraceDecl.ret
    ensures r[|functions|].name == TraceName <==> FindDecl(functions, TraceName).None?
    ensures UniqueNames(functions) ==> UniqueNames(r)
  {
    if FindDecl(functions, TraceName).None? then functions + [TraceDecl]
    else functions + [TraceDecl.(name := FreshName(functions, TraceName))]
  }

  /**
   * As written, the second trace declares a renamed hook and calls that:
   * the call's callee, the newest declaration, is not `foundry.trace`,
   * and `foundry.trace` still names the first declaration.
   */
  lemma TraceTwiceCallsRenamed(functions: seq<Decl>)
    ensures var once := DeclareTraceAsWritten(functions);
      var twice := DeclareTraceAsWritten(once);
      && FindDecl(once, TraceName).Some?
      && twice[|once|].name != TraceName
      && FindDecl(twice, TraceName) == FindDecl(once, TraceName)
  {
    var once := DeclareTraceAsWritten(functions);
    var twice := DeclareTraceAsWritten(once);
    if FindDecl(functions, TraceName).Some? {
      FindDeclGrows(functions, once, TraceName);
    }
    assert twice[..|once|] == once;
  }

  /** The declarations after a trace: the existing `foundry.trace` is reused, else it is declared. */
  function DeclareTrace(functions: seq<Decl>): (r: seq<Decl>)
    ensures functions <= r && |r| <= |functions| + 1
    ensures FindDecl(r, TraceName).Some?
    ensures FindDecl(functions, TraceName).Some? ==> r == functions
    ensures FindDecl(functions, TraceName).None? ==> r[FindDecl(r, TraceName).value] == TraceDecl
    ensures UniqueNames(functions) ==> UniqueNames(r)
  {
    if FindDecl(functions, TraceName).Some? then functions else functions + [TraceDecl]
  }

  /** Tracing any number of times declares the hook once. */
  lemma DeclareTraceIdempotent(functions: seq<Decl>)
    ensures DeclareTrace(DeclareTrace(functions)) == DeclareTrace(functions)
    ensures FindDecl(DeclareTrace(functions), TraceName).Some?
  {
    if FindDecl(functions, TraceName).None? {
      var r := functions + [TraceDecl];
      assert r[|functions|].name == TraceName;
    }
  }

  // ---- looking values up ----

  /** `@data[d]` as a lookup: the recorded constant, or the global `emit_object` makes for it. */
  function DatumValue(data: map<Datum, LVal>, d: Datum): LVal {
    if d in data then data[d] else Global(d)
  }

  /**
   * `@values[v]`: the value recorded for `v`; otherwise `emit_value`,
   * which lowers a constant through `@data` and raises for anything else.
   */
  function Lookup(values: map<LirValue, LVal>, data: map<Datum, LVal>, v: LirValue): (r: Result<LVal>)
    ensures r.Err? <==> v !in values && !v.Constant?
    ensures r.Err? ==> r.error == UnableToLowerValue
    ensures v !in values && v.Constant? ==> r == Ok(DatumValue(data, v.datum))
  {
    if v in values then Ok(values[v])
    else if v.Constant? then Ok(DatumValue(data, v.datum))
    else Err(UnableToLowerValue)
  }

  /** `@values` after `@values[v]`: a constant not recorded yet is recorded. */
  function ValuesAfter(values: map<LirValue, LVal>, data: map<Datum, LVal>, v: LirValue): map<LirValue, LVal> {
    if v !in values && v.Constant? then values[v := DatumValue(data, v.datum)] else values
  }

  /** `@data` after `@values[v]`: an object met for the first time gets its global. */
  function DataAfter(values: map<LirValue, LVal>, data: map<Datum, LVal>, v: LirValue): map<Datum, LVal> {
    if v !in values && v.Constant? && v.datum !in data then data[v.datum := Global(v.datum)] else data
  }

  /** Every value looks up the same in both states. */
  ghost predicate SameLookups(v0: map<LirValue, LVal>, d0: map<Datum, LVal>, v1: map<LirValue, LVal>, d1: map<Datum, LVal>) {
    forall w :: Lookup(v1, d1, w) == Lookup(v0, d0, w)
  }

  /** A lookup leaves the answer of any later lookup as it was. */
  lemma LookupKeeps(values: map<LirValue, LVal>, data: map<Datum, LVal>, v: LirValue, w: LirValue)
    ensures Lookup(ValuesAfter(values, data, v), DataAfter(values, data, v), w) == Lookup(values, data, w)
  {
  }

  /** A lookup only extends the caches, and every value keeps its lookup. */
  lemma LookupsKept(values: map<LirValue, LVal>, data: map<Datum, LVal>, v: LirValue)
    ensures SameLookups(values, data, ValuesAfter(values, data, v), DataAfter(values, data, v))
    ensures Extends(values, ValuesAfter(values, data, v)) && Extends(data, DataAfter(values, data, v))
  {
    forall w {
      LookupKeeps(values, data, v, w);
    }
  }

  /** `vs.map { |v| @values[v] }`: every lookup, or the error of the first that fails. */
  function LookupAll(values: map<LirValue, LVal>, data: map<Datum, LVal>, vs: seq<LirValue>): (r: Result<seq<LVal>>)
    ensures r.Ok? ==> |r.value| == |vs|
  {
    if |vs| == 0 then Ok([])
    else match LookupAll(values, data, vs[..|vs| - 1])
      case Err(e) => Err(e)
      case Ok(xs) =>
        match Lookup(values, data, vs[|vs| - 1])
        case Err(e) => Err(e)
        case Ok(x) => Ok(xs + [x])
  }

  /** A list of lookups succeeds exactly when each does, and yields them in order. */
  lemma {:induction false} LookupAllEach(values: map<LirValue, LVal>, data: map<Datum, LVal>, vs: seq<LirValue>)
    ensures LookupAll(values, data, vs).Ok? <==> forall i :: 0 <= i < |vs| ==> Lookup(values, data, vs[i]).Ok?
    ensures LookupAll(values, data, vs).Ok? ==> forall i :: 0 <= i < |vs| ==> LookupAll(values, data, vs).value[i] == Lookup(values, data, vs[i]).value
    decreases |vs|
  {
    if |vs| > 0 {
      var init := vs[..|vs| - 1];
      LookupAllEach(values, data, init);
      assert forall i :: 0 <= i < |init| ==> init[i] == vs[i];
    }
  }

  /** One more lookup extends a successful list of lookups. */
  lemma LookupAllSnoc(values: map<LirValue, LVal>, data: map<Datum, LVal>, vs: seq<LirValue>, i: nat)
    requires i < |vs|
    ensures LookupAll(values, data, vs[..i + 1]) ==
      match LookupAll(values, data, vs[..i])
      case Err(e) => Err(e)
      case Ok(xs) => (match Lookup(values, data, vs[i]) case Err(e) => Err(e) case Ok(x) => Ok(xs + [x]))
  {
    assert vs[..i + 1][..i] == vs[..i];
  }

  /** The first failing lookup decides the error of the whole list. */
  lemma {:induction false} LookupAllFirstError(values: map<LirValue, LVal>, data: map<Datum, LVal>, vs: seq<LirValue>, i: nat)
    requires i <= |vs| && LookupAll(values, data, vs[..i]).Err?
    ensures LookupAll(values, data, vs) == LookupAll(values, data, vs[..i])
    decreases |vs| - i
  {
    if i < |vs| {
      LookupAllSnoc(values, data, vs, i);
      LookupAllFirstError(values, data, vs, i + 1);
    } else {
      assert vs[..i] == vs;
    }
  }

  // ---- aggregates built by chains of insertvalue ----

  /**
   * The instructions `reduce(undef) { |dst, (elem, i)| insert_value dst, elem, i }`
   * builds from position `start` on: each inserts the next element into
   * the previous instruction's aggregate.
   */
  function InsertChain(block: LVal, start: nat, base: LVal, elems: seq<LVal>): (r: seq<LInsn>)
    ensures |r| == |elems|
  {
    if |elems| == 0 then []
    else
      var n := |elems| - 1;
      InsertChain(block, start, base, elems[..n]) + [LInsn(block, InsertValue(ChainEnd(start, base, n), elems[n], n))]
  }

  /** The aggregate a chain of `n` instructions from `start` ends with. */
  function ChainEnd(start: nat, base: LVal, n: nat): LVal {
    if n == 0 then base else Reg(start + n - 1)
  }

  /** The aggregate an insertvalue chain ends with holds exactly the inserted elements, in order. */
  lemma {:induction false} InsertChainFields(prefix: seq<LInsn>, block: LVal, base: LVal, elems: seq<LVal>)
    requires !base.Reg?
    ensures var code := prefix + InsertChain(block, |prefix|, base, elems);
      FieldsOf(code, ChainEnd(|prefix|, base, |elems|)) == (map k: nat | k < |elems| :: elems[k])
    decreases |elems|
  {
    if |elems| > 0 {
      var n := |elems| - 1;
      var shorter := prefix + InsertChain(block, |prefix|, base, elems[..n]);
      var code := prefix + InsertChain(block, |prefix|, base, elems);
      assert code == shorter + [LInsn(block, InsertValue(ChainEnd(|prefix|, base, n), elems[n], n))];
      InsertChainFields(prefix, block, base, elems[..n]);
      if n > 0 {
        FieldsOfExtend(shorter, code, ChainEnd(|prefix|, base, n));
      }
    }
  }

  /**
   * The instructions the tuple-slice reduction builds from position
   * `start` on: for each element of `range`, an extractvalue from `src`
   * and an insertvalue of it into the next field of the new aggregate.
   */
  function SliceChain(block: LVal, start: nat, base: LVal, src: LVal, range: seq<nat>): (r: seq<LInsn>)
    ensures |r| == 2 * |range|
  {
    if |range| == 0 then []
    else
      var n := |range| - 1;
      SliceChain(block, start, base, src, range[..n])
        + [LInsn(block, ExtractValue(src, range[n])),
           LInsn(block, InsertValue(SliceEnd(start, base, n), Reg(start + 2 * n), n))]
  }

  /** The aggregate a slice chain over `n` elements from `start` ends with. */
  function SliceEnd(start: nat, base: LVal, n: nat): LVal {
    if n == 0 then base else Reg(start + 2 * n - 1)
  }

  /**
   * Field `k` of the sliced aggregate is the register `2 * k` past the
   * chain's start, the one the matching extractvalue defines.
   */
  lemma {:induction false} SliceChainFields(prefix: seq<LInsn>, block: LVal, base: LVal, src: LVal, range: seq<nat>)
    requires !base.Reg?
    ensures FieldsOf(prefix + SliceChain(block, |prefix|, base, src, range), SliceEnd(|prefix|, base, |range|))
      == (map k: nat | k < |range| :: Reg(|prefix| + 2 * k))
    decreases |range|
  {
    if |range| > 0 {
      var n := |range| - 1;
      var shorter := prefix + SliceChain(block, |prefix|, base, src, range[..n]);
      var code := prefix + SliceChain(block, |prefix|, base, src, range);
      assert code == shorter + [LInsn(block, ExtractValue(src, range[n])), LInsn(block, InsertValue(SliceEnd(|prefix|, base, n), Reg(|prefix| + 2 * n), n))];
      SliceChainFields(prefix, block, base, src, range[..n]);
      if n > 0 {
        FieldsOfExtend(shorter, code, SliceEnd(|prefix|, base, n));
      }
    }
  }

  /** The register `2 * k` past the chain's start extracts field `range[k]` of the source. */
  lemma {:induction false} SliceChainExtracts(prefix: seq<LInsn>, block: LVal, base: LVal, src: LVal, range: seq<nat>)
    ensures forall k :: 0 <= k < |range| ==>
      (prefix + SliceChain(block, |prefix|, base, src, range))[|prefix| + 2 * k].op == ExtractValue(src, range[k])
    decreases |range|
  {
    if |range| > 0 {
      var n := |range| - 1;
      var shorter := prefix + SliceChain(block, |prefix|, base, src, range[..n]);
      var code := prefix + SliceChain(block, |prefix|, base, src, range);
      assert code == shorter + [LInsn(block, ExtractValue(src, range[n])), LInsn(block, InsertValue(SliceEnd(|prefix|, base, n), Reg(|prefix| + 2 * n), n))];
      SliceChainExtracts(prefix, block, base, src, range[..n]);
      forall k | 0 <= k < |range|
        ensures code[|prefix| + 2 * k].op == ExtractValue(src, range[k])
      {
        if k < n {
          assert code[|prefix| + 2 * k] == shorter[|prefix| + 2 * k];
        }
      }
    }
  }

  // ---- integer operations and branches ----

  /** `Type.klass(VI::Object)` lowers to a pointer to the object class's struct. */
  lemma ObjectLowering(objectClass: ClassInfo)
    ensures Lower(RubyTy(objectClass)).Ok?
  {
  }

  /**
   * The instructions of an integer operation on `l` and `rv`: the
   * arithmetic instruction, or the signed comparison followed by a select
   * between the pinned `true` and `false`, seen as objects.
   */
  function IntegerOpCode(block: LVal, start: nat, operation: string, l: LVal, rv: LVal, objectClass: ClassInfo): seq<LInsn>
  {
    if ArithOpOf(operation).Some? then [LInsn(block, Arith(ArithOpOf(operation).value, l, rv))]
    else if ComparePred(operation).Some? then
      var objTy := Lower(RubyTy(objectClass)).value;
      [LInsn(block, ICmp(ComparePred(operation).value, l, rv)),
       LInsn(block, Select(Reg(start), Bitcast(PinnedAddr(TrueAddr, PinnedTy("TrueClass")), objTy),
                                       Bitcast(PinnedAddr(FalseAddr, PinnedTy("FalseClass")), objTy)))]
    else []
  }

  /** A comparison selects the pinned `true` when it holds and `false` otherwise; branches see exactly that. */
  lemma ComparisonSelectsBooleans(operation: string, l: LVal, rv: LVal, objectClass: ClassInfo, block: LVal, start: nat)
    requires ComparePred(operation).Some?
    ensures var code := IntegerOpCode(block, start, operation, l, rv, objectClass);
      && |code| == 2 && code[1].op.Select?
      && code[1].op.ifTrue.v.addr == TrueAddr && BranchTakesTrue(code[1].op.ifTrue.v.addr)
      && code[1].op.ifFalse.v.addr == FalseAddr && !BranchTakesTrue(code[1].op.ifFalse.v.addr)
  {
    BranchFalseExactlyForNilAndFalse(TrueAddr);
    BranchFalseExactlyForNilAndFalse(FalseAddr);
  }

  /** The truth test a conditional branch starts with, on the condition `v`. */
  function TruthTest(block: LVal, start: nat, v: LVal): seq<LInsn> {
    [LInsn(block, PtrToInt(v)), LInsn(block, And(Reg(start), I64(!FalseBit))), LInsn(block, ICmp(Ne, Reg(start + 1), I64(0)))]
  }

  /** Whether lowering `f`'s declaration succeeds: it exists already, or its signature lowers. */
  ghost predicate DeclLowers(functions: seq<Decl>, f: LirFunction) {
    FindDecl(functions, f.name).Some? || (LowerSeq(ArgTys(f)).Ok? && Lower(f.returnTy).Ok?)
  }

  // ---- local-variable addressing ----

  /** The `depth` geps to field 0 that walk from `base` out to the enclosing scopes. */
  function HopCode(block: LVal, start: nat, base: LVal, depth: nat): (r: seq<LInsn>)
    ensures |r| == depth
  {
    if depth == 0 then []
    else HopCode(block, start, base, depth - 1) + [LInsn(block, Gep(ChainEnd(start, base, depth - 1), Indices([0, 0])))]
  }

  /** One more hop goes to the enclosing scope of the scope reached so far, if there is one. */
  lemma {:induction false} HopSnoc(t: Ty, i: nat)
    ensures Hop(t, i + 1) == if Hop(t, i).Some? && Hop(t, i).value.BindingTy? then Hop(t, i).value.next else None
    decreases i
  {
    if i > 0 && t.BindingTy? && t.next.Some? {
      HopSnoc(t.next.value, i - 1);
    }
  }

  /** Once the walk leaves the scope chain, no deeper scope is reached. */
  lemma {:induction false} HopStaysOut(t: Ty, i: nat, j: nat)
    requires i < j && (Hop(t, i).None? || !Hop(t, i).value.BindingTy?)
    ensures Hop(t, j).None?
    decreases j - i
  {
    HopSnoc(t, i);
    if i + 1 < j {
      HopStaysOut(t, i + 1, j);
    }
  }

  // ---- phis and their fix-ups ----

  lemma PhisInSnoc(insns: seq<LirInsn>, i: nat)
    requires i < |insns|
    ensures PhisIn(insns[..i + 1]) == PhisIn(insns[..i]) + PhisIn([insns[i]])
  {
    assert insns[..i + 1][..i] == insns[..i];
    assert [insns[i]][..0] == [];
  }

  lemma {:induction false} PhisInMember(insns: seq<LirInsn>, p: LirInsn)
    requires p in PhisIn(insns)
    ensures exists j :: 0 <= j < |insns| && insns[j] == p
    decreases |insns|
  {
    var init := insns[..|insns| - 1];
    if p in PhisIn(init) {
      PhisInMember(init, p);
      var j :| 0 <= j < |init| && init[j] == p;
      assert insns[j] == p;
    } else {
      assert insns[|insns| - 1] == p;
    }
  }

  lemma PhisOfSnoc(blocks: seq<LirBlock>, i: nat)
    requires i < |blocks|
    ensures PhisOf(blocks[..i + 1]) == PhisOf(blocks[..i]) + PhisIn(blocks[i].insns)
  {
    assert blocks[..i + 1][..i] == blocks[..i];
  }

  lemma {:induction false} PhisOfMember(blocks: seq<LirBlock>, p: LirInsn)
    requires p in PhisOf(blocks)
    ensures exists b, j :: 0 <= b < |blocks| && 0 <= j < |blocks[b].insns| && blocks[b].insns[j] == p
    decreases |blocks|
  {
    var init := blocks[..|blocks| - 1];
    if p in PhisOf(init) {
      PhisOfMember(init, p);
      var b, j :| 0 <= b < |init| && 0 <= j < |init[b].insns| && init[b].insns[j] == p;
      assert blocks[b].insns[j] == p;
    } else {
      PhisInMember(blocks[|blocks| - 1].insns, p);
    }
  }

  /** With identities unique across a function, block `i` shares none with the phis of the blocks before it, nor within itself. */
  lemma BlockIdsDiffer(f: LirFunction, i: nat)
    requires UniqueIds(f) && i < |f.blocks|
    ensures forall j1, j2 :: 0 <= j1 < j2 < |f.blocks[i].insns| ==> f.blocks[i].insns[j1].id != f.blocks[i].insns[j2].id
    ensures forall p, j :: p in PhisOf(f.blocks[..i]) && 0 <= j < |f.blocks[i].insns| ==> p.id != f.blocks[i].insns[j].id
  {
    forall p, j | p in PhisOf(f.blocks[..i]) && 0 <= j < |f.blocks[i].insns|
      ensures p.id != f.blocks[i].insns[j].id
    {
      PhisOfMember(f.blocks[..i], p);
      var b, k :| 0 <= b < i && 0 <= k < |f.blocks[..i][b].insns| && f.blocks[..i][b].insns[k] == p;
      assert f.blocks[b].insns[k] == p;
    }
  }

  /** No phi queued before instruction `i` of a block shares its identity, when identities are distinct. */
  lemma QueuedIdsDiffer(queued: seq<LirInsn>, insns: seq<LirInsn>, i: nat)
    requires i < |insns|
    requires forall j1, j2 :: 0 <= j1 < j2 < |insns| ==> insns[j1].id != insns[j2].id
    requires forall p, j :: p in queued && 0 <= j < |insns| ==> p.id != insns[j].id
    ensures forall p :: p in queued + PhisIn(insns[..i]) ==> p.id != insns[i].id
  {
    forall p | p in queued + PhisIn(insns[..i])
      ensures p.id != insns[i].id
    {
      if p !in queued {
        PhisInMember(insns[..i], p);
      }
    }
  }

  /**
   * Lowering instruction `i` of a block keeps the queue pending: the queue
   * grows to the block's phis up to `i`, which stay where they were and
   * are followed by instruction `i` itself when it is a phi.
   */
  lemma QueueStep(queued: seq<LirInsn>, insns: seq<LirInsn>, i: nat, v0: map<LirValue, LVal>, c0: seq<LInsn>, v1: map<LirValue, LVal>, c1: seq<LInsn>, x: LVal)
    requires i < |insns|
    requires forall j1, j2 :: 0 <= j1 < j2 < |insns| ==> insns[j1].id != insns[j2].id
    requires forall p, j :: p in queued && 0 <= j < |insns| ==> p.id != insns[j].id
    requires PhisPending(queued + PhisIn(insns[..i]), v0, c0) && Extends(v0, v1) && c0 <= c1
    requires insns[i].kind.PhiInsn? ==> x == Reg(|c0|) && |c0| < |c1| && c1[|c0|].op.Phi? && c1[|c0|].op.incoming == []
    ensures PhisPending(queued + PhisIn(insns[..i + 1]), v1[InsnRef(insns[i].id) := x], c1)
  {
    QueuedIdsDiffer(queued, insns, i);
    PhisPendingStep(queued + PhisIn(insns[..i]), v0, c0, v1, c1, insns[i], x);
    PhisInSnoc(insns, i);
    assert queued + PhisIn(insns[..i + 1]) == queued + PhisIn(insns[..i]) + PhisIn([insns[i]]);
  }

  /** The register a phi was lowered to, or -1 when it has none. */
  function PhiAt(values: map<LirValue, LVal>, p: LirInsn): int {
    if InsnRef(p.id) in values && values[InsnRef(p.id)].Reg? then values[InsnRef(p.id)].index else -1
  }

  /** Each queued phi is a phi still without incoming pairs, and later phis sit later in the code. */
  ghost predicate PhisPending(fixups: seq<LirInsn>, values: map<LirValue, LVal>, code: seq<LInsn>) {
    && (forall j :: 0 <= j < |fixups| ==>
          && fixups[j].kind.PhiInsn?
          && 0 <= PhiAt(values, fixups[j]) < |code|
          && code[PhiAt(values, fixups[j])].op.Phi? && code[PhiAt(values, fixups[j])].op.incoming == [])
    && (forall j1, j2 :: 0 <= j1 < j2 < |fixups| ==> PhiAt(values, fixups[j1]) < PhiAt(values, fixups[j2]))
  }

  /** Growing the caches and the code leaves the queued phis where they were. */
  lemma PhisPendingGrow(fixups: seq<LirInsn>, v0: map<LirValue, LVal>, c0: seq<LInsn>, v1: map<LirValue, LVal>, c1: seq<LInsn>)
    requires PhisPending(fixups, v0, c0) && Extends(v0, v1) && c0 <= c1
    ensures PhisPending(fixups, v1, c1)
    ensures forall j :: 0 <= j < |fixups| ==> PhiAt(v1, fixups[j]) == PhiAt(v0, fixups[j]) < |c0|
  {
    forall j | 0 <= j < |fixups|
      ensures PhiAt(v1, fixups[j]) == PhiAt(v0, fixups[j])
    {
      assert InsnRef(fixups[j].id) in v0;
    }
  }

  /** Recording another instruction's value leaves the queued phis where they were. */
  lemma PhisPendingRecord(fixups: seq<LirInsn>, values: map<LirValue, LVal>, code: seq<LInsn>, id: nat, x: LVal)
    requires PhisPending(fixups, values, code)
    requires forall p :: p in fixups ==> p.id != id
    ensures PhisPending(fixups, values[InsnRef(id) := x], code)
    ensures forall j :: 0 <= j < |fixups| ==> PhiAt(values[InsnRef(id) := x], fixups[j]) == PhiAt(values, fixups[j])
  {
    forall j | 0 <= j < |fixups|
      ensures PhiAt(values[InsnRef(id) := x], fixups[j]) == PhiAt(values, fixups[j])
    {
      assert fixups[j] in fixups;
    }
  }

  /** A new empty phi after every queued one joins the queue. */
  lemma PhisPendingPush(fixups: seq<LirInsn>, values: map<LirValue, LVal>, code: seq<LInsn>, p: LirInsn, k: nat)
    requires PhisPending(fixups, values, code)
    requires p.kind.PhiInsn? && InsnRef(p.id) in values && values[InsnRef(p.id)] == Reg(k)
    requires k < |code| && code[k].op.Phi? && code[k].op.incoming == []
    requires forall j :: 0 <= j < |fixups| ==> PhiAt(values, fixups[j]) < k
    ensures PhisPending(fixups + [p], values, code)
  {
  }

  /**
   * Lowering one more instruction keeps the queue pending: the caches and
   * the code only grew, the instruction's result is recorded under its own
   * identity, and a phi, queued last, sits at the register it was emitted to.
   */
  lemma PhisPendingStep(fixups: seq<LirInsn>, v0: map<LirValue, LVal>, c0: seq<LInsn>, v1: map<LirValue, LVal>, c1: seq<LInsn>, insn: LirInsn, x: LVal)
    requires PhisPending(fixups, v0, c0) && Extends(v0, v1) && c0 <= c1
    requires forall p :: p in fixups ==> p.id != insn.id
    requires insn.kind.PhiInsn? ==> x == Reg(|c0|) && |c0| < |c1| && c1[|c0|].op.Phi? && c1[|c0|].op.incoming == []
    ensures PhisPending(fixups + PhisIn([insn]), v1[InsnRef(insn.id) := x], c1)
  {
    PhisPendingGrow(fixups, v0, c0, v1, c1);
    PhisPendingRecord(fixups, v1, c1, insn.id, x);
    assert [insn][..0] == [];
    if insn.kind.PhiInsn? {
      PhisPendingPush(fixups, v1[InsnRef(insn.id) := x], c1, insn, |c0|);
    }
  }

  /**
   * The incoming pairs of a phi: for each edge, the basic block of its
   * source block and then its value; the first failed lookup wins.
   */
  function Incomings(values: map<LirValue, LVal>, data: map<Datum, LVal>, edges: seq<PhiOperand>): (r: Result<seq<Incoming>>)
    ensures r.Ok? ==> |r.value| == |edges|
  {
    if |edges| == 0 then Ok([])
    else
      match Incomings(values, data, edges[..|edges| - 1])
      case Err(e) => Err(e)
      case Ok(prefix) =>
        var edge := edges[|edges| - 1];
        match Lookup(values, data, BlockRef(edge.block))
        case Err(e) => Err(e)
        case Ok(bb) =>
          match Lookup(values, data, edge.value)
          case Err(e) => Err(e)
          case Ok(v) => Ok(prefix + [Incoming(bb, v)])
  }

  /** A phi's incoming pairs exist exactly when every edge's block and value look up, and pair them in order. */
  lemma {:induction false} IncomingsEach(values: map<LirValue, LVal>, data: map<Datum, LVal>, edges: seq<PhiOperand>)
    ensures Incomings(values, data, edges).Ok? <==>
      forall j :: 0 <= j < |edges| ==> Lookup(values, data, BlockRef(edges[j].block)).Ok? && Lookup(values, data, edges[j].value).Ok?
    ensures Incomings(values, data, edges).Ok? ==> forall j :: 0 <= j < |edges| ==>
      Incomings(values, data, edges).value[j] == Incoming(Lookup(values, data, BlockRef(edges[j].block)).value, Lookup(values, data, edges[j].value).value)
    decreases |edges|
  {
    if |edges| > 0 {
      var init := edges[..|edges| - 1];
      IncomingsEach(values, data, init);
      assert forall j :: 0 <= j < |init| ==> init[j] == edges[j];
    }
  }

  lemma IncomingsSnoc(values: map<LirValue, LVal>, data: map<Datum, LVal>, edges: seq<PhiOperand>, i: nat)
    requires i < |edges|
    ensures Incomings(values, data, edges[..i + 1]) ==
      match Incomings(values, data, edges[..i])
      case Err(e) => Err(e)
      case Ok(prefix) =>
        (match Lookup(values, data, BlockRef(edges[i].block))
         case Err(e) => Err(e)
         case Ok(bb) =>
           (match Lookup(values, data, edges[i].value)
            case Err(e) => Err(e)
            case Ok(v) => Ok(prefix + [Incoming(bb, v)])))
  {
    assert edges[..i + 1][..i] == edges[..i];
  }

  lemma {:induction false} IncomingsFirstError(values: map<LirValue, LVal>, data: map<Datum, LVal>, edges: seq<PhiOperand>, i: nat)
    requires i <= |edges| && Incomings(values, data, edges[..i]).Err?
    ensures Incomings(values, data, edges).Err?
    decreases |edges| - i
  {
    if i < |edges| {
      IncomingsSnoc(values, data, edges, i);
      IncomingsFirstError(values, data, edges, i + 1);
    } else {
      assert edges[..i] == edges;
    }
  }

  /** Incoming pairs depend only on what the lookups answer. */
  lemma {:induction false} IncomingsSame(v0: map<LirValue, LVal>, d0: map<Datum, LVal>, v1: map<LirValue, LVal>, d1: map<Datum, LVal>, edges: seq<PhiOperand>)
    requires SameLookups(v0, d0, v1, d1)
    ensures Incomings(v1, d1, edges) == Incomings(v0, d0, edges)
    decreases |edges|
  {
    if |edges| > 0 {
      IncomingsSame(v0, d0, v1, d1, edges[..|edges| - 1]);
      var edge := edges[|edges| - 1];
      assert Lookup(v1, d1, BlockRef(edge.block)) == Lookup(v0, d0, BlockRef(edge.block));
      assert Lookup(v1, d1, edge.value) == Lookup(v0, d0, edge.value);
    }
  }

  /** A queued phi lowered at `PhiAt` carries one incoming pair per edge of the LIR phi. */
  ghost predicate PhiFixed(p: LirInsn, values: map<LirValue, LVal>, data: map<Datum, LVal>, code: seq<LInsn>) {
    && p.kind.PhiInsn?
    && 0 <= PhiAt(values, p) < |code|
    && Incomings(values, data, p.kind.edges).Ok?
    && code[PhiAt(values, p)].op.Phi?
    && code[PhiAt(values, p)].op.incoming == Incomings(values, data, p.kind.edges).value
  }

  /** Every queued phi now carries an incoming pair per edge of its LIR phi. */
  ghost predicate PhisFixed(fixups: seq<LirInsn>, values: map<LirValue, LVal>, data: map<Datum, LVal>, code: seq<LInsn>) {
    forall j :: 0 <= j < |fixups| ==> PhiFixed(fixups[j], values, data, code)
  }

  /** Rewriting one instruction other than theirs leaves fixed phis fixed. */
  lemma PhisFixedKept(fixups: seq<LirInsn>, values: map<LirValue, LVal>, data: map<Datum, LVal>, c0: seq<LInsn>, c1: seq<LInsn>, k: int)
    requires PhisFixed(fixups, values, data, c0)
    requires forall j :: 0 <= j < |fixups| ==> PhiAt(values, fixups[j]) != k
    requires |c1| == |c0| && forall i :: 0 <= i < |c0| && i != k ==> c1[i] == c0[i]
    ensures PhisFixed(fixups, values, data, c1)
  {
    forall j | 0 <= j < |fixups|
      ensures PhiFixed(fixups[j], values, data, c1)
    {
      assert PhiFixed(fixups[j], values, data, c0);
    }
  }

  // ---- functions ----

  /** The basic blocks `emit_function` appends for `f`, one per LIR block, in order. */
  function BlocksOf(decl: nat, f: LirFunction): (r: seq<LVal>)
    ensures |r| == |f.blocks| && forall i :: 0 <= i < |r| ==> r[i] == BasicBlock(decl, f.blocks[i].name)
  {
    seq(|f.blocks|, i requires 0 <= i < |f.blocks| => BasicBlock(decl, f.blocks[i].name))
  }

  /**
   * The basic blocks after `run` appends those of `fs` to `start`, in
   * order: each function's blocks, under the declaration its name finds.
   */
  ghost function BlocksAfter(start: seq<LVal>, functions: seq<Decl>, fs: seq<LirFunction>): seq<LVal> {
    if |fs| == 0 then start
    else
      var f := fs[|fs| - 1];
      BlocksAfter(start, functions, fs[..|fs| - 1])
        + (if FindDecl(functions, f.name).Some? then BlocksOf(FindDecl(functions, f.name).value, f) else [])
  }

  /** Declaring more functions, under unique names, moves none that `fs` already finds. */
  lemma {:induction false} BlocksAfterKept(start: seq<LVal>, before: seq<Decl>, after: seq<Decl>, fs: seq<LirFunction>)
    requires before <= after && UniqueNames(after)
    requires forall i :: 0 <= i < |fs| ==> FindDecl(before, fs[i].name).Some?
    ensures BlocksAfter(start, after, fs) == BlocksAfter(start, before, fs)
    decreases |fs|
  {
    if |fs| > 0 {
      var f := fs[|fs| - 1];
      var d := FindDecl(before, f.name).value;
      assert after[d] == before[d];
      FindDeclUnique(after, d);
      var front := fs[..|fs| - 1];
      assert forall i :: 0 <= i < |front| ==> front[i] == fs[i];
      BlocksAfterKept(start, before, after, front);
    }
  }

  /** The blocks for one more function, found under declaration `d`, follow those of the functions before it. */
  lemma BlocksAfterSnoc(start: seq<LVal>, functions: seq<Decl>, fs: seq<LirFunction>, i: nat, d: nat)
    requires i < |fs| && FindDecl(functions, fs[i].name) == Some(d)
    ensures BlocksAfter(start, functions, fs[..i + 1]) == BlocksAfter(start, functions, fs[..i]) + BlocksOf(d, fs[i])
  {
    var grown := fs[..i + 1];
    assert grown[..|grown| - 1] == fs[..i];
  }

  /**
   * One more function lowered under declaration `d`: its blocks follow
   * those of the functions before it, which keep their declarations, and
   * every function so far is declared.
   */
  lemma BlocksAfterStep(start: seq<LVal>, before: seq<Decl>, after: seq<Decl>, fs: seq<LirFunction>, i: nat, d: nat)
    requires i < |fs| && before <= after && UniqueNames(after)
    requires forall j :: 0 <= j < i ==> FindDecl(before, fs[j].name).Some?
    requires FindDecl(after, fs[i].name) == Some(d)
    ensures BlocksAfter(start, after, fs[..i + 1]) == BlocksAfter(start, before, fs[..i]) + BlocksOf(d, fs[i])
    ensures forall j :: 0 <= j <= i ==> FindDecl(after, fs[j].name).Some?
  {
    BlocksAfterKept(start, before, after, fs[..i]);
    BlocksAfterSnoc(start, after, fs, i, d);
    forall j | 0 <= j < i
      ensures FindDecl(after, fs[j].name).Some?
    {
      FindDeclGrows(before, after, fs[j].name);
    }
  }

  /** Each argument of `f` stands for the declaration's parameter, each block for its basic block. */
  ghost predicate BoundTo(values: map<LirValue, LVal>, decl: nat, f: LirFunction) {
    && (forall i :: 0 <= i < |f.arguments| ==> Arg(i) in values && values[Arg(i)] == Param(decl, i))
    && (forall i :: 0 <= i < |f.blocks| ==>
          BlockRef(f.blocks[i].name) in values && values[BlockRef(f.blocks[i].name)] == BasicBlock(decl, f.blocks[i].name))
  }

  /** Every instruction of `blocks` has its lowered value recorded. */
  ghost predicate InsnsRecorded(values: map<LirValue, LVal>, blocks: seq<LirBlock>) {
    forall i, j :: 0 <= i < |blocks| && 0 <= j < |blocks[i].insns| ==> InsnRef(blocks[i].insns[j].id) in values
  }

  /** Recording the instructions of one more block, without losing any value, keeps the earlier ones recorded. */
  lemma InsnsRecordedSnoc(v0: map<LirValue, LVal>, v1: map<LirValue, LVal>, blocks: seq<LirBlock>, i: nat)
    requires i < |blocks| && InsnsRecorded(v0, blocks[..i])
    requires forall k :: k in v0 ==> k in v1
    requires forall j :: 0 <= j < |blocks[i].insns| ==> InsnRef(blocks[i].insns[j].id) in v1
    ensures InsnsRecorded(v1, blocks[..i + 1])
  {
    var grown := blocks[..i + 1];
    forall p, j | 0 <= p < |grown| && 0 <= j < |grown[p].insns|
      ensures InsnRef(grown[p].insns[j].id) in v1
    {
      if p < i {
        assert blocks[..i][p] == blocks[p];
      }
    }
  }

  /** Lowering instructions and fixing phis changes no argument's or block's value. */
  lemma BoundToKept(v0: map<LirValue, LVal>, v1: map<LirValue, LVal>, decl: nat, f: LirFunction)
    requires BoundTo(v0, decl, f)
    requires forall k :: k in v0 && !k.InsnRef? ==> k in v1 && v1[k] == v0[k]
    ensures BoundTo(v1, decl, f)
  {
  }

  class Codegen {
    /** `@lir`: the functions of the LIR module, by name. */
    const lir: map<string, LirFunction>
    /** The VM's `Object` class; comparison results are boxed as its instances. */
    const objectClass: ClassInfo
    var types: map<Ty, Layout>
    var data: map<Datum, LVal>
    var values: map<LirValue, LVal>
    var phiFixups: seq<LirInsn>
    /** The LLVM module's function declarations, in order. */
    var functions: seq<Decl>
    /** The basic blocks appended to the LLVM functions, in order. */
    var blocks: seq<LVal>
    /** Every instruction built, in order. */
    var code: seq<LInsn>
    /** The block the builder appends to. */
    var cursor: LVal

    ghost predicate Valid()
      reads this
    {
      TypesSound(types) && ImmediatesPinned(data) && UniqueNames(functions) && KeyedByName(lir)
    }

    /**
     * `run`'s set-up: empty caches and phi list, then `bootstrap_types`,
     * which pins `nil`, `true` and `false` at their addresses with their
     * classes' types, and emits `TOPLEVEL`.
     */
    constructor(lir: map<string, LirFunction>, objectClass: ClassInfo, nilClassId: nat, trueClassId: nat, falseClassId: nat)
      requires KeyedByName(lir)
      ensures Valid()
      ensures types == PinnedTypes(nilClassId, trueClassId, falseClassId)
      ensures data == PinnedData()
      ensures values == map[] && phiFixups == [] && functions == [] && blocks == [] && code == []
    {
      this.lir := lir;
      this.objectClass := objectClass;
      values := map[];
      phiFixups := [];
      functions := [];
      blocks := [];
      code := [];
      cursor := UndefOf(Void);
      new;
      types := PinnedTypes(nilClassId, trueClassId, falseClassId);
      data := PinnedData();
      PinnedTypesSound(nilClassId, trueClassId, falseClassId);
    }

    /** `@types[t]`: the memoised lowering, computed on the first request. */
    method TypeOf(t: Ty) returns (r: Result<Layout>)
      requires TypesSound(types)
      modifies this`types
      ensures TypesSound(types) && Extends(old(types), types)
      ensures r == Lower(t)
      ensures t in old(types) ==> types == old(types)
      decreases t, 1
    {
      if t in types {
        return Ok(types[t]);
      }
      r := EmitType(t);
      if r.Ok? {
        types := types[t := r.value];
      }
    }

    /** `emit_type(t)`: element, variable and enclosing-scope types go through the cache. */
    method EmitType(t: Ty) returns (r: Result<Layout>)
      requires TypesSound(types)
      modifies this`types
      ensures TypesSound(types) && Extends(old(types), types)
      ensures r == Lower(t)
      decreases t, 0
    {
      match t {
        case Bottom =>
          r := Ok(Void);
        case TupleTy(es) =>
          var fields: seq<Layout> := [];
          var i := 0;
          while i < |es|
            invariant 0 <= i <= |es| && |fields| == i
            invariant TypesSound(types) && Extends(old(types), types)
            invariant forall j :: 0 <= j < i ==> Lower(es[j]) == Ok(fields[j])
          {
            var l := TypeOf(es[i]);
            if l.Err? {
              LowerSeqFirstError(es, i);
              return Err(l.error);
            }
            fields := fields + [l.value];
            i := i + 1;
          }
          LowerSeqEach(es);
          assert LowerSeq(es).value == fields;
          r := Ok(Struct(fields));
        case BindingTy(vs, next) =>
          var fields: seq<Layout> := [];
          var i := 0;
          while i < |vs|
            invariant 0 <= i <= |vs| && |fields| == i
            invariant TypesSound(types) && Extends(old(types), types)
            invariant forall j :: 0 <= j < i ==> Lower(vs[j].ty) == Ok(fields[j])
          {
            var l := TypeOf(vs[i].ty);
            if l.Err? {
              LowerVarsFirstError(vs, i);
              return Err(l.error);
            }
            fields := fields + [l.value];
            i := i + 1;
          }
          LowerVarsEach(vs);
          assert LowerVars(vs).value == fields;
          if next.Some? {
            var p := TypeOf(next.value);
            if p.Err? {
              return Err(p.error);
            }
            r := Ok(Struct([p.value] + fields));
          } else {
            r := Ok(Struct(fields));
          }
        case RubyTy(k) =>
          r := Ok(Ptr(Named(ImpName(k))));
        case MachineInteger(w) =>
          r := Ok(IntTy(w));
        case OtherTy(_) =>
          r := Err(UnableToLowerType);
      }
    }

    /** `@data[d]`: the memoised constant for a VM object; objects not met before are emitted as globals. */
    method DataOf(d: Datum) returns (r: LVal)
      modifies this`data
      ensures d in old(data) ==> r == old(data)[d] && data == old(data)
      ensures d !in old(data) ==> r == Global(d) && data == old(data)[d := r]
    {
      if d in data {
        return data[d];
      }
      r := Global(d);
      data := data[d := r];
    }

    /** `@values[v]`, which records a constant the first time it is met. */
    method ValueOf(v: LirValue) returns (r: Result<LVal>)
      modifies this`values, this`data
      ensures r == Lookup(old(values), old(data), v)
      ensures values == ValuesAfter(old(values), old(data), v) && data == DataAfter(old(values), old(data), v)
    {
      if v in values {
        return Ok(values[v]);
      }
      if !v.Constant? {
        return Err(UnableToLowerValue);
      }
      var d := DataOf(v.datum);
      values := values[v := d];
      r := Ok(d);
    }

    /** `vs.map { |v| @values[v] }`. */
    method ValuesOf(vs: seq<LirValue>) returns (r: Result<seq<LVal>>)
      modifies this`values, this`data
      ensures r == LookupAll(old(values), old(data), vs)
      ensures SameLookups(old(values), old(data), values, data) && Extends(old(values), values) && Extends(old(data), data)
    {
      var xs: seq<LVal> := [];
      var i := 0;
      while i < |vs|
        invariant 0 <= i <= |vs|
        invariant SameLookups(old(values), old(data), values, data) && Extends(old(values), values) && Extends(old(data), data)
        invariant LookupAll(old(values), old(data), vs[..i]) == Ok(xs)
      {
        LookupsKept(values, data, vs[i]);
        var x := ValueOf(vs[i]);
        LookupAllSnoc(old(values), old(data), vs, i);
        if x.Err? {
          LookupAllFirstError(old(values), old(data), vs, i + 1);
          return Err(x.error);
        }
        xs := xs + [x.value];
        i := i + 1;
      }
      assert vs[..i] == vs;
      r := Ok(xs);
    }

    /** The builder: appends `op` to the current block and yields its result. */
    method Build(op: LOp) returns (v: LVal)
      modifies this`code
      ensures code == old(code) + [LInsn(cursor, op)]
      ensures v == Reg(|old(code)|)
    {
      v := Reg(|code|);
      code := code + [LInsn(cursor, op)];
    }

    /**
     * `emit_function_decl(f)`: the declaration already called `f.name`,
     * or a new one with the lowered argument and return types.
     */
    method EmitFunctionDecl(f: LirFunction) returns (r: Result<nat>)
      requires Valid()
      modifies this`types, this`functions
      ensures Valid() && Extends(old(types), types)
      ensures FindDecl(old(functions), f.name).Some? ==> r == Ok(FindDecl(old(functions), f.name).value) && functions == old(functions)
      ensures FindDecl(old(functions), f.name).None? ==>
        && (r.Ok? <==> LowerSeq(ArgTys(f)).Ok? && Lower(f.returnTy).Ok?)
        && (r.Ok? ==> r.value == |old(functions)| && functions == old(functions) + [Decl(f.name, LowerSeq(ArgTys(f)).value, Lower(f.returnTy).value)])
        && (r.Err? ==> functions == old(functions))
      ensures r.Ok? ==> r.value < |functions| && functions[r.value].name == f.name
    {
      var found := FindDecl(functions, f.name);
      if found.Some? {
        return Ok(found.value);
      }
      ghost var argTys := ArgTys(f);
      var params: seq<Layout> := [];
      var i := 0;
      while i < |f.arguments|
        invariant 0 <= i <= |f.arguments| && |params| == i
        invariant Valid() && Extends(old(types), types) && functions == old(functions)
        invariant forall j :: 0 <= j < i ==> Lower(argTys[j]) == Ok(params[j])
      {
        var l := TypeOf(f.arguments[i].ty);
        if l.Err? {
          LowerSeqFirstError(argTys, i);
          return Err(l.error);
        }
        params := params + [l.value];
        i := i + 1;
      }
      LowerSeqEach(argTys);
      assert LowerSeq(argTys).value == params;
      var ret := TypeOf(f.returnTy);
      if ret.Err? {
        return Err(ret.error);
      }
      r := Ok(|functions|);
      functions := functions + [Decl(f.name, params, ret.value)];
    }

    /** What lowering an instruction may do to the caches and the code: extend them, nothing else. */
    twostate predicate Grown()
      reads this
    {
      Extends(old(values), values) && Extends(old(data), data) && old(code) <= code
    }

    /** `@values[v]` as it stood before the instruction was lowered. */
    twostate function Was(v: LirValue): Result<LVal>
      reads this
    {
      Lookup(old(values), old(data), v)
    }

    /**
     * `BindingInsn`: a stack slot of the scope's layout; when the scope
     * has an enclosing one, field 0 receives the enclosing binding.
     */
    method EmitBinding(ty: Ty, next: LirValue) returns (r: Result<LVal>)
      requires TypesSound(types)
      modifies this`types, this`values, this`data, this`code
      ensures TypesSound(types) && Grown()
      ensures r.Ok? <==> Lower(ty).Ok? && ty.BindingTy? && (ty.next.Some? ==> Was(next).Ok?)
      ensures r.Ok? ==>
        var n := |old(code)|;
        && r.value == Reg(n)
        && code == old(code) + [LInsn(cursor, Alloca(Lower(ty).value))]
             + (if ty.next.Some? then [LInsn(cursor, Gep(Reg(n), Indices([0, 0]))), LInsn(cursor, Store(Was(next).value, Reg(n + 1)))] else [])
    {
      var l := TypeOf(ty);
      if l.Err? {
        return Err(l.error);
      }
      r := AllocBinding(l.value, ty, next);
    }

    /** The slot of `BindingInsn`, once its layout is known. */
    method AllocBinding(layout: Layout, ty: Ty, next: LirValue) returns (r: Result<LVal>)
      modifies this`values, this`data, this`code
      ensures Grown()
      ensures r.Ok? <==> ty.BindingTy? && (ty.next.Some? ==> Was(next).Ok?)
      ensures r.Ok? ==>
        var n := |old(code)|;
        && r.value == Reg(n)
        && code == old(code) + [LInsn(cursor, Alloca(layout))]
             + (if ty.next.Some? then [LInsn(cursor, Gep(Reg(n), Indices([0, 0]))), LInsn(cursor, Store(Was(next).value, Reg(n + 1)))] else [])
    {
      var binding := Build(Alloca(layout));
      if !ty.BindingTy? {
        return Err(NoScope);
      }
      if ty.next.Some? {
        var ptr := Build(Gep(binding, Indices([0, 0])));
        var nv := ValueOf(next);
        if nv.Err? {
          return Err(nv.error);
        }
        var _ := Build(Store(nv.value, ptr));
      }
      r := Ok(binding);
    }

    /**
     * `LvarLoadInsn` and `LvarStoreInsn` (the latter when `stored` is
     * present): `depth` geps through field 0 out to the scope that holds
     * the variable, a gep to the variable's field, then the load or store.
     */
    method EmitLvar(binding: LirValue, bindingTy: Ty, depth: nat, name: string, stored: Option<LirValue>) returns (r: Result<LVal>)
      modifies this`values, this`data, this`code
      ensures Grown()
      ensures r.Ok? <==> Was(binding).Ok? && LvarSlot(bindingTy, depth, name).Ok? && (stored.Some? ==> Was(stored.value).Ok?)
      ensures r.Ok? ==>
        var n := |old(code)|;
        var ptr := Reg(n + depth);
        && r.value == Reg(n + depth + 1)
        && code == old(code) + HopCode(cursor, n, Was(binding).value, depth)
             + [LInsn(cursor, Gep(ChainEnd(n, Was(binding).value, depth), Indices([0, LvarSlot(bindingTy, depth, name).value]))),
                LInsn(cursor, if stored.Some? then Store(Was(stored.value).value, ptr) else Load(ptr))]
    {
      var b := ValueOf(binding);
      if b.Err? {
        return Err(b.error);
      }
      var ptr := LvarAddress(b.value, bindingTy, depth, name);
      if ptr.Err? {
        return Err(ptr.error);
      }
      if stored.Some? {
        LookupKeeps(old(values), old(data), binding, stored.value);
      }
      r := LvarAccess(ptr.value, stored);
    }

    /** The load from, or the store of `stored` into, a local variable's address. */
    method LvarAccess(ptr: LVal, stored: Option<LirValue>) returns (r: Result<LVal>)
      modifies this`values, this`data, this`code
      ensures Grown()
      ensures r.Ok? <==> (stored.Some? ==> Was(stored.value).Ok?)
      ensures r.Ok? ==>
        && r.value == Reg(|old(code)|)
        && code == old(code) + [LInsn(cursor, if stored.Some? then Store(Was(stored.value).value, ptr) else Load(ptr))]
    {
      if stored.Some? {
        var v := ValueOf(stored.value);
        if v.Err? {
          return Err(v.error);
        }
        var st := Build(Store(v.value, ptr));
        r := Ok(st);
      } else {
        var ld := Build(Load(ptr));
        r := Ok(ld);
      }
    }

    /** The address of a local variable: the walk out to its scope, then the gep to its field. */
    method LvarAddress(base: LVal, ty: Ty, depth: nat, name: string) returns (r: Result<LVal>)
      modifies this`code
      ensures old(code) <= code
      ensures r.Ok? <==> LvarSlot(ty, depth, name).Ok?
      ensures r.Err? ==> r.error == LvarSlot(ty, depth, name).error
      ensures r.Ok? ==>
        var n := |old(code)|;
        && r.value == Reg(n + depth)
        && code == old(code) + HopCode(cursor, n, base, depth)
             + [LInsn(cursor, Gep(ChainEnd(n, base, depth), Indices([0, LvarSlot(ty, depth, name).value])))]
    {
      var cur := WalkOut(base, ty, depth);
      if cur.Err? {
        return Err(cur.error);
      }
      var slot := LvarSlot(ty, depth, name);
      if slot.Err? {
        return Err(slot.error);
      }
      var ptr := Build(Gep(cur.value, Indices([0, slot.value])));
      r := Ok(ptr);
    }

    /**
     * `insn.depth.times { gep(binding, [0, 0]); binding_ty = binding_ty.next }`:
     * fails (after that step's gep) when the walk leaves the scope chain.
     */
    method WalkOut(base: LVal, ty: Ty, depth: nat) returns (r: Result<LVal>)
      modifies this`code
      ensures Hop(ty, depth).Some? ==> r.Ok?
      ensures r.Err? ==> r.error == NoScope && Hop(ty, depth).None?
      ensures old(code) <= code
      ensures r.Ok? ==> r.value == ChainEnd(|old(code)|, base, depth) && code == old(code) + HopCode(cursor, |old(code)|, base, depth)
    {
      var n := |code|;
      var cur := base;
      var t: Option<Ty> := Some(ty);
      var i := 0;
      while i < depth
        invariant 0 <= i <= depth
        invariant t == Hop(ty, i)
        invariant cur == ChainEnd(n, base, i)
        invariant code == old(code) + HopCode(cursor, n, base, i)
      {
        cur := Build(Gep(cur, Indices([0, 0])));
        HopSnoc(ty, i);
        if t.None? || !t.value.BindingTy? {
          HopStaysOut(ty, i, depth);
          return Err(NoScope);
        }
        t := t.value.next;
        i := i + 1;
      }
      r := Ok(cur);
    }

    /**
     * `TupleInsn`: an insertvalue chain from `undef` of the tuple's
     * layout; the aggregate it ends with holds the operands in order.
     */
    method EmitTuple(ty: Ty, operands: seq<LirValue>) returns (r: Result<LVal>)
      requires TypesSound(types)
      modifies this`types, this`values, this`data, this`code
      ensures TypesSound(types) && Grown()
      ensures r.Ok? <==> Lower(ty).Ok? && LookupAll(old(values), old(data), operands).Ok?
      ensures r.Ok? ==>
        var n := |old(code)|;
        var base := UndefOf(Lower(ty).value);
        var elems := LookupAll(old(values), old(data), operands).value;
        && r.value == ChainEnd(n, base, |operands|)
        && code == old(code) + InsertChain(cursor, n, base, elems)
        && FieldsOf(code, r.value) == (map k: nat | k < |operands| :: elems[k])
    {
      var l := TypeOf(ty);
      if l.Err? {
        return Err(l.error);
      }
      var elems := ValuesOf(operands);
      if elems.Err? {
        return Err(elems.error);
      }
      var base := UndefOf(l.value);
      var acc := InsertAll(base, elems.value);
      InsertChainFields(old(code), cursor, base, elems.value);
      r := Ok(acc);
    }

    /** The reduction of `TupleInsn`: each element inserted into the next field. */
    method InsertAll(base: LVal, elems: seq<LVal>) returns (r: LVal)
      modifies this`code
      ensures r == ChainEnd(|old(code)|, base, |elems|)
      ensures code == old(code) + InsertChain(cursor, |old(code)|, base, elems)
    {
      var n := |code|;
      r := base;
      var i := 0;
      while i < |elems|
        invariant 0 <= i <= |elems|
        invariant r == ChainEnd(n, base, i)
        invariant code == old(code) + InsertChain(cursor, n, base, elems[..i])
      {
        r := Build(InsertValue(r, elems[i], i));
        assert elems[..i + 1][..i] == elems[..i];
        i := i + 1;
      }
      assert elems[..i] == elems;
    }

    /** `TupleRefInsn`: an extractvalue of the element. */
    method EmitTupleRef(tuple: LirValue, index: nat) returns (r: Result<LVal>)
      modifies this`values, this`data, this`code
      ensures Grown()
      ensures r.Ok? <==> Was(tuple).Ok?
      ensures r.Ok? ==> r.value == Reg(|old(code)|) && code == old(code) + [LInsn(cursor, ExtractValue(Was(tuple).value, index))]
    {
      var t := ValueOf(tuple);
      if t.Err? {
        return Err(t.error);
      }
      var e := Build(ExtractValue(t.value, index));
      r := Ok(e);
    }

    /**
     * `TupleSliceInsn`: field `k` of the new aggregate is an extractvalue
     * of field `range[k]` of the source tuple.
     */
    method EmitTupleSlice(ty: Ty, tuple: LirValue, range: seq<nat>) returns (r: Result<LVal>)
      requires TypesSound(types)
      modifies this`types, this`values, this`data, this`code
      ensures TypesSound(types) && Grown()
      ensures r.Ok? <==> Lower(ty).Ok? && Was(tuple).Ok?
      ensures r.Ok? ==>
        var n := |old(code)|;
        var base := UndefOf(Lower(ty).value);
        && r.value == SliceEnd(n, base, |range|)
        && code == old(code) + SliceChain(cursor, n, base, Was(tuple).value, range)
        && FieldsOf(code, r.value) == (map k: nat | k < |range| :: Reg(n + 2 * k))
        && forall k :: 0 <= k < |range| ==> code[n + 2 * k].op == ExtractValue(Was(tuple).value, range[k])
    {
      var l := TypeOf(ty);
      if l.Err? {
        return Err(l.error);
      }
      r := SliceTuple(UndefOf(l.value), tuple, range);
    }

    /** The slice proper, once the result type has lowered: the source tuple looked up, then the chain built on `base`. */
    method SliceTuple(base: LVal, tuple: LirValue, range: seq<nat>) returns (r: Result<LVal>)
      requires !base.Reg?
      modifies this`values, this`data, this`code
      ensures Grown()
      ensures r.Ok? <==> Was(tuple).Ok?
      ensures r.Ok? ==>
        var n := |old(code)|;
        && r.value == SliceEnd(n, base, |range|)
        && code == old(code) + SliceChain(cursor, n, base, Was(tuple).value, range)
        && FieldsOf(code, r.value) == (map k: nat | k < |range| :: Reg(n + 2 * k))
        && forall k :: 0 <= k < |range| ==> code[n + 2 * k].op == ExtractValue(Was(tuple).value, range[k])
    {
      var src := ValueOf(tuple);
      if src.Err? {
        return Err(src.error);
      }
      var acc := SliceAll(base, src.value, range);
      r := Ok(acc);
    }

    /** The reduction of `TupleSliceInsn`: extract each field of `range`, insert it into the next field. */
    method SliceAll(base: LVal, src: LVal, range: seq<nat>) returns (r: LVal)
      requires !base.Reg?
      modifies this`code
      ensures r == SliceEnd(|old(code)|, base, |range|)
      ensures code == old(code) + SliceChain(cursor, |old(code)|, base, src, range)
      ensures FieldsOf(code, r) == (map k: nat | k < |range| :: Reg(|old(code)| + 2 * k))
      ensures forall k :: 0 <= k < |range| ==> code[|old(code)| + 2 * k].op == ExtractValue(src, range[k])
    {
      var n := |code|;
      r := base;
      var i := 0;
      while i < |range|
        invariant 0 <= i <= |range|
        invariant r == SliceEnd(n, base, i)
        invariant code == old(code) + SliceChain(cursor, n, base, src, range[..i])
      {
        var elem := Build(ExtractValue(src, range[i]));
        r := Build(InsertValue(r, elem, i));
        assert range[..i + 1][..i] == range[..i];
        i := i + 1;
      }
      assert range[..i] == range;
      SliceChainFields(old(code), cursor, base, src, range);
      SliceChainExtracts(old(code), cursor, base, src, range);
    }

    /**
     * `IntegerOpInsn`: both operands are looked up first, then the
     * operator decides between arithmetic, a comparison and an error.
     */
    method EmitIntegerOp(operation: string, left: LirValue, right: LirValue) returns (r: Result<LVal>)
      requires TypesSound(types) && ImmediatesPinned(data)
      modifies this`types, this`values, this`data, this`code
      ensures TypesSound(types) && Grown()
      ensures r.Ok? <==> Was(left).Ok? && Was(right).Ok? && (ArithOpOf(operation).Some? || ComparePred(operation).Some?)
      ensures Was(left).Ok? && Was(right).Ok? && ArithOpOf(operation).None? && ComparePred(operation).None? ==> r == Err(UnableToLowerIntegerOp)
      ensures r.Ok? ==> code == old(code) + IntegerOpCode(cursor, |old(code)|, operation, Was(left).value, Was(right).value, objectClass)
      ensures r.Ok? ==> r.value == Reg(|code| - 1)
    {
      var lv := ValueOf(left);
      if lv.Err? {
        return Err(lv.error);
      }
      LookupKeeps(old(values), old(data), left, right);
      var rv := ValueOf(right);
      if rv.Err? {
        return Err(rv.error);
      }
      r := IntegerResult(operation, lv.value, rv.value);
    }

    /** The instructions of `IntegerOpInsn` once its operands are known. */
    method IntegerResult(operation: string, l: LVal, rv: LVal) returns (r: Result<LVal>)
      requires TypesSound(types) && ImmediatesPinned(data)
      modifies this`types, this`code
      ensures TypesSound(types)
      ensures r.Ok? <==> ArithOpOf(operation).Some? || ComparePred(operation).Some?
      ensures r.Err? ==> r.error == UnableToLowerIntegerOp && code == old(code)
      ensures r.Ok? ==> code == old(code) + IntegerOpCode(cursor, |old(code)|, operation, l, rv, objectClass) && r.value == Reg(|code| - 1)
    {
      var arith := ArithOpOf(operation);
      if arith.Some? {
        var v := Build(Arith(arith.value, l, rv));
        return Ok(v);
      }
      var pred := ComparePred(operation);
      if pred.None? {
        return Err(UnableToLowerIntegerOp);
      }
      var cmp := Build(ICmp(pred.value, l, rv));
      var objTy := TypeOf(RubyTy(objectClass));
      ObjectLowering(objectClass);
      var sel := Build(Select(cmp, Bitcast(data[TrueObj], objTy.value), Bitcast(data[FalseObj], objTy.value)));
      r := Ok(sel);
    }

    /**
     * `InvokeInsn`: the callee's declaration (a callee missing from the
     * LIR module raises on `nil`), the arguments, then the call.
     */
    method EmitInvoke(callee: string, arguments: seq<LirValue>) returns (r: Result<LVal>)
      requires Valid()
      modifies this`types, this`functions, this`values, this`data, this`code
      ensures Valid() && Grown() && old(functions) <= functions
      ensures callee !in lir ==> r == Err(NoFunction)
      ensures r.Ok? <==> callee in lir && DeclLowers(old(functions), lir[callee]) && LookupAll(old(values), old(data), arguments).Ok?
      ensures r.Ok? ==>
        && FindDecl(functions, callee).Some?
        && r.value == Reg(|old(code)|)
        && code == old(code) + [LInsn(cursor, Call(FunctionRef(FindDecl(functions, callee).value), LookupAll(old(values), old(data), arguments).value))]
    {
      if callee !in lir {
        return Err(NoFunction);
      }
      var decl := EmitFunctionDecl(lir[callee]);
      if decl.Err? {
        return Err(decl.error);
      }
      FindDeclUnique(functions, decl.value);
      var args := ValuesOf(arguments);
      if args.Err? {
        return Err(args.error);
      }
      var call := Build(Call(FunctionRef(decl.value), args.value));
      r := Ok(call);
    }

    /** `BranchInsn`: an unconditional branch to the target's basic block. */
    method EmitBranch(target: string) returns (r: Result<LVal>)
      modifies this`values, this`data, this`code
      ensures Grown()
      ensures r.Ok? <==> BlockRef(target) in old(values)
      ensures r.Ok? ==> r.value == Reg(|old(code)|) && code == old(code) + [LInsn(cursor, Br(old(values)[BlockRef(target)]))]
    {
      var bb := ValueOf(BlockRef(target));
      if bb.Err? {
        return Err(bb.error);
      }
      var br := Build(Br(bb.value));
      r := Ok(br);
    }

    /**
     * `BranchIfInsn`: the condition's address with the `false` bit masked
     * off is compared with zero (see `BranchFalseExactlyForNilAndFalse`),
     * then a conditional branch to the two targets' basic blocks.
     */
    method EmitBranchIf(condition: LirValue, trueTarget: string, falseTarget: string) returns (r: Result<LVal>)
      modifies this`values, this`data, this`code
      ensures Grown()
      ensures r.Ok? <==> Was(condition).Ok? && BlockRef(trueTarget) in old(values) && BlockRef(falseTarget) in old(values)
      ensures r.Ok? ==>
        var n := |old(code)|;
        && r.value == Reg(n + 3)
        && code == old(code) + TruthTest(cursor, n, Was(condition).value)
             + [LInsn(cursor, CondBr(Reg(n + 2), old(values)[BlockRef(trueTarget)], old(values)[BlockRef(falseTarget)]))]
    {
      var c := ValueOf(condition);
      if c.Err? {
        return Err(c.error);
      }
      var test := EmitTruthTest(c.value);
      LookupKeeps(old(values), old(data), condition, BlockRef(trueTarget));
      LookupKeeps(old(values), old(data), condition, BlockRef(falseTarget));
      LookupAllEach(values, data, [BlockRef(trueTarget), BlockRef(falseTarget)]);
      var targets := ValuesOf([BlockRef(trueTarget), BlockRef(falseTarget)]);
      if targets.Err? {
        return Err(targets.error);
      }
      var br := Build(CondBr(test, targets.value[0], targets.value[1]));
      r := Ok(br);
    }

    /** The truth test of a branch: `ptr2int`, `and` with all bits but the `false` bit, `icmp ne 0`. */
    method EmitTruthTest(v: LVal) returns (r: LVal)
      modifies this`code
      ensures r == Reg(|old(code)| + 2) && code == old(code) + TruthTest(cursor, |old(code)|, v)
    {
      var word := Build(PtrToInt(v));
      var masked := Build(And(word, I64(!FalseBit)));
      r := Build(ICmp(Ne, masked, I64(0)));
    }

    /**
     * `PhiInsn`: queued for the fix-up pass before its type is lowered;
     * an empty phi of the lowered type stands in until then.
     */
    method EmitPhi(insn: LirInsn) returns (r: Result<LVal>)
      requires insn.kind.PhiInsn? && TypesSound(types)
      modifies this`phiFixups, this`types, this`code
      ensures TypesSound(types) && old(code) <= code
      ensures phiFixups == old(phiFixups) + [insn]
      ensures r.Ok? <==> Lower(insn.kind.ty).Ok?
      ensures r.Ok? ==> r.value == Reg(|old(code)|) && code == old(code) + [LInsn(cursor, Phi(Lower(insn.kind.ty).value, []))]
    {
      phiFixups := phiFixups + [insn];
      var l := TypeOf(insn.kind.ty);
      if l.Err? {
        return Err(l.error);
      }
      var phi := Build(Phi(l.value, []));
      r := Ok(phi);
    }

    /** `ReturnInsn`: `ret void` for the bottom type, else `ret` of the value. */
    method EmitReturn(valueTy: Ty, value: LirValue) returns (r: Result<LVal>)
      modifies this`values, this`data, this`code
      ensures Grown()
      ensures r.Ok? <==> valueTy == Bottom || Was(value).Ok?
      ensures r.Ok? ==> r.value == Reg(|old(code)|) && code == old(code) + [LInsn(cursor, if valueTy == Bottom then RetVoid else Ret(Was(value).value))]
    {
      if valueTy == Bottom {
        var ret := Build(RetVoid);
        return Ok(ret);
      }
      var v := ValueOf(value);
      if v.Err? {
        return Err(v.error);
      }
      var ret := Build(Ret(v.value));
      r := Ok(ret);
    }

    /**
     * `TraceInsn`: the operand as a machine word (sign-extended when it is
     * a machine integer, its address otherwise) passed to `foundry.trace`;
     * the instruction's value is `nil`.
     */
    method EmitTrace(operand: LirValue, operandTy: Ty) returns (r: Result<LVal>)
      requires ImmediatesPinned(data) && UniqueNames(functions)
      modifies this`functions, this`values, this`data, this`code
      ensures ImmediatesPinned(data) && UniqueNames(functions) && Grown()
      ensures r.Ok? <==> Was(operand).Ok?
      ensures r.Err? ==> functions == old(functions)
      ensures r.Ok? ==>
        var n := |old(code)|;
        && r.value == PinnedAddr(NilAddr, PinnedTy("NilClass"))
        && functions == DeclareTrace(old(functions))
        && code == old(code) + [LInsn(cursor, if operandTy.MachineInteger? then SExt(Was(operand).value) else PtrToInt(Was(operand).value)),
                                LInsn(cursor, Call(FunctionRef(FindDecl(functions, TraceName).value), [Reg(n)]))]
    {
      var v := ValueOf(operand);
      if v.Err? {
        return Err(v.error);
      }
      TraceCall(v.value, operandTy);
      r := Ok(data[NilObj]);
    }

    /** The word conversion of a looked-up operand and the call to `foundry.trace` with it. */
    method TraceCall(v: LVal, operandTy: Ty)
      requires UniqueNames(functions)
      modifies this`functions, this`code
      ensures UniqueNames(functions) && functions == DeclareTrace(old(functions))
      ensures code == old(code) + [LInsn(cursor, if operandTy.MachineInteger? then SExt(v) else PtrToInt(v)),
                                   LInsn(cursor, Call(FunctionRef(FindDecl(functions, TraceName).value), [Reg(|old(code)|)]))]
    {
      var hook := DeclareTraceHook();
      var word := Build(if operandTy.MachineInteger? then SExt(v) else PtrToInt(v));
      var _ := Build(Call(FunctionRef(hook), [word]));
    }

    /** The declaration `foundry.trace` calls go to, declared on first use. */
    method DeclareTraceHook() returns (hook: nat)
      requires UniqueNames(functions)
      modifies this`functions
      ensures UniqueNames(functions) && functions == DeclareTrace(old(functions))
      ensures FindDecl(functions, TraceName) == Some(hook)
    {
      var found := FindDecl(functions, TraceName);
      if found.None? {
        functions := functions + [TraceDecl];
        found := Some(|functions| - 1);
      }
      DeclareTraceIdempotent(old(functions));
      FindDeclUnique(functions, found.value);
      hook := found.value;
    }

    /** Does `emit_code` lower this instruction to a computed value (rather than a call, a jump or a phi)? */
    predicate ComputesValue(kind: InsnKind) {
      kind.BindingInsn? || kind.LvarLoad? || kind.LvarStore? || kind.TupleInsn? || kind.TupleRef? || kind.TupleSlice? || kind.IntegerOp?
    }

    /**
     * What `emit_code` does for `insn`: when each arm succeeds, and the code
     * it appends and the value it yields when it does.
     */
    twostate predicate Lowered(insn: LirInsn, new r: Result<LVal>)
      reads this
    {
      && (match insn.kind
          case BindingInsn(ty, next) => r.Ok? <==> Lower(ty).Ok? && ty.BindingTy? && (ty.next.Some? ==> Was(next).Ok?)
          case LvarLoad(binding, bindingTy, depth, name) => r.Ok? <==> Was(binding).Ok? && LvarSlot(bindingTy, depth, name).Ok?
          case LvarStore(binding, bindingTy, depth, name, value) =>
            r.Ok? <==> Was(binding).Ok? && LvarSlot(bindingTy, depth, name).Ok? && Was(value).Ok?
          case TupleInsn(ty, operands) => r.Ok? <==> Lower(ty).Ok? && LookupAll(old(values), old(data), operands).Ok?
          case TupleRef(tuple, _) => r.Ok? <==> Was(tuple).Ok?
          case TupleSlice(ty, tuple, _) => r.Ok? <==> Lower(ty).Ok? && Was(tuple).Ok?
          case IntegerOp(operation, left, right) =>
            r.Ok? <==> Was(left).Ok? && Was(right).Ok? && (ArithOpOf(operation).Some? || ComparePred(operation).Some?)
          case Invoke(callee, arguments) =>
            r.Ok? <==> callee in lir && DeclLowers(old(functions), lir[callee]) && LookupAll(old(values), old(data), arguments).Ok?
          case Branch(target) => r.Ok? <==> BlockRef(target) in old(values)
          case BranchIf(condition, t, f) => r.Ok? <==> Was(condition).Ok? && BlockRef(t) in old(values) && BlockRef(f) in old(values)
          case PhiInsn(ty, _) => r.Ok? <==> Lower(ty).Ok?
          case ReturnInsn(valueTy, value) => r.Ok? <==> valueTy == Bottom || Was(value).Ok?
          case TraceInsn(operand, _) => r.Ok? <==> Was(operand).Ok?
          case OtherInsn(_) => r == Err(CannotLower))
      && (r.Ok? ==> match insn.kind
          case BindingInsn(ty, next) =>
            var n := |old(code)|;
            && r.value == Reg(n)
            && code == old(code) + [LInsn(cursor, Alloca(Lower(ty).value))]
                 + (if ty.next.Some? then [LInsn(cursor, Gep(Reg(n), Indices([0, 0]))), LInsn(cursor, Store(Was(next).value, Reg(n + 1)))] else [])
          case LvarLoad(binding, bindingTy, depth, name) =>
            var n := |old(code)|;
            && r.value == Reg(n + depth + 1)
            && code == old(code) + HopCode(cursor, n, Was(binding).value, depth)
                 + [LInsn(cursor, Gep(ChainEnd(n, Was(binding).value, depth), Indices([0, LvarSlot(bindingTy, depth, name).value]))),
                    LInsn(cursor, Load(Reg(n + depth)))]
          case LvarStore(binding, bindingTy, depth, name, value) =>
            var n := |old(code)|;
            && r.value == Reg(n + depth + 1)
            && code == old(code) + HopCode(cursor, n, Was(binding).value, depth)
                 + [LInsn(cursor, Gep(ChainEnd(n, Was(binding).value, depth), Indices([0, LvarSlot(bindingTy, depth, name).value]))),
                    LInsn(cursor, Store(Was(value).value, Reg(n + depth)))]
          case TupleInsn(ty, operands) =>
            var elems := LookupAll(old(values), old(data), operands).value;
            && r.value == ChainEnd(|old(code)|, UndefOf(Lower(ty).value), |operands|)
            && code == old(code) + InsertChain(cursor, |old(code)|, UndefOf(Lower(ty).value), elems)
            && FieldsOf(code, r.value) == (map k: nat | k < |operands| :: elems[k])
          case TupleRef(tuple, index) =>
            r.value == Reg(|old(code)|) && code == old(code) + [LInsn(cursor, ExtractValue(Was(tuple).value, index))]
          case TupleSlice(ty, tuple, range) =>
            var n := |old(code)|;
            && r.value == SliceEnd(n, UndefOf(Lower(ty).value), |range|)
            && code == old(code) + SliceChain(cursor, n, UndefOf(Lower(ty).value), Was(tuple).value, range)
            && FieldsOf(code, r.value) == (map k: nat | k < |range| :: Reg(n + 2 * k))
          case IntegerOp(operation, left, right) =>
            && code == old(code) + IntegerOpCode(cursor, |old(code)|, operation, Was(left).value, Was(right).value, objectClass)
            && r.value == Reg(|code| - 1)
          case Invoke(callee, arguments) =>
            && FindDecl(functions, callee).Some?
            && r.value == Reg(|old(code)|)
            && code == old(code) + [LInsn(cursor, Call(FunctionRef(FindDecl(functions, callee).value), LookupAll(old(values), old(data), arguments).value))]
          case Branch(target) =>
            r.value == Reg(|old(code)|) && code == old(code) + [LInsn(cursor, Br(old(values)[BlockRef(target)]))]
          case BranchIf(condition, t, f) =>
            var n := |old(code)|;
            && r.value == Reg(n + 3)
            && code == old(code) + TruthTest(cursor, n, Was(condition).value)
                 + [LInsn(cursor, CondBr(Reg(n + 2), old(values)[BlockRef(t)], old(values)[BlockRef(f)]))]
          case PhiInsn(ty, _) => r.value == Reg(|old(code)|) && code == old(code) + [LInsn(cursor, Phi(Lower(ty).value, []))]
          case ReturnInsn(valueTy, value) =>
            r.value == Reg(|old(code)|) && code == old(code) + [LInsn(cursor, if valueTy == Bottom then RetVoid else Ret(Was(value).value))]
          case TraceInsn(operand, operandTy) =>
            var n := |old(code)|;
            && r.value == PinnedAddr(NilAddr, PinnedTy("NilClass"))
            && functions == DeclareTrace(old(functions))
            && code == old(code) + [LInsn(cursor, if operandTy.MachineInteger? then SExt(Was(operand).value) else PtrToInt(Was(operand).value)),
                                    LInsn(cursor, Call(FunctionRef(FindDecl(functions, TraceName).value), [Reg(n)]))]
          case OtherInsn(_) => false)
    }

    /**
     * `emit_code`: lowers one instruction at the cursor, by its class.
     * Every arm keeps the caches sound and only adds to them and to the
     * code; phis, and only phis, are queued for the fix-up pass.
     */
    method EmitCode(insn: LirInsn) returns (r: Result<LVal>)
      requires Valid()
      modifies this`types, this`functions, this`values, this`data, this`code, this`phiFixups
      ensures Valid() && Grown() && old(functions) <= functions
      ensures phiFixups == old(phiFixups) + PhisIn([insn])
      ensures Lowered(insn, r)
    {
      if ComputesValue(insn.kind) {
        r := EmitValueCode(insn);
      } else if insn.kind.OtherInsn? {
        r := Err(CannotLower);
      } else {
        r := EmitEffectCode(insn);
      }
    }

    /** The arms of `emit_code` for bindings, local variables, tuples and integer operations. */
    method EmitValueCode(insn: LirInsn) returns (r: Result<LVal>)
      requires Valid() && ComputesValue(insn.kind)
      modifies this`types, this`values, this`data, this`code
      ensures Valid() && Grown()
      ensures Lowered(insn, r)
    {
      match insn.kind
      case BindingInsn(ty, next) => r := EmitBinding(ty, next);
      case LvarLoad(binding, bindingTy, depth, name) => r := EmitLvar(binding, bindingTy, depth, name, None);
      case LvarStore(binding, bindingTy, depth, name, value) => r := EmitLvar(binding, bindingTy, depth, name, Some(value));
      case TupleInsn(ty, operands) => r := EmitTuple(ty, operands);
      case TupleRef(tuple, index) => r := EmitTupleRef(tuple, index);
      case TupleSlice(ty, tuple, range) => r := EmitTupleSlice(ty, tuple, range);
      case IntegerOp(operation, left, right) => r := EmitIntegerOp(operation, left, right);
    }

    /** The arms of `emit_code` for calls, branches, phis, returns and traces. */
    method EmitEffectCode(insn: LirInsn) returns (r: Result<LVal>)
      requires Valid() && !ComputesValue(insn.kind) && !insn.kind.OtherInsn?
      modifies this`types, this`functions, this`values, this`data, this`code, this`phiFixups
      ensures Valid() && Grown() && old(functions) <= functions
      ensures phiFixups == old(phiFixups) + PhisIn([insn])
      ensures Lowered(insn, r)
    {
      match insn.kind
      case Invoke(callee, arguments) => r := EmitInvoke(callee, arguments);
      case Branch(target) => r := EmitBranch(target);
      case BranchIf(condition, trueTarget, falseTarget) => r := EmitBranchIf(condition, trueTarget, falseTarget);
      case PhiInsn(_, _) => r := EmitPhi(insn);
      case ReturnInsn(valueTy, value) => r := EmitReturn(valueTy, value);
      case TraceInsn(operand, operandTy) => r := EmitTrace(operand, operandTy);
    }

    /**
     * The instructions of one block, lowered in order at the cursor, each
     * result recorded as the instruction's value.
     */
    method EmitBlock(b: LirBlock) returns (r: Result<()>)
      requires Valid() && PhisPending(phiFixups, values, code)
      requires forall j1, j2 :: 0 <= j1 < j2 < |b.insns| ==> b.insns[j1].id != b.insns[j2].id
      requires forall p, j :: p in phiFixups && 0 <= j < |b.insns| ==> p.id != b.insns[j].id
      modifies this`types, this`functions, this`values, this`data, this`code, this`phiFixups
      ensures Valid() && old(functions) <= functions
      ensures forall k :: k in old(values) && !k.InsnRef? ==> k in values && values[k] == old(values)[k]
      ensures forall k :: k in old(values) ==> k in values
      ensures r.Ok? ==>
        && phiFixups == old(phiFixups) + PhisIn(b.insns)
        && PhisPending(phiFixups, values, code)
        && forall j :: 0 <= j < |b.insns| ==> InsnRef(b.insns[j].id) in values
    {
      var i := 0;
      while i < |b.insns|
        invariant 0 <= i <= |b.insns|
        invariant Valid() && old(functions) <= functions
        invariant forall k :: k in old(values) && !k.InsnRef? ==> k in values && values[k] == old(values)[k]
        invariant forall k :: k in old(values) ==> k in values
        invariant forall j :: 0 <= j < i ==> InsnRef(b.insns[j].id) in values
        invariant phiFixups == old(phiFixups) + PhisIn(b.insns[..i])
        invariant PhisPending(phiFixups, values, code)
      {
        var x := LowerInsn(b.insns, i, old(phiFixups));
        if x.Err? {
          return Err(x.error);
        }
        i := i + 1;
      }
      assert b.insns[..i] == b.insns;
      r := Ok(());
    }

    /**
     * Instruction `i` of a block: `emit_code`, then its result recorded as
     * `@values[insn]`; the phis of the block up to it are queued after
     * those of earlier blocks, `queued`.
     */
    method LowerInsn(insns: seq<LirInsn>, i: nat, ghost queued: seq<LirInsn>) returns (r: Result<()>)
      requires i < |insns| && Valid() && PhisPending(phiFixups, values, code)
      requires forall j1, j2 :: 0 <= j1 < j2 < |insns| ==> insns[j1].id != insns[j2].id
      requires forall p, j :: p in queued && 0 <= j < |insns| ==> p.id != insns[j].id
      requires phiFixups == queued + PhisIn(insns[..i])
      modifies this`types, this`functions, this`values, this`data, this`code, this`phiFixups
      ensures Valid() && old(functions) <= functions
      ensures forall k :: k in old(values) && !k.InsnRef? ==> k in values && values[k] == old(values)[k]
      ensures forall k :: k in old(values) ==> k in values
      ensures r.Ok? ==>
        && phiFixups == queued + PhisIn(insns[..i + 1])
        && PhisPending(phiFixups, values, code)
        && InsnRef(insns[i].id) in values
    {
      var insn := insns[i];
      var x := EmitCode(insn);
      if x.Err? {
        return Err(x.error);
      }
      QueueStep(queued, insns, i, old(values), old(code), values, code, x.value);
      PhisInSnoc(insns, i);
      values := values[InsnRef(insn.id) := x.value];
      r := Ok(());
    }

    /**
     * `emit_function`: the declaration; then, with the phi queue and
     * `@values` cleared, the arguments bound to its parameters and one
     * basic block appended per LIR block; then each block lowered; then
     * every queued phi given its incoming pairs.
     */
    method EmitFunction(f: LirFunction) returns (r: Result<nat>)
      requires Valid() && UniqueIds(f)
      modifies this`types, this`functions, this`values, this`data, this`code, this`phiFixups, this`blocks, this`cursor
      ensures Valid() && old(functions) <= functions
      ensures r.Ok? ==>
        && r.value < |functions| && FindDecl(functions, f.name) == Some(r.value)
        && blocks == old(blocks) + BlocksOf(r.value, f)
        && BoundTo(values, r.value, f)
        && InsnsRecorded(values, f.blocks)
        && phiFixups == PhisOf(f.blocks)
        && PhisFixed(phiFixups, values, data, code)
    {
      var decl := EmitFunctionDecl(f);
      if decl.Err? {
        return Err(decl.error);
      }
      var body := EmitBody(decl.value, f);
      if body.Err? {
        return Err(body.error);
      }
      FindDeclUnique(functions, decl.value);
      r := Ok(decl.value);
    }

    /** The body of `emit_function` once the declaration `decl` exists. */
    method EmitBody(decl: nat, f: LirFunction) returns (r: Result<()>)
      requires Valid() && UniqueIds(f)
      modifies this`types, this`functions, this`values, this`data, this`code, this`phiFixups, this`blocks, this`cursor
      ensures Valid() && old(functions) <= functions
      ensures r.Ok? ==>
        && blocks == old(blocks) + BlocksOf(decl, f)
        && BoundTo(values, decl, f)
        && InsnsRecorded(values, f.blocks)
        && phiFixups == PhisOf(f.blocks)
        && PhisFixed(phiFixups, values, data, code)
    {
      BindFunction(decl, f);
      r := LowerAndFix(decl, f);
    }

    /** Every block lowered, then every queued phi given its incoming pairs. */
    method LowerAndFix(ghost decl: nat, f: LirFunction) returns (r: Result<()>)
      requires Valid() && UniqueIds(f) && phiFixups == [] && BoundTo(values, decl, f)
      modifies this`types, this`functions, this`values, this`data, this`code, this`phiFixups, this`cursor
      ensures Valid() && old(functions) <= functions
      ensures r.Ok? ==>
        && BoundTo(values, decl, f)
        && InsnsRecorded(values, f.blocks)
        && phiFixups == PhisOf(f.blocks)
        && PhisFixed(phiFixups, values, data, code)
    {
      var lowered := LowerBlocks(decl, f);
      if lowered.Err? {
        return Err(lowered.error);
      }
      label Fixing:
      var fixed := FixPhis();
      if fixed.Err? {
        return Err(fixed.error);
      }
      BoundToKept(old@Fixing(values), values, decl, f);
      r := Ok(());
    }

    /**
     * `@phi_fixups.clear`, `@values.clear`; each argument's value is the
     * declaration's parameter of that position, and one basic block is
     * appended per LIR block and recorded as that block's value.
     */
    method BindFunction(decl: nat, f: LirFunction)
      modifies this`values, this`blocks, this`phiFixups
      ensures phiFixups == [] && blocks == old(blocks) + BlocksOf(decl, f) && BoundTo(values, decl, f)
    {
      phiFixups := [];
      values := map[];
      var i := 0;
      while i < |f.arguments|
        invariant 0 <= i <= |f.arguments| && phiFixups == [] && blocks == old(blocks)
        invariant forall k :: k in values ==> k.Arg?
        invariant forall j :: 0 <= j < i ==> Arg(j) in values && values[Arg(j)] == Param(decl, j)
      {
        values := values[Arg(i) := Param(decl, i)];
        i := i + 1;
      }
      AppendBlocks(decl, f);
    }

    /** One basic block appended to the declaration per LIR block, and recorded as that block's value. */
    method AppendBlocks(decl: nat, f: LirFunction)
      modifies this`values, this`blocks
      ensures blocks == old(blocks) + BlocksOf(decl, f)
      ensures forall i :: 0 <= i < |f.blocks| ==>
        BlockRef(f.blocks[i].name) in values && values[BlockRef(f.blocks[i].name)] == BasicBlock(decl, f.blocks[i].name)
      ensures forall k :: k in old(values) && !k.BlockRef? ==> k in values && values[k] == old(values)[k]
    {
      var i := 0;
      while i < |f.blocks|
        invariant 0 <= i <= |f.blocks|
        invariant blocks == old(blocks) + BlocksOf(decl, f)[..i]
        invariant forall j :: 0 <= j < i ==>
          BlockRef(f.blocks[j].name) in values && values[BlockRef(f.blocks[j].name)] == BasicBlock(decl, f.blocks[j].name)
        invariant forall k :: k in old(values) && !k.BlockRef? ==> k in values && values[k] == old(values)[k]
      {
        var bb := BasicBlock(decl, f.blocks[i].name);
        values := values[BlockRef(f.blocks[i].name) := bb];
        blocks := blocks + [bb];
        assert BlocksOf(decl, f)[..i + 1] == BlocksOf(decl, f)[..i] + [bb];
        i := i + 1;
      }
      assert BlocksOf(decl, f)[..i] == BlocksOf(decl, f);
    }

    /** Each LIR block lowered in order, the builder positioned at the end of its basic block. */
    method LowerBlocks(ghost decl: nat, f: LirFunction) returns (r: Result<()>)
      requires Valid() && UniqueIds(f) && phiFixups == [] && BoundTo(values, decl, f)
      modifies this`types, this`functions, this`values, this`data, this`code, this`phiFixups, this`cursor
      ensures Valid() && old(functions) <= functions
      ensures r.Ok? ==> BoundTo(values, decl, f) && phiFixups == PhisOf(f.blocks) && PhisPending(phiFixups, values, code)
      ensures r.Ok? ==> InsnsRecorded(values, f.blocks)
    {
      var i := 0;
      while i < |f.blocks|
        invariant 0 <= i <= |f.blocks|
        invariant Valid() && old(functions) <= functions
        invariant forall k :: k in old(values) && !k.InsnRef? ==> k in values && values[k] == old(values)[k]
        invariant InsnsRecorded(values, f.blocks[..i])
        invariant phiFixups == PhisOf(f.blocks[..i]) && PhisPending(phiFixups, values, code)
      {
        var b := f.blocks[i];
        cursor := values[BlockRef(b.name)];
        BlockIdsDiffer(f, i);
        ghost var before := values;
        var lowered := EmitBlock(b);
        if lowered.Err? {
          return Err(lowered.error);
        }
        InsnsRecordedSnoc(before, values, f.blocks, i);
        PhisOfSnoc(f.blocks, i);
        i := i + 1;
      }
      assert f.blocks[..i] == f.blocks;
      BoundToKept(old(values), values, decl, f);
      r := Ok(());
    }

    /** `@phi_fixups.each`: every queued phi receives one incoming pair per LIR edge, in order. */
    method FixPhis() returns (r: Result<()>)
      requires PhisPending(phiFixups, values, code)
      modifies this`values, this`data, this`code
      ensures Extends(old(values), values) && Extends(old(data), data) && SameLookups(old(values), old(data), values, data)
      ensures |code| == |old(code)| && forall i :: 0 <= i < |code| && !old(code)[i].op.Phi? ==> code[i] == old(code)[i]
      ensures r.Ok? <==> forall j :: 0 <= j < |phiFixups| ==> Incomings(values, data, phiFixups[j].kind.edges).Ok?
      ensures r.Ok? ==> PhisFixed(phiFixups, values, data, code)
    {
      var j := 0;
      while j < |phiFixups|
        invariant 0 <= j <= |phiFixups|
        invariant Extends(old(values), values) && Extends(old(data), data) && SameLookups(old(values), old(data), values, data)
        invariant |code| == |old(code)| && forall i :: 0 <= i < |code| && !old(code)[i].op.Phi? ==> code[i] == old(code)[i]
        invariant forall q :: 0 <= q < |phiFixups| ==> PhiAt(values, phiFixups[q]) == PhiAt(old(values), phiFixups[q])
        invariant PhisFixed(phiFixups[..j], old(values), old(data), code)
        invariant forall q :: j <= q < |phiFixups| ==> code[PhiAt(old(values), phiFixups[q])] == old(code)[PhiAt(old(values), phiFixups[q])]
      {
        var p := phiFixups[j];
        ghost var before := code;
        IncomingsSame(old(values), old(data), values, data, p.kind.edges);
        var fixed := FixPhi(PhiAt(values, p), p.kind.edges);
        IncomingsSame(old(values), old(data), values, data, p.kind.edges);
        if fixed.Err? {
          return Err(fixed.error);
        }
        PhisFixedKept(phiFixups[..j], old(values), old(data), before, code, PhiAt(old(values), p));
        assert PhiFixed(p, old(values), old(data), code);
        assert phiFixups[..j + 1] == phiFixups[..j] + [p];
        j := j + 1;
      }
      forall q | 0 <= q < |phiFixups|
        ensures PhiFixed(phiFixups[q], values, data, code)
      {
        assert phiFixups[..j][q] == phiFixups[q];
        IncomingsSame(old(values), old(data), values, data, phiFixups[q].kind.edges);
      }
      r := Ok(());
    }

    /** One phi's fix-up: `add_incoming` of each edge's basic block and value. */
    method FixPhi(k: nat, edges: seq<PhiOperand>) returns (r: Result<()>)
      requires k < |code| && code[k].op.Phi?
      modifies this`values, this`data, this`code
      ensures Extends(old(values), values) && Extends(old(data), data) && SameLookups(old(values), old(data), values, data)
      ensures |code| == |old(code)| && forall i :: 0 <= i < |code| && i != k ==> code[i] == old(code)[i]
      ensures code[k].block == old(code)[k].block && code[k].op.Phi? && code[k].op.ty == old(code)[k].op.ty
      ensures r.Ok? <==> Incomings(old(values), old(data), edges).Ok?
      ensures r.Ok? ==> code[k].op.incoming == old(code)[k].op.incoming + Incomings(old(values), old(data), edges).value
    {
      var phi := code[k];
      var i := 0;
      var added: seq<Incoming> := [];
      while i < |edges|
        invariant 0 <= i <= |edges|
        invariant Extends(old(values), values) && Extends(old(data), data) && SameLookups(old(values), old(data), values, data)
        invariant |code| == |old(code)| && forall n :: 0 <= n < |code| && n != k ==> code[n] == old(code)[n]
        invariant phi == old(code)[k] && code[k] == LInsn(phi.block, Phi(phi.op.ty, phi.op.incoming + added))
        invariant Incomings(old(values), old(data), edges[..i]) == Ok(added)
      {
        IncomingsSnoc(old(values), old(data), edges, i);
        LookupsKept(values, data, BlockRef(edges[i].block));
        var bb := ValueOf(BlockRef(edges[i].block));
        if bb.Err? {
          IncomingsFirstError(old(values), old(data), edges, i + 1);
          return Err(bb.error);
        }
        LookupsKept(values, data, edges[i].value);
        var v := ValueOf(edges[i].value);
        if v.Err? {
          IncomingsFirstError(old(values), old(data), edges, i + 1);
          return Err(v.error);
        }
        added := added + [Incoming(bb.value, v.value)];
        code := code[k := LInsn(phi.block, Phi(phi.op.ty, phi.op.incoming + added))];
        i := i + 1;
      }
      assert edges[..i] == edges;
      r := Ok(());
    }

    /**
     * `run`'s loop: each function of the translator lowered in turn, the
     * first failure ending the run; every lowered function is declared
     * under its own name.
     */
    method EmitFunctions(fs: seq<LirFunction>) returns (r: Result<()>)
      requires Valid() && forall i :: 0 <= i < |fs| ==> UniqueIds(fs[i])
      modifies this`types, this`functions, this`values, this`data, this`code, this`phiFixups, this`blocks, this`cursor
      ensures Valid() && old(functions) <= functions
      ensures r.Ok? ==> forall i :: 0 <= i < |fs| ==> FindDecl(functions, fs[i].name).Some?
      ensures r.Ok? ==> blocks == BlocksAfter(old(blocks), functions, fs)
    {
      var i := 0;
      while i < |fs|
        invariant 0 <= i <= |fs|
        invariant Valid() && old(functions) <= functions
        invariant forall j :: 0 <= j < i ==> FindDecl(functions, fs[j].name).Some?
        invariant blocks == BlocksAfter(old(blocks), functions, fs[..i])
      {
        ghost var before := functions;
        var lowered := EmitFunction(fs[i]);
        if lowered.Err? {
          return Err(lowered.error);
        }
        BlocksAfterStep(old(blocks), before, functions, fs, i, lowered.value);
        i := i + 1;
      }
      assert fs[..i] == fs;
      r := Ok(());
    }
  }
}

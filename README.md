# Foundry core, modelled in Dafny

Foundry is a compiler for a Ruby dialect aimed at bare-metal targets. This project models five pieces of it and proves properties about them.

- **The tree-walking interpreter** (`Foundry::Interpreter::Base`). It evaluates the syntax tree during compilation, keeping:
  - a chain of lexical scopes (bindings);
  - a stack of enclosing scope nodes, used for backtraces;
  - the node being processed;
  - the VM's modules and their constants.
- **The LLVM code generator** (`Foundry::LIR::Transform::Codegen`). It lowers LIR functions to LLVM. Its caches are:
  - `@types` (LIR type to LLVM type);
  - `@data` (VM object to LLVM constant);
  - `@values` (LIR value to LLVM value).

  Phis are emitted empty and receive their incoming pairs in a fix-up pass after the whole function is lowered. `nil`, `true` and `false` are pinned at addresses 0, 1 and 2, so a branch tests truthiness by masking bit 1 of the address.
- **The bare-metal register description DSL** (`Registers::RegisterDefinition`). It allocates flags and fields at a running bit offset and installs reader, writer and clear accessors on the register class.
- **`BasicObject`**: identity equality and the `!` / `!=` negations that define truthiness for the whole language.
- **The `ExpandPrimitives` preparation pass**: it rewrites `Foundry.primitive :op, args...` into a node of type `op`.

## How the model is organised

| file | module | what it holds |
|---|---|---|
| `wrappers.dfy` | `Wrappers` | `Option`, `Result` and the exception kinds |
| `objects.dfy` | `Objects` | the runtime values and the truthiness policy (`nil` and `false` are falsy) |
| `basic_object.dfy` | `BasicObject` | `equal?`, `==`, `!`, `!=`, `__id__` |
| `expand_primitives.dfy` | `ExpandPrimitives` | the `on_call` rewrite |
| `register_bits.dfy` | `RegisterBits` | bitwise `&`, `\|`, `& ~`, `<<` and `>>` on unbounded naturals (Ruby `Integer`), bit by bit |
| `register_definition.dfy` | `Registers` | the allocator class, the accessor formulas, the register class they act on |
| `interpreter_nodes.dfy` | `InterpreterNodes` | the syntax-tree nodes the interpreter handles |
| `interpreter_state.dfy` | `InterpreterState` | bindings and scopes, modules and constants |
| `interpreter_primitives.dfy` | `InterpreterPrimitives` | Ruby's inclusive slicing, splat splicing, the arity check |
| `interpreter_eval.dfy` | `InterpreterEval` | one function per handler: the state before, the result and state after |
| `interpreter.dfy` | `Interpreter` | the interpreter object; each handler is a method proved equal to its function |
| `interpreter_properties.dfy` | `InterpreterProperties` | lemmas about the handlers |
| `backtrace.dfy` | `Backtrace` | `collect_backtrace_part` / `collect_backtrace` |
| `codegen_names.dfy` | `CodegenNames` | `Codegen#name` |
| `codegen_types.dfy` | `CodegenTypes` | LIR types, LLVM layouts, `emit_type`, local-variable slots |
| `codegen_ir.dfy` | `CodegenIr` | LIR functions, LLVM values and instructions, branch truthiness, `indices` |
| `codegen.dfy` | `Codegen` | the code generator object: caches, declarations, the instruction log, every `emit_code` arm, phi fix-ups |

The interpreter is a class whose fields are the interpreter's instance variables. Every handler method is proved to yield exactly what the matching function of `InterpreterEval` yields. Each of those functions guarantees `Keeps`:
- the state stays well formed and only grows;
- the binding, the current node, `self`, the arguments and the block are restored;
- the scope stack is restored on success, and is a prefix of the old one after an error.

The code generator is a class as well. The LLVM module is represented by its list of function declarations, its basic blocks and the log of every instruction built; a register `Reg(i)` is the result of instruction `i`.

## Model

| member | source | states |
|---|---|---|
| BasicObject.Identical | vm/base/basic_object.rb:6-8 | `equal?` yields a boolean object, `true` exactly when both sides are the same object |
| BasicObject.Equals | vm/base/basic_object.rb:10 | `==` is the same method as `equal?`, truthy exactly for identical objects |
| BasicObject.Not | vm/base/basic_object.rb:20-22 | `!` yields `true` exactly for `false` and `nil`, `false` for everything else |
| BasicObject.NotEquals | vm/base/basic_object.rb:24-26 | `!=` yields `true` exactly when the two objects are not identical |
| BasicObject.Id | vm/base/basic_object.rb:12-14 | `__id__` always raises `NotImplementedError` |
| BasicObject.NotIsFalsiness | vm/base/basic_object.rb:20-22 | `!v` is truthy exactly when `v` is not: `!` agrees with the truthiness `if` and branches use |
| BasicObject.NotEqualsNegatesEquals | vm/base/basic_object.rb:24-26 | `a != b` is `!(a == b)` for all objects |
| BasicObject.DoubleNegation | vm/base/basic_object.rb:20-22 | `!!v` is the canonical boolean of `v`'s truthiness |
| ExpandPrimitives.Child | lib/foundry/ast/prepare/expand_primitives.rb:5 | destructuring a child list yields the child at that position, or `nil` past the end |
| ExpandPrimitives.OnCall | lib/foundry/ast/prepare/expand_primitives.rb:4-14 | a call is rewritten exactly when its name is `primitive` and its receiver is the constant `Foundry`. The new node's type is the first argument's symbol, or stays `call` when there is no first argument, and its children are the remaining arguments. Any other call yields `nil`. A receiver or argument list that is not a node raises |
| ExpandPrimitives.PrimitiveCall | lib/foundry/ast/prepare/expand_primitives.rb:6-10 | the surface form `Foundry.primitive :op, args` is a `call` node |
| ExpandPrimitives.ExpandsWrittenPrimitive | lib/foundry/ast/prepare/expand_primitives.rb:4-14 | for every `op` and arguments, expanding `Foundry.primitive :op, args...` gives exactly the node `(op args...)` |
| Registers.CheckType | vm/baremetal/registers/register_definition.rb:61-65 | accepts exactly the types in the list, raising `ArgumentError` otherwise |
| Registers.FlagMethods | vm/baremetal/registers/register_definition.rb:19-33 | a flag installs a reader exactly for readable types and a writer exactly for `w`/`rw`. `clear_` is installed exactly for `r_c0`/`r_c1`, and nothing else is installed. Each key holds its own accessor: the reader under the name, the writer under `name=`, and under `clear_name` the clear-by-one or clear-by-zero accessor matching the type, each with the mask `1 << offset` |
| Registers.FieldMethods | vm/baremetal/registers/register_definition.rb:45-54 | a field installs a reader exactly for readable types and a writer exactly for writable ones. The reader sits under the name and the writer under `name=`, both with the mask `2**width - 1` and the offset captured at declaration |
| Registers.RegisterDefinition.constructor | vm/baremetal/registers/register_definition.rb:3-6 | a new definition starts at offset 0 with no accessors |
| Registers.RegisterDefinition.Reserved | vm/baremetal/registers/register_definition.rb:8-10 | `reserved(size)` advances the offset by `size` and returns the new offset. No accessor changes, and declared ranges stay disjoint and below the offset |
| Registers.RegisterDefinition.Flag | vm/baremetal/registers/register_definition.rb:12-36 | succeeds exactly for the five flag types and otherwise raises `ArgumentError`, leaving the definition unchanged. On success the accessors for that type are added at the old offset and the offset advances by exactly one. Ranges stay disjoint |
| Registers.RegisterDefinition.Field | vm/baremetal/registers/register_definition.rb:38-57 | succeeds exactly for `r`/`w`/`rw` and otherwise raises `ArgumentError`, leaving the definition unchanged. On success the accessors are added and the offset advances by `width`. Ranges stay disjoint |
| Registers.ReadFlag | vm/baremetal/registers/register_definition.rb:19-21 | the corrected flag reader always yields a boolean, `true` or `false` |
| Registers.Register.GetFlag | vm/baremetal/registers/register_definition.rb:19-21 | the generated flag reader yields the source's formula, the truthiness of `value & mask` (see Findings) |
| Registers.Register.SetFlag | vm/baremetal/registers/register_definition.rb:23-25 | the generated flag writer updates `value` in place |
| Registers.Register.ClearFlagWritingOne | vm/baremetal/registers/register_definition.rb:27-29 | `clear_` of an `r_c1` flag stores the mask into `value` |
| Registers.Register.ClearFlagWritingZero | vm/baremetal/registers/register_definition.rb:31-33 | `clear_` of an `r_c0` flag clears the masked bits of `value` in place |
| Registers.Register.GetField | vm/baremetal/registers/register_definition.rb:48-50 | the generated field reader yields `(value & mask) >> offset` with the source's unshifted mask (see Findings) |
| Registers.Register.SetField | vm/baremetal/registers/register_definition.rb:52-54 | the generated field writer updates `value` in place, as written |
| Registers.WriteFlagTouchesOnlyItsBit | vm/baremetal/registers/register_definition.rb:23-25 | after the flag writer, the flag's bit follows the truthiness of the new value and every other bit is unchanged |
| Registers.ClearZeroTouchesOnlyItsBit | vm/baremetal/registers/register_definition.rb:31-33 | `r_c0` clear clears exactly the flag's bit and keeps every other bit |
| Registers.ClearOneWritesOnlyItsBit | vm/baremetal/registers/register_definition.rb:27-29 | `r_c1` clear leaves exactly the flag's bit set and every other bit clear |
| Registers.MaskedFlag | vm/baremetal/registers/register_definition.rb:17-20 | `value & (1 << offset)` is non-zero exactly when bit `offset` of `value` is set |
| Registers.ReadFlagReadsItsBit | vm/baremetal/registers/register_definition.rb:19-21 | the corrected reader yields `true` exactly when the flag's bit is set |
| Registers.FlagWriteThenRead | vm/baremetal/registers/register_definition.rb:19-25 | reading a flag (corrected reader) after writing it gives back the truthiness of what was written |
| Registers.ReadFlagAsWrittenIsAlwaysTrue | vm/baremetal/registers/register_definition.rb:20 | the reader as written yields `true` for every register value, because the masked Integer is truthy even when 0 |
| Registers.ReadFlagAsWrittenCounterexample | vm/baremetal/registers/register_definition.rb:20 | with bit 0 clear, the reader as written yields `true` while the corrected one yields `false` |
| Registers.BitOfWriteField | vm/baremetal/registers/register_definition.rb:53 | inside the mask, the field writer places bit `i - offset` of the new value; outside the mask it keeps the old bit |
| Registers.BitOfReadField | vm/baremetal/registers/register_definition.rb:49 | bit `i` of the field reader is set exactly when both the mask and `value` have bit `i + offset` set |
| Registers.FieldRoundTripAtOffsetZero | vm/baremetal/registers/register_definition.rb:45-54 | at offset 0, reading back a written value that fits in `width` bits gives that value |
| Registers.FieldReadAsWrittenAboveWidth | vm/baremetal/registers/register_definition.rb:45-50 | with the unshifted mask, a field whose offset is at least its width always reads 0 |
| Registers.FieldAtOffsetFourCounterexample | vm/baremetal/registers/register_definition.rb:45-54 | a 4-bit field at offset 4, written with 1, reads back 0 |
| Registers.ShiftedFieldRoundTrip | vm/baremetal/registers/register_definition.rb:45-54 | with the mask shifted to the field's offset, reading back a written value that fits in `width` bits gives that value, at every offset |
| Registers.ShiftedFieldKeepsOtherBits | vm/baremetal/registers/register_definition.rb:53 | with the shifted mask, the writer keeps every bit outside the field |
| InterpreterState.FindScope | lib/foundry/interpreter/base.rb:116-120 | the scope found lies on the chain from the starting scope and defines the name, and no scope nearer on the chain defines it. When nothing is found, no scope on the chain defines the name |
| InterpreterState.NewScope | lib/foundry/interpreter/base.rb:97-101 | a new empty scope whose parent is the current binding becomes the binding; nothing else changes |
| InterpreterState.Define | lib/foundry/interpreter/base.rb:103-105 | defining succeeds exactly when there is a binding. The innermost scope then binds the name to the value and keeps its parent, and every other scope is unchanged |
| InterpreterState.IsDefined | lib/foundry/interpreter/base.rb:131 | answers exactly when there is a binding, and answers true exactly when some scope on the chain defines the name |
| InterpreterState.Lookup | lib/foundry/interpreter/base.rb:116-120 | a variable reference succeeds exactly when some scope on the chain defines the name, and yields the value held by the nearest such scope |
| InterpreterState.Mutate | lib/foundry/interpreter/base.rb:122-126 | an assignment succeeds exactly when some scope on the chain defines the name. It rebinds the name in the nearest such scope only, every other scope is unchanged and none is added, and afterwards the name looks up to the assigned value |
| InterpreterState.FindScopeAfterUpdate | lib/foundry/interpreter/base.rb:125 | updating the scope that holds a variable does not change where the variable is found |
| InterpreterState.ModuleOf | lib/foundry/interpreter/base.rb:298 | a value is treated as a module exactly when it refers to an existing VM module |
| InterpreterState.ConstSet | lib/foundry/interpreter/base.rb:301 | setting a constant binds the name to the value in that module's constant table. The module's kind and ancestors, every other module and the rest of the state are unchanged |
| InterpreterState.NewModule | lib/foundry/interpreter/base.rb:322 | exactly one module is appended after the existing ones, which are unchanged. It is not a class, has no constants, and its only ancestor is itself |
| InterpreterState.NewClass | lib/foundry/interpreter/base.rb:348 | exactly one class is appended after the existing ones, which are unchanged. It has no constants, and its ancestors are itself followed by the superclass's ancestors |
| InterpreterPrimitives.InclusiveSlice | lib/foundry/interpreter/base.rb:191 | `a[from..to]` is defined exactly when the start, counted from the end if negative, lies within `0..size` |
| InterpreterPrimitives.SliceInRange | lib/foundry/interpreter/base.rb:191 | within bounds, the slice is the elements `from` to `to`, both included, `to - from + 1` of them |
| InterpreterPrimitives.SliceNegativeBounds | lib/foundry/interpreter/base.rb:191 | a negative bound selects the same elements as its offset from the end |
| InterpreterPrimitives.SliceEmpty | lib/foundry/interpreter/base.rb:191 | a range ending before its start, or starting just past the end, is empty, not `nil` |
| InterpreterPrimitives.SpliceAppend | lib/foundry/interpreter/base.rb:157-164 | the tuple built from two runs of elements is the first run's contents followed by the second's |
| InterpreterPrimitives.SpliceLength | lib/foundry/interpreter/base.rb:157-164 | the tuple is as long as the elements contribute: one each, or the spliced tuple's size |
| InterpreterPrimitives.SpliceWithoutSplats | lib/foundry/interpreter/base.rb:157-164 | without splats, the tuple holds exactly the element values, in order |
| InterpreterPrimitives.CheckArity | lib/foundry/interpreter/base.rb:454-468 | raises exactly when the count is below `from`, or above `to` when `to` is given. Otherwise yields `nil`. The error carries the source's message |
| InterpreterPrimitives.ExactArityMessage | lib/foundry/interpreter/base.rb:462-463 | an exact arity is reported as `(n for m)` |
| InterpreterPrimitives.OpenArityMessage | lib/foundry/interpreter/base.rb:459-461 | an open arity is reported as `(n for m...)` |
| InterpreterPrimitives.BiggerThan | lib/foundry/interpreter/base.rb:198 | `true` exactly when the tuple is longer than `length`, `false` exactly otherwise |
| InterpreterEval.Eval | lib/foundry/interpreter/base.rb:21-28 | every evaluation keeps the interpreter's invariants (`Keeps`). The previous current node is restored afterwards, also after an error |
| InterpreterEval.Handle | lib/foundry/interpreter/base.rb:72-86 | dispatch by node type keeps the invariants |
| InterpreterEval.HandleVariable | lib/foundry/interpreter/base.rb:92-148 | the variable and scope handlers keep the invariants |
| InterpreterEval.HandleTuple | lib/foundry/interpreter/base.rb:154-205 | the tuple handlers keep the invariants |
| InterpreterEval.HandleConstant | lib/foundry/interpreter/base.rb:252-353 | the constant, module and class handlers keep the invariants |
| InterpreterEval.HandleControl | lib/foundry/interpreter/base.rb:454-529 | the control-flow handlers keep the invariants |
| InterpreterEval.OnLet | lib/foundry/interpreter/base.rb:92-114 | although `let` pushes a scope, it leaves the binding as it was, and the scope stack as it was on success (a prefix of it after an error) |
| InterpreterEval.DefineVars | lib/foundry/interpreter/base.rb:103-105 | the initialisers keep the invariants |
| InterpreterEval.EvalBody | lib/foundry/interpreter/base.rb:109 | a body keeps the invariants |
| InterpreterEval.OnBlock | lib/foundry/interpreter/base.rb:142-148 | although `block` pushes onto the scope stack, it leaves the stack as it was on success and a prefix of it after an error |
| InterpreterEval.OnMut | lib/foundry/interpreter/base.rb:122-126 | `mut!` keeps the invariants |
| InterpreterEval.OnEvalMut | lib/foundry/interpreter/base.rb:128-136 | `eval_mut!` keeps the invariants |
| InterpreterEval.EvalElems | lib/foundry/interpreter/base.rb:154-167 | `array` keeps the invariants |
| InterpreterEval.OnArraySlice | lib/foundry/interpreter/base.rb:187-192 | `array_slice` keeps the invariants |
| InterpreterEval.OnArrayBiggerThan | lib/foundry/interpreter/base.rb:194-199 | `array_bigger_than` keeps the invariants |
| InterpreterEval.OnArrayUnshift | lib/foundry/interpreter/base.rb:201-205 | `array_unshift` keeps the invariants |
| InterpreterEval.OnConstRefIn | lib/foundry/interpreter/base.rb:252-270 | `const_ref_in` keeps the invariants |
| InterpreterEval.EvalScope | lib/foundry/interpreter/base.rb:293-294 | an absent scope node means `Object`, and the state is untouched |
| InterpreterEval.OnConstDeclare | lib/foundry/interpreter/base.rb:290-303 | `const_declare` keeps the invariants |
| InterpreterEval.OnDefineModule | lib/foundry/interpreter/base.rb:309-327 | `define_module` keeps the invariants |
| InterpreterEval.EvalSuperclass | lib/foundry/interpreter/base.rb:332-336 | an absent superclass node means `Object`, and the state is untouched |
| InterpreterEval.OnDefineClass | lib/foundry/interpreter/base.rb:329-353 | `define_class` keeps the invariants |
| InterpreterEval.OnIf | lib/foundry/interpreter/base.rb:492-504 | `if` keeps the invariants |
| InterpreterEval.ProcessLoop | lib/foundry/interpreter/base.rb:506-521 | `while`/`until` keep the invariants |
| InterpreterEval.OnCheckArity | lib/foundry/interpreter/base.rb:454-468 | `check_arity` keeps the invariants |
| Interpreter.Interpreter.constructor | lib/foundry/interpreter/base.rb:5-15 | a new interpreter takes `self`, the arguments, the block and the executable's binding, with no current node and an empty scope stack |
| Interpreter.Interpreter.Process | lib/foundry/interpreter/base.rb:21-28 | `process` leaves the interpreter in the state, with the result, that `Eval` specifies |
| Interpreter.Interpreter.Dispatch | lib/foundry/interpreter/base.rb:72-86 | dispatch agrees with `Handle` |
| Interpreter.Interpreter.DispatchVariable | lib/foundry/interpreter/base.rb:92-148 | agrees with `HandleVariable` |
| Interpreter.Interpreter.DispatchTuple | lib/foundry/interpreter/base.rb:154-205 | agrees with `HandleTuple` |
| Interpreter.Interpreter.DispatchConstant | lib/foundry/interpreter/base.rb:252-353 | agrees with `HandleConstant` |
| Interpreter.Interpreter.DispatchControl | lib/foundry/interpreter/base.rb:454-529 | agrees with `HandleControl` |
| Interpreter.Interpreter.OnLet | lib/foundry/interpreter/base.rb:92-114 | `on_let` agrees with `InterpreterEval.OnLet`, including the cleanup after an error |
| Interpreter.Interpreter.EnterScope | lib/foundry/interpreter/base.rb:97-101 | the binding becomes a new scope chained on the old one |
| Interpreter.Interpreter.DefineAll | lib/foundry/interpreter/base.rb:103-105 | the initialiser loop agrees with `DefineVars` |
| Interpreter.Interpreter.ProcessBody | lib/foundry/interpreter/base.rb:109 | `process_all(body).last \|\| NIL` agrees with `EvalBody` |
| Interpreter.Interpreter.OnBlock | lib/foundry/interpreter/base.rb:142-148 | `on_block` agrees with `InterpreterEval.OnBlock` |
| Interpreter.Interpreter.OnMut | lib/foundry/interpreter/base.rb:122-126 | `on_mut!` agrees with `InterpreterEval.OnMut` |
| Interpreter.Interpreter.OnEvalMut | lib/foundry/interpreter/base.rb:128-136 | `on_eval_mut!` agrees with `InterpreterEval.OnEvalMut` |
| Interpreter.Interpreter.OnArray | lib/foundry/interpreter/base.rb:154-167 | the element loop agrees with `EvalElems` |
| Interpreter.Interpreter.OnArraySlice | lib/foundry/interpreter/base.rb:187-192 | agrees with `InterpreterEval.OnArraySlice` |
| Interpreter.Interpreter.OnArrayBiggerThan | lib/foundry/interpreter/base.rb:194-199 | agrees with `InterpreterEval.OnArrayBiggerThan` |
| Interpreter.Interpreter.OnArrayUnshift | lib/foundry/interpreter/base.rb:201-205 | agrees with `InterpreterEval.OnArrayUnshift` |
| Interpreter.Interpreter.OnConstRefIn | lib/foundry/interpreter/base.rb:252-270 | agrees with `InterpreterEval.OnConstRefIn` |
| Interpreter.Interpreter.ProcessScope | lib/foundry/interpreter/base.rb:293-294 | agrees with `EvalScope` |
| Interpreter.Interpreter.OnConstDeclare | lib/foundry/interpreter/base.rb:290-303 | agrees with `InterpreterEval.OnConstDeclare` |
| Interpreter.Interpreter.OnDefineModule | lib/foundry/interpreter/base.rb:309-327 | agrees with `InterpreterEval.OnDefineModule` |
| Interpreter.Interpreter.ProcessSuperclass | lib/foundry/interpreter/base.rb:332-336 | agrees with `EvalSuperclass` |
| Interpreter.Interpreter.OnDefineClass | lib/foundry/interpreter/base.rb:329-353 | agrees with `InterpreterEval.OnDefineClass` |
| Interpreter.Interpreter.OnIf | lib/foundry/interpreter/base.rb:492-504 | agrees with `InterpreterEval.OnIf` |
| Interpreter.Interpreter.ProcessLoop | lib/foundry/interpreter/base.rb:506-529 | the `while true` loop agrees with `InterpreterEval.ProcessLoop` |
| Interpreter.Interpreter.LoopRound | lib/foundry/interpreter/base.rb:509-520 | one round either ends the loop with its result, or leaves a state from which the loop with one less unit of fuel gives the same outcome |
| Interpreter.Interpreter.OnCheckArity | lib/foundry/interpreter/base.rb:454-468 | agrees with `InterpreterEval.OnCheckArity` |
| Interpreter.Interpreter.CollectBacktracePart | lib/foundry/interpreter/base.rb:38-54 | yields this interpreter's backtrace part, as `Backtrace.PartOf` |
| Interpreter.Interpreter.CollectBacktrace | lib/foundry/interpreter/base.rb:56-62 | yields this interpreter's part followed by those of the outer interpreters, as `Backtrace.CollectBacktrace` |
| InterpreterProperties.IfFollowsTruthiness | lib/foundry/interpreter/base.rb:492-504 | `if` propagates a failing condition. Otherwise it runs the false branch exactly when the condition is `nil` or `false`, and the true branch in every other case |
| InterpreterProperties.LoopYieldsNil | lib/foundry/interpreter/base.rb:506-521 | a loop that finishes without error yields `nil` |
| InterpreterProperties.LeafLeavesState | lib/foundry/interpreter/base.rb:72-86 | literals and context nodes yield their value and change nothing |
| InterpreterProperties.LoopOnFixedCondition | lib/foundry/interpreter/base.rb:523-529 | `while nil`/`while false` and `until` with a truthy literal yield `nil` without running the body or changing the state |
| InterpreterProperties.NewScopeSeesOuter | lib/foundry/interpreter/base.rb:97-98 | a chained scope sees every variable of the enclosing chain |
| InterpreterProperties.FindScopeExtend | lib/foundry/interpreter/base.rb:97-101 | adding scopes does not change what an existing chain finds |
| InterpreterProperties.DefinesBeforeNext | lib/foundry/interpreter/base.rb:103-105 | each initialiser's value is defined under its name before the next initialiser runs, and reads back as that value |
| InterpreterProperties.EmptyLetYieldsNil | lib/foundry/interpreter/base.rb:109 | a `let` with an empty body yields `nil` |
| InterpreterProperties.EvalMutAssigns | lib/foundry/interpreter/base.rb:128-136 | after `eval_mut!` the variable holds the assigned value, which is also the result |
| InterpreterProperties.EvalMutDefinesFirst | lib/foundry/interpreter/base.rb:131-133 | `eval_mut!` of an undefined variable: the variable is defined before the value is evaluated. On success the variable is defined and holds the result |
| InterpreterProperties.ArrayKeepsPrefix | lib/foundry/interpreter/base.rb:155-166 | the elements gathered so far stay, in order, at the front of the result |
| InterpreterProperties.PlainValues | lib/foundry/interpreter/base.rb:157-166 | a reference for `array` without splats: one value per remaining element node, or nothing once one raises |
| InterpreterProperties.ArrayWithoutSplats | lib/foundry/interpreter/base.rb:157-166 | without splats, `array` succeeds exactly when every element node evaluates, each in the state the previous one left. The tuple is the elements gathered so far followed by those values, in order |
| InterpreterProperties.SliceNodeIsInclusive | lib/foundry/interpreter/base.rb:187-192 | `array_slice` within bounds yields elements `from` through `to`, both included |
| InterpreterProperties.UnshiftNodePrepends | lib/foundry/interpreter/base.rb:201-205 | on success the tuple operand was a tuple; the result's first element is the value and the rest is the old tuple. A value that is not a tuple raises |
| InterpreterProperties.BiggerThanNodeCompares | lib/foundry/interpreter/base.rb:194-199 | `array_bigger_than` yields `true` exactly when the tuple is longer than `length` |
| InterpreterProperties.CheckArityNodeRaises | lib/foundry/interpreter/base.rb:454-468 | `check_arity` raises exactly when the argument count is outside `from..to`, and yields `nil` otherwise |
| InterpreterProperties.FindConstInOverModules | lib/foundry/interpreter/base.rb:242-250 | over modules, `find_const_in` never raises, and yields `UNDEF` when no scope defines the name |
| InterpreterProperties.FindConstInFirst | lib/foundry/interpreter/base.rb:242-250 | `find_const_in` yields the constant of the first scope that defines the name itself |
| InterpreterProperties.ConstGetNeverRaises | lib/foundry/interpreter/base.rb:315 | `const_get` on a VM module never raises |
| InterpreterProperties.ConstGetOwnFirst | lib/foundry/interpreter/base.rb:315 | `const_get` finds a module's own constant before an inherited one |
| InterpreterProperties.ConstSetKeepsAncestors | lib/foundry/interpreter/base.rb:301 | setting a constant keeps every ancestor chain valid |
| InterpreterProperties.NewModuleKeepsAncestors | lib/foundry/interpreter/base.rb:322 | a new module keeps every ancestor chain valid |
| InterpreterProperties.NewClassKeepsAncestors | lib/foundry/interpreter/base.rb:348 | a new class keeps every ancestor chain valid; its ancestors are itself followed by its superclass's |
| InterpreterProperties.EmptyCrefMeansObject | lib/foundry/interpreter/base.rb:256-262 | an empty cref looks the name up in `Object` alone: it yields `Object`'s constant, or raises "uninitialized constant" when there is none |
| InterpreterProperties.UndefinedConstantRaises | lib/foundry/interpreter/base.rb:260-269 | when neither the cref's scopes nor the first scope's ancestors define the name, `const_ref_in` raises "uninitialized constant" |
| InterpreterProperties.RedeclarationRaises | lib/foundry/interpreter/base.rb:298-299 | declaring the same constant twice in `Object` raises the second time |
| InterpreterProperties.DeclarationSetsConstant | lib/foundry/interpreter/base.rb:290-303 | a successful declaration leaves the constant set to the declared value in the scope module itself |
| InterpreterProperties.DefineModuleReopens | lib/foundry/interpreter/base.rb:309-327 | defining a top-level module a second time reopens the same module and changes nothing |
| InterpreterProperties.DefineClassReopens | lib/foundry/interpreter/base.rb:329-353 | defining a top-level class a second time reopens the same class and changes nothing |
| Backtrace.LastNamed | lib/foundry/interpreter/base.rb:47-51 | finds the last stack entry with a function name: no later entry has one, and there is none at all when it finds nothing |
| Backtrace.LastFunction | lib/foundry/interpreter/base.rb:39-51 | the carried function name is absent exactly when no entry has one, and is otherwise the name of the last entry that has one |
| Backtrace.BacktracePart | lib/foundry/interpreter/base.rb:47-53 | a part has one item per stack entry |
| Backtrace.ItemsOf | lib/foundry/interpreter/base.rb:47-53 | the loop carrying `last_function` up the stack, then `reverse`, yields `BacktracePart` |
| Backtrace.PartEntries | lib/foundry/interpreter/base.rb:41-45 | the entries are the scope stack, followed by the current node when asked for. Asking without a current node fails |
| Backtrace.PartOf | lib/foundry/interpreter/base.rb:38-54 | a part has one item per scope-stack entry, plus one for the current node when asked for |
| Backtrace.CollectBacktrace | lib/foundry/interpreter/base.rb:56-62 | a backtrace has one part per interpreter, and fails only when this interpreter has no current node to include |
| Backtrace.LastFunctionStep | lib/foundry/interpreter/base.rb:48-50 | each step of the loop replaces the carried name exactly when the entry has one |
| Backtrace.CarriedFunction | lib/foundry/interpreter/base.rb:47-52 | an entry with a name keeps its own, and any carried name comes from an entry at or below it |
| Backtrace.PartAttribution | lib/foundry/interpreter/base.rb:47-53 | item `k` has the file and line of the `k`-th entry from the top, and the name from an entry at or below it |
| Backtrace.CurrentComesFirst | lib/foundry/interpreter/base.rb:41-53 | with the current node included, the first item is the current node |
| Backtrace.OuterPartsOmitCurrent | lib/foundry/interpreter/base.rb:58 | the outer interpreters' parts never include their current node |
| CodegenNames.ReplaceColons | lib/foundry/lir/transform/codegen.rb:403 | `gsub(/::/, '.')` never lengthens a name |
| Decimal.NatToString | lib/foundry/lir/transform/codegen.rb:400-407 | `to_s` of a non-negative integer: decimal digits without a leading zero, whose value is the integer |
| Decimal.NatToStringInjective | lib/foundry/lir/transform/codegen.rb:400-407 | different integers print differently |
| CodegenNames.NoDoubleColonLeft | lib/foundry/lir/transform/codegen.rb:403 | no `::` survives the replacement |
| CodegenNames.FirstCharKept | lib/foundry/lir/transform/codegen.rb:403 | a name not starting with `:` keeps its first character |
| CodegenNames.CleanNameKept | lib/foundry/lir/transform/codegen.rb:403 | a name without `::` is kept unchanged |
| CodegenNames.OwnNameWins | lib/foundry/lir/transform/codegen.rb:394-398 | once the entity has a name of its own, neither the suggested name nor the object id changes the symbol |
| CodegenNames.UnprefixedNameHasNoDoubleColon | lib/foundry/lir/transform/codegen.rb:393-407 | without a prefix no symbol contains `::`, whichever name it comes from |
| CodegenNames.PrefixedName | lib/foundry/lir/transform/codegen.rb:406-410 | with a prefix the symbol is the prefix, a `.`, and the symbol the entity would have without one |
| CodegenNames.AnonymousNameSpellsId | lib/foundry/lir/transform/codegen.rb:400-407 | an entity with neither name is named by the decimal digits of its object id, so different ids give different symbols |
| CodegenNames.NestedName | lib/foundry/lir/transform/codegen.rb:393-411 | `A::B` with prefix `s` is named `s.A.B`, and an anonymous entity is named by its id |
| CodegenTypes.LowerSeqEach | lib/foundry/lir/transform/codegen.rb:92-93 | a list of types lowers exactly when each does, to their lowerings in order |
| CodegenTypes.LowerVarsEach | lib/foundry/lir/transform/codegen.rb:99-100 | a scope's variables lower exactly when each type does, in order |
| CodegenTypes.LowerIffSupported | lib/foundry/lir/transform/codegen.rb:86-138 | `emit_type` succeeds exactly when every type inside has a lowering arm, and otherwise raises "unable to lower type" |
| CodegenTypes.LowerSeqError | lib/foundry/lir/transform/codegen.rb:93 | a failing list of types fails with "unable to lower type" |
| CodegenTypes.LowerVarsError | lib/foundry/lir/transform/codegen.rb:100 | a failing scope fails with "unable to lower type" |
| CodegenTypes.LowerSeqFirstError | lib/foundry/lir/transform/codegen.rb:93 | the first element type that fails decides the error |
| CodegenTypes.LowerVarsFirstError | lib/foundry/lir/transform/codegen.rb:100 | the first variable type that fails decides the error |
| CodegenTypes.TupleLowering | lib/foundry/lir/transform/codegen.rb:91-96 | a tuple lowers to the struct of its element lowerings, in order |
| CodegenTypes.BindingLowering | lib/foundry/lir/transform/codegen.rb:98-106 | a scope lowers to the struct of its variables' lowerings, placed after the enclosing scope's layout (held by value) when there is one |
| CodegenTypes.IndexOf | lib/foundry/lir/transform/codegen.rb:271-274 | `index_of` finds the first variable with the name, and nothing when none has it |
| CodegenTypes.HopFollowsFieldZero | lib/foundry/lir/transform/codegen.rb:264-267 | a hop through field 0 lands on the enclosing scope's layout |
| CodegenTypes.LvarSlotHoldsVariable | lib/foundry/lir/transform/codegen.rb:264-275 | the addressed field is the variable's index, plus one when the scope has an enclosing one, and holds exactly the variable's layout |
| CodegenIr.PhisIn | lib/foundry/lir/transform/codegen.rb:360-361 | the instructions queued for fix-up are phis, no more than the block holds |
| CodegenIr.Indices | lib/foundry/lir/transform/codegen.rb:413-415 | `indices` maps each integer, in order, to the `i32` constant of it |
| CodegenIr.BranchFalseExactlyForNilAndFalse | lib/foundry/lir/transform/codegen.rb:349-358 | a conditional branch goes to its false target exactly for addresses 0 (`nil`) and 2 (`false`) |
| CodegenIr.BranchAgreesWithInterpreter | lib/foundry/lir/transform/codegen.rb:349-358 | for `nil`, `true` and `false`, the compiled branch takes the true target exactly when the interpreter calls the value truthy |
| CodegenIr.ComparePred | lib/foundry/lir/transform/codegen.rb:318-326 | exactly the six comparison operators have a comparison predicate |
| CodegenIr.ArithOpOf | lib/foundry/lir/transform/codegen.rb:312-316 | exactly `+ - * /` lower to arithmetic, and these are not comparisons |
| CodegenIr.FieldsOfExtend | lib/foundry/lir/transform/codegen.rb:287-292 | building more instructions does not change what an aggregate built earlier holds |
| Codegen.FindDecl | lib/foundry/lir/transform/codegen.rb:200 | `@llvm.functions[name]` finds a declaration with that name, and finds nothing exactly when none has it |
| Codegen.PinnedLowering | lib/foundry/lir/transform/codegen.rb:57-59 | each immediate's class lowers to a pointer to the struct `i.<class name>` |
| Codegen.PinnedData | lib/foundry/lir/transform/codegen.rb:39-51 | `nil`, `true` and `false` are pinned at addresses 0, 1 and 2 |
| Codegen.PinnedTypesSound | lib/foundry/lir/transform/codegen.rb:54-63 | the types `bootstrap_types` records agree with what `emit_type` would compute |
| Codegen.ArgTys | lib/foundry/lir/transform/codegen.rb:201 | the argument types of a function, in order |
| Codegen.FindDeclGrows | lib/foundry/lir/transform/codegen.rb:199-208 | a declared name stays declared as declarations accumulate |
| Codegen.FindDeclUnique | lib/foundry/lir/transform/codegen.rb:200 | under unique names, looking up a declaration's name finds that declaration |
| Codegen.DeclareTraceAsWritten | lib/foundry/lir/transform/codegen.rb:375-376 | each trace, as written, appends one `void (i64)` declaration and keeps the earlier ones and unique names. It is named `foundry.trace` exactly when that name is not yet declared; otherwise the module gives it a fresh name |
| Codegen.FreshName | lib/foundry/lir/transform/codegen.rb:375-376 | the name given to a clashing declaration differs from the requested name and from every declared name |
| Codegen.TraceTwiceCallsRenamed | lib/foundry/lir/transform/codegen.rb:375-383 | as written, the second trace declares and calls a renamed hook, never `foundry.trace` itself, which still names the first declaration |
| Codegen.DeclareTrace | lib/foundry/lir/transform/codegen.rb:375-376 | the corrected declaration reuses an existing `foundry.trace`, or adds exactly one. It keeps earlier declarations and unique names |
| Codegen.DeclareTraceIdempotent | lib/foundry/lir/transform/codegen.rb:375-376 | declaring the hook again changes nothing |
| Codegen.Lookup | lib/foundry/lir/transform/codegen.rb:189-197 | `@values[v]` fails, with "unable to lower value", exactly for a value that is neither recorded nor a constant. An unrecorded constant lowers through `@data` |
| Codegen.LookupKeeps | lib/foundry/lir/transform/codegen.rb:7-9 | a lookup's memoisation leaves the answer of every later lookup unchanged |
| Codegen.LookupsKept | lib/foundry/lir/transform/codegen.rb:7-9 | a lookup only extends the caches, and every value keeps its lookup |
| Codegen.LookupAll | lib/foundry/lir/transform/codegen.rb:342 | looking up a list yields one value per element |
| Codegen.LookupAllEach | lib/foundry/lir/transform/codegen.rb:342 | a list of lookups succeeds exactly when each does, and yields them in order |
| Codegen.LookupAllFirstError | lib/foundry/lir/transform/codegen.rb:342 | the first failing lookup decides the error of the list |
| Codegen.InsertChain | lib/foundry/lir/transform/codegen.rb:287-292 | the reduction builds one `insertvalue` per operand |
| Codegen.InsertChainFields | lib/foundry/lir/transform/codegen.rb:287-292 | the aggregate the chain ends with holds exactly the operands, field `k` holding operand `k` |
| Codegen.SliceChain | lib/foundry/lir/transform/codegen.rb:301-307 | the reduction builds two instructions per element of the range |
| Codegen.SliceChainFields | lib/foundry/lir/transform/codegen.rb:301-307 | field `k` of the sliced aggregate is the value of the `k`-th extraction, and no other field is set |
| Codegen.SliceChainExtracts | lib/foundry/lir/transform/codegen.rb:305 | the `k`-th extraction reads field `range[k]` of the source tuple |
| Codegen.ComparisonSelectsBooleans | lib/foundry/lir/transform/codegen.rb:318-331 | a comparison selects pinned `true` (which branches treat as true) when it holds, and pinned `false` (which they treat as false) otherwise |
| Codegen.HopCode | lib/foundry/lir/transform/codegen.rb:264-267 | the walk out to an enclosing scope is one gep per level |
| Codegen.HopSnoc | lib/foundry/lir/transform/codegen.rb:264-267 | each round of `depth.times` moves to the enclosing scope type |
| Codegen.HopStaysOut | lib/foundry/lir/transform/codegen.rb:264-267 | once the walk leaves the scope chain it never returns to it |
| Codegen.BlockIdsDiffer | lib/foundry/lir/transform/codegen.rb:226-236 | within a function with distinct instructions, no instruction of a block is one of the phis queued from earlier blocks |
| Codegen.QueuedIdsDiffer | lib/foundry/lir/transform/codegen.rb:230-233 | no phi queued before an instruction is that instruction |
| Codegen.QueueStep | lib/foundry/lir/transform/codegen.rb:230-233 | lowering one instruction keeps every queued phi an empty phi at its register, in order, with a new phi queued last |
| Codegen.PhisPendingGrow | lib/foundry/lir/transform/codegen.rb:231-232 | growing the caches and the code leaves queued phis where they were |
| Codegen.PhisPendingRecord | lib/foundry/lir/transform/codegen.rb:232 | recording another instruction's value leaves queued phis where they were |
| Codegen.PhisPendingPush | lib/foundry/lir/transform/codegen.rb:361-363 | a new empty phi emitted after every queued one joins the queue |
| Codegen.PhisPendingStep | lib/foundry/lir/transform/codegen.rb:231-232 | one more lowered instruction keeps the queue pending |
| Codegen.Incomings | lib/foundry/lir/transform/codegen.rb:241-243 | a phi's incoming list has one pair per LIR edge |
| Codegen.IncomingsEach | lib/foundry/lir/transform/codegen.rb:241-243 | the incoming pairs exist exactly when each edge's block and value look up, and pair them in order |
| Codegen.IncomingsFirstError | lib/foundry/lir/transform/codegen.rb:241-243 | a failing edge makes the whole fix-up fail |
| Codegen.IncomingsSame | lib/foundry/lir/transform/codegen.rb:241-243 | the incoming pairs depend only on what lookups answer |
| Codegen.PhisFixedKept | lib/foundry/lir/transform/codegen.rb:238-244 | fixing one phi leaves the phis fixed before it as they were |
| Codegen.BlocksOf | lib/foundry/lir/transform/codegen.rb:222-224 | one basic block per LIR block, in order, named after it |
| Codegen.BoundToKept | lib/foundry/lir/transform/codegen.rb:216-224 | lowering instructions never changes the values of the arguments and blocks |
| Codegen.Codegen.constructor | lib/foundry/lir/transform/codegen.rb:3-13 | `run`'s set-up: empty `@values` and phi list, the immediates pinned, and the recorded types sound |
| Codegen.Codegen.TypeOf | lib/foundry/lir/transform/codegen.rb:7 | `@types[t]` is `emit_type(t)`: memoised, computed once, only ever extended, and every memoised layout is the type's lowering |
| Codegen.Codegen.EmitType | lib/foundry/lir/transform/codegen.rb:86-138 | `emit_type` computes the lowering of the type. Its element, variable and enclosing-scope types go through the cache |
| Codegen.Codegen.DataOf | lib/foundry/lir/transform/codegen.rb:8 | `@data[d]` yields the memoised constant, or records a new global for an object met first |
| Codegen.Codegen.ValueOf | lib/foundry/lir/transform/codegen.rb:189-197 | `@values[v]` yields `Lookup` and records a constant the first time it is met |
| Codegen.Codegen.ValuesOf | lib/foundry/lir/transform/codegen.rb:342 | `map { @values[...] }` yields `LookupAll`, only extends the caches, and changes no lookup |
| Codegen.Codegen.Build | lib/foundry/lir/transform/codegen.rb:229 | the builder appends one instruction to the current block and yields its register |
| Codegen.Codegen.EmitFunctionDecl | lib/foundry/lir/transform/codegen.rb:199-208 | an existing declaration is reused. Otherwise one is added with the lowered argument and return types, failing without change when a type does not lower |
| Codegen.Codegen.EmitBinding | lib/foundry/lir/transform/codegen.rb:249-258 | `alloca` of the scope's layout. With an enclosing scope, a gep to field 0 follows, then a store of the enclosing binding |
| Codegen.Codegen.AllocBinding | lib/foundry/lir/transform/codegen.rb:251-258 | the `alloca`, then with an enclosing scope the gep and the store |
| Codegen.Codegen.EmitLvar | lib/foundry/lir/transform/codegen.rb:260-282 | `depth` geps through field 0, a gep to the variable's slot, then the load or the store. It succeeds exactly when the binding, the slot and a stored value all exist |
| Codegen.Codegen.LvarAccess | lib/foundry/lir/transform/codegen.rb:277-282 | the load from, or store into, the variable's address |
| Codegen.Codegen.LvarAddress | lib/foundry/lir/transform/codegen.rb:264-275 | the walk out, then the gep to the variable's field, failing exactly when there is no such slot |
| Codegen.Codegen.WalkOut | lib/foundry/lir/transform/codegen.rb:264-267 | `depth` geps to field 0, failing exactly when the walk leaves the scope chain |
| Codegen.Codegen.EmitTuple | lib/foundry/lir/transform/codegen.rb:284-292 | the tuple's aggregate holds exactly the operands' values, field `k` holding operand `k`. It fails exactly when the type or an operand does not lower |
| Codegen.Codegen.InsertAll | lib/foundry/lir/transform/codegen.rb:287-292 | the reduction builds the `insertvalue` chain |
| Codegen.Codegen.EmitTupleRef | lib/foundry/lir/transform/codegen.rb:294-295 | one `extractvalue` of the indexed element |
| Codegen.Codegen.EmitTupleSlice | lib/foundry/lir/transform/codegen.rb:297-307 | field `k` of the new aggregate is an extraction of field `range[k]` of the source tuple. It fails exactly when the type or the tuple does not lower |
| Codegen.Codegen.SliceTuple | lib/foundry/lir/transform/codegen.rb:299-307 | the source tuple is looked up, then the slice is built |
| Codegen.Codegen.SliceAll | lib/foundry/lir/transform/codegen.rb:301-307 | the reduction: field `k` receives the extraction of `range[k]` |
| Codegen.Codegen.EmitIntegerOp | lib/foundry/lir/transform/codegen.rb:309-335 | both operands are looked up. Then the operator gives arithmetic, a comparison selecting pinned `true`/`false`, or "unable to lower IntegerOp" for any other operator |
| Codegen.Codegen.IntegerResult | lib/foundry/lir/transform/codegen.rb:312-335 | the instructions for a known operator, or an error with no code built |
| Codegen.Codegen.EmitInvoke | lib/foundry/lir/transform/codegen.rb:337-344 | a callee missing from the LIR module raises. Otherwise the call goes to the callee's declaration (found by name) with the arguments' values |
| Codegen.Codegen.EmitBranch | lib/foundry/lir/transform/codegen.rb:346-347 | a branch to the target's basic block, failing exactly when the block has none |
| Codegen.Codegen.EmitBranchIf | lib/foundry/lir/transform/codegen.rb:349-358 | `ptr2int`, `and` with every bit but the `false` bit, compare `ne 0`, then a conditional branch to the two targets |
| Codegen.Codegen.EmitTruthTest | lib/foundry/lir/transform/codegen.rb:350-354 | the three-instruction truth test |
| Codegen.Codegen.EmitPhi | lib/foundry/lir/transform/codegen.rb:360-363 | the phi is queued before its type is lowered, and is emitted empty |
| Codegen.Codegen.EmitReturn | lib/foundry/lir/transform/codegen.rb:365-370 | `ret void` for the bottom type, otherwise `ret` of the value |
| Codegen.Codegen.EmitTrace | lib/foundry/lir/transform/codegen.rb:372-386 | the operand as a word (sign-extended for machine integers, `ptr2int` otherwise) is passed to `foundry.trace`, declared at most once. The result is pinned `nil` |
| Codegen.Codegen.TraceCall | lib/foundry/lir/transform/codegen.rb:375-384 | the word conversion and the call to the hook |
| Codegen.Codegen.DeclareTraceHook | lib/foundry/lir/transform/codegen.rb:375-376 | the hook's declaration, found or added, keeping names unique |
| Codegen.Codegen.EmitCode | lib/foundry/lir/transform/codegen.rb:247-391 | for each instruction class it states when the arm succeeds, the code it appends and the value it yields: these are the arms' own contracts, relayed. An unknown instruction class raises "cannot lower". Every arm keeps the caches sound and only grows them and the code, and exactly phis are queued |
| Codegen.Codegen.EmitValueCode | lib/foundry/lir/transform/codegen.rb:249-335 | the arms for bindings, local variables, tuples and integer operations, with the per-class outcome `EmitCode` states |
| Codegen.Codegen.EmitEffectCode | lib/foundry/lir/transform/codegen.rb:337-386 | the arms for calls, branches, phis, returns and traces, with the per-class outcome `EmitCode` states |
| Codegen.Codegen.EmitBlock | lib/foundry/lir/transform/codegen.rb:229-235 | the block's instructions are lowered in order. On success every instruction's value is recorded and the block's phis follow the queue, still pending. Only instruction values are replaced and no recorded key is lost |
| Codegen.Codegen.LowerInsn | lib/foundry/lir/transform/codegen.rb:230-233 | one instruction is lowered and, on success, its result is recorded under the instruction and its phi, if any, joins the queue. No recorded key is lost |
| Codegen.Codegen.EmitFunction | lib/foundry/lir/transform/codegen.rb:210-245 | on success the function's declaration is the one its name finds, and one basic block is appended per LIR block. Each argument is bound to its parameter and every instruction's value is recorded. The queued phis are exactly the function's phis, and each carries one incoming pair per LIR edge |
| Codegen.Codegen.EmitBody | lib/foundry/lir/transform/codegen.rb:213-244 | once the declaration exists: one basic block is appended per LIR block, and the arguments are bound. Every instruction's value is recorded and every phi is fixed |
| Codegen.Codegen.LowerAndFix | lib/foundry/lir/transform/codegen.rb:226-244 | all blocks are lowered and then every phi is fixed. The arguments and blocks stay bound and every instruction's value is recorded |
| Codegen.Codegen.BindFunction | lib/foundry/lir/transform/codegen.rb:213-224 | the phi queue and `@values` are cleared. Arguments are bound to parameters, and blocks to new basic blocks |
| Codegen.Codegen.AppendBlocks | lib/foundry/lir/transform/codegen.rb:222-224 | one basic block is appended and recorded per LIR block |
| Codegen.Codegen.LowerBlocks | lib/foundry/lir/transform/codegen.rb:226-236 | the blocks are lowered in order. On success every instruction's value is recorded and the arguments and blocks stay bound. The queue is exactly the function's phis, in order, each still pending |
| Codegen.Codegen.FixPhis | lib/foundry/lir/transform/codegen.rb:238-244 | succeeds exactly when every queued phi's edges look up. Then each phi carries its incoming pairs in edge order, and only phis change |
| Codegen.Codegen.FixPhi | lib/foundry/lir/transform/codegen.rb:241-243 | `add_incoming` per edge: the phi gains the pairs in order and no other instruction changes |
| Codegen.Codegen.EmitFunctions | lib/foundry/lir/transform/codegen.rb:15-23 | the functions are lowered in turn. On success every one is declared under its name, and the basic blocks appended are those of each function in order, under its declaration |

## Left out

- Interpreter handlers outside the modelled set: `on_array_ref`, `on_const_fetch`, instance variables (`on_ivar`, `on_iasgn`, `on_ilist`), `on_def`, `on_proc`, `on_alias`, `on_call`, `on_proc_call`, `on_check_block`, `on_of_caller_env` and `on_string`. They call into VM objects (method tables, procs, strings) whose code is not part of this model. `handler_missing` is left out with them.
- `on_array_fetch`: as written it evaluates `process(array)` on a local that is still unassigned, so it has no meaningful behaviour to model.
- Loops: `while`/`until` are bounded by a `fuel` parameter. A loop that would run longer ends with a `FuelExhausted` error, so non-termination is not modelled.
- Outer interpreters appear in a backtrace as `Backtrace.Frame` values (scope stack and current node), not as live objects.
- The result of `Binding#mutate` is taken to be the assigned value.
- `VI.new_class(superclass)` with a superclass that is not a class is modelled as an `ArgumentError`; the VM's own check is not part of this model.
- A constant declaration's scope is `Object` exactly when the scope node is absent.
- `VI` values: tuples are value sequences, and modules and classes are arena entries with their constants and ancestor lists. Strings, procs, method tables and singleton classes are not modelled.
- The LLVM library calls (the `ruby-llvm` FFI) are replaced by a log of instructions, declarations and basic blocks. `@llvm.verify`, `dump`, `exit!` and the `$stderr` report in `run` are left out, being I/O.
- `emit_object` is reduced to "a global for the object". The constant structs for tuples and machine integers, the `S.` singleton-class naming and the class-pointer initialiser are not modelled.
- `emit_class_body_type` and the body of the `i.` struct are left out: a Ruby type lowers to a pointer to the named struct `i.<class name>`, and the struct's fields are not modelled.
- Instruction results: every successful `emit_code` result is recorded. The source records only non-`nil` results, and every modelled arm yields one.
- Basic blocks and LIR values are identified by name and by instruction identity (`InsnRef(id)`), rather than by Ruby object identity.
- Error paths keep whatever partial code was built before the error, as the source does. The contracts say nothing about that partial code.
- Error messages are modelled by their kind, with the text fixed per error. The `inspect` and `pretty_print` text is not reproduced.
- Codegen.Codegen.EmitTrace: declares `foundry.trace` at most once instead of on every trace (see Findings).
- Registers: integers are unbounded (Ruby `Integer`). The `Integer.reify(width:)` typing of field values is not modelled; `ShiftedFieldRoundTrip` requires the value to fit in `width` bits instead.
- ExpandPrimitives.OnCall: a primitive whose first argument is neither a symbol nor missing is an error here. The source builds a node whose type is that value, but node types are strings in this model.
- InterpreterEval.OnArraySlice: a slice outside the tuple raises `ArgumentError` here. The source passes Ruby `nil` (what `to_a[from..to]` yields) to `VI.new_tuple`, whose behaviour is not part of this model.
- An `if` node always has both branches. The source's `process(nil)` for a missing branch yields Ruby `nil` rather than a VM value, and that is not modelled.
- Codegen.FreshName: the suffix LLVM appends to a clashing declaration is not modelled. `FreshName` only guarantees a name that no declaration uses yet.

## Findings

| source | as written | input that shows it | evidently intended | confidence | as-written member | corrected member |
|---|---|---|---|---|---|---|
| vm/baremetal/registers/register_definition.rb:20 | the flag reader tests `(value & mask)` for truthiness. In this language an Integer, 0 included, is truthy, so the reader always yields `true` | a register with value 0 and a flag at bit 0: the reader yields `true` | `true` exactly when the flag's bit is set, i.e. `(value & mask) != 0` | high, not executed | Registers.ReadFlagAsWrittenCounterexample | Registers.FlagWriteThenRead |
| vm/baremetal/registers/register_definition.rb:45 | the field mask `2**width - 1` is not shifted to the field's offset. The reader and writer therefore only touch bits below `width`, not the field's own bits | a 4-bit field at offset 4, written with 1: it reads back 0 | mask `(2**width - 1) << offset`, giving a round trip at every offset | high, not executed | Registers.FieldAtOffsetFourCounterexample | Registers.ShiftedFieldRoundTrip |
| lib/foundry/lir/transform/codegen.rb:375-383 | every `TraceInsn` calls `@llvm.functions.add("foundry.trace", ...)`. LLVM renames the second declaration, so the second trace calls a renamed hook (such as `foundry.trace1`) that nothing defines | a function with two `TraceInsn`s | declare the hook once and reuse it, so every trace calls `foundry.trace` | medium, not executed | Codegen.TraceTwiceCallsRenamed | Codegen.DeclareTraceIdempotent |

The register class (`Registers.Register`, `Registers.FlagMethods`, `Registers.FieldMethods`) keeps the accessors as written. `Registers.ReadFlag` and `Registers.ShiftedFieldMask` are the corrected definitions, with their properties proved beside them. The code generator uses the corrected trace declaration (`Codegen.DeclareTrace`, in `Codegen.Codegen.EmitTrace`).

`branch_if` masks the address with `~0b10`, i.e. it clears the `false` bit and keeps all the others; it does not keep only the tag bit. This agrees with the pinned addresses (`Codegen.BranchFalseExactlyForNilAndFalse`), so it is not listed as a finding.

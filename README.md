# A verified model of a clox-style bytecode interpreter

This project models the core of a small Lox interpreter written in C. It covers five pieces:

- a single-pass Pratt compiler that turns a token stream into bytecode;
- a stack virtual machine that runs that bytecode;
- the growable value array;
- the object allocator with FNV-1a string hashing and string interning;
- the mark-sweep garbage collector, with its byte accounting in `reallocate`.

Each C file becomes one or more Dafny modules:

| module | file | models |
|---|---|---|
| `Values` | `values.dfy` | the tagged value, falsiness and `_values_equal` |
| `Chunks` | `chunk.dfy` | opcodes, their byte encoding and the chunk |
| `Growth`, `ValueArrays` | `value_array.dfy` | `GROW_CAPACITY` and the class `ValueArray` over an `array` |
| `Compiler` | `compiler.dfy` | see below |
| `VirtualMachine` | `vm.dfy` | see below |
| `ObjectTypes` | `object_types.dfy` | object headers and bodies, their children and their byte footprints |
| `Memory` | `memory.dfy` | see below |
| `Objects` | `object.dfy` | see below |

**Compiler.** The compiler is the class `Parser`, whose fields are the parser globals and the chunk under construction. Each parse function is a method. Each method is proved to leave the state that a pure function of the old state describes (`AfterAdvance`, `AfterParse`, `AfterBinary`, …). Correctness is proved against `Expr`, a syntax tree that exists only in the specification: for every well-formed tree, the parser fed the tree's tokens emits the tree's postfix code. That is what precedence and left associativity mean.

**Virtual machine.** The VM is the class `Vm`, with a fixed-size `array` stack. Each opcode handler is proved against a pure step function. The `_run` loop is proved against `RunFrom`. The top-level theorems are these:

- running the chunk compiled from an expression returns the expression's value;
- it ends in a runtime error exactly when evaluating the expression fails.

**Collector.** The collector is the class `Heap`. The heap is a map from object ids to headers, threaded into the allocation list by `next` links. The gray stack is an `array`. Every marking method is proved against pure `MarkStep`/`MarkAll`/`Trace` functions. On those functions the model proves the main collector theorem: after marking the roots and tracing, the marked objects are exactly the objects reachable from the roots. The sweep is proved to free exactly the unmarked objects, to keep the list order of the survivors, and to lower the byte count by their footprints.

**Allocator.** The allocators of `object.c` are methods over a `Heap`. Each states what the heap is after the allocation, whether or not `reallocate` started a collection on the way.

Floating-point numbers are an abstract type. Their operations (`+`, `<`, `==`, `strtod`, …) are supplied from outside as a `NumberOps` record. The scanner is not modelled: the compiler takes its token sequence as input. Source lines are cited as paths under the repository root.

Where the headers and the code disagree, the model follows the code:

- `value.h` still declares `typedef double Value`, but `vm.c`, `object.c` and `lib/memory.c` use a tagged `value_t`.
- `object.h` lacks `is_marked`, `OBJ_UPVALUE` and the closure's upvalue array, which `object.c` and `lib/memory.c` read and write.
- `chunk.h` lists only seven opcodes. The other seven that `compiler.c` and `vm.c` use are given the next byte values, 7 to 13.

## Model

| member | source | states |
|---|---|---|
| Values.ValuesEqual | src/vm.c:151-161 | Values of different types are never equal. `nil` equals `nil`. Booleans are equal iff they hold the same truth value. Numbers are equal iff the host `==` says so. An object value never compares equal (the `default` branch). |
| Values.ValuesEqualReflexive | src/vm.c:151-157 | `nil` and every boolean are equal to themselves. |
| Values.ValuesEqualSymmetric | src/vm.c:151-161 | `_values_equal` is symmetric whenever the host `==` on numbers is. |
| Values.FalseyIsNilOrFalse | src/vm.c:147-149 | A value is falsey iff it equals `nil` or `false`. |
| Values.NumbersAreTruthy | src/vm.c:147-149 | No number is falsey, zero included. |
| Chunks.Decode | src/vm.c:71-107 | A byte names an opcode iff it is below 14. Any other byte matches no case of the dispatch switch. |
| Chunks.EncodeDecode | src/chunk.h:7-15 | Decoding the byte of any opcode gives that opcode back. |
| Chunks.DecodeEncode | src/chunk.h:7-15 | Every byte that decodes is the encoding of the opcode it decodes to. |
| Growth.GrowCapacity | src/value.c:13-16 | The grown capacity exceeds the old one and is at least 8. From 8 on, it doubles. |
| Growth.Reallocate | src/value.c:16 | `GROW_ARRAY` gives a fresh array of the new length that starts with the old contents. |
| ValueArrays.ValueArray.constructor | src/value.c:6-10 | `l_init_value_array`: no values, capacity 0. |
| ValueArrays.ValueArray.Write | src/value.c:12-21 | The contents gain the value at the end and the count grows by one. The capacity grows by `GROW_CAPACITY` exactly when the array was full, and is otherwise unchanged. |
| ValueArrays.ValueArray.Free | src/value.c:23-26 | The array is back to empty with capacity 0. |
| Compiler.GetRule | src/compiler.c:195-236 | The infix rule is `_binary` for exactly the ten binary operator tokens and absent for all others. Only those ten have a precedence other than `PREC_NONE`, and none is above `PREC_FACTOR`. `(` is the only grouping prefix. `-` and `!` are the unary prefixes. Numbers have the number prefix. `false`, `nil` and `true` have the literal prefix. |
| Compiler.AfterError | src/compiler.c:49-68 | An error sets panic mode. It counts a diagnostic and sets `had_error` only when the parser was not already panicking. Nothing else changes. |
| Compiler.AdvanceLoop | src/compiler.c:81-87 | The scan loop reports and skips error tokens until a non-error token becomes current. It never clears panic mode, leaves the code untouched, and makes progress unless at EOF. |
| Compiler.AfterAdvance | src/compiler.c:78-88 | `previous` becomes the old `current`. `current` becomes the next token when that is not an error token, and EOF past the end of the input. The code and the constants are untouched. |
| Compiler.AfterConsume | src/compiler.c:90-97 | When the current token has the expected type, consuming is exactly an advance. Otherwise it is exactly an error at the current token. |
| Compiler.AfterEmit | src/compiler.c:99-106 | Emitting appends the bytes to the code. The existing line entries are kept, and each new byte gets the line of the previous token. Nothing else changes. |
| Compiler.ConstantOperand | src/compiler.c:112-120 | The operand byte is the pool index while it fits in a byte, and 0 beyond that. |
| Compiler.AfterParse | src/compiler.c:238-254 | When the next token has no prefix rule, parsing is exactly an advance followed by an error ("Expect expression."). The parser stays consistent and never moves back. |
| Compiler.AfterConstant | src/compiler.c:112-124 | The value joins the constant pool, and `OP_CONSTANT` is emitted with the value's index as operand. Past 256 constants this is an error (panic mode). Otherwise no diagnostic is added. |
| Compiler.Initial | src/compiler.c:266-271 | Compilation starts at the first token, not panicking, with empty code and an empty pool. |
| Compiler.Compiled | src/compiler.c:266-279 | The code of every compilation, erroneous or not, ends with `OP_RETURN`. |
| Compiler.EmittedBinary | src/compiler.c:139-157 | The code of a binary expression is the left operand's code, then the right operand's code, then the operator's bytes. |
| Compiler.ParseCorrect | src/compiler.c:238-254 | Take the tokens of a well-formed expression of level at least `p`, followed by a token of lower precedence. `_parse_precedence(p)` stops right after that expression, having emitted its postfix code and constants. |
| Compiler.PrefixCorrect | src/compiler.c:241-247 | The first token of every non-binary expression has a prefix rule. That rule consumes the expression and emits its code. |
| Compiler.InfixCorrect | src/compiler.c:249-253 | From any operand on the left spine, the infix loop consumes the remaining operators and right operands and emits the whole expression's code. |
| Compiler.InfixStep | src/compiler.c:249-253 | One pass of the infix loop extends the parsed left operand by one operator and its right operand, in order. |
| Compiler.BinaryCorrect | src/compiler.c:139-158 | `_binary` parses the right operand one level above the operator, which makes operators left-associative. It then emits the operator's bytes after both operands' code. |
| Compiler.CompiledCorrect | src/compiler.c:266-279 | Compile the tokens of a well-formed expression with at most 256 numbers, followed by EOF. This raises no error, and the chunk holds the expression's postfix code followed by `OP_RETURN`, with its numbers as the constant pool. |
| Compiler.Parser.constructor | src/compiler.c:266-271 | The parser starts in the initial state over the given tokens. |
| Compiler.Parser.ScanToken | src/compiler.c:82 | Reads the next token, or EOF past the end, and moves the position past it. |
| Compiler.Parser.ErrorAt | src/compiler.c:49-68 | The state afterwards is `AfterError` of the state before. |
| Compiler.Parser.Error | src/compiler.c:70-72 | The state afterwards is `AfterError` of the state before. |
| Compiler.Parser.ErrorAtCurrent | src/compiler.c:74-76 | The state afterwards is `AfterError` of the state before. |
| Compiler.Parser.Advance | src/compiler.c:78-88 | The state afterwards is `AfterAdvance` of the state before. |
| Compiler.Parser.Consume | src/compiler.c:90-97 | The state afterwards is `AfterConsume` of the state before. |
| Compiler.Parser.EmitByte | src/compiler.c:99-101 | The code gains exactly that byte. |
| Compiler.Parser.EmitBytes | src/compiler.c:103-106 | The code gains exactly those two bytes, in order. |
| Compiler.Parser.EmitReturn | src/compiler.c:108-110 | The code gains exactly `OP_RETURN`. |
| Compiler.Parser.MakeConstant | src/compiler.c:112-120 | The value joins the pool and the operand byte is its index. Past 256 constants the result is an error and operand 0. |
| Compiler.Parser.EmitConstant | src/compiler.c:122-124 | The state afterwards is `AfterConstant` of the state before. |
| Compiler.Parser.EndCompiler | src/compiler.c:126-133 | The code gains exactly `OP_RETURN`. |
| Compiler.Parser.Binary | src/compiler.c:139-158 | The state afterwards is `AfterBinary` of the state before. |
| Compiler.Parser.Literal | src/compiler.c:160-168 | The state afterwards is `AfterLiteral` of the state before. |
| Compiler.Parser.Grouping | src/compiler.c:170-173 | The state afterwards is `AfterGrouping` of the state before. |
| Compiler.Parser.NumberLiteral | src/compiler.c:175-178 | The state afterwards is `AfterNumber` of the state before. |
| Compiler.Parser.Unary | src/compiler.c:180-193 | The state afterwards is `AfterUnary` of the state before. |
| Compiler.Parser.ParsePrecedence | src/compiler.c:238-254 | The state afterwards is `AfterParse` of the state before. So a token without a prefix rule is advanced over and reported. |
| Compiler.Parser.Prefix | src/compiler.c:241-247 | The state afterwards is `AfterPrefix` of the state before. |
| Compiler.Parser.Expression | src/compiler.c:260-262 | The state afterwards is `AfterExpression` of the state before. |
| Compiler.CompiledRejectsMissingExpression | src/compiler.c:241-245 | On empty input, or when the first token cannot start an expression, compiling reports one error and fails. |
| Compiler.CompiledRejectsTrailingToken | src/compiler.c:266-279 | A well-formed expression followed by a token that cannot continue it and is not end-of-input is rejected. The final consume reports one error. |
| Compiler.Compile | src/compiler.c:266-279 | The result is true iff the parser's `had_error` is false at the end, and the chunk and the diagnostics are those of `Compiled`. So every input `Compiled` rejects fails, missing expressions and trailing tokens included. The chunk always ends with `OP_RETURN` and has one line per byte. Compilation succeeds iff no diagnostic was reported, and at most one ever is. For the tokens of a well-formed expression, it succeeds with the expression's postfix code and constants. |
| VirtualMachine.PushValue | src/vm.c:133-136 | A push appends the value when the stack has room. A push onto a full stack of `STACK_MAX` slots is undefined behaviour (a fault). |
| VirtualMachine.RaiseError | src/vm.c:21-32 | A runtime error resets the stack to empty. Reading the line of an instruction past the line table is a fault. |
| VirtualMachine.Execute | src/vm.c:72-107 | Executing an opcode keeps `ip` within the code. A runtime error leaves an empty stack. |
| VirtualMachine.Step | src/vm.c:57-107 | One pass of the dispatch loop moves `ip` forward within the code. A runtime error leaves an empty stack. |
| VirtualMachine.RunFrom | src/vm.c:43-113 | The dispatch loop always halts: every pass moves `ip` forward, and running off the end is a fault. |
| VirtualMachine.StepDepth | src/vm.c:72-107 | Each opcode that runs on changes the stack depth by its stack effect. A byte that names no opcode is skipped with the stack unchanged. |
| VirtualMachine.BinaryOperandOrder | src/vm.c:46-55 | With two numbers on top, `BINARY_OP` replaces them by `a op b`, where `a` is the deeper one. |
| VirtualMachine.BinaryTypeError | src/vm.c:48-51 | If either operand of `BINARY_OP` is not a number, the result is a runtime error with an empty stack. |
| VirtualMachine.NegateStep | src/vm.c:94-101 | `OP_NEGATE` replaces a number by its negation. Any other operand is a runtime error. |
| VirtualMachine.ConstantStep | src/vm.c:73-77 | `OP_CONSTANT` pushes the pool entry its operand names and skips the operand. |
| VirtualMachine.Vm.constructor | src/vm.c:35-37 | `l_init_vm`: the stack is empty. |
| VirtualMachine.Vm.ResetStack | src/vm.c:17-19 | The stack is empty and nothing else changes. |
| VirtualMachine.Vm.Push | src/vm.c:133-136 | The stack gains the value on top. |
| VirtualMachine.Vm.Pop | src/vm.c:138-141 | Returns the top value, and the stack loses it. |
| VirtualMachine.Vm.Peek | src/vm.c:143-145 | Returns the value `distance` slots below the top. |
| VirtualMachine.Vm.ReadByte | src/vm.c:44 | Returns the byte at `ip` and moves `ip` past it. |
| VirtualMachine.Vm.RaiseRuntimeError | src/vm.c:21-32 | The machine is left as `RaiseError` describes. |
| VirtualMachine.Vm.Constant | src/vm.c:73-77 | The machine follows `ConstantOp` of its old state. |
| VirtualMachine.Vm.Literal | src/vm.c:78-80 | The machine follows a push of the literal. |
| VirtualMachine.Vm.Equal | src/vm.c:81-86 | The machine follows `EqualOp`: pop `b`, pop `a`, push `_values_equal(a, b)`. |
| VirtualMachine.Vm.Not | src/vm.c:93 | The machine follows `NotOp`: the top value is replaced by its falsiness. |
| VirtualMachine.Vm.Negate | src/vm.c:94-101 | The machine follows `NegateOp`. |
| VirtualMachine.Vm.Return | src/vm.c:102-106 | The machine follows `ReturnOp`: the run ends, returning the popped top value. |
| VirtualMachine.Vm.BinaryOp | src/vm.c:46-55 | The machine follows `BinaryStep` for that operator. |
| VirtualMachine.Vm.Arithmetic | src/vm.c:52-54 | With two numbers on top, the machine follows `BinaryStep`. |
| VirtualMachine.Vm.TypeError | src/vm.c:48-51 | The machine follows `RaiseError`. |
| VirtualMachine.Vm.CheckOperands | src/vm.c:48 | Reports whether both peeks are defined, and then whether both operands are numbers. `_peek(1)` is only reached when `_peek(0)` is a number, as with C's `\|\|`. |
| VirtualMachine.Vm.ExecuteOp | src/vm.c:72-107 | The machine follows `Execute` for the opcode. |
| VirtualMachine.Vm.Dispatch | src/vm.c:71-107 | The machine follows `Step` of its old state. |
| VirtualMachine.Vm.Run | src/vm.c:43-113 | The run ends as `RunFrom` of the old state says. Unless the run ends in a fault, the machine is left in the state `RunFrom` gives. |
| VirtualMachine.Vm.Interpret | src/vm.c:115-131 | The result is `INTERPRET_COMPILE_ERROR` exactly when compilation reports an error, and then the machine is untouched and no bytecode runs. A value is printed iff the result is `INTERPRET_OK`. For the tokens of a well-formed expression that fits the stack, the result is `INTERPRET_OK` printing the expression's value, or a runtime error when evaluation fails. |
| VirtualMachine.LiteralValue | src/compiler.c:160-178 | A token has a literal value iff it is a number, `false`, `nil` or `true`. |
| VirtualMachine.UnaryTail | src/vm.c:93-101 | After the operand's value is on the stack, the unary operator's byte replaces it by the operator's result, or ends in a runtime error. |
| VirtualMachine.BinaryBytesMeaning | src/compiler.c:144-157 | The bytes `_binary` emits for each operator compute the operator's meaning on the VM. |
| VirtualMachine.NegatedMeaning | src/compiler.c:145-150 | `!=`, `>=` and `<=` are compiled as the negation of `==`, `<` and `>`, and mean exactly that. |
| VirtualMachine.BinaryTail | src/vm.c:81-93 | After both operands' values are on the stack, the operator's bytes replace them by the operator's result, or end in a runtime error. |
| VirtualMachine.ExecCorrect | src/vm.c:43-113 | The code of any executable expression, with its constants in place, pushes the expression's value on top of the stack. When evaluation fails, it ends in a runtime error instead. |
| VirtualMachine.CompiledRun | src/vm.c:115-131 | Running the compiled chunk from `ip` 0 returns the expression's value, with the stack as before. When evaluation fails, the run ends in a runtime error. |
| ObjectTypes.LeavesHaveNoChildren | src/lib/memory.c:83-104 | Natives and strings refer to nothing. A closure refers to its function and its non-null upvalues. A function refers to its name and its object constants. An upvalue refers to its closed-over object. |
| Memory.FreeDuringSweepCollects | src/lib/memory.c:13-25 | As written, freeing a 32-byte object with 2048 bytes counted and a threshold of 1024 starts a collection. The corrected test does not. |
| Memory.ShrinkNeverCollects | src/lib/memory.c:15-25 | With the corrected test, no shrink or free starts a collection. |
| Memory.CorrectedOnlyDropsShrinks | src/lib/memory.c:15-25 | For any count, threshold and sizes, every collection the corrected test starts is one the code as written also starts. On a block that grows, the two tests agree. |
| Memory.MarkStepEffect | src/lib/memory.c:38-62 | Marking an unmarked object marks it and pushes it gray. An already marked object is left alone. The number of unmarked objects plus gray entries is unchanged. |
| Memory.MarkAllMarks | src/lib/memory.c:38-62 | Marking a sequence of objects marks exactly those objects in addition. |
| Memory.MarkAllGray | src/lib/memory.c:51-61 | Marking keeps the gray stack as a prefix and pushes exactly the objects that were unmarked. |
| Memory.MarkAllIdempotent | src/lib/memory.c:42-43 | Marking the same objects twice is the same as marking them once. |
| Memory.Pop | src/lib/memory.c:172 | Popping removes exactly the top of the gray stack. |
| Memory.Blacken | src/lib/memory.c:75-105 | Blackening keeps the gray objects in the heap and only adds marks. It strictly lowers the unmarked-plus-gray measure. |
| Memory.Trace | src/lib/memory.c:170-175 | Tracing ends with an empty gray stack and only adds marks. |
| Memory.TraceStep | src/lib/memory.c:170-175 | One pass pops the top gray object and marks its children, in `_blacken_object`'s order. |
| Memory.BlackenKeepsGrayMarked | src/lib/memory.c:75-105 | Blackening keeps every gray object marked. |
| Memory.BlackenKeepsBlackClosed | src/lib/memory.c:75-105 | Blackening keeps the tricolour invariant: no black object refers to a white one. |
| Memory.TraceCloses | src/lib/memory.c:170-175 | After tracing, every child of a marked object is marked. |
| Memory.BlackenMarksReachable | src/lib/memory.c:75-105 | Blackening marks only objects reachable from the roots. |
| Memory.TraceMarksReachable | src/lib/memory.c:170-175 | Tracing marks only objects reachable from the roots: every marked object stays reachable in the heap before the collection. |
| Memory.MarkingFindsReachable | src/lib/memory.c:142-175 | Start from an unmarked heap. Marking the roots and tracing marks exactly the objects reachable from the roots, and changes no object. |
| Memory.Keep | src/lib/memory.c:177-198 | The surviving list holds exactly the live objects of the old list. |
| Memory.SweepDone | src/lib/memory.c:177-198 | At the end of the sweep, three things hold. The list is the marked objects in their old order, and they alone remain, unmarked and unchanged. The byte count dropped by the footprints of the freed objects. |
| Memory.FreeDone | src/lib/memory.c:226-233 | Freeing the whole list leaves no object and drops the count by every footprint. |
| Memory.TableRefs | src/lib/memory.c:164 | The objects a table marks are exactly its keys and its object values. |
| Memory.RemoveWhite | src/lib/memory.c:211 | The intern table keeps exactly the entries whose string is marked. |
| Memory.StringsSurvive | src/lib/memory.c:211-213 | After the sweep, every entry left in the intern table names a live string with those characters. No entry of a live string is lost. |
| Memory.RootsSurvive | src/lib/memory.c:142-168 | Every root is still in the heap after a collection. |
| Memory.Collected | src/lib/memory.c:201-224 | After a collection, the heap invariant holds and the roots remain. The heap is exactly the objects reachable from the roots, unchanged. The intern table lost exactly the entries of freed strings. |
| Memory.Heap.MarkObject | src/lib/memory.c:38-62 | A null object is ignored. Otherwise the marks and the gray stack follow `MarkStep`, growing the gray array when full. |
| Memory.Heap.MarkValue | src/lib/memory.c:64-67 | Only an object value is marked, as `MarkStep` says. |
| Memory.Heap.MarkValues | src/lib/memory.c:69-73 | The marks follow `MarkAll` of the array's object values, in order. |
| Memory.Heap.MarkObjects | src/lib/memory.c:150-154 | The marks follow `MarkAll` of the frames' closures, in order. |
| Memory.Heap.MarkUpvalueArray | src/lib/memory.c:87-89 | The marks follow `MarkAll` of the non-null upvalues, in order. |
| Memory.Heap.MarkUpvalues | src/lib/memory.c:157-161 | The marks follow `MarkAll` of the open-upvalue chain, in link order. |
| Memory.Heap.MarkTable | src/lib/memory.c:164 | The marks follow `MarkAll` of each entry's key and then its value. |
| Memory.Heap.MarkRoots | src/lib/memory.c:142-168 | The marks follow `MarkAll` of all roots, in order: stack, frames, open upvalues, globals, compiler roots. |
| Memory.Heap.BlackenObject | src/lib/memory.c:75-105 | The marks follow `MarkAll` of the object's children. |
| Memory.Heap.TraceReferences | src/lib/memory.c:170-175 | The marks become `Trace` of the old marks, and the gray stack ends empty. |
| Memory.Heap.TracePass | src/lib/memory.c:171-174 | One pass keeps the tracing invariant and lowers the measure. |
| Memory.Heap.TableRemoveWhite | src/lib/memory.c:211 | The intern table becomes `RemoveWhite` of the old table. |
| Memory.Heap.Release | src/lib/memory.c:15 | The byte count drops by the freed size. |
| Memory.Heap.FreeObject | src/lib/memory.c:107-139 | The object is gone, and the count drops by its footprint: its struct, plus a closure's upvalue array or a string's characters. |
| Memory.Heap.MarkPhase | src/lib/memory.c:207-209 | The marked objects are exactly those reachable from the roots, with every object unchanged and the gray stack empty. |
| Memory.Heap.CollectGarbage | src/lib/memory.c:201-224 | The heap keeps exactly the objects reachable from the roots, unchanged and in list order. The intern table loses exactly the entries of freed strings. The count drops by the freed footprints. `next_gc` becomes twice the count. |
| Memory.Heap.Reallocate | src/lib/memory.c:13-36 | The count changes by `newSize - oldSize`. A growth past the threshold collects down to the reachable objects and resets `next_gc`. Anything else leaves the heap as it was. |
| Memory.Heap.FreeObjects | src/lib/memory.c:226-235 | No object remains, and the count drops by every footprint. |
| Memory.Heap.SweepVisit | src/lib/memory.c:180-197 | One pass of the sweep keeps the sweep invariant: it unmarks and keeps a marked object, or unlinks and frees an unmarked one. |
| Memory.Heap.Sweep | src/lib/memory.c:177-198 | Exactly the marked objects remain, unmarked, unchanged and in list order. The count drops by the footprints of the freed objects. |
| Objects.FnvHashSnoc | src/object.c:62-65 | Hashing one more byte is one more xor-then-multiply round. |
| Objects.FnvHashKnownAnswers | src/object.c:60-67 | The hash of the empty string is the FNV offset basis. The hashes of "a" and "foobar" are the published FNV-1a 32-bit values. |
| Objects.HashString | src/object.c:60-67 | The loop computes the FNV-1a hash of the bytes, modulo 2^32. |
| Objects.Push | src/object.c:13-20 | The new object sits at the fresh address, unmarked and linked to the old list head. Every other object is unchanged. |
| Objects.StaleMarkLosesReachable | src/object.c:13-20 | As written, the header keeps whatever mark the memory held. Then a closure that is a root, allocated with a stale mark, is never blackened, and the function it refers to stays unmarked although reachable. |
| Objects.PushLinked | src/object.c:15-18 | Pushing at the head keeps the allocation list well linked. |
| Objects.PushValid | src/object.c:13-20 | Pushing an unmarked object keeps the heap invariant, an unmarked heap and the roots in place. |
| Objects.LinkObject | src/object.c:15-18 | The object is stored unmarked at the next address and becomes the list head. |
| Objects.AllocateObject | src/object.c:13-20 | The object is allocated after the heap was retained, at the head of the list. Without a collection nothing else changes. After a collection, the heap is the reachable objects plus the new one. |
| Objects.NewFunction | src/object.c:36-43 | Allocates a function with arity 0, no upvalues, no name and an empty chunk. |
| Objects.NewNative | src/object.c:45-49 | Allocates a native holding the function pointer. |
| Objects.NewUpvalue | src/object.c:93-99 | Allocates an upvalue for the slot, closed over `nil`, with no next upvalue. |
| Objects.NullUpvalues | src/object.c:24-26 | Every slot of the new upvalue array is null. |
| Objects.AllocateUpvalues | src/object.c:23-26 | Accounts for the array's bytes, possibly collecting on the way, and returns an all-null array. |
| Objects.NewClosure | src/object.c:22-34 | Allocates a closure over the function with as many null upvalues as the function declares. The bytes of the array and of the struct are both counted. |
| Objects.TableSetString | src/object.c:56 | The intern table maps the characters to the new string. |
| Objects.AllocateString | src/object.c:51-58 | Allocates the string with its hash and interns it. |
| Objects.TakeString | src/object.c:69-78 | Returns the interned string with those characters. If one existed, the heap is unchanged and the passed characters are freed. Otherwise a new string is allocated with their FNV-1a hash and interned. |
| Objects.CopyChars | src/object.c:87-89 | Accounts for `length + 1` bytes and returns the same characters. |
| Objects.CopyString | src/object.c:80-91 | Returns the interned string with those characters. If one existed, nothing changes. Otherwise a copy of the characters is allocated and interned with their FNV-1a hash. |
| Objects.InternedByAddress | src/object.c:51-91 | In an intern table, two entries name the same object iff their characters are equal. |

## Left out

- The scanner is not part of this model: the compiler reads a sequence of tokens, and scanning past its end yields EOF.
- Floating point: `Number` is an abstract type and its arithmetic, comparisons and `strtod` come from a `NumberOps` parameter.
- `table.c` is not part of this model. The intern table is a map keyed by characters. `l_table_find_string` is a map lookup. `l_table_set` and `l_table_remove_white` are map updates. The globals are a sequence of entries.
- `chunk.c` is not part of this model. The chunk is a value with code, lines and constants. `l_free_chunk` does not release a function's chunk in the byte count.
- `l_mark_compiler_roots` is not part of this model. The compiler's roots are a sequence of object ids among the roots.
- `lib/memory.h` is not part of this model. `GROW_CAPACITY` and `GROW_ARRAY` get the definitions the code relies on.
- ValueArrays.ValueArray.Write / Free: `GROW_ARRAY` and `FREE_ARRAY` go through `reallocate`, but the value array's growth and release are not counted in `bytes_allocated` and start no collection. The value array is not tied to a `Heap`.
- `realloc`, `free` and `exit(1)` on allocation failure are not modelled. Nor is `free(gray_stack)` in `l_free_objects`. Growing the gray stack allocates a fresh array.
- The `DEBUG_STRESS_GC` collection on every growth, and all `DEBUG_*` printing, are left out (compile-time options).
- Printing is left out: `l_print_value`, `l_print_object`, the diagnostics' text and `debug.c`. `Interpret` returns the value `OP_RETURN` would print, and the compiler counts diagnostics.
- `main.c` and the tests are not part of this model.
- Call frames, `OP_CALL` and closing upvalues are left out: this snapshot's VM does not run them. Frames, open upvalues and globals appear only as collector roots.
- `l_init_vm` does not initialise the collector's fields. The `Heap` constructor starts them at zero with a given first threshold.
- `size_t` arithmetic is not modelled. The byte count is an unbounded integer, so an unsigned underflow of `bytes_allocated` is not modelled.
- In `_allocate_string`, the new string is not rooted while `l_table_set` runs. The table's own growth, which could collect, is not modelled.
- Undefined behaviour in `_run` (stack over- or underflow, reading past the code or the constant pool) ends the run with the outcome `Fault`. After a fault nothing is promised.
- Compiler.GetRule: its contract says which tokens have an infix rule, and that no precedence exceeds `PREC_FACTOR`. It does not give each operator's level: the body's table does, and `Level`/`WellFormed` use it.
- Objects.TakeString: when the string was already interned, the contract does not restate the interned string's hash.
- Memory.FreeDuringSweepCollects: shows only that the threshold test as written fires on a free during the sweep. What the nested collection then does to the half-done sweep is not modelled, because `Heap.Reallocate` uses the corrected test.

## Findings

| source | as written | input that shows it | evidently intended | confidence | as-written member | corrected member |
|---|---|---|---|---|---|---|
| src/lib/memory.c:23 | The threshold test runs after every change of the count, including a free (`newSize == 0`). A free inside `_sweep` can therefore start a nested collection while the sweep is half done. | 2048 bytes counted, `next_gc` 1024, one 32-byte object freed by the sweep | Only a growth past the threshold collects | not executed | Memory.FreeDuringSweepCollects | Memory.Heap.Reallocate |
| src/object.c:13-20 | `_allocate_object` never initialises `is_marked`, so a new object can start out marked. Marking then skips it as already marked and never blackens it, so objects reachable only through it are swept while still in use. | A closure over a live function, allocated with a stale mark of true and then held as a root | New objects start unmarked | not executed | Objects.StaleMarkLosesReachable | Objects.LinkObject |

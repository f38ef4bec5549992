# EOS VM in Dafny

A model of the parts of EOS VM that nothing checks again at run time, with proofs that they need no
checking: the single pass that validates Wasm function bodies and compiles them to flat bytecode, the
interpreter that runs that bytecode, and five components beside them. `dafny verify dfyconfig.toml`
checks the whole project.

## The compiler and the interpreter

The parser reads decoded instructions (`Wasm.Token`), each with the number of source bytes it took. The
instructions are nop, constants, six i32 and i64 operations (one of them trapping), globals, one byte
load and one byte store, memory.copy, memory.fill and table.copy, drop, select, locals, and all control:
unreachable, block, loop, if, else, end, br, br_if, br_table, return and direct call.

There are three layers.

* *What the code does.* `Tracker`, `Writer`, `Parser`, `Locals`, `Arena` and `ModuleWriter` are classes
  over the source's own fields: the flat vector of type tags and its running depth, the control stack
  with its relocation lists, the code memory that is filled in place and patched through addresses, the
  arena behind it. `Stack` and `ExecutionContext` are the interpreter: a growing operand stack shared by
  all frames, activation frames, program counter, frame base and the remaining call depth.
* *What it computes.* `Validator.Run` is the validation algorithm with one segment of operands for each
  open scope. `Bytecode.Code` is the code an accepted body should become, each branch target given by
  the structure of the body and not by any list. `Machine` is the interpreter as a step function; it
  answers `MStuck` wherever the C++ would read a missing operand, the wrong alternative of its union or
  data that is not an opcode. Every class method is proved to do what these say.
* *What it means.* `Source` is a small-step semantics of nested instructions with a stack of labels and
  frames, in the style of section 4.4.8 of the WebAssembly Core Specification 2.0, where a bulk
  instruction moves one element and is there again, as in sections 4.4.6 and 4.4.7; `Typing` is the declarative type
  system of section 3.3. They share only the tokens and the plain operations with the layers above.

The main results connect the layers. `Parser.BodyParser.ParseFunctionBodyCode` accepts exactly what the
algorithm accepts and leaves exactly `Bytecode.Code`. The algorithm is exact: `Completeness.AcceptedExactly`
says that it accepts a body if and only if its tokens are structured code that is well typed.
`Correctness.CompilationPreservesMeaning` says that the flat code and the structured semantics halt with
the same outcome, in both directions, for every accepted module, argument list, store and whatever is on
the stacks already; `DivergencePreserved` is the same for running forever, and `NeverStuck` says that
nothing checked at parse time can fail at run time. `Soundness` has what holds at every reachable state:
the height of the stack against the depth the tracker saw, the types of locals, the budget, the bound by
`maximum_stack`, and that a callee leaves its caller alone; `Limits` says that these bounds are not larger
than they must be, and which call they refuse; `Constants` that no run changes an immutable global.
`Effects` and `Entries` say what single instructions, calls and host calls do to operands that are written
out, on both sides, in terms of numbers and not of the functions both sides share. `BulkSteps` has what a whole bulk instruction
does on both sides, in as many steps as it has elements and one more: `SourceBulk` and `MachineBulk` end
with the same memmove or range fill of the whole store, or abort at once.
`ExecutionContext.Execute` is proved from any state of its context, so a host function may call back into
it: whatever happens the context is restored. A host function may leave any store whose globals have
their declared types (`Layout.HostKeeps`), and a function of the module that returns leaves such a store
(`ExecutionContext.ResultsTyped`).
`Pipeline.Load` shows that what the writer produces is what the theorems about running code assume, and
`Pipeline.HypothesesMet` that their hypotheses can be met.

## The other components

* `Blocks`, `BlockRuns` and `JitAllocator`: the four containers (by address and by size, free and
  allocated) always describe the same blocks, these partition the segments, and allocation is best fit.
  Every call of the class is a step of `BlockRuns.Step`, and `BlockRuns` has what holds after any sequence
  of steps.
* `BulkOps`: memory.copy, table.copy and memory.fill, one element for each dispatch with the operands as
  loop variables, over any element type, and as methods over arrays. `BulkSteps` carries them over to the
  interpreter and the structured semantics.
* `Lists` and `Profiler`: the circular list and the hash chains as linked nodes in arrays, and the trace
  cache over them. `ticks` and `wraps` are histories that no code reads.
* `Timeout`: `timed_run`, the timer thread and the signal handler as an interleaved step system with any
  number of threads. Steps are single accesses to shared state. What a run ends with is read off the
  schedule that led there.
* `Leb128`, `Utf8`, `FloatRound`: codecs and rounding against the definitions of the standards. A bit
  mask is a remainder modulo a power of two there.

## Where a law needs a condition

* A profiler count has 32 bits and is not written out when it is full. Written plus live counts equal the
  ticks of a trace if and only if its count was never raised from 4294967295
  (`Profiler.ProfileData.TicksConserved`); `HandleTick` says which ticks do that, in terms of the state
  before the call. With a single item no tick does, as every tick writes that item out first; with two or
  more `Profiler.CountStartsAgain` is a run from a new cache after which 4294967296 ticks are gone.
* Free blocks merge across the border of two segments that touch, but a new segment is not merged with a
  free neighbour. So over any run free blocks are adjacent at most where a segment begins
  (`BlockRuns.RunOk`), and once nothing is allocated every free block is a union of whole segments
  (`BlockRuns.AllReleased`). If no two segments touch it is exactly one block for each, and the free list
  depends only on what is allocated (`BlockRuns.FreeListDetermined`). If two touch, both depend on the
  order of calls: `BlockRuns.OrderMatters` has two runs that end differently over the same segments. One
  block for each segment is left if and only if no block goes past a border, and a release makes such a
  block exactly when it meets a free neighbour at a border, or was one (`BlockRuns.FreedUnspanned`). So
  in a run no block ever goes past a border if and only if no release meets a free neighbour at one
  (`BlockRuns.RunUnspanned`), and such a run, once nothing is allocated, leaves one block for each segment
  (`BlockRuns.OneBlockEach`).
* A request of no bytes takes the smallest free block out of the free containers and enters a block of no
  bytes among the allocated ones: its bytes are lost. `JitAllocator.JitAllocator.Alloc` keeps the
  invariant if and only if the size is not 0, or there is no memory at all.
* The canary of a branch table is written after the table, so a body that ends with one, and is invalid
  for want of an `end`, is refused there and not later. No valid body is refused for it
  (`Parser.BodyParser.Table`).

## Model

| member | source | states |
|---|---|---|
| Tracker.OperandStackTypeTracker.constructor | include/eosio/vm/parser.hpp:760-766 | a fresh tracker is the flat form of one empty, reachable scope at depth 0 |
| Tracker.OperandStackTypeTracker.Push | include/eosio/vm/parser.hpp:768-777 | the flat vector, the running depth and the maximum move exactly as the segment-wise algorithm pushes, and the call is refused exactly at the 32-bit limit |
| Tracker.OperandStackTypeTracker.Pop | include/eosio/vm/parser.hpp:778-788 | refuses exactly the pops the algorithm refuses, and below an unreachable marker leaves everything in place |
| Tracker.OperandStackTypeTracker.PopAny | include/eosio/vm/parser.hpp:789-800 | pops an operand of any type; gives the unknown type below an unreachable marker and refuses at a scope marker |
| Tracker.OperandStackTypeTracker.Constrain | include/eosio/vm/parser.hpp:801-805 | pop and push back of the same type, which turns an unknown operand into a known one |
| Tracker.OperandStackTypeTracker.MarkUnreachable | include/eosio/vm/parser.hpp:806-814 | the loop over the flat vector discards exactly the innermost scope's operands and subtracts exactly their number |
| Tracker.OperandStackTypeTracker.EnterScope | include/eosio/vm/parser.hpp:815-817 | a marker on the flat vector is a new empty segment |
| Tracker.OperandStackTypeTracker.LeaveScope | include/eosio/vm/parser.hpp:818-830 | succeeds exactly when the scope holds its result and nothing else, and moves the result outside |
| Tracker.OperandStackTypeTracker.PopParams | include/eosio/vm/parser.hpp:1060-1061 | popping the parameters last to first, with its loop, is popping the whole list |
| Tracker.OperandStackTypeTracker.DepthCounts | include/eosio/vm/parser.hpp:763-764 | `operand_depth` equals the number of entries of `state` that are not markers, at all times |
| Tracker.DepthIsUntagged | include/eosio/vm/parser.hpp:763-830 | the same for any operands in flat form, with nested unreachable scopes |
| Typing.AcceptedIsWellTyped | include/eosio/vm/parser.hpp:869-1110 | every accepted body is well typed under the declarative rules of section 3.3 of the WebAssembly Core Specification 2.0, which have a table of instruction types of their own, with any operands below unreachable points |
| Completeness.AcceptedExactly | include/eosio/vm/parser.hpp:869-1110 | the single pass is exact: a body of fewer than 2^31 - 1 instructions is accepted if and only if it is structured and well typed by the declarative table, where only a mutable global may be set, and has fewer than 2^32 locals |
| Completeness.WellTypedIsAccepted | include/eosio/vm/parser.hpp:869-1110 | a structured, well typed body of any length is accepted if its operand depth stays below 2^31 - 1 |
| Completeness.CodePasses | include/eosio/vm/parser.hpp:927-1110 | well typed code passes from any tracked stack that fits, and leaves one that fits |
| Completeness.DepthBelow | include/eosio/vm/parser.hpp:768-830 | the operand depth before instruction n is at most n |
| Typing.CodeTyped | include/eosio/vm/parser.hpp:927-1110 | typing of any balanced stretch of tokens, backwards from any stack the tracker allows after it |
| Constants.AcceptedGlobals | include/eosio/vm/parser.hpp:1110-1121 | an accepted body names no global that does not exist and sets none that is immutable, at any position, unreachable code included |
| Constants.MutableIsSettable | include/eosio/vm/parser.hpp:1115-1121 | and a mutable one may be set: only the operand decides then |
| Constants.ConstantsStay | include/eosio/vm/interpret_visitor.hpp:126-130 | at every state a run reaches, and when it exits, each immutable global has the value it had at entry, given a host that leaves such globals alone |
| Nesting.AcceptedIsStructured | include/eosio/vm/parser.hpp:936-1012 | the tokens of an accepted body are nested block, loop, if and else instructions and the final end |
| Nesting.BalancedInstr | include/eosio/vm/parser.hpp:952-1012 | a whole structured instruction leaves the open scopes as they were, and its end is the one of its own scope |
| Scopes.ScopesOk | include/eosio/vm/parser.hpp:907-1012 | what every open scope says about its opener, its kind, its result and its own else and end, at every point of the parse |
| Locals.LocalTypesTable.Build | include/eosio/vm/parser.hpp:841-851 | fails exactly when there are more locals than a 32-bit index can name |
| Locals.LocalTypesTable.UpperBound | include/eosio/vm/parser.hpp:854 | binary search for the first running total past the index |
| Locals.LocalTypesTable.TypeAt | include/eosio/vm/parser.hpp:852-859 | lookup in run-length form, as the parser uses it, agrees with the expanded list of types, entries of length zero included |
| Locals.LocalTypesTable.LocalsCount | include/eosio/vm/parser.hpp:860-863 | the number of declared locals |
| Parser.BodyParser.ParseFunctionBodyCode | include/eosio/vm/parser.hpp:869-1110 | accepts exactly the bodies the validation algorithm accepts, and leaves exactly the flat code their structure calls for, every branch target patched |
| Parser.BodyParser.Straight | include/eosio/vm/parser.hpp:1056-1110 | one instruction without control transfer: refused exactly when the algorithm refuses it (Constants.AcceptedGlobals says when it sets a global), else the whole parser invariant is kept |
| Parser.BodyParser.EnterBlock | include/eosio/vm/parser.hpp:952-995 | block, loop and if: the control stack element, the scope and for an if the waiting branch |
| Parser.BodyParser.ElseBranch | include/eosio/vm/parser.hpp:996-1012 | else: the if is patched past it, and its slot on the list becomes the slot of the else |
| Parser.BodyParser.ExitScope | include/eosio/vm/parser.hpp:907-920 | end: every branch that waits on the scope is patched to here, and none that waits on another |
| Parser.BodyParser.DepthChangeOf | include/eosio/vm/parser.hpp:896-904 | the operand count is encoded from the depths before the label type is constrained |
| Parser.BodyParser.HandleBranchTarget | include/eosio/vm/parser.hpp:884-890 | a backward target is written at once, a forward one joins the list of its label |
| Parser.BodyParser.Branch | include/eosio/vm/parser.hpp:1013-1028 | br, br_if and return keep the parser invariant or are refused exactly when invalid |
| Parser.BodyParser.TableCases | include/eosio/vm/parser.hpp:1036-1053 | all labels of a br_table are checked one after the other against one constrained stack, and must have one type |
| Parser.BodyParser.Table | include/eosio/vm/parser.hpp:1029-1055 | a br_table keeps the parser invariant, and no valid body is refused for want of room after the table |
| Parser.BranchTypes | include/eosio/vm/parser.hpp:896-904 | what the parser computes for a label from its control stack is what the algorithm computes from its scopes |
| Writer.BitcodeWriter.EmitIf | include/eosio/vm/bitcode_writer.hpp:37-40 | appends the opcode in place and hands out its slot |
| Writer.BitcodeWriter.EmitElse | include/eosio/vm/bitcode_writer.hpp:41-45 | appends the else and patches the waiting if to the opcode after it, through its address |
| Writer.BitcodeWriter.EmitBrTable | include/eosio/vm/bitcode_writer.hpp:60-74 | reserves the table slots after the opcode; the mark behind them is in bounds exactly when a byte of the body is left |
| Writer.BitcodeWriter.EmitCase | include/eosio/vm/bitcode_writer.hpp:75-79 | fills in the operand count of one entry and hands out the address of its target |
| Writer.BitcodeWriter.FixBranch | include/eosio/vm/bitcode_writer.hpp:366 | writes one target, relative to the functions before, and nothing else |
| Writer.BitcodeWriter.FixAll | include/eosio/vm/parser.hpp:914-916 | patches every slot of a relocation list, whatever its order |
| Writer.WidthFits | include/eosio/vm/bitcode_writer.hpp:29-92 | no instruction becomes more opcodes than it has source bytes, for elements of at least 8 bytes |
| Writer.TableFits | include/eosio/vm/bitcode_writer.hpp:64-69 | all entries of a branch table, the default included, lie in the slots reserved for them |
| Writer.CodeFits | include/eosio/vm/bitcode_writer.hpp:367-371 | opcodes emitted between any two points of a body never exceed the bytes consumed between them |
| Relocation.PatchAllEffect | include/eosio/vm/bitcode_writer.hpp:366 | patching a list changes the targets of its slots and of no other |
| Relocation.Advance | include/eosio/vm/parser.hpp:927-1110 | an instruction that stays in its scope keeps the relocation invariant: every known target is written, every other waits in the list of its own label and in no other |
| Relocation.AddSlot | include/eosio/vm/parser.hpp:884-890 | so does recording one more branch target |
| Relocation.ResolvedByClose | include/eosio/vm/parser.hpp:907-920 | at an else or end exactly the targets that wait on that scope become known |
| Patched.AllResolved | include/eosio/vm/parser.hpp:907-920 | when the last scope is closed no branch target waits any more |
| Patched.Complete | include/eosio/vm/parser.hpp:884-920 | so the patched code is, opcode by opcode, the code the structure calls for |
| BranchTargets.OpcodeAt | include/eosio/vm/bitcode_writer.hpp:60-74 | at the address of every instruction, and at the end of the body, stands an opcode that may be dispatched, never branch table data |
| BranchTargets.TargetsLand | include/eosio/vm/bitcode_writer.hpp:37-92 | every target of a finished function lies inside that function and on such an opcode |
| BranchTargets.TargetIsContinuation | include/eosio/vm/parser.hpp:884-920 | the target of every br, br_if, return and br_table entry is the start of its loop, or the end at which its own label is the innermost scope |
| BranchTargets.IfTargetIs | include/eosio/vm/parser.hpp:980-1012 | an untaken if goes past its own else, or to its own end |
| BranchTargets.ElseTargetIs | include/eosio/vm/bitcode_writer.hpp:41-45 | the end of a then part jumps to the end of the same if |
| ModuleWriter.EmitPrologue | include/eosio/vm/bitcode_writer.hpp:367-371 | one opcode of room for each source byte, at the end of the code so far, or refused exactly when the arena has not that much |
| ModuleWriter.EmitEpilogue | include/eosio/vm/bitcode_writer.hpp:372-388 | the return opcode ends the function, and the rest of its memory goes back so that the next function follows without a gap |
| ModuleWriter.Resize | include/eosio/vm/vector.hpp:26-33 | shrinking keeps the data in place; growing moves to a block past all code written so far and copies nothing; callers are shown never to grow |
| ModuleWriter.BodyNotFull | include/eosio/vm/bitcode_writer.hpp:372-373 | an accepted body leaves room for its return opcode |
| ModuleWriter.WriteFunction | include/eosio/vm/parser.hpp:1993-2001 | one function: too many locals, out of memory, rejected, or its finished code appended with all earlier code untouched, and its operand depth plus declared locals |
| ModuleWriter.CompileBody | include/eosio/vm/parser.hpp:1855-1861 | the body between prologue and epilogue, and what it adds to `maximum_stack` |
| ModuleWriter.WriteCodeOut | include/eosio/vm/parser.hpp:1989-2004 | function i starts at the sum of the sizes before it, the code is contiguous, `maximum_stack` is the largest of all functions, and each way to fail has its exact cause |
| ModuleWriter.FunctionAt | include/eosio/vm/bitcode_writer.hpp:381-388 | the code of each function stands at its base with its branch targets relative to that base |
| Arena.GrowableAllocator.Alloc | include/eosio/vm/allocator.hpp:335-352 | aligned memory at the end of the arena, or refused exactly when the sum of its start and its size is past the capacity, which the overflow-free test decides |
| Arena.GrowableAllocator.Reclaim | include/eosio/vm/allocator.hpp:395-401 | memory goes back exactly when it is the end of the last allocation |
| Pipeline.StructuredBodies | include/eosio/vm/parser.hpp:1989-2004 | every accepted module is a program of the structured semantics |
| Pipeline.Load | include/eosio/vm/parser.hpp:1989-2004 | whatever is written out is an image the theorems about running code apply to, for any host and any budget |
| Correctness.StepSimulated | include/eosio/vm/execution_context.hpp:1053-1110 | each step of the structured semantics is one dispatch of the machine or none, and never goes wrong |
| Correctness.RunSimulated | include/eosio/vm/execution_context.hpp:1053-1110 | a structured run that halts is matched by the machine |
| Correctness.RunReflected | include/eosio/vm/execution_context.hpp:1053-1110 | a machine run that halts comes from a structured run that halts |
| Correctness.CompilationPreservesMeaning | include/eosio/vm/parser.hpp:869-1110 | for every accepted module, function, arguments, store and prior stacks, the machine on the flat code ends with a given result, trap or exit if and only if the structured semantics does |
| Correctness.DivergencePreserved | include/eosio/vm/parser.hpp:869-1110 | one side runs forever if and only if the other does |
| Correctness.NeverStuck | include/eosio/vm/interpret_visitor.hpp:46-130 | the interpreter, which checks nothing, never misses or misreads an operand, leaves the code or dispatches table data |
| FrameOps.BranchFacts | include/eosio/vm/parser.hpp:896-904 | for a branch in reachable code the encoded count is the height above the label's entry, and the result is on top when the label takes one |
| Simulation.JumpUnwinds | include/eosio/vm/execution_context.hpp:995-1004 | `jump` with that count leaves exactly the operands below the label, and on top the unchanged result if the label takes one |
| Simulation.SimBranch | include/eosio/vm/interpret_visitor.hpp:65 | br and return reach the continuation of their label |
| Simulation.SimBrIf | include/eosio/vm/interpret_visitor.hpp:66-73 | br_if, taken or not |
| Simulation.SimBrTable | include/eosio/vm/interpret_visitor.hpp:78-83 | br_table: the entry at the index, or the default for an index past the end |
| Simulation.SimIf | include/eosio/vm/interpret_visitor.hpp:57-63 | if: into its first part, or to the place the parser patched in |
| Simulation.SimExit | include/eosio/vm/interpret_visitor.hpp:64 | leaving a scope takes no opcode, or the jump of the else |
| Effects.EqzDoes | include/eosio/vm/interpret_visitor.hpp:285-289 | i32.eqz turns x into 1 if x is 0 and else into 0, in both semantics and with all else unchanged |
| Effects.LtUDoes | include/eosio/vm/interpret_visitor.hpp:308-313 | i32.lt_u turns x and y into 1 if x is below y and else into 0 |
| Effects.AddDoes | include/eosio/vm/interpret_visitor.hpp:541-545 | i32.add gives the sum, or the sum less 2^32 |
| Effects.RemUDoes | include/eosio/vm/interpret_visitor.hpp:585-590 | i32.rem_u gives what is left below y of x when a multiple of y is taken off, and traps for 0 |
| Effects.WrapDoes | include/eosio/vm/interpret_visitor.hpp:1062-1066 | i32.wrap gives a number below 2^32 that differs by a multiple of 2^32 |
| Effects.ExtendDoes | include/eosio/vm/interpret_visitor.hpp:1128-1132 | i64.extend_i32_u keeps the number |
| Effects.GlobalGetDoes | include/eosio/vm/interpret_visitor.hpp:121-125 | global.get pushes the value of that global |
| Effects.GlobalSetDoes | include/eosio/vm/interpret_visitor.hpp:126-130 | global.set puts the operand into that global and changes no other |
| Effects.LoadDoes | include/eosio/vm/interpret_visitor.hpp:151-155 | i32.load8_u pushes the byte at address plus offset, which do not wrap, and traps past the end |
| Effects.StoreDoes | include/eosio/vm/interpret_visitor.hpp:212-216 | i32.store8 puts the low byte of the operand there, changes no other byte, and traps past the end |
| Effects.SelectEffect | include/eosio/vm/interpret_visitor.hpp:99-106 | select takes the lower operand exactly when the condition is not 0 |
| Effects.LocalGetEffect | include/eosio/vm/interpret_visitor.hpp:107-110 | local.get pushes the slot i places above the frame base, or local i of the frame |
| Effects.LocalWriteEffect | include/eosio/vm/interpret_visitor.hpp:111-120 | local.set and local.tee change that local and no other slot |
| Effects.BrIfEffect | include/eosio/vm/interpret_visitor.hpp:66-77 | br_if goes on for 0 and else does what br does with the operands below |
| Effects.BrTableEffect | include/eosio/vm/interpret_visitor.hpp:78-83 | br_table does what br with the entry at the index does, or with the default past the table |
| Effects.IfEffect | include/eosio/vm/interpret_visitor.hpp:57-61 | if runs its first part for every condition but 0 |
| Effects.RemainderIsBelow | include/eosio/vm/interpret_visitor.hpp:585-590 | rem_u, const y, lt_u leaves 1 for every x and every y but 0 |
| Effects.WrapUndoesExtend | include/eosio/vm/interpret_visitor.hpp:1128-1132 | wrap after extend is the identity |
| Effects.LoadAfterStore | include/eosio/vm/interpret_visitor.hpp:212-216 | a load after a store at the same address gives the low byte stored |
| Effects.GetAfterSet | include/eosio/vm/interpret_visitor.hpp:126-130 | global.get after global.set gives the value set |
| Calls.SimWasmCall | include/eosio/vm/execution_context.hpp:751-757 | a call lays the callee's frame over the arguments, or traps exactly when the budget does not allow its frame |
| Entries.ActivationHolds | include/eosio/vm/execution_context.hpp:1028-1041 | in the structured semantics a frame begins with the arguments in order and then the i32, i64, f32 or f64 number 0 for each declared local |
| Entries.CallHolds | include/eosio/vm/execution_context.hpp:751-757 | in the interpreter the arguments stay where they are, the frame base moves below them, and each declared local's slot holds the number 0 of its type |
| Entries.HostCallHolds | include/eosio/vm/execution_context.hpp:737-750 | a host function gets the top operands as arguments in order; its result is pushed with the bits it returned, the low ones in a 32-bit type |
| Entries.HostCallMeans | include/eosio/vm/execution_context.hpp:737-750 | the same in the structured semantics |
| Calls.SimHostCall | include/eosio/vm/execution_context.hpp:737-750 | a host call takes its parameters, leaves its declared result and gives its budget back; it may also trap or exit |
| Calls.SimReturn | include/eosio/vm/execution_context.hpp:802-813 | a return drops the locals, keeps the result, and resumes the caller with its program counter, frame base and budget |
| Calls.SimLastReturn | include/eosio/vm/execution_context.hpp:802-813 | the outermost return reaches the halt opcode with the result on top of what was there before |
| Soundness.StackSound | include/eosio/vm/execution_context.hpp:787-800 | at every reachable state the stack height is frame base plus parameters and locals plus the depth recorded for that program counter, and the locals have their types |
| Depths.RecordedIsTracked | include/eosio/vm/parser.hpp:768-800 | the recorded depth is the tracker's own wherever the code before is reachable |
| Depths.DepthBounded | include/eosio/vm/parser.hpp:768-777 | `maximum_operand_depth` bounds the depth before every instruction |
| Depths.FrameHeight | include/eosio/vm/parser.hpp:806-814 | a running frame holds as many operands as recorded, and is never at a point the tracker holds unreachable |
| Soundness.CalleeLeavesCaller | include/eosio/vm/execution_context.hpp:787-813 | until a frame returns nothing below its base changes; then its caller finds program counter, frame base, budget, locals and operands as they were, arguments replaced by the result |
| Soundness.FrameIsolated | include/eosio/vm/execution_context.hpp:787-813 | the same for any frame, its callees included, by induction over the run |
| Soundness.BudgetConserved | include/eosio/vm/types.hpp:251-259 | remaining depth plus the frame sizes of exactly the functions whose frames are open is constant during an execute, in either unit of the limit |
| Soundness.ResourceBound | include/eosio/vm/parser.hpp:1860 | with d frames open the operand stack never exceeds the entry arguments plus d times `maximum_stack` |
| Limits.FramesCounted | include/eosio/vm/types.hpp:251-259 | with a limit counted in calls, frames open and calls left add up to the limit at every reachable state, so there are never more frames than the limit |
| Limits.BytesCounted | include/eosio/vm/types.hpp:251-259 | with a limit counted in bytes, the stack sizes of the functions whose frames are open and the bytes left add up to the limit |
| Limits.CallRefused | include/eosio/vm/execution_context.hpp:737-757 | a reachable call traps for want of budget exactly when as many frames are open as the limit allows, or the callee needs more bytes than are left; a host function takes a frame but no bytes |
| Limits.MemoryNeeded | include/eosio/vm/bitcode_writer.hpp:367-371 | there is memory for a function exactly when one opcode for each byte of its body fits behind the code before it |
| Limits.FuncStackReached | include/eosio/vm/parser.hpp:771-772 | the maximum of a function is no overestimate: some point of its body has so many operands, or one less where a branch is checked below an unreachable point |
| Limits.MaximumReached | include/eosio/vm/parser.hpp:1860 | `maximum_stack` is that of some function, and 0 without any |
| Soundness.MaximumStackIs | include/eosio/vm/parser.hpp:1860 | `maximum_stack` bounds what each function adds |
| Stack.Stack.Push | include/eosio/vm/wasm_stack.hpp:32-38 | appends, after doubling the vector if it is full |
| Stack.Stack.Pop | include/eosio/vm/wasm_stack.hpp:40 | takes the top off |
| Stack.Stack.Get | include/eosio/vm/wasm_stack.hpp:42-45 | the check lets the slot just above the top through, with whatever it holds |
| Stack.Stack.Set | include/eosio/vm/wasm_stack.hpp:46-49 | overwrites one operand in place; the same check |
| Stack.Stack.Eat | include/eosio/vm/wasm_stack.hpp:50 | drops everything from an index on |
| Stack.Stack.Compact | include/eosio/vm/wasm_stack.hpp:52-55 | moves the top down and drops what lay between |
| ExecutionContext.ExecutionContext.DoJump | include/eosio/vm/execution_context.hpp:995-1004 | pop, eat and push on the shared stack do what the machine's jump does |
| ExecutionContext.ExecutionContext.LeaveLocals | include/eosio/vm/execution_context.hpp:806-809 | compact or eat leaves exactly the caller's operands and the result |
| ExecutionContext.ExecutionContext.DoApplyPopCall | include/eosio/vm/execution_context.hpp:802-813 | pc, frame base, both stacks and the budget after a return |
| ExecutionContext.ExecutionContext.OpenFrame | include/eosio/vm/execution_context.hpp:786-800 | refused exactly when the frame is over budget; otherwise the arguments become locals where they are |
| ExecutionContext.ExecutionContext.SetupLocals | include/eosio/vm/execution_context.hpp:1028-1041 | the two loops push, for each declared local, the i32, i64, f32 or f64 number 0 as its type says, and nothing below changes |
| ExecutionContext.ExecutionContext.CallFunction | include/eosio/vm/execution_context.hpp:751-757 | a Wasm call, or a trap with nothing changed |
| ExecutionContext.ExecutionContext.CallHost | include/eosio/vm/execution_context.hpp:739-750 | a host call that returns, throws or exits |
| ExecutionContext.ExecutionContext.DoBranch | include/eosio/vm/interpret_visitor.hpp:57-83 | if, else, br, br_if and br_table on the real stack |
| ExecutionContext.ExecutionContext.DoLocal | include/eosio/vm/interpret_visitor.hpp:107-120 | reads and writes of locals through the frame base |
| ExecutionContext.ExecutionContext.DoParametric | include/eosio/vm/interpret_visitor.hpp:95-106 | drop, and select writing through the top in place |
| ExecutionContext.ExecutionContext.DoPlain | include/eosio/vm/interpret_visitor.hpp:121-160 | operand, global and memory instructions on the real stack do what the step function does, whose effects on written-out operands are those of Effects |
| ExecutionContext.ExecutionContext.UpdateOperands | include/eosio/vm/interpret_visitor.hpp:2583-2595 | the three operands of a bulk instruction that runs again are overwritten where they are |
| ExecutionContext.ExecutionContext.Step | include/eosio/vm/execution_context.hpp:1043-1047 | one dispatch |
| ExecutionContext.ExecutionContext.Run | include/eosio/vm/execution_context.hpp:1053-1110 | dispatching until the halt opcode, a throw or an interruption is the machine's run of as many steps |
| ExecutionContext.ExecutionContext.Enter | include/eosio/vm/execution_context.hpp:974-982 | pushes the arguments and opens the first frame, with the halt opcode to return to |
| ExecutionContext.ExecutionContext.Cleanup | include/eosio/vm/execution_context.hpp:964-972 | cuts both stacks back and restores every register |
| ExecutionContext.ExecutionContext.Execute | include/eosio/vm/execution_context.hpp:949-993 | for any function index, imports and unknown ones included, from any state of the context, nested calls included: however it ends, all of the context but the store is as before, and the answer is that of the structured semantics or of the host function |
| ExecutionContext.ExecutionContext.RunFunction | include/eosio/vm/execution_context.hpp:981-985 | a function of the module: over budget, or what the structured semantics says |
| ExecutionContext.ExecutionContext.RunImport | include/eosio/vm/execution_context.hpp:975-979 | an imported function: over budget, or the host function on a frame of its own, its result taken off the stack |
| ExecutionContext.OriginIntact | include/eosio/vm/execution_context.hpp:964-972 | no run changes what lay on the stacks when execute began, so cutting back restores it |
| ExecutionContext.Ending | include/eosio/vm/execution_context.hpp:983-992 | however the run ended, the answer given out means what it should |
| ExecutionContext.ResultsTyped | include/eosio/vm/execution_context.hpp:988-989 | a function that finishes gives a result of its declared type and leaves globals of their declared types |
| JitAllocator.JitAllocator.RoundToPage | include/eosio/vm/allocator.hpp:280-283 | the least multiple of the page size that is large enough |
| JitAllocator.JitAllocator.LowerBound | include/eosio/vm/allocator.hpp:136 | the smallest free block that fits, the lowest of those |
| JitAllocator.JitAllocator.AllocateSegment | include/eosio/vm/allocator.hpp:230-247 | a fresh mapping is one new free block |
| JitAllocator.JitAllocator.SplitBlock | include/eosio/vm/allocator.hpp:249-261 | address map and size set after a split, also of a block at no bytes, where the rest is erased again |
| JitAllocator.JitAllocator.FindBlock | include/eosio/vm/allocator.hpp:136-139 | best fit, a new segment only if nothing fits, or failure only if the system has no memory |
| JitAllocator.JitAllocator.TakeBlock | include/eosio/vm/allocator.hpp:140-145 | the low end of the block passes to the allocated containers, which agree afterwards |
| JitAllocator.JitAllocator.Alloc | include/eosio/vm/allocator.hpp:133-146 | best fit of exactly the rounded size, or a new segment, or nothing changed, as a step of the runs below; a request of no bytes loses the smallest block, and only that breaks the partition |
| JitAllocator.JitAllocator.MaybeConsolidateBlocks | include/eosio/vm/allocator.hpp:263-278 | merges exactly when the blocks touch, and keeps both orderings in step |
| JitAllocator.JitAllocator.Free | include/eosio/vm/allocator.hpp:148-164 | exactly the bytes of the block become free, exactly that block is no longer allocated, the whole new free list, and no two adjacent free blocks if there were none or no two segments touch |
| JitAllocator.JitAllocator.AllReleased | include/eosio/vm/allocator.hpp:148-164 | with nothing allocated every free block is a union of whole segments, one for each exactly when none goes past a border, and always so when no two segments touch |
| JitAllocator.JitAllocator.Conserved | include/eosio/vm/allocator.hpp:210-214 | free and allocated bytes are disjoint and add up to the size of all segments, at all times |
| Blocks.SplitKeeps | include/eosio/vm/allocator.hpp:249-261 | a split moves no byte |
| Blocks.MergeKeeps | include/eosio/vm/allocator.hpp:263-278 | nor does a merge |
| Blocks.ConsistentSplit | include/eosio/vm/allocator.hpp:249-261 | address maps and size sets describe the same blocks after a split |
| Blocks.ConsistentMerge | include/eosio/vm/allocator.hpp:263-278 | and after a merge |
| Blocks.CoalescedUnique | include/eosio/vm/allocator.hpp:148-164 | a free list without adjacent blocks is determined by the bytes it covers |
| BlockRuns.TakeJoined | include/eosio/vm/allocator.hpp:140-145 | allocation makes no two free blocks adjacent that were not |
| BlockRuns.SegmentJoined | include/eosio/vm/allocator.hpp:230-247 | a new segment meets a free block only where a segment begins |
| BlockRuns.FreedJoined | include/eosio/vm/allocator.hpp:153-163 | a release leaves no two adjacent free blocks except where a segment begins |
| BlockRuns.FreedCovers | include/eosio/vm/allocator.hpp:148-164 | and frees exactly the bytes of the block |
| BlockRuns.FreedUnspanned | include/eosio/vm/allocator.hpp:263-278 | a release makes a block that goes past a segment border exactly when the released block does, or meets a free neighbour at one |
| BlockRuns.AllocationIs | include/eosio/vm/allocator.hpp:133-146 | an allocation in full: the size rounded up to a page comes off the low end of the smallest block it fits in, the lowest such, or off a new segment of 2^30 bytes or of just the size if that is more |
| BlockRuns.RunOk | include/eosio/vm/allocator.hpp:133-164 | after every call of every sequence of calls: blocks partition the segments, and free blocks are adjacent at most where a segment begins |
| BlockRuns.AllReleased | include/eosio/vm/allocator.hpp:148-164 | after any sequence that leaves nothing allocated, in any order: whole segments are free, all their bytes, and exactly one block per segment if no two touch |
| BlockRuns.OnePerSegment | include/eosio/vm/allocator.hpp:148-164 | one block per segment, if and only if no block goes past a border; no two segments touching is enough |
| BlockRuns.ApartCoalesced | include/eosio/vm/allocator.hpp:148-164 | where no two segments touch no two free blocks are ever adjacent |
| BlockRuns.FreeListDetermined | include/eosio/vm/allocator.hpp:148-164 | where no two segments touch the free list depends on what is allocated now and not on the order of past calls |
| BlockRuns.RunUnspanned | include/eosio/vm/allocator.hpp:133-164 | over a whole run no block ever goes past a segment border if and only if no release meets a free neighbour at one |
| BlockRuns.OneBlockEach | include/eosio/vm/allocator.hpp:133-164 | and such a run, once nothing is allocated, ends with exactly one free block for each segment |
| BlockRuns.OrderMatters | include/eosio/vm/allocator.hpp:133-164 | two runs over the same two touching segments that end with nothing allocated, one with a block for each and one with a single block |
| BlockRuns.BytesConserved | include/eosio/vm/allocator.hpp:210-214 | free and allocated bytes are disjoint and add up to the size of all segments |
| BulkOps.CopyIsMemmove | include/eosio/vm/interpret_visitor.hpp:2568-2595 | repeated dispatches end, after one per element and one more, with memmove of the original contents for every overlap, or fault on the first with nothing written |
| BulkOps.CopyNeverFaultsLater | include/eosio/vm/interpret_visitor.hpp:2627-2653 | a copy once begun never faults and gets one element smaller each dispatch |
| BulkOps.FillIsRangeFill | include/eosio/vm/interpret_visitor.hpp:2596-2615 | the same for fill and a range fill |
| BulkOps.BulkContext.ValidatePointer | include/eosio/vm/execution_interface.hpp:23-35 | the probe of the last byte is the bounds check of the range, and lets an empty range at the end through |
| BulkOps.BulkContext.Copy | include/eosio/vm/interpret_visitor.hpp:2627-2653 | one dispatch, with the operands as loop variables in place on the stack |
| BulkOps.BulkContext.Fill | include/eosio/vm/interpret_visitor.hpp:2596-2615 | one dispatch of fill |
| BulkSteps.SourceBulk | include/eosio/vm/interpret_visitor.hpp:2568-2653 | in the structured semantics a bulk instruction takes one step for each element and one more, and then the whole range is moved or filled and control goes on behind it; a range that does not fit aborts at once with nothing written |
| BulkSteps.MachineBulk | include/eosio/vm/interpret_visitor.hpp:2568-2653 | as many dispatches of one opcode with its operands in place on the stack do the same, and the program counter moves with the last |
| BulkSteps.BulkWrites | include/eosio/vm/interpret_visitor.hpp:2568-2653 | what a whole copy or fill leaves at every address: the byte from the source range as it was, or the low byte of the operand, and elsewhere the old one; refused exactly when a range passes the end |
| BulkSteps.BulkEvaluates | include/eosio/vm/interpret_visitor.hpp:2568-2653 | the repeated evaluation both share: it goes on for as many elements as there are, never faults in between, and ends with memmove or a range fill of the store |
| Lists.MruList.constructor | include/eosio/vm/profile.hpp:36-44 | the links set up one by one make one circle through all items |
| Lists.MruList.Unlink | include/eosio/vm/profile.hpp:98-101 | two link writes take a node out of the circle |
| Lists.MruList.LinkFirst | include/eosio/vm/profile.hpp:166-169 | four link writes put it behind the header |
| Lists.MruList.MoveToHead | include/eosio/vm/profile.hpp:164-170 | both together are a move to the front, also when the item is the first or the last already |
| Lists.Chains.Prepend | include/eosio/vm/profile.hpp:184-187 | a new head of one chain, all other chains untouched |
| Lists.Chains.Remove | include/eosio/vm/profile.hpp:152-157 | the walk finds the link to the item and takes the item out |
| Profiler.ProfileData.TracesEqual | include/eosio/vm/profile.hpp:133-143 | the loop decides equality of traces |
| Profiler.ProfileData.EvictOldest | include/eosio/vm/profile.hpp:149-162 | the least recently used item becomes free; it is written out exactly when it is in use, and then every item is |
| Profiler.ProfileData.FindTrace | include/eosio/vm/profile.hpp:176-182 | finds the item with the same trace if its chain has one |
| Profiler.ProfileData.Count | include/eosio/vm/profile.hpp:178-181 | one more tick of a known trace: its 32-bit count, its place in the list, and nothing else |
| Profiler.ProfileData.Insert | include/eosio/vm/profile.hpp:184-188 | a new trace enters its chain with count 1 and the front of the list |
| Profiler.ProfileData.InsertHash | include/eosio/vm/profile.hpp:174-189 | which of the two happens is decided by whether any item holds the trace |
| Profiler.ProfileData.Translate | include/eosio/vm/profile.hpp:205-215 | the result is the first 251 addresses that lie in the module, in order, each but the first raised by one |
| Profiler.ProfileData.HandleTick | include/eosio/vm/profile.hpp:202-223 | the tick counted is that trace, or none if no address lies in the module; the record that leaves, the count the trace has afterwards, and exactly when that count starts again at 0; with one item it never does |
| Profiler.ProfileData.FlushHash | include/eosio/vm/profile.hpp:191-199 | after writing out everything the log alone accounts for every tick |
| Profiler.ProfileData.FlushBucket | include/eosio/vm/profile.hpp:193-197 | one chain, walked while its items are marked free |
| Profiler.ProfileData.TicksConserved | include/eosio/vm/profile.hpp:149-223 | for each trace, written counts plus live count equal its ticks, if and only if its count never passed 4294967295 without a record |
| Profiler.CountStartsAgain | include/eosio/vm/profile.hpp:179 | from a new cache for two traces or more, 4294967296 ticks of one trace: nothing was written and the table has count 0 for it |
| Timeout.AlwaysSafe | include/eosio/vm/backend.hpp:340-366 | the safety invariant holds after every schedule of any number of threads, their timers and faults |
| Timeout.DisabledOnlyByTimeout | include/eosio/vm/backend.hpp:347-357 | code pages are disabled only while a run whose own timer fired has not enabled them again |
| Timeout.FaultNeedsOwnTimer | include/eosio/vm/signals.hpp:51-61 | a fault on a code page takes a thread out of its code only if its own timer fired; otherwise it retries |
| Timeout.FaultEffect | include/eosio/vm/signals.hpp:51-66 | in running code an access in the memory's range leaves the code, one on disabled code pages leaves it exactly when the thread's own timer has set the flag since the run began and is retried otherwise, and no other is handled |
| Timeout.FaultSurfacesAsTimeout | include/eosio/vm/backend.hpp:359-365 | a run left by a fault on a code page ends as timeout_exception, and any run ends so if and only if its own timer expired and a fault or a failed check ended its code |
| Timeout.OutcomeOfRun | include/eosio/vm/backend.hpp:340-366 | over every schedule: a run whose code finished ends with exactly what it finished with; one left by a fault or a failed check ends with timeout_exception if its timer had expired, else with wasm_memory_exception; left and expired are read off the schedule |
| Timeout.CodeFollowsSwitches | include/eosio/vm/backend.hpp:347-357 | the code pages are executable unless the latest switch by any thread disabled them |
| Timeout.QuiescentIsClean | include/eosio/vm/backend.hpp:347-352 | when no run is active the code is enabled and every flag is clear |
| Timeout.CallbackCompletes | include/eosio/vm/watchdog.hpp:45-67 | the guard is not destroyed between the two writes of the callback, so the flag is read after both |
| Leb128.RoundTripU | include/eosio/vm/leb128.hpp:37-72 | decoding an encoded unsigned value, whatever follows, gives the value and its length |
| Leb128.RoundTripS | include/eosio/vm/leb128.hpp:133-196 | the same for signed values of any width |
| Leb128.ShortestU | include/eosio/vm/leb128.hpp:37-54 | no accepted sequence for a value is shorter than its encoding |
| Leb128.ShortestS | include/eosio/vm/leb128.hpp:179-196 | the same for signed values |
| Leb128.PrefixU | include/eosio/vm/leb128.hpp:56-72 | only the bytes used decide |
| Leb128.VarUint32.FromValue | include/eosio/vm/leb128.hpp:37-54 | the loop stores the shortest encoding |
| Leb128.VarUint32.FromCode | include/eosio/vm/leb128.hpp:56-72 | accepts exactly the sequences of section 5.2.2 of the WebAssembly Core Specification 2.0 and advances past exactly the bytes used |
| Leb128.VarUint32.To | include/eosio/vm/leb128.hpp:82-96 | the fold over the groups is the value; no shift loses a bit |
| Leb128.VarInt.FromValue | include/eosio/vm/leb128.hpp:178-196 | the signed encoder stores the shortest encoding |
| Leb128.VarInt.FromCode | include/eosio/vm/leb128.hpp:133-151 | accepts exactly the signed sequences of that section |
| Leb128.VarInt.To | include/eosio/vm/leb128.hpp:198-217 | the fold and the sign extension, modulo the width, are the value |
| Leb128.ExtendedIsValue | include/eosio/vm/leb128.hpp:207-216 | why: the raw groups modulo the width, extended from the last group unless all groups are there, are the value |
| Leb128.GuardedPtr.Advance | include/eosio/vm/guarded_ptr.hpp:16-20 | moves only within bounds |
| Leb128.GuardedPtr.Next | include/eosio/vm/guarded_ptr.hpp:28-48 | reads and moves one byte only within bounds |
| Leb128.GuardedPtr.ShrinkBounds | include/eosio/vm/guarded_ptr.hpp:65-71 | what may be read is cut to the next n bytes |
| Utf8.LengthIsEncoding | include/eosio/vm/parser.hpp:267-310 | what is accepted as a code point is the encoding of a Unicode scalar value |
| Utf8.EncodingIsAccepted | include/eosio/vm/parser.hpp:267-310 | every such encoding is accepted, whatever follows it |
| Utf8.AcceptedExactly | include/eosio/vm/parser.hpp:312-316 | a string is accepted if and only if it is a concatenation of encodings (section 4 of RFC 3629) |
| Utf8.ValidateCodePoint | include/eosio/vm/parser.hpp:267-310 | the branches read as many bytes as they say, from the pointer in place |
| Utf8.ValidateString | include/eosio/vm/parser.hpp:312-316 | the unsigned byte counter reaches zero exactly and never wraps |
| Utf8.ParseString | include/eosio/vm/parser.hpp:318-325 | length, bound check and contents; the bounds of the pointer are put back whatever happens |
| FloatRound.CeilExact | include/eosio/vm/softfloat.hpp:114-138 | f32 ceil of every finite input is the encoding of the mathematical ceiling with the sign of the input |
| FloatRound.FloorExact | include/eosio/vm/softfloat.hpp:141-164 | f32 floor likewise |
| FloatRound.TruncExact | include/eosio/vm/softfloat.hpp:364-381 | f32 and f64 trunc likewise |
| FloatRound.Raised | include/eosio/vm/softfloat.hpp:124-129 | adding the mask and clearing it goes to the next integer, also when the carry reaches the exponent |
| FloatRound.EncodingUnique | include/eosio/vm/softfloat.hpp:114-183 | value and sign determine the bits, so the results are these bits and no others |

## Left out

What the model does not cover:

- The x86-64 writer, the null writer, and all visitors for debugging, disassembly and dumps.
- SIMD, and all numeric instructions but those named above. They add cases and no new argument.
- `call_indirect`: equality of function types skips the return type when there is one
  (include/eosio/vm/types.hpp:49-55), so it needs a hypothesis that direct calls do not.
- Sections, imports, exports, element and data segments, names other than their UTF-8 check, and type
  aliases. A module is given by its imported types, its functions and its globals, and is taken to have
  the memory and the table its instructions need.
- Decoding of opcodes and immediates inside a body. A body is a list of instructions with byte lengths of
  at least what each needs; `Leb128` has the integer immediates.
- The switches for legacy behaviour (code after the end of a function, empty block types), which are off,
  and configured limits on nesting, branch table size and locals, which are not set.
- Byte accounting of the stack limit. The stack size of a function is any number; the budget theorems
  hold whatever it is.
- `memory.grow`, `memory.size`, and the guard pages: an access outside the memory is a trap at the
  instruction that makes it. Globals, memory and the entries of the table are one value that
  instructions replace; BulkOps.BulkContext is the form of the bulk instructions that writes in place.
- memory.init, table.init and the drop instructions of their segments.
- Host functions are any function from their arguments and the store to a result of the declared type and
  a new store whose globals have their declared types, a trap or an exit. Calls of `execute` they make
  are part of that function, not of the run they were called from; `Execute` covers each of those on its
  own.
- Growth of code memory while other vectors live in the same arena: the code is the last thing in it, as
  it is while function bodies are written.
- NaN propagation and infinities in rounding, f64 ceil and floor, the nearest functions, and everything
  that rests on the softfloat library.
- `varuint<1>`, `varuint<7>` and `varint<7>`, which are one byte without a loop.
- Liveness of timeouts, nested `timed_run` on one thread, and signals other than SIGSEGV and SIGBUS.
- Output buffering, write errors, header and trailer of the profile; the address map of the profiler,
  which is any function; its hash, which is any function of the trace, reduced to the table size by a
  remainder, which for a power of two is the mask of the source.

Contracts that are weaker, or assume more, than they might:

- ExecutionContext.ExecutionContext.Execute: stands for an asynchronous abort (a fault, a timeout) by
  stopping after any given number of dispatches, between two of them. The order of a failed budget check
  and a failed argument check is not told apart, as both throw.
- ExecutionContext.ExecutionContext.Step: when an instruction throws, operands it has popped by then are
  still there in the model. Nothing sees them, since `Execute` cuts the stacks back.
- Writer.BitcodeWriter.EmitBrTable: the entries of a branch table are kept in its opcode, and the slots
  they are laid over are marked as data; Writer.TableFits shows that they fit there.
- ModuleWriter.Resize: says nothing of the contents when it grows, as the source loses them; no caller
  grows.
- Completeness.AcceptedExactly: for longer bodies only Completeness.WellTypedIsAccepted, which asks that
  the operand depth stays below the limit, one less than the least that the parser refuses.
- JitAllocator.JitAllocator.Alloc: takes the base of a fresh mapping as a parameter, disjoint from all
  segments; sizes near the limit of size_t, where rounding up wraps, are not modelled.
- JitAllocator.JitAllocator.SplitBlock: the failure of a container to insert, which undoes the split, is
  not modelled.
- Depths.RecordedIsTracked: where the tracker has seen the code before an `end` or `else` to be
  unreachable its own depth may be less than the height at run time, which is that of the scope's result;
  the recorded depth is that height.
- Constants.ConstantsStay: a host function is handed the whole store, so that it leaves immutable globals
  alone is a hypothesis on it.
- Limits.FuncStackReached: the maximum may be reached in code that is never run, as the parser counts it
  there too.
- BulkOps.BulkContext.ValidatePointer: what lies just before the first byte of memory is readable.
- Timeout.AlwaysSafe: memory orders are not modelled; every access is a step of one interleaving.

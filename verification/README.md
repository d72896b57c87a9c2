# spwasm in Dafny

spwasm is a WebAssembly 1.0 interpreter. It reads a binary module, checks every function body with a
type checker while compiling it in one pass into a flat vector of opcode records, and runs those
records on one value stack shared by all frames, with an explicit call stack. Around that core stand
a linker, linear memory that several threads may grow, a bucket allocator with memory pools inside
linear memory, the bit-level numeric conversions, and decoders for integers, names and S-expressions.

What is proved, from the core outwards:

1. **Checking.** The checker (two stacks, limits, unreachable labels, the type `Any`) accepts exactly
   the bodies that the validation algorithm of appendix 7.3 of the WebAssembly Core Specification 1.0
   accepts, its pseudocode completed in three places and its instruction types taken from a table of its
   own, after chapter 3 of the same document (`ValidationAlgorithm`), and every state it passes
   through obeys the state invariant (`CheckerInvariants`). Every accepted stream is the flattening of a
   structured body (`Structure`).
2. **Compilation.** Reading a body callback by callback, with a label stack and back-patching, yields
   the direct layout of its structured form (`Reading`, `Layout`, `OnePass`); every branch target is
   resolved and lands where a branch may land (`LabelTargets`). Starting from bytes, a body is accepted
   exactly when it encodes a body that the validation algorithm accepts, and then compiles to the layout
   (`BodyDecoding`, `BodyReader`, `Acceptance`). The grammar of that statement is written instruction by
   instruction, apart from the decoder's tables, and is the one the code reads; where it is wider than
   the binary grammar of section 5.4 of the WebAssembly Core Specification 1.0, and exactly when an
   accepted body conforms to that one, is in `Conformance`.
3. **Execution.** The flat machine (`Machine`) and a big-step semantics of the structured form
   (`Semantics`, after sections 4.4.5 and 4.4.6 of the WebAssembly Core Specification 1.0) agree in both
   directions for every accepted module and every call, unless a stack is exhausted, a page count
   wraps or the run strays: takes a branch to a loop with more operands than the loop was entered with,
   or calls a function that has locals beyond its parameters (`Loops`, `Preservation`, `Execution`). For
   a module whose code has no such branch and no such call the last exception falls away, and none of its
   runs strays (`Tidiness`). Straying does change results: `Counterexamples` has an accepted module for
   each of the two ways. What single instructions make of the 32-bit number they find on the stack is
   stated apart from both, in `StepLaws`.
4. **Safety.** In every run, up to a call of a function with locals of its own, the operands match the
   checker's type stack in number and type if and only if no branch to a loop has brought along more
   than the checker had there; in any case they are at least as many, no opcode reads below its own
   frame (and the count of cells read is exact), calls keep everything below them, and host entries
   restore the thread (`OperandTypes`, `OperandFlow`, `OperandSafety`, `RunSafety`).
5. **Around the core.** Linear memory over runs of stores and growths (`MemoryLaws`), the growth
   protocol over all interleavings (`GrowthProtocol`), the allocator and the pool ring (`Allocation`,
   `Allocator`, `Pool`), import resolution (`Linker`), float-to-integer conversion (`FloatToInt`), the
   integer readers and writers (`Leb128`), the frame of a module (`Sections`), UTF-8 (`Utf8`) and the
   S-expression reader and printer (`SExpr`).

Code that works in place is modelled in place: the type checker, the module reader, the thread, the
allocator, the pool and the runtime being linked are classes whose methods are proved against
specification functions on values, and the theorems are about those functions. The numeric core and
the integer readers are functions, as in the original.

Facts about the code that came out of the proofs:

- A branch to a loop does not reset the stack, so a loop that is re-entered above its entry height
  leaks operands (`Counterexamples.LoopLeak`). Operands match the checker exactly until that happens
  (`RunSafety.OperandsMatchUntilLeak`).
- An in-wasm call does not push declared locals (`Counterexamples.CalleeLocals`). That a run neither
  calls such a function nor leaks is enough for it to mean what it should
  (`Execution.MeaningReflected`, `Execution.DifferenceIsStraying`); it is not always necessary, since
  what is lost may go unused.
- `grow_memory` goes wrong exactly when the 32-bit page count wraps: `MemoryLaws.GrowExact`.
- The allocator hands out a node beyond memory, and leaves its arena ill formed, exactly when no free
  node is big enough and the 32-bit sum of origin and size wraps: `Allocation.AllocExact`,
  `Allocation.NewNodeInMemory`.
- The stop flag says exactly that a growth is being waited for, if and only if no grower clears it while
  another counts on it: `GrowthProtocol.FlagExactIff`; `GrowthProtocol.FlagCanBeLost` is a schedule in
  which one does. Safety and wake-ups hold either way. A set flag stops every thread that polls it, and
  that is all a grower needs (`GrowthProtocol.FlagStopsAll`); but a spurious wake-up lets a thread go on
  past a set flag (`GrowthProtocol.WakesAnyTime`), and entering never looks at it
  (`GrowthProtocol.OnlyPollingReads`).
- The reader of `br_table` looks up each label before the checker has looked at the depth, and reads out
  of range exactly when a depth that the targets before it let through reaches the number of open labels
  (`ModuleReaderObject.ReadsInRangeExact`, `ModuleReaderObject.ReadBeyond`). Accepted tables are read in
  range.
- A signature is compared at one link of an import chain only, and which one depends on what is linked
  already: `Linker.Resolves` is the exact condition, and the order of the modules can decide whether they
  link (`Linker.OneThenTwo`, `Linker.TwoThenOne`).
- Block types are read as s32, the reserved fields of `memory.size`, `memory.grow` and `call_indirect` as
  u32, and a section's number as u32, where sections 5.4 and 5.5.2 of the WebAssembly Core Specification
  1.0 have single bytes. Accepted input conforms exactly when each of them takes one byte
  (`Conformance.BodyConforms`, `Sections.Conformance`).
- 64-bit floats to 32-bit integers: the range test turns away the numbers that lie strictly between a
  limit of the type and the next whole number, although their truncation fits
  (`FloatToInt.CoarseTestExact`, `FloatToInt.CoarseTestMisses`); the other six tests are exact.
- The call-stack exit of a host entry leaves the entry's locals on the value stack:
  `RunSafety.HostRunRestores`.
- Printing then parsing token trees is the identity exactly on the trees described at
  `SExpr.PrintThenParse`.

`dafny verify dfyconfig.toml` checks the whole project. Members without a row below are steps of those
that have one.

## Model

| member | source | states |
|---|---|---|
| ValidationAlgorithm.CheckerIsTheAlgorithm | wasm/TypeChecker.cpp:80-259 | the checker accepts exactly the instruction streams that the validation algorithm accepts: appendix 7.3 of the WebAssembly Core Specification 1.0 with its pseudocode completed in three places (frames keep their opcode, an `if` without `else` gets an empty second arm, a depth must be below the number of frames) and the instruction types of its chapter 3, written apart from the checker's |
| ValidationAlgorithm.ArrowIsRule | wasm/TypeChecker.cpp:241-258 | the operand and result types the checker gives an instruction, and whether its context has what the instruction names and its alignment is allowed, are those of section 3.3 of the WebAssembly Core Specification 1.0 |
| ValidationAlgorithm.AlignIsNatural | wasm/BinarySource.cc:34-40 | an alignment is allowed exactly when its power of two is at most the width of the access |
| ValidationAlgorithm.StepAgrees | wasm/TypeChecker.cpp:319-647 | instruction by instruction, checker and algorithm fail together and otherwise reach corresponding states |
| ValidationAlgorithm.TableAgrees | wasm/TypeChecker.cpp:382-418 | `br_table`'s chain of pairwise comparisons accepts exactly the tables whose targets are in range with the default's label types, when those can be popped |
| ValidationAlgorithm.SelectAgrees | wasm/TypeChecker.cpp:596-606 | `select` compares what it peeked first, the algorithm what it popped second; they agree on every valid state |
| ValidationAlgorithm.PopAgrees | wasm/TypeChecker.cpp:188-210 | checking a whole signature and then dropping it is popping it operand by operand |
| CheckerInvariants.CheckKeepsValid | wasm/TypeChecker.cpp:105-259 | limits stay ordered and bounded by the stack size and `Any` stays at the limit of an unreachable label, across every accepted instruction |
| CheckerInvariants.AcceptedPrefixIsValid | wasm/TypeChecker.cpp:80-259 | the same for every state that an accepted body passes through |
| CheckerInvariants.SelectKeeps | wasm/TypeChecker.cpp:596-606 | `select` pushes `Any` only onto the limit of an unreachable label |
| Structure.AcceptedIsStructured | wasm/TypeChecker.cpp:475-518 | every accepted stream is the flattening of a structured body that checks |
| Structure.FlattenChecks | wasm/TypeChecker.cpp:354-547 | checking the stream of a structured body is checking the body |
| Structure.BracketKeeps | wasm/TypeChecker.cpp:488-518 | a bracketed instruction leaves the enclosing labels alone and adds exactly its results to the stack it found, less the condition of an `if` |
| Heights.LiveArrow | wasm/TypeChecker.cpp:188-252 | in live code an opcode replaces exactly its parameters by exactly its results |
| Heights.LiveSignature | wasm/TypeChecker.cpp:359-380 | a live branch finds its label's values above the innermost limit |
| TypeCheckerObject.TypeChecker.GetLabel | wasm/TypeChecker.cpp:80-91 | the label at a depth, counted from the top, or failure when there is none |
| TypeCheckerObject.TypeChecker.PeekType | wasm/TypeChecker.cpp:130-140 | the operand at a depth, `Any` below the limit, an error there unless unreachable |
| TypeCheckerObject.TypeChecker.DropTypes | wasm/TypeChecker.cpp:148-160 | operands dropped down to the limit, error below it unless unreachable |
| TypeCheckerObject.TypeChecker.CheckSignature | wasm/TypeChecker.cpp:188-193 | success exactly when every operand of the signature is compatible, all of them looked at |
| TypeCheckerObject.TypeChecker.PopAndCheckSignature | wasm/TypeChecker.cpp:195-201 | the signature checked, then dropped |
| TypeCheckerObject.TypeChecker.CheckOpcode | wasm/TypeChecker.cpp:241-252 | an opcode of fixed type applied |
| TypeCheckerObject.TypeChecker.OnBr | wasm/TypeChecker.cpp:359-369 | succeeds exactly when the state machine does, and then is in its state: nothing required of a loop's label |
| TypeCheckerObject.TypeChecker.OnBrIf | wasm/TypeChecker.cpp:371-380 | succeeds exactly when the state machine does, and then is in its state |
| TypeCheckerObject.TypeChecker.OnBrTableTarget | wasm/TypeChecker.cpp:387-414 | one target compared with the type so far |
| TypeCheckerObject.TypeChecker.OnCallIndirect | wasm/TypeChecker.cpp:425-430 | the index popped, then as a call |
| TypeCheckerObject.TypeChecker.OnSelect | wasm/TypeChecker.cpp:596-606 | succeeds exactly when the state machine does, and then is in its state |
| TypeCheckerObject.TypeChecker.OnReturn | wasm/TypeChecker.cpp:587-594 | succeeds exactly when the state machine does, and then is in its state |
| TypeCheckerObject.TypeChecker.OnElse | wasm/TypeChecker.cpp:475-486 | the first arm closed, the second opened at the same limit |
| TypeCheckerObject.TypeChecker.CloseLabel | wasm/TypeChecker.cpp:488-497 | results popped at the limit, the label gone, results pushed |
| TypeCheckerObject.TypeChecker.OnEnd | wasm/TypeChecker.cpp:499-518 | a one-armed `if` may have no results |
| TypeCheckerObject.TypeChecker.EndFunction | wasm/TypeChecker.cpp:640-647 | only the function's label is left and closes |
| OnePass.OnePassIsLayout | wasm/BinarySource.cc:103-145 | the one pass with labels, patch-up of `if` and final patching yields the direct layout of the structured body |
| OnePass.CompiledIsAccepted | wasm/BinarySource.cc:119-122 | nothing is compiled that the checker does not accept |
| Execution.CompiledIsLaidOut | wasm/BinarySource.cc:103-145 | the reader succeeds exactly on the accepted streams, and then stores the layout of the structured body that the stream denotes |
| OnePass.LabelsAgreeThroughout | wasm/BinarySource.cc:225-291 | throughout compilation each open reader label's stack height and result count are the checker label's limit and signature size |
| LabelTargets.LabelsResolved | wasm/BinarySource.cc:119-138 | after `EndFunctionBody` no branch keeps the invalid mark; each target is a loop's first opcode, a construct's `End`, the opcode after an `Else`, or the end of the code |
| ModuleReaderObject.ModuleReader.EndFunctionBody | wasm/BinarySource.cc:119-145 | every unresolved record patched in place from its label |
| ModuleReaderObject.ModuleReader.OnLoopExpr | wasm/BinarySource.cc:261-266 | the label's position is the loop's first opcode: fails exactly when the one-pass function fails on this instruction, and otherwise has emitted and recorded what it says |
| ModuleReaderObject.ModuleReader.OnElseExpr | wasm/BinarySource.cc:276-282 | the `if` record patched to the record after the `else`: fails exactly when the one-pass function fails on this instruction, and otherwise has emitted and recorded what it says |
| ModuleReaderObject.ModuleReader.OnEndExpr | wasm/BinarySource.cc:284-290 | the `end` record keeps the label's own height and results: fails exactly when the one-pass function fails on this instruction, and otherwise has emitted and recorded what it says |
| ModuleReaderObject.ModuleReader.OnBrTableExpr | wasm/BinarySource.cc:244-259 | targets recorded and checked one after the other, and whether every label looked up was an open one: fails exactly when the one-pass function fails on this instruction, and otherwise has emitted and recorded what it says |
| ModuleReaderObject.ModuleReader.OnInstr | wasm/BinarySource.cc:212-477 | any instruction: fails exactly when the one-pass function fails on this instruction, and otherwise has emitted and recorded what it says |
| ModuleReaderObject.ReadsInRangeExact | wasm/BinarySource.cc:252-256 | every label looked up for a `br_table` is open exactly when every target that the ones before it let the checker come to has a depth below the number of open labels |
| ModuleReaderObject.AcceptedReadsInRange | wasm/BinarySource.cc:252-256 | for an accepted table every lookup is in range |
| ModuleReaderObject.ReadBeyond | wasm/BinarySource.cc:252-256 | a `br_table` of one target, one beyond the only open label: refused, after a lookup out of range |
| ModuleReaderObject.ModuleReader.ReadFunctionBody | wasm/BinarySource.cc:103-145 | a whole decoded body through the callbacks, stopping at the first error, compiles exactly as the one-pass function does |
| Execution.MeaningPreserved | wasm/Thread.cpp:30-178 | for every accepted module: whatever the structured semantics computes for a call (results, store or trap), the machine computes, unless a stack is exhausted, a page count wraps or, in a module that is not tidy, the run strays |
| Execution.MeaningReflected | wasm/Thread.cpp:30-178 | when the machine ends within n turns and has not strayed, the structured semantics ends the same way |
| Execution.NeverStuck | wasm/Thread.cpp:30-178 | no run reaches a state that the dispatch loop leaves undefined without having strayed before, and in a tidy module none does at all |
| Execution.StructuredNeverWrong | wasm/Thread.cpp:30-178 | the structured semantics never goes wrong on a call whose run neither exhausts the machine nor strays |
| Tidiness.TidyIs | wasm/BinarySource.cc:232-266 | a module is tidy exactly when, wherever the checker meets a branch in live code, a loop it goes to was entered with as many operands as the branch brings, and every function called directly or standing in the table is a host function or has no locals but its parameters |
| Tidiness.TidyNeverStrays | wasm/Thread.cpp:30-178 | no run of a tidy module on arguments of the right types strays: what can be seen from the code alone rules out what the theorems about runs make an exception for |
| StepLaws.FirstOnNonZero | wasm/Thread.cpp:45-51 | `select` keeps the first operand exactly when the 32-bit number on top is not zero |
| StepLaws.BranchOnNonZero | wasm/Thread.cpp:60-66 | `br_if` goes to its target exactly when the 32-bit number on top is not zero |
| StepLaws.TableTakesNth | wasm/Thread.cpp:68-75 | `br_table` takes the n-th target, and the last one for every number from their count on |
| StepLaws.ElseOnZero | wasm/Thread.cpp:77-82 | `if` goes to its second arm exactly on zero |
| StepLaws.CallsNth | wasm/Thread.cpp:161-178 | `call_indirect` calls the function in the n-th place of the table, or traps because there is no such place, it is empty, or its function has another type |
| StepLaws.LoadsBytes | wasm/ThreadUtils.cc:52-59 | a load takes exactly the bytes from n + offset on, and traps exactly when they do not all lie in memory |
| StepLaws.StoresBytes | wasm/ThreadUtils.cc:52-59 | a store replaces exactly those bytes, or traps in the same case |
| StepLaws.SizeIsPages | wasm/Thread.cpp:388-391 | `memory.size` pushes the page count |
| StepLaws.GrowsPages | wasm/Thread.cpp:392-401 | `memory.grow` asks for exactly n pages and pushes the old count, or -1 when the maximum or 32-bit addressing forbid it |
| StepLaws.EntryZeroes | wasm/ThreadUtils.cc:387-405 | a host entry finds its arguments and then a zero of its type for every declared local, above an unchanged stack |
| Execution.DifferenceIsStraying | wasm/Thread.cpp:30-178 | a run that has returned something else than the structured semantics has strayed, and its module is not tidy |
| Preservation.BranchSim | wasm/BinarySource.cc:232-266 | a taken branch arrives with its values on top and nothing below its label's limit touched, or is a branch to a loop that strays |
| Preservation.EndStep | wasm/ThreadUtils.cc:112-119 | `End` brings the results down to the bracket's own height above the locals |
| Simulation.GrowAgrees | wasm/Environment.cpp:786-805 | growing by exact page counts is growing by 32-bit ones, unless those wrap |
| Counterexamples.LoopLeak | wasm/BinarySource.cc:261-266 | an accepted, compiled body with a branch to a loop above its entry height, for which machine and semantics differ |
| Counterexamples.LeakStrays | wasm/BinarySource.cc:261-266 | whose run strays within the turns it takes to return |
| Counterexamples.CalleeLocals | wasm/ThreadUtils.cc:121-126 | an accepted, compiled module whose callee declares a local, for which machine and semantics differ |
| Counterexamples.CalleeStrays | wasm/ThreadUtils.cc:121-126 | whose run strays before it is stuck |
| OperandFlow.AcceptedObeysRules | wasm/BinarySource.cc:212-302 | every record of an accepted body obeys the flow rule given by the checker's state where it was emitted |
| RunSafety.NotesAreCheckerStates | wasm/BinarySource.cc:212-302 | the note of a record is the checker's state when its instruction was met |
| OperandSafety.StepKeeps | wasm/Thread.cpp:30-178 | one turn of the machine is never stuck and keeps the invariant that ties every frame to the checker's states, unless it calls a function with locals of its own or is a branch of an unclean body back to a loop with more operands than the checker had there |
| RunSafety.OperandsMatchChecker | wasm/Thread.cpp:42-178 | when every loop is clean, in every state of every run the operands above the locals match the checker's type stack in number and type |
| RunSafety.OperandsMatchUntilLeak | wasm/Thread.cpp:42-178 | for any loops, as long as no turn calls a function with locals of its own: every state of a run's first n turns matches in number and type if and only if none of the turns branches back to a loop with more operands than the checker had at its start |
| RunSafety.PlainCalleesCallPlain | wasm/ThreadUtils.cc:121-149 | in a module whose callees are plain no turn of any run calls a function with locals of its own |
| RunSafety.OperandsReachChecker | wasm/Thread.cpp:42-178 | for any loops, there are at least as many operands as the checker's type stack is high |
| RunSafety.StandsAtInstruction | wasm/Thread.cpp:68-75 | a running frame stands at an instruction's first record, never at an entry of a `br_table`, and its operands are the types on the checker's stack when it met that instruction; at an `end`, those below the bracket and the results on top are |
| RunSafety.NoUnderflow | wasm/ThreadUtils.cc:64-119 | no record of any run reads into its frame's locals or an outer frame |
| RunSafety.ReadsExact | wasm/ThreadUtils.cc:64-119 | the number of cells a record is said to read is exact: its turn is undefined exactly when it finds fewer |
| RunSafety.CallDiscipline | wasm/ThreadUtils.cc:121-158 | a finished call, however deep, has popped its parameters and pushed its results; no cell and no frame below changed |
| RunSafety.HostRunRestores | wasm/ThreadUtils.cc:330-358 | a host entry restores both stack tops on success and on every trap past the early exits; what the early exits leave is stated exactly |
| ThreadObject.MoveDown | wasm/ThreadUtils.cc:112-119 | the cells moved towards the bottom, overlapping or not, everything below them kept |
| ThreadObject.Thread.Push | wasm/ThreadUtils.cc:77-81 | the cell on top, or the stack-exhausted trap and nothing changed |
| ThreadObject.Thread.StoreResult | wasm/ThreadUtils.cc:112-119 | goes where the machine's step goes: the results moved down, the top behind them |
| ThreadObject.Thread.PopCall | wasm/ThreadUtils.cc:151-158 | goes where the machine's step goes: the frame gone, its results over its locals |
| ThreadObject.Thread.PushCall | wasm/ThreadUtils.cc:121-126 | goes where the machine's step goes: a frame whose locals are the arguments, or the call-stack trap |
| ThreadObject.Thread.CallHost | wasm/ThreadUtils.cc:128-149 | goes where the machine's step goes: the host's answer replaces the arguments |
| ThreadObject.Thread.DoLoad | wasm/ThreadUtils.cc:160-171 | goes where the machine's step goes |
| ThreadObject.Thread.DoStore | wasm/ThreadUtils.cc:173-182 | goes where the machine's step goes |
| ThreadObject.Thread.DoIndirect | wasm/Thread.cpp:161-178 | goes where the machine's step goes: table bounds, empty entry and signature traps |
| ThreadObject.Thread.DoGrow | wasm/Thread.cpp:388-401 | goes where the machine's step goes: the old page count or -1 |
| ThreadObject.Thread.DoJump | wasm/Thread.cpp:53-82 | goes where the machine's step goes: branches, `if` and tables |
| ThreadObject.Thread.Turn | wasm/Thread.cpp:42-178 | one turn of the dispatch loop is one step of the machine |
| ThreadObject.Thread.Run | wasm/Thread.cpp:30-41 | the loop down to a call-stack height is the machine's run |
| ThreadObject.Thread.PushLocals | wasm/ThreadUtils.cc:387-405 | parameters from the buffer, zeros for the declared locals, room for the results |
| ThreadObject.Thread.RunFunction | wasm/ThreadUtils.cc:330-358 | host entry: what `HostRun` says, tops restored past the early exits |
| MemoryLaws.DecodeEncode | wasm/ThreadUtils.cc:160-182 | bytes written and read back are the number wrapped to their width |
| MemoryLaws.EncodeDecode | wasm/ThreadUtils.cc:160-182 | bytes read and written back are the same bytes |
| MemoryLaws.DigitAt | wasm/ThreadUtils.cc:160-182 | the least significant byte comes first: byte k is the k-th digit to the base 256 |
| MemoryLaws.AccessTraps | wasm/ThreadUtils.cc:45-52 | an access traps exactly when base + offset + width lies past the end |
| MemoryLaws.LoadAfterStore | wasm/ThreadUtils.cc:160-182 | a load after a store of the same width gives the stored number wrapped and extended |
| MemoryLaws.LoadElsewhere | wasm/ThreadUtils.cc:160-182 | a load that does not overlap a store is unaffected by it |
| MemoryLaws.StoreEffect | wasm/ThreadUtils.cc:173-182 | a store changes exactly the bytes it covers, to the digits of the number |
| MemoryLaws.ExtendKeepsValue | wasm/ThreadUtils.cc:160-171 | sign- and zero-extension keep the number and fit the stack type |
| MemoryLaws.GrowExact | wasm/Environment.cpp:786-805 | growth succeeds exactly when the new page count is below 65536 and within the maximum, if the memory has one, wrapping aside; it goes wrong exactly when the page count wraps |
| MemoryLaws.GrowInvisible | wasm/Environment.cpp:35-43 | growth keeps every old byte and zeroes the new ones |
| MemoryLaws.RunKeepsMemory | wasm/Environment.cpp:786-805 | over any run of stores and non-wrapping growths the size is 65536 times the pages, below 2^32, within the maximum, and uncovered bytes keep their value |
| GrowthProtocol.Safety | wasm/ThreadUtils.cc:407-433 | over all interleavings of any number of threads: a growing thread is alone with the mutex; a set flag has a grower; every waiter is owed a notification |
| GrowthProtocol.NoWakeUpLost | wasm/ThreadUtils.cc:427-433 | from every reachable state every waiting thread can be brought to run again by the grower that owes it, with no spurious wake-up |
| GrowthProtocol.FlagExactStep | wasm/ThreadUtils.cc:407-425 | from a world with an exact flag (set exactly while some grower has set and not cleared it) a step leads to one, if and only if it does not clear the flag while another grower counts on it |
| GrowthProtocol.FlagExactIff | wasm/ThreadUtils.cc:407-425 | the flag is exact in every world of a schedule if and only if no event of the schedule clears it while another grower counts on it |
| GrowthProtocol.FlagIsExact | wasm/ThreadUtils.cc:407-425 | which holds with one grower at a time |
| GrowthProtocol.FlagCanBeLost | wasm/ThreadUtils.cc:407-425 | with two, a schedule in which the first clears the flag of the second |
| GrowthProtocol.PollingStops | wasm/ThreadUtils.cc:427-433 | a thread that polls a set flag can take no step but to wait; polling a clear flag changes nothing |
| GrowthProtocol.Stopped | wasm/ThreadUtils.cc:427-433 | and so it stays, whatever the others do, until it waits; from then on until a notification or a spurious wake-up |
| GrowthProtocol.FlagStopsAll | wasm/ThreadUtils.cc:407-433 | from every reachable world with the flag set, a grower that waits for the mutex can get it without any thread entering, leaving, waking or giving the mutex back: the threads that run do nothing but poll and wait |
| GrowthProtocol.WakesAnyTime | wasm/ThreadUtils.cc:427-433 | a spurious wake-up lets a waiting thread go on, whether the flag is set or not |
| GrowthProtocol.OnlyPollingReads | wasm/ThreadUtils.cc:407-433 | every other step is possible with the flag set or not, and to the same effect |
| GrowthProtocol.MutexGranted | wasm/ThreadUtils.cc:407-433 | in every reachable world a thread may enter or go on exactly when no thread owns the mutex, and a grower may take it exactly when moreover none runs or is about to wait |
| Allocation.RequestSizeOk | stappler/src/SPWasmScriptAllocator.cc:258-268 | a request is rounded up to the least multiple of 4096 with room for the header of 32 bytes, but at least 8192, or refused exactly when that sum reaches 2^32 |
| Allocation.AllocKeeps | stappler/src/SPWasmScriptAllocator.cc:258-356 | the node given was not live and has the bytes asked for; the arena stays well formed; a new node is made exactly when no free one is big enough; asked only that such a node's end does not wrap |
| Allocation.AllocExact | stappler/src/SPWasmScriptAllocator.cc:258-356 | whatever the request: after a node is given the arena is well formed exactly when some free node fits or the 32-bit sum of origin and size does not wrap |
| Allocation.FromBucket | stappler/src/SPWasmScriptAllocator.cc:276-305 | below `last` the search ends at a non-empty bucket whose node fits |
| Allocation.FreeKeeps | stappler/src/SPWasmScriptAllocator.cc:358-388 | exactly the freed nodes stop being live; buckets, sink and `last` stay true to the free set |
| Allocation.HistoryKeeps | stappler/src/SPWasmScriptAllocator.cc:258-388 | over any history of calls live and free nodes tile the arena from first to current origin, each at its place and extent, inside memory |
| Allocation.NodesDisjoint | stappler/src/SPWasmScriptAllocator.cc:258-388 | any two nodes ever made are disjoint, inside the arena and 16-aligned |
| Allocation.NewNodeInMemory | stappler/src/SPWasmScriptAllocator.cc:334-348 | memory is grown by the pages the size asks for exactly when the new node would not lie in it, and the node then lies in memory exactly when the 32-bit sum of origin and size does not wrap |
| AllocatorObject.Allocator.constructor | stappler/src/SPWasmScriptAllocator.cc:252-254 | an empty arena behind the allocator's own record, twenty empty lists |
| AllocatorObject.Allocator.SeekBucket | stappler/src/SPWasmScriptAllocator.cc:280-286 | the first non-empty bucket from the request's on |
| AllocatorObject.Allocator.LowerLast | stappler/src/SPWasmScriptAllocator.cc:293-300 | `last` lowered to the highest non-empty bucket |
| AllocatorObject.Allocator.AllocFromBucket | stappler/src/SPWasmScriptAllocator.cc:276-305 | the head of that bucket, unlinked |
| AllocatorObject.Allocator.WalkSink | stappler/src/SPWasmScriptAllocator.cc:313-316 | first fit along the sink, with the node before it |
| AllocatorObject.Allocator.AllocFromSink | stappler/src/SPWasmScriptAllocator.cc:306-324 | that node unlinked, or none |
| AllocatorObject.Allocator.NewNode | stappler/src/SPWasmScriptAllocator.cc:334-355 | a node at the origin, memory grown for it if need be |
| AllocatorObject.Allocator.Alloc | stappler/src/SPWasmScriptAllocator.cc:258-356 | linked lists, heads and `last` follow the allocation function; records of live nodes are not touched |
| AllocatorObject.Allocator.ReleaseNode | stappler/src/SPWasmScriptAllocator.cc:367-381 | one node back on its bucket or the sink |
| AllocatorObject.Allocator.Free | stappler/src/SPWasmScriptAllocator.cc:358-388 | a whole list of nodes back; records of nodes still live are not touched |
| PoolObject.Pool.constructor | stappler/src/SPWasmScriptAllocator.cc:560-570 | a ring of the pool's own node, its blocks to start behind the node's header and the pool's record |
| PoolObject.Pool.CutActive | stappler/src/SPWasmScriptAllocator.cc:484-488 | the block is the lowest free bytes of the active node |
| PoolObject.Pool.TakeNext | stappler/src/SPWasmScriptAllocator.cc:490-492 | the node after the active one leaves the ring |
| PoolObject.Pool.TakeFresh | stappler/src/SPWasmScriptAllocator.cc:493-497 | a node from the allocator, or nothing changed, and that exactly when the allocator refuses |
| PoolObject.Pool.Activate | stappler/src/SPWasmScriptAllocator.cc:499-505 | the node goes before the active one and becomes active; the block is cut from it |
| PoolObject.Pool.Settle | stappler/src/SPWasmScriptAllocator.cc:507-522 | the search for the old node's place ends, and the ring is again ordered by free index |
| PoolObject.Pool.Palloc | stappler/src/SPWasmScriptAllocator.cc:472-523 | the ring stays a doubly linked cycle, non-increasing in free index from the node after the active one, each index the floor of free bytes by 4096; the block is 16-aligned, inside its node and disjoint from all earlier ones; it is cut from the active node if that has room, else from the next one if that has, else from a new node, and refused exactly when the size wraps or no such node is given |
| PoolObject.Pool.Clear | stappler/src/SPWasmScriptAllocator.cc:525-558 | the pool's own node is alone and as it was when the pool was made; exactly the others are free |
| PoolObject.Pool.Destroy | stappler/src/SPWasmScriptAllocator.cc:578-602 | exactly the nodes of the pool are free |
| PoolObject.CutIsDisjoint | stappler/src/SPWasmScriptAllocator.cc:484-488 | a block cut at a node's lower mark is clear of all earlier blocks |
| PoolObject.RingInsert | stappler/src/SPWasmScriptAllocator.cc:236-241 | inserting before a node of a doubly linked ring gives the ring with the node there |
| Linker.Runtime.constructor | wasm/Environment.cpp:211-330 | `_funcs` has one place for each importing occurrence of an unknown host field; defined functions are in their slots |
| Linker.Runtime.ProcessFuncImport | wasm/Environment.cpp:465-553 | succeeds exactly when the slot's import chain ends at a definition whose signature is the one compared, and then fills the slot with it; every slot already filled is kept |
| Linker.Runtime.FromHost | wasm/Environment.cpp:490-508 | an import from a host module succeeds exactly when the module knows the field under the import's signature or, not knowing it, the policy answers that signature; the slot then holds that field |
| Linker.Runtime.Request | wasm/Environment.cpp:526-549 | the policy is asked once per field and the answer remembered; the index into `_funcs` is in range |
| Linker.Runtime.LinkModule | wasm/Environment.cpp:425-434 | every import of one module |
| Linker.Runtime.Link | wasm/Environment.cpp:413-434 | in any order of the modules and whatever the signatures: when it succeeds every slot holds the end of its chain, and no host field was asked for twice; when all signatures agree it succeeds exactly when all chains end at definitions |
| Linker.ConsistentResolves | wasm/Environment.cpp:465-553 | when every import asks for the signature of its chain's end, resolving depends on the chain alone |
| Linker.HostImportResolves | wasm/Environment.cpp:490-508 | what resolving means for a host import, in terms of the known signatures and the policy alone |
| Linker.FilledImportResolves | wasm/Environment.cpp:510-518 | an import of a slot already filled by a definition resolves exactly when that definition declares the import's signature |
| Linker.ComparedChain | wasm/Environment.cpp:510-518 | the import whose signature is compared has the same chain end as the slot |
| Linker.OneThenTwo | wasm/Environment.cpp:510-518 | a re-export under the true signature, imported under a false one: refused when the re-exporting module is linked first |
| Linker.TwoThenOne | wasm/Environment.cpp:510-518 | and accepted when the importing module is linked first |
| Linker.CountUnknown | wasm/Environment.cpp:211-239 | the count that sizes `_funcs`, and each unknown field marked once |
| Linker.RoomForOne | wasm/Environment.cpp:211-239 | a request not made before finds the counted places not all used |
| FloatToInt.ClassByFields | wasm/ThreadOps.cc:93-115 | finite numbers and NaNs are told apart as by the exponent and fraction fields of IEEE 754-2008 |
| FloatToInt.NumeratorOrdered | wasm/ThreadOps.cc:69-91 | magnitude bit patterns are ordered like the exact rationals they stand for |
| FloatToInt.RangeTestExact | wasm/ThreadOps.cc:133-235 | for six of the eight pairs the range test accepts exactly the finite numbers whose truncation fits |
| FloatToInt.CoarseTestExact | wasm/ThreadOps.cc:217-230 | for f64 to 32-bit integers it accepts exactly the numbers between the least and greatest values (above -1 when unsigned), as numbers |
| FloatToInt.RangeTestSound | wasm/ThreadOps.cc:133-235 | all eight accept only finite numbers whose truncation fits |
| FloatToInt.CoarseTestMisses | wasm/ThreadOps.cc:217-220 | 2147483647.5 fits after truncation and is turned away |
| FloatToInt.TruncSatClamps | wasm/ThreadOps.cc:698-713 | the saturating conversion is the clamped truncation, NaN gives 0, infinities the limit on their side |
| FloatToInt.TruncTraps | wasm/ThreadOps.cc:689-696 | the trapping conversion: NaN is invalid, whatever is returned is the truncation and fits, and the six exact pairs overflow only when it does not fit |
| Leb128.ReadU32Exact | wasm/Binary.cpp:110-135 | the reader consumes k bytes and yields v exactly when the first k bytes before `end` encode v as u32 |
| Leb128.ReadS32Exact | wasm/Binary.cpp:137-169 | the same for s32, with the value's 32-bit pattern |
| Leb128.ReadS64Exact | wasm/Binary.cpp:171-227 | the same for s64 |
| Leb128.SignExtendIs | wasm/Binary.cpp:105-108 | the two shifts of the sign extension subtract the weight above the sign bit |
| Leb128.U32Leb128Length | wasm/Binary.cpp:57-64 | the least length of any encoding of the value |
| Leb128.WriteFixedU32Leb128Raw | wasm/Binary.cpp:78-88 | nothing outside the five bytes is written, nothing at all without room, and reading back gives the value |
| BodyDecoding.ImmExact | wasm/Binary.cpp:800-1220 | for every kind of immediates, block types and branch tables included, the decoder takes k bytes and yields them exactly when the first k bytes encode them |
| BodyDecoding.InstrExact | wasm/Binary.cpp:800-1366 | the decoder takes n bytes and yields an instruction exactly when the first n bytes encode it by the grammar, instruction by instruction, that the code reads |
| BodyDecoding.InstrIsSplit | wasm/Binary.cpp:800-1366 | that grammar, which names the opcode and the immediates of every instruction, is what the decoder's tables by opcode say |
| BodyDecoding.BodyStep | wasm/Binary.cpp:800-1366 | the instruction read ahead, whatever lies beyond the body's end, is the first of any body those bytes encode; an `end` that stops at the end closes it |
| BodyDecoding.BodyUnique | wasm/Binary.cpp:800-1366 | bytes encode at most one body |
| BodyReaderObject.BinaryReader.ReadU32Leb128 | wasm/Binary.cpp:568-575 | an unsigned integer that ends before the section does; the cursor moves past it |
| BodyReaderObject.BinaryReader.ReadIndices | wasm/Binary.cpp:862-880 | the indices of a vector one after the other |
| BodyReaderObject.BinaryReader.ReadOpcode | wasm/Binary.cpp:525-537 | an opcode, with its prefix byte if it has one |
| BodyReaderObject.BinaryReader.ReadImmediates | wasm/Binary.cpp:806-1060 | the immediates of an opcode |
| BodyReaderObject.BinaryReader.ReadInstruction | wasm/Binary.cpp:803-1362 | one instruction; the cursor moves past exactly its bytes |
| BodyReaderObject.BinaryReader.ReadFunctionBody | wasm/Binary.cpp:800-1366 | succeeds exactly when the bytes up to the end encode, within the section, a body whose every callback succeeds, and leaves the module reader in the state the callbacks lead to |
| BodyReaderObject.BinaryReader.ReadBody | wasm/Binary.cpp:1874-1896 | a body's bytes are accepted and compiled exactly when they encode, within the section, instructions that the one-pass compiler accepts; the code is the compiler's |
| Acceptance.BytesAccepted | wasm/Binary.cpp:1874-1896 | the bytes of a function body are accepted exactly when they encode a body that the validation algorithm accepts, and then compile to the layout of its structured form |
| Acceptance.DecodedBody | wasm/Binary.cpp:800-1366 | a decoded body has block types of at most one result and no more records than bytes |
| Sections.FrameUnique | wasm/Binary.cpp:1930-1936 | a section's number, size and contents can be read off in one way only |
| Sections.SectionReader.ReadSections | wasm/Binary.cpp:1925-1988 | succeeds exactly when the bytes are sections in strictly increasing order (custom ones anywhere), each as long as it says and read to its last byte |
| Sections.SectionReader.ReadModule | wasm/Binary.cpp:1990-2001 | succeeds exactly on the eight bytes of magic number and version followed by sections |
| Sections.AnyNumber | wasm/Binary.cpp:1934-1945 | whichever of its u32 encodings a section's number has, the bytes are accepted or not all the same |
| Sections.PaddedNumber | wasm/Binary.cpp:1934-1945 | a section's number padded to any length up to five bytes is accepted as the single byte is |
| Sections.Conformance | wasm/Binary.cpp:1925-1988 | bytes are sections in the sense of section 5.5.2 of the WebAssembly Core Specification 1.0 exactly when they are accepted and every section's number takes one byte |
| Conformance.StrictIsSplit | wasm/Binary.cpp:800-1366 | the strict grammar, instruction by instruction, is the decoder's with single bytes in those places |
| Conformance.InstrConforms | wasm/Binary.cpp:800-1366 | an accepted instruction is one of the strict grammar exactly when its block type or reserved field, if it has one, takes one byte |
| Conformance.BodyConforms | wasm/Binary.cpp:800-1366 | bytes encode a body by section 5.4 of the WebAssembly Core Specification 1.0 exactly when the code reads them as that body and every block type and reserved field takes one byte |
| Conformance.AcceptedConforms | wasm/Binary.cpp:1874-1896 | bytes conform to the strict grammar and to the validation algorithm exactly when they are accepted and compiled and all those fields take one byte |
| Conformance.PaddedBlockType | wasm/Binary.cpp:810-818 | a `block` whose empty block type takes two bytes is read, and is not of the strict grammar |
| Conformance.PaddedMemoryField | wasm/Binary.cpp:1026-1042 | nor is `memory.size` or `memory.grow` with a reserved field of two bytes |
| Conformance.PaddedTableField | wasm/Binary.cpp:967-976 | nor `call_indirect` |
| Utf8.IsValidUtf8 | wasm/Binary.cpp:269-318 | true exactly on concatenations of encodings of Unicode scalar values, for byte strings of any length |
| Utf8.FirstChar | wasm/Binary.cpp:269-318 | the bytes ahead are well formed exactly when one round of the loop accepts and the bytes behind are well formed |
| SExpr.SkipWhitespaceAndComments | wasm/SExpr.cpp:97-103 | the view past any mix of white space and comments |
| SExpr.ReadNormalToken | wasm/SExpr.cpp:105-116 | the characters up to white space or a parenthesis |
| SExpr.ReadQuotedToken | wasm/SExpr.cpp:118-147 | the characters between quotes, or to the end |
| SExpr.ReadBracedExpr | wasm/SExpr.cpp:156-183 | one list, however deep, and the view behind it, as the specification function; it terminates |
| SExpr.Parse | wasm/SExpr.cpp:185-197 | all lists in order, up to the first character that opens none |
| SExpr.TableIsSpaces | wasm/SExpr.cpp:46-63 | the character table marks blank, tab and the three line endings, and no other |
| SExpr.PrintToken | wasm/SExpr.cpp:199-212 | a token appended to the stream, lists item by item with a blank behind each |
| SExpr.PrintTokens | wasm/SExpr.cpp:214-219 | each token on a line of its own |
| SExpr.ReadsItems | wasm/SExpr.cpp:156-183 | inside a printed list the reader completes exactly that list and stops behind its parenthesis |
| SExpr.ReadingInk | wasm/SExpr.cpp:156-183 | the reader adds to its list no more ink than it takes from the text, and all of it only when every word is plain |
| SExpr.PrintThenParse | wasm/SExpr.cpp:185-220 | parsing what was printed gives the tokens again if and only if they are lists, heads are consistent, and no word is empty, contains a break character, or starts with a double quote or `;;` |

## Left out

What the theorems assume, or the model states differently:

- Execution.MeaningPreserved: nothing is said of a run after it has strayed; a wrapped page count is an escape of its own (`PageCountWrapped`), like an exhausted stack.
- RunSafety.OperandsMatchUntilLeak: here and in the other theorems of `RunSafety` no turn considered calls a function that has locals of its own (`CallsPlain`, which every run of a module with plain callees satisfies); `Counterexamples.CalleeLocals` shows what such a call does.
- RunSafety.HostRunRestores: the lock of the shared context around the run belongs to `GrowthProtocol`, not to the host entry.
- ThreadObject.Thread.RunFunction: takes and releases no lock, for the same reason.
- ThreadObject.Thread.CallHost: a host function does not call back into the thread it was called from. In the original such a nested run leaves `_currentFrame` on a frame of its own (wasm/Thread.cpp:34), whose locals the caller's `PopCall` would then use (wasm/ThreadUtils.cc:151-158).
- Linker.Runtime.Link: the re-export graph has no cycle, a name is not that of a host module and of an external one at once, and tables are smaller than the invalid index.
- AllocatorObject.Allocator.Alloc: when no free node is big enough, the 32-bit sum of origin and size does not wrap; `Allocation.AllocExact` says what happens when it does.
- PoolObject.Pool.Palloc: the same, and only when the pool needs a node.
- ThreadObject.Thread.Run: for at most a given number of turns, since wasm programs need not end; the theorems hold for every such number.
- ValidationAlgorithm.CheckerIsTheAlgorithm: blocks and functions have at most one result, as the code asserts for `br_table`; decoded bodies always do (`Acceptance.DecodedBody`).
- LabelTargets.LabelsResolved: bodies compile to fewer than 2^32 - 1 records, so that no position is the invalid mark.
- GrowthProtocol.Safety: threads that take part have entered through the shared lock of their context; the body of `growMemory` is one step.
- SExpr.Parse: the byte behind the text reads as NUL, as in the zero-terminated buffers it is called on.
- Leb128.ReadU32Exact: the out-parameter on failure (0 past the end, untouched otherwise) is not modelled.

What is not part of the model:

- One module instance runs at a time: calls across module instances switch modules in the original. Stack cells carry the type written last, which no step looks at.
- Numeric opcodes other than float-to-integer conversion (IEEE arithmetic, bit counting, division, rotation) and host functions are parameters of the machine.
- Atomic opcodes: emitted and read with different field orders. `AtomicWait` and `AtomicWake` are not implemented in the original.
- Exceptions (try, catch, throw), the user stack pointer opcodes, execution fuel.
- `Thread::Prepare`, whose frame arithmetic does not support extra locals.
- The memory callback on growth and zero-initialisation of a module's first memory.
- `alloc_buf` and `free_buf` of the pool, child pools and cleanups; addresses are offsets, and the arena does not move during a call.
- Linking of globals, memories and tables, and export-name clashes across kinds.
- The contents of sections other than function bodies, custom sections among them: their readers are a parameter of `Sections`. Local declarations are part of the context a body is read in. The table of numeric and memory opcodes is a parameter of the decoder. Reading with `stop_on_first_error` off.
- Names, relocation and linking sections, opcode tables, error text, stack traces and all input and output.

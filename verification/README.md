# Render360 in Dafny

A verification project for the parts of Render360 whose correctness is hardest to see from the code:
the WebAssembly backend and its resumable calls, the guest call protocol of the recursive executor,
the STFS package reader, the guest virtual-memory allocator, Xenos texture addressing, the recovery
of register values in tail fragments, two integer opcodes, the VPK reader and the stack history.

`dafny verify dfyconfig.toml` checks everything. Where the source updates fields or arrays in place
the model is a class with those fields, and each method is proved to do to them what a function on a
plain value says; the theorems are about those functions and about whole runs of them.

## What is proved

**Backend.** `Hir.dfy` is the finalized HIR, a graph of blocks whose instructions have an opaque effect
on the context and on SSA values. `Wasm.dfy` is the structured target (section 4.4.5 of the WebAssembly
Core Specification 1.0), as a token stream and as a tree, with a reader that recovers the tree.
`Lowering.dfy` is the translation, `Emitter.dfy` the two generators that append it byte group by byte
group, and `Acceptance.dfy` says of a whole graph when they accept it. `Dispatcher.dfy`,
`DispatchLoop.dfy` and `TrappingModule.dfy` prove that the emitted dispatcher computes what walking the
blocks computes, up to its budget of 100000 dispatches, and traps beyond it. `ResumableModule.dfy`,
`ResumableCall.dfy` and `Continuations.dfy` do the same for the version that suspends after 4096
dispatches into a slot of linear memory: calls on one slot until it is completed end where one
uninterrupted run ends, on exactly the call the length says, and calls on different slots interleave
freely. `Countdown.dfy` takes one program through both modules in closed form.

**Call protocol.** `GuestProgram.dfy` is the machine guest code was written for, with a stack of return
addresses. `HostExecutor.dfy` is the executor that uses one host frame for every guest call, tail calls
included, arrays indexed by depth and a one-shot token. Whatever the program and the depth, it does
operation by operation what `HostMachine.dfy` says of plain values, budgets included; that machine shows
how long a token lives. `HostRefinement.dfy` proves it to be the flat machine as long as no operation
runs beyond 64 host frames and no possible return links, and has a program for each condition that shows
it is needed. `HostFrames.dfy` says what every live frame holds at every point of a run: the logical
depth counts the linked calls, at any depth and with any token, and, where no possible return links, the
expected return address is that of the nearest of them. `InteriorEntry.dfy` is the search for a start
inside a function.

**STFS.** `StfsLayout.dfy` proves that the block and hash formulas tile the package exactly.
`StfsExtraction.dfy` and `StfsMount.dfy` are the two request/submit machines as values,
`StfsExtractor.dfy` and `StfsMounter.dfy` the code that updates fields, a 2 MiB bitset and a table of
2048 entries. Against arbitrary bytes both stop within their bounds and keep their invariants; on the
package's own bytes they deliver what `StfsContents.dfy` and `StfsMountContents.dfy` say a package
contains, through the driver loops of `wasm-core.js`; `StfsPackage.dfy` puts the two drivers together.
`StfsVolume.dfy` and `StfsImage.dfy` are the format from the side that writes it: hash tables, directory
records and header are printed into a package, and what was printed is what these specifications read.

**Allocator.** `VirtualAllocations.dfy` is the specification, `VirtualMemory.dfy` the kernel's tables
updated in place. `AllocatorInvariant.dfy`, `AllocatorRuns.dfy` and `AllocatorHistory.dfy` prove what
single calls give and what no sequence of calls can break; `AllocatorPlacement.dfy` says in plain
addresses where an allocation goes and exactly when there is no memory for it.

**Smaller kernels.** `TiledTexture.dfy` (injectivity and surjectivity of the tiled offset) and
`TiledOffsetBits.dfy` (the same function in its own bit operations), `ContextRecovery.dfy`,
`FragmentWalk.dfy` and `FragmentExecution.dfy` (recovery of skipped loads, along every walk of a
fragment), `BitLanes.dfy` (two opcodes on two lanes), `VpkTree.dfy`, `VpkOverlay.dfy` and
`VpkArchive.dfy` (round trip, lookup, and archives as they are packed), `StackHistory.dfy` (two rings,
one counter).

## Where the code and what is said of it differ

- Tail fragments: recovery reads the context when a value is missed, not when the fragment is entered.
  The two agree when no store hits the slot first; `SecondTripIsLate` is a loop where they do not.
- Call protocol: a possible-return branch that also links leaves its token pending when it returns.
  `LinkingReturnMisleads` is a program that is then run wrongly; without such branches, and within 64
  host frames, none is.
- ROTATE_LEFT: the generated code rotates 8- and 16-bit integers in 32 bits and masks the result, so the
  bits that should come round are lost; `NarrowLanesAgreeIff` says exactly when. The JIT does not.
- A nested function that runs off its end is reported as an unresolved call, not as a missing return.
- Allocator: the bump pointer has moved even when no record is free or the commit is refused; a refused
  commit of an earlier reservation drops the reservation; an answer that cannot be written back is
  reported as an invalid parameter although the call took effect; a fixed base below the page size is
  taken as no base at all.
- Extraction: the driver copies hash tables into the capture buffer too; the data read that follows
  overwrites them, so a complete result never shows them.
- Mount: directory blocks are not checked for cycles; the announced block count alone ends the chain.
- VPK: a list of the tree also ends at a name that is only a byte-order mark, which decoding drops. Each
  list is read back exactly when it has no such name. For a whole tree that is exact of extensions only
  (`RoundTripsExactly`): behind a marked file name or path the parser reads on in the entry's own bytes,
  which can be chosen so that everything else is still read to its end; `MarkedNameIsDropped` is such a
  tree, and says when the result is what was printed all the same.

## Model

| member | source | states |
|---|---|---|
| LittleEndian.LoadStored | prepare-wasm-backend-cfg-overlay.py:31 | A word saved in a continuation slot is read back as it was written, for every width and every value that fits. |
| Hir.DispatchesCompose | prepare-wasm-fpu-overlay.py:100-160 | Walking a graph a blocks and then b blocks is walking it a + b blocks. |
| Hir.DispatchesKeepGood | prepare-wasm-fpu-overlay.py:114-160 | Every walk stays inside the graph and keeps every value within its type. |
| Hir.ReadAllAt | src/xenia_web_bootstrap/wasm_backend_cfg_probe.cpp:468-472 | Operands are read in the order they are written. |
| Wasm.ParseFlatten | prepare-wasm-fpu-overlay.py:108-163 | Reading the instruction stream back recovers exactly the nesting that was written, whatever follows it; with ParseFlattenOne, for single instructions. |
| Wasm.WrittenNestingIsRead | prepare-wasm-fpu-overlay.py:108-163 | Every nested body is recovered from its own instruction stream. |
| Wasm.ExecAppend | prepare-wasm-fpu-overlay.py:107-163 | Running two pieces of code one behind the other is running the first and, unless it branched, returned or trapped, the second. |
| Wasm.MoreFuel | prepare-wasm-fpu-overlay.py:107-113 | A run that ended with some loop fuel ends the same way with more, so the fuel bounds nothing that ends. |
| Dispatcher.LowerOperandsCorrect | src/xenia_web_bootstrap/wasm_backend_cfg_probe.cpp:468-472 | The code for an operand list pushes the HIR values of the operands, in order, and changes nothing else. |
| Dispatcher.LowerTruthCorrect | prepare-wasm-fpu-overlay.py:138-142 | The code for a branch condition leaves non-zero on the stack exactly when the branch is taken, for both senses. |
| Dispatcher.InstrCorrect | prepare-wasm-fpu-overlay.py:119-152 | One lowered instruction does what the HIR instruction does: the same values and context, a branch to the dispatcher loop with the target block as pc, an exit, a fall-through of an untaken conditional branch, or a trap. |
| Dispatcher.InstrsCorrect | prepare-wasm-fpu-overlay.py:118-157 | One lowered block does what running the HIR block does, also when it runs off its end into the next block or out of the last. |
| Dispatcher.CascadeCorrect | prepare-wasm-fpu-overlay.py:114-161 | The cascade of pc tests runs the block the pc names and no other; a pc that names none leaves the dispatcher. |
| DispatchLoop.IterationCorrect | prepare-wasm-fpu-overlay.py:109-161 | One iteration of the dispatcher loop is one dispatch of the HIR walk, and spends one unit of the budget. |
| DispatchLoop.LoopCarries | prepare-wasm-fpu-overlay.py:107-161 | As long as the budget lasts the loop stands where the walk stands, and leaves the loop exactly when the walk ends. |
| DispatchLoop.SpentLoop | prepare-wasm-fpu-overlay.py:110-112 | With the budget spent the loop runs its out-of-budget code and nothing else. |
| DispatchLoop.DispatchingCorrect | prepare-wasm-fpu-overlay.py:107-163 | The whole dispatcher from any block and any values: it ends as the walk ends within the budget, returning r3 of the final context. |
| TrappingModule.RunsTheWalk | prepare-wasm-fpu-overlay.py:100-171 | For every accepted graph and every context: if the HIR walk returns within 100000 dispatches, the module returns its r3 and leaves exactly its context, and otherwise it traps. |
| Emitter.Assign | prepare-wasm-fpu-overlay.py:88-91 | Locals are handed out consecutively to a list of distinct values, on top of what earlier lists got. |
| Emitter.SortDests | prepare-wasm-fpu-overlay.py:81-87 | The scan collects every value the graph defines exactly once, each in the one of four lists whose local carries its type, 32-bit integers with 8- and 16-bit ones, 64-bit integers, single and double floats, and refuses a graph with a vector value. |
| Emitter.CarriedWidth | prepare-wasm-fpu-overlay.py:74-98 | A local that carries a type has exactly its bytes, and is a float exactly for a float type. |
| Emitter.BuildLocals | prepare-wasm-fpu-overlay.py:80-98 | Every defined value gets a local of its own behind the parameters, pc and budget, and its declaration is i64, f32 or f64 exactly for an INT64, FLOAT32 or FLOAT64 value and i32 for narrower integers, with as many bytes as save, restore and compute take of it. |
| Emitter.LocalsAreRight | src/xenia_web_bootstrap/wasm_backend_cfg_probe.cpp:415-433 | The same for both generators: locals are distinct, dense, and of the Wasm type that carries the value's type. |
| Emitter.EmitBlock | prepare-wasm-fpu-overlay.py:116-158 | The appended bytes of a block are those of its lowering; it fails exactly when some instruction up to the first terminator cannot be lowered. |
| Emitter.EmitCascade | prepare-wasm-fpu-overlay.py:114-161 | The appended bytes of all blocks are those of the cascade, with the two flags telling whether a return and a floating-point instruction were lowered. |
| Emitter.BuildModule | prepare-wasm-fpu-overlay.py:100-171 | A graph is accepted if and only if Accepts holds of the whole graph; the bytes then read back as exactly the body whose meaning the module theorems state. |
| Acceptance.AcceptsIff | prepare-wasm-fpu-overlay.py:100-171 | What the loops find out block by block is one condition on the graph: for the trapping generator non-empty, no vector defined anywhere, a return or call boundary and a floating-point result or conversion among the instructions before a block's first terminator; for the resumable one two blocks; for both, every such instruction one they can write, with operands that have locals, integer conditions and labels in the graph. |
| Acceptance.LocalsAre | src/xenia_web_bootstrap/wasm_backend_cfg_probe.cpp:415-433 | The values with locals are those the graph defines, anywhere, of an integer type or, with the trapping generator, a floating-point one. |
| Acceptance.BlocksLower | prepare-wasm-fpu-overlay.py:114-161 | All blocks are lowered if and only if every instruction no terminator precedes can be. |
| Countdown.BothAccept | prepare-wasm-fpu-overlay.py:100-171 | A loop of two blocks that counts the context down is accepted by both generators. |
| Countdown.CountsDown | prepare-wasm-fpu-overlay.py:114-160 | From a count of n its walk takes exactly 2 n + 2 dispatches, for every 32-bit n. |
| Countdown.TrappingCountdown | prepare-wasm-fpu-overlay.py:107-171 | So the module that never suspends counts down from up to 49999 and traps from 50000 on. |
| Countdown.ResumableCountdown | prepare-wasm-backend-cfg-overlay.py:49-68 | And the one that suspends is complete, with the count at zero, exactly from call ceil((2 n + 2) / 4096) on. |
| ResumableModule.SaveCorrect | prepare-wasm-backend-cfg-overlay.py:31 | The save code writes pc, every value local and the yielded status into the slot, and nothing else. |
| ResumableModule.SuspendedSays | prepare-wasm-backend-cfg-overlay.py:31 | A saved slot holds the pc and every value, each in its own cell, and no byte outside the slot differs. |
| ResumableModule.SlotInBytes | prepare-wasm-backend-cfg-overlay.py:31 | A slot byte by byte: a status word of 1 or 2, the block behind it, and for the k-th local the 4 or 8 bytes at 8 + 8 k. |
| ResumableModule.RestoreRuns | prepare-wasm-backend-cfg-overlay.py:31 | The restore code loads pc and every value local back from the slot. |
| ResumableModule.RestoredCarries | prepare-wasm-backend-cfg-overlay.py:49 | After a restore the machine stands exactly where the suspended walk stood. |
| ResumableCall.CompletedReturns | prepare-wasm-backend-cfg-overlay.py:49 | A call on a completed slot returns r3 at once and changes no byte: a finished function is never started again. |
| ResumableCall.BodyEnds | prepare-wasm-backend-cfg-overlay.py:49 | A call on any other slot runs up to 4096 dispatches of the walk the slot stands for. |
| ResumableCall.StartedIsFresh | prepare-wasm-backend-cfg-overlay.py:49 | While the dispatcher runs the slot reads as fresh, whatever it said before. |
| ResumableCall.BodyYields | prepare-wasm-backend-cfg-overlay.py:49 | When the quantum runs out the call returns normally, with the slot suspended at the walk's place. |
| Continuations.OneCall | prepare-wasm-backend-cfg-overlay.py:49-61 | One call of an accepted task whose opcodes do not trap moves it from j to j + 1 quanta of its walk, returns r3 of where it then stands, and touches no other context and no byte outside its own slot. |
| Continuations.AcceptedNeverFaults | prepare-wasm-fpu-overlay.py:118-157 | A graph the generator accepts faults nowhere on any walk, unless an opcode traps. |
| Continuations.InterleavingIsHarmless | prepare-wasm-backend-cfg-overlay.py:25 | For any number of accepted tasks with their own contexts and slots, whose opcodes do not trap, and every order of calls: each task ends where its own calls alone put it. |
| Continuations.CompletesOnCall | prepare-wasm-backend-cfg-overlay.py:49-68 | A run of n dispatches is complete after exactly ceil(n / 4096) calls, not before, with the context of the uninterrupted walk. |
| Continuations.CallingUntilCompleted | prepare-wasm-backend-cfg-overlay.py:49-68 | From a fresh slot, calling again and again completes on exactly call ceil(n / 4096) of a run of n dispatches, with the context of the uninterrupted run, which further calls keep. |
| Continuations.SuspendingChangesNothing | prepare-wasm-backend-cfg-overlay.py:49-68 | The context a completed slot leaves is the one the never-suspending module leaves on the same graph. |
| Continuations.ResetStartsOver | prepare-wasm-backend-cfg-overlay.py:79-85 | Clearing a slot makes its task start over, whatever the slot held, and touches nothing outside it. |
| GuestProgram.AddressBits | prepare-hir-call-return-stack-overlay.py:60 | Two addresses are compared in bits 2 to 31 only, and branched to in bits 0 to 31. |
| GuestProgram.DroppingHalts | prepare-hir-call-return-stack-overlay.py:36-60 | A recursive program that goes through a linked call, a tail call and a possible return, followed to its halt in closed form. |
| HostMachine.TokenOutlivesOnly | prepare-hir-return-metadata-v3-overlay.py:39-178 | A token is still pending after its own operation if and only if that operation links and is taken as a return: internal branches, calls made or not, and returns without a link all end it. |
| HostMachine.TokenIsItsOwn | prepare-hir-return-metadata-v3-overlay.py:39-178 | At every depth of every run of a program whose possible returns do not link, each operation finds no token but the one its own link set, so no later call ever sees a stale one. |
| HostMachine.RunCharges | src/xenia_web_bootstrap/hir_correctness_executor.cpp:1624-1640 | A run still going after n operations has charged between n and 2 n instructions and is within its budget. |
| HostMachine.EveryRunEnds | src/xenia_web_bootstrap/hir_correctness_executor.cpp:1618-1640 | So every run ends. |
| HostRefinement.ReturnTestIsExact | prepare-hir-call-return-stack-overlay.py:60 | A frame that expects its own return address takes a possible return exactly when the flat machine would pop. |
| HostRefinement.CalleeIsDescribed | prepare-hir-call-return-stack-overlay.py:48-52 | The callee of a linked call expects the linked address, one of a tail call what its caller expects, or is terminal like a tail call from an entry without link register; its logical depth counts the linked calls. |
| HostRefinement.LeaveFollows | prepare-hir-call-return-stack-overlay.py:52-60 | Unwinding through tail-called host frames comes to where the flat machine pops to, with every frame below still described. |
| HostRefinement.StepFollows | prepare-hir-call-return-stack-overlay.py:48-60 | One operation that finds no stale token does what the flat machine does, and leaves every frame within the arrays expecting its own return address. |
| HostRefinement.MissingReturnIsReported | src/xenia_web_bootstrap/hir_correctness_executor.cpp:1607-1990 | Running off a function's end is a missing return, which the executor reports of the entry function only, and as an unresolved call of any other. |
| HostRefinement.CleanRunFollows | prepare-hir-call-return-stack-overlay.py:36-60 | So does a whole run without stale tokens or frames beyond the arrays, also of a program that links; at its end every live frame within the arrays still expects its own return address and has its own logical depth. |
| HostRefinement.ExecutorIsFlat | prepare-hir-call-return-stack-overlay.py:36-60 | For every program whose possible returns do not link, every entry, budget and number of operations within 64 host frames, the executor is where the flat machine with an explicit return stack is, with every live frame described by that stack, or has ended as it ends, or has spent a budget. |
| HostRefinement.StoppedRunWasFlat | src/xenia_web_bootstrap/hir_correctness_executor.cpp:1624-1640 | A run stopped by a budget after n operations was the flat machine still running after n - 1, and had charged between n - 1 and 2 n instructions. |
| HostRefinement.ReturnTestNeedsRoom | prepare-hir-call-return-stack-overlay.py:48 | A callee's return test is right for every target if and only if its host depth is at most 64. |
| HostRefinement.StaleTokenMisleads | prepare-hir-return-metadata-v3-overlay.py:58-67 | A tail call that finds a stale token gives its callee a right return test if and only if the stale address is the caller's own. |
| HostRefinement.LinkingReturnMisleads | prepare-hir-call-return-stack-overlay.py:60 | A program that returns through a linking branch and then makes a tail call: the flat machine returns after four operations, the executor blocks on a call to the return address. |
| HostRefinement.DeepChainMisleads | prepare-hir-call-return-stack-overlay.py:48 | A chain of 65 tail calls: the flat machine returns, the executor does not recognize the return. |
| HostFrames.PerformMovesFrames | prepare-hir-call-return-stack-overlay.py:48-60 | Every operation stays in its frame, goes back to an earlier live frame without changing what that frame holds, or enters one callee above all of them. |
| HostFrames.StepKeepsFrames | prepare-hir-tail-frame-overlay.py:27-28 | One operation keeps the logical depth of every live frame whatever token it finds and however deep it is, and the return address each expects if it finds none. |
| HostFrames.LogicalDepthCountsLinks | prepare-hir-tail-frame-overlay.py:27-28 | At every point of every run, whatever the program, its depth and its tokens, each live frame among the first 64 has as logical depth one more than the linked calls on the chain below it, unchanged by tail calls; a deeper frame has none. |
| HostFrames.ExpectedReturnIsNearestLink | prepare-hir-call-return-stack-overlay.py:48 | At every point of every run of a program whose possible returns do not link, even one now deeper than the arrays, each live frame among the first 64 expects the return address set by the nearest enclosing linked call, or the entry's link register, through any chain of tail calls. |
| HostFrames.CurrentFrameIsRight | prepare-hir-call-return-stack-overlay.py:60 | So wherever such a run stands within 64 frames, the return test of the current frame is the flat machine's pop, and its logical depth is one more than the height of the flat stack. |
| HostExecutor.Executor.LiveSlotsAreRight | prepare-hir-call-return-stack-overlay.py:48-60 | Where the executor stands in a run, the slots of its arrays at every live depth up to 64 hold that logical depth and that return address, and its return test is the flat machine's. |
| HostExecutor.Executor.BeginRun | prepare-hir-call-return-stack-overlay.py:123 | A new run begins where the machine begins, whatever an earlier one left in the arrays and the token. |
| HostExecutor.Executor.EnterFrame | prepare-hir-tail-frame-overlay.py:82-86 | The entered frame takes the pending logical depth, and every live slot stays what its frame holds. |
| HostExecutor.Executor.DiscardPendingReturn | prepare-hir-return-metadata-v3-overlay.py:39-48 | The token is gone. |
| HostExecutor.Executor.PrepareNestedReturn | prepare-hir-call-return-stack-overlay.py:48 | The callee's slot gets the token's address, or without a token inherits the caller's own; the token is consumed; no other slot changes. |
| HostExecutor.Executor.ClearNestedReturn | prepare-hir-return-metadata-v3-overlay.py:32-37 | The callee's slot is invalid and not terminal again, and no other slot changes. |
| HostExecutor.Executor.BeginOp | src/xenia_web_bootstrap/hir_correctness_executor.cpp:1624-1640 | An operation's instructions are charged one by one, the frame's budget first, and its link becomes the token. |
| HostExecutor.Executor.ExecutePossibleReturn | prepare-hir-call-return-stack-overlay.py:60 | A possible return leaves the frame or calls, as the machine does. |
| HostExecutor.Executor.EnterCallee | prepare-hir-call-return-stack-overlay.py:52-56 | A call runs its callee in a frame of its own and goes on behind it or, after a tail call, leaves with it, as the machine does. |
| HostExecutor.Executor.ExecuteOp | prepare-hir-return-metadata-v3-overlay.py:104-178 | One operation takes the executor where the machine is after it and all its callee did, at any depth and with any token; without linking possible returns no token is left. |
| HostExecutor.Executor.ExecuteFrame | src/xenia_web_bootstrap/hir_correctness_executor.cpp:1607-1990 | So does a whole frame, until it returns, blocks or a budget is spent. |
| HostExecutor.Executor.Execute | prepare-hir-return-metadata-v3-overlay.py:270-277 | A whole run ends, for every program, depth and budget, as the machine ends and after exactly as many operations; when possible returns do not link and no operation runs beyond 64 host frames, that is how the flat machine ends, in the same guest state, and a run stopped by its budget is the flat machine still running, with the work done tied to the instructions charged. |
| InteriorEntry.SearchBlock | prepare-hir-tail-frame-overlay.py:55 | A block is a start for an address exactly when a marker of the address comes first in it behind nothing but other markers. |
| InteriorEntry.FindEntry | prepare-hir-tail-frame-overlay.py:55 | Execution enters at the first block that the address leads, so it skips no value-defining instruction of that block; there is no entry exactly when there is no such block. |
| ContextRecovery.RecoveredIffChain | tools/apply-tail-context-v60.py:54-93 | A value is recovered if and only if it is a load in range or at most eight assigns of its own type away from one; anything else is never recovered. |
| ContextRecovery.SizeInBits | tools/apply-tail-context-v60.py:54-93 | The bytes read for a type are what its name says. |
| ContextRecovery.FitsValue | tools/apply-tail-binary-context-v61.py:42-69 | A result is kept modulo what its type can hold. |
| ContextRecovery.BinaryInStep | tools/apply-tail-binary-context-v61.py:42-69 | One binary operation whose operands are recovered, and not remembered, in time does what it would do had the skipped values been evaluated on entry. |
| ContextRecovery.StoreInStep | tools/apply-tail-context-v60.py:103-131 | The same for one context store, which remembers what it recovered. |
| ContextRecovery.PreEvaluatedIsSkipped | tools/apply-tail-context-v60.py:155-159 | The values evaluated on entry are those the skipped loads and assigns give there. |
| ContextRecovery.OnlyDisjointStoresNeverMatter | tools/apply-tail-context-v60.py:103-131 | A store can never change what is recovered for a value if and only if it misses the value's slot, so the condition is exact store by store. |
| FragmentWalk.ControlIsHirs | src/xenia_web_bootstrap/hir_correctness_executor.cpp:1813-1830 | A fragment's jumps, conditional jumps and returns go where the same HIR instructions go in the backend's walk, so a true branch is taken on anything but zero and a false one on zero. |
| FragmentWalk.LeavesAsTaken | src/xenia_web_bootstrap/hir_correctness_executor.cpp:1890 | A conditional return returns exactly when a true branch on its condition would be taken, and otherwise goes on like it. |
| FragmentWalk.FallsAsHir | src/xenia_web_bootstrap/hir_correctness_executor.cpp:1607-1990 | Behind a block's last instruction both walks go on with the next block. |
| FragmentWalk.SettleFallsThrough | src/xenia_web_bootstrap/hir_correctness_executor.cpp:1607-1990 | A position behind a block's end stands for the start of the next block that is not empty, or the end. |
| FragmentWalk.OperandsAreRead | tools/apply-tail-binary-context-v61.py:42-69 | Resolved operands are, in order, the values the HIR reads. |
| FragmentWalk.BinaryIsCompute | tools/apply-tail-binary-context-v61.py:42-69 | A recovering binary operation whose operands are known is the plain computation, left operand first. |
| FragmentWalk.WalkStepInStep | src/xenia_web_bootstrap/hir_correctness_executor.cpp:1813-1830 | One instruction of a fragment, branches included: the recovering walk and the one with the skipped values given go the same way, unless a skipped value is read without recovery. |
| FragmentWalk.RecoveringIsPreEvaluating | tools/apply-tail-context-v60.py:103-131 | For every graph of blocks, entry and number of instructions, round loops any number of times: if no slot is stored over before a value is recovered from it on that walk, a recovering fragment goes the way of the walk in which the skipped values were evaluated on entry, with the same context, and is supported exactly as long as that walk is and every read without recovery is of a known value. |
| FragmentWalk.DisjointStoresAreInTime | tools/apply-tail-context-v60.py:103-131 | A graph none of whose stores overlaps the slot of a value it may recover is in time on every walk, from any entry and context, and so goes the way of the walk with the skipped values given. |
| FragmentWalk.SecondTripIsLate | tools/apply-tail-binary-context-v61.py:42-69 | Without that condition the two differ: a loop that recovers a register in time on its first trip and reads, on the second, what the first has stored. |
| FragmentExecution.FragmentExecutor.ResolveContextProvenance | tools/apply-tail-context-v60.py:54-93 | The walk down the definitions finds what the recursion defines. |
| FragmentExecution.FragmentExecutor.Store | tools/apply-tail-context-v60.py:103-131 | The context and the value map after a store are those of the model, with the recovered value remembered. |
| FragmentExecution.FragmentExecutor.ExecuteFragment | src/xenia_web_bootstrap/hir_correctness_executor.cpp:1607-1990 | A fragment run in place, from any instruction and with any budget, comes to where the walk of that many instructions comes, and ends for the reason it ends. |
| StfsLayout.ComputeDataBlock | render360_xenia_core.cpp:326-335 | The loop computes the closed form: the index and every table before it. |
| StfsLayout.HashBlockAsWritten | render360_xenia_core.cpp:337-354 | The table numbers are the products the code writes, for one and two copies. |
| StfsLayout.DataFollowsItsTable | render360_xenia_core.cpp:326-354 | Data block i lies at its level-0 table plus the copies plus i modulo 170, for every i below 4913000. |
| StfsLayout.OwnerOfPlace | render360_xenia_core.cpp:326-359 | Data blocks and the tables of all three levels occupy pairwise different block numbers: what lies at a number can be read off it. |
| StfsLayout.PlaceOfOwner | render360_xenia_core.cpp:326-359 | Without gaps: every block number of a full package is some data block's or table's. |
| StfsLayout.HashReadIsATable | render360_xenia_core.cpp:356-359 | A hash read at any level, with either copy active, reads that table and never data. |
| StfsExtraction.SubmitAdvances | package-core.cpp:294-314 | Against any bytes, a submitted read keeps the accounting (bytes done = min(total, 4096 times blocks done)), asks only inside the file and the buffer, enters no block twice, and leaves fewer requests to come. |
| StfsExtraction.BeginKeeps | package-core.cpp:245-281 | A begun extraction satisfies all that. |
| StfsExtraction.RunStops | package-core.cpp:294-314 | So does every run, and it stops within its bound. |
| StfsExtraction.ExtractionStops | package-core.cpp:97-224 | An extraction of n blocks stops after at most 4 n - 3 reads, whatever is handed to it. |
| StfsExtraction.StoppedStays | package-core.cpp:65-68 | A finished or failed extraction stays as it is. |
| StfsContents.ContentsLength | package-core.cpp:194-224 | What a file contains has the length its entry says. |
| StfsContents.SubmitFollows | package-core.cpp:133-224 | One read: what was to come is what the read delivered and what is to come now; a hash read delivers nothing and loses nothing. |
| StfsContents.BeginDeliversTheFile | package-core.cpp:245-281 | A begun extraction is about to deliver the chain's blocks cut to the length, or has failed because the chain is broken. |
| StfsVolume.WordOfEntry | package-core.cpp:154-192 | The last four bytes of a printed hash entry are read back: the low 24 bits are the successor and bit 30 chooses the second copy of the table below. |
| StfsVolume.ResolvesToNext | package-core.cpp:133-192 | In a printed package, whichever copy of every table is current and whatever the stale copies, hashes and unused bits hold, one and two copies and up to three levels, every block resolves to the successor that was written for it. |
| StfsVolume.DataIsThere | render360_xenia_core.cpp:326-335 | And the bytes of every block are where the reader looks for them. |
| StfsVolume.ContentsOfChain | package-core.cpp:133-224 | From any block of a chain on, what the reader takes is the rest of the chain. |
| StfsVolume.FileIsPrinted | package-core.cpp:97-224 | The contents of an entry of a printed package are the bytes of its chain joined and cut to its length, contiguous or linked, if and only if the chain stays in the volume, enters no block twice and fits the announced numbers of blocks. |
| StfsExtractor.SettingABit | package-core.cpp:74-81 | Setting one bit of a byte marks that block and leaves the other seven as they were. |
| StfsExtractor.MarkingOne | package-core.cpp:74-81 | Marking a block adds it, and only it, to the set the bitset stands for. |
| StfsExtractor.Extractor.ClearVisited | package-core.cpp:70-72 | Every bit is cleared. |
| StfsExtractor.Extractor.MarkBlock | package-core.cpp:74-81 | True exactly for a 24-bit block not marked before, which is then marked. |
| StfsExtractor.Extractor.Schedule | package-core.cpp:83-95 | The fields after scheduling are those of the machine. |
| StfsExtractor.Extractor.ScheduleData | package-core.cpp:97-112 | So are those after asking for a data block or completing. |
| StfsExtractor.Extractor.BeginHashResolution | package-core.cpp:133-152 | So are those after starting a resolution at the level the package needs. |
| StfsExtractor.Extractor.ParseUpperHash | package-core.cpp:154-176 | So are those after an upper hash table, with the active copy of the next chosen. |
| StfsExtractor.Extractor.ParseHashL0 | package-core.cpp:178-192 | So are those after a level-0 table, the successor marked. |
| StfsExtractor.Extractor.EnterNext | package-core.cpp:214-221 | So are those after going on to the next block of a contiguous file. |
| StfsExtractor.Extractor.AcceptData | package-core.cpp:194-224 | So are those after a data block. |
| StfsExtractor.Extractor.Begin | package-core.cpp:245-281 | So are those after a begin, whatever came before. |
| StfsExtractor.Extractor.SubmitRead | package-core.cpp:294-314 | So are those after any submitted read. |
| StfsDriver.CopiedInKeeps | wasm-core.js:69 | Copying a read into the capture buffer at the bytes done, hash tables included, disturbs nothing already delivered. |
| StfsDriver.TurnKeepsUnderway | wasm-core.js:69 | One turn of the loop keeps: the buffer starts with what has been delivered, and delivered plus still to come is the file. |
| StfsDriver.ExtractStfsEntry | wasm-core.js:65-71 | The driver returns complete if and only if the entry's chain holds, and then the captured bytes are the start of the file, as many as the limit allows; its own error exits are unreachable, and it gives up only on entries with more than maxRequests reads in their bound. |
| StfsMountRuns.SubmitAdvances | render360_xenia_core.cpp:773-792 | Against any bytes, a read after the header keeps the table within 2048 entries, the default.xex index on the last such root entry, the terminal bit clear in every mounted end, and leaves fewer requests to come. |
| StfsMountRuns.MountStops | render360_xenia_core.cpp:565-629 | A mount stops after at most 4 n - 1 reads, n the directory blocks its header announces. |
| StfsMountRuns.EndedStays | render360_xenia_core.cpp:303-309 | A mount that has ended stays as it is. |
| StfsMountRuns.ParentsWarn | render360_xenia_core.cpp:545-550 | Reading a block's records warns of a parent exactly when it takes one whose parent does not come before it. |
| StfsMountRuns.ProbeIsAsked | render360_xenia_core.cpp:475-499 | A mount with all its records reads the title's first bytes, one block at most, exactly when there is a title of four bytes or more, and has ended otherwise; a title outside the file ends it out of range. |
| StfsMountContents.RecordsAt | render360_xenia_core.cpp:515-556 | The k-th record taken from a block is its k-th 64 bytes, well named and not starting with zero. |
| StfsMountContents.RecordsStop | render360_xenia_core.cpp:518-525 | The records stop at the end of the block, the first zero byte or the first ill-named one. |
| StfsMountContents.ParseRecordsAdds | render360_xenia_core.cpp:515-556 | Reading a block adds exactly its records, or stops at an ill-named one or at 2048 entries, whichever comes first. |
| StfsMountContents.SubmitKeepsMeaning | render360_xenia_core.cpp:423-563 | Served from the file, a read does not change how the mount is going to end. |
| StfsMountContents.BeginMeans | render360_xenia_core.cpp:761-770 | A mount that has begun is going to end as the package says. |
| StfsMountContents.ListingIsTheChain | render360_xenia_core.cpp:435-473 | A mount that ends mounted lists the records of the chain's directory blocks in order, at most 2048, and is partial exactly when the chain ended early. |
| StfsImage.ReadsListed | render360_xenia_core.cpp:515-556 | A printed directory record is read back field by field: name, flags, valid and allocated blocks, start, parent and length, little- or big-endian as the format has them. |
| StfsImage.FlagsSay | render360_xenia_core.cpp:515-556 | Its flags say directory and contiguous as they were printed. |
| StfsImage.ReadsHeader | render360_xenia_core.cpp:565-629 | So are magic, header size, volume type, file table and block count of a printed header, and the two flags of its volume descriptor. |
| StfsImage.KindSays | render360_xenia_core.cpp:185-196 | A container is told by its first letters: LIVE, PIRS or CON for a package, XEX1 or XEX2 for an executable. |
| StfsImage.HeaderErrors | render360_xenia_core.cpp:565-629 | A mount is refused for its header exactly when the file is shorter than 0x971A bytes, the letters are none of these, the header size is below 0x344 or beyond the file, the volume type is not zero, the descriptor length is not 0x24, or a table that is there starts outside the volume; any other ends as its file table says. |
| StfsImage.ProbeSays | render360_xenia_core.cpp:501-513 | The probe of the title ends the mount whatever it reads, and warns exactly when it does not read an executable. |
| StfsImage.MountIsPrinted | render360_xenia_core.cpp:423-629 | The mount of a printed package lists exactly the records printed in the blocks of its file table, in order, and is partial exactly when the table ends before the announced count. |
| StfsImage.NamedSo | render360_xenia_core.cpp:551-554 | A record counts as the title exactly when it is a file in the root spelled default.xex in letters of either case. |
| StfsMounter.Mounter.FinishMount | render360_xenia_core.cpp:475-499 | The fields after finishing are those of the machine, with the remembered status. |
| StfsMounter.Mounter.ReadRecords | render360_xenia_core.cpp:515-556 | So are those after the loop over a block's records. |
| StfsMounter.Mounter.ParseHeader | render360_xenia_core.cpp:565-629 | So are those after the header. |
| StfsMounter.Mounter.SubmitRead | render360_xenia_core.cpp:773-792 | So are those after any submitted read. |
| StfsMounter.MountStfs | wasm-core.js:73-76 | The driver ends with the status and the entry table the package says; it gives up only when the header announces more reads than allowed. |
| StfsPackage.DefaultIsListed | render360_xenia_core.cpp:551-554 | The title is the last root entry named default.xex, letter case apart, and there is none exactly when no entry is. |
| StfsImage.PrintedTitleIsRead | wasm-core.js:73-79 | From bytes to bytes: of a printed package the mount picks the last record named so, and its contents are the bytes of its blocks, joined and cut to its length. |
| StfsPackage.OpenPackage | wasm-core.js:73-79 | From the bytes of a package: if the mount ends mounted and the title's chain holds, what is captured is as much of that chain's bytes, cut to the title's length, as the capture limit allows; every other end is named and has its condition, giving up on the title included. |
| SparsePages.UnmapUndoesMap | src/xenia_web_bootstrap/sparse_guest_memory.cpp:367-478 | A mapping is made exactly of whole pages within 4 GiB, none of them mapped, with a valid protection; it gives each that protection and changes no other, and unmapping it again leaves the table as it was. |
| SparsePages.ProtectIsRemap | src/xenia_web_bootstrap/sparse_guest_memory.cpp:416-478 | An unmapping takes exactly whole pages that are all mapped, and them alone; protecting a range is unmapping it and mapping it anew. |
| SparsePages.AllowsEveryByte | src/xenia_web_bootstrap/sparse_guest_memory.cpp:264-281 | An access to a word is allowed exactly when every one of its four bytes lies within 4 GiB in a mapped page with that right. |
| AllocatorInvariant.OwnsOne | tools/apply-nt-allocate-virtual-memory-v71.py:36 | No page belongs to two allocations. |
| AllocatorInvariant.BumpPlaces | tools/apply-nt-allocate-virtual-memory-v71.py:36 | An automatic placement is made exactly when it fits the gap between the bump pointers and meets no live allocation: at the bottom of the gap or, from the top down, at its top, and the gap closes over it from that side alone. |
| AllocatorInvariant.CommitKeeps | tools/apply-nt-allocate-virtual-memory-v71.py:36 | A commit maps exactly the allocation's pages; it fails only for an uncommitted reservation over a page somebody else mapped, and then changes nothing. |
| AllocatorRuns.AllocateKeeps | tools/apply-nt-allocate-virtual-memory-v71.py:36 | Every allocation call, however it ends, keeps live allocations apart, aligned, inside their heaps, and the mapped pages exactly the foreign ones and the committed ranges. |
| AllocatorRuns.AllocateGives | tools/apply-nt-allocate-virtual-memory-v71.py:36 | A successful call leaves a live allocation of the rounded size at the requested or chosen base, its pages mapped with the asked protection if committed, and touches no other allocation or page. |
| AllocatorRuns.RefusalKeeps | tools/apply-nt-allocate-virtual-memory-v71.py:36 | A call refused for want of memory maps nothing, and changes the records if and only if it was the refused commit of an earlier reservation, which is then gone. |
| AllocatorRuns.FreeKeeps | tools/apply-nt-free-virtual-memory-v72.py:37 | Every free call keeps the same invariant. |
| AllocatorRuns.DecommitRight | tools/apply-nt-free-virtual-memory-v72.py:37 | A decommit of the whole allocation unmaps exactly its pages, keeps the reservation and answers base and size if they can still be written; one of any other size changes nothing. |
| AllocatorRuns.InvalidAllocation | tools/apply-nt-allocate-virtual-memory-v71.py:36 | An invalid-parameter answer means that the call was malformed and nothing happened, or that the allocation took its full effect and the caller's words cannot be written. |
| AllocatorPlacement.MalformedIff | tools/apply-nt-allocate-virtual-memory-v71.py:36 | A call is malformed exactly when a pointer is zero or unreadable, the debug word is set, neither commit nor reserve or reset is asked for, or the size is zero or does not fit 4 GiB in whole pages. |
| AllocatorPlacement.RefusedIff | tools/apply-nt-allocate-virtual-memory-v71.py:36 | A call is refused for want of memory if and only if it is well-formed and its range does not fit the gap or its heap, meets a live allocation, finds no free record, or is to be committed now and meets a page somebody else has mapped; an exact earlier reservation, which needs neither room nor record, is refused only for the last. |
| AllocatorPlacement.PlacedThere | tools/apply-nt-allocate-virtual-memory-v71.py:36 | A request that is not refused gets its whole pages at the bottom of its arena, at the top with XMEM_TOP_DOWN, or at the base it names, and answers that base; only the arena it is cut from changes, and only at that side. |
| AllocatorPlacement.FirstReservation | tools/apply-nt-allocate-virtual-memory-v71.py:24-36 | On a booted kernel the first plain reservation is at 0x10000000 and one from the top down at 0x3FFFF000. |
| AllocatorRuns.ProtectionOfFlags | tools/apply-nt-allocate-virtual-memory-v71.py:24-36 | For every protection word: which rights the guest gets, writing never without reading, and nothing a mapping could be refused for. |
| AllocatorRuns.UnknownFreeKeeps | tools/apply-nt-free-virtual-memory-v72.py:37 | A free of a base nothing live has, or with unreadable pointers, changes nothing; base 0, another address from 64 KiB to 2 GiB, and one outside have each their own answer. |
| AllocatorRuns.FreeDecommits | tools/apply-nt-free-virtual-memory-v72.py:37 | A free of type 0x4000 decommits the allocation at the base. |
| AllocatorRuns.FreeReleases | tools/apply-nt-free-virtual-memory-v72.py:37 | A free of any type but 0x4000 removes the allocation and exactly its pages, even when the answer cannot be written back afterwards, and otherwise answers base and size. |
| AllocatorHistory.ResetRestores | tools/apply-nt-allocate-virtual-memory-v71.py:32 | A reset leaves the page map the allocator never touched. |
| AllocatorHistory.RunKeeps | tools/apply-nt-allocate-virtual-memory-v71.py:32-36 | The invariant holds after every sequence of allocate, free and reset calls. |
| AllocatorHistory.FreeingEverythingRestores | tools/apply-nt-free-virtual-memory-v72.py:37 | However a run got there, once nothing is committed the page map is the one it started from. |
| AllocatorHistory.AnsweredRange | tools/apply-nt-allocate-virtual-memory-v71.py:36 | The answer of a successful automatic allocation is the range it cut from its arena. |
| AllocatorHistory.RunNarrows | tools/apply-nt-allocate-virtual-memory-v71.py:24-36 | Over any sequence of allocate and free calls without a reset, the bottom of each arena has only grown and its top only shrunk. |
| AllocatorHistory.PlacementsNeverOverlap | tools/apply-nt-allocate-virtual-memory-v71.py:24-36 | Between resets no two automatic placements overlap, even when the earlier one was freed, and none lies in the gap that is left. |
| AllocatorHistory.RunsNeverReplace | tools/apply-nt-allocate-virtual-memory-v71.py:24-36 | The same from the start, for every run: no two placements since the last reset overlap and none lies in the gap. |
| VirtualMemory.Services.VirtualRangeAvailable | tools/apply-nt-allocate-virtual-memory-v71.py:36 | True exactly when the range is not empty, ends within 4 GiB and overlaps no live allocation. |
| VirtualMemory.Services.Find | tools/apply-nt-allocate-virtual-memory-v71.py:36 | The first record that fits the search, if any. |
| VirtualMemory.Services.CommitVirtualAllocation | tools/apply-nt-allocate-virtual-memory-v71.py:36 | The tables after a commit are those of the specification. |
| VirtualMemory.Services.PlaceAutomatically | tools/apply-nt-allocate-virtual-memory-v71.py:36 | So are the bump pointers after a placement. |
| VirtualMemory.Services.NtAllocateVirtualMemory | tools/apply-nt-allocate-virtual-memory-v71.py:36 | So are all tables and the answer of an allocation. |
| VirtualMemory.Services.NtFreeVirtualMemory | tools/apply-nt-free-virtual-memory-v72.py:37 | So are all tables and the answer of a free. |
| VirtualMemory.Services.ReleaseVirtualAllocations | tools/apply-nt-allocate-virtual-memory-v71.py:32 | So are all tables after a reset. |
| TiledTexture.NothingWraps | prepare-xenia-shader-interpreter-overlay.py:111-128 | For y below 8192 and pitches up to 8192 no sum or product of the tiled offset wraps. |
| TiledTexture.ShiftLosesNothing | prepare-xenia-shader-interpreter-overlay.py:124-127 | The final right shift drops no set bit. |
| TiledTexture.UntileTile | prepare-xenia-shader-interpreter-overlay.py:117-127 | A texel's tile and its place in the tile can be read back from its index. |
| TiledTexture.TiledOffsetIsInjective | prepare-xenia-shader-interpreter-overlay.py:111-128 | For every unit size and every pitch up to 8192, no two texels with y below 8192 share an index. |
| TiledTexture.TileUntile | prepare-xenia-shader-interpreter-overlay.py:117-127 | Every index is some texel's: tiles and indices match one to one for every unit size. |
| TiledTexture.TileHoldsItsIndices | prepare-xenia-shader-interpreter-overlay.py:117-127 | From 4-byte units on, tile t holds exactly the indices 1024 t to 1024 t + 1023. |
| TiledOffsetBits.TiledOffsetIsAsWritten | prepare-xenia-shader-interpreter-overlay.py:111-128 | The function with its masks, shifts and wrapping sums and products, for all 32-bit arguments, is the one with quotients and remainders that the other rows speak of. |
| BitLanes.CountLeadingZeros | tools/apply-hir-cntlz-v73.py:27 | The executor's loop counts the leading zeros of an integer of 8 to 64 bits, the width for zero. |
| BitLanes.CountIsUnique | tools/apply-hir-cntlz-v73.py:27 | There is one such count. |
| BitLanes.LoweredCountAgrees | tools/apply-hir-cntlz-v73.py:45 | The generated clz, less the bits the lane has more, is the executor's count and fits 8 bits. |
| BitLanes.RotatedBits | tools/apply-hir-rotate-left-v70.py:28 | A rotation turns the integer's own bits round. |
| BitLanes.RotationsCompose | tools/apply-hir-rotate-left-v70.py:28 | Rotating twice is rotating by the sum, and by the width not at all. |
| BitLanes.WideLanesAgree | src/xenia_web_bootstrap/wasm_backend_probe.cpp:365-403 | For 32- and 64-bit integers the generated rotl is the executor's rotation, for every count. |
| BitLanes.NarrowLanesAgreeIff | src/xenia_web_bootstrap/wasm_backend_probe.cpp:365-403 | For 8- and 16-bit integers the two lanes agree if and only if the bits that would go round are zero. |
| BitLanes.JitAgrees | src/xenia_web_bootstrap/hir_wasm_jit.cpp:1487-1497 | The code of the JIT, which rotates a narrow integer in its own width, always agrees with the executor. |
| BitLanes.ByteGoesRound | src/xenia_web_bootstrap/wasm_backend_probe.cpp:365-403 | An input for which they do not. |
| VpkTree.ParsePrintedTree | runtime/source-vpk-source.js:44-58 | Parsing a printed tree, whose names decode to something and whose lists end in strings that decode to nothing, gives its last-wins fold by logical path and stops right behind it. |
| VpkTree.LastFileWins | runtime/source-vpk-source.js:44-58 | Under every key that fold has the entry of the last file of the tree whose path, name and extension have that key, and what was there before if none has. |
| VpkTree.RoundTripsExactly | runtime/source-vpk-source.js:14-19 | A tree whose extensions contain no zero byte, its names and paths decoding to something, is given back whole if and only if none of the extensions decodes to nothing. |
| VpkTree.FilesRoundTripExactly | runtime/source-vpk-source.js:48-56 | The list of files of a folder is given back up to its own end if and only if none of its names decodes to nothing. |
| VpkTree.FoldersRoundTripExactly | runtime/source-vpk-source.js:46-57 | The list of folders of an extension is, if and only if none of its paths does. |
| VpkTree.MarkEndsFiles | runtime/source-vpk-source.js:48-49 | A file name that is only a byte-order mark ends its list, and its entry and everything behind it is left to be read as folders. |
| VpkTree.MarkEndsFolders | runtime/source-vpk-source.js:46-47 | A folder path that is only a byte-order mark ends its list likewise. |
| VpkTree.MarkedNameIsDropped | runtime/source-vpk-source.js:44-58 | A tree with a marked file name that is read to its end without an error, the file left out: what was printed comes back if and only if that file was known before. |
| VpkTree.EndsAre | runtime/source-vpk-source.js:8-18 | A list ends exactly at an empty string or at a byte-order mark. |
| VpkTree.MarkEndsTree | runtime/source-vpk-source.js:44-48 | An extension that is only a byte-order mark ends the tree: it and everything behind it is not read. |
| VpkTree.TreeParsedPrints | runtime/source-vpk-source.js:44-58 | Whatever parses is the print of some tree, up to where the parser stops: the format is all it accepts. |
| VpkTree.ReadPrintedEntry | runtime/source-vpk-source.js:50-55 | An entry and its preload are read back as printed. |
| VpkOverlay.ReadCString | runtime/source-vpk-source.js:14-19 | The bytes up to the first zero, and an offset that has advanced; an error exactly when there is no zero. |
| VpkOverlay.ReadEntryAt | runtime/source-vpk-source.js:20-21 | The fields in order, with the error of the first check that fails. |
| VpkOverlay.ReadFiles | runtime/source-vpk-source.js:48-56 | The innermost loop collects the files of one folder. |
| VpkOverlay.ReadTree | runtime/source-vpk-source.js:44-58 | The three loops with one advancing offset collect the parse of the tree, or end with its error. |
| VpkOverlay.ReadDirectory | runtime/source-vpk-source.js:34-60 | An archive is its tree behind the header its version has, or the error of the first check that fails. |
| VpkOverlay.Overlay.Resolve | runtime/source-vpk-source.js:70-77 | Whatever was looked up before, a path resolves to its own file or the first archive in rank order that has it. |
| VpkOverlay.Overlay.Read | runtime/source-vpk-source.js:78-102 | A ranged read is the folder's own for a file it has, and otherwise the range of preload plus payload, cut to what there is, or the error of the payload. |
| VpkOverlay.RangeIs | runtime/source-vpk-source.js:78-102 | A range has the bytes from its offset on, as many as were asked for and are there, and begins at the start for a negative offset. |
| VpkOverlay.RangesJoin | runtime/source-vpk-source.js:100-101 | Reading in two pieces is reading at once. |
| VpkArchive.HeaderErrors | runtime/source-vpk-source.js:34-43 | An archive is refused before its tree is looked at exactly when it is not linked, has no signature in its first 12 bytes, another version than 1 and 2, or a tree size of zero or more than 64 MiB; any other ends as its tree does. |
| VpkArchive.DirectoryIsRead | runtime/source-vpk-source.js:34-60 | A printed archive, of either version, is read back: every file of its tree, and the sizes of header and tree. |
| VpkArchive.PackedFileIsWhole | runtime/source-vpk-source.js:78-102 | A file of a printed archive is its preload followed by its range of the archive's data behind the tree, or of its numbered file; a missing or short source is an error, and nothing else is. |
| VpkArchive.PackedFileIsFound | runtime/source-vpk-source.js:66-77 | And it is found in that archive under its logical path; a path that is no file's is not there. |
| VpkOverlay.LookupIsFirst | runtime/source-vpk-source.js:66-77 | With no two archive paths alike but for case, the answer comes from the first archive that has the key, all before it having parsed without it. |
| StackHistory.Ring.Push | prepare-hir-stack-history-overlay.py:48-59 | A ring read oldest first is the last 32 events pushed. |
| StackHistory.History.RecordWrite | prepare-hir-stack-history-overlay.py:65-76 | Both rings stay the last 32 of their kind, all events numbered by one counter. |
| StackHistory.History.RecordCall | prepare-hir-stack-history-overlay.py:78-90 | The same for a call. |
| StackHistory.History.TimelineIsTrue | prepare-hir-stack-history-overlay.py:60-63 | Merging the rings as they stand gives the true interleaving of what they retain. |
| StackHistory.MergeIsRetained | prepare-hir-stack-history-overlay.py:60-63 | Merging both rings by sequence number is the true interleaving of what they retain. |
| StackHistory.MergeKeepsAll | prepare-hir-stack-history-overlay.py:60-63 | Merging loses nothing and adds nothing. |
| StackHistory.TimelineIsSorted | prepare-hir-stack-history-overlay.py:60-63 | The timeline is in the order things happened. |

## Left out

- Bytes of instructions: the emitters produce abstract instructions; LEB128, section headers and the module envelope are not modelled.
- Results of opcodes: what an instruction computes is a parameter of the proofs, on both sides the same; floating-point rounding is not modelled.
- Operand types: a lowering with ill-typed operands is treated like any other; reading an SSA value that was never assigned gives zero on both sides.
- Traps: what a trapped module has already written is not stated, so `Continuations.InterleavingIsHarmless` asks that no lowered opcode traps.
- HostExecutor.Executor.Execute: budgets must be given (a total budget of zero, which means none, is not modelled), and the agreement with the flat machine asks for at most 64 host frames and possible returns that do not link.
- Guest memory and registers inside one guest operation of the call protocol, the import resolver, traces and diagnostics.
- Fiber scheduling, on-stack replacement, the generated-code cache and the inline page walk of the JIT.
- The STFS fields that only report (title, media, display name, content size) and the two logical-offset getters.
- STFS block numbers of 4913000 and more: `StfsLayout` states its tiling below that; the machines take any number.
- Two requests in flight: a mount request and an extraction request never coexist in the model, as the drivers never let them.
- The page table's own structure, backings, aliases and write watches; running out of host memory. Mapping, protecting and unmapping are all-or-nothing operations on a page map.
- The bytes the allocator writes back: the model says whether both words can be written, not the memory that then holds them.
- Texture coordinates, clamping and swizzles around the tiled offset.
- Calls and flagged operations inside a tail fragment: `FragmentWalk` has its loads, stores, computations, branches and returns.
- StfsDriver.ExtractStfsEntry: the file it is given is the file that was mounted; with another one its short-read exit could be reached.
- VPK text decoding beyond the byte-order mark, path normalisation and the order in which archives are ranked are parameters; so is reading a file that is linked directly.
- Stack history beyond 2^32 - 1 events, where the counter wraps.
- The remaining opcodes, the XEX header getters, settings, browser storage and the presenter: easy members, or thin wrappers.

# The Fluxa runtime, modelled and proved in Dafny

Fluxa is a small language runtime in C.  It promises that a compiled loop means
the same as an interpreted one, and that persistent (`prst`) state survives a
reload, a handover to a new program and a swap of the binary.  This project
models the code behind those promises and proves them, together with the
collector, the resolver and the small concurrent protocols they rely on.

`dafny verify dfyconfig.toml` checks everything.

## The parts

**Two execution tiers.**  `Values`, `Ast`, `Bytecode`, `Compiler`, `Vm` and
`TreeWalker` define the one-pass register compiler, the machine and the
tree-walking evaluator.  `ChunkBuilder`, `VmLoop` and `WalkerLoop` are the
compiler, the dispatch loop and the evaluator as they run, updating a chunk, a
register array and a stack in place, each proved against its functional
counterpart.  `ExprSimulation`, `StmtSimulation`,
`Divergence` and `TierEquivalence` prove that compilation preserves meaning in
both directions; `CallFrames` shows where arguments are bound, and
`WholeProgram` lifts the result to programs of mutually calling
functions in which some functions and loops are compiled and others are not, at
any call depth.  `ChunkSafety`, `SlotBound`, `SlotWitness`, `RegisterFile` and
`Cancellation` prove what every compiled chunk guarantees before it runs and how
it responds to the cancel flag.  `Boundaries` shows that the limits of the
equivalence are the real ones.  `WalkerTypes` is what the walker promises by
itself, `Completeness` which programs compile, `AccessEvents` what compiled field
and array accesses say to the outside, and `StringOwnership` which temporaries may
own a string.

The world outside a loop is an oracle over the log of events so far, so equal
logs mean equal calls in equal order.  Doubles are bit patterns under arbitrary
operations; what is assumed of them is exactness on integers up to 2^53.  The
walker stops as `Apart` where the tiers are known to differ: integers leaving
that range, a non-empty string as a condition, a returned call that takes the
tail-call path, field and array access.

**Persistent state.**  `Wire`, `BitWords`, `ValueCodec`, `PrstPool`, `PrstGraph` and
`Snapshot` define the snapshot format and prove the round trips, the sizes, the
checksums and what the reader accepts from arbitrary bytes; `ValueIo` and
`PoolStore` are the writer and reader with their cursors, and `Truncation` is
what the reader makes of a snapshot that is cut short.  Integers are
little-endian.  `Reload` is the rule that decides on each run whether the source
literal or the stored value wins.  `Handover` is the five-step protocol with its
rollback and `ErrorStack` the ring it reports to; `Rehearsal` and `TwiceIsOnce`
prove that applying the new program's declarations in the Dry Run and again live
is applying them once.

**Collector.**  `GcTable` is the open-addressing table with tombstones and
doubling, refined to a map; `PinSafety` proves that sweeping is safe under the
pin discipline of the two kinds of store.

**Protocols.**  `Resolver` is the work-stack resolver, `LexicalScope` the lexical
scoping it realises and `ScopeNotes` what its annotations can be relied on for.  `DevWorker` is the watcher and worker of the
development mode, `AllocCap` the capped allocator, `Rescue` the flood response of
the IPC server.

## Results about the code worth knowing

- Local slots from 128 on share registers with temporaries
  (`Boundaries.FaithfulIff`); the resolver hands out slots up to 511.
- The register file of a compiled function is sized without regard to its
  highest local (`Boundaries.FileCoversIff`).
- A literal of a new type is forgotten by the next reload (`Reload.StartKeptIff`),
  and a literal that replaces a headstone becomes the baseline only on the second
  pass (`TwiceIsOnce.BaselineAgreesIff`).
- A store compiled to a string-capable move does not pin
  (`PinSafety.StringMoveSafeIff`), although variables, calls and fields, which
  can yield dyn objects, are always stored that way.
- The walker pins an object again when it is stored into a slot that already holds
  it, and such an object is never freed (`PinSafety.FreedIff`).
- Persistent names beyond 255 bytes are cut and never found again
  (`PrstPool.LongNameLost`).
- A name resolved through an enclosing table carries that table's slot, which is
  also a slot of the function itself (`LexicalScope.ProgramShares`).
- Statements that do not fit on the resolver's work stack are dropped without a
  sign (`LexicalScope.OverflowLosesSlot`).
- The allocator's comparison with the cap wraps for requests near 2^64
  (`AllocCap.CapIsSafeIff`), and overlapping resizes can exceed the cap
  (`AllocCap.OverlapExceedsCap`).
- A pool of 4 GiB or more does not arrive (`Snapshot.ArrivesIff`), although each of
  its values is within the format's limits (`Snapshot.LargeStateLost`).
- A compiled function never reads the cancel flag, so only loops compiled on their
  own can be cancelled (`Cancellation.CancelStopsAnyRun`,
  `TierEquivalence.FnKeepsRunning`).
- The connection cap of the IPC server is never reached, because connections are
  served one at a time (`Rescue.IpcServer.Iterate`).

## Model

| member | source | states |
|---|---|---|
| `Compiler.CompileExpr` | src/bytecode.c:123-387 | compiling an expression only appends: no earlier instruction or constant changes, a failure is never forgotten, and temporaries are handed out upwards |
| `Compiler.CompileLogic` | src/bytecode.c:211-244 | the same for short-circuit operators, whose jumps are back-patched inside the appended part only |
| `Compiler.CompileCall` | src/bytecode.c:284-385 | the same for calls, including calls nested in argument windows |
| `Compiler.CompileStmt` | src/bytecode.c:389-632 | the same for statements with nested branches and loops |
| `ChunkBuilder.Builder.CompileExpr` | src/bytecode.c:123-387 | the in-place expression compiler leaves the chunk and returns the register that the functional compiler gives |
| `ChunkBuilder.Builder.CompileLogic` | src/bytecode.c:211-244 | the same for `&&` and `\|\|` |
| `ChunkBuilder.Builder.CompileBinary` | src/bytecode.c:245-264 | the same for the other binary operators |
| `ChunkBuilder.Builder.CompileCall` | src/bytecode.c:284-385 | the same for argument windows and call instructions |
| `ChunkBuilder.Builder.CompileArgs` | src/bytecode.c:345-368 | the argument loop fills its window exactly as the recursion over arguments does |
| `ChunkBuilder.Builder.CompileStmt` | src/bytecode.c:389-632 | the same for statements |
| `ChunkBuilder.Builder.CompileIf` | src/bytecode.c:435-457 | the same for branches with their back-patched jumps |
| `ChunkBuilder.Builder.CompileWhile` | src/bytecode.c:458-473 | the same for loops |
| `ChunkBuilder.Builder.CompileIndexSet` | src/bytecode.c:538-566 | the same for checked array stores |
| `ChunkBuilder.Builder.Drops` | src/bytecode.c:36-50 | the loop over marked registers emits the drops the specification emits |
| `ChunkBuilder.Builder.Alloc` | src/bytecode.c:78-86 | one register, or a failed chunk when none is left |
| `ChunkBuilder.Builder.Reserve` | src/bytecode.c:88-98 | consecutive registers for a call, or a failed chunk |
| `ChunkBuilder.CompileLoop` | src/bytecode.c:634-647 | a loop becomes the chunk of the functional compiler, or stays interpreted exactly when that one fails |
| `ChunkBuilder.CompileFn` | src/bytecode.c:649-671 | the same for a function body |
| `ExprSimulation.ExprCorrect` | src/bytecode.c:123-387 | for every expression the code leaves the walker's value in the returned register, writes no register below the entry watermark, and makes the same calls with the same arguments in the same order |
| `ExprSimulation.CallCorrect` | src/bytecode.c:338-385 | the same for calls nested in argument windows |
| `ExprSimulation.LogicCorrect` | src/bytecode.c:211-244 | the same for short-circuit operators: the right operand is evaluated exactly when the walker evaluates it |
| `ExprSimulation.OperatorsAgree` | src/runtime.c:477-621 | every operator gives the same value in both tiers wherever the walker gives one and integers stay exact |
| `StmtSimulation.StmtCorrect` | src/bytecode.c:389-632 | for every statement the walker finishes without error, the code reaches the same locals, events and return signal |
| `StmtSimulation.BlockCorrect` | src/bytecode.c:428-434 | the same for sequences, temporaries being reused between statements |
| `StmtSimulation.WhileCorrect` | src/bytecode.c:458-473 | the same for loops, by induction on the iterations |
| `Divergence.StmtDiverges` | src/bytecode.c:458-473 | as long as the walker has not finished, the code has not finished either |
| `WalkerLoop.Interp.EvalExpr` | src/runtime.c:477-621 | the recursive evaluator gives every expression the specified value and events, or the specified error |
| `WalkerLoop.Interp.CallFunction` | src/runtime.c:693-699 | arguments are evaluated left to right by a loop that always runs to its end; after an error the rest does nothing, and the call is not made |
| `WalkerLoop.Interp.ExecStmt` | src/runtime.c:2166-2491 | statements executed on the stack in place end as specified, with the specified stack and events |
| `WalkerLoop.Interp.AssignVar` | src/runtime.c:2166-2229 | assignment: the variable must exist and keep its type |
| `WalkerLoop.Interp.ExecBody` | src/runtime.c:2334-2366 | a block stops at the first statement that does not end normally |
| `WalkerLoop.Interp.ExecLoop` | src/runtime.c:2458-2488 | the `while` loop runs as specified for any number of iterations |
| `WalkerTypes.TypesKept` | src/runtime.c:2166-2189 | a variable all of whose declarations demand one type holds values of that type after any code, whatever is assigned and however often |
| `WalkerTypes.UnwrittenRaises` | src/runtime.c:324-335 | reading or assigning a variable beyond everything written so far never yields a value or completes, after any code and whatever the stack holds there |
| `WalkerTypes.NothingRaises` | src/runtime.c:324-335 | so is reading a slot that holds nothing |
| `WalkerTypes.StoredIsRead` | src/runtime.c:400-439 | what a declaration or assignment stores is what is read next, and other variables read as before |
| `WalkerTypes.WrongTypeRaises` | src/runtime.c:2175-2188 | an assignment is refused if and only if the variable is unwritten or of another type, a declaration if and only if the value is not of the declared type |
| `WalkerTypes.OperatorRaisesIff` | src/runtime.c:582-621 | exactly when an operator ends in an error, and what the machine, which reports none, gives in the place of two of them |
| `Values.TruncRemIs` | src/runtime.c:610-613 | the remainder both tiers use is what the quotient rounded toward zero leaves, smaller than the divisor and with the sign of the dividend |
| `TierEquivalence.LoopRefines` | src/runtime.c:2379-2491 | whatever loop the walker finishes, the compiled loop finishes with the same locals, events and return signal |
| `TierEquivalence.LoopKeepsRunning` | src/runtime.c:2458-2488 | where the walker still loops, so does the machine |
| `TierEquivalence.MachineAgrees` | src/runtime.c:2379-2491 | conversely, however the machine ends is how the walker ends |
| `TierEquivalence.TiersAgree` | src/runtime.c:2379-2491 | a loop ends in one tier if and only if it ends in the other |
| `TierEquivalence.FnRefines` | src/bytecode.c:649-671 | a function body gives its caller the same value and events walked or compiled |
| `TierEquivalence.FnKeepsRunning` | src/bytecode.c:807-1060 | where the walker is still busy with a function body so is the machine, whose jumps read no cancel flag there |
| `TierEquivalence.FnTiersAgree` | src/bytecode.c:649-671 | a function ends compiled if and only if it ends walked |
| `CallFrames.ArgumentsInOrder` | src/runtime.c:756-763 | argument i is in slot i, on the interpreter's stack and in any register file, and all other slots of a fresh frame are nil |
| `CallFrames.OldValuesInvisible` | src/runtime.c:744-763 | a body that ends on a fresh frame ends the same way on the interpreter's stack, whatever earlier calls have left there |
| `CallFrames.ProjectionAnswers` | src/runtime.c:1876-1901 | a function that returns its i-th parameter answers the i-th argument in both tiers, for every arity and whoever calls |
| `CallFrames.WrongCallsRefused` | src/runtime.c:676-691 | a call with the wrong number of arguments, or too deep, is refused in both tiers |
| `WholeProgram.LoopAgrees` | src/runtime.c:2379-2436 | a compiled loop entered from a frame that earlier compiled loops have widened still does what the walker does |
| `WholeProgram.NestedLoopAgrees` | src/runtime.c:2398-2410 | so it does when the functions it calls run on the same stack and leave anything above the frame it announced |
| `WholeProgram.StmtTiered` | src/runtime.c:2166-2491 | an interpreter that runs its loops as chunks wherever they compile ends every statement as the pure walker does |
| `WholeProgram.ChunkAnswers` | src/runtime.c:1860-1901 | a function chunk on its own short register file answers its caller as the walked body does |
| `WholeProgram.BodyAnswers` | src/runtime.c:676-890 | so does a walked body whose loops are compiled, whatever serves its walked calls and those of its loops |
| `WholeProgram.SameOnAnyFile` | src/runtime.c:1877-1884 | register files of any two sizes that cover the chunk give the same run |
| `WholeProgram.TiersCover` | src/runtime.c:1860-1901 | for programs of mutually calling functions and any call depth, the tiered runtime answers every call the walked program answers, with the same value and events; calls from compiled code run the chunk if there is memory for it, calls from walked code walk the callee |
| `WholeProgram.ProgramRunsTheSame` | src/runtime.c:2379-2436 | hence a whole program ends with the same locals, events and signal in both |
| `WholeProgram.MoreFuel` | src/runtime.c:2458-2488 | more loop iterations allowed never change an outcome that was reached |
| `WholeProgram.WalkBodyUnique` | src/runtime.c:676-890 | the reference answer does not depend on the bound chosen |
| `Completeness.ExprCompilesIff` | src/bytecode.c:123-387 | an expression compiles if and only if the compiler knows every construct in it and the constants and registers counted over its syntax are free, and then it uses exactly those |
| `Completeness.StmtCompilesIff` | src/bytecode.c:389-632 | the same for statements, which give all their registers back |
| `Completeness.LoopCompilesIff` | src/bytecode.c:634-647 | a loop is compiled if and only if it is known, needs at most 128 constants and at most 384 temporaries |
| `Completeness.FnCompilesIff` | src/bytecode.c:649-671 | the same for a function body |
| `AccessEvents.FieldReadEvent` | src/bytecode.c:1215-1245 | reading a field asks for that field of that owner, and a scalar field yields nothing but scalars |
| `AccessEvents.FieldWriteEvent` | src/bytecode.c:524-537 | writing a field computes the value, then hands it to that field of that owner |
| `AccessEvents.BareFieldWriteEvent` | src/bytecode.c:410-425 | assigning a bare name that is a field of the current instance writes that field |
| `AccessEvents.IndexReadEvent` | src/bytecode.c:1246-1258 | reading an element computes the index, then asks for that element; an error ends the run |
| `AccessEvents.IndexWriteEvents` | src/bytecode.c:538-566 | storing an element checks the index before the value is computed, skips both value and store if it is refused, and otherwise stores the value under the index checked |
| `StringOwnership.DropsExact` | src/bytecode.c:36-47 | one drop is emitted for each marked register of the range, in order, and exactly those marks are cleared |
| `StringOwnership.LoopOwnsStrings` | src/bytecode.c:31-47 | in every compiled loop each instruction that may leave a string in a temporary is followed by a drop of it, or the temporary is still marked at the end |
| `StringOwnership.FnOwnsStrings` | src/bytecode.c:31-47 | the same for compiled functions |
| `SlotBound.FnLimit` | src/bytecode.c:74-76 | a function chunk whose locals sit below the temporaries touches no register beyond its announced limit |
| `SlotWitness.HighestLocalNamed` | src/bytecode.c:74-76 | every compiled function that records a local has an instruction naming the highest one recorded |
| `ChunkSafety.LoopChunkClosed` | src/bytecode.c:634-647 | in every compiled loop all register, constant and jump operands are in range, only `Jump` goes backward, and a return ends the code |
| `ChunkSafety.FnChunkClosed` | src/bytecode.c:649-671 | the same for compiled functions |
| `ChunkSafety.ExprOk` | src/bytecode.c:123-387 | the instructions of every expression are in range, array and field opcodes included |
| `ChunkSafety.StmtOk` | src/bytecode.c:389-632 | the same for every statement |
| `Cancellation.StepMovesForward` | src/bytecode.c:1071-1293 | an instruction either moves forward or is an uncancelled `Jump`, and never leaves the chunk |
| `Cancellation.CancelBound` | src/bytecode.c:1186-1190 | with the flag up at most `count - ip` more instructions execute |
| `Cancellation.CancelStopsAnyRun` | src/bytecode.c:1186-1190 | whatever a run has done before, raising the flag ends it within one pass over the code |
| `VmLoop.VmRun` | src/bytecode.c:1071-1293 | the dispatch loop on a register array computes the specified run, every unchecked array access being in bounds |
| `VmLoop.Compute` | src/bytecode.c:1121-1214 | computing opcodes on the array |
| `VmLoop.Control` | src/bytecode.c:1177-1190 | jumps and returns |
| `VmLoop.Call` | src/bytecode.c:1192-1212 | call opcodes pass the window of registers the instruction designates |
| `VmLoop.Access` | src/bytecode.c:1215-1285 | field and array opcodes; a failed index ends the run |
| `RegisterFile.NamedBelowLimit` | src/bytecode.c:74-98 | every register an instruction of a compiled chunk names lies below the larger of `next_reg` and `max_slot` |
| `RegisterFile.NestedCall` | src/runtime.c:1583-1709 | an interpreted call hands the callee its arguments over cleared slots and afterwards restores `stack_size` slots, whatever the callee does; the rest of the stack is the callee's |
| `RegisterFile.NestedCallsInvisible` | src/runtime.c:2398-2410 | a chunk whose calls run on its own stack, each leaving arbitrary values above the announced frame, has after any number of instructions the position, events, outcome and named registers it would have if calls touched nothing |
| `RegisterFile.AnnouncedFrameSuffices` | src/runtime.c:2398-2410 | the frame announced for a compiled loop covers every register it names, high locals included |
| `RegisterFile.LoopCallsInvisible` | src/runtime.c:2398-2410 | so nested calls are invisible to every compiled loop whose registers fit the stack |
| `RegisterFile.NothingOfTheCaller` | src/runtime.c:747-754 | a callee finds nil wherever its caller had values, and in the 64 slots behind its parameters |
| `RegisterFile.RunShort` | src/bytecode.c:807-1060 | a register file that covers the chunk behaves as the full stack does, for any number of steps |
| `Boundaries.FaithfulIff` | src/bytecode.c:659-660 | for limits up to 512: all functions with locals below the limit compile faithfully if and only if the limit is at most 128 |
| `Boundaries.NotFaithful` | src/bytecode.c:1124-1125 | for each slot from 128 on, a function, nested nine deep at most, that returns a temporary in place of that local |
| `Boundaries.FileCoversIff` | src/runtime.c:1877-1882 | the register file of every compiled function covers all registers its instructions name if and only if its highest local is below the larger of `next_reg` and the argument count, plus 32 |
| `Boundaries.ReturnedLocalCovered` | src/runtime.c:1877-1882 | for the function that returns one local, covered means a slot below the larger of 128 and the argument count, plus 32 |
| `Boundaries.ConditionsAgreeIff` | src/runtime.c:2367-2377 | the tiers branch alike on a value if and only if it is not a non-empty string |
| `Boundaries.RoundingIsExact` | src/runtime.c:582-608 | arithmetic that rounds above 2^53 satisfies everything the equivalence assumes of doubles |
| `Boundaries.SumsAgreeIff` | src/bytecode.c:1143-1150 | under it, sums of non-negative exact integers agree between the tiers exactly when the sum is at most 2^53 or even |
| `ValueCodec.SizeIsExact` | src/prst_pool.h:287-296 | the precomputed size of a value is always enough, and exact if and only if no string exceeds an `int32_t` |
| `ValueCodec.ParseEncode` | src/prst_pool.h:334-434 | any value written and read back as any type gives the value coerced to that type, or is rejected exactly when some array, at any depth, has more than 65536 elements |
| `ValueCodec.CoerceKeepsIff` | src/prst_pool.h:343-352 | read back as its own type a value is unchanged if and only if it contains no handle and no empty array |
| `ValueCodec.ParsedIsNormal` | src/prst_pool.h:334-434 | whatever the bytes, an accepted value has its declared type or is nil, is in range, and re-reads as itself |
| `ValueCodec.BadLengthsRefused` | src/prst_pool.h:334-434 | lengths and counts that are negative, too large or not backed by bytes are refused under every type |
| `ValueIo.SerValue` | src/prst_pool.h:262-284 | the recursive writer puts exactly the encoding at the cursor, changes nothing else, and stays inside the reserved bytes |
| `ValueIo.DeserValue` | src/prst_pool.h:334-434 | the reader with its loops computes the specified parse on every byte string, all accesses in bounds |
| `ValueIo.DeserElems` | src/prst_pool.h:366-432 | the element loop, keeping or skipping elements |
| `PrstPool.LoadEntryBack` | src/prst_pool.h:451-490 | one entry reads back whatever bytes follow the terminator of its name |
| `PrstPool.RoundTrip` | src/prst_pool.h:298-329 | a written pool reads back as the same entries in the same order, and is accepted if and only if it has at most 65536 entries and no longer array |
| `PrstPool.PlainPoolSurvives` | src/prst_pool.h:438-493 | a pool of plain values comes back unchanged |
| `PrstPool.ChecksumCarries` | src/prst_pool.h:215-236 | the checksum before writing is the checksum of what is read, when integer entries and only they hold integers |
| `PrstPool.CorruptionNoticed` | src/prst_pool.h:215-236 | changing one integer in one 32-bit half always changes the checksum, wherever it is in the pool |
| `PrstPool.NameCorruptionNoticed` | src/prst_pool.h:215-236 | so does changing one byte of a name |
| `PrstPool.TypeCorruptionNoticed` | src/prst_pool.h:215-236 | and changing the low byte of a recorded type |
| `PrstPool.OthersUnnoticed` | src/prst_pool.h:212-213 | changing a value that is not an integer never does |
| `PrstPool.AcceptedIsRestored` | src/prst_pool.h:438-493 | whatever the bytes, an accepted pool has pairwise distinct names and values of their declared type or nil |
| `PrstPool.BadCountRefused` | src/prst_pool.h:438-450 | a count that is negative or beyond 65536 is refused and the pool stays as it was |
| `PrstPool.SetIs` | src/prst_pool.h:123-175 | a value is refused if and only if the name is known with another type; otherwise the name stands for it and no other entry changes |
| `PrstPool.LongNameLost` | src/prst_pool.h:62-67 | a name beyond 255 bytes is cut, so it is never found again and every store adds an entry |
| `Truncation.CutPoolRefused` | src/prst_pool.h:438-493 | a pool snapshot that ends early is refused, unless only the count and elements of the last initial value are missing |
| `PoolStore.EntriesSizeIsExact` | src/prst_pool.h:300-307 | the precomputed size of a pool is enough, and exact unless a string is too long for its length field |
| `PoolStore.Store.Put` | src/prst_pool.h:123-175 | a type collision leaves the pool as it was; otherwise exactly one entry changes or one is added |
| `PoolStore.Store.Save` | src/prst_pool.h:298-329 | the buffer has the precomputed size and holds the snapshot; all of it unless a string is too long |
| `PoolStore.Store.Load` | src/prst_pool.h:438-493 | reading any bytes gives the specified pool and result |
| `PoolStore.Store.Hash` | src/prst_pool.h:215-236 | the loop computes the checksum |
| `PoolStore.Store.DeclarePrst` | src/runtime.c:1983-2143 | a declaration met while running updates the pool and yields the start value that the reload rule specifies |
| `PrstGraph.GraphRoundTrip` | src/prst_graph.h:121-153 | a written graph reads back byte for byte, and is accepted exactly up to 65536 records |
| `PrstGraph.GraphCorruptionNoticed` | src/prst_graph.h:107-118 | changing one byte of a name in any record changes the checksum |
| `PrstGraph.DepGraph.Record` | src/prst_graph.h:55-90 | a new pair is appended unless the cap is reached; pairs stay distinct |
| `PrstGraph.DepGraph.Invalidate` | src/prst_graph.h:156-167 | swap-removal leaves no record of the variable and every other record as often as before |
| `PrstGraph.DepGraph.Load` | src/prst_graph.h:136-153 | reading any bytes gives the specified graph and result |
| `Snapshot.Migration` | src/handover.c:155-264 | a well-formed state below 4 GiB is migrated if and only if it is within the format's limits, and arrives as the format carries it, both checksums agreeing; from 4 GiB on, where the size field wraps, it is refused, or passes for an empty pool at an exact multiple, unless one initial value is itself that large |
| `Snapshot.GateIsExact` | src/handover.c:205-247 | any well-formed pool below 4 GiB and any graph behind a header with any magic, version and sums: the exact result code, in particular a checksum error exactly when what was read does not have the announced sum, and acceptance with what was written otherwise |
| `Snapshot.CorruptPoolRefused` | src/handover.c:226-228 | one integer of a saved pool changed in one 32-bit half is refused with a checksum error |
| `Snapshot.CorruptGraphRefused` | src/handover.c:239-241 | so is one byte of a name in a saved graph |
| `Snapshot.ForeignHeaderRefused` | src/handover.c:212-216 | under another magic or an unknown version nothing is read at all |
| `Snapshot.BareHeaderAccepted` | src/handover.c:222-244 | a header that announces no bytes restores the empty state |
| `Snapshot.ArrivesIff` | src/handover.c:155-264 | unless one initial value fills 4 GiB, a state arrives unchanged by the format if and only if it is within the format's limits and its pool is smaller than 4 GiB |
| `Snapshot.LargeStateLost` | src/handover.c:185-186 | one variable with the longest string as value and initializer is within every limit and does not arrive |
| `Snapshot.VersionsAccepted` | src/handover.h:158-164 | exactly versions 1000 and 1001 are readable |
| `Reload.Replayable` | src/runtime.c:79-93 | an initializer is evaluated again exactly when it is built from literals only |
| `Reload.HistoryTracked` | src/runtime.c:1990-2143 | after any history of runs and assignments, with anything done to other variables in between, the baseline of a variable is its latest literal, up to the equality of doubles, and its value the one it last had |
| `Reload.RunStartsWith` | src/runtime.c:2052-2123 | a run starts with the new literal, of whatever type, if it differs from that of the most recent run that declared the variable, otherwise with the value it last had |
| `Reload.StartKeptIff` | src/runtime.c:2062-2121 | a source that is run again unedited, any number of times, starts where its first run started if and only if its literal was unchanged then, has the recorded type, or is a NaN; otherwise the old value is back for good |
| `Reload.AbortsIff` | src/runtime.c:2029-2051 | exactly when a declaration fails; it leaves the pool as it was |
| `Rehearsal.PassLookup` | src/runtime.c:1990-2143 | a pass over any declarations does to each variable what that variable's own declarations do |
| `Rehearsal.PassSucceedsIff` | src/runtime.c:1990-2143 | it succeeds exactly when no variable's declarations fail |
| `Rehearsal.TypeChangeAborts` | src/prst_pool.h:123-150 | a declaration that changes the type of a live variable fails the pass and leaves the value, whatever comes after it |
| `TwiceIsOnce.BaselineAgreesIff` | src/runtime.c:125-133 | one declaration rehearsed, its resource given up, and applied again leaves the state of a single application; the baselines agree if and only if no literal replaced a headstone |
| `TwiceIsOnce.VariableTwice` | src/runtime.c:2023-2051 | the same for one variable whose declarations run any number of times, in any order, with any literals |
| `TwiceIsOnce.HandoverPreserves` | src/handover.c:267-330 | Dry Run, headstones and live run leave the same variables, order, values and types as applying the declarations once, resources coming from the live run only |
| `TwiceIsOnce.VariableSurvives` | src/main.c:1527-1530 | across snapshot, Dry Run and live run an integer, double, boolean or string keeps A's value if its literal is unchanged and takes the new literal otherwise |
| `Handover.Ctx.Execute` | src/handover.c:411-429 | every execution ends committed or failed as the environment decides; A's pool, graph and cycle count are untouched; on failure nothing is held and A has exactly one more error; on success `poolAfter` owns the rehearsed pool and A stood at a safe point at the swap |
| `Handover.Ctx.Step1` | src/handover.c:122-152 | standby |
| `Handover.Ctx.Step2` | src/handover.c:250-264 | migration, with the candidate holding what was read even where reading fails |
| `Handover.Ctx.Step3` | src/handover.c:267-330 | the Dry Run succeeds if and only if its result is zero, no error is pending and B's error stack is empty; then resources are headstones |
| `Handover.Ctx.Step4` | src/handover.c:333-380 | waits for a safe point until the deadline; success exactly when one is found in time, refusal when there is no clock |
| `Handover.AwaitSafePoint` | src/handover.c:355-366 | the polling loop finds a safe point if and only if there is one before the deadline, and always ends |
| `Handover.Ctx.Step5` | src/handover.c:383-408 | cleanup releases everything but the transferred pool |
| `Handover.Ctx.Abort` | src/handover.c:98-119 | releases everything held, once, and leaves the context ready for another attempt |
| `Handover.Ctx.Fail` | src/handover.c:68-81 | one error on A and a full rollback |
| `Handover.CommitsIff` | src/handover.c:411-429 | a well-formed state below 4 GiB commits if and only if the program resolves, memory suffices, the state fits the format, the Dry Run leaves no error of any kind and A reaches a safe point in time; a larger one commits at most with an empty pool, unless one initial value is itself that large |
| `Handover.FailuresIff` | src/handover.c:122-380 | for each error code, exactly when it is the result; any entry on B's error stack gives the Dry Run error once the steps before it pass |
| `Handover.CommittedStateSurvives` | src/handover.c:411-429 | after a committed handover the live run ends as one run of the new declarations on A's migrated state would |
| `ErrorStack.ErrStack.Push` | src/err.h:58-77 | the ring keeps the newest 32 errors in order |
| `ErrorStack.ErrStack.Get` | src/err.h:81-86 | index 0 is the most recent error |
| `ErrorStack.ErrStack.Clear` | src/err.h:52-55 | whatever the ring held, nothing is left |
| `GcTable.Gc.Register` | src/gc.h:82-127 | a new key is added with no pins, after doubling if needed; insertion always finds room; nothing else changes |
| `GcTable.Gc.Grow` | src/gc.h:88-112 | rehashing keeps the map |
| `GcTable.Gc.FindSlot` | src/gc.h:69-79 | a key is found exactly when it is tracked, tombstones notwithstanding |
| `GcTable.Gc.Pin` | src/gc.h:129-132 | one more pin on a tracked key |
| `GcTable.Gc.Unpin` | src/gc.h:134-139 | one pin less, never below zero, and whether it is now unpinned |
| `GcTable.Gc.Unregister` | src/gc.h:141-156 | the key is gone, the rest stays reachable |
| `GcTable.Gc.Sweep` | src/gc.h:159-175 | frees exactly the unpinned objects, each once |
| `GcTable.InsertAgrees` | src/gc.h:114-126 | taking the first slot not in use keeps every key reachable by probing |
| `GcTable.NotFound` | src/gc.h:69-79 | a probe that ends at an empty slot or comes full circle proves the key absent |
| `GcTable.RoomLeft` | src/gc.h:87-126 | a table with more slots than keys has a usable slot |
| `GcTable.BytesRemove` | src/gc.h:147-151 | the byte total is the sum over the map, in any order |
| `PinSafety.RunSafe` | src/runtime.c:400-438 | over any interleaving of stores by walker and machine, registrations and sweeps, each object has at least as many pins as slots hold it |
| `PinSafety.SweepFreesNothingHeld` | src/gc.h:159-175 | a sweep at any point frees exactly the unpinned objects and none that a slot holds |
| `PinSafety.PinsAreCounted` | src/runtime.c:400-439 | after any run an object has exactly one pin for each slot that holds it and one for each store by the walker into a slot that held it already |
| `PinSafety.FreedIff` | src/gc.h:159-175 | an object without a slot is freed by the next sweep if and only if no such repeated store happened to it; otherwise it leaks |
| `PinSafety.MachineNeverLeaks` | src/runtime.c:974-982 | in runs of the machine's stores pins equal holders, and a sweep leaves exactly the objects that a slot holds |
| `PinSafety.StringMoveSafeIff` | src/bytecode.c:1135-1135 | a move that may carry a string keeps the discipline if and only if it stores no object, the same object, or one with pins to spare |
| `PinSafety.ObjectsMoveAsStrings` | src/bytecode.c:393-408 | every compiled assignment of a variable, a call or a field to a local contains such a move |
| `PinSafety.StringMoveLosesObject` | src/bytecode.c:1135-1135 | a run with one such move after which a sweep frees an object a slot holds |
| `PinSafety.Frame.RtSet` | src/runtime.c:400-438 | the walker's store changes slots and pins as specified |
| `PinSafety.Frame.VmStore` | src/runtime.c:974-982 | so does the machine's |
| `DevWorker.RunKeeps` | src/main.c:384-444 | the invariant of worker, watcher, flags and signals holds in every interleaving, spurious wake-ups included |
| `DevWorker.OneAtATime` | src/main.c:384-403 | at most one run is pending or executing, and it is the last one requested |
| `DevWorker.EveryRequestRunsOnce` | src/main.c:545-600 | when the watcher moves on, runs 1 to n have each begun and ended once, in order |
| `DevWorker.WaitMeansEnded` | src/main.c:430-435 | the wait returns only after the requested run has ended |
| `DevWorker.CancelHitsItsTarget` | src/main.c:584-591 | a run that sees the cancel flag is the run the cancel was aimed at |
| `DevWorker.OnlyTargetsAreCancelled` | src/main.c:545-600 | in every interleaving a run that ended cancelled had itself been the target of a cancel |
| `DevWorker.UntargetedRunsComplete` | src/main.c:545-600 | a run that no cancel was aimed at ends on its own |
| `DevWorker.NoStaleCancel` | src/main.c:406-413 | a run that begins under a raised flag is already the one it was raised for |
| `DevWorker.WaitingIsJustified` | src/main.c:430-435 | a waiting watcher implies a pending or executing run or a wake-up on its way |
| `DevWorker.NeverStuck` | src/main.c:384-444 | until the watcher is gone some thread can move, even if no wait ends by itself |
| `Resolver.ResolveStmts` | src/resolver.c:184-411 | the work-stack loop computes the specified run on every program; where the deepest stack the program needs fits 4096 items it is recursive pre-order resolution, and where the tables suffice something is dropped exactly when it does not fit |
| `Resolver.LoopFits` | src/resolver.c:168-182 | work that fits on the stack is resolved as by recursion, nothing being dropped |
| `Resolver.LoopDropsIff` | src/resolver.c:168-174 | with enough tables the loop never fails, and drops something if and only if the work does not fit |
| `Resolver.FailsIff` | src/resolver.c:196-203 | resolution fails if and only if the functions, blocks and methods outnumber the tables left |
| `Resolver.FirstStatementsLost` | src/resolver.c:176-182 | of a sequence too long for the stack the first statements are lost and nothing else is |
| `Resolver.ResolveAppend` | src/resolver.c:168-182 | resolving a list is resolving its parts in turn |
| `Resolver.DeclareKeeps` | src/resolver.c:42-51 | offsets stay dense and injective: known names keep theirs, a new name gets the next, a full table refuses |
| `Resolver.ParameterOffsets` | src/resolver.c:289-290 | distinct parameters, up to 512, get the offsets 0, 1, 2 and so on, which are the slots their arguments are bound to |
| `Resolver.DeclaredOnce` | src/resolver.c:289-290 | of repeated parameters the first counts, and a table never has more than 512 names |
| `Resolver.WorkStack.PushList` | src/resolver.c:176-182 | children are taken in their order, before everything already waiting |
| `LexicalScope.ItemIsLexical` | src/resolver.c:184-411 | resolving a statement in a pooled table gives its scope and every node what lexical scoping gives them, and touches no other table |
| `LexicalScope.ExprIsLexical` | src/resolver.c:59-149 | the same for expressions, which change annotations only |
| `LexicalScope.FindIsLexical` | src/resolver.c:34-40 | lookup through parent tables is lexical lookup |
| `LexicalScope.MembersAreLexical` | src/resolver.c:312-342 | a block's fields and methods, each method in an isolated table |
| `LexicalScope.ResolverRun` | src/resolver.c:424-437 | a program is resolved without loss if and only if its stack depth is at most 4096 and its tables at most the cap, and then every node gets the slot and warm flag of lexical scoping and the slot count is the size of the largest table; -1 means too few tables |
| `LexicalScope.OverflowLosesSlot` | src/resolver.c:168-169 | a program of 4097 declarations is resolved without a sign of trouble, and its first variable gets no slot |
| `LexicalScope.OffsetDenotesOwnIff` | src/resolver.c:68-74 | an offset denotes the name in the innermost table if and only if the name is found there |
| `LexicalScope.OuterNameShares` | src/resolver.c:68-74 | a name found in the enclosing table shares slot and flag with a name of the function itself |
| `LexicalScope.ProgramShares` | src/resolver.c:68-74 | a whole program in which a global and a parameter used by one function get the same slot and flag |
| `ScopeNotes.ProgramNotes` | src/resolver.c:59-411 | a rule that every node of a program obeys, whatever slot is found, holds of every annotation the resolver gives |
| `ScopeNotes.PersistentNeverWarm` | src/resolver.c:221-230 | nodes that stand for persistent declarations are never warm, anywhere in a program |
| `ScopeNotes.WarmIff` | src/resolver.c:221-230 | a declaration of a literal is warm if and only if it is local to a function, not persistent, and has a slot |
| `ScopeNotes.SlotsCoverVariables` | src/resolver.c:227-228 | every variable and loop variable of a program has an offset below the slot count returned |
| `ScopeNotes.InitializerSeesOutside` | src/resolver.c:222-223 | an initializer that is the declared name itself means the variable outside |
| `ScopeNotes.LoopArraySeesOutside` | src/resolver.c:252-256 | so does the array of a loop |
| `ScopeNotes.FunctionSeesItself` | src/resolver.c:282-302 | a function body finds the function's own name, unless a parameter has it or the table was full |
| `AllocCap.CapHolds` | src/fluxa_alloc.h:71-128 | in every interleaving of any number of threads, with requests of at most b bytes that together fit the counter, the blocks handed out stay under the cap if nobody asks during a resize, and exceed it by at most b for every other thread if somebody does; with no call under way the counter is the sum over the live blocks |
| `AllocCap.CapIsSafeIff` | src/fluxa_alloc.h:71-87 | without overlapping resizes the cap holds in every run of requests of at most b bytes if and only if the cap and b for every thread fit the counter |
| `AllocCap.OverlapExceedsCap` | src/fluxa_alloc.h:106-119 | two overlapping resizes both pass the comparison and exceed the cap by the full growth of one |
| `AllocCap.StepKeeps` | src/fluxa_alloc.h:71-128 | every step of allocating, resizing and freeing keeps the counter exact and what the cap has agreed to within cap and slack |
| `AllocCap.BlocksAreFew` | src/fluxa_alloc.h:71-75 | even blocks of no bytes cost nine, so a ninth of the cap, with the overshoot racing threads can cause, bounds how many there can be |
| `Rescue.RunBounded` | src/ipc_server.c:765-806 | in every run clean means a burst below 10, soft one between 1 and 20 |
| `Rescue.CleanCounts` | src/ipc_server.c:135-177 | below the threshold every bad packet of a window counts, and nothing else changes |
| `Rescue.FloodNoticed` | src/ipc_server.c:138-152 | the tenth bad packet of a window puts a clean server into the soft mode, whatever else arrives |
| `Rescue.SoftCounts` | src/ipc_server.c:850-862 | in soft mode the counting goes on for all but packets whose magic could be read |
| `Rescue.FloodEscalates` | src/ipc_server.c:788-797 | and at twice the threshold the next loop head enters the hard mode |
| `Rescue.HardLasts` | src/ipc_server.c:785-797 | whatever arrives, the hard mode is not left before 30 seconds from its entry |
| `Rescue.HardEnds` | src/ipc_server.c:777-786 | and it is left at the first loop head after them |
| `Rescue.HardEntry` | src/ipc_server.c:789-797 | it is entered only from the soft mode at the second threshold, which is when its clock starts |
| `Rescue.SoftClears` | src/ipc_server.c:801-806 | without bad traffic a soft mode below the second threshold is over after five windows |
| `Rescue.FiveSecondsClear` | src/ipc_server.c:801-806 | which is five seconds if the loop looks at the clock every second |
| `Rescue.IpcServer.Iterate` | src/ipc_server.c:773-871 | one turn of the loop changes the server's fields as specified, and the branch for too many connections is never taken |
| `Rescue.IpcServer.CountBad` | src/ipc_server.c:135-177 | a bad packet is counted unless the mode is hard |

## Left out

- String reference counting in registers and frames: drops and copies are modelled as plain moves to nil and of values; which temporaries are dropped is proved of the code only.
- Field, array and method-field access in the meaning-preservation theorems: lookup precedence differs between the tiers; what the compiled accesses ask of the outside is proved.
- Tail-call trampolines, `danger` blocks and thread clones; a returned call of a program function ends the walker's run as `Apart`.
- Integer wrap-around at 64 bits: the tiers are compared on integers within 2^53, and `Int` is unbounded in the machine.
- The 100 million iteration limit of the walked loop outside development mode.
- The sync of persistent variables after a compiled loop, and pool writes by loops during a Dry Run.
- Failed allocations inside the deserializer, the pool and the graph; the handover's own allocations may fail.
- Name fields of a received graph that contain no terminator.
- 32-bit overflow of the collector's capacity, and collection of a whole table at teardown.
- Statements nested in expressions, and truncation of names beyond 255 bytes, in the resolver.
- The memory behind the allocator, which holds a block a little longer than the counter does when it is freed.
- Sharing of heap buffers between values: pool entries, slots and snapshots hold values, so deep clones are copies.
- Lexer, parser, warm-path promotion, FFI, sockets, file watching, IPC formatting and the command line: grammar, I/O or thin wrappers.
- TwiceIsOnce.HandoverPreserves: does not equate baselines where a literal replaces a headstone, because they differ there.
- PrstPool.ChecksumCarries: does not claim the converse, because different pools may share a checksum.
- AllocCap.CapHolds: does not bound runs whose requests can take the counter past 2^64, because the cap can then be exceeded.
- Handover.CommittedStateSurvives: speaks of states below 4 GiB, because larger ones are refused or lost.
- LexicalScope.ResolverRun: does not say which of two exceeded capacities is met first.

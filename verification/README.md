# Lua 5.1 core algorithms in Dafny

This project models parts of the Lua 5.1.1 interpreter under `lua/src` and proves what they are for.
Each component is modelled in two layers. Pure functions and relations say what the algorithm means: reachability,
finite maps, short-circuit evaluation, a matching relation, canonical trees, the bytes of a format. Imperative classes,
with the fields of the C structures, carry out the algorithm step by step and are proved against that layer.
`dafny verify dfyconfig.toml` checks everything.

## The components

| files | what they model |
|---|---|
| GcHeap, GcMarking, GcInvariant, GcClosing, GcSweeping, GcMutator, GcSafety, GcExact, GcProgress, GcEffects, GcUpvalOrder, GcMarkByte, Collector | the incremental tri-colour collector as a state machine (pause, propagate, sweep strings, sweep, finalize) interleaved with a program through the two barriers |
| LuaVM, Logic, Holes, Patches, Denote, Compile, ShortCircuit, Negate, Settling, Comparing, JumpLists, CodeGen | the code generator for logical expressions, whose pending jumps are lists threaded through the code, against the test and jump instructions |
| TableNodes, TableSizes, TableCount, TableParts, Tables | tables with an array part and a hash part of chained nodes (Brent's variation), dead keys, rehashing, traversal and length |
| Patterns, Matching, WrittenPatterns, WrittenCaptures, Matcher | the backtracking pattern matcher with its capture buffer, and what the text of a pattern means |
| Quicksort | the in-place sort of `table.sort` |
| Syntax, Precedence, Parser | precedence climbing over operator expressions, the levels of the operators, and a minimal printer |
| Upvalues | the lists of open upvalues of all threads, the ring they share, and closing |
| Scoping | name resolution through nested functions, upvalue descriptors and OP_CLOSURE |
| Bytes, Chunks, ChunkFormat, ChunkIO | binary chunks: their format, dumping, undumping, and the byte stream over a reader's chunks |
| Quoting, StringLexer, WrittenLiterals | `%q`, the lexer of string literals, and what literals mean |
| References | the reference allocator of the auxiliary library |

How the proofs are organised:

- **Collector.** The invariant says that what is not dead refers only to what is not dead, in every phase; the tri-colour
  invariant gives it at the flip of the white, and the sweep keeps it. The program's events are allowed on reachable objects
  and store reachable values only; stack writes run no barrier. Lists threaded by `next` and `gclist` are sequences, the
  two sweep pointers are positions in them, and an insertion before a pointer moves it. Steps alone, from wherever they
  start, come round to the pause and leave no garbage; what each event writes is stated by what can be read afterwards.
- **Code generator.** Code with unresolved jumps has a meaning of its own: a run stops at an open jump, and says which.
  The code of an operand is entered by falling through or by a jump that waited, which may carry a value in its TESTSET;
  Flow says how it leaves for each entry and what it then carries, and every operation on descriptors is proved against
  that. Once no jump is left open the run is the machine's. luaK_goiftrue and luaK_goiffalse share the emission of their
  last jump in the model, and so do the two connectives in luaK_posfix; the flag `truth` tells which.
  The reference manual promises that `and` and `or` return one of their operands. The source keeps that promise except
  where the luaK_jump of a literal takes over waiting jumps that carry a value: ((1 or false) and true) or false gives 1.
  The model follows the source; it is proved what the code computes in every case, exactly when that is the value
  the manual promises, and that a condition on the text of the expression alone suffices for it.
- **Tables.** The link structure is well formed if ranks go down along the links and every key is reachable from its main
  position. A level separates an outer insertion from the one after a rehash and from those made during a resize, so the
  mutual recursion of newkey, rehash, resize and luaH_set ends. At level 0, inside a resize, a table without a free node
  starves: that is where the source would rehash a half-filled table. It happens exactly if a rehash overlooks entries in
  array slots beyond 2^26, which lua_createtable can make and numusearray does not count.
- **Matcher.** Three readings are proved to agree: the backtracking function, the list of all matches in order of priority,
  and the relation. The imperative matcher refines the first. Written patterns tie the relation to the text: their parts
  mean lists of character codes, counts and texts, and the matcher finds what they mean.
- **Parser, lexer, scopes.** The numbers and letters in the code are tied to what they are for: priorities to the levels of
  the manual, escapes to bytes, and OP_CLOSE to the references in the text of nested functions.
- **Round trips.** Printing and parsing undo each other on every tree; dumping and undumping, and quoting and lexing, do so under
  conditions that are shown to be exact.

Conventions: objects of the C heap are addresses with maps for their fields; values a component does not look into are
identities; errors raised by `longjmp` are the failure result `Err`. Numbers are integers where they are keys, references
or sizes; number constants in chunks are their 64 bits.

## Model

| member | source | states |
|---|---|---|
| GcSafety.ReachableNeverFreed | lua/src/lgc.c:525-607 | From the state a new interpreter starts in, for every interleaving of collector steps, allocations, barriered writes, unbarriered stack writes, upvalue captures and closings, changes of the size of the string table, abandoned and restarted collections: every object the program can reach still exists and no coming sweep will free it, across white flips and cycles. |
| GcSafety.NoBlackToWhite | lua/src/lgc.c:662-710 | Over the same runs: while marking goes on, no black object refers to a white one. |
| GcSafety.ApplyInv | lua/src/lgc.c:556-710 | The collector invariant (tri-colour invariant, lists of gray objects, chains that hold each object once, what is not dead refers only to what is not dead, what the sweep has passed is white again) is kept by every collector step and every program event. |
| GcSafety.RunInv | lua/src/lgc.c:556-607 | The invariant holds throughout any allowed sequence of events. |
| GcSafety.InitialInv | lua/src/lstate.c:143-190 | The heap of a new interpreter satisfies the invariant. |
| GcSafety.SetSlotInv | lua/src/lgc.c:662-683 | A write into a table, function, prototype or userdata in any phase keeps the invariant: the forward barrier marks the value or whitens the object, the back barrier turns the table gray again; what it writes is stated by GcEffects.SetSlotEffect. |
| GcSafety.SetUpvalInv | lua/src/lgc.c:662-672 | An assignment through an upvalue keeps the invariant, also where an open upvalue belongs to a dead thread; what it writes is stated by GcEffects.SetUpvalWrites. |
| GcSafety.WriteStackInv | lua/src/lgc.c:297-306 | A stack may take any reachable values without a barrier, in any phase. |
| GcSafety.CreateInv | lua/src/lgc.c:686-692 | A new object, chained at the head of the list or after the main thread, keeps the invariant wherever the sweep stands. |
| GcSafety.InternInv | lua/src/lstring.c:75-93 | A dead string found in the string table comes back to life before the sweep reaches it. |
| GcSafety.FindInv | lua/src/lfunc.c:53-79 | Finding or creating an open upvalue keeps the invariant; one found dead is resurrected. |
| GcMarking.MarkObjectMarks | lua/src/lgc.c:69-112 | Marking an object leaves it not white, never whitens anything, settles every object it darkens (black only with its contents marked, gray only when listed), and only adds new gray objects to the gray list. |
| GcMarking.PropagateMarkTriColour | lua/src/lgc.c:277-320 | Traversing the first gray object keeps the tri-colour invariant and leaves it without white children; threads stay gray and are queued for a last visit. |
| GcMarking.AtomicMarkCompletes | lua/src/lgc.c:525-545 | After the atomic step everything a marked object or a root refers to is marked, whatever was written to stacks and gray tables before. |
| GcInvariant.MarkRootInv | lua/src/lgc.c:501-512 | Starting a collection from a white heap establishes the invariant of the mark phase. |
| GcInvariant.AtomicInv | lua/src/lgc.c:525-553 | The flip of the current white turns exactly the unmarked objects into dead ones and keeps the invariant. |
| GcInvariant.SweepChainSweeps | lua/src/lgc.c:407-428 | Sweeping a chain frees exactly its dead objects that are not fixed; the survivors stay in order and are white again, and freed open upvalues leave the ring. |
| GcInvariant.SweepBucketInv | lua/src/lgc.c:572-580 | Sweeping one bucket of the string table keeps the invariant. |
| GcClosing.CloseFirstInv | lua/src/lgc.c:695-710 | Closing an upvalue keeps the invariant in every phase and for every colour: dead ones are freed, gray ones turn black behind a barrier or white while sweeping. |
| GcSweeping.CloseInv | lua/src/lfunc.c:96-112 | Closing all upvalues of a thread from a level on keeps the invariant, and at level 0 leaves the thread without open upvalues. |
| GcSweeping.SweepRootInv | lua/src/lgc.c:407-428 | One turn of the sweep over the object list keeps the invariant, also when it frees a thread and so closes upvalues that join the list being swept. |
| GcSweeping.SingleStepInv | lua/src/lgc.c:556-607 | Every single step, in every phase, keeps the invariant. |
| GcSweeping.ResizedInv | lua/src/lstring.c:22-48 | A string table of another size keeps the invariant in every phase: its guard keeps it away from the sweep of the buckets. |
| GcSweeping.AllRechainedKeeps | lua/src/lstring.c:33-44 | Whatever the order of the old buckets, every string ends in the bucket of its hash and in no other. |
| GcExact.AtomicExact | lua/src/lgc.c:525-553 | With only reachable objects marked before it, the atomic step leaves unmarked exactly what is not reachable: what the sweep will keep is what is reachable or fixed. |
| GcExact.AbandonKeeps | lua/src/lgc.c:638-648 | Dropping an unfinished mark phase makes nothing dead: the sweep that follows keeps every object. |
| GcExact.SweepsReach | lua/src/lgc.c:407-428 | A sweep does not change the set of reachable objects. |
| GcExact.SweepStepProgress | lua/src/lgc.c:572-591 | Every step of a sweep brings its end nearer, even where freeing a thread adds closed upvalues to the list. |
| GcExact.FullExact | lua/src/lgc.c:636-659 | After the second sweep of a full collection the heap holds exactly the survivors of the state it began in, and they refer to the same objects. |
| GcMarkByte.MacrosChangeColour | lua/src/lgc.h:65-77 | Each bit macro on the mark byte changes the colour as intended and no other bit. |
| GcMarkByte.SweepTest | lua/src/lgc.c:411-420 | The one masked comparison of the sweep spares an object exactly if it is not of the other white, or is fixed. |
| Collector.GlobalState.constructor | lua/src/lstate.c:143-190 | The initial collector state, with the invariant. |
| Collector.GlobalState.ReallyMarkObject | lua/src/lgc.c:69-112 | In place: the marks and the gray list become what marking the object gives; nothing else changes. |
| Collector.GlobalState.MarkSlots | lua/src/lgc.c:158-196 | The traversal loop marks what each slot holds, in order. |
| Collector.GlobalState.PropagateMarkStep | lua/src/lgc.c:277-320 | In place: one gray object is traversed. |
| Collector.GlobalState.PropagateAllSteps | lua/src/lgc.c:323-327 | The loop empties the gray list, and terminates. |
| Collector.GlobalState.RemarkOpenUpvals | lua/src/lgc.c:515-522 | The walk around the upvalue ring marks the values of the gray open upvalues. |
| Collector.GlobalState.MarkRoots | lua/src/lgc.c:501-512 | In place: the start of a collection. |
| Collector.GlobalState.AtomicStep | lua/src/lgc.c:525-553 | In place: the whole atomic step, up to the flipped white and the reset sweep pointers. |
| Collector.GlobalState.SweepWholeList | lua/src/lgc.c:404-428 | The sweep of a whole chain: its survivors and the heap afterwards. |
| Collector.GlobalState.SweepList | lua/src/lgc.c:407-428 | At most the given number of objects of the object list are swept. |
| Collector.GlobalState.LinkUpvalue | lua/src/lgc.c:695-710 | In place: a closed upvalue joins the object list with the right colour. |
| Collector.GlobalState.BarrierF | lua/src/lgc.c:662-672 | In place: the forward barrier. |
| Collector.GlobalState.BarrierB | lua/src/lgc.c:675-683 | In place: the back barrier. |
| Collector.GlobalState.CloseUpvals | lua/src/lfunc.c:96-112 | In place: the loop that closes upvalues from a level on. |
| Collector.GlobalState.SingleStepMethod | lua/src/lgc.c:556-607 | In place: one step of the state machine, keeping the invariant; that these steps collect all garbage is stated by GcProgress.GarbageGoes. |
| Collector.GlobalState.FinishSweep | lua/src/lgc.c:649-653 | A pending sweep ends, and leaves exactly what the last marking kept. |
| Collector.GlobalState.FinishMark | lua/src/lgc.c:654-657 | The mark phase of a full collection ends, with exactly the reachable and fixed objects to be kept. |
| Collector.GlobalState.FullGc | lua/src/lgc.c:636-659 | A full collection from any state of the collector: what is left is exactly what the program could reach and what is fixed, the reachable set is unchanged, and every object refers to what it did. |
| GcProgress.CycleCompletes | lua/src/lgc.c:556-607 | From any pause with the invariant, some positive number of steps leads through a whole cycle back to the pause: exactly what was reachable or fixed is left, it refers to what it did, and the reachable set is unchanged. |
| GcProgress.GarbageGoes | lua/src/lgc.c:556-607 | From any state of any phase, finitely many steps reach a pause at which no garbage of that state is left: the heap is exactly what was reachable or fixed, with its references. |
| GcProgress.PauseReached | lua/src/lgc.c:556-607 | From any state of any phase, finitely many steps reach the pause, with the reachable set unchanged and everything still there that was reachable or fixed. |
| GcProgress.MarkingEnds | lua/src/lgc.c:560-571 | From any state of the mark phase, finitely many steps reach the sweep, with exactly what was marked, reachable or fixed to be kept. |
| GcProgress.SweepEnds | lua/src/lgc.c:572-591 | From any state of a sweep, finitely many steps reach its end. |
| GcProgress.SweepThenPause | lua/src/lgc.c:572-606 | The end of a sweep leaves exactly what the last marking kept, and the pause follows. |
| GcEffects.SetSlotEffect | lua/src/lvm.c:140-148 | After a write the slot of the object reads the value, its other slots and all other objects read as before, and no object comes or goes. |
| GcEffects.SetSlotWrites | lua/src/lvm.c:140-148 | Of all places that the program can read, a write to an existing slot changes just one. |
| GcEffects.SetSlotReaches | lua/src/lvm.c:145-146 | What is stored into a reachable object is reachable through it afterwards. |
| GcEffects.SetUpvalWrites | lua/src/lvm.c:447-451 | After an assignment through an upvalue everyone who reads that variable, through this upvalue, another one or the stack, reads the value; all other places read as before. |
| GcEffects.SetStackEffect | lua/src/lapi.c:160-176 | A stack reads exactly the given values, its open upvalues read the values of their slots, and everything else reads as before. |
| GcEffects.SetMetatableEffect | lua/src/lapi.c:717-720 | The metatable of a basic type is the given one and is reachable; the other roots and the heap stay. |
| GcEffects.FixResumeEffect | lua/src/lstring.h:24 | Fixing a string and resuming a thread change no object; the string is fixed and the thread is the running one. |
| GcEffects.NewEffect | lua/src/lgc.c:686-692 | A new object has the given contents, the running thread holds it on its stack, it is reachable, and everything else reads as before. |
| GcEffects.NewPlace | lua/src/lgc.c:686-692 | A new userdata is chained right after the main thread, and every other new object at the head of the list. |
| GcEffects.NewStringEffect | lua/src/lstring.c:51-72 | The same for a new string, with its hash. |
| GcEffects.InternEffect | lua/src/lstring.c:75-93 | A string that is found is pushed, unchanged, even if it was dead. |
| GcEffects.FindUpvalEffect | lua/src/lfunc.c:53-79 | The upvalue that is found or made is open, stands for the given slot of the running thread, reads its value and is reachable; everything else reads as before. |
| GcEffects.CloseFromEffect | lua/src/lfunc.c:96-112 | The open upvalues from the level on, and no others, leave the list of their thread; those that are not freed are closed with the value of their slot; what the program can read stays. |
| GcEffects.CollectUnseen | lua/src/lgc.c:556-607 | No step of the collector, no start or end of a collection and no change of the size of the string table changes what is reachable or what is read through it. |
| GcEffects.ResizeEffect | lua/src/lstring.c:22-48 | The string table has the size asked for, unless its buckets are being swept, and holds exactly the strings of the heap, each in the bucket of its hash. |
| GcEffects.SweepEndShrinks | lua/src/lgc.c:431-436 | At the end of the sweep, and only there, the string table is halved if fewer strings than a quarter of its size are left and its size is over 64. |
| GcUpvalOrder.RunSorted | lua/src/lfunc.c:53-79 | Whatever the program and the collector do, the lists of open upvalues stay sorted by stack level: creation, closing, the sweep of the list of a thread, and the closing of the upvalues of a thread that is freed. |
| GcUpvalOrder.OneUpvalPerSlot | lua/src/lfunc.c:53-79 | So in every state that a new interpreter can get to, a stack slot has at most one open upvalue. |
| GcUpvalOrder.FindReuses | lua/src/lfunc.c:57-66 | An open upvalue of the slot is the one that is found, even if it was dead, and no other is made. |
| CodeGen.FuncState.Assignment | lua/src/lcode.c:467-477 | For every expression of `and`, `or`, `not` and comparisons over local variables, upvalues, booleans, strings and numbers: after the emitted code of `reg = x` and one more instruction no jump is unresolved, and for all register contents, entered by falling through or by any jump that waited, the machine gets to the end with what Flow says in reg and every other live register unchanged; that is the short-circuit value of x if no literal can take over a jump that carries a value; an error is raised only at the limits on jumps and registers. |
| Settling.RightValue | lua/src/lcode.c:54-61 | When the machine is right: as long as no operand of a comparison strays, the short-circuit value of x is in the register if and only if the code does not leave by a jump that the luaK_jump of a literal took over and that carries another value than the literal. |
| Settling.WrongValue | lua/src/lcode.c:570-573 | When it is wrong: for ((1 or false) and true) or false, whose value is true, the machine leaves 1. |
| Settling.SafeValue | lua/src/lcode.c:54-61 | An expression in which no literal can take over a jump that carries a value, a property of the text of x alone, always leaves its short-circuit value. |
| Logic.TruthTable | lua/src/lobject.h:103 | nil and false count as false and every other value as true; `and` and `or` give one of their operands. |
| Logic.DeliveredMeaning | lua/src/lcode.c:534-586 | What the code delivers by its exits and waiting jumps is the short-circuit value exactly if it does not stray. |
| Logic.LiteralFreeSafe | lua/src/lparser.c:828-853 | Without literals every expression is such an expression. |
| CodeGen.FuncState.Declaration | lua/src/lcode.c:409-414 | The same for `local v = x`: the result is in the next register. |
| CodeGen.FuncState.Expression | lua/src/lparser.c:828-853 | Compiling an expression in the order of the parser gives a descriptor whose true and false lists, pending jumps and place say how the code leaves and with which value, from every entry. |
| CodeGen.FuncState.Concat | lua/src/lcode.c:180-191 | Two disjoint patch lists become one, only offsets of the first list change, and the walk to its end terminates. |
| CodeGen.FuncState.NeedValue | lua/src/lcode.c:117-123 | True exactly if some jump of the list carries no value. |
| CodeGen.FuncState.RemoveValues | lua/src/lcode.c:139-142 | Every value-carrying test that controls a jump of the list only tests afterwards; nothing else changes. |
| CodeGen.FuncState.PatchListAux | lua/src/lcode.c:145-155 | Every jump of the list leads to the value target or the default target according to its control instruction, which gets the register; nothing else changes. |
| CodeGen.FuncState.DischargeJpc | lua/src/lcode.c:158-161 | The jumps waiting for the next instruction lead to it. |
| CodeGen.FuncState.Jump | lua/src/lcode.c:54-61 | A new unresolved jump heads a list with the jumps that waited for this place. |
| CodeGen.FuncState.DischargeVars | lua/src/lcode.c:299-329 | The descriptor keeps its meaning and is no variable any more. |
| CodeGen.FuncState.Discharge2Reg | lua/src/lcode.c:338-374 | The value, literals included, is in the given register wherever no exit was taken; only jumps are left alone. |
| CodeGen.FuncState.SettleExits | lua/src/lcode.c:389-402 | Both exit lists are patched to the end of the code, through the boolean loads exactly if some exit carries no value. |
| CodeGen.FuncState.Exp2Reg | lua/src/lcode.c:385-406 | Whichever way the code is entered and leaves, it ends with the result in the register, and no exit is left. |
| CodeGen.FuncState.Exp2NextReg | lua/src/lcode.c:409-414 | The result is in the next free register. |
| CodeGen.FuncState.Exp2AnyReg | lua/src/lcode.c:417-428 | The result is in some register, no exit is left, and a jump that waits there carries what one that waited for a local variable carried. |
| CodeGen.FuncState.Exp2RK | lua/src/lcode.c:439-464 | The result is an operand of an instruction: a register, or a constant for which no code is emitted, so that the waiting jumps go on waiting. |
| CodeGen.FuncState.JumpOnCond | lua/src/lcode.c:519-531 | The code goes on exactly if the value has the wanted truth; otherwise it leaves through the returned jump, which carries the value or stands for the boolean. |
| CodeGen.FuncState.GoIfTrue | lua/src/lcode.c:534-559 | The code goes on exactly if the value is true; all false exits are in one list, and the true exits wait for the next instruction. A true literal emits nothing, and the jumps that waited go on too; the jump of `false` takes them over as exits, with what they carry. |
| CodeGen.FuncState.GoIfFalse | lua/src/lcode.c:562-586 | The dual of GoIfTrue. |
| CodeGen.FuncState.CodeNot | lua/src/lcode.c:589-621 | The descriptor stands for the negation, a literal folded, with the exits exchanged and without values. |
| CodeGen.FuncState.CodeComp | lua/src/lcode.c:670-683 | The emitted test and jump stand for the comparison of the two results, registers or constants, operands exchanged for the two operators without an instruction. |
| CodeGen.FuncState.Posfix | lua/src/lcode.c:729-748 | The exits of the first operand joined with those of the second make the descriptor of the connective. |
| CodeGen.FuncState.StoreLocal | lua/src/lcode.c:467-477 | The result ends in the register of the local variable. |
| Holes.Extend | lua/src/lcode.c:145-161 | Filling unresolved jumps and adding instructions does not disturb a run: it goes on from where it stopped. |
| Holes.RunIsExecution | lua/src/lvm.c:541-581 | Without unresolved jumps, the run that the descriptors speak of is what the virtual machine does, step by step. |
| ShortCircuit.Join | lua/src/lcode.c:729-748 | The second operand is entered by falling through or by the jumps that go on from the first, with what they carry; with the lists joined its code completes the connective. |
| ShortCircuit.GoIfTest | lua/src/lcode.c:519-531 | A test instruction and its jump after an expression decide its truth. |
| ShortCircuit.GoIfNothing | lua/src/lcode.c:538-541 | A literal with which the code always goes on needs no code: the waiting jumps go on with what they carry. |
| ShortCircuit.GoIfTaken | lua/src/lcode.c:542-545 | A literal with which the code never goes on: its jump and those that waited are the exits, with what they carry. |
| ShortCircuit.GoIfJump | lua/src/lcode.c:511-516 | Inverting the condition of a comparison inverts its branch. |
| ShortCircuit.GoIfNot | lua/src/lcode.c:519-527 | Removing a `not` and testing with the opposite condition has the same effect. |
| Negate.Exchange | lua/src/lcode.c:617-620 | Exchanging the exit lists and dropping their values negates an expression whose end has been negated. |
| Negate.NotLiteral | lua/src/lcode.c:592-599 | `not` of a literal is the other literal, and the jumps that wait go on waiting. |
| Comparing.CompareOK | lua/src/lcode.c:670-683 | After both operands the comparison instruction decides the comparison of their results, also where the second is entered by a jump that waited over a quiet first one. |
| Comparing.QuietOperand | lua/src/lcode.c:439-464 | A literal or a local variable without exits is an operand as it stands: the jumps that waited go on waiting with what they carry. |
| Settling.SettleLoaded | lua/src/lcode.c:385-406 | Patching the exits of a loaded expression loads the right result on every path. |
| Settling.SettleJump | lua/src/lcode.c:385-406 | The same where the expression is still a conditional jump. |
| CodeGen.FinishedAll | lua/src/lcode.c:781-793 | Emitting the next instruction closes the last pending jumps; for all register contents and entries the machine computes what Flow says, and for a safe expression its value. |
| Collector.GlobalState.ResizeStrings | lua/src/lstring.c:22-48 | The loops over buckets and strings build the new table in place; while the buckets are swept nothing happens. |
| Collector.GlobalState.CheckTableSize | lua/src/lgc.c:431-436 | The string table shrinks by half when it is less than a quarter full and not small. |
| Tables.Table.SetAll | lua/src/ltable.c:494-505 | After any sequence of assignments the table agrees with the finite map they make; they fail only at a nil key or when the map has reached the size limit, and starve only if the array part was made larger than 2^26 and an index beyond is in use. |
| Tables.Table.Set | lua/src/ltable.c:494-505 | One assignment does to the table what it does to a map, for every table; it fails only for a nil key, which changes nothing, or a full table, and it starves if and only if the key makes the table rehash and the rehash asks for too few nodes. |
| Tables.Table.Get | lua/src/ltable.c:469-491 | The value found is that of the map. |
| Tables.Table.Search | lua/src/ltable.c:455-463 | Following the chain from the main position finds the node of a key if there is one, and ends. |
| Tables.Table.GetFreePos | lua/src/ltable.c:382-388 | A free node is found if there is one; the pointer only goes down. |
| Tables.Table.NewKey | lua/src/ltable.c:399-429 | A new key gets a slot and the contents stay. Inside a resize it starves exactly if no node is left; elsewhere exactly if the rehash does, and a second rehash, of a table whose slots have all been counted, never does. |
| Tables.Table.PlaceHere | lua/src/ltable.c:400-428 | The main position’s node, its value being nil, is reused for the new key. |
| Tables.Table.PlaceBehind | lua/src/ltable.c:418-424 | The new key goes to a free node behind the key in its main position. |
| Tables.Table.PlaceByMoving | lua/src/ltable.c:409-417 | The colliding node moves to a free node and the new key takes its main position. |
| Tables.Table.Resize | lua/src/ltable.c:297-324 | All entries move to the new parts if and only if the new hash part can take those outside the new array part; it fails exactly if a part asked for is too large. |
| Tables.Table.RehashSizes | lua/src/ltable.c:333-347 | The array part asked for is the optimal one for all keys and the new one; the nodes asked for are those that all other keys need less the slots in use beyond 2^26. |
| Tables.Table.Rehash | lua/src/ltable.c:333-349 | The contents stay and the array part has the optimal size, unless it starves, which it does exactly if the slots in use beyond 2^26 leave it too few nodes; if there are none, the new key has room. |
| TableParts.NeverStarves | lua/src/ltable.c:222-348 | A table without slots in use beyond 2^26 never asks for too few nodes. |
| Tables.Table.OverlookedEntries | lua/src/ltable.c:222-348 | A concrete table whose two entries beyond 2^26 are overlooked, so that a string key makes it ask for one node for three entries. |
| Tables.Table.Presize | lua/src/ltable.c:358-372 | A new table has the sizes asked for, also an array part beyond 2^26; it fails exactly beyond the limits. |
| Tables.Table.ResizeArray | lua/src/ltable.c:327-330 | A larger array part for any table: the hash part keeps its size and the table its contents. |
| Tables.Table.SetSlot | lua/src/ltable.c:494-505 | The slot of a key, old or new; within a resize it succeeds without another rehash exactly if there is a place. |
| Tables.Table.SetNodeVector | lua/src/ltable.c:272-294 | A hash part of free nodes with the next power of two as its size; it fails exactly beyond the limit. |
| Tables.Table.Traverse | lua/src/ltable.c:162-179 | A traversal interleaved with any assignments to existing fields, and with the collector burying any keys without a value, never loses its place, terminates, sees no entry twice, the array part first, and sees every entry that is never cleared. |
| Tables.Table.Next | lua/src/ltable.c:162-179 | The first entry after that of a key; an error exactly for a key that has no position. |
| Tables.Table.FindIndex | lua/src/ltable.c:137-159 | The position of a key, in the array part or of the first node on its chain that has it or had it when it was buried; an error exactly if there is none. |
| TableNodes.LiveIsFirst | lua/src/ltable.c:143-153 | A live key comes before every dead key of the same object on its chain, so a traversal resumes at its own node. |
| TableNodes.BuriedWellFormed | lua/src/lgc.c:62-66 | Burying a key keeps the chains well formed, with every live key before the dead ones of its object. |
| Tables.Table.Length | lua/src/ltable.c:560-576 | The result is a border of the table, in all four cases of the search. |
| Tables.Table.UnboundSearch | lua/src/ltable.c:532-553 | A border in the hash part, by doubling and binary search or, past the largest integer, by the linear search; it terminates. |
| TableNodes.FreeWellFormed | lua/src/ltable.c:400-428 | Reusing a node keeps the chains disjoint, acyclic and complete: every key on the path from its main position, no live key twice, and none behind a dead key of its object. |
| TableNodes.AfterWellFormed | lua/src/ltable.c:418-424 | The same for a key placed behind its main position. |
| TableNodes.MovedWellFormed | lua/src/ltable.c:409-417 | The same when the colliding node moves. |
| TableSizes.ComputeSizes | lua/src/ltable.c:189-208 | The largest power of two more than half of whose range are keys (0 if none) and the number of keys up to it, despite the early exits, never reading past the counters; the array part is at least half full. |
| TableCount.NumUseArray | lua/src/ltable.c:222-244 | The counters hold, slice by slice, the number of used array slots up to 2^26, and the result is their sum. |
| TableCount.NumUseHash | lua/src/ltable.c:247-260 | The counters take in the integer keys of the live nodes; the results are the numbers of live nodes and of those keys. |
| TableCount.CountInt | lua/src/ltable.c:211-219 | A key is counted in its slice exactly if it may live in the array part. |
| TableCount.CountedAll | lua/src/ltable.c:222-244 | The count of the array part is right exactly if no slot beyond 2^26 is in use. |
| TableCount.CountMisses | lua/src/ltable.c:222-244 | A concrete array part with an entry beyond 2^26 that is not counted. |
| TableCount.OutsideSize | lua/src/ltable.c:340-348 | The keys left to the hash part are all keys but those that the array part takes. |
| Matching.MatchMeaning | lua/src/lstrlib.c:364-439 | Success of the search is a match of the declarative relation with these captures; failure means there is none. |
| Matching.MatchIsFirst | lua/src/lstrlib.c:364-439 | The search finds the first of all matches in the order of priorities, and fails only if there is none. |
| Matching.AllMatches | lua/src/lstrlib.c:364-439 | The list of all matches holds exactly those of the relation. |
| Matching.LongestFirst | lua/src/lstrlib.c:300-312 | A greedy repetition takes the largest count from which the rest does not fail. |
| Matching.ShortestFirst | lua/src/lstrlib.c:315-325 | A lazy repetition takes the smallest. |
| Matching.MatchesForward | lua/src/lstrlib.c:364-439 | A match ends between its start and the end of the subject. |
| Matcher.MatchState.DoMatch | lua/src/lstrlib.c:364-439 | The matcher with its capture buffer returns exactly the outcome of the search; every failing call leaves level and captures as they were; it terminates on every pattern. What that search means for a written pattern is stated by WrittenPatterns.WrittenMeaning. |
| Matcher.MatchState.MatchItemAt | lua/src/lstrlib.c:413-437 | A single-character item with its suffix: the outcome, or the place where the matching goes on. |
| Matcher.MatchState.MaxExpand | lua/src/lstrlib.c:300-312 | The loop over shrinking counts. |
| Matcher.MatchState.MinExpand | lua/src/lstrlib.c:315-325 | The loop over growing counts. |
| Matcher.MatchState.StartCapture | lua/src/lstrlib.c:328-339 | A capture is opened and undone if the rest fails; too many are an error. |
| Matcher.MatchState.EndCapture | lua/src/lstrlib.c:342-350 | The last open capture is closed and reopened if the rest fails. |
| Matcher.MatchState.MatchCapture | lua/src/lstrlib.c:353-361 | A back reference matches exactly a repetition of the captured text; an error exactly if there is no such closed capture. |
| Matcher.MatchState.MatchBalance | lua/src/lstrlib.c:280-297 | The end of the balanced text that starts here, if there is one. |
| Matcher.MatchState.InBracket | lua/src/lstrlib.c:244-264 | Membership in a set: classes, ranges and complement, by character codes in WrittenPatterns.SetRead. |
| Matcher.MatchState.InSingle | lua/src/lstrlib.c:267-274 | Membership in a single-character class, by character codes in WrittenPatterns.AtomRead. |
| Matcher.MatchState.EndOfClass | lua/src/lstrlib.c:201-222 | Where a class ends, or the error of a malformed pattern. |
| Matcher.MatchState.CaptureToClose | lua/src/lstrlib.c:193-198 | The last capture that is still open. |
| Matcher.MatchState.Find | lua/src/lstrlib.c:513-534 | The first position from which the pattern matches, the only one for an anchored pattern, with the end and the captures of the match that comes first in the order of priorities; an error exactly if the search meets one before a match. |
| WrittenPatterns.ClassCodes | lua/src/lstrlib.c:225-241 | Each of the ten classes is a list of ASCII codes, and its upper-case letter stands for all other characters. |
| WrittenPatterns.OtherEscape | lua/src/lstrlib.c:225-241 | Every other character after `%` stands for itself only. |
| WrittenPatterns.SetRead | lua/src/lstrlib.c:244-264 | A set written from characters, spans and classes ends at its bracket and stands for exactly its members, or with `^` for all other characters. |
| WrittenPatterns.SetEdges | lua/src/lstrlib.c:208-217 | A bracket that comes first in a set and a dash that comes last stand for themselves. |
| WrittenPatterns.AtomRead | lua/src/lstrlib.c:201-222 | Any atom written down (`.`, a character, a class, a set) ends where it was written to end and stands for the characters it was written for. |
| WrittenPatterns.PartRead | lua/src/lstrlib.c:364-439 | The matcher reads each part of a written pattern as that part, with its sign of repetition, and goes on behind it. |
| WrittenPatterns.WrittenMeaning | lua/src/lstrlib.c:364-439 | For every pattern built from parts, the matching relation on its text holds exactly if the parts, with their meaning given by character codes and counts, can be found one after the other. |
| WrittenPatterns.WrittenOutcome | lua/src/lstrlib.c:364-439 | So the matcher’s success is such a finding, and its failure means there is none. |
| WrittenPatterns.RepeatedAtom | lua/src/lstrlib.c:300-325 | A pattern of one atom: none, `*` and `+` take the longest run of accepted characters, `-` none, `?` at most one; they fail exactly if a character is needed and none is accepted. |
| WrittenPatterns.DigitRun | lua/src/lstrlib.c:300-312 | "%d+" takes a maximal, non-empty run of decimal digits, or fails if no digit stands there. |
| WrittenCaptures.BalancedIffEncloses | lua/src/lstrlib.c:280-297 | `%bxy` takes exactly an opening character, text in which opening and closing characters are nested brackets, and a closing one. |
| WrittenCaptures.PatternMeaning | lua/src/lstrlib.c:328-361 | Groups, positions and back references, each with any pattern around it: a group captures the text it stands for itself, whatever is nested in it, captures are numbered by where they begin, and a back reference is the text of its capture again. |
| WrittenCaptures.GroupsMatch | lua/src/lstrlib.c:364-439 | A pattern with groups is matched exactly where its groups say, with exactly those captures, all complete and inside the match. |
| WrittenCaptures.SoundOutcome | lua/src/lstrlib.c:185-198 | A pattern of at most 32 captures whose parentheses pair up and whose back references mean complete captures never raises an error. |
| Quicksort.Sorter.Sort | lua/src/ltablib.c:247-255 | For any strict weak order: a sorted permutation, no “invalid order function” error, and recursion no deeper than log2(n + 1). |
| Quicksort.Sorter.AuxSort | lua/src/ltablib.c:184-245 | The same for a range; the elements outside stay. |
| Quicksort.Sorter.Partition | lua/src/ltablib.c:209-235 | The pivot ends strictly inside the range, nothing before it larger and nothing after it smaller. |
| Quicksort.Sorter.ScanUp | lua/src/ltablib.c:216-220 | The scan stops at a sentinel at the latest, inside the range, without an error. |
| Quicksort.Sorter.ScanDown | lua/src/ltablib.c:221-225 | The same downwards. |
| Quicksort.Sorter.MedianOfThree | lua/src/ltablib.c:186-208 | Three elements are put in order by exchanges within the range. |
| Quicksort.HalfSorted | lua/src/ltablib.c:236-244 | With one half of a partition sorted, only pairs within the other half may be out of order. |
| Syntax.ParseIff | lua/src/lparser.c:828-853 | The parser returns a tree and a rest exactly if the tree’s tokens and the rest are the input, the tree respects the priorities, and the rest starts with no operator that belongs to the tree or to the limit. |
| Syntax.UniqueTree | lua/src/lparser.c:810-822 | No two trees that respect the priorities have the same tokens. |
| Syntax.RoundTrip | lua/src/lparser.c:828-853 | Every operator tree, printed with parentheses where needed, parses to itself with all its tokens consumed. |
| Syntax.FewestParens | lua/src/lparser.c:810-822 | No tree with the same operators that respects the priorities has fewer parentheses than the printed one. |
| Syntax.ParseSound | lua/src/lparser.c:828-853 | Every parse yields the tokens it consumed, in a tree that respects the left and right priorities. |
| Syntax.ParseComplete | lua/src/lparser.c:828-853 | Every tree that respects the priorities is parsed from its tokens. |
| Parser.LexState.SubExpr | lua/src/lparser.c:828-853 | The loop and recursion over the token stream compute exactly this parse, whose grouping is that of Precedence.ParseByLevels, return the first untreated operator, and fail exactly if it does. |
| Parser.LexState.SimpleExp | lua/src/lparser.c:667-687 | An atom or a parenthesised expression. |
| Upvalues.Threads.Run | lua/src/lfunc.c:53-112 | After any run of captures, ended blocks, assignments to slots and through closures, collector findings, and threads that are made and freed, every closure reads the value of its variable, shared or closed, also when its thread is gone, and two closures have the same upvalue exactly if they hold the same variable. |
| Upvalues.Threads.FindUpval | lua/src/lfunc.c:53-79 | The one open upvalue of a slot of a thread, found or created; its list stays strictly descending by level, the other lists and the ring of all threads consistent, and a dead one is resurrected. |
| Upvalues.Threads.Close | lua/src/lfunc.c:96-112 | Exactly the upvalues of the thread at or above the level are closed, and each that is not dead keeps the value read through it. |
| Upvalues.Threads.CloseFirst | lua/src/lfunc.c:99-111 | One turn: the first upvalue of the list is closed or freed. |
| Upvalues.Threads.Unlink | lua/src/lfunc.c:82-86 | Exactly this upvalue leaves the doubly linked ring. |
| Upvalues.Threads.InsertOpen | lua/src/lfunc.c:70-72 | The new upvalue goes into the list at its level. |
| Upvalues.Threads.LinkUpval | lua/src/lfunc.c:73-77 | The new upvalue goes into the ring after its head. |
| Upvalues.Threads.CaptureSlot | lua/src/lvm.c:727-734 | A closure over a stack slot holds the variable in it, shared with the other closures over it. |
| Upvalues.Threads.EndBlock | lua/src/lvm.c:715-718 | The variables of a block live on in their closures, and the slots are free for others. |
| Upvalues.Threads.MakeThread | lua/src/lstate.c:119-131 | A new thread has a stack that no closure refers to; the variables of the others stay. |
| Upvalues.Threads.DropThread | lua/src/lstate.c:134-140 | Freeing a thread closes all its upvalues: its variables live on in the closures of others. |
| Upvalues.Threads.WriteUpvalue | lua/src/lfunc.c:96-112 | An assignment through a closure changes its variable, wherever it lives. |
| Upvalues.Threads.ClosuresRead | lua/src/lfunc.c:53-112 | In every state that represents the variables, each closure reads the value of its own. |
| Upvalues.InsertList | lua/src/lfunc.c:70-72 | Inserting keeps the list strictly descending with correct links. |
| Upvalues.LinkRing | lua/src/lfunc.c:73-77 | Inserting keeps next and prev of the ring inverse to each other. |
| Upvalues.UnlinkRing | lua/src/lfunc.c:82-86 | So does removing. |
| Precedence.PriorityOrder | lua/src/lparser.c:810-821 | The priority numbers put the operators on the levels of the manual: or; and; comparisons; ..; + and -; *, / and %; unary; ^. |
| Precedence.CanonicalIffDerives | lua/src/lparser.c:810-822 | The trees that the parser builds are exactly those that the level grammar derives, with `..` and `^` grouping to the right. |
| Precedence.ParseByLevels | lua/src/lparser.c:828-853 | A token list parses to a tree with nothing left exactly if the grammar of levels derives the tree and these are its tokens. |
| Precedence.GroupsBinary | lua/src/lparser.c:838-849 | x b y c z groups to the left exactly if b stands on a higher level than c, or on the same and is neither `^` nor `..`. |
| Precedence.GroupsUnaryFirst | lua/src/lparser.c:833-837 | A unary operator before x b y applies to x alone, except before `^`, where it applies to the power. |
| Precedence.GroupsUnarySecond | lua/src/lparser.c:833-837 | A unary operator may stand after any binary one; in x b -y c z it takes in c only if that is `^`, and otherwise b and c group by their levels. |
| Scoping.LexState.Compile | lua/src/lparser.c:224-245 | For any program text of declarations, blocks, nested functions and references: the operand chosen for each reference leads, through the closures that OP_CLOSURE makes from the emitted descriptors, to the innermost visible declaration, and is a global variable exactly if there is none. OP_CLOSE is emitted at the end of exactly those blocks that declare a variable to which the text refers from inside a nested function. An error only at a limit. |
| Scoping.LexState.SingleVarAux | lua/src/lparser.c:224-245 | The kind and index denote the innermost visible declaration, or a global variable exactly if there is none, and no earlier upvalue changes its meaning; a block is marked exactly for a variable of an enclosing function, and by no reference from the variable’s own function. |
| Scoping.LexState.IndexUpvalue | lua/src/lparser.c:183-204 | An upvalue with exactly this descriptor, reused or new at the end; an error exactly when a new one does not fit. |
| Scoping.LexState.SearchVar | lua/src/lparser.c:207-214 | The last active declaration of the name. |
| Scoping.LexState.MarkUpval | lua/src/lparser.c:217-221 | Exactly the innermost block that holds the register is marked. |
| Scoping.LexState.Declare | lua/src/lparser.c:160-173 | The new variable is the visible one of its name. |
| Scoping.LexState.EnterBlock | lua/src/lparser.c:285-293 | A block begins after the active variables. |
| Scoping.LexState.LeaveBlock | lua/src/lparser.c:296-307 | The variables of the block go, and OP_CLOSE is emitted exactly if one of them was referred to from inside a nested function. |
| Scoping.LexState.CloseFunc | lua/src/lparser.c:310-325 | The emitted descriptors make a closure that holds what the function’s upvalues meant. |
| Scoping.OwnerIsHome | lua/src/lparser.c:224-245 | The function whose scopes in the text hold the innermost visible declaration of a name is the one that the search through the tables of active variables stops at. |
| Scoping.OrderedAfter | lua/src/lparser.c:224-245 | Whatever comes next in the text, the visible declarations stay numbered in the order in which they stand, from the outermost function inwards, so that no captured declaration is mistaken for another. |
| Scoping.ClosureBinds | lua/src/lvm.c:719-738 | OP_CLOSURE, following each descriptor into a register or an upvalue, binds the variables that the upvalues denote. |
| Scoping.DenotesExtends | lua/src/lparser.c:183-204 | Adding upvalues does not change what the others denote. |
| Scoping.ClosureIsBound | lua/src/lvm.c:719-738 | The closures built level by level at run time hold what was recorded when each function was complete. |
| ChunkIO.DumpThenUndump | lua/src/lundump.c:195-209 | Dumping a function through a writer and undumping it through a reader that cuts the bytes into chunks as it likes gives it back exactly if the bytecode checker accepts it and no function lacks its source. |
| Chunks.RoundTrip | lua/src/lundump.c:164-181 | The same for the bytes: the round trip is the identity exactly under these two conditions. |
| Chunks.UndumpDump | lua/src/lundump.c:195-209 | What undumping any dump gives, stripped or not: the tree with sources filled in from the enclosing functions, or an error if the bytecode checker rejects a function. |
| Chunks.LoadDump | lua/src/lundump.c:164-181 | Loading the dump of a function in its context, with bytes to follow. |
| Chunks.FilledSame | lua/src/ldump.c:129-141 | Filling in the elided sources gives the same tree exactly if no source is missing. |
| Chunks.ConstantBack | lua/src/lundump.c:103-131 | Each constant is read back from its bytes. |
| Chunks.StringBack | lua/src/lundump.c:79-91 | Each string, or missing string, is read back from its bytes. |
| Chunks.DumpWordsBack | lua/src/lundump.c:93-99 | Each vector of instructions or line numbers is read back. |
| Chunks.DebugBack | lua/src/lundump.c:140-162 | The debug information is read back. |
| ChunkIO.Zio.Read | lua/src/lzio.c:58-71 | The next bytes in order, or how many are missing, however the reader splits them. |
| ChunkIO.Zio.Fill | lua/src/lzio.c:21-32 | The first byte of the next chunk, or the end of the stream. |
| ChunkIO.Zio.Lookahead | lua/src/lzio.c:35-45 | The next byte, which is not consumed. |
| ChunkIO.LoadState.Undump | lua/src/lundump.c:195-209 | The result depends on the bytes of the stream alone. |
| ChunkIO.LoadState.LoadFunction | lua/src/lundump.c:164-181 | Reads exactly the function at the front of the stream, or fails. |
| ChunkIO.LoadState.LoadConstants | lua/src/lundump.c:103-131 | The loop over the constants. |
| ChunkIO.LoadState.LoadDebug | lua/src/lundump.c:140-162 | The three lists of debug information. |
| ChunkIO.LoadState.LoadString | lua/src/lundump.c:79-91 | A string without its terminating zero; size 0 is a missing string. |
| ChunkIO.DumpState.DumpAllOf | lua/src/ldump.c:153-164 | A zero status means that the writer was given exactly the bytes of the chunk; any other, that the writer failed. |
| ChunkIO.DumpState.DumpFunction | lua/src/ldump.c:129-141 | The bytes of a function, written block by block; after a failure of the writer nothing more is written. |
| ChunkIO.DumpState.DumpConstants | lua/src/ldump.c:80-109 | The loop over the constants. |
| ChunkIO.DumpState.DumpDebug | lua/src/ldump.c:111-127 | The debug information, or none when stripped. |
| ChunkIO.DumpState.DumpString | lua/src/ldump.c:61-74 | The size with the terminating zero, and the bytes. |
| ChunkFormat.ByteAt | lua/src/ldump.c:29-48 | Integers are written little-endian: the byte at each place. |
| ChunkFormat.ConstantBytes | lua/src/ldump.c:80-109 | The bytes of every constant: the tags 0, 1, 3 and 4, the eight bytes of a number, the size and the zero of a string. |
| ChunkFormat.HeaderBytes | lua/src/lundump.c:214-227 | Every chunk begins with the signature, version 5.1 and the sizes of the machine, in these twelve bytes. |
| ChunkFormat.Stripped | lua/src/lundump.c:164-209 | A stripped chunk is loaded as the same function without debug information, with "=?" for its source. |
| ChunkFormat.OneNested | lua/src/ldump.c:129-141 | The blocks of a function with one nested function, in their order. |
| ChunkFormat.OuterBytes | lua/src/ldump.c:129-141 | Every byte of a function with an instruction, a constant of each kind, a nested function and debug information. |
| Quoting.ReadQuoted | lua/src/llex.c:276-329 | For every byte string: reading its quoted form gives it back and stops just after the closing quote, exactly if its line feeds do not exhaust the line counter. |
| Quoting.ReadQuotedChar | lua/src/llex.c:276-329 | Reading undoes the quoting of each character, whatever follows it. |
| Quoting.AddQuoted | lua/src/lstrlib.c:695-722 | The loop writes the quoted form. |
| StringLexer.ReadBack | lua/src/llex.c:276-329 | Quoting and then lexing, character by character, gives the string back, with the input and the line number where they should be. |
| StringLexer.LexState.ReadString | lua/src/llex.c:276-329 | The lexer’s loop returns what the literal means, for any input and delimiter, or fails; the meaning is that of WrittenLiterals.LiteralIff. |
| StringLexer.LexState.ReadEscape | lua/src/llex.c:287-320 | Every escape sequence, with the bytes of WrittenLiterals.PieceRead. |
| StringLexer.LexState.ReadDecimal | lua/src/llex.c:304-314 | Up to three decimal digits, and their number. |
| StringLexer.LexState.IncLineNumber | lua/src/llex.c:127-135 | One line end, of one or two characters, and the overflow of the counter. |
| WrittenLiterals.EscapeLetters | lua/src/llex.c:290-297 | Exactly the letters a, b, t, n, v, f and r are escapes, and in this order they stand for the bytes 7 to 13. |
| WrittenLiterals.PieceRead | lua/src/llex.c:276-329 | A plain byte, a letter, one to three digits, a line end or another byte after a backslash is read as the byte it stands for. |
| WrittenLiterals.LiteralRead | lua/src/llex.c:276-329 | Pieces written down and closed by the delimiter are read as what they stand for, unless the lines run out. |
| WrittenLiterals.LiteralIff | lua/src/llex.c:276-329 | String literals, exactly: an input is a literal with this value, rest and line exactly if it consists of such pieces, which stand for the value, and the delimiter. |
| WrittenLiterals.EncodeMeans | lua/src/llex.c:276-329 | Every byte string is the value of a literal: the bytes 7 to 13 by their letters and the others by three digits. |
| WrittenLiterals.ReadEncoded | lua/src/llex.c:276-329 | The lexer reads that literal as those bytes. |
| References.RefTable.Run | lua/src/lauxlib.c:481-512 | For any run that gives back only references in use: the references returned are distinct and positive, freed ones are reused last in first out, and each holds its value. |
| References.RefTable.Ref | lua/src/lauxlib.c:481-501 | A reference not in use: the one freed last or else a new one; nil has its fixed reference. |
| References.RefTable.Unref | lua/src/lauxlib.c:504-512 | The reference becomes the first free one; negative references do nothing. |
| References.OneBorder | lua/src/lauxlib.c:495-498 | A table whose indices have no holes has just one border. |
| References.NewRef | lua/src/lauxlib.c:495-498 | Where the length is asked for, no reference is free and every border is the number of references. |
| References.RefTable.RawGet | lua/src/lapi.c:563-571 | A reference in use is positive and leads to its value. |
| References.TakeFree | lua/src/lauxlib.c:491-494 | Taking the first free reference keeps the list threaded through the table. |
| References.GiveBack | lua/src/lauxlib.c:504-512 | Giving one back keeps it too. |

## Left out

- Collector.GlobalState.SingleStepMethod: no weak tables, no userdata with `__gc` (the finalize phase only returns to pause), no pacing by debt, threshold and estimate, no byte counts; the number of strings is counted where the source keeps a counter.
- Collector.GlobalState.PropagateMarkStep: tables are never weak, so none stays gray in a list of weak tables.
- Collector.GlobalState.AtomicStep: no list of weak tables to traverse and to clear, and no userdata to separate for finalization.
- Collector.GlobalState.MarkSlots: the traversals of tables, functions, prototypes and stacks are one loop over the slots of the object in the order of the visit; the dead part of a stack, which the source clears, and the shrinking of stacks are not modelled.
- Collector.GlobalState.SweepList: shrinking of the lexer's buffer after the sweep, and luaC_freeall, which frees even fixed objects.
- GcSafety.ApplyInv: the program's events are state transitions on values; only the collector itself and its barriers are imperative.
- CodeGen.FuncState.Discharge2Reg: no `nil` literal: luaK_nil extends a LOADNIL of an earlier statement or emits nothing at the start of a function, so that its code is not after the start of the expression.
- CodeGen.FuncState.Exp2RK: a constant stands for its index, and every constant fits an operand; the source loads those beyond the 256th into registers.
- CodeGen.FuncState.Exp2AnyReg: no value is in a register above the local variables, as only the result of a call would be.
- CodeGen.FuncState.DischargeVars: no globals, indexed variables, calls or varargs, and no arithmetic with its constant folding.
- Settling.RightValue: with an operand of a comparison that strays, the comparison may still come out right; no condition is given for that.
- CodeGen.FuncState.Assignment: registers hold any values, but metamethods of comparisons are parameters without effects.
- Tables.Table.Resize: what becomes of a table that starves (the source rehashes it half-filled) or that meets an error; array parts of more than 2^31 - 2^26 - 3 slots; failing allocations.
- Tables.Table.Search: the hash functions are one uninterpreted function of the key and the number of nodes; NaN, -0 and non-integral numbers are among the other keys, which only equality tells apart.
- WrittenPatterns.WrittenMeaning: written patterns have no zero characters, and the ends of their spans are letters or digits; the matching relation has no such restriction.
- WrittenCaptures.SoundOutcome: a sufficient condition on the pattern; a pattern that does not meet it may still find no occasion for its error.
- Matcher.MatchState.Find: no plain search for patterns without special characters, no gmatch and gsub; the character classes are those of the C locale.
- Quicksort.Sorter.Sort: order functions that are no strict weak orders, for which the source may raise its error; arrays with holes; comparisons that raise errors.
- Parser.LexState.SimpleExp: function bodies, constructors, field, index and call suffixes are atoms; the limit on syntax levels.
- Upvalues.Threads.FindUpval: the fields of upvalues are maps over addresses instead of objects, and a closed upvalue's value and its links are separate fields where the source overlays them; threads are numbers, and a stack slot is a thread and a level where the source has an address, so the moving of a stack when it grows does not show.
- Scoping.LexState.Declare: one variable at a time; the debug records of local variables and the emission of other code.
- ChunkIO.LoadState.Undump: the bytecode checker is a parameter; the header is that of 32-bit little-endian integers, sizes and instructions with 64-bit numbers; a string constant of size 0, which no dump has and the source does not check, is an error here.
- ChunkIO.Zio.Fill: the counter of unread bytes, which the macro zgetc lets run below zero at the end of a stream.
- StringLexer.LexState.ReadString: growth of the token buffer and its limit.
- References.RefTable.Ref: references beyond the largest C int, and tables used by others as well.
- Metamethods, hooks, coroutines, memory and stack limits of C: none of the components meets them.
- The shell around the interpreter (`src`, `lib`): mostly calls of the Windows interface.
- Memory management, the other libraries, the statement parser and the rest of the virtual machine.

# Lua 5.1.4: the hard parts, modelled and proved

Lua 5.1.4 is a small interpreter whose algorithms rest on invariants that no single function shows. This project
models those algorithms in Dafny, in the form that the C code has (classes whose methods change mark bits, node
arrays, jump offsets and list links; loops over arrays), and proves what they are for.

- **The incremental collector** (`GcHeap`, `GcMark`, `GcSweep`, `GcPhase`, `GcCollector`, `GcMutator`, `GcProgram`,
  `GcLaws`; `lgc.c`, `lgc.h`). The heap has two whites, gray and black, the lists `gray`, `grayagain`, `rootgc`, `uvhead` and the
  buckets of the string table. `GcCollector.Collector` has the steps of the collector, `GcProgram` those of the
  program that runs between them, and whole runs of both; `GcLaws` says what each event does, object by object.
- **The table** (`TableChain`, `TableSizes`, `TableMap`, `TableCount`, `Table` with the module `Tables`, `TableBorder`;
  `ltable.c`). An array part and a chained scatter table with Brent's variation. It refines a finite map.
- **Short-circuit code** (`BoolCode`, `BoolLaws`, `PatchLists`, `BoolMeaning`, `CodeViews`, `CodeShape`, `CodeExec`, `CodeGen`,
  `CodeWrong`; `lcode.c`, `lvm.c`). Code under construction is read as a list of steps in which unresolved jumps are on hold, wherever the
  links of the patch lists go. What the steps compute is what the expression means. With literals this can fail, and
  both an expression for which it does and a condition under which it does not are proved.
- **Upvalues** (`Upvalues`, `UpvalueSteps`, `UpvalueCells`, `UpvalueSim`, `UpvalueState`; `lfunc.c`). The machine with
  open and closed upvalues simulates a reference in which every captured variable is one cell.
- **Interned strings** (`Strings`, `StringMarks`, `StringTable` with the module `StringTables`; `lstring.c`).
- **Patterns** (`PatternClass`, `PatternSearch`, `PatternLaws`, `PatternMatch`; `lstrlib.c`).
- **Dump and undump** (`ChunkFormat`, `ChunkBack`, `ChunkLaws`, `Dump`, `Undump`, `ChunkRoundTrip`; `ldump.c`, `lundump.c`, `lzio.c`).
- **Quicksort** (`Sort`; `ltablib.c`), **precedence climbing** (`Precedence`; `lparser.c`), **`%q` against the lexer**
  (`Quote`; `lstrlib.c`, `llex.c`), **references** (`References`; `lauxlib.c`), and the **prime search** of the
  repository's own tables (`Primes`; `ltutil.cpp`).

`Common.dfy` holds what several modules use: powers of two, the remainder `lmod`, linked lists, optional values.

Classes have ghost fields where the C code has an invariant but no field for it: the chain and rank of each node of a
table, the pending jump lists of a function under construction, the elements of a linked list.

## Model

| member | source | states |
|---|---|---|
| `GcProgram.Run` | lua-5.1.4/src/lgc.c:556-607 | for every sequence of collector steps and program events: each step does what its event says, no object reachable from the roots is freed in it, and the black/white rule holds in every state of the run |
| `GcProgram.Perform` | lua-5.1.4/src/lgc.h:60-97 | one event of a run: the invariant holds again, and nothing that was reachable before it is gone |
| `GcProgram.TableStore` | lua-5.1.4/src/lvm.c:134-144 | a store into a table behind the backward barrier: the value is in its place, also in a new one, all other entries are as they were, the table refers to what was stored; in every phase the colour invariant is kept and nothing dies |
| `GcProgram.FieldStore` | lua-5.1.4/src/lgc.c:662-672 | the same for closures, prototypes, userdata and closed upvalues behind the forward barrier, whether it marks the value or, outside marking, whitens the object |
| `GcProgram.SetUpval` | lua-5.1.4/src/lvm.c:447-452 | OP_SETUPVAL: the upvalue has the value afterwards, open or closed, even of a thread that is already dead, and the invariant is kept |
| `GcProgram.FindUpval` | lua-5.1.4/src/lfunc.c:53-79 | capturing a slot gives its open upvalue, alive, taken back if it was dead; a new one exactly if the slot had none, put where the list stays sorted; nothing dies |
| `GcProgram.CloseUpvals` | lua-5.1.4/src/lfunc.c:96-112 | after luaF_close no open upvalue of the thread is left from `level` on; each was freed if dead and closed otherwise, in all phases, without breaking the colour rule |
| `GcProgram.NewObject` | lua-5.1.4/src/lgc.c:686-692 | a new object in the current white may appear in any phase, also in front of a sweep that has begun |
| `GcProgram.NewUdata` | lua-5.1.4/src/lstring.c:96-110 | the same for userdata, which go behind the main thread |
| `GcProgram.UseString` | lua-5.1.4/src/lstring.c:75-93 | a dead string that is asked for again is alive afterwards and survives the sweep under way |
| `GcProgram.StackWrite` | lua-5.1.4/src/lgc.c:296-304 | writes to a stack need no barrier, since a thread is never left black |
| `GcLaws.Refers` | lua-5.1.4/src/lgc.c:277-320 | what each kind of object refers to: its values, the one value of a closed upvalue, the stack slot of an open one, nothing for a string |
| `GcLaws.ReachableFrom` | lua-5.1.4/src/lgc.c:501-512 | registry, main and running thread and the metatables of the basic types are reachable, and what reachable objects refer to |
| `GcLaws.MayAllocate` | lua-5.1.4/src/lgc.c:686-692 | a program may allocate any object with values that it can reach, and the collector may take a step, in every state of a run |
| `GcLaws.MayStore` | lua-5.1.4/src/lvm.c:134-144 | it may store any value that it can reach into any object that it can reach, at every place of it |
| `GcLaws.MayRun` | lua-5.1.4/src/lfunc.c:53-112 | it may write the stack of a thread that it can reach down to its open upvalues, capture and close slots there, and switch to it |
| `GcLaws.SetsTable` | lua-5.1.4/src/lvm.c:134-144 | after the event SetTable, in any phase: the entry holds the value, the table has at most this one entry more, every other entry and object is the same but for its colour, and the table refers to what was stored |
| `GcLaws.SetsField` | lua-5.1.4/src/lgc.c:662-672 | the same for a field of a closure, prototype or userdata |
| `GcLaws.SetsUpvalue` | lua-5.1.4/src/lvm.c:447-452 | after SetUp the upvalue shows the value, and only its own cell or its stack slot was written |
| `GcLaws.SetsStack` | lua-5.1.4/src/lgc.c:296-304 | after SetStack the thread has the new stack, and nothing else has changed |
| `GcLaws.StoredReachable` | lua-5.1.4/src/lgc.c:675-683 | what was stored into a reachable table is reachable afterwards, and the table still is, whatever entry the store has overwritten |
| `GcLaws.FieldReachable` | lua-5.1.4/src/lgc.c:662-672 | the same for closures, prototypes and userdata |
| `GcLaws.Captures` | lua-5.1.4/src/lfunc.c:53-79 | after Capture the slot has an alive open upvalue that shows it, in the list of its thread; if it had one before, it is that one, and no object is new |
| `GcLaws.ClosesAll` | lua-5.1.4/src/lfunc.c:96-112 | after CloseFrom, for every alive upvalue: closed exactly if it was open for a slot of that thread from `level` on, and with the value that it had, however many were closed and whatever the barrier marked in between |
| `GcLaws.Allocates` | lua-5.1.4/src/lgc.c:686-692 | after Allocate the object is there with exactly the values given, in the current white, and in the root list; all others are untouched |
| `GcLaws.Interns` | lua-5.1.4/src/lstring.c:50-72 | the same for a string, in the bucket that is the remainder of its hash |
| `GcLaws.TakesString` | lua-5.1.4/src/lstring.c:85-88 | after TakeString the string is alive, and nothing but its colour has changed |
| `GcLaws.Switches` | lua-5.1.4/src/lgc.c:501-512 | after Switch the thread and the metatables are reachable and the heap is the same |
| `GcLaws.CollectsOnly` | lua-5.1.4/src/lgc.c:556-607 | a step of the collector: the same objects are reachable, and they hold what they held |
| `GcLaws.CollectsAll` | lua-5.1.4/src/lgc.c:636-659 | a full collection leaves what was reachable, with what it held, and beyond that only fixed objects |
| `GcHeap.BlackNeverPointsToWhite` | lua-5.1.4/src/lgc.c:277-320 | while marking, whatever a black object refers to directly is marked |
| `GcHeap.ReachableIsAlive` | lua-5.1.4/src/lgc.h:75-76 | in every state that meets the invariant no reachable object is dead or freed, along paths of any length |
| `GcCollector.Collector.constructor` | lua-5.1.4/src/lstate.c:143-191 | the first state meets the invariant |
| `GcCollector.Collector.MarkObject` | lua-5.1.4/src/lgc.c:69-112 | the object is marked and every black object still refers to marked ones only, through chains of userdata and upvalues; it terminates since each call leaves fewer white objects |
| `GcCollector.Collector.PropagateMark` | lua-5.1.4/src/lgc.c:277-320 | one gray object traversed: the colour rule is kept, threads go back on hold, and less is left to do |
| `GcCollector.Collector.MarkRoot` | lua-5.1.4/src/lgc.c:501-512 | from an all-white heap, the roots are marked and the colour rule holds |
| `GcCollector.Collector.RemarkUpvals` | lua-5.1.4/src/lgc.c:515-522 | afterwards open upvalues need no exemption from the colour rule any more |
| `GcCollector.Collector.Atomic` | lua-5.1.4/src/lgc.c:525-553 | afterwards the marked objects hold all roots and are closed under references, with nothing exempt; the white is flipped |
| `GcCollector.Collector.SweepList` | lua-5.1.4/src/lgc.c:407-428 | sweeping part of the root list, and the open upvalues of its threads, frees dead objects only; what was alive keeps its contents, and the sweep advances |
| `GcCollector.Collector.SweepBucket` | lua-5.1.4/src/lgc.c:407-428 | sweeping one bucket of strings frees its dead strings and no other object |
| `GcCollector.Collector.SingleStep` | lua-5.1.4/src/lgc.c:556-607 | in every phase: the invariant holds again, what is reachable is neither freed nor changed, and a cycle under way makes progress |
| `GcCollector.Collector.CycleStep` | lua-5.1.4/src/lgc.c:556-607 | outside the pause a step decreases a measure over phase, white and gray objects and unswept lists, and keeps the set that the survivors are confined to |
| `GcCollector.Collector.FullGC` | lua-5.1.4/src/lgc.c:636-659 | started in any phase it ends in the pause, having kept exactly the objects that were reachable at the call (and fixed ones), with their contents |
| `GcPhase.ReachSame` | lua-5.1.4/src/lgc.c:556-607 | a step of the collector neither adds nor removes reachable objects |
| `Tables.Table.Put` | lua-5.1.4/src/ltable.c:494-505 | the table as a finite map is updated at the key and nowhere else (removed there by nil), also when a colliding node moves or a rehash shifts entries between the parts; exactly nil and NaN fail, with their messages, and change nothing |
| `Tables.Table.Get` | lua-5.1.4/src/ltable.c:469-491 | lookup is lookup in the finite map |
| `Tables.Table.Set` | lua-5.1.4/src/ltable.c:494-505 | the slot returned is the place of the key, and making it changes no lookup; a table with a free node is not rehashed |
| `Tables.Table.NewKey` | lua-5.1.4/src/ltable.c:399-429 | the new key has a place and chains are sound; with a free node it takes one node at most, so no rehash follows, and it gets its main position, hash modulo size, unless a key sits there that is in its own main position |
| `Tables.Table.GetFreePos` | lua-5.1.4/src/ltable.c:382-388 | it finds a free node unless there is none, although it only looks downwards: all nodes from `lastfree` on are taken |
| `Tables.Table.FindPrevious` | lua-5.1.4/src/ltable.c:407-417 | walking from the main position of the colliding key reaches the one node that links to it |
| `Tables.Table.PlaceBeside` | lua-5.1.4/src/ltable.c:404-427 | both cases of a collision, the moved occupant and the chained newcomer, keep chains sound and every lookup |
| `Tables.Table.Rehash` | lua-5.1.4/src/ltable.c:333-349 | no lookup changes, the extra key fits the array part or a free node, and the sizes are those of the source: the array part the largest power of two more than half used by the keys with the extra one, the node part the least power of two for the keys outside it, or the dummy if there are none |
| `Tables.Table.SetNodeVector` | lua-5.1.4/src/ltable.c:272-294 | all nodes are free, and their number is the least power of two that is enough; none but the dummy for size 0 |
| `Tables.ListSized` | lua-5.1.4/src/ltable.c:189-208 | the sizes for a list of length n: an array part that takes all of it and is more than half full, and no nodes |
| `Tables.Table.Resize` | lua-5.1.4/src/ltable.c:297-324 | all entries survive a change of both sizes if the new node part has room; re-insertion leaves the other nodes free, so it never rehashes |
| `Tables.Table.Reinsert` | lua-5.1.4/src/ltable.c:312-322 | one entry put in again: the entries still to come have room, those already in stay |
| `Tables.Table.ResizeArray` | lua-5.1.4/src/ltable.c:327-330 | a larger or smaller array part keeps the contents, if the node part, which stays as it is, has room for what the array part does not take |
| `Tables.Table.GrowArray` | lua-5.1.4/src/lvm.c:705-707 | growing the array part for a table constructor always fits, and keeps the contents |
| `Tables.Table.RemoveEntry` | lua-5.1.4/src/lgc.c:62-66 | the key of a collected object is cleared without taking its node off the chain, so the map stays the same |
| `TableChain.OnePredecessor` | lua-5.1.4/src/ltable.c:15-18 | chains never join: a node has one predecessor at most |
| `TableChain.PutMoveChained` | lua-5.1.4/src/ltable.c:407-417 | moving a colliding node out of its main position keeps chains acyclic, keys reachable and displaced keys in chains of their own main position |
| `TableChain.PutAfterChained` | lua-5.1.4/src/ltable.c:418-424 | the same for a key chained behind the occupant of its main position |
| `TableMap.StoreNode` | lua-5.1.4/src/ltable.c:494-505 | storing into the place of a key changes the lookup of this key only |
| `Tables.RoomForAll` | lua-5.1.4/src/ltable.c:333-349 | the sizes computed by counting leave room for every key outside the array part, and one more node for the extra key if that is outside too |
| `TableSizes.Log2` | lua-5.1.4/src/lobject.c:54-69 | the table-driven logarithm is the place of the highest bit, for any number |
| `TableSizes.ComputeSizes` | lua-5.1.4/src/ltable.c:189-208 | the result is the largest power of two of which more than half the slots are used, with the exact number of keys in it, in spite of both early exits |
| `TableCount.NumUseArray` | lua-5.1.4/src/ltable.c:222-244 | slice by slice it counts exactly the non-nil entries of the array part |
| `TableCount.CountInt` | lua-5.1.4/src/ltable.c:211-219 | a key is counted in its slice if it is a possible array index, and nowhere otherwise |
| `TableCount.NumUseHash` | lua-5.1.4/src/ltable.c:247-260 | it counts exactly the non-nil keys of the nodes, and adds the candidates for the array to the slices |
| `TableBorder.GetN` | lua-5.1.4/src/ltable.c:560-576 | the length is a border of the map (section 2.5.5 of the manual), wherever the array part ends |
| `TableBorder.UnboundSearch` | lua-5.1.4/src/ltable.c:532-553 | from any present index it ends at a border, by doubling and halving or by the linear search |
| `TableBorder.FindIndex` | lua-5.1.4/src/ltable.c:137-159 | the slot of a key exactly when it has one; otherwise the code of "invalid key to 'next'" |
| `TableBorder.Next` | lua-5.1.4/src/ltable.c:162-179 | the first slot with a value after that of the key, nothing only when there is none, an error exactly for a key that the table does not have |
| `TableBorder.Traverse` | lua-5.1.4/src/ltable.c:162-179 | calling next from nil on meets every entry of the map exactly once, with its value |
| `PatchLists.JoinOk` | lua-5.1.4/src/lcode.c:185-196 | hanging one list on another keeps all pending lists finite, disjoint and threaded through the offsets of jumps |
| `PatchLists.JoinSteps` | lua-5.1.4/src/lcode.c:185-196 | the links of the lists do not show in what the code computes |
| `PatchLists.HereJoinSteps` | lua-5.1.4/src/lcode.c:179-182 | adding a list to the jumps to here changes the meaning of these jumps only: they go to the end of the code |
| `PatchLists.DischargeSteps` | lua-5.1.4/src/lcode.c:163-166 | writing the delayed offsets of the jumps to here changes nothing in what the code computes |
| `PatchLists.AddJumpSteps` | lua-5.1.4/src/lcode.c:59-66 | a new jump is on hold; a TESTSET right before it becomes one whose jump is held |
| `PatchLists.ResolveSteps` | lua-5.1.4/src/lcode.c:150-160 | patching a list turns its held tests into jumps with or without the value, and leaves every other step |
| `PatchLists.DemoteSteps` | lua-5.1.4/src/lcode.c:144-147 | removing the values of a list turns its TESTSETs into TESTs, and leaves every other step |
| `CodeGen.FuncState.PatchListAux` | lua-5.1.4/src/lcode.c:150-160 | every jump of the list, and no other instruction, gets its destination, whatever the order of the links; the list is gone |
| `CodeGen.FuncState.Concat` | lua-5.1.4/src/lcode.c:185-196 | the joined list starts at `l1`, holds both, and only the last link of `l1` was written |
| `CodeGen.FuncState.NeedValue` | lua-5.1.4/src/lcode.c:122-128 | true exactly if some jump of the list comes without a value |
| `CodeGen.FuncState.GoIfTrue` | lua-5.1.4/src/lcode.c:539-564 | the code goes on exactly when the expression is true; in the other case it leaves through the false list, with the value where the test keeps one; constants and `true` need no jump, `false` always jumps |
| `CodeGen.FuncState.GoIfFalse` | lua-5.1.4/src/lcode.c:567-591 | the mirror image |
| `CodeGen.FuncState.CodeNot` | lua-5.1.4/src/lcode.c:594-626 | from code for `e` it makes code for `not e`: a literal turned around, a comparison inverted, or an instruction added, lists exchanged, and no stale value kept |
| `CodeGen.FuncState.Exp2Reg` | lua-5.1.4/src/lcode.c:390-411 | the value is in the register on every path, through both lists, with LOADBOOLs only where some jump needs them |
| `CodeGen.FuncState.Exp2RK` | lua-5.1.4/src/lcode.c:444-469 | the value of an operand is in a register or a constant that fits in an instruction, with no list left |
| `CodeGen.FuncState.AddK` | lua-5.1.4/src/lcode.c:229-247 | a constant that the function has keeps its index, a new one gets the next; different constants have different indices |
| `CodeGen.FuncState.Infix` | lua-5.1.4/src/lcode.c:718-742 | after the first operand the code is ready for the second: decided for `and`/`or`, the value in a register or a constant for comparisons |
| `CodeGen.FuncState.Posfix` | lua-5.1.4/src/lcode.c:745-789 | from code for both operands it makes code for the whole expression; code before it and its lists are untouched |
| `CodeGen.FuncState.Compile` | lua-5.1.4/src/lparser.c:828-853 | the calls that the parser makes give code that computes the expression, using no register but the first free one for the result; its shape (literal, lists, jumps to here) is what `CodeShape.ShapeOf` foretells |
| `CodeGen.FuncState.CompileAssignment` | lua-5.1.4/src/lcode.c:472-478 | running the finished code on the machine, from any registers, ends with the value that sections 2.5.2 and 2.5.3 of the Lua 5.1 Reference Manual give in the assigned register, all other registers in use unchanged; also with literals, if no jump that is always made is emitted while jumps to here are waiting |
| `CodeGen.FuncState.CompileLocal` | lua-5.1.4/src/lcode.c:414-419 | the same for a new local variable |
| `BoolLaws.TruthTables` | lua-5.1.4/src/lobject.h:103 | whoever ends with the value of an expression has in that register what the truth tables say, with nil and false as the only false values; CompileAssignment and CompileLocal promise this for the machine |
| `BoolLaws.ByValue` | lua-5.1.4/src/lobject.h:103 | `not`, `and` and `or` for each value that the operand may have: nil, false, true, a number, anything else |
| `BoolLaws.MachineTests` | lua-5.1.4/src/lvm.c:505-580 | OP_NOT, OP_TEST and OP_TESTSET on each value: the jump is made exactly when a false value meets C = 0 or a true one C = 1, and TESTSET then copies the value |
| `CodeWrong.WrongValue` | lua-5.1.4/src/lcode.c:575-578 | the condition cannot be dropped: the code for `x = ((1 or false) and true) or false` leaves 1 in `x`, where the manual gives true, because a TESTSET jump that waits for here goes on hold with a jump that is always made |
| `CodeShape.NoLiteralsHarmless` | lua-5.1.4/src/lcode.c:59-66 | without literals in it an expression always meets that condition |
| `CodeShape.NeverLeapsHarmless` | lua-5.1.4/src/lcode.c:539-591 | literals meet the condition too, except where the first operand of `and` ends in a false one or that of `or` in `true` |
| `CodeShape.FirstHarmless` | lua-5.1.4/src/lcode.c:539-591 | and there too, when nothing comes before them |
| `CodeGen.FuncState.AlwaysJump` | lua-5.1.4/src/lcode.c:547-550 | a jump with no test before it is on hold as a list of its own, and nothing else changes |
| `CodeExec.ExecSteps` | lua-5.1.4/src/lvm.c:403-415 | for finished code, running its steps is running the instructions JMP, EQ, LT, LE, TEST, TESTSET, MOVE, NOT, LOADBOOL, LOADK and GETUPVAL on the machine |
| `BoolCode.RunGrown` | lua-5.1.4/src/lcode.c:150-160 | code that has been patched and has grown runs as before, and from where an earlier run left it goes on at the patched destination |
| `BoolMeaning.JoinMeans` | lua-5.1.4/src/lcode.c:745-760 | code that decides the first operand followed by code for the second computes `and`/`or`, with the lists joined |
| `BoolMeaning.CloseReady` | lua-5.1.4/src/lcode.c:390-411 | closing both lists delivers the same value on every path |
| `BoolMeaning.CompareMeans` | lua-5.1.4/src/lcode.c:681-694 | a comparison of two registers or constants, of which the second computation leaves the first alone, computes the comparison, also for `>` and `>=` |
| `UpvalueSim.SharedCells` | lua-5.1.4/src/lfunc.c:53-112 | after any sequence of events, slots and closures have the values of the reference in which each captured variable is one shared cell |
| `UpvalueSim.StepSimulates` | lua-5.1.4/src/lvm.c:715-737 | every event (assignment, capture, closing, closure creation, sweeping) is simulated by the reference |
| `UpvalueState.CloseExactly` | lua-5.1.4/src/lfunc.c:96-112 | exactly the upvalues at or above the level are closed with their current values, or freed if dead; all others stay as they were |
| `UpvalueState.State.DoAll` | lua-5.1.4/src/lfunc.c:53-112 | the machine itself, with its links, does what those theorems speak of, and keeps both lists sound: strictly descending by slot, and `uvhead` exactly the open ones |
| `UpvalueState.State.FindUpval` | lua-5.1.4/src/lfunc.c:53-79 | the walk finds the upvalue of the slot if there is one, and otherwise the place where the list stays sorted |
| `UpvalueState.State.Close` | lua-5.1.4/src/lfunc.c:96-112 | the loop ends with the state that `CloseExactly` describes |
| `UpvalueState.SweepExactly` | lua-5.1.4/src/lgc.c:407-428 | the sweep of a thread's list frees exactly the dead upvalues of its slots; all others keep their place and value |
| `UpvalueState.State.SweepOpen` | lua-5.1.4/src/lgc.c:407-428 | the loop over the links ends with the state that `SweepExactly` describes |
| `UpvalueState.CondemnExactly` | lua-5.1.4/src/lgc.c:407-428 | the upvalues that the collector condemns are those among its choice that no closure has; nothing else changes |
| `UpvalueState.State.SetUpval` | lua-5.1.4/src/lvm.c:447-452 | an assignment through an upvalue goes to the stack slot while it is open, to its own cell when closed |
| `UpvalueCells.SetLocalAgrees` | lua-5.1.4/src/lfunc.c:53-79 | an assignment to a slot is seen through the open upvalue for it, and through no other |
| `UpvalueCells.SetCellAgrees` | lua-5.1.4/src/lvm.c:447-452 | an assignment through an upvalue is an assignment to its variable and to no other |
| `StringTables.StringTable.DoAll` | lua-5.1.4/src/lstring.c:75-93 | over any sequence of requests, marks, flips, sweeps of buckets and resizings: the texts that the program holds keep their addresses, a text asked for again is the same string, and two held strings are the same pointer exactly when they have the same contents |
| `StringTables.StringTable.DoOne` | lua-5.1.4/src/lgc.c:556-590 | what every event does: a fixed string is fixed, a marked one marked, each phase of the collector goes on to the next as it should, a sweep step frees all dead strings of its bucket, and requests grow the table exactly when it is crowded |
| `StringTables.SizeKept` | lua-5.1.4/src/lgc.c:431-436 | the number of buckets stays a power of two and at least 32, through doubling and halving, as lmod needs |
| `Numbers.LmodIsRemainder` | lua-5.1.4/src/lobject.h:355-356 | the bucket of a hash is the remainder |
| `StringTables.StringTable.NewLStr` | lua-5.1.4/src/lstring.c:75-93 | the result has the text and is not dead; it is an old string exactly if one with that text was in the table; no other string changes in what it is |
| `StringTables.StringTable.AddString` | lua-5.1.4/src/lstring.c:50-72 | adding a new text keeps buckets and uniqueness, also when the table grows with it |
| `StringTables.StringTable.Resize` | lua-5.1.4/src/lstring.c:22-47 | every string ends up in the bucket of its hash in the new size, exactly once; nothing moves while the buckets are swept |
| `StringTables.StringTable.SweepBucket` | lua-5.1.4/src/lgc.c:572-580 | dead strings of the bucket are gone, only dead ones are gone, and the cursor moves on |
| `StringMarks.BucketSwept` | lua-5.1.4/src/lgc.c:407-428 | the sweep of one bucket leaves it clean, keeps the marks of those swept before, and frees exactly its dead strings |
| `StringMarks.HeldSurvive` | lua-5.1.4/src/lgc.c:572-580 | what the program holds survives a sweep that frees only the dead |
| `Strings.Push` | lua-5.1.4/src/lstring.c:50-72 | a string put in front of its bucket keeps all buckets sound |
| `Strings.Erase` | lua-5.1.4/src/lgc.c:407-428 | unlinking a string through its predecessor keeps all buckets sound |
| `Strings.MoveString` | lua-5.1.4/src/lstring.c:33-43 | one string moved from the old buckets to the new ones; the rest of the old chain is still reached |
| `PatternMatch.MatchState.Match` | lua-5.1.4/src/lstrlib.c:365-440 | match terminates on every pattern and does what the search among all matches says; when it fails, level and captures are as they were |
| `PatternMatch.MatchState.StrFind` | lua-5.1.4/src/lstrlib.c:495-535 | the leftmost place with a match, there the match preferred to all others, with its captures; none is found only if there is none; no error on well-formed patterns. In plain terms: a pattern of one class with its mark finds the leftmost place that it can take and takes the most there (the least with `-`), plain text is found where it first occurs, and `%d` finds the first byte from 48 to 57 |
| `PatternMatch.MatchState.MaxExpand` | lua-5.1.4/src/lstrlib.c:301-313 | it tries the most repetitions first, down to none |
| `PatternMatch.MatchState.MinExpand` | lua-5.1.4/src/lstrlib.c:316-326 | it tries the fewest repetitions first, up to the most |
| `PatternMatch.MatchState.MatchBalance` | lua-5.1.4/src/lstrlib.c:281-298 | the end of the balanced text, the first place where all is closed |
| `PatternMatch.MatchState.MatchCapture` | lua-5.1.4/src/lstrlib.c:354-362 | the place behind a second copy of the captured text, if the subject has it there |
| `PatternSearch.SearchBest` | lua-5.1.4/src/lstrlib.c:365-440 | the search finds a match exactly when section 5.4.1 of the Lua 5.1 Reference Manual admits one, and of all matches the one that is first in backtracking order |
| `PatternSearch.CandsOrdered` | lua-5.1.4/src/lstrlib.c:301-326 | every item tries its positions from the longest to the shortest, `-` from the shortest to the longest |
| `PatternSearch.RepCands` | lua-5.1.4/src/lstrlib.c:301-326 | the positions for a class are exactly those behind as many characters of the class in a row as its mark (`*`, `+`, `-`, `?` or none) allows |
| `PatternSearch.BalanceMeans` | lua-5.1.4/src/lstrlib.c:281-298 | `%b` ends exactly at the first place where as many delimiters are closed as have been opened |
| `PatternSearch.BalanceOfOne` | lua-5.1.4/src/lstrlib.c:281-298 | with the same delimiter twice it ends behind the next one |
| `PatternSearch.NoErrors` | lua-5.1.4/src/lstrlib.c:186-223 | a pattern whose items, capture numbers and parentheses are in order raises no error on any subject |
| `PatternClass.ClassEnd` | lua-5.1.4/src/lstrlib.c:202-223 | it finds the end of a class or set, in which a `]` at the start and escaped characters belong to the set, and both malformed cases |
| `PatternClass.MatchBracketClass` | lua-5.1.4/src/lstrlib.c:245-265 | membership in a set of characters, classes and ranges, or in its complement |
| `PatternClass.Complement` | lua-5.1.4/src/lstrlib.c:226-242 | an upper-case class letter stands for the complement of the class |
| `PatternLaws.ClassLetters` | lua-5.1.4/src/lstrlib.c:226-242 | which bytes each of the ten class letters takes, as ranges of byte values |
| `PatternLaws.OtherLetters` | lua-5.1.4/src/lstrlib.c:226-242 | any other character behind `%` takes itself only, upper-case letters the complements |
| `PatternLaws.SetMeans` | lua-5.1.4/src/lstrlib.c:202-265 | a set is the union of its characters, ranges with both ends, classes and escaped characters, and of a leading `]`, complemented by `^`; it ends behind its `]` |
| `PatternLaws.SampleSet` | lua-5.1.4/src/lstrlib.c:202-265 | `[^]a-z%d]` byte by byte |
| `PatternLaws.OneItemMatches` | lua-5.1.4/src/lstrlib.c:365-440 | the matches of a pattern of one item are exactly the stretches that its class and mark allow |
| `PatternLaws.LetterItem` | lua-5.1.4/src/lstrlib.c:226-242 | `%` with a class letter takes one byte of the class, with `+` one or more in a row |
| `PatternLaws.PlainMatches` | lua-5.1.4/src/lstrlib.c:365-440 | text without special characters matches exactly where it occurs |
| `Sort.AuxSort` | lua-5.1.4/src/ltablib.c:193-254 | for any strict weak order the range ends up sorted and a permutation of what it was, and nothing outside is touched; calls nest at most as deep as the logarithm of the size, since a call inside must do with one level less |
| `Sort.TableSort` | lua-5.1.4/src/ltablib.c:256-264 | the whole list is a sorted permutation, with no more nested calls than the logarithm of its length |
| `Sort.ScanUp` | lua-5.1.4/src/ltablib.c:224-229 | the scan stops at or before the pivot in a[u-1], so "invalid order function" is never raised |
| `Sort.ScanDown` | lua-5.1.4/src/ltablib.c:230-234 | the scan stops at or after a[l], so "invalid order function" is never raised |
| `Sort.Partition` | lua-5.1.4/src/ltablib.c:193-243 | one turn leaves nothing above the pivot on its left and nothing below it on its right |
| `Precedence.RoundTrip` | lua-5.1.4/src/lparser.c:828-853 | any operator tree, printed with only the parentheses that the priorities need, parses to itself |
| `Precedence.OnlyGrouping` | lua-5.1.4/src/lparser.c:828-853 | tokens without parentheses that parse are printed back as they were, so no parsing is lost and no parenthesis is superfluous |
| `Precedence.TwoOperators` | lua-5.1.4/src/lparser.c:810-821 | for every pair of operators: `a op1 b op2 c` groups to the right exactly if op2 is on a higher level of section 2.5.6 of the manual (or; and; comparisons; `..`; `+ -`; `* / %`; `^`), or both are `..` or both `^` |
| `Precedence.PrioritiesAreLevels` | lua-5.1.4/src/lparser.c:810-821 | the two columns of the priority table order the operators as those levels do, with unary operators right below `^` |
| `Precedence.UnaryFirst` | lua-5.1.4/src/lparser.c:821-840 | unary operators bind tighter than all binary ones but `^` |
| `Precedence.Parser.Expression` | lua-5.1.4/src/lparser.c:828-853 | the method with its loop parses what those lemmas are about, and returns the operator it did not take |
| `Quote.WriteThenRead` | lua-5.1.4/src/lstrlib.c:696-723 | for every string of bytes, with any text behind it: what %q writes is lexed to that string, consumed exactly, with its lines counted |
| `Quote.ReadQuoted` | lua-5.1.4/src/llex.c:276-329 | the lexer's rules, on quoted text followed by anything, give the string back, including backslash-newline, carriage returns, zeros before digits and pairs of newlines |
| `Quote.AddQuoted` | lua-5.1.4/src/lstrlib.c:696-723 | the loop writes the quoted form that `ReadQuoted` is about |
| `Quote.LexState.ReadString` | lua-5.1.4/src/llex.c:276-329 | the loop over the current character and the buffer reads a literal by the rules that `ReadQuoted` is about, with the same errors |
| `Quote.ControlCodes` | lua-5.1.4/src/llex.c:291-297 | the codes of the seven letters behind a backslash, and that there are no others |
| `Quote.CharacterEscape` | lua-5.1.4/src/llex.c:287-319 | such a letter behind a backslash is its control code, any other character that is no digit or newline is itself |
| `Quote.DecimalEscape` | lua-5.1.4/src/llex.c:304-313 | one to three digits are the byte with that number; more than 255 is an error |
| `Quote.NewlineEscape` | lua-5.1.4/src/llex.c:298-299 | a newline behind a backslash is a newline of the string and a new line, and a pair of different ones counts once |
| `Quote.LiteralEnds` | lua-5.1.4/src/llex.c:276-329 | the delimiter ends a literal, a bare newline or the end of the input is an error |
| `References.UseAll` | lua-5.1.4/src/lauxlib.c:481-512 | over any calls on a table without other integer keys (it may have any other entries, which stay): a returned reference was not in use, it is the one given back last or a new number, and all in use keep their values |
| `References.Ref` | lua-5.1.4/src/lauxlib.c:481-501 | the reference that was given back last, or if none is free the next number; it was not in use, and the value is found under it; nil gives -1 |
| `References.Unref` | lua-5.1.4/src/lauxlib.c:504-512 | the reference becomes the first free one, all others keep their values; negative ones are ignored |
| `References.OnlyBorder` | lua-5.1.4/src/lauxlib.c:494-498 | without free references the length of the table is unique, so a new reference never overwrites one |
| `ChunkRoundTrip.DumpThenLoad` | lua-5.1.4/src/ldump.c:153-164 | a function dumped and undumped is the same function (without debug information if stripped), however the reader cuts the bytes into chunks, and exactly the bytes written are consumed |
| `ChunkBack.ChunkComesBack` | lua-5.1.4/src/lundump.c:161-209 | the format itself: reading the bytes of a dumped prototype tree, followed by any others, gives the tree and these others |
| `ChunkLaws.Header` | lua-5.1.4/src/lundump.c:183-227 | the twelve bytes that every chunk starts with; a shorter input and any other header are refused |
| `ChunkLaws.IntLittleEndian` | lua-5.1.4/src/ldump.c:53-56 | an int is its four bytes in two's complement, the low one first |
| `ChunkLaws.SampleBytes` | lua-5.1.4/src/ldump.c:75-141 | a function with one of everything, byte by byte: the order of the fields, the tags of the constants, the sizes before texts and vectors |
| `ChunkLaws.SampleReady` | lua-5.1.4/src/ldump.c:75-141 | that function may be dumped and loaded, with and without its debug information |
| `Dump.DumpState.DumpChunk` | lua-5.1.4/src/ldump.c:153-164 | if no error is returned the output is the whole chunk; with a reliable writer none is returned |
| `Dump.DumpState.DumpFunction` | lua-5.1.4/src/ldump.c:129-141 | after an error of the writer nothing more is written; without one all bytes of the function are |
| `Undump.Zio.Fill` | lua-5.1.4/src/lzio.c:21-32 | the next chunk with its first byte taken; the end exactly when no byte is left |
| `Undump.Zio.Lookahead` | lua-5.1.4/src/lzio.c:35-45 | the next byte without consuming it, also across a refill |
| `Undump.Zio.Read` | lua-5.1.4/src/lzio.c:58-71 | exactly the next bytes of the stream over any number of chunks, or the number of those missing |
| `Undump.LoadState.Load` | lua-5.1.4/src/lundump.c:190-209 | the loader over the chunked stream reads what the format says, with the same errors, and leaves the same bytes |
| `Undump.LoadState.LoadFunction` | lua-5.1.4/src/lundump.c:161-181 | the same for one prototype with those inside, up to the limit of nesting, which it restores |
| `Primes.IsPrime` | ltutil.cpp:108-126 | exactly 1 and the primes above 23 are accepted: trial division by the first primes and up to the square root is enough |
| `Primes.NextPrime` | ltutil.cpp:128-133 | it always ends, with the least accepted number above n |
| `Primes.PrimeAbove` | ltutil.cpp:128-133 | there is a prime above every number, so the search has something to find |
| `Primes.FindDoublePrime` | ltutil.cpp:135-147 | the result 2k+1 exceeds n, k and 2k+1 are prime, and k is the least such accepted number above n/2 |

## Left out

The collector:

- GcProgram.Run: the cited lines also serve weak tables and finalizers (`__mode`, `__gc`); tables are strong and userdata have no `__gc` in the model, so GCSfinalize has nothing to call.
- GcCollector.Collector.PropagateMark: weak tables, which the cited lines leave gray.
- GcCollector.Collector.Atomic: weak tables and the separation of userdata with finalizers.
- GcCollector.Collector.SingleStep: finalizers in GCSfinalize and checkSizes.
- GcCollector.Collector.CycleStep: the same.
- GC pacing: thresholds, debt and estimates decide when steps happen; runs here take steps at any time.
- Stack shrinking and buffer sizes in checkSizes. Resizing the string table at the end of a cycle is modelled in `StringTables`, not in the heap of the collector.
- A table of the collector's heap is a list of values, a thread the values of its stack with its globals first; inner layout is the table model's business.
- The order in which the objects of one gray object are marked, and in which the upvalues of a freed thread are freed, is that of the lists of the model.
- `lua_setupvalue`: its barrier is on the closure, not on the cell; stores go through OP_SETUPVAL.

The table:

- Tables.Table.Put: the error for more than 2^26 slots, the cache of absent metamethods and the collector's barrier are not modelled; keys are abstract, with equality and any hash function.
- Tables.Table.SetNodeVector: the error for more than 2^26 nodes.
- TableBorder.FindIndex: a key that the collector has made dead is not found; the C code still finds its slot.
- TableBorder.Next: traversal from such a key.
- Pointers to slots are indices, and the node array is a sequence that methods reassign.
- Tables.Table.ResizeArray: a smaller array part whose entries do not fit the node part, for which the C code would rehash while it is still reading the old array part; no caller asks for that.

Code generation:

- CodeGen.FuncState.CompileAssignment: with literals the value is shown to be right if no jump that is always made is emitted while jumps to here are waiting; waiting jumps that keep no value would do no harm, but are not told apart. Without literals there is no condition.
- CodeGen.FuncState.GoIfTrue: `nil`, whose LOADNIL luaK_nil merges with the instruction before it (lua-5.1.4/src/lcode.c:35-56).
- CodeGen.FuncState.GoIfFalse: the same.
- CodeGen.FuncState.CodeNot: the same.
- CodeGen.FuncState.Infix: arithmetic and concatenation.
- CodeGen.FuncState.Posfix: arithmetic and concatenation.
- CodeGen.FuncState.Compile: arithmetic, calls, table accesses and constructors.
- The constant table holds indices only; an instruction that names a constant holds its value. The limit of registers, line information and the packing of instructions are left out.
- Comparisons are any function of two values, without metamethods and errors.

Upvalues and strings:

- Stacks of fixed size, values as integers; coroutines beyond threads with stacks of their own.
- UpvalueState.State.DoAll: which upvalues are dead is an event of the run; that only unreachable ones are is the collector's theorem.
- The limit of the length of strings and of the size of the string table.

The others:

- PatternMatch.MatchState.StrFind: plain searches, and pushing the captures as values.
- PatternMatch.MatchState.Match: subjects and patterns are sequences of bytes with the classes of the C locale; `gsub` and `gmatch`.
- Sort.AuxSort: comparators that are not strict weak orders, with which the scans may leave the range; comparators that raise errors.
- Precedence.Parser.Expression: the limit of nested expressions; simple expressions are atoms and parentheses.
- Quote.LexState.ReadString: long strings and the rest of the lexer; locale.
- ChunkRoundTrip.DumpThenLoad: little-endian sizes of 4, 8, 4 and 8 bytes, numbers as their bytes, the checker of code as a predicate that accepts the dumped functions, the writer as a function of the number of the block.
- Primes.FindDoublePrime: needs some number to find; whether there always is one is an open question of number theory.
- Memory failure, IEEE arithmetic, overflow of C integers, hooks, I/O, the operating system, dynamic loading, the stand-alone programs, and the rest of `ltutil.cpp`.

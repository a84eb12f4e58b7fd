# Lua 5.1.5 core and MIME codecs, modelled and proved in Dafny

The application embeds the Lua 5.1.5 interpreter and the MIME filters of LuaSocket. This
project models the parts of that C code whose correctness is not obvious from reading one
function, and proves that they do what they are for. `dafny verify dfyconfig.toml` checks
everything.

All of it has one shape. What the C code does is given twice: as a function on values (the
specification, whose properties are proved as lemmas), and as a method with the loops and
updates of the C code, on a class with its fields, whose `ensures` equates the new state
with that function of the old one. Pointers are ids or indices, and NULL is a value of its own.

| files | component | main results |
|---|---|---|
| `Gc*` | incremental collector, open upvalues, string table (lgc.c, lgc.h, lfunc.c, lstring.c) | GcRuns.CollectorSafe, GcLoads.LoadedSafe, GcLoads.CollectorUnseen, GcRuns.TriColorAlways, GcRuns.StringsUnique, GcFull.FullGCExact, GcClose.CloseUpvalsKeepsValues, GcWeak.CollectingKeepsHeld, GcScenario.ClosureSurvives |
| `Cg*` | expression code generator and its virtual machine (lcode.c, lparser.c, lvm.c, lopcodes.h) | CgExpr.CompileOk, CgVm.CompileExpression, CgSource.CompileTokens |
| `Prs*` | operator precedence (lparser.c) | PrsExpr.SubexprSound, PrsExpr.SubexprReads, PrsLevels.ReadByLevels |
| `Tbl*` | tables with array and hash part, traversal, borders, references (ltable.c, lobject.c, lauxlib.c) | TblClass.Table.Set, TblClass.Table.Rehash, TblNext.Traverse, TblRef.Ref |
| `Pat*` | pattern matching and substitution (lstrlib.c) | PatReading.FirstChosen, PatMatch.MatchState.Match, PatWritten.ItemsWritten, PatGsub.GsubIdentity |
| `Dmp*` | precompiled chunks over a chunked stream (ldump.c, lundump.c, lzio.c) | DmpParse.UndumpDump, DmpUndump.LoadDumped, DmpLayout.DumpExact |
| `Lex*` | `%q` and the string reader (lstrlib.c, llex.c) | LexString.ReadBack, LexEscapes.LiteralScans |
| `Mime*` | quoted-printable and Base64 (mime.c; RFC 2045, sections 6.7 and 6.8) | MimeQpLaws.StreamsRoundTrip, MimeQpDirect.EncodedDirect, MimeQpWrap.WrapRoundTrip, MimeB64.StreamsRoundTrip, MimeB64Table.EncodedPrints |
| `Sort*` | quicksort (ltablib.c) | SortQuick.AuxSort |

How the pieces fit:

- **Collector.** `GcHeap` has objects, references and reachability. A `State` (GcInv) holds the
  heap, colours, the lists `gray`, `grayagain`, `weak`, `rootgc` and the ring of open upvalues,
  the string table and the phase. Each C function is a function on it; `GcSteps.SingleStep` is the
  collector and `GcRuns.StepInv` adds every step the program can take, so a run is any
  interleaving. A program may use any object that is not dead: this includes what it can reach and
  what it has just made (`GcProgram`). `GcClose` is what luaF_close does, `GcWeak` what weak
  tables lose and what they do not, and `GcScenario` is one run in full. `GcLoads` says what the
  program can load from each kind of object, without the traversal, and proves that references,
  reachability and what survives are that. `GcCollector.GlobalState`
  is the C code in place. The address of a freed object may be used again by a later allocation.
- **Code generator.** `CgCode` runs code whose unresolved jumps are *pending*: a run may leave
  by one. `CgGen` is the generator with jump lists as sets; the lemmas up to `CgExpr` prove that
  its code delivers the value of the expression. `CgFuncState.FuncState` is the generator
  as it is, with lists threaded through the sBx fields, and refines `CgGen`; `CgVm` runs the
  words it emitted. `CgWords` packs these words into 32 bits. `PrsExpr` reads tokens as a tree,
  `PrsLevels` says which tree the manual asks for, and `CgSource` compiles what was read.
- **Tables.** The ghost field `m` of `TblClass.Table` is the finite map a table stands for, from
  keys to values that are not nil. `Valid()` ties it to the array and the node vector, with the
  main-position invariant of the header of ltable.c as `TblNodes.NodesOk`.
- **Patterns.** A *reading* of a pattern says how many times each item is repeated.
  `PatReading.First` is the backtracking search and `FirstChosen` says which reading it takes;
  `PatMatch.MatchState` has the capture array that is changed and restored in place. `PatWritten`
  says how each item is written, and `PatLaws` what classes, captures and replacements mean.
- **Formats.** What is written and read back is also said place by place, with the printed tables:
  `DmpLayout` for chunks, `LexEscapes` for string literals, `MimeB64Table` and `MimeQpDirect` for
  the filters, `CgOpcodes` for instructions.

## Where the code and its documentation differ

The code is followed in each case.

- The header of ltable.c says that the array part is the largest with *at least* half of its
  slots in use; `computesizes` asks for *more* than half. TblSizes.HeaderSize says when the two
  agree, and TblSizes.HeaderDiffers is an input where they do not.
- `mime_global_unqp`, called for the last time, returns nil for an output whose first byte is
  zero, since it tests the first byte where it means to test the length. When the text is decoded
  in that one call it comes back exactly if its first byte is not zero: MimeQpLaws.UnqpOnce is the
  condition, MimeQpLaws.UnqpOnceLoses the input. `mime_global_qp` has the same test, which does
  no harm there: encoded text never starts with a zero byte (MimeQpLaws.FlatStart).
- `mime_global_qpwrp` takes any line length. Below 4 it breaks every `=XX` that the first line has
  no room for, so that the text comes back exactly if there is none (MimeQpWrap.WrapExact; the
  input is MimeQpWrap.WrapTooNarrow). Lines fit from length 2 on (MimeQpWrap.WrapFits,
  MimeQpWrap.WrapTooLong).
- `luaK_goiftrue` has no case for VFALSE, which goes to the default branch: a register is loaded
  and tested (CgConds.GoIfOk).
- Pattern items with a position capture as back reference never match, since the length compared
  is that of no text (PatMatch.MatchState.MatchCapture).

## Model

| member | source | states |
|---|---|---|
| GcMark.MarkAllCovered | toppingAndroid/src/main/jni/lgc.c:69-112 | Marking to the end keeps: every gray object is on a list and every marked object refers strongly only to marked objects or waits on a list; nothing is left waiting in the argument list |
| GcMark.MarkAllTriColor | toppingAndroid/src/main/jni/lgc.c:69-112 | Marking to the end makes no black object refer to a white one, for every heap and every list of values to mark |
| GcMark.MarkAllNew | toppingAndroid/src/main/jni/lgc.c:69-112 | Every object that becomes gray is put on the gray list exactly once; strings and userdata get their final colour at once |
| GcMark.MarkAllProgress | toppingAndroid/src/main/jni/lgc.c:69-112 | Marking changes nothing, or there are fewer white objects afterwards |
| GcMark.MarkAllWithin | toppingAndroid/src/main/jni/lgc.c:69-112 | Nothing is marked outside a set that contains what was marked and is closed under strong references |
| GcCycle.PropagateMarkInv | toppingAndroid/src/main/jni/lgc.c:277-320 | Traversing one gray object keeps the whole invariant of the mark phase: lists disjoint and without repetition, kinds of objects on each list, no black object refers to a white one |
| GcCycle.PropagateMarkCovered | toppingAndroid/src/main/jni/lgc.c:277-320 | After it everything a marked object refers to strongly is marked, unless the object is on a list |
| GcCycle.PropagateMarkAgain | toppingAndroid/src/main/jni/lgc.c:277-320 | A thread that is traversed turns gray again and is on `grayagain`, so that it is traversed again in the atomic step; weak tables are on `weak` |
| GcCycle.PropagateMarkDecreases | toppingAndroid/src/main/jni/lgc.c:277-320 | Each step leaves fewer white objects, or as many and a shorter gray list |
| GcCycle.PropagateAllInv | toppingAndroid/src/main/jni/lgc.c:323-327 | Propagation ends with an empty gray list and keeps the invariants |
| GcAtomic.RemarkInv | toppingAndroid/src/main/jni/lgc.c:515-522 | Remarking the open upvalues covers the values that the program may have changed behind the gray upvalues |
| GcAtomic.AtomicMarkInv | toppingAndroid/src/main/jni/lgc.c:525-546 | After the three passes of the atomic step nothing is left to traverse, only threads are still gray, and the running thread and the metatables of the types are marked |
| GcAtomic.ClearTableSpec | toppingAndroid/src/main/jni/lgc.c:351-375 | Clearing a weak table only drops references, changes the colour of strings only, and leaves nothing in it that is about to be collected |
| GcAtomic.ClearTablesSpec | toppingAndroid/src/main/jni/lgc.c:351-375 | The same for every table of the list; no other object changes |
| GcAtomic.AtomicClosed | toppingAndroid/src/main/jni/lgc.c:525-553 | After clearing, no marked object refers, strongly or weakly, to one that is not marked |
| GcMutator.WriteTriColor | toppingAndroid/src/main/jni/lgc.h:86-97 | Before the barriers run, a store can break the colour invariant only at the object stored into, and only for the values just stored |
| GcMutator.BarrierFInv | toppingAndroid/src/main/jni/lgc.c:661-671 | The forward barrier restores the invariant for one stored value: while marking the value is marked, in a sweep the object turns white |
| GcMutator.WriteInv | toppingAndroid/src/main/jni/lgc.h:86-97 | A store into a table, closure, prototype, closed upvalue or thread, with the barriers the macros call, keeps every invariant in every phase |
| GcAlloc.NewInv | toppingAndroid/src/main/jni/lgc.c:685-691 | Allocating an object of any kind in the current white, at its place in the list of objects, keeps every invariant in every phase |
| GcAlloc.SetMtInv | toppingAndroid/src/main/jni/lgc.c:493-497 | Setting the metatable of a type needs no barrier, since the atomic step marks these again |
| GcUpval.CloseOneInv | toppingAndroid/src/main/jni/lfunc.c:96-112 | Closing one upvalue and linking it into the list of objects keeps every invariant in every phase |
| GcUpval.CloseUpvalsInv | toppingAndroid/src/main/jni/lfunc.c:96-112 | Closing all upvalues at or above a level keeps every invariant (which ones, and what becomes of them: GcClose.CloseUpvalsExact, GcClose.CloseUpvalsEach) |
| GcUpval.CloseKeepsValues | toppingAndroid/src/main/jni/lfunc.c:96-112 | One turn of the loop: every upvalue that is not dead stands for the same value before and after another one is closed |
| GcFindUpval.FoundIsOpen | toppingAndroid/src/main/jni/lfunc.c:53-79 | What the search returns is an open upvalue of this thread at this level |
| GcFindUpval.FoundComplete | toppingAndroid/src/main/jni/lfunc.c:53-79 | Whenever the thread has an open upvalue at a level, the search finds that one: closures over one local share it |
| GcFindUpval.FindUpvalInv | toppingAndroid/src/main/jni/lfunc.c:53-79 | Finding, reviving or making an upvalue keeps every invariant, the order of the list and the ring of open upvalues |
| GcStrings.ResizeOk | toppingAndroid/src/main/jni/lstring.c:22-47 | Resizing the string table to a power of two loses and duplicates no string, puts each in bucket `hash mod size`, and keeps the exact count |
| GcStrings.ResizeInv | toppingAndroid/src/main/jni/lstring.c:22-47 | Resizing keeps every invariant |
| GcStrings.FindStrSpec | toppingAndroid/src/main/jni/lstring.c:75-93 | The search of a chain returns an equal string of it, or there is none |
| GcStrings.FindStrComplete | toppingAndroid/src/main/jni/lstring.c:75-93 | A string is found in its bucket exactly when an equal one exists anywhere in the heap |
| GcStrings.AddStrInv | toppingAndroid/src/main/jni/lstring.c:50-72 | Adding a string that is not there, with the growth of the table, keeps every invariant |
| GcStrings.InternInv | toppingAndroid/src/main/jni/lstring.c:75-93 | Interning keeps every invariant, in every phase |
| GcSweep.SweepBucketInv | toppingAndroid/src/main/jni/lgc.c:572-580 | The string sweep never runs past the table, and sweeping a bucket frees only dead strings |
| GcSweep.SweepUpvalsInv | toppingAndroid/src/main/jni/lgc.c:407-428 | Sweeping the open upvalues of a thread frees only dead ones and keeps list and ring consistent |
| GcSweepList.SweepOneInv | toppingAndroid/src/main/jni/lgc.c:407-428 | Sweeping one object keeps every invariant and every live object |
| GcSweepList.FreeThreadInv | toppingAndroid/src/main/jni/lgc.c:378-400 | Freeing a thread closes its upvalues first, and those that are live outlive it |
| GcSweepList.SweepListInv | toppingAndroid/src/main/jni/lgc.c:407-428 | So does sweeping any number of objects |
| GcSweepList.SweepEnd | toppingAndroid/src/main/jni/lgc.c:581-590 | When the list has been swept everything has the current white |
| GcSteps.StartCycleInv | toppingAndroid/src/main/jni/lgc.c:501-512 | Starting a cycle keeps every invariant and every live object |
| GcSteps.AtomicInv | toppingAndroid/src/main/jni/lgc.c:525-553 | The atomic step keeps every invariant; afterwards the live objects are exactly the marked ones |
| GcSteps.SingleStepInv | toppingAndroid/src/main/jni/lgc.c:556-607 | Every step keeps every invariant, and but for the atomic step changes nothing the program can see |
| GcSteps.NothingReachableFreed | toppingAndroid/src/main/jni/lgc.c:556-607 | No step, in any phase, frees an object that can be reached |
| GcRuns.InitialInv | toppingAndroid/src/main/jni/lstate.c:143-190 | The invariants hold in a new state, with any power of two of buckets and before any string is made (the names made next are GcProgram.NamesFixed) |
| GcRuns.StepInv | toppingAndroid/src/main/jni/lgc.c:556-607 | Every step of the program (store, store through an open upvalue, allocate, capture, close, make a string, fix a string, switch thread, set a metatable, full collection) with any live objects, and every step of the collector, keeps every invariant |
| GcRuns.RunInv | toppingAndroid/src/main/jni/lgc.c:556-607 | So does every run, with any interleaving of these steps |
| GcRuns.CollectorSafe | toppingAndroid/src/main/jni/lgc.c:407-428 | Over every run of a program that uses live objects only, whatever can be reached is allocated, is not dead, and is not freed by the next step |
| GcRuns.StringsUnique | toppingAndroid/src/main/jni/lstring.c:75-93 | Over every run equal byte strings are one object, and looking it up finds it |
| GcRuns.TriColorAlways | toppingAndroid/src/main/jni/lgc.c:69-112 | Over every run threads and open upvalues are never black, and while marking no black object refers to a white one |
| GcFull.StepDecreases | toppingAndroid/src/main/jni/lgc.c:556-607 | Outside the pause each step reaches a later phase, or leaves fewer white objects or less work in its phase |
| GcFull.AbandonInv | toppingAndroid/src/main/jni/lgc.c:635-650 | Giving up a half-done mark and going straight to the sweep keeps every invariant and every object |
| GcFull.SweepUntil | toppingAndroid/src/main/jni/lgc.c:635-658 | From any sweep phase, stepping reaches the end with all live objects kept and everything white |
| GcFull.AtomicExact | toppingAndroid/src/main/jni/lgc.c:525-553 | After the atomic step of an undisturbed cycle without weak tables the live objects are exactly the reachable ones |
| GcFull.FullGCExact | toppingAndroid/src/main/jni/lgc.c:635-658 | A full collection, started in any phase and without weak tables, terminates and leaves exactly the reachable and the fixed objects, with their references |
| GcMarkBits.Tests | toppingAndroid/src/main/jni/lgc.h:65-67 | The bit tests tell white, black and gray apart |
| GcMarkBits.DeadIs | toppingAndroid/src/main/jni/lgc.h:69-70 | An object is dead exactly if it has the other white; flipping the current white keeps its other bits |
| GcMarkBits.SweepTest | toppingAndroid/src/main/jni/lgc.c:407-428 | The single mask test of the sweep is false exactly for objects that have the other white and are not fixed |
| GcMarkBits.Changes | toppingAndroid/src/main/jni/lgc.c:30-41 | The colour changes lead to the colour meant and keep every other bit |
| GcCollector.GlobalState.MarkValue | toppingAndroid/src/main/jni/lgc.c:49-53 | markvalue in place gives the state of marking one value to its end |
| GcCollector.GlobalState.ReallyMarkObject | toppingAndroid/src/main/jni/lgc.c:69-112 | reallymarkobject in place: colours and the gray list are those of marking the object |
| GcCollector.GlobalState.TraverseTable | toppingAndroid/src/main/jni/lgc.c:158-196 | traversetable in place, with the choice of what is traversed by weakness |
| GcCollector.GlobalState.DoPropagateMark | toppingAndroid/src/main/jni/lgc.c:277-320 | propagatemark in place is the specified traversal of the first gray object |
| GcCollector.GlobalState.DoPropagateAll | toppingAndroid/src/main/jni/lgc.c:323-327 | propagateall in place |
| GcCollector.GlobalState.DoMarkRoot | toppingAndroid/src/main/jni/lgc.c:501-512 | markroot in place |
| GcCollector.GlobalState.RemarkUpvals | toppingAndroid/src/main/jni/lgc.c:515-522 | remarkupvals in place, over the ring of open upvalues |
| GcCollector.GlobalState.ClearArray | toppingAndroid/src/main/jni/lgc.c:351-375 | The array part of cleartable in place |
| GcCollector.GlobalState.ClearHash | toppingAndroid/src/main/jni/lgc.c:351-375 | The hash part of cleartable in place |
| GcCollector.GlobalState.DoClearTables | toppingAndroid/src/main/jni/lgc.c:351-375 | cleartable in place, over the list of weak tables |
| GcCollector.GlobalState.DoAtomic | toppingAndroid/src/main/jni/lgc.c:525-553 | atomic in place gives the specified state |
| GcCollector.GlobalState.DoBarrierF | toppingAndroid/src/main/jni/lgc.c:661-671 | luaC_barrierf in place |
| GcCollector.GlobalState.DoBarrierBack | toppingAndroid/src/main/jni/lgc.c:674-682 | luaC_barrierback in place: the table turns gray and joins `grayagain` |
| GcCollector.GlobalState.DoWrite | toppingAndroid/src/main/jni/lgc.h:86-97 | A store and its barriers in place |
| GcCollector.GlobalState.DoLink | toppingAndroid/src/main/jni/lgc.c:685-691 | luaC_link in place |
| GcCollector.GlobalState.DoLinkUpval | toppingAndroid/src/main/jni/lgc.c:694-709 | luaC_linkupval in place, for a closed upvalue in every colour and phase |
| GcCollector.GlobalState.DoFindUpval | toppingAndroid/src/main/jni/lfunc.c:53-79 | luaF_findupval in place: found, revived, or inserted in order into list and ring |
| GcCollector.GlobalState.DoClose | toppingAndroid/src/main/jni/lfunc.c:96-112 | luaF_close in place |
| GcCollector.GlobalState.DoResize | toppingAndroid/src/main/jni/lstring.c:22-47 | luaS_resize in place, refused during the string sweep |
| GcCollector.GlobalState.DoIntern | toppingAndroid/src/main/jni/lstring.c:75-93 | luaS_newlstr in place: search, revival, insertion, growth |
| GcCollector.GlobalState.DoSweepBucket | toppingAndroid/src/main/jni/lgc.c:572-580 | The sweep of one bucket in place |
| GcCollector.GlobalState.DoSweepUpvals | toppingAndroid/src/main/jni/lgc.c:407-428 | The sweep of the open upvalues of a thread in place |
| GcCollector.GlobalState.DoFreeObj | toppingAndroid/src/main/jni/lgc.c:378-400 | freeobj in place |
| GcCollector.GlobalState.DoSweepList | toppingAndroid/src/main/jni/lgc.c:407-428 | sweeplist in place |
| GcCollector.GlobalState.DoSingleStep | toppingAndroid/src/main/jni/lgc.c:556-607 | singlestep in place gives the specified state in every phase |
| GcCollector.GlobalState.FinishCycle | toppingAndroid/src/main/jni/lgc.c:635-658 | Stepping until a phase is reached terminates and gives the specified state |
| GcCollector.GlobalState.DoFullGC | toppingAndroid/src/main/jni/lgc.c:635-658 | luaC_fullgc in place gives the state that FullGCExact is about |
| GcCollector.GlobalState.MarkNodes | toppingAndroid/src/main/jni/lgc.c:158-196 | The loop over the hash part: keys and values of the entries are marked as the weakness of the table asks, last entry first |
| GcCollector.GlobalState.AtomicMarking | toppingAndroid/src/main/jni/lgc.c:525-546 | The three passes of the atomic step in place: upvalues, weak tables and running thread, grayagain |
| GcCollector.GlobalState.DoCloseOne | toppingAndroid/src/main/jni/lfunc.c:96-112 | One turn of the loop of luaF_close in place: unlinked from list and ring, then freed if dead, else given its own value and linked |
| GcCollector.GlobalState.RelinkChain | toppingAndroid/src/main/jni/lstring.c:22-47 | The inner loop of the resize: every string of one chain is put in front of its new chain |
| GcCollector.GlobalState.DoSweepOne | toppingAndroid/src/main/jni/lgc.c:407-428 | One turn of the loop of sweeplist in place: keep and whiten, or unlink and free |
| GcCollector.GlobalState.DoCheckSizes | toppingAndroid/src/main/jni/lgc.c:431-442 | The string table is halved when it is nearly empty |
| GcSteps.AtomicLive | toppingAndroid/src/main/jni/lgc.c:546-552 | After the current white is flipped at the end of the atomic step, the live objects are exactly the marked ones, and they refer only to live ones |
| GcSweepList.UnlinkInv | toppingAndroid/src/main/jni/lgc.c:378-428 | Freeing a dead object that is linked in `rootgc`, a thread without open upvalues included, keeps every invariant and every live object |
| GcRuns.FullGCInv | toppingAndroid/src/main/jni/lgc.c:635-658 | A full collection keeps every invariant in every phase, with weak tables too, and unfixes nothing |
| GcProgram.StaysUsable | toppingAndroid/src/main/jni/lgc.c:556-607 | Every step of the program leaves alive what is alive: what it has made and not stored yet lives until the collector moves |
| GcProgram.CapturedUsable | toppingAndroid/src/main/jni/lfunc.c:53-79 | After a capture the thread has an upvalue for that slot, and it is alive |
| GcProgram.MadeStringUsable | toppingAndroid/src/main/jni/lstring.c:75-93 | After a string is made the table finds one for these bytes, and it is alive: one found dead is revived, so none returned is freed by the sweep |
| GcProgram.MarkedBlack | toppingAndroid/src/main/jni/lgc.c:525-553 | After the atomic step a closure or prototype is alive exactly if it is black |
| GcProgram.NamedRun | toppingAndroid/src/main/jni/lgc.c:407-428 | A fixed name lives through every run, sweeps and full collections included, with its bytes |
| GcProgram.NamesFixed | toppingAndroid/src/main/jni/llex.c:64-72 | Any list of reserved words or metamethod names can be made and fixed by a run, and then each is a fixed string |
| GcScenario.ClosureSurvives | toppingAndroid/src/main/jni/lgc.c:556-607 | A concrete run from the state opened first: a closure over a local that holds it is reachable and, with its open upvalue and prototype, outlives a whole cycle, and a table that was dropped is freed |
| GcClose.CloseUpvalsExact | toppingAndroid/src/main/jni/lfunc.c:96-112 | luaF_close detaches exactly the open upvalues at or above the level, and changes neither the stack nor the globals of the thread |
| GcClose.CloseUpvalsEach | toppingAndroid/src/main/jni/lfunc.c:96-112 | An open upvalue below the level is left alone; one at or above it is freed if it is dead, and else is closed and holds the value of its slot |
| GcClose.CloseUpvalsFrame | toppingAndroid/src/main/jni/lfunc.c:96-112 | Nothing but the thread and its open upvalues is touched |
| GcClose.CloseUpvalsKeepsValues | toppingAndroid/src/main/jni/lfunc.c:96-112 | Every upvalue that is alive, of this thread or another, open or closed, stands for the same value after luaF_close |
| GcClose.CloseStep | toppingAndroid/src/main/jni/lfunc.c:96-112 | The same for a step of the program, together with which upvalues are detached and closed |
| GcClose.FreeThreadKeepsValues | toppingAndroid/src/main/jni/lgc.c:378-400 | Upvalues that are alive outlive the thread that is freed, each with its value |
| GcWeak.ClearTableExact | toppingAndroid/src/main/jni/lgc.c:351-375 | In a weak table exactly the entries with a dead key or value, and the dead array values if values are weak, are emptied; all others are kept as they are |
| GcWeak.ClearTablesExact | toppingAndroid/src/main/jni/lgc.c:351-375 | The same for every table of the list |
| GcWeak.AtomicTable | toppingAndroid/src/main/jni/lgc.c:525-553 | The atomic step leaves a table as it is, or the table is weak and loses exactly what the sweep will free |
| GcWeak.AtomicKeepsHeld | toppingAndroid/src/main/jni/lgc.c:525-553 | What can be reached without going through a weak reference can be reached so, and is alive, after the atomic step |
| GcWeak.StepKeepsHeld | toppingAndroid/src/main/jni/lgc.c:556-607 | So it is after every step of the collector |
| GcWeak.CollectingKeepsHeld | toppingAndroid/src/main/jni/lgc.c:556-607 | However far the collector goes on, with weak tables too, what is held is allocated, alive and still held |
| GcWeak.FullGCKeepsHeld | toppingAndroid/src/main/jni/lgc.c:635-658 | A full collection loses nothing that is held, with weak tables too |
| GcCollector.GlobalState.DoAbandon | toppingAndroid/src/main/jni/lgc.c:635-650 | The beginning of luaC_fullgc in place: a half-done mark is given up (meaning: GcFull.AbandonInv) |
| GcCollector.GlobalState.FindString | toppingAndroid/src/main/jni/lstring.c:80-91 | The search of a chain in place: the first equal string of it, or the end |
| GcCollector.GlobalState.FindPos | toppingAndroid/src/main/jni/lfunc.c:57-66 | The search of the list of open upvalues in place: the first one at or below the level |
| GcFull.CycleExact | toppingAndroid/src/main/jni/lgc.c:635-658 | From a heap that is all white, a whole cycle leaves exactly the reachable and the fixed objects |
| GcFull.MarkUntil | toppingAndroid/src/main/jni/lgc.c:323-327 | Stepping through the mark phase ends, and marks nothing that cannot be reached |
| GcLoads.RefersExact | toppingAndroid/src/main/jni/lgc.c:158-320 | What an object refers to, said field by field without the traversal: for every heap, kind and object it refers to `c` exactly if `c` is loaded from one of its fields: metatable, environment, array slot, key or value of an entry that is not empty, C upvalue, prototype, upvalue, value of an upvalue, globals, stack slot, source, constant, upvalue name, inner prototype, name of a local |
| GcLoads.StrongExact | toppingAndroid/src/main/jni/lgc.c:158-199 | What the collector follows: exactly those fields but the keys of a table whose metatable asks for weak keys, and the slots and values of one that asks for weak values |
| GcLoads.ReachExact | toppingAndroid/src/main/jni/lgc.c:493-512 | What can be reached is exactly what the program can fetch, by loading fields one after another, from its threads, the registry and the metatables of the basic types |
| GcLoads.LoadedSafe | toppingAndroid/src/main/jni/lgc.c:556-607 | Over every run, whatever object the program fetches by any sequence of loads is allocated, alive, and not freed by the next step of the collector |
| GcLoads.LoadSafe | toppingAndroid/src/main/jni/lgc.c:556-607 | The same for one load from an object that can be reached |
| GcLoads.FunctionSafe | toppingAndroid/src/main/jni/lvm.c:411-440 | Over every run the constants (LOADK), inner prototypes (CLOSURE), values of upvalues (GETUPVAL) and the environment of a Lua function in a register are alive and not freed by the next step |
| GcLoads.FullGCFetched | toppingAndroid/src/main/jni/lgc.c:635-658 | Without weak tables a full collection leaves exactly the objects that can be fetched and the fixed ones |
| GcLoads.QuietLoads | toppingAndroid/src/main/jni/lgc.c:378-442 | No step but the atomic one changes a field of a live object: threads that are swept or freed leave every upvalue its value |
| GcLoads.AtomicFirm | toppingAndroid/src/main/jni/lgc.c:525-553 | The atomic step changes no field of any object but entries of weak tables, and slots of tables with weak values |
| GcLoads.StepLooksSame | toppingAndroid/src/main/jni/lgc.c:556-607 | The collector is not seen: after any step the program fetches what it fetched before, by every path without a weak reference, and finds nothing where it found nothing |
| GcLoads.FullGCLooksSame | toppingAndroid/src/main/jni/lgc.c:635-658 | The same for a full collection, in any phase |
| GcLoads.CollectorUnseen | toppingAndroid/src/main/jni/lgc.c:556-607 | Over every run, the same for any number of steps of the collector from there |
| CgCode.ExecPatched | toppingAndroid/src/main/jni/lcode.c:150-160 | Patching a list changes a run only if it leaves by a jump of the list: it goes on at the value target or the default target, with the value in the register if the control is a TESTSET |
| CgCode.PatchedFormed | toppingAndroid/src/main/jni/lcode.c:150-160 | Patched code is well formed, with all jumps forward to labels |
| CgCode.ExecWithoutValues | toppingAndroid/src/main/jni/lcode.c:144-147 | Turning TESTSET into TEST changes no run |
| CgSound.EmitOk | toppingAndroid/src/main/jni/lcode.c:789-801 | Emitting an instruction touches no other and resolves exactly the jumps to here |
| CgSound.HereRun | toppingAndroid/src/main/jni/lcode.c:163-182 | A jump to here arrives where falling through arrives, with the same registers |
| CgReg.AddKOk | toppingAndroid/src/main/jni/lcode.c:229-247 | A constant keeps its index; equal constants share one |
| CgReg.Discharge2RegOk | toppingAndroid/src/main/jni/lcode.c:343-379 | The value is in the register, the exits are kept, and the registers in use below are unchanged |
| CgClose.CloseValued | toppingAndroid/src/main/jni/lcode.c:390-411 | If every exit carries its value no loads are emitted, and each exit brings its value |
| CgClose.CloseLoads | toppingAndroid/src/main/jni/lcode.c:390-411 | Otherwise the two loads give false and true to exactly the exits without a value |
| CgExps.Exp2RegOk | toppingAndroid/src/main/jni/lcode.c:390-411 | exp2reg puts the value in the register on every path, with all its exits closed |
| CgExps.Exp2NextOk | toppingAndroid/src/main/jni/lcode.c:414-419 | The value is in the first free register, and one more register is in use |
| CgExps.Exp2AnyOk | toppingAndroid/src/main/jni/lcode.c:422-433 | The value is in some register and no exit is open |
| CgExps.Exp2ValOk | toppingAndroid/src/main/jni/lcode.c:436-441 | The value is kept and no exit is open |
| CgExps.Exp2RKOk | toppingAndroid/src/main/jni/lcode.c:444-469 | The operand, a register or a constant, has the value |
| CgConds.CondJumpRun | toppingAndroid/src/main/jni/lcode.c:74-77 | A test with its jump leaves by that jump or falls through, as the condition says |
| CgConds.GoIfOk | toppingAndroid/src/main/jni/lcode.c:539-583 | luaK_goiftrue and luaK_goiffalse fall through exactly for the values they name; the other exits carry the value; the default branch also takes VFALSE, as the code does |
| CgNot.CodeNotOk | toppingAndroid/src/main/jni/lcode.c:586-618 | codenot gives the negation, exchanging the lists and removing their values |
| CgCompile.FoldedOk | toppingAndroid/src/main/jni/lcode.c:627-650 | A folded operation is the one the machine would do |
| CgCompile.MinusFolded | toppingAndroid/src/main/jni/lcode.c:689-707 | A folded minus is the one the machine would do |
| CgCompile.UnaryOk | toppingAndroid/src/main/jni/lcode.c:689-707 | Minus and length of the value of the operand |
| CgCompile.ArithOk | toppingAndroid/src/main/jni/lcode.c:653-670 | The operation on the values of both operands, left first |
| CgCompile.CompOk | toppingAndroid/src/main/jni/lcode.c:673-686 | The comparison of the values of both operands; > and >= exchange them |
| CgExpr.LogicOk | toppingAndroid/src/main/jni/lcode.c:737-760 | and, or: short-circuit evaluation, the second operand run only if the first decides it |
| CgExpr.CompileOk | toppingAndroid/src/main/jni/lparser.c:828-853 | For every expression and every state of the generator: from where control arrives the code delivers the value, keeps the registers in use, and leaves only by its own exits |
| CgExpr.NextRegOk | toppingAndroid/src/main/jni/lcode.c:414-419 | The value ends in the next register, or there is a runtime error exactly when evaluation has one |
| CgVm.StepMeans | toppingAndroid/src/main/jni/lvm.c:407-585 | On every instruction the machine does what the abstract code says, as long as no unresolved jump is taken |
| CgVm.RunMeans | toppingAndroid/src/main/jni/lvm.c:407-585 | So does every run |
| CgVm.LeavesOk | toppingAndroid/src/main/jni/lparser.c:828-853 | The finished code leaves the value in its register and the parameters unchanged |
| CgVm.CompileExpression | toppingAndroid/src/main/jni/lparser.c:828-853 | The theorem for the generator as it runs: the emitted words, run by the machine on any parameters, give the value of the expression, or fail exactly if it does; compilation is refused only for expressions beyond a size and a depth, or with more registers than there are |
| CgWords.DecodeEncode | toppingAndroid/src/main/jni/lopcodes.h:36-116 | Packing an instruction into 32 bits and reading its fields gives it back |
| CgWords.SetFields | toppingAndroid/src/main/jni/lopcodes.h:80-101 | Setting a field of the word changes that field and no other |
| CgLinks.LinkedConcat | toppingAndroid/src/main/jni/lcode.c:185-196 | Linking the last jump of a list to the first of another makes one list of both |
| CgFuncState.FuncState.FixJump | toppingAndroid/src/main/jni/lcode.c:80-87 | The offset is stored in sBx; it fails exactly if it does not fit |
| CgFuncState.FuncState.Concat | toppingAndroid/src/main/jni/lcode.c:185-196 | Concatenates two disjoint lists threaded through sBx; all other instructions are unchanged |
| CgFuncState.FuncState.NeedsValue | toppingAndroid/src/main/jni/lcode.c:122-128 | Whether some jump of the list has no value |
| CgFuncState.FuncState.PatchTestReg | toppingAndroid/src/main/jni/lcode.c:131-141 | A TESTSET gets its register or becomes a TEST; anything else is left alone |
| CgFuncState.FuncState.PatchListAux | toppingAndroid/src/main/jni/lcode.c:150-160 | Every jump of the list goes to its value or default target, and the links of other lists are unchanged |
| CgFuncState.FuncState.RemoveValues | toppingAndroid/src/main/jni/lcode.c:144-147 | Every TESTSET of the list becomes a TEST |
| CgFuncState.FuncState.DischargeJpc | toppingAndroid/src/main/jni/lcode.c:163-166 | The jumps to here are resolved to the next instruction |
| CgFuncState.FuncState.Code | toppingAndroid/src/main/jni/lcode.c:789-801 | Emits one instruction after resolving the jumps to here |
| CgFuncState.FuncState.Jump | toppingAndroid/src/main/jni/lcode.c:59-66 | Emits a jump that takes over the list of jumps to here |
| CgFuncState.FuncState.CondJump | toppingAndroid/src/main/jni/lcode.c:74-77 | Emits a test and its jump |
| CgFuncState.FuncState.PatchToHere | toppingAndroid/src/main/jni/lcode.c:179-182 | Adds a list to the jumps to here and marks the label |
| CgFuncState.FuncState.ReserveReg | toppingAndroid/src/main/jni/lcode.c:199-212 | Reserves a register; fails exactly at the limit |
| CgFuncState.FuncState.FreeE | toppingAndroid/src/main/jni/lcode.c:215-226 | Frees the register of an expression, which is the last one |
| CgFuncState.FuncState.AddConstant | toppingAndroid/src/main/jni/lcode.c:229-247 | The index of a constant, new or found |
| CgFuncState.FuncState.LuaNil | toppingAndroid/src/main/jni/lcode.c:35-56 | Loads nil, extending a LOADNIL just before, or nothing at the start of a function |
| CgFuncState.FuncState.Discharge2Reg | toppingAndroid/src/main/jni/lcode.c:343-379 | In place: the new state, its jump lists seen as sets, is `CgGen.Discharge2Reg` of the old one (meaning: CgReg.Discharge2RegOk); links of all other lists are untouched, and it fails only at a limit; with the lists intact |
| CgFuncState.FuncState.Exp2Reg | toppingAndroid/src/main/jni/lcode.c:390-411 | In place: the new state, its jump lists seen as sets, is `CgGen.Exp2Reg` of the old one (meaning: CgExps.Exp2RegOk); links of all other lists are untouched, and it fails only at a limit; every exit is closed |
| CgFuncState.FuncState.Exp2NextReg | toppingAndroid/src/main/jni/lcode.c:414-419 | In place: the new state, its jump lists seen as sets, is `CgGen.Exp2Next` of the old one (meaning: CgExps.Exp2NextOk); links of all other lists are untouched, and it fails only at a limit |
| CgFuncState.FuncState.Exp2AnyReg | toppingAndroid/src/main/jni/lcode.c:422-433 | In place: the new state, its jump lists seen as sets, is `CgGen.Exp2Any` of the old one (meaning: CgExps.Exp2AnyOk); links of all other lists are untouched, and it fails only at a limit |
| CgFuncState.FuncState.Exp2Val | toppingAndroid/src/main/jni/lcode.c:436-441 | In place: the new state, its jump lists seen as sets, is `CgGen.Exp2Val` of the old one (meaning: CgExps.Exp2ValOk); links of all other lists are untouched, and it fails only at a limit |
| CgFuncState.FuncState.Exp2RKOperand | toppingAndroid/src/main/jni/lcode.c:444-469 | In place: the new state, its jump lists seen as sets, is `CgGen.Exp2RK` of the old one (meaning: CgExps.Exp2RKOk); links of all other lists are untouched, and it fails only at a limit; a constant that fits, or a register |
| CgFuncState.FuncState.Discharge2AnyReg | toppingAndroid/src/main/jni/lcode.c:382-387 | In place: the new state, its jump lists seen as sets, is `CgGen.Discharge2Any` of the old one (meaning: CgConds.GoIfOk); links of all other lists are untouched, and it fails only at a limit |
| CgFuncState.FuncState.JumpOnCond | toppingAndroid/src/main/jni/lcode.c:524-536 | In place: the new state, its jump lists seen as sets, is `CgGen.JumpOnCond` of the old one (meaning: CgConds.GoIfOk); links of all other lists are untouched, and it fails only at a limit; including the removal of a NOT just emitted |
| CgFuncState.FuncState.InvertJump | toppingAndroid/src/main/jni/lcode.c:516-521 | Inverts the condition of the comparison, and nothing else |
| CgFuncState.FuncState.GoIfTrue | toppingAndroid/src/main/jni/lcode.c:539-560 | In place: the new state, its jump lists seen as sets, is `CgGen.GoIfTrue` of the old one (meaning: CgConds.GoIfOk); links of all other lists are untouched, and it fails only at a limit; returns the list of exits |
| CgFuncState.FuncState.GoIfFalse | toppingAndroid/src/main/jni/lcode.c:563-583 | In place: the new state, its jump lists seen as sets, is `CgGen.GoIfFalse` of the old one (meaning: CgConds.GoIfOk); links of all other lists are untouched, and it fails only at a limit; returns the list of exits |
| CgFuncState.FuncState.CodeNot | toppingAndroid/src/main/jni/lcode.c:586-618 | In place: the new state, its jump lists seen as sets, is `CgGen.CodeNot` of the old one (meaning: CgNot.CodeNotOk); links of all other lists are untouched, and it fails only at a limit; with the lists exchanged |
| CgFuncState.FuncState.ConstFolding | toppingAndroid/src/main/jni/lcode.c:627-650 | Folds two numerals unless dividing by zero or giving NaN |
| CgFuncState.FuncState.CodeMinus | toppingAndroid/src/main/jni/lcode.c:689-707 | In place: the new state, its jump lists seen as sets, is `CgGen.CodeMinus` of the old one (meaning: CgCompile.MinusFolded); links of all other lists are untouched, and it fails only at a limit |
| CgFuncState.FuncState.CodeArith | toppingAndroid/src/main/jni/lcode.c:653-670 | In place: the new state, its jump lists seen as sets, is `CgGen.CodeArith` of the old one (meaning: CgCompile.ArithOk); links of all other lists are untouched, and it fails only at a limit; operands freed last one first |
| CgFuncState.FuncState.CodeComp | toppingAndroid/src/main/jni/lcode.c:673-686 | In place: the new state, its jump lists seen as sets, is `CgGen.CodeComp` of the old one (meaning: CgCompile.CompOk); links of all other lists are untouched, and it fails only at a limit |
| CgFuncState.FuncState.Infix | toppingAndroid/src/main/jni/lcode.c:710-734 | Numerals wait to be folded, other operands are made ready |
| CgFuncState.FuncState.Posfix | toppingAndroid/src/main/jni/lcode.c:737-750 | The exits of the first operand of and, or join those of the second |
| CgFuncState.FuncState.SubExpr | toppingAndroid/src/main/jni/lparser.c:828-853 | The state after compiling an expression in place is that of the specification; it fails only at a limit, and the code, constants and registers taken are bounded by the size and depth of the expression |
| CgFuncState.FuncState.LastJump | toppingAndroid/src/main/jni/lcode.c:185-196 | The walk along sBx ends at the last jump of the list |
| CgFuncState.FuncState.PatchJump | toppingAndroid/src/main/jni/lcode.c:150-160 | One jump of a list: a control with a value gets the register or becomes a TEST and the jump goes to the value target, any other goes to the default target; no other jump changes |
| CgFuncState.FuncState.CodeLabels | toppingAndroid/src/main/jni/lcode.c:337-340 | The two loads of false and true, each a label |
| CgFuncState.FuncState.PatchExits | toppingAndroid/src/main/jni/lcode.c:390-411 | Both lists of an expression are patched; the links of every other list are untouched |
| CgFuncState.FuncState.CodeUnary | toppingAndroid/src/main/jni/lcode.c:689-707 | In place: the new state is `CgGen.CodeUnary` of the old one (meaning: CgCompile.UnaryOk) |
| CgFuncState.FuncState.SimpleExp | toppingAndroid/src/main/jni/lparser.c:727-775 | A constant or a local needs no code |
| CgFuncState.FuncState.LogicExp | toppingAndroid/src/main/jni/lparser.c:828-853 | and, or in place: first operand, infix, second operand, posfix; the state is that of the specification |
| CgFuncState.FuncState.FreeInOrder | toppingAndroid/src/main/jni/lcode.c:673-686 | The registers of both operands of a comparison are freed, second operand first |
| CgFuncState.FuncState.FirstGuard | toppingAndroid/src/main/jni/lcode.c:710-721 | The first operand of and, or with luaK_infix, in place: the state is that of the specification, and its exits are a list that later code leaves alone |
| CgFuncState.FuncState.SecondExp | toppingAndroid/src/main/jni/lparser.c:828-853 | The second operand of a binary operator, in place, while the first one waits |
| CgFuncState.FuncState.PrefixExp | toppingAndroid/src/main/jni/lcode.c:689-707 | The operand of not, minus and length with luaK_prefix, in place: the state is that of the specification |
| CgSource.CompileTokens | toppingAndroid/src/main/jni/lparser.c:828-853 | Tokens to code: the tokens of every tree grouped by the levels of the manual, without concatenation, are read as that tree, and the code compiled from them leaves the value of the tree, said operator by operator; what is compiled is always such a tree, and one that is small enough is never refused |
| CgExpr.ShortCircuit | toppingAndroid/src/main/jni/lcode.c:710-750 | A run of the code of and, or is a run of the guard of the first operand and, only where that falls through, a run of the second |
| CgSource.TreeMeans | toppingAndroid/src/main/jni/lparser.c:828-853 | The expression compiled for a tree has the value of the tree, said operator by operator: `a > b` is the comparison `b < a`, `~=` the opposite of `==`, and, or by their first operand |
| CgOpcodes.WordMeans | toppingAndroid/src/main/jni/lopcodes.h:14-208 | The word of an instruction has, in bits 0 to 5, the place of its name in the list of opcodes, and its operands in bits 6 to 13 (A), 14 to 22 (C), 23 to 31 (B) or 14 to 31 (Bx, sBx) |
| PrsExpr.SubexprSound | toppingAndroid/src/main/jni/lparser.c:828-853 | What is read is a tree with exactly the tokens taken, grouped by the priority table (as the levels of the manual ask: PrsLevels.GroupedByLevels), and what follows does not belong to it |
| PrsExpr.SubexprReads | toppingAndroid/src/main/jni/lparser.c:828-853 | The tokens of every grouped tree are read as that tree, whatever follows it, unless it is nested deeper than the limit |
| PrsExpr.OneReading | toppingAndroid/src/main/jni/lparser.c:812-819 | No two grouped trees have the same tokens |
| PrsExpr.LexState.SimpleExp | toppingAndroid/src/main/jni/lparser.c:667-687 | Operands of one token and expressions in parentheses, in place |
| PrsExpr.LexState.ReadSubexpr | toppingAndroid/src/main/jni/lparser.c:828-853 | subexpr in place, with its loop, recursion and level count, gives the specified result and leaves the tokens after it |
| PrsLevels.Priorities | toppingAndroid/src/main/jni/lparser.c:810-822 | Two priorities compare as the levels of the manual ask: the second operator takes the operand exactly if it is of a tighter level, or of the same one and right associative (`..` and `^`); only `^` is tighter than a unary operator |
| PrsLevels.GroupedByLevels | toppingAndroid/src/main/jni/lparser.c:828-853 | To be grouped by the priorities is to be grouped by the levels of the manual: or, and, comparisons, `..`, `+ -`, `* / %`, unary, `^` |
| PrsLevels.ReadByLevels | toppingAndroid/src/main/jni/lparser.c:828-853 | Tokens are read as a tree exactly if they are its tokens, it is grouped by the levels of the manual, and it is not nested too deep; the priorities are not named |
| PrsLevels.TwoOperators | toppingAndroid/src/main/jni/lparser.c:828-853 | For any operands and any two of the 15 operators, `a op1 b op2 c` is read as `a op1 (b op2 c)` exactly if op2 is of a tighter level or both are `..` or both `^`, else as `(a op1 b) op2 c` |
| PrsLevels.UnaryFirst | toppingAndroid/src/main/jni/lparser.c:828-840 | A unary operator before any binary one: `-a ^ b` is `-(a ^ b)`, all others `(-a) op b` |
| PrsLevels.UnarySecond | toppingAndroid/src/main/jni/lparser.c:828-840 | A unary operator after any binary one: `a op (-b)`, for `^` too |
| TblNodes.TakeOverOk | toppingAndroid/src/main/jni/ltable.c:399-429 | Overwriting the key of a node whose value is nil keeps the chains: the header invariant holds and every key stays reachable from its main position |
| TblNodes.MoveOk | toppingAndroid/src/main/jni/ltable.c:399-429 | So does moving a colliding node that is not in its main position |
| TblNodes.InsertOk | toppingAndroid/src/main/jni/ltable.c:399-429 | So does inserting after a colliding node that is |
| TblNodes.StoredFind | toppingAndroid/src/main/jni/ltable.c:469-491 | The value of a key is that of its only node |
| TblTable.TakeOverHolds | toppingAndroid/src/main/jni/ltable.c:399-429 | Taking a node over changes no field of the table |
| TblTable.MoveHolds | toppingAndroid/src/main/jni/ltable.c:399-429 | Moving a node changes no field of the table |
| TblTable.InsertHolds | toppingAndroid/src/main/jni/ltable.c:399-429 | Inserting a node with a nil value changes no field of the table |
| TblTable.AssignHolds | toppingAndroid/src/main/jni/ltable.c:494-505 | Assigning to the node of a key changes that field and no other |
| TblTable.FreeNode | toppingAndroid/src/main/jni/ltable.c:382-388 | There is a free node if fewer keys are stored than there are nodes |
| TblSizes.Log2 | toppingAndroid/src/main/jni/lobject.c:54-69 | The whole part of the binary logarithm, for every argument |
| TblSizes.CeilLog2 | toppingAndroid/src/main/jni/ltable.c:189-219 | The least power of two that is not below the argument |
| TblSizes.ComputeSizes | toppingAndroid/src/main/jni/ltable.c:189-208 | The size is the largest power of two with more than half of its slots in use, and the count is of the keys that go there |
| TblCount.KeysSplit | toppingAndroid/src/main/jni/ltable.c:333-349 | The fields are those of the array part and those of the hash part, and no integer key is counted twice |
| TblCount.HashPartSize | toppingAndroid/src/main/jni/ltable.c:333-349 | What does not go to the array part is the rest of the keys |
| TblClass.Table.FindNode | toppingAndroid/src/main/jni/ltable.c:469-491 | Walking the chain of a key finds its node exactly if the key is stored |
| TblClass.Table.Get | toppingAndroid/src/main/jni/ltable.c:469-491 | luaH_get gives the value of the finite map the table stands for |
| TblClass.Table.GetFreePos | toppingAndroid/src/main/jni/ltable.c:382-388 | A free node, or every node is in use |
| TblClass.Table.FindPrevious | toppingAndroid/src/main/jni/ltable.c:399-429 | The node before a colliding one is found by walking its chain |
| TblClass.Table.InsertKey | toppingAndroid/src/main/jni/ltable.c:399-429 | newkey up to rehash: a slot for the key and no field changed, or the vector is full |
| TblClass.Table.Assign | toppingAndroid/src/main/jni/ltable.c:494-505 | Assigning to a slot changes that field and no other |
| TblClass.Table.CountInt | toppingAndroid/src/main/jni/ltable.c:211-219 | Counts an integer key in its slice, within the limit |
| TblClass.Table.NumUseArray | toppingAndroid/src/main/jni/ltable.c:222-244 | Counts the array slots in use, slice by slice |
| TblClass.Table.NumUseHash | toppingAndroid/src/main/jni/ltable.c:247-260 | Counts the integer keys and all keys of the hash part |
| TblClass.Table.SetNodeVector | toppingAndroid/src/main/jni/ltable.c:272-294 | A free node vector of at least the size; fails exactly beyond the limit |
| TblClass.Table.Reinsert | toppingAndroid/src/main/jni/ltable.c:297-324 | A re-insertion finds room and so never rehashes |
| TblClass.Table.Resize | toppingAndroid/src/main/jni/ltable.c:297-324 | Resizing keeps every field, when the new sizes have room for them |
| TblClass.Table.Rehash | toppingAndroid/src/main/jni/ltable.c:333-349 | Afterwards the array part has the best size, no field is changed, and there is room for the pending key; it fails only for a table with the maximal number of fields |
| TblClass.Table.NewKey | toppingAndroid/src/main/jni/ltable.c:399-429 | A slot for a key, after at most one rehash |
| TblClass.Table.SetSlot | toppingAndroid/src/main/jni/ltable.c:494-505 | luaH_set: the recursion of set, newkey, rehash and resize terminates; the slot belongs to the key and no field is changed; a nil key is refused |
| TblClass.Table.Set | toppingAndroid/src/main/jni/ltable.c:494-505 | t[key] = v updates the finite map at this key and nowhere else |
| TblNext.FindIndex | toppingAndroid/src/main/jni/ltable.c:137-159 | The position of a key; fails exactly for a key that has none |
| TblNext.Next | toppingAndroid/src/main/jni/ltable.c:162-179 | luaH_next gives the first entry after the position of the key whose value is not nil, or the end |
| TblNext.SeenOnce | toppingAndroid/src/main/jni/ltable.c:162-179 | No entry is seen twice in a traversal during which fields are cleared |
| TblNext.SeenBefore | toppingAndroid/src/main/jni/ltable.c:162-179 | Every position passed was seen, or its field was gone when the scan came to it |
| TblNext.SeenAll | toppingAndroid/src/main/jni/ltable.c:162-179 | Every field that is left at the end was seen |
| TblNext.Traverse | toppingAndroid/src/main/jni/ltable.c:162-179 | A whole traversal, with any fields cleared between its steps, ends, and sees each field still there once, with its value |
| TblBorder.UnboundSearch | toppingAndroid/src/main/jni/ltable.c:532-553 | A border is found, also when doubling overflows, and every index fits an int |
| TblBorder.GetN | toppingAndroid/src/main/jni/ltable.c:560-576 | luaH_getn always returns a border |
| TblBorder.FieldsBound | toppingAndroid/src/main/jni/ltable.c:532-553 | A table has fewer fields than there are ints, so the linear search ends in range |
| TblRef.BorderIsNew | toppingAndroid/src/main/jni/lauxlib.c:481-501 | With no free reference, one past a border is not in use |
| TblRef.TakeFree | toppingAndroid/src/main/jni/lauxlib.c:481-501 | Taking the first free reference keeps the list, although its last cell holds nil |
| TblRef.GiveBack | toppingAndroid/src/main/jni/lauxlib.c:504-512 | Releasing a reference puts it in front of the list |
| TblRef.Ref | toppingAndroid/src/main/jni/lauxlib.c:481-501 | The reference returned was not in use, and all live ones keep their values |
| TblRef.Unref | toppingAndroid/src/main/jni/lauxlib.c:504-512 | Only the reference released is no longer in use |
| TblClass.Table.GetSlot | toppingAndroid/src/main/jni/ltable.c:469-491 | The slot found is that of the key; if there is none the key is neither in the array part nor stored in a node |
| TblClass.Table.CountSlots | toppingAndroid/src/main/jni/ltable.c:222-244 | The slots of one slice that are not nil |
| TblClass.Table.CountKeys | toppingAndroid/src/main/jni/ltable.c:333-349 | The counts by slice, of integer keys and of all keys, are those of the fields together with the pending key |
| TblClass.Table.ReinsertSlice | toppingAndroid/src/main/jni/ltable.c:297-324 | The slots cut off are re-inserted into the hash part, each with its value |
| TblClass.Table.ReinsertNodes | toppingAndroid/src/main/jni/ltable.c:297-324 | The old nodes are re-inserted, and the table stands for the map it stood for before |
| TblClass.Table.PendingRoom | toppingAndroid/src/main/jni/ltable.c:333-349 | After the resize there is room for the pending key: an array slot or a free node |
| TblSizes.HeaderSize | toppingAndroid/src/main/jni/ltable.c:10-12 | The size chosen is the one the header describes, at least half full, exactly if no larger power of two within the limit is just half full |
| TblSizes.HeaderDiffers | toppingAndroid/src/main/jni/ltable.c:189-208 | An input where they differ: one key, 1 |
| TblNext.ClearOne | toppingAndroid/src/main/jni/ltable.c:162-179 | Clearing a field during a traversal removes it from the map and moves no entry |
| PatReading.FirstChosen | toppingAndroid/src/main/jni/lstrlib.c:365-440 | The match that is found is that of the best reading of the pattern, by the first item on which readings differ (more is better, fewer for `-`), and there is none only if every reading fails |
| PatReading.DownChosen | toppingAndroid/src/main/jni/lstrlib.c:301-313 | max_expand prefers more repetitions |
| PatReading.UpChosen | toppingAndroid/src/main/jni/lstrlib.c:316-326 | min_expand prefers fewer |
| PatBalance.BalanceIs | toppingAndroid/src/main/jni/lstrlib.c:281-298 | `%bxy` takes the shortest text from x on in which as many y as x occur |
| PatBalance.SameEnds | toppingAndroid/src/main/jni/lstrlib.c:281-298 | `%bxx` takes the text to the next x |
| PatMatch.MatchState.ScanClass | toppingAndroid/src/main/jni/lstrlib.c:202-223 | classend: the end of a class, or the error of a malformed one |
| PatMatch.MatchState.BracketClass | toppingAndroid/src/main/jni/lstrlib.c:245-265 | Membership in the set, with escapes, ranges and complement |
| PatMatch.MatchState.SingleMatch | toppingAndroid/src/main/jni/lstrlib.c:268-275 | Membership in the class |
| PatMatch.MatchState.MatchBalance | toppingAndroid/src/main/jni/lstrlib.c:281-298 | The end of the balanced text |
| PatMatch.MatchState.CaptureToClose | toppingAndroid/src/main/jni/lstrlib.c:194-199 | The last capture that is open |
| PatMatch.MatchState.MatchCapture | toppingAndroid/src/main/jni/lstrlib.c:354-362 | A back reference goes on behind a repetition of the text of its capture, character by character, and fails where there is none; a position capture never matches |
| PatMatch.MatchState.StartCapture | toppingAndroid/src/main/jni/lstrlib.c:329-340 | Opens a capture and, without a match, undoes it |
| PatMatch.MatchState.EndCapture | toppingAndroid/src/main/jni/lstrlib.c:343-351 | Closes a capture and, without a match, opens it again |
| PatMatch.MatchState.MaxExpand | toppingAndroid/src/main/jni/lstrlib.c:301-313 | The first match with the most repetitions; captures as before if there is none |
| PatMatch.MatchState.MinExpand | toppingAndroid/src/main/jni/lstrlib.c:316-326 | The first match with the fewest repetitions; captures as before if there is none |
| PatMatch.MatchState.Match | toppingAndroid/src/main/jni/lstrlib.c:365-440 | match terminates and gives the first match with its captures, the error that is met, or NULL with the level and all captures below it as before |
| PatGsub.FirstCapsOk | toppingAndroid/src/main/jni/lstrlib.c:329-351 | Captures lie inside the subject, before the end of the match |
| PatGsub.Find | toppingAndroid/src/main/jni/lstrlib.c:495-535 | The leftmost match from the start position on, at that position only if anchored |
| PatGsub.AddS | toppingAndroid/src/main/jni/lstrlib.c:590-609 | The replacement text |
| PatGsub.Gsub | toppingAndroid/src/main/jni/lstrlib.c:644-680 | str_gsub gives the text and count of the pieces the subject is cut into |
| PatGsub.PiecesScanned | toppingAndroid/src/main/jni/lstrlib.c:644-680 | Each match is taken at the first place where there is one, and a character is kept only if nothing matches there |
| PatGsub.PiecesTile | toppingAndroid/src/main/jni/lstrlib.c:644-680 | The pieces are the subject, without gap or overlap |
| PatGsub.GsubIdentity | toppingAndroid/src/main/jni/lstrlib.c:644-680 | Replacing by `%0` gives the subject back, for every pattern that raises no error, and fails otherwise |
| PatReading.SpanIs | toppingAndroid/src/main/jni/lstrlib.c:301-313 | The span of a class is the greatest number of characters in a row that are in it |
| PatMatch.MatchState.MatchDefault | toppingAndroid/src/main/jni/lstrlib.c:414-437 | A single item with its `?`, `*`, `+`, `-` or none gives the first match from there |
| PatMatch.MatchState.MatchFrontier | toppingAndroid/src/main/jni/lstrlib.c:384-395 | `%f` compares the characters before and at the position, with a zero byte beyond the ends |
| PatReading.TextRepeats | toppingAndroid/src/main/jni/lstrlib.c:354-362 | The text of a capture stands at a place exactly if it fits there and every character is the same |
| PatLaws.BackReference | toppingAndroid/src/main/jni/lstrlib.c:354-362 | After a closed capture the match goes on behind a repetition of its text, character by character, and fails where there is none; a position capture is repeated nowhere; an open or missing capture is an error |
| PatLaws.OpenCapture | toppingAndroid/src/main/jni/lstrlib.c:329-340 | `(` opens a capture here and `()` captures the position; there are at most 32 |
| PatLaws.CloseCapture | toppingAndroid/src/main/jni/lstrlib.c:343-351 | `)` ends the last capture that is open, here |
| PatLaws.CloseNothing | toppingAndroid/src/main/jni/lstrlib.c:194-199 | `)` without an open capture is an error |
| PatLaws.FrontierMeans | toppingAndroid/src/main/jni/lstrlib.c:384-395 | `%f[set]` matches the empty text between a character outside the set and one in it, with zero bytes at the ends |
| PatLaws.ClassMeans | toppingAndroid/src/main/jni/lstrlib.c:226-242 | For every character and class letter: a small letter stands for the listed characters of the C locale, its capital for all others, any other character for itself |
| PatWritten.SetEndAt | toppingAndroid/src/main/jni/lstrlib.c:202-221 | The end of a written set is found, whatever it contains |
| PatWritten.ElemsAt | toppingAndroid/src/main/jni/lstrlib.c:245-265 | The elements of a written set are read back: characters, escapes and ranges |
| PatWritten.ItemBack | toppingAndroid/src/main/jni/lstrlib.c:365-437 | An item is read back from its text, wherever it stands: captures, `%b`, `%f`, `%1` to `%9`, `$`, and single characters and sets with `?`, `*`, `+`, `-` |
| PatWritten.ItemsWritten | toppingAndroid/src/main/jni/lstrlib.c:365-437 | The pattern in which a list of items is written is scanned as that list |
| PatWritten.BrokenPattern | toppingAndroid/src/main/jni/lstrlib.c:202-221 | After well-formed items, a `%` at the end, a `%b` without its two characters, a `%f` without a set and a set without its end are scanned as the errors they are |
| PatWritten.WrittenMatches | toppingAndroid/src/main/jni/lstrlib.c:365-437 | So it matches what the items match |
| PatLaws.ReplacementMeans | toppingAndroid/src/main/jni/lstrlib.c:590-609 | A replacement string gives the texts its parts stand for, one after another, or the first error: `%0` the match, `%1` to `%9` the text of the capture character by character or its position in decimal, `%1` without captures the match, `%` and another character that character |
| PatLaws.DecimalIs | toppingAndroid/src/main/jni/lstrlib.c:466-482 | A position is written in decimal digits without leading zeros |
| PatLaws.FirstIsWhole | toppingAndroid/src/main/jni/lstrlib.c:466-482 | Without captures `%1` is `%0`, the whole match |
| PatLaws.AnchorMeans | toppingAndroid/src/main/jni/lstrlib.c:644-650 | `^` in front anchors the pattern behind it, and no other pattern is anchored |
| PatLaws.AnchoredOnce | toppingAndroid/src/main/jni/lstrlib.c:644-680 | An anchored pattern is tried once, at the start: its match is replaced and the rest kept, or nothing is changed |
| PatLaws.LimitCuts | toppingAndroid/src/main/jni/lstrlib.c:644-680 | A limit on the replacements is kept, and makes no difference or cuts them short after exactly so many |
| DmpProto.Dec32Enc32 | toppingAndroid/src/main/jni/ldump.c:45-48 | A word is read as it was written |
| DmpProto.DecIntEncInt | toppingAndroid/src/main/jni/ldump.c:45-48 | An int is read as it was written, negative ones too |
| DmpParse.NameBack | toppingAndroid/src/main/jni/ldump.c:61-74 | A string is loaded as it was dumped; NULL and the empty string are told apart |
| DmpParse.ConstantsBack | toppingAndroid/src/main/jni/ldump.c:80-109 | The constants are loaded as they were dumped |
| DmpParse.DebugBack | toppingAndroid/src/main/jni/ldump.c:111-127 | The debug information is loaded as it was dumped |
| DmpParse.FunctionBack | toppingAndroid/src/main/jni/ldump.c:129-141 | A function and those inside it are loaded as they were dumped, with sources that were left out taken from the parent; exactly those nested too deep are refused |
| DmpParse.UndumpDump | toppingAndroid/src/main/jni/lundump.c:195-209 | Loading a dumped chunk gives the prototype back, for every well-formed one within the nesting limit, and the bytes after it are left |
| DmpParse.RestoredSame | toppingAndroid/src/main/jni/ldump.c:129-141 | What comes back equals what was dumped exactly if every function has a source |
| DmpParse.StripChanges | toppingAndroid/src/main/jni/ldump.c:111-141 | Stripping changes sources and debug information and nothing else |
| DmpZio.Zio.Fill | toppingAndroid/src/main/jni/lzio.c:21-32 | The next block, its first byte taken |
| DmpZio.Zio.GetC | toppingAndroid/src/main/jni/lzio.h:22-22 | The next byte of the stream, however it is cut into blocks |
| DmpZio.Zio.Lookahead | toppingAndroid/src/main/jni/lzio.c:35-45 | The next byte, which stays in the stream |
| DmpZio.Zio.Read | toppingAndroid/src/main/jni/lzio.c:58-71 | The next bytes across blocks, and how many are missing |
| DmpWrite.DumpState.DumpBlock | toppingAndroid/src/main/jni/ldump.c:29-37 | Nothing is written after an error |
| DmpWrite.DumpState.DumpString | toppingAndroid/src/main/jni/ldump.c:61-74 | Writes the bytes of a string |
| DmpWrite.DumpState.DumpConstants | toppingAndroid/src/main/jni/ldump.c:80-109 | Writes the bytes of the constants |
| DmpWrite.DumpState.DumpDebug | toppingAndroid/src/main/jni/ldump.c:111-127 | Writes the bytes of the debug information |
| DmpWrite.DumpState.DumpFunction | toppingAndroid/src/main/jni/ldump.c:129-141 | Writes the bytes of a function |
| DmpWrite.Dump | toppingAndroid/src/main/jni/ldump.c:153-164 | With status 0 the writer has the whole chunk, with another the first part of it |
| DmpUndump.LoadState.LoadBlock | toppingAndroid/src/main/jni/lundump.c:48-52 | Reads bytes, or fails at the end of the stream |
| DmpUndump.LoadState.LoadInt | toppingAndroid/src/main/jni/lundump.c:61-67 | Reads an int; a negative one is refused |
| DmpUndump.LoadState.LoadString | toppingAndroid/src/main/jni/lundump.c:76-88 | Reads a string |
| DmpUndump.LoadState.LoadConstants | toppingAndroid/src/main/jni/lundump.c:100-135 | Reads the constants; an unknown type is refused |
| DmpUndump.LoadState.LoadDebug | toppingAndroid/src/main/jni/lundump.c:137-159 | Reads the debug information |
| DmpUndump.LoadState.LoadFunction | toppingAndroid/src/main/jni/lundump.c:161-181 | Reads a function, counting nested calls |
| DmpUndump.LoadState.Undump | toppingAndroid/src/main/jni/lundump.c:195-209 | Reads the header and the main function |
| DmpUndump.LoadDumped | toppingAndroid/src/main/jni/lundump.c:195-209 | A dumped chunk cut into non-empty blocks in any way is loaded back |
| DmpWrite.DumpState.DumpProtos | toppingAndroid/src/main/jni/ldump.c:80-109 | Writes the bytes of the nested functions, each with its parent's source |
| DmpUndump.LoadState.LoadCode | toppingAndroid/src/main/jni/lundump.c:90-96 | Reads the instructions |
| DmpUndump.LoadState.LoadProtos | toppingAndroid/src/main/jni/lundump.c:100-135 | Reads the nested functions; the level count is restored |
| DmpLayout.HeaderMeans | toppingAndroid/src/main/jni/lundump.c:214-227 | What the twelve bytes of the header say: ESC "Lua", version 5.1, format 0, byte 6 the first byte in memory of the number 1, bytes 7 to 10 the sizes in which ints, sizes, instructions and numbers are encoded, numbers not integral |
| DmpLayout.WordIs | toppingAndroid/src/main/jni/ldump.c:45-48 | A word is written least significant byte first |
| DmpLayout.NameIs | toppingAndroid/src/main/jni/ldump.c:61-74 | A string is written as its size, which counts the zero byte at its end, its bytes, and the zero byte; no string as size 0 |
| DmpLayout.ConstantIs | toppingAndroid/src/main/jni/ldump.c:80-105 | A constant is written as its type (nil 0, boolean 1, number 3, string 4) and its value |
| DmpLayout.DebugIs | toppingAndroid/src/main/jni/ldump.c:111-128 | Lines, local variables and names of upvalues in this order, each after its length |
| DmpLayout.FunctionIs | toppingAndroid/src/main/jni/ldump.c:129-141 | A function is written as its source, lines, four bytes, instructions, constants, inner functions and debug information, each at its place |
| DmpLayout.DumpExact | toppingAndroid/src/main/jni/ldump.c:143-164 | Bytes are what luaU_dump writes for a prototype exactly if they are laid out as its chunk, said place by place without the writer |
| DmpLayout.UndumpHeader | toppingAndroid/src/main/jni/lundump.c:183-209 | A chunk with other first twelve bytes is refused for its header, a shorter one for its end, and after the right ones a function is read |
| LexString.AddQuoted | toppingAndroid/src/main/jni/lstrlib.c:696-723 | addquoted writes the quoted form |
| LexString.ScanByte | toppingAndroid/src/main/jni/llex.c:277-330 | A quoted byte is read as that byte whatever follows, also a zero before digits |
| LexString.ScanQuoted | toppingAndroid/src/main/jni/llex.c:277-330 | Reading the quoted form gives every byte back and counts the lines |
| LexString.LexState.IncLineNumber | toppingAndroid/src/main/jni/llex.c:129-137 | A line break is one byte or two different ones, and counts once |
| LexString.LexState.ReadEscape | toppingAndroid/src/main/jni/llex.c:277-330 | One escape sequence |
| LexString.LexState.ReadString | toppingAndroid/src/main/jni/llex.c:277-330 | read_string in place gives the specified text, rest and line, or error |
| LexString.ReadBack | toppingAndroid/src/main/jni/llex.c:277-330 | What `%q` writes is read back byte for byte, however the reader cuts it |
| LexString.LexState.ReadDigits | toppingAndroid/src/main/jni/llex.c:303-313 | Up to three digits, with their decimal value |
| LexEscapes.EscapeIs | toppingAndroid/src/main/jni/llex.c:290-300 | After a backslash a, b, f, n, r, t, v stand for the codes 7, 8, 12, 10, 13, 9, 11, and no other character has a code |
| LexEscapes.PieceScans | toppingAndroid/src/main/jni/llex.c:277-330 | One piece of a literal is read as the byte it stands for: a byte as it is, a letter, one to three digits with their decimal value, any other byte, a line break of one or two bytes |
| LexEscapes.TooLarge | toppingAndroid/src/main/jni/llex.c:303-314 | Three digits of a number over 255 are an error |
| LexEscapes.Unfinished | toppingAndroid/src/main/jni/llex.c:277-289 | A string that reaches the end of the input or of a line before its delimiter is an error |
| LexEscapes.LiteralScans | toppingAndroid/src/main/jni/llex.c:277-330 | A literal, in whichever way its bytes are written, is read as the text it stands for, with one line more for each line break |
| LexEscapes.QuotedPieces | toppingAndroid/src/main/jni/lstrlib.c:696-723 | `%q` escapes quotes, backslashes, line feeds, carriage returns (`\r`) and zero bytes (`\000`), and writes every other byte as it is |
| MimeQp.DrainOk | toppingAndroid/src/main/jni/socket/mime.c:517-555 | Writing what is certain loses nothing: written text and waiting bytes are what came in |
| MimeQp.EncodedOk | toppingAndroid/src/main/jni/socket/mime.c:517-569 | The tokens written for a text stand for that text |
| MimeQp.EncodeFixed | toppingAndroid/src/main/jni/socket/mime.c:579-615 | A remainder fed in again is the same remainder, with no output |
| MimeQp.TokensDecode | toppingAndroid/src/main/jni/socket/mime.c:621-646 | Encoded text decodes to what its tokens stand for, with nothing left |
| MimeQp.DecodeEncode | toppingAndroid/src/main/jni/socket/mime.c:621-646 | Decoding undoes encoding, for every byte string, with CRLF as marker |
| MimeQpRun.QpEncode | toppingAndroid/src/main/jni/socket/mime.c:517-555 | qpencode in place writes and keeps what the specification says |
| MimeQpRun.QpPad | toppingAndroid/src/main/jni/socket/mime.c:560-569 | qppad writes the last bytes and a soft line break |
| MimeQpRun.GlobalQp | toppingAndroid/src/main/jni/socket/mime.c:579-615 | The filter call with its remainder |
| MimeQpRun.QpDecode | toppingAndroid/src/main/jni/socket/mime.c:621-646 | qpdecode in place |
| MimeQpRun.GlobalUnqp | toppingAndroid/src/main/jni/socket/mime.c:655-689 | The filter call with its remainder |
| MimeQpLaws.QpStreamWhole | toppingAndroid/src/main/jni/socket/mime.c:579-615 | However a text is cut into calls, the encoding of the whole is written |
| MimeQpLaws.UnqpStreamWhole | toppingAndroid/src/main/jni/socket/mime.c:655-689 | However the encoded text is cut into calls, the decoding of the whole is given |
| MimeQpLaws.StreamsRoundTrip | toppingAndroid/src/main/jni/socket/mime.c:579-689 | Encoding in chunks, cutting the result anew and decoding gives the text back |
| MimeQpLaws.UnqpOnce | toppingAndroid/src/main/jni/socket/mime.c:655-689 | Decoding in one call that is also the last gives the text back exactly if it does not start with a zero byte |
| MimeQpLaws.UnqpOnceLoses | toppingAndroid/src/main/jni/socket/mime.c:672-678 | The text of one zero byte is lost that way |
| MimeQpLaws.EncodedClean | toppingAndroid/src/main/jni/socket/mime.c:517-569 | A space or tab before a line break is written as `=XX` |
| MimeQpLaws.FlatPrintable | toppingAndroid/src/main/jni/socket/mime.c:517-569 | Encoded text has only CR, LF, tab and printable characters |
| MimeQpWrap.GlobalQpwrp | toppingAndroid/src/main/jni/socket/mime.c:700-747 | The wrapping loop |
| MimeQpWrap.WrapFits | toppingAndroid/src/main/jni/socket/mime.c:700-747 | With length at least 2 no line is longer than length, for any input |
| MimeQpWrap.WrapTokenBytes | toppingAndroid/src/main/jni/socket/mime.c:700-747 | An `=XX` is never split when the length is at least 4; other tokens never are |
| MimeQpWrap.WrapKeeps | toppingAndroid/src/main/jni/socket/mime.c:700-747 | Wrapped text stands for the same text |
| MimeQpWrap.WrapRoundTrip | toppingAndroid/src/main/jni/socket/mime.c:700-747 | Encoding, wrapping and decoding gives the text back, and every line fits |
| MimeQpWrap.WrapTooNarrow | toppingAndroid/src/main/jni/socket/mime.c:700-747 | An input where the text is lost: one zero byte in lines of 3 |
| MimeB64.AtomBack | toppingAndroid/src/main/jni/socket/mime.c:316-339 | Four digits decode to the three bytes they encode |
| MimeB64.PadBack | toppingAndroid/src/main/jni/socket/mime.c:285-309 | Padded atoms decode to the one or two bytes they encode |
| MimeB64.DecodeEncode | toppingAndroid/src/main/jni/socket/mime.c:316-339 | Decoding undoes encoding, for every byte string |
| MimeB64.DecodeIgnores | toppingAndroid/src/main/jni/socket/mime.c:316-339 | Bytes outside the alphabet make no difference |
| MimeB64.DecodeBroken | toppingAndroid/src/main/jni/socket/mime.c:316-339 | The encoding, broken into lines in any way, decodes to the text |
| MimeB64.EncodeLength | toppingAndroid/src/main/jni/socket/mime.c:260-278 | Four bytes are written for each three, and the rest waits |
| MimeB64.EncodeFixed | toppingAndroid/src/main/jni/socket/mime.c:350-388 | A remainder fed in again is the same remainder, with no output |
| MimeB64.B64StreamWhole | toppingAndroid/src/main/jni/socket/mime.c:350-388 | However a text is cut into calls, the encoding of the whole is written |
| MimeB64.Unb64StreamWhole | toppingAndroid/src/main/jni/socket/mime.c:396-433 | However the encoded text is cut into calls, the decoding of the whole is given |
| MimeB64.StreamsRoundTrip | toppingAndroid/src/main/jni/socket/mime.c:350-433 | Encoding in chunks, cutting and breaking the result anew and decoding gives the text back |
| MimeB64.B64Encode | toppingAndroid/src/main/jni/socket/mime.c:260-278 | b64encode in place |
| MimeB64.B64Pad | toppingAndroid/src/main/jni/socket/mime.c:285-309 | b64pad |
| MimeB64.B64Decode | toppingAndroid/src/main/jni/socket/mime.c:316-339 | b64decode in place |
| MimeB64.GlobalB64 | toppingAndroid/src/main/jni/socket/mime.c:350-388 | The filter call with its remainder |
| MimeB64.GlobalUnb64 | toppingAndroid/src/main/jni/socket/mime.c:396-433 | The filter call with its remainder |
| MimeB64.B64Feed | toppingAndroid/src/main/jni/socket/mime.c:350-388 | The loop over the input: what is written and what waits are those of the whole input |
| MimeB64.Unb64Feed | toppingAndroid/src/main/jni/socket/mime.c:396-433 | The loop over the input: what is written and what waits are those of the whole input |
| MimeB64.EncodeOk | toppingAndroid/src/main/jni/socket/mime.c:260-278 | Nothing is lost: decoding what was written and the padded rest gives what came in |
| MimeQpLaws.FlatStart | toppingAndroid/src/main/jni/socket/mime.c:579-615 | Encoded text starts with no zero byte, for every marker without one, so the last call of the encoder never takes an output for empty |
| MimeQpWrap.WrapExact | toppingAndroid/src/main/jni/socket/mime.c:700-747 | Encoded text, wrapped, decodes to the text exactly if the length is at least 4 or every `=XX` is in the first line, with room for it and a mark in what is left of that line; for every text, length and `left` |
| MimeQpWrap.WrapExactWhole | toppingAndroid/src/main/jni/socket/mime.c:700-747 | With a first line no longer than the others: exactly if the length is at least 4 or nothing is written as `=XX` |
| MimeQpWrap.WrapNarrow | toppingAndroid/src/main/jni/socket/mime.c:700-747 | With a length below 4 every `=XX` that has no room in the first line is broken and the text decoded is longer; if there is none the text is kept |
| MimeQpWrap.WrapTooLong | toppingAndroid/src/main/jni/socket/mime.c:700-747 | With length 1 a line is longer than that |
| MimeQpRun.QpFeed | toppingAndroid/src/main/jni/socket/mime.c:579-615 | The loop over the input, with at most two bytes waiting |
| MimeQpRun.UnqpFeed | toppingAndroid/src/main/jni/socket/mime.c:655-689 | The loop over the input, with at most two bytes waiting |
| MimeB64Table.BasePrints | toppingAndroid/src/main/jni/socket/mime.c:137-138 | The digit for n is character n of the printed alphabet, for all 64 |
| MimeB64Table.EncodedPrints | toppingAndroid/src/main/jni/socket/mime.c:260-307 | For every text, what is written is its encoding by the printed table: character j is the one for the j-th group of six bits, most significant first, as long as there are bits, and padding then up to four for each three bytes begun |
| MimeB64Table.DecodeGroup | toppingAndroid/src/main/jni/socket/mime.c:316-337 | Four characters give the bytes of their places in the alphabet, most significant bits first; padding in place 2 or 3 leaves one or two bytes |
| MimeB64Table.KeptIs | toppingAndroid/src/main/jni/socket/mime.c:316-320 | Exactly the characters of the printed alphabet and `=` are taken, all others are passed over |
| MimeB64Table.DecodedIs | toppingAndroid/src/main/jni/socket/mime.c:316-337 | Every text is decoded so, four characters at a time, and fewer than four wait |
| MimeB64Table.FiltersPrint | toppingAndroid/src/main/jni/socket/mime.c:350-433 | The same for the filters, fed in chunks |
| MimeQpDirect.ClassIs | toppingAndroid/src/main/jni/socket/mime.c:60-104 | The classes of the table: printable but `=`, space and tab, CR, and all others |
| MimeQpDirect.QuotedIs | toppingAndroid/src/main/jni/socket/mime.c:506-511 | A quoted byte is `=` and two digits of "0123456789ABCDEF" |
| MimeQpDirect.UnbaseIs | toppingAndroid/src/main/jni/socket/mime.c:108-131 | Capitals and small letters are read as hexadecimal digits, and nothing else is one |
| MimeQpDirect.EncodedDirect | toppingAndroid/src/main/jni/socket/mime.c:517-570 | For every text: CR LF is a line break; a printable byte, and a space or tab with two bytes behind it that are no line break, stand for themselves; every other byte is quoted; a soft line break follows exactly if the text ends in CR, or has a space or tab as one of its last two bytes |
| MimeQpDirect.FilterDirect | toppingAndroid/src/main/jni/socket/mime.c:579-615 | The same for the filter, fed in chunks |
| SortQuick.OrderEnds | toppingAndroid/src/main/jni/ltablib.c:196-203 | The ends of the range are in order, and the range is permuted |
| SortQuick.OrderMiddle | toppingAndroid/src/main/jni/ltablib.c:204-217 | The middle element is in order with the ends |
| SortQuick.ScanUp | toppingAndroid/src/main/jni/ltablib.c:225-229 | The scan stops inside the range at an element that is not below the pivot; the error for an invalid order function is never raised |
| SortQuick.ScanDown | toppingAndroid/src/main/jni/ltablib.c:230-234 | The scan stops inside the range at an element that is not above the pivot; the error is never raised |
| SortQuick.Partition | toppingAndroid/src/main/jni/ltablib.c:218-244 | The pivot is in its place, nothing before it is above it and nothing after it below it |
| SortQuick.AuxSort | toppingAndroid/src/main/jni/ltablib.c:193-254 | For every strict weak order the range is sorted and permuted, nothing outside it changes, and calls are nested no deeper than the binary logarithm of its size |
| SortQuick.Sort | toppingAndroid/src/main/jni/ltablib.c:256-264 | The first n elements are sorted and permuted, all others unchanged |
| SortQuick.Scan | toppingAndroid/src/main/jni/ltablib.c:223-240 | The two scans and the swaps: at the end all before the meeting point are at most the pivot and all from it on are at least the pivot |

## Left out

Collector:

- Finalizers (`luaC_separateudata`, `GCTM`, `tmudata`): userdata have no `__gc`; their order would be a model of its own.
- Dead-key bookkeeping: an entry whose value is nil refers to nothing, as if its key were already marked dead; the key object itself is not used again.
- Pacing (`GCthreshold`, `estimate`, `gcdept`) and `checkstacksizes`: they decide when steps run and how much memory a stack takes, not what is kept. Every order of steps is covered.
- Allocation failure, `lua_newstate` beyond the state it leaves, `luaC_freeall`.
- The `__mode` field of a metatable: a table has a `mode`, which a store may change; whether `mode` agrees with the metatable is not modelled.
- `lmod` is the remainder, which is what its mask gives for the powers of two that the sizes of the string table always are.
- Userdata are linked after the main thread in the C code, for the finalizers; here at the same place, with nothing said about finalizers.
- GcFull.FullGCExact: with weak tables, which may keep strings and lose entries, not an exact set; what is kept then is GcWeak.FullGCKeepsHeld.

Code generator:

- Globals, upvalues, indexing, calls, constructors, varargs, concatenation, statements and line information; the expressions are nil, booleans, numbers, strings, locals, parentheses, and, or, not, comparisons, arithmetic, minus and length.
- Numbers are opaque, with the same operations for folding and for running; -0 is not among them, since `addk` merges it with 0, and numerals are not NaN.
- Metamethods of operators are functions of the operands without side effects, or errors.
- CgFuncState.FuncState.SubExpr: walks the syntax tree that `subexpr` builds implicitly; that the priority table groups the tokens into that tree, and the limit on nesting, are in PrsExpr and PrsLevels.
- CgFuncState.FuncState.LuaNil: for one register, the only case expressions use.
- CgVm.CompileExpression: the bounds on size and depth below which compilation is never refused are sufficient and not tight.
- The effect of a refused compilation on the generator: only the limit that was met is stated (`AtLimit`).

Tables:

- Keys are integers or of another kind with an uninterpreted hash; floating-point keys other than integers are of the other kind, and NaN is not a key.
- `luaH_new` with sizes, `luaH_resizearray`, and the metamethod flags of a table.
- After the error "table overflow" nothing is promised about the table.
- TblRef.Unref: a reference is released once, and the table has no integer keys other than references.

Patterns:

- Replacement by a function or a table, `gmatch`, plain search (`lmemfind`), and numbers as replacement other than a position capture in decimal.
- PatWritten.ItemsWritten: for patterns that escape magic characters and, in a set, brackets, carets and minus signs; of others only the errors of PatWritten.BrokenPattern are said apart from the scanner.
- Characters are bytes, and the classes are those of the C locale.

Chunks:

- `luaG_checkcode` is a parameter of loading, which is to accept the prototypes that are dumped.
- The sizes are those of one machine (int, size_t and instructions 4 bytes, numbers 8, little endian), as the header records; numbers are 8 opaque bytes.
- Memory errors for huge counts in a damaged chunk.
- What `zgetc` does when called again after the end of the stream; readers give no empty block except at the end.

Strings, filters and sorting:

- Of the lexer only `read_string` and `inclinenumber`; the limit on the size of a token is left out.
- Of mime.c the filters `wrp`, `eol` and `dot`, which need no lookahead.
- MimeQpWrap.WrapRoundTrip: for a length of at least 4; what happens below it is MimeQpWrap.WrapExact.
- SortQuick.AuxSort: for comparators that are strict weak orders and change nothing; the table is an array, read and written without metamethods.
- SortQuick.Sort: as SortQuick.AuxSort.

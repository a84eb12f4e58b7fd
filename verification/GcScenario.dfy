/**
  A run from the state that is opened first: the program makes a closure over a local variable
  and stores the closure in that variable, drops a table, and lets the collector go through a
  whole cycle.
 */
module GcScenario {
  import opened GcHeap
  import opened GcMark
  import opened GcCycle
  import opened GcAtomic
  import opened GcInv
  import opened GcMutator
  import opened GcAlloc
  import opened GcUpval
  import opened GcFindUpval
  import opened GcStrings
  import opened GcSweep
  import opened GcSweepList
  import opened GcSteps
  import opened GcFull
  import opened GcRuns
  import opened GcProgram

  const MAIN: Ref := 0
  const GLOBALS: Ref := 1
  const REGISTRY: Ref := 2
  const PROTO: Ref := 3
  const CLOSURE: Ref := 4
  const UPVALUE: Ref := 5
  const GARBAGE: Ref := 6

  const EMPTY := Table(Nil, STRONG, [], [])
  const CODE := Proto(Nil, [], [], [], [])

  /** The main thread, with its open upvalues. */
  function Main(stack: seq<Value>, open: seq<Ref>): Body {
    Thread(Obj(GLOBALS), stack, open)
  }

  function Function(up: Value): Body {
    LClosure(Obj(GLOBALS), Obj(PROTO), [up])
  }

  const AT0: Heap := map[MAIN := Main([], []), GLOBALS := EMPTY, REGISTRY := EMPTY]
  const AT1: Heap := AT0[MAIN := Main([Nil, Nil], [])]
  const AT2: Heap := AT1[PROTO := CODE]
  const AT3: Heap := AT2[CLOSURE := Function(Nil)]
  const AT4: Heap := AT3[MAIN := Main([Nil, Obj(CLOSURE)], [])]
  const AT5: Heap := AT4[UPVALUE := UpVal(Open(MAIN, 0))][MAIN := Main([Nil, Obj(CLOSURE)], [UPVALUE])]
  const AT6: Heap := AT5[CLOSURE := Function(Obj(UPVALUE))]
  const AT7: Heap := AT6[MAIN := Main([Obj(CLOSURE), Obj(CLOSURE)], [UPVALUE])]
  const AT8: Heap := AT7[GARBAGE := EMPTY]

  /** The collector rests, the main thread runs, and `objs` is the heap. */
  ghost predicate Resting(s: State, objs: Heap) {
    && Inv(s) && s.phase == GCSpause && s.objs == objs && s.fixed == {MAIN}
    && s.roots == Roots(MAIN, MAIN, Obj(REGISTRY), seq(9, _ => Nil))
  }

  lemma RestingLive(s: State, objs: Heap, r: Ref)
    requires Resting(s, objs)
    ensures Live(s, r) <==> r in objs
  {
    hide UvOk, StrOk, RootListOk, FixedOk, RefsLive, RootsLive, NeverBlack;
  }

  /** A store into an object of `objs`, of values that are there. */
  ghost predicate StoresIn(objs: Heap, r: Ref, b: Body, news: seq<Value>) {
    && r in objs && SameShape(objs[r], b) && StoresOnly(objs, r, b, news) && SlotsKept(objs, r, b)
    && (forall v :: v in news && v.Obj? ==> v.ref in objs)
  }

  lemma Stored(s: State, objs: Heap, r: Ref, b: Body, news: seq<Value>)
    requires Resting(s, objs) && StoresIn(objs, r, b, news)
    ensures Enabled(s, Store(r, b, news)) && Resting(Step(s, Store(r, b, news)), objs[r := b])
  {
    hide Inv, StoresOnly, SlotsKept, Barriers;
    RestingLive(s, objs, r);
    forall v | v in news && v.Obj?
      ensures Live(s, v.ref)
    {
      RestingLive(s, objs, v.ref);
    }
    StepInv(s, Store(r, b, news));
  }

  lemma Allocated(s: State, objs: Heap, r: Ref, b: Body)
    requires Resting(s, objs) && r !in objs && InRoot(b) && !b.Thread?
    requires forall c :: Obj(c) in BodyVals(objs, b, STRONG) ==> c in objs
    ensures Enabled(s, Allocate(r, b)) && Resting(Step(s, Allocate(r, b)), objs[r := b])
  {
    hide Inv, BodyVals, LinkPos;
    forall c | Obj(c) in BodyVals(objs, b, STRONG)
      ensures Live(s, c)
    {
      RestingLive(s, objs, c);
    }
    StepInv(s, Allocate(r, b));
  }

  lemma Captured(s: State, objs: Heap, level: nat, r: Ref)
    requires Resting(s, objs) && r !in objs && ThreadAt(objs, MAIN) && objs[MAIN].openupval == []
      && level < |objs[MAIN].stack|
    ensures Enabled(s, Capture(level, r))
    ensures Resting(Step(s, Capture(level, r)),
      objs[r := UpVal(Open(MAIN, level))][MAIN := Thread(objs[MAIN].gt, objs[MAIN].stack, [r])])
  {
    hide Inv;
    RestingLive(s, objs, MAIN);
    assert InsertAt([], 0, r) == [r];
    StepInv(s, Capture(level, r));
  }

  lemma StoredOpen(s: State, objs: Heap, u: Ref, v: Value)
    requires Resting(s, objs) && u in objs && IsOpen(objs[u]) && ThreadAt(objs, objs[u].v.thread)
      && (v.Obj? ==> v.ref in objs)
    ensures var t := objs[u].v.thread;
            && Enabled(s, StoreOpen(u, v))
            && Resting(Step(s, StoreOpen(u, v)), objs[t := SlotSet(objs[t], objs[u].v.level, v)])
  {
    hide Inv, Barriers, SlotSet;
    RestingLive(s, objs, u);
    if v.Obj? {
      RestingLive(s, objs, v.ref);
    }
    StepInv(s, StoreOpen(u, v));
  }

  const OP1 := Store(MAIN, Main([Nil, Nil], []), [])
  const OP2 := Allocate(PROTO, CODE)
  const OP3 := Allocate(CLOSURE, Function(Nil))
  const OP4 := Store(MAIN, Main([Nil, Obj(CLOSURE)], []), [Obj(CLOSURE)])
  const OP5 := Capture(0, UPVALUE)
  const OP6 := Store(CLOSURE, Function(Obj(UPVALUE)), [Obj(UPVALUE)])
  const OP7 := StoreOpen(UPVALUE, Obj(CLOSURE))
  const OP8 := Allocate(GARBAGE, EMPTY)

  lemma StoresFit()
    ensures StoresIn(AT0, MAIN, Main([Nil, Nil], []), [])
    ensures StoresIn(AT3, MAIN, Main([Nil, Obj(CLOSURE)], []), [Obj(CLOSURE)])
    ensures StoresIn(AT5, CLOSURE, Function(Obj(UPVALUE)), [Obj(UPVALUE)])
  {
    hide OpenAt;
    assert Main([Nil, Nil], []).stack == [Nil, Nil];
    assert forall u :: !OpenAt(AT0, u, MAIN) && !OpenAt(AT3, u, MAIN) by {
      OpenNone();
    }
  }

  lemma OpenNone()
    ensures forall u :: !OpenAt(AT0, u, MAIN) && !OpenAt(AT3, u, MAIN)
  {
  }

  lemma RunThen(s: State, ops: seq<Op>, s1: State, op: Op)
    requires Run(s, ops, s1) && Enabled(s1, op)
    ensures Run(s, ops + [op], Step(s1, op))
  {
    hide Run, Enabled, Step;
    RunNone(Step(s1, op));
    assert [op] == [op] + [];
    RunFirst(s1, op, [], Step(s1, op));
    RunConcat(s, ops, s1, [op], Step(s1, op));
  }

  lemma RunNone(s: State)
    ensures Run(s, [], s)
  {
    hide Enabled, Step;
  }

  /** A proto and a closure of it are made while nothing refers to them; then the closure is pushed. */
  lemma ClosureMade(s: State) returns (s4: State)
    requires Resting(s, AT0)
    ensures Run(s, [OP1] + [OP2] + [OP3] + [OP4], s4) && Resting(s4, AT4)
  {
    hide Resting, Enabled, Step, StoresIn, Run;
    StoresFit();
    Stored(s, AT0, MAIN, Main([Nil, Nil], []), []);
    RunNone(s);
    RunThen(s, [], s, OP1);
    assert [] + [OP1] == [OP1];
    var s1 := Step(s, OP1);
    Allocated(s1, AT1, PROTO, CODE);
    RunThen(s, [OP1], s1, OP2);
    var s2 := Step(s1, OP2);
    Allocated(s2, AT2, CLOSURE, Function(Nil));
    RunThen(s, [OP1] + [OP2], s2, OP3);
    var s3 := Step(s2, OP3);
    Stored(s3, AT3, MAIN, Main([Nil, Obj(CLOSURE)], []), [Obj(CLOSURE)]);
    RunThen(s, [OP1] + [OP2] + [OP3], s3, OP4);
    s4 := Step(s3, OP4);
  }

  /** The closure captures a local, and is stored in it through the upvalue; then a table is made and forgotten. */
  lemma LocalCaptured(s4: State) returns (s8: State)
    requires Resting(s4, AT4)
    ensures Run(s4, [OP5] + [OP6] + [OP7] + [OP8], s8) && Resting(s8, AT8)
  {
    hide Resting, Enabled, Step, StoresIn, Run;
    StoresFit();
    Captured(s4, AT4, 0, UPVALUE);
    RunNone(s4);
    RunThen(s4, [], s4, OP5);
    assert [] + [OP5] == [OP5];
    var s5 := Step(s4, OP5);
    Stored(s5, AT5, CLOSURE, Function(Obj(UPVALUE)), [Obj(UPVALUE)]);
    RunThen(s4, [OP5], s5, OP6);
    var s6 := Step(s5, OP6);
    StoredOpen(s6, AT6, UPVALUE, Obj(CLOSURE));
    assert SlotSet(AT6[MAIN], 0, Obj(CLOSURE)).stack == [Obj(CLOSURE), Obj(CLOSURE)];
    RunThen(s4, [OP5] + [OP6], s6, OP7);
    var s7 := Step(s6, OP7);
    Allocated(s7, AT7, GARBAGE, EMPTY);
    RunThen(s4, [OP5] + [OP6] + [OP7], s7, OP8);
    s8 := Step(s7, OP8);
  }

  // ---------------------------------------------------------------- what can be reached

  lemma Links()
    ensures Refers(AT8, MAIN, CLOSURE) && Refers(AT8, CLOSURE, PROTO) && Refers(AT8, CLOSURE, UPVALUE)
      && Refers(AT8, UPVALUE, CLOSURE)
    ensures forall x :: !Refers(AT8, x, GARBAGE)
    ensures NoModes(AT8)
  {
    assert AllVals(AT8, MAIN)[1] == Obj(CLOSURE) && AllVals(AT8, CLOSURE)[1] == Obj(PROTO)
      && AllVals(AT8, CLOSURE)[2] == Obj(UPVALUE)
        && AllVals(AT8, UPVALUE)[0] == Obj(CLOSURE);
  }

  lemma Reached(s: State)
    requires Resting(s, AT8)
    ensures Reach(s, CLOSURE) && Reach(s, UPVALUE) && Reach(s, PROTO) && !Reach(s, GARBAGE)
  {
    hide Inv, Refers, NoModes, Reach;
    Links();
    ReachRoot(s, MAIN);
    ReachStep(s, MAIN, CLOSURE);
    ReachStep(s, CLOSURE, PROTO);
    ReachStep(s, CLOSURE, UPVALUE);
    GarbageOut(s);
  }

  lemma GarbageOut(s: State)
    requires Resting(s, AT8) && forall x :: !Refers(AT8, x, GARBAGE)
    ensures !Reach(s, GARBAGE)
  {
    hide Inv, Refers;
    forall p: seq<Ref> | IsPath(s.objs, p) && IsRoot(s, p[0])
      ensures p[|p| - 1] != GARBAGE
    {
      if |p| > 1 {
        assert Refers(s.objs, p[|p| - 2], p[|p| - 1]);
      }
    }
  }

  // ---------------------------------------------------------------- the collector's cycle

  function Collects(n: nat): seq<Op> {
    if n == 0 then [] else [Collect] + Collects(n - 1)
  }

  /** The collector's steps up to a phase are steps of a run. */
  lemma {:induction false} UntilRun(s: State, stop: Phase) returns (n: nat)
    requires Inv(s)
    ensures Run(s, Collects(n), StepUntil(s, stop))
    decreases PhaseRank(s.phase), WhitesLeft(s), WorkLeft(s)
  {
    hide Inv, SingleStep, Run;
    if s.phase == stop || s.phase == GCSpause {
      n := 0;
      RunNone(s);
    } else {
      SingleStepInv(s);
      StepDecreases(s);
      n := UntilRun(SingleStep(s), stop);
      RunFirst(s, Collect, Collects(n), StepUntil(s, stop));
      n := n + 1;
    }
  }

  lemma CycleRun(s: State) returns (n: nat)
    requires Inv(s) && s.phase == GCSpause && Inv(StartCycle(s))
    ensures Run(s, Collects(n + 1), StepUntil(StartCycle(s), GCSpause))
  {
    hide Inv, StartCycle, Run, StepUntil;
    n := UntilRun(StartCycle(s), GCSpause);
    RunFirst(s, Collect, Collects(n), StepUntil(StartCycle(s), GCSpause));
  }

  /** The closure refers to its upvalue, which stands for the local that holds the closure. */
  ghost predicate Knotted(objs: Heap) {
    Refers(objs, CLOSURE, PROTO) && Refers(objs, CLOSURE, UPVALUE) && Refers(objs, UPVALUE, CLOSURE)
  }

  lemma CycleKeepsKnot(s: State) returns (n: nat, s': State)
    requires Resting(s, AT8)
    ensures Run(s, Collects(n + 1), s') && s'.phase == GCSpause
    ensures Knotted(s'.objs) && PROTO in s'.objs && UPVALUE in s'.objs && GARBAGE !in s'.objs
  {
    Reached(s);
    Links();
    RestingWhite(s, AT8);
    hide Inv, Refers, Run, NoModes, Reach, StepUntil, StartCycle;
    CycleExact(s);
    s' := StepUntil(StartCycle(s), GCSpause);
    n := CycleRun(s);
  }

  /**
    From the state that is opened first a run leads to `s`, where a closure with an open upvalue
    can be reached and a table cannot; `n` more steps, all of the collector, keep the first and
    free the second.
   */
  lemma ClosureSurvives() returns (ops: seq<Op>, s: State, n: nat, s': State)
    ensures Run(Initial(MINSTRTABSIZE), ops, s) && Run(s, Collects(n + 1), s') && s'.phase == GCSpause
    ensures Reach(s, CLOSURE) && UPVALUE in s.objs && IsOpen(s.objs[UPVALUE]) && Knotted(s.objs) && GARBAGE in s.objs
    ensures Knotted(s'.objs) && PROTO in s'.objs && UPVALUE in s'.objs && GARBAGE !in s'.objs
  {
    hide Run, Initial, Reach, Inv, NoModes;
    InitialResting();
    var s4 := ClosureMade(Initial(MINSTRTABSIZE));
    s := LocalCaptured(s4);
    ops := ([OP1] + [OP2] + [OP3] + [OP4]) + ([OP5] + [OP6] + [OP7] + [OP8]);
    RunConcat(Initial(MINSTRTABSIZE), [OP1] + [OP2] + [OP3] + [OP4], s4, [OP5] + [OP6] + [OP7] + [OP8], s);
    Reached(s);
    Links();
    hide Refers;
    n, s' := CycleKeepsKnot(s);
  }

  lemma RestingWhite(s: State, objs: Heap)
    requires Resting(s, objs)
    ensures AllWhite(s.m.color, s.white)
  {
    hide UvOk, StrOk, RootListOk, FixedOk, RefsLive, RootsLive, NeverBlack;
  }

  lemma InitialResting()
    ensures Resting(Initial(MINSTRTABSIZE), AT0)
  {
    hide Inv;
    assert PowerOfTwo(1) && PowerOfTwo(2) && PowerOfTwo(4) && PowerOfTwo(8) && PowerOfTwo(16) && PowerOfTwo(32);
    InitialInv(MINSTRTABSIZE);
  }
}

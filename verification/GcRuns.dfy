/**
  Whole runs: any interleaving of steps of the program with steps of the collector.
 */
module GcRuns {
  import opened GcHeap
  import opened GcMark
  import opened GcCycle
  import opened GcAtomic
  import opened GcInv
  import opened GcMutator
  import opened GcAlloc
  import opened GcUpval
  import opened GcFindUpval
  import opened GcStrings
  import opened GcSweep
  import opened GcSweepList
  import opened GcSteps
  import opened GcFull
  import opened GcStringHash

  datatype Op =
    | Collect
      /**
        An object is stored into: table, closure, prototype, userdata, closed upvalue, stack or
        globals of a thread.
       */
    | Store(r: Ref, b: Body, news: seq<Value>)
      /** A value is assigned through an open upvalue, to a slot of the thread that owns it. */
    | StoreOpen(u: Ref, v: Value)
    | Allocate(r: Ref, b: Body)
    | Capture(level: nat, r: Ref)
    | Close(level: nat)
    | MakeString(bytes: Bytes, r: Ref)
    | Resume(t: Ref)
    | SetMetatableOfType(i: nat, v: Value)
      /** luaS_fix */
    | Fix(r: Ref)
      /** luaC_fullgc */
    | FullCollect

  /**
    What the program may use: whatever is not dead.  That includes all it can reach (ReachLive),
    and what it has just made and holds only in a register or a C variable, up to the collector's
    next step (GcProgram: CapturedUsable, MadeStringUsable, StaysUsable).
   */
  ghost predicate Usable(s: State, v: Value) {
    v.Obj? ==> Live(s, v.ref)
  }

  ghost predicate Enabled(s: State, op: Op) {
    match op
    case Collect => true
    case Store(r, b, news) => Live(s, r) && WriteOk(s, r, b, news)
    case StoreOpen(u, v) => Live(s, u) && IsOpen(s.objs[u]) && Usable(s, v)
    case Allocate(r, b) => NewOk(s, r, b)
    case Capture(level, r) => FindOk(s, s.roots.running, level, r)
    case Close(_) => true
    case MakeString(_, r) => r !in s.objs
    case Resume(t) => Live(s, t) && s.objs[t].Thread?
    case SetMetatableOfType(_, v) => Usable(s, v)
    case Fix(r) => Live(s, r) && s.objs[r].Str?
    case FullCollect => true
  }

  /** The body of a thread with slot `l` set to `v`. */
  function SlotSet(th: Body, l: nat, v: Value): Body
    requires th.Thread?
  {
    if l < |th.stack| then Thread(th.gt, th.stack[l := v], th.openupval) else th
  }

  /** The state after a step; a step that makes no sense in `s` does nothing. */
  ghost function Step(s: State, op: Op): State {
    match op
    case Collect => SingleStep(s)
    case Store(r, b, news) => Write(s, r, b, news)
    case StoreOpen(u, v) =>
      if u in s.objs && IsOpen(s.objs[u]) && ThreadAt(s.objs, s.objs[u].v.thread) then
        var t := s.objs[u].v.thread;
        Write(s, t, SlotSet(s.objs[t], s.objs[u].v.level, v), [v])
      else s
    case Allocate(r, b) => New(s, r, b)
    case Capture(level, r) => if ThreadAt(s.objs, s.roots.running) then FindUpval(s, s.roots.running, level, r) else s
    case Close(level) => if HasUpvals(s, s.roots.running) then CloseUpvals(s, s.roots.running, level) else s
    case MakeString(bytes, r) => if |s.strt| > 0 then Intern(s, bytes, r) else s
    case Resume(t) => Switch(s, t)
    case SetMetatableOfType(i, v) => SetMt(s, i, v)
    case Fix(r) => s.(fixed := s.fixed + {r})
    case FullCollect => if Inv(s) then FullGC(s) else s
  }

  lemma SlotSetOk(s: State, u: Ref, v: Value)
    requires UvOk(s.objs, s.uvhead) && u in s.objs && IsOpen(s.objs[u]) && (v.Obj? ==> Live(s, v.ref))
    ensures var t := s.objs[u].v.thread;
            t in s.objs && s.objs[t].Thread? && s.objs[u].v.level < |s.objs[t].stack|
            && WriteOk(s, t, SlotSet(s.objs[t], s.objs[u].v.level, v), [v])
  {
    var t := s.objs[u].v.thread;
    var l := s.objs[u].v.level;
    assert UvListOk(s.objs, t) && u in s.objs[t].openupval;
    var th := s.objs[t];
    var b := SlotSet(th, l, v);
    forall c | Obj(c) in BodyVals(s.objs, b, STRONG)
      ensures Obj(c) in AllVals(s.objs, t) || Obj(c) in [v]
    {
      assert Obj(c) in b.stack ==> Obj(c) == v || Obj(c) in th.stack;
    }
    forall x | OpenAt(s.objs, x, t)
      ensures s.objs[x].v.level < |b.stack|
    {
      assert x in s.objs[t].openupval;
    }
  }

  lemma StoreOpenInv(s: State, u: Ref, v: Value)
    requires Inv(s) && Enabled(s, StoreOpen(u, v))
    ensures Inv(Step(s, StoreOpen(u, v)))
  {
    hide StrOk, UvOk, RootListOk, FixedOk, NeverBlack, RefsLive, RootsLive, PhaseInv, WriteOk, Write;
    SlotSetOk(s, u, v);
    hide Inv;
    WriteInv(s, s.objs[u].v.thread, SlotSet(s.objs[s.objs[u].v.thread], s.objs[u].v.level, v), [v]);
  }

  lemma FixInv(s: State, r: Ref)
    requires Inv(s) && Live(s, r) && s.objs[r].Str?
    ensures Inv(s.(fixed := s.fixed + {r}))
  {
    hide UvOk, StrOk, RootListOk, NeverBlack, PhaseInv;
    RefsKept(s, s.(fixed := s.fixed + {r}));
    FixPhase(s, s.(fixed := s.fixed + {r}));
  }

  lemma FixPhase(s: State, s': State)
    requires PhaseInv(s) && s' == s.(fixed := s'.fixed)
    ensures PhaseInv(s')
  {
    hide MarkInv, AllWhite, Swept, StringsSwept;
  }

  lemma {:induction false} UntilInv(s: State, stop: Phase)
    requires Inv(s)
    ensures Inv(StepUntil(s, stop)) && StepUntil(s, stop).fixed == s.fixed
    decreases PhaseRank(s.phase), WhitesLeft(s), WorkLeft(s)
  {
    hide Inv, SingleStep;
    if s.phase != stop && s.phase != GCSpause {
      SingleStepInv(s);
      StepDecreases(s);
      StepFixed(s);
      UntilInv(SingleStep(s), stop);
    }
  }

  lemma StepFixed(s: State)
    requires Inv(s)
    ensures SingleStep(s).fixed == s.fixed
  {
    if AtomicNext(s) {
      AtomicFrame(s);
    } else {
      SingleStepInv(s);
      hide Inv, SingleStep;
    }
  }

  /** A full collection keeps the invariant, with weak tables too. */
  lemma FullGCInv(s: State)
    requires Inv(s)
    ensures Inv(FullGC(s)) && FullGC(s).fixed == s.fixed
  {
    hide Inv, StepUntil, StartCycle, KeepsLive, AllWhite;
    AbandonInv(s);
    SweepUntil(Abandon(s), GCSfinalize);
    UntilInv(Abandon(s), GCSfinalize);
    var s2 := StepUntil(Abandon(s), GCSfinalize);
    StartCycleInv(s2);
    StartCycleFrame(s2);
    UntilInv(StartCycle(s2), GCSpause);
  }

  lemma RunningThread(s: State)
    requires Inv(s)
    ensures s.roots.running in s.objs && s.objs[s.roots.running].Thread?
  {
    hide UvOk, StrOk, RootListOk, RefsLive, RootsLive, PhaseInv;
  }

  /** Every step, of the program or of the collector, keeps the invariant. */
  lemma StepInv(s: State, op: Op)
    requires Inv(s) && Enabled(s, op)
    ensures Inv(Step(s, op))
  {
    hide Inv, WriteOk, NewOk, FindOk;
    match op
    case Collect => SingleStepInv(s);
    case Store(r, b, news) => WriteInv(s, r, b, news);
    case StoreOpen(u, v) => StoreOpenInv(s, u, v);
    case Allocate(r, b) => NewInv(s, r, b);
    case Capture(level, r) => FindUpvalInv(s, s.roots.running, level, r);
    case Close(level) =>
      RunningThread(s);
      CloseUpvalsInv(s, s.roots.running, level);
    case MakeString(bytes, r) => InternInv(s, bytes, r);
    case Resume(t) => SwitchInv(s, t);
    case SetMetatableOfType(i, v) => SetMtInv(s, i, v);
    case Fix(r) => FixInv(s, r);
    case FullCollect => FullGCInv(s);
  }

  // ---------------------------------------------------------------- runs

  /** `s'` is reached from `s` by the enabled steps `ops`. */
  ghost predicate Run(s: State, ops: seq<Op>, s': State)
    decreases |ops|
  {
    if ops == [] then s' == s
    else Enabled(s, ops[0]) && Run(Step(s, ops[0]), ops[1..], s')
  }

  lemma {:induction false} RunInv(s: State, ops: seq<Op>, s': State)
    requires Inv(s) && Run(s, ops, s')
    ensures Inv(s')
    decreases |ops|
  {
    if ops != [] {
      StepInv(s, ops[0]);
      hide Inv, Enabled;
      RunInv(Step(s, ops[0]), ops[1..], s');
    }
  }

  /** A state with a main thread, its globals and a registry, and no string yet (lstate.c: lua_newstate, f_luaopen). */
  function Initial(size: nat): State
    requires size > 0
  {
    State(map[0 := Thread(Obj(1), [], []), 1 := Table(Nil, STRONG, [], []), 2 := Table(Nil, STRONG, [], [])],
          Marks(map[0 := White(false), 1 := White(false), 2 := White(false)], [], [], []),
          Roots(0, 0, Obj(2), seq(9, _ => Nil)),
          {0}, false, GCSpause, [2, 1, 0], 0, Empty(size), 0, 0, [])
  }

  lemma InitialLists(size: nat)
    requires size > 0 && PowerOfTwo(size)
    ensures var s := Initial(size); UvOk(s.objs, s.uvhead) && StrOk(s.objs, s.strt, s.nuse)
  {
    var s := Initial(size);
    EmptyTotal(size);
    hide Total;
    assert forall r :: r in s.objs ==> !s.objs[r].Str? && !IsOpen(s.objs[r]);
  }

  lemma InitialRoot(size: nat)
    requires size > 0 && PowerOfTwo(size)
    ensures RootListOk(Initial(size).objs, Initial(size).rootgc)
  {
  }

  lemma InitialStruct(size: nat)
    requires size > 0 && PowerOfTwo(size)
    ensures Struct(Initial(size))
  {
    hide UvOk, StrOk, RootListOk;
    InitialLists(size);
    InitialRoot(size);
  }

  lemma InitialInv(size: nat)
    requires size > 0 && PowerOfTwo(size)
    ensures Inv(Initial(size))
  {
    InitialRefs(size);
    InitialStruct(size);
    hide Struct, RefsLive, RootsLive;
  }

  lemma InitialRefs(size: nat)
    requires size > 0 && PowerOfTwo(size)
    ensures RefsLive(Initial(size)) && RootsLive(Initial(size))
  {
    var s := Initial(size);
    forall r, c | Refers(s.objs, r, c)
      ensures r == 0 && c == 1
    {
      assert r != 0 ==> Backwards([]) == [] && NodeVals([], STRONG) == [];
    }
    forall r | Live(s, r)
      ensures ClosedAt(s, r)
    {
    }
  }

  /**
    The safety of the collector over every run: whatever the program can still reach is
    allocated, is not about to be freed, and is not freed by the collector's next step.
   */
  lemma CollectorSafe(size: nat, ops: seq<Op>, s: State, r: Ref)
    requires size > 0 && PowerOfTwo(size) && Run(Initial(size), ops, s) && Reach(s, r)
    ensures Inv(s) && Live(s, r) && r in SingleStep(s).objs
  {
    InitialInv(size);
    RunInv(Initial(size), ops, s);
    hide Inv, Run;
    NoDangling(s, r);
    NothingReachableFreed(s, r);
  }

  /** Over every run equal strings are one object, and interning finds it, alive. */
  lemma StringsUnique(size: nat, ops: seq<Op>, s: State, a: Ref, b: Ref)
    requires size > 0 && PowerOfTwo(size) && Run(Initial(size), ops, s)
    requires a in s.objs && b in s.objs && s.objs[a].Str? && s.objs[b].Str? && s.objs[a].bytes == s.objs[b].bytes
    ensures a == b
    ensures |s.strt| > 0 && FindStr(s.objs, s.strt[Bucket(Hash(s.objs[a].bytes), |s.strt|)], s.objs[a].bytes) == Obj(a)
  {
    InitialInv(size);
    RunInv(Initial(size), ops, s);
    hide Run, RefsLive, RootsLive, PhaseInv, UvOk, RootListOk, Hash;
    FindStrComplete(s.objs, s.strt, s.objs[a].bytes, a);
  }

  /**
    Over every run threads and open upvalues are never black, and no black object refers to a
    white one while marking.
   */
  lemma TriColorAlways(size: nat, ops: seq<Op>, s: State)
    requires size > 0 && PowerOfTwo(size) && Run(Initial(size), ops, s)
    ensures forall r :: r in s.objs && IsBlack(s.m, r) ==> !s.objs[r].Thread? && !IsOpen(s.objs[r])
    ensures s.phase == GCSpropagate ==> forall r, c :: IsBlack(s.m, r) && Refers(s.objs, r, c)
                                                       ==> NonWhite(s.m.color, c)
  {
    InitialInv(size);
    RunInv(Initial(size), ops, s);
    hide Run, RefsLive, RootsLive, UvOk, RootListOk, StrOk;
    if s.phase == GCSpropagate {
      forall r, c | IsBlack(s.m, r) && Refers(s.objs, r, c)
        ensures NonWhite(s.m.color, c)
      {
        assert Seen(s.m.color, [], c);
      }
    }
  }
}

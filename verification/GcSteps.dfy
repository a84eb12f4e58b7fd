/**
  One step of the collector (lgc.c: singlestep) in any phase keeps the invariant, and frees
  nothing that can be reached.
 */
module GcSteps {
  import opened GcHeap
  import opened GcMark
  import opened GcCycle
  import opened GcAtomic
  import opened GcInv
  import opened GcMutator
  import opened GcAlloc
  import opened GcUpval
  import opened GcStrings
  import opened GcSweep
  import opened GcSweepList

  ghost function StartCycle(s: State): State {
    s.(m := MarkRoot(s.objs, s.m, s.roots), phase := GCSpropagate)
  }

  ghost function SingleStep(s: State): State {
    match s.phase
    case GCSpause => StartCycle(s)
    case GCSpropagate => if s.m.gray != [] then s.(m := PropagateMark(s.objs, s.m)) else Atomic(s)
    case GCSsweepstring => if s.sweepstrgc < |s.strt| then SweepBucket(s) else s
    case GCSsweep => SweepStep(s)
    case GCSfinalize => s.(phase := GCSpause)
  }

  // ---------------------------------------------------------------- starting a cycle

  lemma AllWhiteHeapIn(s: State)
    requires Struct(s) && RefsLive(s) && AllWhite(s.m.color, s.white)
    ensures HeapIn(s.objs)
  {
    forall r, c | Refers(s.objs, r, c)
      ensures c in s.objs
    {
      assert Live(s, r) && ClosedAt(s, r);
    }
  }

  lemma RootValsIn(s: State)
    requires Struct(s) && RootsLive(s) && HeapIn(s.objs)
    ensures ValsIn(s.objs, RootVals(s.objs, s.roots))
    ensures ValsIn(s.objs, [Obj(s.roots.running)] + s.roots.mt)
  {
    forall c | Obj(c) in RootVals(s.objs, s.roots) || Obj(c) in [Obj(s.roots.running)] + s.roots.mt
      ensures c in s.objs
    {
      if Obj(c) == MainGlobals(s.objs, s.roots) {
        assert Refers(s.objs, s.roots.mainthread, c);
      } else {
        assert IsRoot(s, c) && Live(s, c);
      }
    }
  }

  lemma FreshMarkInv(objs: Heap, color: Colors, white: bool)
    requires color.Keys == objs.Keys && AllWhite(color, white) && HeapIn(objs)
    ensures MarkInv(objs, Marks(color, [], [], []), white)
  {
  }

  lemma StartCycleInv(s: State)
    requires Inv(s) && AllWhite(s.m.color, s.white)
    ensures Inv(StartCycle(s)) && KeepsLive(s, StartCycle(s))
  {
    hide StrOk, UvOk, RootListOk;
    var s' := StartCycle(s);
    var todo := RootVals(s.objs, s.roots);
    var m0 := Marks(s.m.color, [], [], []);
    AllWhiteHeapIn(s);
    RootValsIn(s);
    FreshMarkInv(s.objs, s.m.color, s.white);
    MarkedInv(s.objs, m0, todo, s.white);
    MarkedMore(s.objs, m0, todo);
    assert Obj(s.roots.mainthread) in todo && s.roots.registry in todo;
    StartCycleDone(s, s');
  }

  lemma StartCycleDone(s: State, s': State)
    requires Inv(s) && AllWhite(s.m.color, s.white) && s' == s.(m := s'.m, phase := GCSpropagate)
    requires MarkInv(s'.objs, s'.m, s'.white) && NonWhite(s'.m.color, s.roots.mainthread)
    requires s.roots.registry.Obj? ==> NonWhite(s'.m.color, s.roots.registry.ref)
    ensures Inv(s') && KeepsLive(s, s')
  {
    hide StrOk, UvOk, RootListOk, FixedOk;
    MarkInvNoneDead(s');
    MarkInvNeverBlack(s'.objs, s'.m, s'.white);
    assert NoneDead(s);
    hide MarkInv, AllWhite;
    RefsKept(s, s');
  }

  // ---------------------------------------------------------------- marking

  lemma PropagateInv(s: State)
    requires Inv(s) && s.phase == GCSpropagate && s.m.gray != []
    ensures Inv(s.(m := PropagateMark(s.objs, s.m))) && KeepsLive(s, s.(m := PropagateMark(s.objs, s.m)))
  {
    hide StrOk, UvOk, RootListOk, FixedOk;
    var s' := s.(m := PropagateMark(s.objs, s.m));
    PropagateMarkInv(s.objs, s.m, s.white);
    PropagateMarkMore(s.objs, s.m, s.white);
    MarkInvNoneDead(s);
    MarkInvNoneDead(s');
    MarkInvNeverBlack(s'.objs, s'.m, s'.white);
    hide MarkInv, PropagateMark;
    RefsKept(s, s');
  }

  // ---------------------------------------------------------------- the atomic step

  /** Clearing weak tables changes no other kind of object. */
  lemma ShrunkKinds(objs: Heap, objs': Heap, l: set<Ref>)
    requires Shrunk(objs, objs', l)
    ensures SameKinds(objs, objs') && SameUpvals(objs, objs')
    ensures forall t :: t in objs && objs[t].Thread? ==> objs'[t] == objs[t]
  {
    hide Refers;
  }

  lemma AtomicStruct(s: State, s': State, l: set<Ref>)
    requires Struct(s) && MarkInv(s.objs, s.m, s.white)
    requires Shrunk(s.objs, s'.objs, l) && s'.m.color.Keys == s'.objs.Keys && NeverBlack(s'.objs, s'.m.color)
    requires s' == s.(objs := s'.objs, m := s'.m, white := s'.white, phase := s'.phase, sweepgc := s'.sweepgc,
      sweepstrgc := s'.sweepstrgc)
    ensures Struct(s')
  {
    hide StrOk, UvOk, RootListOk, FixedOk, MarkInv, NeverBlack, Shrunk, SameUpvals;
    ShrunkKinds(s.objs, s'.objs, l);
    SameUpvalsOk(s.objs, s'.objs, s.uvhead);
    SameStringsOk(s.objs, s'.objs, s.strt, s.nuse);
    RootListKept(s.objs, s'.objs, s.rootgc);
    FixedKept(s.objs, s'.objs, s.roots, s.fixed);
  }

  lemma AtomicNeverBlack(objs: Heap, m: Marks, white: bool, objs': Heap, color': Colors, l: set<Ref>)
    requires MarkInv(objs, m, white) && Shrunk(objs, objs', l) && StringsMarked(objs, m.color, color')
    ensures color'.Keys == objs'.Keys && NeverBlack(objs', color')
    ensures forall r :: r in color' && color'[r].White? ==> color'[r] == White(white)
  {
    assert forall r :: r in objs ==> ColorFits(objs[r], m.color[r]);
  }

  /** What is marked is exactly what is live after the whites change places. */
  lemma AtomicLive(s: State, s': State)
    requires s'.white == !s.white && s'.m.color.Keys == s'.objs.Keys
    requires forall r :: r in s'.m.color && s'.m.color[r].White? ==> s'.m.color[r] == White(s.white)
    requires forall x, c :: NonWhite(s'.m.color, x) && Refers(s'.objs, x, c) ==> NonWhite(s'.m.color, c)
    requires forall r :: IsRoot(s', r) ==> NonWhite(s'.m.color, r)
    ensures forall r :: Live(s', r) <==> NonWhite(s'.m.color, r)
    ensures RefsLive(s') && RootsLive(s')
  {
    forall r | Live(s', r)
      ensures ClosedAt(s', r)
    {
      assert NonWhite(s'.m.color, r);
    }
  }

  lemma AtomicInv(s: State)
    requires Inv(s) && s.phase == GCSpropagate && s.m.gray == []
    ensures Inv(Atomic(s)) && Shrunk(s.objs, Atomic(s).objs, SetOf(AtomicMark(s.objs, s.m, s.roots, s.uvhead).weak))
    ensures forall r :: Live(Atomic(s), r) <==> NonWhite(Atomic(s).m.color, r)
  {
    hide StrOk, RootListOk, FixedOk, NeverBlack;
    var m := AtomicMark(s.objs, s.m, s.roots, s.uvhead);
    RootValsIn(s);
    AtomicMarkInv(s.objs, s.m, s.white, s.roots, s.uvhead);
    hide UvOk;
    AtomicClosed(s.objs, m, s.white);
    var r := ClearTables(s.objs, m.color, m.weak);
    AtomicNeverBlack(s.objs, m, s.white, r.0, r.1, SetOf(m.weak));
    var s' := Atomic(s);
    assert s'.objs == r.0 && s'.m.color == r.1;
    hide MarkInv, AtomicMark, ClearTables, Atomic, Covered;
    AtomicRoots(s, m, s');
    AtomicLive(s, s');
    AtomicStruct(s, s', SetOf(m.weak));
    AtomicPhase(s, s');
  }

  lemma AtomicRoots(s: State, m: Marks, s': State)
    requires PhaseInv(s) && s.phase == GCSpropagate && MoreMarked(s.m.color, m.color) && s'.roots == s.roots
    requires forall c :: Obj(c) in [Obj(s.roots.running)] + s.roots.mt ==> NonWhite(m.color, c)
    requires StringsMarked(s.objs, m.color, s'.m.color)
    ensures forall r :: IsRoot(s', r) ==> NonWhite(s'.m.color, r)
  {
    hide MarkInv;
    assert Obj(s.roots.running) in [Obj(s.roots.running)] + s.roots.mt;
  }

  lemma AtomicPhase(s: State, s': State)
    requires StrOk(s.objs, s.strt, s.nuse) && s'.strt == s.strt && s'.phase == GCSsweepstring && s'.sweepgc == 0
      && s'.sweepstrgc == 0
    ensures PhaseInv(s')
  {
  }

  // ---------------------------------------------------------------- any step

  predicate AtomicNext(s: State) {
    s.phase == GCSpropagate && s.m.gray == []
  }

  /** A step of the collector keeps the invariant; but for the atomic step, it changes nothing the program can see. */
  lemma SingleStepInv(s: State)
    requires Inv(s)
    ensures Inv(SingleStep(s))
    ensures !AtomicNext(s) ==> KeepsLive(s, SingleStep(s))
  {
    hide Struct, RefsLive, RootsLive, KeepsLive, MarkInv, AllWhite;
    match s.phase
    case GCSpause =>
      StartCycleInv(s);
    case GCSpropagate =>
      if s.m.gray != [] {
        PropagateInv(s);
      } else {
        AtomicInv(s);
      }
    case GCSsweepstring =>
      SweepBucketInv(s);
    case GCSsweep =>
      SweepStepInv(s);
    case GCSfinalize =>
      PauseInv(s);
  }

  lemma PauseInv(s: State)
    requires Inv(s) && s.phase == GCSfinalize
    ensures Inv(s.(phase := GCSpause)) && KeepsLive(s, s.(phase := GCSpause))
  {
    hide Struct, RefsLive, RootsLive, AllWhite;
    PhaseFree(s, s.(phase := GCSpause));
    RefsKept(s, s.(phase := GCSpause));
    KeepsLiveFrame(s, s.(phase := GCSpause));
  }

  /** The safety of collection: no step, in any phase, frees an object that can be reached. */
  lemma NothingReachableFreed(s: State, r: Ref)
    requires Inv(s) && Reach(s, r)
    ensures r in SingleStep(s).objs
    ensures !AtomicNext(s) ==> Reach(SingleStep(s), r)
  {
    SingleStepInv(s);
    ReachLive(s, r);
    if AtomicNext(s) {
      AtomicInv(s);
    } else {
      SameReach(s, SingleStep(s), r);
    }
  }
}

/**
  A full collection (lgc.c: luaC_fullgc), started in any phase, leaves exactly the fixed
  objects and those that can be reached, when no table is weak.
 */
module GcFull {
  import opened GcHeap
  import opened GcMark
  import opened GcCycle
  import opened GcAtomic
  import opened GcInv
  import opened GcMutator
  import opened GcAlloc
  import opened GcUpval
  import opened GcStrings
  import opened GcSweep
  import opened GcSweepList
  import opened GcSteps

  /** A mark phase under way is given up: everything will be swept back to white. */
  function Abandon(s: State): State {
    if s.phase == GCSpause || s.phase == GCSpropagate then
      s.(m := Marks(s.m.color, [], [], []), sweepstrgc := 0, sweepgc := 0, phase := GCSsweepstring)
    else s
  }

  // ---------------------------------------------------------------- termination

  function PhaseRank(p: Phase): nat {
    match p
    case GCSpropagate => 4
    case GCSsweepstring => 3
    case GCSsweep => 2
    case GCSfinalize => 1
    case GCSpause => 0
  }

  /** Work left in `rootgc`: an open upvalue may join it when its thread is freed. */
  function SweepWork(s: State): int {
    2 * |s.uvhead| + |s.rootgc| - s.sweepgc
  }

  ghost function WhitesLeft(s: State): set<Ref> {
    if s.phase == GCSpropagate then Whites(s.m.color) else {}
  }

  function WorkLeft(s: State): int {
    match s.phase
    case GCSpropagate => |s.m.gray|
    case GCSsweepstring => |s.strt| - s.sweepstrgc
    case GCSsweep => SweepWork(s)
    case GCSfinalize => 0
    case GCSpause => 0
  }

  lemma {:induction false} WithoutLength(l: seq<Ref>, r: Ref)
    requires r in l
    ensures |Without(l, r)| == |l| - 1
  {
    if l[0] != r {
      WithoutLength(l[1..], r);
    }
  }

  lemma {:induction false} MinusLength(l: seq<Ref>, gone: set<Ref>)
    ensures |Minus(l, gone)| <= |l|
  {
    if l != [] {
      MinusLength(l[1..], gone);
    }
  }

  lemma CloseOneWork(s: State, t: Ref)
    requires UvOk(s.objs, s.uvhead) && CanClose(s.objs, t)
    ensures SweepWork(CloseOne(s, t)) < SweepWork(s)
  {
    WithoutLength(s.uvhead, s.objs[t].openupval[0]);
    hide UvOk;
  }

  lemma OpenRing(s: State)
    requires Inv(s)
    ensures UvOk(s.objs, s.uvhead)
  {
    hide UvOk, StrOk, RootListOk, FixedOk, NeverBlack, RefsLive, RootsLive, PhaseInv;
  }

  lemma {:induction false} CloseUpvalsWork(s: State, t: Ref, level: nat)
    requires Inv(s) && t in s.objs && s.objs[t].Thread? && UvListOk(s.objs, t)
    ensures SweepWork(CloseUpvals(s, t, level)) <= SweepWork(s)
    decreases |s.objs[t].openupval|
  {
    hide Inv, CloseOne, SweepWork, UvListOk;
    var l := s.objs[t].openupval;
    if l != [] && Level(s.objs, l[0]) >= level {
      CloseOneList(s, t);
      CloseOneInv(s, t);
      OpenRing(s);
      CloseOneWork(s, t);
      CloseUpvalsWork(CloseOne(s, t), t, level);
    }
  }

  lemma FreeObjWork(s: State, r: Ref)
    requires Inv(s) && r in s.objs && InRoot(s.objs[r]) && s.phase == GCSsweep
    ensures SweepWork(FreeObj(s, r)) < SweepWork(s)
  {
    var s1 := if HasUpvals(s, r) then CloseUpvals(s, r, 0) else s;
    if HasUpvals(s, r) {
      CloseUpvalsInv(s, r, 0);
      CloseUpvalsWork(s, r, 0);
      CloseAllKeeps(s, r);
    }
    assert r in s1.rootgc by {
      assert RootListOk(s1.objs, s1.rootgc) && r in s1.objs && InRoot(s1.objs[r]);
    }
    hide Inv, CloseUpvals;
    WithoutLength(s1.rootgc, r);
  }

  lemma SweepOneWork(s: State)
    requires Inv(s) && s.phase == GCSsweep && s.sweepgc < |s.rootgc|
    ensures SweepWork(SweepOne(s)) < SweepWork(s)
  {
    var r := s.rootgc[s.sweepgc];
    assert r in s.rootgc && r in s.objs && InRoot(s.objs[r]);
    var s1 := if ThreadAt(s.objs, r) then SweepUpvals(s, r) else s;
    if ThreadAt(s.objs, r) {
      SweepUpvalsInv(s, r);
      SweepUpvalsKeeps(s, r);
      MinusLength(s.uvhead, DoomedIn(s.m.color, s.fixed, s.white, s.objs[r].openupval));
      assert SweepWork(s1) <= SweepWork(s);
    }
    hide Inv, SweepUpvals, FreeObj, Doomed;
    if Doomed(s1.m.color, s1.fixed, s1.white, r) {
      FreeObjWork(s1, r);
    }
  }

  lemma {:induction false} SweepListWork(s: State, count: nat)
    requires Inv(s) && s.phase == GCSsweep
    ensures SweepWork(SweepList(s, count)) <= SweepWork(s)
    ensures count > 0 && s.sweepgc < |s.rootgc| ==> SweepWork(SweepList(s, count)) < SweepWork(s)
    decreases count
  {
    hide Inv, SweepOne, SweepWork;
    if count > 0 && s.sweepgc < |s.rootgc| {
      SweepOneInv(s);
      SweepOnePhase(s);
      SweepOneWork(s);
      SweepListWork(SweepOne(s), count - 1);
    }
  }

  /** Each step finishes its phase, or has less left to do in it. */
  lemma StepDecreases(s: State)
    requires Inv(s) && s.phase != GCSpause
    ensures var s' := SingleStep(s);
            && WorkLeft(s) >= 0
            && (PhaseRank(s'.phase) < PhaseRank(s.phase)
                || (s'.phase == s.phase
                    && (WhitesLeft(s') < WhitesLeft(s)
                      || (WhitesLeft(s') == WhitesLeft(s) && 0 <= WorkLeft(s') < WorkLeft(s)))))
  {
    hide Struct, RefsLive, RootsLive, MarkInv, AllWhite;
    match s.phase
    case GCSpropagate =>
      if s.m.gray != [] {
        hide PropagateMark;
        PropagateMarkDecreases(s.objs, s.m);
      }
    case GCSsweepstring =>
    case GCSsweep =>
      SweepListWork(s, GCSWEEPMAX);
      SweepListInv(s, GCSWEEPMAX);
      hide SweepList;
    case GCSfinalize =>
  }

  /** `while (g->gcstate != stop) singlestep(L)`: a cycle that is under way is finished, none is started. */
  ghost function StepUntil(s: State, stop: Phase): State
    requires Inv(s)
    decreases PhaseRank(s.phase), WhitesLeft(s), WorkLeft(s)
  {
    if s.phase == stop || s.phase == GCSpause then s
    else
      SingleStepInv(s);
      StepDecreases(s);
      StepUntil(SingleStep(s), stop)
  }

  ghost function FullGC(s: State): State
    requires Inv(s)
  {
    AbandonInv(s);
    SweepUntil(Abandon(s), GCSfinalize);
    var s2 := StepUntil(Abandon(s), GCSfinalize);
    StartCycleInv(s2);
    StepUntil(StartCycle(s2), GCSpause)
  }

  // ---------------------------------------------------------------- sweeping to the end

  lemma AbandonInv(s: State)
    requires Inv(s)
    ensures Inv(Abandon(s)) && KeepsLive(s, Abandon(s))
    ensures Abandon(s).phase in {GCSsweepstring, GCSsweep, GCSfinalize}
    ensures Abandon(s).objs == s.objs
  {
    hide UvOk, RootListOk, FixedOk, RefsLive, RootsLive, MarkInv, AllWhite;
    var s1 := Abandon(s);
    AbandonPhase(s);
    hide StrOk, PhaseInv;
    RefsKept(s, s1);
    KeepsLiveFrame(s, s1);
  }

  lemma AbandonPhase(s: State)
    requires StrOk(s.objs, s.strt, s.nuse) && PhaseInv(s)
    ensures PhaseInv(Abandon(s))
  {
  }

  /** No table is weak: no metatable asks for it. */
  ghost predicate NoModes(objs: Heap) {
    forall r :: r in objs && objs[r].Table? ==> objs[r].mode == STRONG
  }

  /** Sweeping leaves tables and strings as they are, if it leaves them at all. */
  ghost predicate BodiesKept(s: State, s': State) {
    forall r :: r in s'.objs && (s'.objs[r].Table? || s'.objs[r].Str?) ==> r in s.objs && s'.objs[r] == s.objs[r]
  }

  lemma CloseOneBodies(s: State, t: Ref)
    requires CanClose(s.objs, t)
    ensures BodiesKept(s, CloseOne(s, t))
  {
    CloseHead(s, t);
    hide CloseOne;
  }

  lemma {:induction false} CloseUpvalsBodies(s: State, t: Ref, level: nat)
    requires t in s.objs && s.objs[t].Thread? && UvListOk(s.objs, t)
    ensures BodiesKept(s, CloseUpvals(s, t, level))
    decreases |s.objs[t].openupval|
  {
    var l := s.objs[t].openupval;
    if l != [] && Level(s.objs, l[0]) >= level {
      CloseOneList(s, t);
      CloseOneBodies(s, t);
      hide CloseOne;
      CloseUpvalsBodies(CloseOne(s, t), t, level);
    }
  }

  lemma SweepOneBodies(s: State)
    requires s.sweepgc < |s.rootgc|
    ensures BodiesKept(s, SweepOne(s))
  {
    var r := s.rootgc[s.sweepgc];
    var s1 := if ThreadAt(s.objs, r) then SweepUpvals(s, r) else s;
    assert BodiesKept(s, s1);
    if HasUpvals(s1, r) {
      CloseUpvalsBodies(s1, r, 0);
    }
    hide CloseUpvals, SweepUpvals, Doomed;
  }

  lemma {:induction false} SweepListBodies(s: State, count: nat)
    ensures BodiesKept(s, SweepList(s, count))
    decreases count
  {
    hide SweepOne;
    if count > 0 && s.sweepgc < |s.rootgc| {
      SweepOneBodies(s);
      SweepListBodies(SweepOne(s), count - 1);
    }
  }

  predicate Sweeping(p: Phase) {
    p == GCSsweepstring || p == GCSsweep || p == GCSfinalize
  }

  lemma SweepBodies(s: State)
    requires Sweeping(s.phase)
    ensures BodiesKept(s, SingleStep(s))
  {
    if s.phase == GCSsweep {
      SweepListBodies(s, GCSWEEPMAX);
      hide SweepList;
    }
  }

  lemma SweepPhases(s: State)
    requires Inv(s) && Sweeping(s.phase)
    ensures s.phase != GCSfinalize ==> Sweeping(SingleStep(s).phase)
    ensures s.phase == GCSfinalize ==> SingleStep(s).phase == GCSpause
  {
    hide Inv, SweepList, SweepBucket;
    if s.phase == GCSsweep {
      SweepListInv(s, GCSWEEPMAX);
    } else if s.phase == GCSsweepstring && s.sweepstrgc < |s.strt| {
      BucketNext(s);
    }
  }

  lemma BucketNext(s: State)
    requires s.sweepstrgc < |s.strt|
    ensures SweepBucket(s).phase == s.phase || SweepBucket(s).phase == GCSsweep
  {
  }

  lemma EndWhite(s: State)
    requires Inv(s) && (s.phase == GCSfinalize || s.phase == GCSpause)
    ensures AllWhite(s.m.color, s.white)
  {
  }

  /** Sweeping to the end frees the dead, and nothing else. */
  lemma {:induction false} SweepUntil(s: State, stop: Phase)
    requires Inv(s) && Sweeping(s.phase) && (stop == GCSfinalize || stop == GCSpause)
    ensures var s' := StepUntil(s, stop);
            && s'.phase == stop && Inv(s') && KeepsLive(s, s') && BodiesKept(s, s')
            && AllWhite(s'.m.color, s'.white)
    decreases PhaseRank(s.phase), WhitesLeft(s), WorkLeft(s)
  {
    hide SingleStep, Inv, KeepsLive, AllWhite;
    KeepsItself(s);
    if s.phase == stop {
      EndWhite(s);
    } else {
      SingleStepInv(s);
      StepDecreases(s);
      SweepBodies(s);
      SweepPhases(s);
      var s1 := SingleStep(s);
      if s.phase != GCSfinalize {
        SweepUntil(s1, stop);
        KeepsLiveTrans(s, s1, StepUntil(s1, stop));
      } else {
        EndWhite(s1);
      }
    }
  }

  // ---------------------------------------------------------------- marking exactly what can be reached

  lemma {:induction false} PropagateAllFrame(objs: Heap, m: Marks)
    requires NoModes(objs) && m.weak == []
    ensures PropagateAll(objs, m).weak == []
    decreases Whites(m.color), |m.gray|
  {
    if m.gray != [] {
      PropagateMarkDecreases(objs, m);
      if m.gray[0] in objs {
        MarkAllGrows(objs, Popped(objs, m), StrongVals(objs, m.gray[0]));
      }
      PropagateAllFrame(objs, PropagateMark(objs, m));
    }
  }

  lemma {:induction false} RemarkWithin(objs: Heap, m: Marks, uvs: seq<Ref>, within: iset<Ref>)
    requires NoModes(objs) && StronglyClosed(objs, within) && MarkedWithin(m.color, within)
    ensures MarkedWithin(Remark(objs, m, uvs).color, within)
    ensures Remark(objs, m, uvs).weak == m.weak
    decreases |uvs|
  {
    if uvs != [] {
      var uv := uvs[0];
      var m1 := if uv in objs && uv in m.color && m.color[uv].Gray? then MarkAll(objs, m, AllVals(objs, uv)) else m;
      if uv in objs && uv in m.color && m.color[uv].Gray? {
        RemarkOneWithin(objs, m, uv, within);
      }
      hide MarkedWithin;
      RemarkWithin(objs, m1, uvs[1..], within);
    }
  }

  lemma NoModesStrong(objs: Heap, x: Ref)
    requires NoModes(objs) && x in objs
    ensures !IsWeak(objs, objs[x]) && StrongVals(objs, x) == AllVals(objs, x)
  {
    StrongWhenNotWeak(objs, x);
  }

  lemma RemarkOneWithin(objs: Heap, m: Marks, uv: Ref, within: iset<Ref>)
    requires NoModes(objs) && StronglyClosed(objs, within) && MarkedWithin(m.color, within) && NonWhite(m.color, uv)
      && uv in objs
    ensures MarkedWithin(MarkAll(objs, m, AllVals(objs, uv)).color, within)
    ensures MarkAll(objs, m, AllVals(objs, uv)).weak == m.weak
  {
    NoModesStrong(objs, uv);
    assert forall c :: Obj(c) in AllVals(objs, uv) ==> RefersStrongly(objs, uv, c);
    MarkAllWithin(objs, m, AllVals(objs, uv), within);
    MarkAllGrows(objs, m, AllVals(objs, uv));
  }

  lemma RootsWithin(objs: Heap, roots: Roots, within: iset<Ref>)
    requires StronglyClosed(objs, within)
    requires forall r :: (r == roots.mainthread || r == roots.running || Obj(r) == roots.registry || Obj(r) in roots.mt)
                         ==> r in within
    ensures forall c :: Obj(c) in RootVals(objs, roots) ==> c in within
    ensures forall c :: Obj(c) in [Obj(roots.running)] + roots.mt ==> c in within
  {
    forall c | Obj(c) == MainGlobals(objs, roots)
      ensures c in within
    {
      assert RefersStrongly(objs, roots.mainthread, c);
    }
  }

  lemma MarkUpvalsWithin(objs: Heap, m: Marks, white: bool, uvhead: seq<Ref>, within: iset<Ref>)
    requires NoModes(objs) && StronglyClosed(objs, within) && MarkedWithin(m.color, within) && m.weak == []
    requires MarkInv(objs, m, white) && m.gray == []
    requires forall r :: r in objs && IsOpen(objs[r]) ==> r in uvhead
    ensures MarkedWithin(MarkUpvals(objs, m, uvhead).color, within) && MarkUpvals(objs, m, uvhead).weak == []
  {
    var pend := SetOf(m.grayagain) + SetOf(m.weak);
    CoveredAtStart(objs, m, white, uvhead);
    RemarkInv(objs, m, white, uvhead, pend);
    RemarkWithin(objs, m, uvhead, within);
    hide MarkInv, StronglyClosed, MarkedWithin;
    PropagateAllWithin(objs, Remark(objs, m, uvhead), white, within);
    PropagateAllFrame(objs, Remark(objs, m, uvhead));
  }

  lemma MarkRunningWithin(objs: Heap, m: Marks, white: bool, roots: Roots, within: iset<Ref>)
    requires NoModes(objs) && StronglyClosed(objs, within) && MarkedWithin(m.color, within) && m.weak == []
    requires MarkInv(objs, m, white) && m.gray == [] && ValsIn(objs, [Obj(roots.running)] + roots.mt)
    requires forall c :: Obj(c) in [Obj(roots.running)] + roots.mt ==> c in within
    ensures MarkedWithin(MarkRunning(objs, m, roots).color, within) && MarkRunning(objs, m, roots).weak == []
  {
    var m1 := Marks(m.color, m.weak, m.grayagain, []);
    var todo := [Obj(roots.running)] + roots.mt;
    SwapLists(objs, m, m1, white);
    MarkedInv(objs, m1, todo, white);
    MarkAllWithin(objs, m1, todo, within);
    MarkAllGrows(objs, m1, todo);
    hide MarkInv, StronglyClosed, MarkedWithin;
    PropagateAllWithin(objs, MarkAll(objs, m1, todo), white, within);
    PropagateAllFrame(objs, MarkAll(objs, m1, todo));
  }

  lemma MarkAgainWithin(objs: Heap, m: Marks, white: bool, within: iset<Ref>)
    requires NoModes(objs) && StronglyClosed(objs, within) && MarkedWithin(m.color, within) && m.weak == []
    requires MarkInv(objs, m, white) && m.gray == []
    ensures MarkedWithin(MarkAgain(objs, m).color, within) && MarkAgain(objs, m).weak == []
  {
    var m1 := Marks(m.color, m.grayagain, [], m.weak);
    SwapLists(objs, m, m1, white);
    hide MarkInv, StronglyClosed;
    PropagateAllWithin(objs, m1, white, within);
    PropagateAllFrame(objs, m1);
  }

  lemma AtomicWithin(s: State, within: iset<Ref>)
    requires Inv(s) && s.phase == GCSpropagate && s.m.gray == [] && s.m.weak == [] && NoModes(s.objs)
    requires StronglyClosed(s.objs, within) && MarkedWithin(s.m.color, within)
    requires forall r :: IsRoot(s, r) ==> r in within
    ensures MarkedWithin(Atomic(s).m.color, within) && Atomic(s).objs == s.objs
  {
    hide StrOk, RootListOk, FixedOk, NeverBlack;
    RootValsIn(s);
    RootsWithin(s.objs, s.roots, within);
    var m1 := MarkUpvals(s.objs, s.m, s.uvhead);
    var m2 := MarkRunning(s.objs, m1, s.roots);
    MarkUpvalsInv(s.objs, s.m, s.white, s.uvhead);
    MarkUpvalsWithin(s.objs, s.m, s.white, s.uvhead, within);
    hide UvOk;
    MarkRunningInv(s.objs, m1, s.white, s.roots);
    MarkRunningWithin(s.objs, m1, s.white, s.roots, within);
    MarkAgainInv(s.objs, m2, s.white);
    MarkAgainWithin(s.objs, m2, s.white, within);
    hide MarkInv, MarkUpvals, MarkRunning, MarkAgain, MarkedWithin;
    assert Atomic(s).m.color == AtomicMark(s.objs, s.m, s.roots, s.uvhead).color;
  }

  // ---------------------------------------------------------------- a whole cycle without the program

  /** Propagation runs until the gray list is empty, and then comes the atomic step. */
  lemma {:induction false} MarkUntil(s: State, within: iset<Ref>) returns (s1: State)
    requires Inv(s) && s.phase == GCSpropagate && s.m.weak == [] && NoModes(s.objs)
    requires StronglyClosed(s.objs, within) && MarkedWithin(s.m.color, within)
    requires forall r :: IsRoot(s, r) ==> r in within
    ensures s1 == s.(m := s1.m) && s1.m.gray == [] && s1.m.weak == [] && MarkedWithin(s1.m.color, within)
    ensures Inv(s1) && Inv(SingleStep(s1))
    ensures StepUntil(s, GCSpause) == StepUntil(SingleStep(s1), GCSpause)
    decreases Whites(s.m.color), |s.m.gray|
  {
    hide Inv, SingleStep, PropagateMark, MarkedWithin, NoModes, StronglyClosed;
    SingleStepInv(s);
    StepDecreases(s);
    if s.m.gray == [] {
      s1 := s;
    } else {
      MarkStepWithin(s, within);
      PropagateMarkDecreases(s.objs, s.m);
      s1 := MarkUntil(SingleStep(s), within);
    }
  }

  lemma MarkStepWithin(s: State, within: iset<Ref>)
    requires Inv(s) && s.phase == GCSpropagate && s.m.weak == [] && NoModes(s.objs) && s.m.gray != []
    requires StronglyClosed(s.objs, within) && MarkedWithin(s.m.color, within)
    ensures var s' := SingleStep(s);
            && s' == s.(m := PropagateMark(s.objs, s.m)) && s'.m.weak == [] && MarkedWithin(s'.m.color, within)
  {
    hide StrOk, RootListOk, FixedOk, NeverBlack, UvOk;
    HeadIn(s.objs, s.m, s.white);
    hide MarkInv;
    NoModesStrong(s.objs, s.m.gray[0]);
    MarkAllGrows(s.objs, Popped(s.objs, s.m), StrongVals(s.objs, s.m.gray[0]));
    PropagateMarkWithin(s.objs, s.m, within);
  }

  ghost function ReachSet(s: State): iset<Ref> {
    iset r | Reach(s, r)
  }

  lemma ReachSetClosed(s: State)
    ensures StronglyClosed(s.objs, ReachSet(s))
    ensures forall r :: IsRoot(s, r) ==> r in ReachSet(s)
  {
    forall r, c | r in ReachSet(s) && RefersStrongly(s.objs, r, c)
      ensures c in ReachSet(s)
    {
      StrongIsAll(s.objs, r, c);
      ReachStep(s, r, c);
    }
    forall r | IsRoot(s, r)
      ensures r in ReachSet(s)
    {
      ReachRoot(s, r);
    }
  }

  lemma StartCycleWithin(s: State)
    requires Inv(s) && AllWhite(s.m.color, s.white)
    ensures MarkedWithin(StartCycle(s).m.color, ReachSet(s)) && StartCycle(s).m.weak == []
      && StartCycle(s).objs == s.objs
  {
    hide Struct, RefsLive, RootsLive, PhaseInv;
    var m0 := Marks(s.m.color, [], [], []);
    ReachSetClosed(s);
    RootsWithin(s.objs, s.roots, ReachSet(s));
    assert MarkedWithin(m0.color, ReachSet(s));
    hide AllWhite, ReachSet;
    MarkAllWithin(s.objs, m0, RootVals(s.objs, s.roots), ReachSet(s));
    MarkAllGrows(s.objs, m0, RootVals(s.objs, s.roots));
  }

  /** After the atomic step of an undisturbed cycle the live objects are exactly those that can be reached. */
  lemma AtomicExact(s: State, s1: State, r: Ref)
    requires Inv(s1) && s1.phase == GCSpropagate && s1.m.gray == [] && s1.m.weak == [] && NoModes(s1.objs)
    requires MarkedWithin(s1.m.color, ReachSet(s)) && s1.objs == s.objs && s1.roots == s.roots
    ensures Live(Atomic(s1), r) <==> Reach(s, r)
    ensures Atomic(s1).objs == s.objs
  {
    ReachSetClosed(s);
    assert forall x :: IsRoot(s1, x) ==> IsRoot(s, x);
    AtomicWithin(s1, ReachSet(s));
    AtomicInv(s1);
    var s2 := Atomic(s1);
    assert s2.objs == s.objs && s2.roots == s.roots;
    hide Atomic, Struct, PhaseInv, RefsLive, RootsLive;
    if Reach(s, r) {
      var p :| IsPath(s.objs, p) && IsRoot(s, p[0]) && p[|p| - 1] == r;
      assert IsRoot(s2, p[0]) && IsPath(s2.objs, p);
      ReachLive(s2, r);
    }
  }

  lemma CycleExact(s: State)
    requires Inv(s) && AllWhite(s.m.color, s.white) && NoModes(s.objs)
    ensures Inv(StartCycle(s))
    ensures var s' := StepUntil(StartCycle(s), GCSpause);
            && Inv(s') && s'.phase == GCSpause
            && (forall r :: r in s'.objs <==> Reach(s, r) || r in s.fixed)
            && (forall r, c :: Reach(s, r) ==> (Refers(s'.objs, r, c) <==> Refers(s.objs, r, c)))
  {
    hide Inv, StartCycle, NoModes, StronglyClosed, MarkedWithin, AllWhite, KeepsLive, Reach, SingleStep, ReachSet;
    StartCycleInv(s);
    StartCycleWithin(s);
    var s0 := StartCycle(s);
    StartCycleFrame(s);
    ReachSetClosed(s);
    var s1 := MarkUntil(s0, ReachSet(s));
    var s2 := SingleStep(s1);
    AtomicFrame(s1);
    forall r
      ensures Live(s2, r) <==> Reach(s, r)
    {
      AtomicExact(s, s1, r);
    }
    AtomicExact(s, s1, s.roots.mainthread);
    SweepUntil(s2, GCSpause);
    SweptExact(s, s2, StepUntil(s2, GCSpause));
  }

  lemma StartCycleFrame(s: State)
    ensures StartCycle(s) == s.(m := StartCycle(s).m, phase := GCSpropagate)
  {
  }

  lemma AtomicFrame(s: State)
    requires s.phase == GCSpropagate && s.m.gray == []
    ensures SingleStep(s) == Atomic(s) && Atomic(s).phase == GCSsweepstring && Atomic(s).fixed == s.fixed
  {
  }

  lemma SweptExact(s: State, s2: State, s': State)
    requires KeepsLive(s2, s') && Inv(s') && AllWhite(s'.m.color, s'.white)
    requires forall r :: (Live(s2, r) <==> Reach(s, r))
    requires s2.objs == s.objs && s2.fixed == s.fixed
    ensures forall r :: r in s'.objs <==> Reach(s, r) || r in s.fixed
    ensures forall r, c :: Reach(s, r) ==> (Refers(s'.objs, r, c) <==> Refers(s.objs, r, c))
  {
    hide UvOk, StrOk, RootListOk, RefsLive, RootsLive, PhaseInv, Reach;
    assert forall r :: r in s'.objs <==> Live(s', r);
  }

  /**
    A full collection, whatever phase it starts in and even when it gives up a half-done mark,
    leaves exactly the objects that can be reached and the fixed ones, and keeps what they refer to.
   */
  lemma FullGCExact(s: State)
    requires Inv(s) && NoModes(s.objs)
    ensures Inv(FullGC(s)) && FullGC(s).phase == GCSpause
    ensures forall r :: r in FullGC(s).objs <==> Reach(s, r) || r in s.fixed
    ensures forall r, c :: Reach(s, r) ==> (Refers(FullGC(s).objs, r, c) <==> Refers(s.objs, r, c))
  {
    AbandonInv(s);
    var s1 := Abandon(s);
    SweepUntil(s1, GCSfinalize);
    var s2 := StepUntil(s1, GCSfinalize);
    assert NoModes(s2.objs);
    KeepsLiveTrans(s, s1, s2);
    assert forall r :: Reach(s, r) ==> Live(s, r) by {
      forall r | Reach(s, r)
        ensures Live(s, r)
      {
        ReachLive(s, r);
      }
    }
    assert forall r :: Reach(s, r) <==> Reach(s2, r) by {
      forall r
        ensures Reach(s, r) <==> Reach(s2, r)
      {
        SameReach(s, s2, r);
      }
    }
    assert forall x, c :: Live(s, x) ==> (Refers(s2.objs, x, c) <==> Refers(s.objs, x, c));
    hide Struct, RefsLive, RootsLive, PhaseInv, KeepsLive, NoModes, AllWhite, Reach, StepUntil;
    CycleExact(s2);
  }
}

/** Sweeping `rootgc`, a few objects at a time (lgc.c: sweeplist, singlestep's GCSsweep case). */
module GcSweepList {
  import opened GcHeap
  import opened GcMark
  import opened GcCycle
  import opened GcAtomic
  import opened GcInv
  import opened GcMutator
  import opened GcAlloc
  import opened GcUpval
  import opened GcStrings
  import opened GcSweep

  predicate ThreadAt(objs: Heap, r: Ref) {
    r in objs && objs[r].Thread?
  }

  ghost predicate HasUpvals(s: State, r: Ref) {
    ThreadAt(s.objs, r) && UvListOk(s.objs, r)
  }

  /** Free `r`; a thread first closes the upvalues that outlive it. */
  ghost function FreeObj(s: State, r: Ref): State {
    Unlink(if HasUpvals(s, r) then CloseUpvals(s, r, 0) else s, r)
  }

  ghost function SweepOne(s: State): State
    requires s.sweepgc < |s.rootgc|
  {
    var r := s.rootgc[s.sweepgc];
    var s1 := if ThreadAt(s.objs, r) then SweepUpvals(s, r) else s;
    if Doomed(s1.m.color, s1.fixed, s1.white, r) then FreeObj(s1, r) else SweepKeep(s1, r)
  }

  ghost function SweepList(s: State, count: nat): State
    decreases count
  {
    if count == 0 || s.sweepgc >= |s.rootgc| then s else SweepList(SweepOne(s), count - 1)
  }

  function CheckSizes(s: State): State {
    if s.nuse < |s.strt| / 4 && |s.strt| > MINSTRTABSIZE * 2 then Resize(s, |s.strt| / 2) else s
  }

  ghost function SweepStep(s: State): State {
    var s1 := SweepList(s, GCSWEEPMAX);
    if s1.sweepgc >= |s1.rootgc| then CheckSizes(s1).(phase := GCSfinalize) else s1
  }

  // ---------------------------------------------------------------- freeing one object

  lemma UnlinkUvOk(objs: Heap, uvhead: seq<Ref>, r: Ref)
    requires UvOk(objs, uvhead) && r in objs && InRoot(objs[r]) && (objs[r].Thread? ==> objs[r].openupval == [])
    ensures UvOk(objs - {r}, uvhead)
  {
    var objs' := objs - {r};
    forall t | t in objs' && objs'[t].Thread?
      ensures UvListOk(objs', t)
    {
      assert UvListOk(objs, t);
      var l := objs[t].openupval;
      assert forall i :: 0 <= i < |l| ==> l[i] in l && OpenAt(objs, l[i], t) && l[i] != r;
      assert forall i :: 0 <= i < |l| ==> Level(objs', l[i]) == Level(objs, l[i]);
    }
  }

  lemma {:induction false} WithoutPrefix(l: seq<Ref>, r: Ref, n: nat)
    requires n <= |l| && r !in l[..n]
    ensures n <= |Without(l, r)| && Without(l, r)[..n] == l[..n]
  {
    if n > 0 {
      assert l[..n] == [l[0]] + l[1..][..n - 1];
      WithoutPrefix(l[1..], r, n - 1);
      assert Without(l, r)[..n] == [l[0]] + Without(l[1..], r)[..n - 1];
    }
  }

  lemma UnlinkStruct(s: State, r: Ref)
    requires Struct(s) && r in s.objs && InRoot(s.objs[r]) && (s.objs[r].Thread? ==> s.objs[r].openupval == [])
    requires r !in s.fixed && r != s.roots.running
    ensures Struct(Unlink(s, r))
  {
    hide UvOk, StrOk, RootListOk, FixedOk, NeverBlack;
    var s' := Unlink(s, r);
    UnlinkUvOk(s.objs, s.uvhead, r);
    SameStringsOk(s.objs, s'.objs, s.strt, s.nuse);
    UnlinkSmall(s, r);
    hide Without;
  }

  lemma UnlinkSmall(s: State, r: Ref)
    requires RootListOk(s.objs, s.rootgc) && FixedOk(s.objs, s.roots, s.fixed) && NeverBlack(s.objs, s.m.color)
    requires s.m.color.Keys == s.objs.Keys && r !in s.fixed && r != s.roots.running
    ensures var s' := Unlink(s, r);
            RootListOk(s'.objs, s'.rootgc) && FixedOk(s'.objs, s.roots, s.fixed) && NeverBlack(s'.objs, s'.m.color)
            && s'.m.color.Keys == s'.objs.Keys
  {
    hide NoDup, Without;
    WithoutSpec(s.rootgc, r);
    hide Traversable, IsOpen;
  }

  lemma UnlinkPhase(s: State, r: Ref)
    requires PhaseInv(s) && s.phase == GCSsweep && Dead(s, r) && r in s.objs && InRoot(s.objs[r]) && NoDup(s.rootgc)
    requires UvOk(s.objs, s.uvhead)
    ensures PhaseInv(Unlink(s, r))
  {
    hide UvOk;
    var s' := Unlink(s, r);
    WithoutSpec(s.rootgc, r);
    assert forall i :: 0 <= i < s.sweepgc ==> s.rootgc[i] != r;
    WithoutPrefix(s.rootgc, r, s.sweepgc);
    forall i | 0 <= i < s'.sweepgc
      ensures Swept(s'.objs, s'.m.color, s'.white, s'.rootgc[i])
    {
      assert s'.rootgc[i] == s.rootgc[i] by {
        assert s'.rootgc[..s.sweepgc][i] == s.rootgc[..s.sweepgc][i];
      }
      assert Swept(s.objs, s.m.color, s.white, s.rootgc[i]);
      assert forall u :: CurWhite(s.m.color, s.white, u) ==> CurWhite(s'.m.color, s.white, u);
    }
  }

  lemma UnlinkRefs(s: State, r: Ref)
    requires RefsLive(s) && RootsLive(s) && UvOk(s.objs, s.uvhead) && Dead(s, r) && r in s.objs
    requires s.objs[r].Thread? ==> s.objs[r].openupval == []
    ensures RefsLive(Unlink(s, r)) && RootsLive(Unlink(s, r)) && KeepsLive(s, Unlink(s, r))
  {
    hide RefsLive, RootsLive;
    var s' := Unlink(s, r);
    FreedRefs(s, s');
    FreedKeepsLive(s, s');
  }

  lemma UnlinkInv(s: State, r: Ref)
    requires Inv(s) && s.phase == GCSsweep && r in s.objs && InRoot(s.objs[r])
    requires Doomed(s.m.color, s.fixed, s.white, r) && (s.objs[r].Thread? ==> s.objs[r].openupval == [])
    ensures Inv(Unlink(s, r)) && KeepsLive(s, Unlink(s, r))
  {
    hide KeepsLive;
    assert r != s.roots.running by {
      assert IsRoot(s, s.roots.running) && Live(s, s.roots.running);
    }
    UnlinkRefs(s, r);
    UnlinkPhase(s, r);
    UnlinkStruct(s, r);
    hide Struct, PhaseInv, RefsLive, RootsLive;
  }

  /** Closing the upvalues of a dead thread leaves the thread as it is, to be freed. */
  lemma {:induction false} CloseAllKeeps(s: State, t: Ref)
    requires s.phase == GCSsweep && ThreadAt(s.objs, t) && UvListOk(s.objs, t)
    ensures var s' := CloseUpvals(s, t, 0);
            && s'.phase == s.phase && s'.white == s.white && s'.fixed == s.fixed
            && ThreadAt(s'.objs, t) && s'.objs[t].openupval == []
            && (t in s.m.color ==> t in s'.m.color && s'.m.color[t] == s.m.color[t])
    decreases |s.objs[t].openupval|
  {
    var l := s.objs[t].openupval;
    if l != [] {
      assert l[0] in l;
      CloseOneList(s, t);
      var s1 := CloseOne(s, t);
      assert l[0] != t;
      CloseAllKeeps(s1, t);
    }
  }

  lemma FreeObjInv(s: State, r: Ref)
    requires Inv(s) && s.phase == GCSsweep && r in s.objs && InRoot(s.objs[r])
    requires Doomed(s.m.color, s.fixed, s.white, r)
    ensures Inv(FreeObj(s, r)) && KeepsLive(s, FreeObj(s, r))
  {
    hide KeepsLive, CloseUpvals, Inv, UvListOk;
    if s.objs[r].Thread? {
      InvUvList(s, r);
      FreeThreadInv(s, r);
    } else {
      UnlinkInv(s, r);
    }
  }

  lemma InvUvList(s: State, r: Ref)
    requires Inv(s) && r in s.objs && s.objs[r].Thread?
    ensures UvListOk(s.objs, r)
  {
  }

  lemma FreeThreadInv(s: State, r: Ref)
    requires Inv(s) && s.phase == GCSsweep && r in s.objs && s.objs[r].Thread? && UvListOk(s.objs, r)
    requires Doomed(s.m.color, s.fixed, s.white, r)
    ensures Inv(FreeObj(s, r)) && KeepsLive(s, FreeObj(s, r))
  {
    hide Inv, KeepsLive, UvListOk, CloseUpvals;
    CloseUpvalsInv(s, r, 0);
    CloseUpvalsKeepsLive(s, r, 0);
    CloseAllKeeps(s, r);
    UnlinkInv(CloseUpvals(s, r, 0), r);
    hide Unlink;
    KeepsLiveTrans(s, CloseUpvals(s, r, 0), FreeObj(s, r));
  }

  // ---------------------------------------------------------------- keeping one object

  lemma KeepSwept(s: State, r: Ref)
    requires r in s.m.color
    ensures SweptKept(s, SweepKeep(s, r))
  {
  }

  lemma KeepPhase(s: State, r: Ref)
    requires PhaseInv(s) && s.phase == GCSsweep && s.sweepgc < |s.rootgc| && s.rootgc[s.sweepgc] == r && r in s.m.color
    requires ThreadAt(s.objs, r) ==> forall u :: u in s.objs[r].openupval ==> CurWhite(s.m.color, s.white, u)
    ensures PhaseInv(SweepKeep(s, r))
  {
    var s' := SweepKeep(s, r);
    KeepSwept(s, r);
    assert Swept(s'.objs, s'.m.color, s'.white, r);
    hide Swept;
  }

  lemma KeepRefs(s: State, r: Ref)
    requires RefsLive(s) && RootsLive(s) && Live(s, r)
    ensures RefsLive(SweepKeep(s, r)) && RootsLive(SweepKeep(s, r)) && KeepsLive(s, SweepKeep(s, r))
  {
    hide RefsLive, RootsLive;
    RefsKept(s, SweepKeep(s, r));
  }

  lemma KeepLive(s: State, r: Ref)
    requires RootListOk(s.objs, s.rootgc) && FixedOk(s.objs, s.roots, s.fixed) && RootsLive(s)
    requires r in s.rootgc && s.m.color.Keys == s.objs.Keys && !Doomed(s.m.color, s.fixed, s.white, r)
    ensures Live(s, r)
  {
    assert r in s.objs && InRoot(s.objs[r]);
    assert r in s.fixed ==> r == s.roots.mainthread && IsRoot(s, r);
  }

  lemma KeepInv(s: State, r: Ref)
    requires Inv(s) && s.phase == GCSsweep && s.sweepgc < |s.rootgc| && s.rootgc[s.sweepgc] == r
    requires !Doomed(s.m.color, s.fixed, s.white, r)
    requires ThreadAt(s.objs, r) ==> forall u :: u in s.objs[r].openupval ==> CurWhite(s.m.color, s.white, u)
    ensures Inv(SweepKeep(s, r)) && KeepsLive(s, SweepKeep(s, r))
  {
    hide KeepsLive, UvOk, StrOk, RootListOk, FixedOk, PhaseInv, RefsLive, RootsLive;
    KeepLive(s, r);
    KeepRefs(s, r);
    KeepPhase(s, r);
    assert NeverBlack(s.objs, SweepKeep(s, r).m.color);
    hide NeverBlack;
  }

  lemma SweepUpvalsKeeps(s: State, r: Ref)
    requires UvOk(s.objs, s.uvhead) && FixedOk(s.objs, s.roots, s.fixed) && ThreadAt(s.objs, r)
    ensures var s1 := SweepUpvals(s, r);
            && ThreadAt(s1.objs, r) && s1.phase == s.phase && s1.rootgc == s.rootgc && s1.sweepgc == s.sweepgc
  {
    UpvalsShape(s, r);
    hide UvOk, FixedOk, Minus, Kept;
  }

  lemma SweepOneInv(s: State)
    requires Inv(s) && s.phase == GCSsweep && s.sweepgc < |s.rootgc|
    ensures Inv(SweepOne(s)) && KeepsLive(s, SweepOne(s))
  {
    KeepsItself(s);
    hide KeepsLive;
    var r := s.rootgc[s.sweepgc];
    assert r in s.rootgc && r in s.objs && InRoot(s.objs[r]);
    var s1 := if ThreadAt(s.objs, r) then SweepUpvals(s, r) else s;
    if ThreadAt(s.objs, r) {
      SweepUpvalsInv(s, r);
      UpvalsSwept(s, r);
      SweepUpvalsKeeps(s, r);
    }
    hide Inv, SweepUpvals, FreeObj, SweepKeep, SweptKept, Doomed;
    if Doomed(s1.m.color, s1.fixed, s1.white, r) {
      FreeObjInv(s1, r);
    } else {
      KeepInv(s1, r);
    }
    KeepsLiveTrans(s, s1, SweepOne(s));
  }

  // ---------------------------------------------------------------- a step of the sweep

  lemma {:induction false} ClosePhaseSame(s: State, t: Ref, level: nat)
    requires ThreadAt(s.objs, t) && UvListOk(s.objs, t)
    ensures CloseUpvals(s, t, level).phase == s.phase
    decreases |s.objs[t].openupval|
  {
    var l := s.objs[t].openupval;
    if l != [] && Level(s.objs, l[0]) >= level {
      assert l[0] in l;
      CloseOneList(s, t);
      ClosePhaseSame(CloseOne(s, t), t, level);
    }
  }

  lemma SweepOnePhase(s: State)
    requires s.sweepgc < |s.rootgc|
    ensures SweepOne(s).phase == s.phase
  {
    var r := s.rootgc[s.sweepgc];
    var s1 := if ThreadAt(s.objs, r) then SweepUpvals(s, r) else s;
    if HasUpvals(s1, r) {
      ClosePhaseSame(s1, r, 0);
    }
    hide CloseUpvals, SweepUpvals;
  }

  lemma {:induction false} SweepListInv(s: State, count: nat)
    requires Inv(s) && s.phase == GCSsweep
    ensures Inv(SweepList(s, count)) && SweepList(s, count).phase == GCSsweep && KeepsLive(s, SweepList(s, count))
    decreases count
  {
    KeepsItself(s);
    hide Inv, SweepOne, KeepsLive;
    if count > 0 && s.sweepgc < |s.rootgc| {
      SweepOneInv(s);
      SweepOnePhase(s);
      SweepListInv(SweepOne(s), count - 1);
      KeepsLiveTrans(s, SweepOne(s), SweepList(s, count));
    }
  }

  /** When the whole list has been swept, everything has the current white. */
  lemma SweepEnd(s: State)
    requires Struct(s) && PhaseInv(s) && s.phase == GCSsweep && s.sweepgc >= |s.rootgc|
    ensures AllWhite(s.m.color, s.white)
  {
    hide StrOk;
    forall r | r in s.m.color
      ensures s.m.color[r] == White(s.white)
    {
      assert r in s.objs;
      if InRoot(s.objs[r]) {
        RootSwept(s, r);
      } else if !s.objs[r].Str? {
        RootSwept(s, s.objs[r].v.thread);
      }
    }
  }

  lemma RootSwept(s: State, r: Ref)
    requires RootListOk(s.objs, s.rootgc) && PhaseInv(s) && s.phase == GCSsweep && s.sweepgc >= |s.rootgc|
    requires r in s.objs && InRoot(s.objs[r])
    ensures Swept(s.objs, s.m.color, s.white, r)
  {
    assert r in s.rootgc;
    var i :| 0 <= i < |s.rootgc| && s.rootgc[i] == r;
  }

  lemma FinalizeInv(s: State)
    requires Inv(s) && s.phase == GCSsweep && s.sweepgc >= |s.rootgc|
    ensures Inv(s.(phase := GCSfinalize))
  {
    hide Struct, AllWhite, StringsSwept, Swept;
    SweepEnd(s);
    var s' := s.(phase := GCSfinalize);
    PhaseFree(s, s');
    RefsKept(s, s');
  }

  lemma PhaseFree(s: State, s': State)
    requires Struct(s) && s' == s.(phase := s'.phase)
    ensures Struct(s')
  {
    hide StrOk, UvOk, RootListOk, FixedOk, NeverBlack;
  }

  lemma KeepsLiveFrame(s: State, s': State)
    requires s'.objs == s.objs && s'.m.color == s.m.color && s'.white == s.white && s'.roots == s.roots
      && s'.fixed == s.fixed
    ensures KeepsLive(s, s')
  {
  }

  lemma HalvedSize(s: State)
    requires Inv(s) && |s.strt| > 1
    ensures PowerOfTwo(|s.strt| / 2)
  {
    hide RootListOk, UvOk, FixedOk, RefsLive, RootsLive, PhaseInv, BucketsOk, Interned, NeverBlack;
  }

  lemma SweepStepInv(s: State)
    requires Inv(s) && s.phase == GCSsweep
    ensures Inv(SweepStep(s)) && KeepsLive(s, SweepStep(s))
  {
    hide Inv, SweepList, KeepsLive;
    SweepListInv(s, GCSWEEPMAX);
    var s1 := SweepList(s, GCSWEEPMAX);
    if s1.sweepgc >= |s1.rootgc| {
      if s1.nuse < |s1.strt| / 4 && |s1.strt| > MINSTRTABSIZE * 2 {
        HalvedSize(s1);
        ResizeInv(s1, |s1.strt| / 2);
      }
      FinalizeInv(CheckSizes(s1));
      KeepsLiveFrame(s1, CheckSizes(s1).(phase := GCSfinalize));
      KeepsLiveTrans(s, s1, SweepStep(s));
    }
  }
}

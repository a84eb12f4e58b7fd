/**
  What the atomic step keeps (lgc.c: cleartable, atomic): a weak table loses exactly the entries
  with a dead key or value, and what is held through references that are not weak stays reachable.
 */
module GcWeak {
  import opened GcHeap
  import opened GcMark
  import opened GcCycle
  import opened GcAtomic
  import opened GcInv
  import opened GcMutator
  import opened GcSteps
  import opened GcFull

  // ---------------------------------------------------------------- one table

  function KeptValue(objs: Heap, color: Colors, v: Value): Value {
    if Cleared(objs, color, v) then Nil else v
  }

  function KeptEntry(objs: Heap, color: Colors, e: Entry): Entry {
    if Cleared(objs, color, e.key) || Cleared(objs, color, e.val) then Entry(e.key, Nil) else e
  }

  /** `b'` is table `b` without its dead array values, if its values are weak, and without its dead entries. */
  ghost predicate TableCleared(objs: Heap, color: Colors, weakVal: bool, b: Body, b': Body) {
    && b.Table? && b'.Table? && b'.meta == b.meta && b'.mode == b.mode
    && |b'.arr| == |b.arr| && |b'.nodes| == |b.nodes|
    && (forall i :: 0 <= i < |b.arr| ==> b'.arr[i] == if weakVal then KeptValue(objs, color, b.arr[i]) else b.arr[i])
    && (forall i :: 0 <= i < |b.nodes| ==> b'.nodes[i] == KeptEntry(objs, color, b.nodes[i]))
  }

  /** Marking strings changes nothing about what goes. */
  lemma SameCleared(objs: Heap, c: Colors, objs': Heap, c': Colors, v: Value)
    requires StringsMarked(objs, c, c') && forall r :: (r in objs && objs[r].Str?) <==> (r in objs' && objs'[r].Str?)
    ensures Cleared(objs', c', v) <==> Cleared(objs, c, v)
  {
  }

  lemma ClearTableExact(objs: Heap, color: Colors, h: Ref)
    requires h in objs && objs[h].Table?
    ensures var b' := ClearTable(objs, color, h).0[h];
            TableCleared(objs, color, ModeOf(objs, objs[h].meta).weakVal, objs[h], b')
  {
    var b := objs[h];
    var weakVal := ModeOf(objs, b.meta).weakVal;
    ClearArrSpec(objs, color, b.arr);
    var a := if weakVal then ClearArr(objs, color, b.arr) else (b.arr, color);
    ClearNodesSpec(objs, a.1, b.nodes);
    var n := ClearNodes(objs, a.1, b.nodes);
    hide ClearArr, ClearNodes;
    if weakVal {
      forall i | 0 <= i < |b.arr|
        ensures a.0[i] == KeptValue(objs, color, b.arr[i])
      {
        assert KeptOrCleared(objs, color, a.1, b.arr[i], a.0[i]);
      }
    }
    forall i | 0 <= i < |b.nodes|
      ensures n.0[i] == KeptEntry(objs, color, b.nodes[i])
    {
      var e := b.nodes[i];
      assert EntryCleared(objs, a.1, n.1, e, n.0[i]);
      SameCleared(objs, color, objs, a.1, e.key);
      SameCleared(objs, color, objs, a.1, e.val);
    }
  }

  // ---------------------------------------------------------------- all weak tables

  lemma SameTableCleared(objs: Heap, c: Colors, objs': Heap, c': Colors, weakVal: bool, b: Body, b': Body)
    requires StringsMarked(objs, c, c') && forall r :: (r in objs && objs[r].Str?) <==> (r in objs' && objs'[r].Str?)
    requires TableCleared(objs', c', weakVal, b, b')
    ensures TableCleared(objs, c, weakVal, b, b')
  {
    hide Cleared;
    forall v
      ensures Cleared(objs', c', v) <==> Cleared(objs, c, v)
    {
      SameCleared(objs, c, objs', c', v);
    }
  }

  lemma SameMode(objs: Heap, objs': Heap, l: set<Ref>, meta: Value)
    requires Shrunk(objs, objs', l)
    ensures ModeOf(objs', meta) == ModeOf(objs, meta)
  {
    hide Refers;
  }

  /** Exactly the dead entries of every table of the list are emptied. */
  lemma {:induction false} ClearTablesExact(objs: Heap, color: Colors, l: seq<Ref>, h: Ref)
    requires color.Keys == objs.Keys && HeapIn(objs) && NoDup(l)
    requires forall x :: x in l ==> x in objs && objs[x].Table? && StrongMarked(objs, color, x)
    requires h in l
    ensures var objs' := ClearTables(objs, color, l).0;
            h in objs' && TableCleared(objs, color, ModeOf(objs, objs[h].meta).weakVal, objs[h], objs'[h])
    decreases |l|
  {
    hide TableCleared, HeapIn, Cleared;
    var h0, rest := l[0], l[1..];
    assert l == [h0] + rest;
    ClearTableSpec(objs, color, h0);
    var r1 := ClearTable(objs, color, h0);
    hide ClearTable, ModeOf;
    assert HeapIn(r1.0) by {
      ShrunkIn(objs, r1.0, {h0});
    }
    forall x | x in rest
      ensures x in r1.0 && r1.0[x].Table? && StrongMarked(r1.0, r1.1, x)
    {
      assert x in l && x != h0;
      ShrunkStrong(objs, r1.0, color, r1.1, {h0}, x);
    }
    if h == h0 {
      ClearTableExact(objs, color, h0);
      ClearTablesSpec(r1.0, r1.1, rest);
    } else {
      ClearTablesExact(r1.0, r1.1, rest, h);
      SameMode(objs, r1.0, {h0}, objs[h].meta);
      var objs' := ClearTables(objs, color, l).0;
      SameTableCleared(objs, color, r1.0, r1.1, ModeOf(objs, objs[h].meta).weakVal, objs[h], objs'[h]);
    }
  }

  lemma ShrunkIn(objs: Heap, objs': Heap, l: set<Ref>)
    requires Shrunk(objs, objs', l) && HeapIn(objs)
    ensures HeapIn(objs')
  {
  }

  // ---------------------------------------------------------------- only weak tables wait to be cleared

  ghost predicate WeakOnly(objs: Heap, weak: seq<Ref>) {
    forall r :: r in weak ==> r in objs && IsWeak(objs, objs[r])
  }

  lemma PropagateMarkWeak(objs: Heap, m: Marks)
    requires m.gray != [] && WeakOnly(objs, m.weak)
    ensures WeakOnly(objs, PropagateMark(objs, m).weak)
  {
    if m.gray[0] in objs {
      MarkAllGrows(objs, Popped(objs, m), StrongVals(objs, m.gray[0]));
    }
  }

  lemma {:induction false} PropagateAllWeak(objs: Heap, m: Marks)
    requires WeakOnly(objs, m.weak)
    ensures WeakOnly(objs, PropagateAll(objs, m).weak)
    decreases Whites(m.color), |m.gray|
  {
    hide WeakOnly, PropagateMark;
    if m.gray != [] {
      PropagateMarkDecreases(objs, m);
      PropagateMarkWeak(objs, m);
      PropagateAllWeak(objs, PropagateMark(objs, m));
    }
  }

  /** The list of weak tables is made anew in the atomic step, so its members are weak then. */
  lemma AtomicMarkWeak(objs: Heap, m: Marks, roots: Roots, uvhead: seq<Ref>)
    ensures WeakOnly(objs, AtomicMark(objs, m, roots, uvhead).weak)
  {
    var m1 := MarkUpvals(objs, m, uvhead);
    var todo := [Obj(roots.running)] + roots.mt;
    MarkAllGrows(objs, Marks(m1.color, m1.weak, m1.grayagain, []), todo);
    hide MarkUpvals, MarkAll;
    PropagateAllWeak(objs, MarkAll(objs, Marks(m1.color, m1.weak, m1.grayagain, []), todo));
    var m2 := MarkRunning(objs, m1, roots);
    PropagateAllWeak(objs, Marks(m2.color, m2.grayagain, [], m2.weak));
    hide PropagateAll;
  }

  // ---------------------------------------------------------------- the atomic step

  /** A value that the atomic step lets go: an object other than a string that will be swept. */
  ghost predicate Dropped(s': State, v: Value) {
    v.Obj? && v.ref in s'.objs && !Live(s', v.ref) && !s'.objs[v.ref].Str?
  }

  lemma DroppedIs(s: State, m: Marks, s': State, v: Value)
    requires s'.objs.Keys == s.objs.Keys && m.color.Keys == s.objs.Keys && StringsMarked(s.objs, m.color, s'.m.color)
    requires forall r :: Live(s', r) <==> NonWhite(s'.m.color, r)
    requires forall r :: r in s.objs ==> s'.objs[r].Str? == s.objs[r].Str?
    ensures Dropped(s', v) <==> Cleared(s.objs, m.color, v)
  {
  }

  /** `b'` is table `b` without the array values dropped, if its values are weak, and without the entries dropped. */
  ghost predicate LosesDropped(s': State, weakVal: bool, b: Body, b': Body) {
    && b.Table? && b'.Table? && b'.meta == b.meta && b'.mode == b.mode
    && |b'.arr| == |b.arr| && |b'.nodes| == |b.nodes|
    && (forall i :: 0 <= i < |b.arr| ==> b'.arr[i] == if weakVal && Dropped(s', b.arr[i]) then Nil else b.arr[i])
    && (forall i :: 0 <= i < |b.nodes| ==> b'.nodes[i] == if DropsEntry(s', b.nodes[i]) then Entry(b.nodes[i].key, Nil)
                                           else b.nodes[i])
  }

  ghost predicate DropsEntry(s': State, e: Entry) {
    Dropped(s', e.key) || Dropped(s', e.val)
  }

  lemma ClearedDropped(objs: Heap, color: Colors, s': State, weakVal: bool, b: Body, b': Body)
    requires TableCleared(objs, color, weakVal, b, b')
    requires forall v :: Dropped(s', v) <==> Cleared(objs, color, v)
    ensures LosesDropped(s', weakVal, b, b')
  {
    hide Dropped, Cleared;
  }

  /** What is known of the marks when the weak tables are cleared. */
  lemma AtomicFacts(s: State) returns (m: Marks)
    requires Inv(s) && AtomicNext(s)
    ensures WeakOnly(s.objs, m.weak) && NoDup(m.weak) && HeapIn(s.objs) && m.color.Keys == s.objs.Keys
    ensures forall h :: h in m.weak ==> h in s.objs && s.objs[h].Table? && StrongMarked(s.objs, m.color, h)
    ensures var s' := SingleStep(s);
            && s'.objs == ClearTables(s.objs, m.color, m.weak).0 && s'.roots == s.roots
            && Shrunk(s.objs, s'.objs, SetOf(m.weak)) && StringsMarked(s.objs, m.color, s'.m.color)
            && forall r :: Live(s', r) <==> NonWhite(s'.m.color, r)
  {
    hide StrOk, RootListOk, FixedOk, NeverBlack;
    m := AtomicMark(s.objs, s.m, s.roots, s.uvhead);
    RootValsIn(s);
    AtomicMarkInv(s.objs, s.m, s.white, s.roots, s.uvhead);
    hide UvOk;
    AtomicMarkWeak(s.objs, s.m, s.roots, s.uvhead);
    hide AtomicMark;
    AtomicInv(s);
    AtomicClosed(s.objs, m, s.white);
    WeakMarked(s.objs, m);
  }

  lemma WeakMarked(objs: Heap, m: Marks)
    requires m.gray == [] && Covered(objs, m, [], {}) && ListKinds(objs, m)
    ensures forall h :: h in m.weak ==> h in objs && objs[h].Table? && StrongMarked(objs, m.color, h)
  {
    forall h | h in m.weak
      ensures StrongMarked(objs, m.color, h)
    {
      assert IsGray(m, h) && NonWhite(m.color, h);
      assert forall c :: RefersStrongly(objs, h, c) ==> Seen(m.color, [], c);
    }
  }

  /** The atomic step leaves a table as it is, or it is weak and loses exactly what the sweep will free. */
  lemma AtomicTable(s: State, h: Ref)
    requires Inv(s) && AtomicNext(s) && h in s.objs && s.objs[h].Table?
    ensures var b, s' := s.objs[h], SingleStep(s);
            && h in s'.objs
            && (s'.objs[h] == b || (IsWeak(s.objs, b)
              && LosesDropped(s', ModeOf(s.objs, b.meta).weakVal, b, s'.objs[h])))
  {
    hide Inv, SingleStep, LosesDropped, TableCleared, StrongMarked, HeapIn, ModeOf;
    var m := AtomicFacts(s);
    var s' := SingleStep(s);
    if h in m.weak {
      ClearTablesExact(s.objs, m.color, m.weak, h);
      forall v
        ensures Dropped(s', v) <==> Cleared(s.objs, m.color, v)
      {
        DroppedIs(s, m, s', v);
      }
      ClearedDropped(s.objs, m.color, s', ModeOf(s.objs, s.objs[h].meta).weakVal, s.objs[h], s'.objs[h]);
    }
  }

  // ---------------------------------------------------------------- what stays reachable

  /** `x` holds `c`: not only as a key, a value or an array slot of a weak table. */
  ghost predicate Holds(objs: Heap, x: Ref, c: Ref) {
    Refers(objs, x, c) && (IsWeak(objs, objs[x]) ==> objs[x].meta == Obj(c))
  }

  ghost predicate HeldPath(objs: Heap, p: seq<Ref>) {
    |p| > 0 && forall i :: 0 <= i < |p| - 1 ==> Holds(objs, p[i], p[i + 1])
  }

  /** Reached from a root through objects that each hold the next. */
  ghost predicate HeldReach(s: State, r: Ref) {
    exists p: seq<Ref> :: HeldPath(s.objs, p) && IsRoot(s, p[0]) && p[|p| - 1] == r
  }

  lemma HeldIsReached(s: State, r: Ref)
    requires HeldReach(s, r)
    ensures Reach(s, r)
  {
    var p: seq<Ref> :| HeldPath(s.objs, p) && IsRoot(s, p[0]) && p[|p| - 1] == r;
    HeldPathIsPath(s.objs, p);
  }

  lemma HeldPathIsPath(objs: Heap, p: seq<Ref>)
    requires HeldPath(objs, p)
    ensures IsPath(objs, p)
  {
    assert forall i :: 0 <= i < |p| - 1 ==> Holds(objs, p[i], p[i + 1]);
  }

  lemma HeldStep(objs: Heap, objs': Heap, weak: seq<Ref>, x: Ref, c: Ref)
    requires Shrunk(objs, objs', SetOf(weak)) && WeakOnly(objs, weak) && Holds(objs, x, c)
    ensures Holds(objs', x, c)
  {
    if IsWeak(objs, objs[x]) {
      assert AllVals(objs', x)[0] == objs'[x].meta;
    } else {
      assert x !in weak && objs'[x] == objs[x];
    }
    if objs[x].Table? {
      SameMode(objs, objs', SetOf(weak), objs[x].meta);
    }
  }

  /** What is held before the atomic step can be reached, and is alive, after it. */
  lemma AtomicKeepsHeld(s: State, r: Ref)
    requires Inv(s) && AtomicNext(s) && HeldReach(s, r)
    ensures HeldReach(SingleStep(s), r) && Live(SingleStep(s), r)
  {
    hide Inv, SingleStep, Holds, StrongMarked, HeapIn;
    var m := AtomicFacts(s);
    var s' := SingleStep(s);
    var p: seq<Ref> :| HeldPath(s.objs, p) && IsRoot(s, p[0]) && p[|p| - 1] == r;
    forall i | 0 <= i < |p| - 1
      ensures Holds(s'.objs, p[i], p[i + 1])
    {
      HeldStep(s.objs, s'.objs, m.weak, p[i], p[i + 1]);
    }
    assert HeldPath(s'.objs, p) && IsRoot(s', p[0]);
    HeldIsReached(s', r);
    SingleStepInv(s);
    NoDangling(s', r);
  }

  // ---------------------------------------------------------------- every step of the collector

  lemma QuietBodies(s: State)
    requires Inv(s) && !AtomicNext(s)
    ensures BodiesKept(s, SingleStep(s))
  {
    hide Inv;
    if Sweeping(s.phase) {
      SweepBodies(s);
      hide SingleStep;
    } else {
      hide MarkRoot, PropagateMark;
    }
  }

  lemma HeldQuietly(s: State, s': State, x: Ref, c: Ref)
    requires BodiesKept(s, s') && Holds(s.objs, x, c) && Refers(s'.objs, x, c)
    ensures Holds(s'.objs, x, c)
  {
    hide AllVals;
  }

  /** No step of the collector loses what is held, weak tables or not. */
  lemma StepKeepsHeld(s: State, r: Ref)
    requires Inv(s) && HeldReach(s, r)
    ensures Inv(SingleStep(s)) && HeldReach(SingleStep(s), r)
  {
    hide Struct, PhaseInv, SingleStep, Holds, BodiesKept;
    SingleStepInv(s);
    if AtomicNext(s) {
      AtomicKeepsHeld(s, r);
    } else {
      QuietBodies(s);
      var s' := SingleStep(s);
      var p: seq<Ref> :| HeldPath(s.objs, p) && IsRoot(s, p[0]) && p[|p| - 1] == r;
      HeldPathIsPath(s.objs, p);
      PathThere(s, s', p);
      forall i | 0 <= i < |p| - 1
        ensures Holds(s'.objs, p[i], p[i + 1])
      {
        HeldQuietly(s, s', p[i], p[i + 1]);
      }
      assert HeldPath(s'.objs, p) && IsRoot(s', p[0]);
    }
  }

  /** `n` steps of the collector. */
  ghost function Steps(s: State, n: nat): State
    decreases n
  {
    if n == 0 then s else Steps(SingleStep(s), n - 1)
  }

  /** However far the collector goes on, what is held is allocated, alive and still held. */
  lemma {:induction false} CollectingKeepsHeld(s: State, n: nat, r: Ref)
    requires Inv(s) && HeldReach(s, r)
    ensures var s' := Steps(s, n); Inv(s') && HeldReach(s', r) && Live(s', r)
    decreases n
  {
    hide Inv, SingleStep, HeldReach;
    if n == 0 {
      HeldIsReached(s, r);
      NoDangling(s, r);
    } else {
      StepKeepsHeld(s, r);
      CollectingKeepsHeld(SingleStep(s), n - 1, r);
    }
  }

  lemma {:induction false} UntilKeepsHeld(s: State, stop: Phase, r: Ref)
    requires Inv(s) && HeldReach(s, r)
    ensures HeldReach(StepUntil(s, stop), r)
    decreases PhaseRank(s.phase), WhitesLeft(s), WorkLeft(s)
  {
    hide Inv, SingleStep, HeldReach;
    if s.phase != stop && s.phase != GCSpause {
      SingleStepInv(s);
      StepDecreases(s);
      StepKeepsHeld(s, r);
      UntilKeepsHeld(SingleStep(s), stop, r);
    }
  }

  lemma SameHeld(s: State, s': State, r: Ref)
    requires s'.objs == s.objs && s'.roots == s.roots && HeldReach(s, r)
    ensures HeldReach(s', r)
  {
    hide Holds;
    var p: seq<Ref> :| HeldPath(s.objs, p) && IsRoot(s, p[0]) && p[|p| - 1] == r;
    assert HeldPath(s'.objs, p) && IsRoot(s', p[0]);
  }

  /** A full collection loses nothing that is held, with weak tables too. */
  lemma FullGCKeepsHeld(s: State, r: Ref)
    requires Inv(s) && HeldReach(s, r)
    ensures HeldReach(FullGC(s), r)
  {
    hide Inv, SingleStep, StepUntil, AllWhite, KeepsLive, HeldReach, StartCycle;
    AbandonInv(s);
    SweepUntil(Abandon(s), GCSfinalize);
    SameHeld(s, Abandon(s), r);
    UntilKeepsHeld(Abandon(s), GCSfinalize, r);
    var s2 := StepUntil(Abandon(s), GCSfinalize);
    StartCycleInv(s2);
    StartCycleFrame(s2);
    SameHeld(s2, StartCycle(s2), r);
    UntilKeepsHeld(StartCycle(s2), GCSpause, r);
  }
}

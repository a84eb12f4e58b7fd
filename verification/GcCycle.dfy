/**
  The mark phase (lgc.c: propagatemark, markroot, remarkupvals, cleartable, atomic).
 */
module GcCycle {
  import opened GcHeap
  import opened GcMark

  predicate IsWeak(objs: Heap, b: Body) {
    b.Table? && ModeOf(objs, b.meta) != STRONG
  }

  /** The first gray object taken off its list; threads and weak tables wait to be traversed again. */
  function Popped(objs: Heap, m: Marks): Marks
    requires m.gray != [] && m.gray[0] in objs
  {
    var x := m.gray[0];
    if objs[x].Thread? then Marks(m.color[x := Gray], m.gray[1..], [x] + m.grayagain, m.weak)
    else if IsWeak(objs, objs[x]) then Marks(m.color[x := Gray], m.gray[1..], m.grayagain, [x] + m.weak)
    else Marks(m.color[x := Black], m.gray[1..], m.grayagain, m.weak)
  }

  /** Traverse one gray object, turning it black unless it is a thread or a weak table. */
  ghost function PropagateMark(objs: Heap, m: Marks): Marks
    requires m.gray != []
  {
    if m.gray[0] !in objs then m.(gray := m.gray[1..])
    else MarkAll(objs, Popped(objs, m), StrongVals(objs, m.gray[0]))
  }

  ghost predicate FewerWhites(m: Marks, m': Marks) {
    Whites(m'.color) < Whites(m.color) || (Whites(m'.color) == Whites(m.color) && |m'.gray| < |m.gray|)
  }

  lemma PropagateMarkDecreases(objs: Heap, m: Marks)
    requires m.gray != []
    ensures FewerWhites(m, PropagateMark(objs, m))
  {
    var x := m.gray[0];
    if x in objs {
      var m1 := Popped(objs, m);
      assert m1.color == m.color[x := m1.color[x]] && !m1.color[x].White?;
      assert Whites(m1.color) <= Whites(m.color);
      MarkAllProgress(objs, m1, StrongVals(objs, x));
    }
  }

  ghost function PropagateAll(objs: Heap, m: Marks): Marks
    decreases Whites(m.color), |m.gray|
  {
    if m.gray == [] then m
    else
      PropagateMarkDecreases(objs, m);
      PropagateAll(objs, PropagateMark(objs, m))
  }

  function MainGlobals(objs: Heap, roots: Roots): Value {
    if roots.mainthread in objs && objs[roots.mainthread].Thread? then objs[roots.mainthread].gt else Nil
  }

  function RootVals(objs: Heap, roots: Roots): seq<Value> {
    [Obj(roots.mainthread), MainGlobals(objs, roots), roots.registry] + roots.mt
  }

  ghost function MarkRoot(objs: Heap, m: Marks, roots: Roots): Marks {
    MarkAll(objs, Marks(m.color, [], [], []), RootVals(objs, roots))
  }

  /** Mark again the values of the open upvalues that are gray, in the order of the `uvhead` list. */
  ghost function Remark(objs: Heap, m: Marks, uvs: seq<Ref>): Marks
    decreases |uvs|
  {
    if uvs == [] then m
    else
      var uv := uvs[0];
      var m1 := if uv in objs && uv in m.color && m.color[uv].Gray? then MarkAll(objs, m, AllVals(objs, uv)) else m;
      Remark(objs, m1, uvs[1..])
  }

  // ---------------------------------------------------------------- the invariant of the mark phase

  predicate IsOpen(b: Body) {
    b.UpVal? && b.v.Open?
  }

  ghost predicate Disjoint(a: seq<Ref>, b: seq<Ref>) {
    forall r :: r in a ==> r !in b
  }

  /** The three lists hold each object at most once: they share `gclist`. */
  ghost predicate Unshared(m: Marks) {
    && NoDup(m.gray) && NoDup(m.grayagain) && NoDup(m.weak)
    && Disjoint(m.gray, m.grayagain) && Disjoint(m.gray, m.weak) && Disjoint(m.grayagain, m.weak)
  }

  predicate IsGray(m: Marks, r: Ref) {
    r in m.color && m.color[r].Gray?
  }

  ghost predicate ListKinds(objs: Heap, m: Marks) {
    && (forall r :: r in m.gray ==> r in objs && IsGray(m, r) && Traversable(objs[r]))
    && (forall r :: r in m.grayagain ==> r in objs && IsGray(m, r) && (objs[r].Table? || objs[r].Thread?))
    && (forall r :: r in m.weak ==> r in objs && IsGray(m, r) && objs[r].Table?)
  }

  /** The same objects, as far as lists and colours are concerned. */
  ghost predicate SameListKinds(objs: Heap, objs': Heap) {
    && objs'.Keys == objs.Keys
    && (forall x :: x in objs ==> Traversable(objs'[x]) == Traversable(objs[x]))
    && (forall x :: x in objs ==> objs'[x].Table? == objs[x].Table? && objs'[x].Thread? == objs[x].Thread?)
    && (forall x, c :: x in objs && ColorFits(objs[x], c) && !(IsOpen(objs[x]) && c.Gray?) ==> ColorFits(objs'[x], c))
  }

  ghost predicate OnList(objs: Heap, m: Marks) {
    forall r :: IsGray(m, r) && r in objs && Traversable(objs[r])
      ==> r in m.gray || r in m.grayagain || r in m.weak
  }

  /** Threads, open upvalues and strings are never black; userdata and closed upvalues never gray. */
  predicate ColorFits(b: Body, c: Color) {
    && (c.Black? ==> !b.Thread? && !IsOpen(b) && !b.Str?)
    && (c.Gray? ==> MarkedColor(b).Gray?)
  }

  /** Before the sweep there is only one kind of white. */
  ghost predicate Fits(objs: Heap, m: Marks, white: bool) {
    forall r :: r in objs && r in m.color ==>
      ColorFits(objs[r], m.color[r]) && (m.color[r].White? ==> m.color[r] == White(white))
  }

  /** Each gray object that has to be traversed is on exactly one list, once. */
  ghost predicate Lists(objs: Heap, m: Marks, white: bool) {
    && m.color.Keys == objs.Keys
    && Unshared(m) && ListKinds(objs, m) && OnList(objs, m) && Fits(objs, m, white)
  }

  ghost predicate MarkInv(objs: Heap, m: Marks, white: bool) {
    && HeapIn(objs) && Lists(objs, m, white)
    && TriColor(objs, m.color, [], {})
  }

  /** Marking keeps every marked object marked. */
  ghost predicate MoreMarked(c: Colors, c': Colors) {
    c'.Keys == c.Keys && forall r :: NonWhite(c, r) ==> NonWhite(c', r)
  }

  // ---------------------------------------------------------------- marking values

  lemma MarkedUnshared(objs: Heap, m: Marks, todo: seq<Value>)
    requires Unshared(m) && ListKinds(objs, m)
    ensures Unshared(MarkAll(objs, m, todo)) && ListKinds(objs, MarkAll(objs, m, todo))
  {
    MarkAllGray(objs, m, todo);
    MarkAllGrows(objs, m, todo);
    var m' := MarkAll(objs, m, todo);
    forall r | r in m'.gray
      ensures r in m.gray || (r in objs && Traversable(objs[r]) && r in m.color && m.color[r].White? && IsGray(m', r))
    {
      var n := |m'.gray| - |m.gray|;
      var i :| 0 <= i < |m'.gray| && m'.gray[i] == r;
      if i >= n {
        assert m'.gray[n..][i - n] == r;
      }
    }
  }

  lemma MarkedOnList(objs: Heap, m: Marks, todo: seq<Value>, white: bool)
    requires m.color.Keys == objs.Keys && OnList(objs, m) && Fits(objs, m, white)
    ensures OnList(objs, MarkAll(objs, m, todo)) && Fits(objs, MarkAll(objs, m, todo), white)
  {
    var m' := MarkAll(objs, m, todo);
    MarkAllNew(objs, m, todo);
    MarkAllGrows(objs, m, todo);
    forall r | IsGray(m', r) && r in objs && Traversable(objs[r])
      ensures r in m'.gray || r in m'.grayagain || r in m'.weak
    {
      if r in m.gray {
        SuffixMembers(m.gray, m'.gray, r);
      }
    }
  }

  lemma MarkedLists(objs: Heap, m: Marks, todo: seq<Value>, white: bool)
    requires Lists(objs, m, white)
    ensures Lists(objs, MarkAll(objs, m, todo), white)
  {
    MarkAllGrows(objs, m, todo);
    MarkedUnshared(objs, m, todo);
    MarkedOnList(objs, m, todo, white);
  }

  lemma MarkedMore(objs: Heap, m: Marks, todo: seq<Value>)
    ensures MoreMarked(m.color, MarkAll(objs, m, todo).color)
    ensures m.color.Keys == objs.Keys ==>
              forall c :: Obj(c) in todo && c in objs ==> NonWhite(MarkAll(objs, m, todo).color, c)
  {
    MarkAllGrows(objs, m, todo);
    forall c | m.color.Keys == objs.Keys && Obj(c) in todo && c in objs
      ensures NonWhite(MarkAll(objs, m, todo).color, c)
    {
      MarkAllMarks(objs, m, todo, c);
    }
  }

  lemma MarkedInv(objs: Heap, m: Marks, todo: seq<Value>, white: bool)
    requires MarkInv(objs, m, white) && ValsIn(objs, todo)
    ensures MarkInv(objs, MarkAll(objs, m, todo), white)
  {
    MarkedLists(objs, m, todo, white);
    assert TriColor(objs, m.color, todo, {});
    MarkAllTriColor(objs, m, todo, {});
  }

  // ---------------------------------------------------------------- traversing

  lemma StrongWhenNotWeak(objs: Heap, x: Ref)
    requires x in objs && !IsWeak(objs, objs[x])
    ensures StrongVals(objs, x) == AllVals(objs, x)
  {
  }

  lemma PoppedShape(objs: Heap, m: Marks)
    requires Unshared(m) && m.gray != [] && m.gray[0] in objs
    ensures Unshared(Popped(objs, m))
    ensures m.gray == [m.gray[0]] + Popped(objs, m).gray && m.gray[0] !in Popped(objs, m).gray
  {
    var x := m.gray[0];
    assert x in m.gray;
    assert m.gray == [x] + m.gray[1..];
    NoDupCons(x, m.grayagain);
    NoDupCons(x, m.weak);
  }

  lemma PoppedKinds(objs: Heap, m: Marks)
    requires ListKinds(objs, m) && Unshared(m) && m.gray != []
    ensures ListKinds(objs, Popped(objs, m))
  {
    hide Unshared, Traversable, ModeOf;
    var x := m.gray[0];
    assert x in m.gray;
    HeadOnce(m);
  }

  lemma HeadOnce(m: Marks)
    requires Unshared(m) && m.gray != []
    ensures m.gray[0] !in m.gray[1..] && m.gray[0] !in m.grayagain && m.gray[0] !in m.weak
    ensures forall r :: r in m.gray[1..] ==> r in m.gray
  {
    assert m.gray[0] in m.gray;
  }

  lemma PoppedOnList(objs: Heap, m: Marks, white: bool)
    requires ListKinds(objs, m) && OnList(objs, m) && Fits(objs, m, white) && m.gray != []
    ensures OnList(objs, Popped(objs, m)) && Fits(objs, Popped(objs, m), white)
  {
    var x := m.gray[0];
    assert x in m.gray;
    var m1 := Popped(objs, m);
    assert m.gray == [x] + m1.gray;
    forall r | IsGray(m1, r) && r in objs && Traversable(objs[r])
      ensures r in m1.gray || r in m1.grayagain || r in m1.weak
    {
      assert IsGray(m, r);
    }
  }

  lemma PoppedLists(objs: Heap, m: Marks, white: bool)
    requires Lists(objs, m, white) && m.gray != [] && m.gray[0] in objs
    ensures Lists(objs, Popped(objs, m), white)
  {
    PoppedShape(objs, m);
    PoppedKinds(objs, m);
    PoppedOnList(objs, m, white);
    hide Unshared, ListKinds, OnList, Fits;
  }

  lemma PoppedCovered(objs: Heap, m: Marks, pend: set<Ref>)
    requires m.gray != [] && m.gray[0] in objs
    requires Covered(objs, m, [], pend)
    ensures Covered(objs, Popped(objs, m), StrongVals(objs, m.gray[0]), pend)
  {
    var x := m.gray[0];
    var m1 := Popped(objs, m);
    assert m.gray == [x] + m1.gray;
    forall r, c | NonWhite(m1.color, r) && r !in m1.gray && r !in pend && RefersStrongly(objs, r, c)
      ensures Seen(m1.color, StrongVals(objs, x), c)
    {
      if r != x {
        assert NonWhite(m.color, r) && r !in m.gray;
        assert Seen(m.color, [], c);
      }
    }
  }

  lemma PoppedTriColor(objs: Heap, m: Marks)
    requires m.gray != [] && m.gray[0] in objs
    requires TriColor(objs, m.color, [], {})
    ensures TriColor(objs, Popped(objs, m).color, StrongVals(objs, m.gray[0]), {})
  {
    var x := m.gray[0];
    var m1 := Popped(objs, m);
    forall r, c | r in m1.color && m1.color[r].Black? && r !in {} && Refers(objs, r, c)
      ensures Seen(m1.color, StrongVals(objs, x), c)
    {
      if r == x {
        StrongWhenNotWeak(objs, x);
      } else {
        assert Seen(m.color, [], c);
      }
    }
  }

  lemma StrongIn(objs: Heap, x: Ref)
    requires x in objs && HeapIn(objs)
    ensures ValsIn(objs, StrongVals(objs, x))
  {
    forall c | Obj(c) in StrongVals(objs, x)
      ensures c in objs
    {
      assert RefersStrongly(objs, x, c);
      StrongIsAll(objs, x, c);
    }
  }

  lemma HeadIn(objs: Heap, m: Marks, white: bool)
    requires Lists(objs, m, white) && m.gray != []
    ensures m.gray[0] in objs && IsGray(m, m.gray[0]) && NonWhite(m.color, m.gray[0])
    ensures Popped(objs, m).color.Keys == objs.Keys
    ensures MoreMarked(m.color, Popped(objs, m).color)
  {
    assert m.gray[0] in m.gray;
  }

  lemma PropagateMarkCovered(objs: Heap, m: Marks, white: bool, pend: set<Ref>)
    requires HeapIn(objs) && Lists(objs, m, white) && m.gray != [] && Covered(objs, m, [], pend)
    ensures Covered(objs, PropagateMark(objs, m), [], pend)
  {
    HeadIn(objs, m, white);
    PoppedCovered(objs, m, pend);
    StrongIn(objs, m.gray[0]);
    hide Covered, Lists;
    MarkAllCovered(objs, Popped(objs, m), StrongVals(objs, m.gray[0]), pend);
  }

  lemma PropagateMarkMore(objs: Heap, m: Marks, white: bool)
    requires Lists(objs, m, white) && m.gray != []
    ensures MoreMarked(m.color, PropagateMark(objs, m).color)
  {
    HeadIn(objs, m, white);
    hide Lists;
    MarkedMore(objs, Popped(objs, m), StrongVals(objs, m.gray[0]));
  }

  /** Traversing one gray object keeps the invariant of the mark phase. */
  lemma PropagateMarkInv(objs: Heap, m: Marks, white: bool)
    requires MarkInv(objs, m, white) && m.gray != []
    ensures MarkInv(objs, PropagateMark(objs, m), white)
  {
    HeadIn(objs, m, white);
    PoppedLists(objs, m, white);
    PoppedTriColor(objs, m);
    StrongIn(objs, m.gray[0]);
    hide Lists, TriColor;
    MarkedLists(objs, Popped(objs, m), StrongVals(objs, m.gray[0]), white);
    MarkAllTriColor(objs, Popped(objs, m), StrongVals(objs, m.gray[0]), {});
  }

  lemma PropagateMarkWithin(objs: Heap, m: Marks, within: iset<Ref>)
    requires m.gray != [] && NonWhite(m.color, m.gray[0])
    requires StronglyClosed(objs, within) && MarkedWithin(m.color, within)
    ensures MarkedWithin(PropagateMark(objs, m).color, within)
  {
    var x := m.gray[0];
    if x in objs {
      assert forall c :: Obj(c) in StrongVals(objs, x) ==> RefersStrongly(objs, x, c);
      MarkAllWithin(objs, Popped(objs, m), StrongVals(objs, x), within);
    }
  }

  /** What propagation does to the lists of objects to be traversed again. */
  ghost predicate Again(objs: Heap, m: Marks, m': Marks) {
    && (forall r :: r in m.grayagain ==> r in m'.grayagain)
    && (forall r :: r in m'.grayagain ==> r in m.grayagain || (r in objs && objs[r].Thread?))
    && (forall r :: r in m.weak ==> r in m'.weak)
  }

  lemma PropagateMarkAgain(objs: Heap, m: Marks)
    requires m.gray != []
    ensures Again(objs, m, PropagateMark(objs, m))
  {
    if m.gray[0] in objs {
      MarkAllGrows(objs, Popped(objs, m), StrongVals(objs, m.gray[0]));
    }
  }

  lemma {:induction false} PropagateAllInv(objs: Heap, m: Marks, white: bool, pend: set<Ref>)
    requires MarkInv(objs, m, white) && Covered(objs, m, [], pend)
    ensures var m' := PropagateAll(objs, m);
            MarkInv(objs, m', white) && m'.gray == [] && Again(objs, m, m')
            && Covered(objs, m', [], pend) && MoreMarked(m.color, m'.color)
    decreases Whites(m.color), |m.gray|
  {
    if m.gray != [] {
      PropagateMarkDecreases(objs, m);
      PropagateMarkAgain(objs, m);
      PropagateMarkMore(objs, m, white);
      PropagateMarkInv(objs, m, white);
      PropagateMarkCovered(objs, m, white, pend);
      hide MarkInv, Covered, PropagateMark, Whites;
      PropagateAllInv(objs, PropagateMark(objs, m), white, pend);
    }
  }

  lemma {:induction false} PropagateAllWithin(objs: Heap, m: Marks, white: bool, within: iset<Ref>)
    requires MarkInv(objs, m, white) && StronglyClosed(objs, within) && MarkedWithin(m.color, within)
    ensures MarkedWithin(PropagateAll(objs, m).color, within)
    decreases Whites(m.color), |m.gray|
  {
    if m.gray != [] {
      PropagateMarkDecreases(objs, m);
      PropagateMarkInv(objs, m, white);
      HeadIn(objs, m, white);
      PropagateMarkWithin(objs, m, within);
      PropagateAllWithin(objs, PropagateMark(objs, m), white, within);
    }
  }
}

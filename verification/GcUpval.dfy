/**
  Open and closed upvalues (lfunc.c: luaF_findupval, luaF_close; lgc.c: luaC_linkupval).
 */
module GcUpval {
  import opened GcHeap
  import opened GcMark
  import opened GcCycle
  import opened GcAtomic
  import opened GcInv
  import opened GcMutator
  import opened GcAlloc

  // ---------------------------------------------------------------- finding an upvalue

  /** Position of the first open upvalue of `l` at or below `level`. */
  function UvPos(objs: Heap, l: seq<Ref>, level: nat): (k: nat)
    ensures k <= |l|
    ensures forall i :: 0 <= i < k ==> Level(objs, l[i]) > level
    ensures k < |l| ==> Level(objs, l[k]) <= level
  {
    if l == [] || Level(objs, l[0]) <= level then 0 else 1 + UvPos(objs, l[1..], level)
  }

  /** The open upvalue for slot `level` of thread `t`, if there is one. */
  function FoundUpval(objs: Heap, t: Ref, level: nat): Value
    requires t in objs && objs[t].Thread?
  {
    var l := objs[t].openupval;
    var k := UvPos(objs, l, level);
    if k < |l| && Level(objs, l[k]) == level then Obj(l[k]) else Nil
  }

  /** The closures that capture one live slot share one upvalue: a dead one is brought back to life. */
  function FindUpval(s: State, t: Ref, level: nat, r: Ref): State
    requires t in s.objs && s.objs[t].Thread?
  {
    var found := FoundUpval(s.objs, t, level);
    if found.Obj? then
      if Dead(s, found.ref) then s.(m := s.m.(color := s.m.color[found.ref := White(s.white)])) else s
    else
      var th := s.objs[t];
      var l := InsertAt(th.openupval, UvPos(s.objs, th.openupval, level), r);
      s.(objs := s.objs[r := UpVal(Open(t, level))][t := Thread(th.gt, th.stack, l)],
         m := s.m.(color := s.m.color[r := White(s.white)]),
         uvhead := [r] + s.uvhead)
  }

  // ---------------------------------------------------------------- closing upvalues

  function Without(l: seq<Ref>, r: Ref): seq<Ref> {
    if l == [] then [] else if l[0] == r then l[1..] else [l[0]] + Without(l[1..], r)
  }

  /** luaC_linkupval: an upvalue just closed joins `rootgc`; if it is gray it needs its barrier now. */
  ghost function LinkUpval(s: State, u: Ref): State
    requires u in s.objs && s.objs[u].UpVal?
  {
    var s1 := s.(rootgc := InsertAt(s.rootgc, 0, u), sweepgc := ShiftSweep(s.sweepgc, 0));
    if !IsGray(s.m, u) then s1
    else if s.phase == GCSpropagate then
      s1.(m := BarrierF(s.objs, s.m.(color := s.m.color[u := Black]), s.phase, s.white, u,
        SlotVal(s.objs, s.objs[u].v)))
    else s1.(m := s.m.(color := s.m.color[u := White(s.white)]))
  }

  function ClosedHeap(objs: Heap, t: Ref, u: Ref): Heap
    requires t in objs && objs[t].Thread? && u in objs && objs[u].UpVal? && objs[t].openupval != []
  {
    objs[t := Thread(objs[t].gt, objs[t].stack, objs[t].openupval[1..])][u := UpVal(Closed(SlotVal(objs, objs[u].v)))]
  }

  predicate CanClose(objs: Heap, t: Ref) {
    t in objs && objs[t].Thread? && objs[t].openupval != [] && OpenAt(objs, objs[t].openupval[0], t)
  }

  /** Close the first open upvalue of thread `t`, or free it when it is dead. */
  ghost function CloseOne(s: State, t: Ref): State
    requires CanClose(s.objs, t)
  {
    var th := s.objs[t];
    var u := th.openupval[0];
    if Dead(s, u) then
      s.(objs := s.objs[t := Thread(th.gt, th.stack, th.openupval[1..])] - {u},
         m := s.m.(color := s.m.color - {u}), uvhead := Without(s.uvhead, u))
    else
      LinkUpval(s.(objs := ClosedHeap(s.objs, t, u), uvhead := Without(s.uvhead, u)), u)
  }

  /** luaF_close: every open upvalue of thread `t` at or above `level`. */
  ghost function CloseUpvals(s: State, t: Ref, level: nat): State
    requires t in s.objs && s.objs[t].Thread? && UvListOk(s.objs, t)
    decreases if t in s.objs && s.objs[t].Thread? then |s.objs[t].openupval| else 0
  {
    var l := s.objs[t].openupval;
    if l == [] || Level(s.objs, l[0]) < level then s
    else
      assert l[0] in l;
      CloseOneList(s, t);
      CloseUpvals(CloseOne(s, t), t, level)
  }

  /** Closing an upvalue touches the bodies of that upvalue and of its thread only. */
  lemma CloseOneFrame(s: State, t: Ref, x: Ref)
    requires CanClose(s.objs, t)
    ensures var s' := CloseOne(s, t);
            && t in s'.objs && s'.objs[t] == Thread(s.objs[t].gt, s.objs[t].stack, s.objs[t].openupval[1..])
            && (x != t && x != s.objs[t].openupval[0] ==> (x in s.objs <==> x in s'.objs))
            && (x != t && x != s.objs[t].openupval[0] && x in s.objs ==> s'.objs[x] == s.objs[x])
  {
  }

  lemma CloseOneList(s: State, t: Ref)
    requires t in s.objs && s.objs[t].Thread? && UvListOk(s.objs, t) && s.objs[t].openupval != []
    ensures CanClose(s.objs, t)
    ensures var s' := CloseOne(s, t);
            t in s'.objs && s'.objs[t].Thread? && UvListOk(s'.objs, t)
            && s'.objs[t].openupval == s.objs[t].openupval[1..]
  {
    var l := s.objs[t].openupval;
    assert l[0] in l;
    CloseOneFrame(s, t, t);
    forall i | 1 <= i < |l|
      ensures l[i] in l && l[i] in CloseOne(s, t).objs && CloseOne(s, t).objs[l[i]] == s.objs[l[i]]
    {
      assert l[i] in l && Level(s.objs, l[0]) > Level(s.objs, l[i]);
      CloseOneFrame(s, t, l[i]);
    }
    TailListOk(s.objs, CloseOne(s, t).objs, t);
  }

  lemma TailListOk(objs: Heap, objs': Heap, t: Ref)
    requires t in objs && objs[t].Thread? && UvListOk(objs, t) && objs[t].openupval != []
    requires t in objs' && objs'[t] == Thread(objs[t].gt, objs[t].stack, objs[t].openupval[1..])
    requires forall i :: 1 <= i < |objs[t].openupval| ==>
               objs[t].openupval[i] in objs' && objs[t].openupval[i] in objs
                 && objs'[objs[t].openupval[i]] == objs[objs[t].openupval[i]]
    ensures UvListOk(objs', t)
  {
    var l := objs[t].openupval;
    var l' := objs'[t].openupval;
    assert forall i :: 0 <= i < |l'| ==> l'[i] == l[i + 1] && l[i + 1] in l
                                         && Level(objs', l'[i]) == Level(objs, l[i + 1]);
    forall u | u in l'
      ensures OpenAt(objs', u, t) && objs'[u].v.level < |objs'[t].stack|
    {
      var i :| 0 <= i < |l'| && l'[i] == u;
      assert l[i + 1] in l;
    }
  }

  // ---------------------------------------------------------------- closing keeps the invariant

  lemma {:induction false} WithoutSpec(l: seq<Ref>, r: Ref)
    requires NoDup(l)
    ensures NoDup(Without(l, r)) && forall x :: x in Without(l, r) <==> x in l && x != r
  {
    if l != [] && l[0] != r {
      assert l == [l[0]] + l[1..];
      assert NoDup(l[1..]);
      WithoutSpec(l[1..], r);
      NoDupCons(l[0], Without(l[1..], r));
    } else if l != [] {
      assert l == [r] + l[1..];
    }
  }

  /** `objs'` is `objs` with the first open upvalue of `t` closed or freed. */
  ghost predicate HeadClosed(objs: Heap, objs': Heap, t: Ref) {
    && t in objs && objs[t].Thread? && objs[t].openupval != []
    && t in objs' && objs'[t] == Thread(objs[t].gt, objs[t].stack, objs[t].openupval[1..])
    && (var u := objs[t].openupval[0];
        && OpenAt(objs, u, t) && u != t
        && (u in objs' ==> objs'[u] == UpVal(Closed(SlotVal(objs, objs[u].v))))
        && (forall x :: x != t && x != u ==> (x in objs <==> x in objs'))
        && (forall x :: x != t && x != u && x in objs && x in objs' ==> objs'[x] == objs[x]))
  }

  lemma HeadClosedRefs(objs: Heap, objs': Heap, t: Ref, x: Ref, c: Ref)
    requires HeadClosed(objs, objs', t) && x in objs'
    ensures Refers(objs', x, c) <==> Refers(objs, x, c)
  {
    var u := objs[t].openupval[0];
    if x != t && x != u && IsOpen(objs[x]) {
      assert objs[x].v.thread == t || objs[x].v.thread == u || objs[x].v.thread !in objs
          || objs'[objs[x].v.thread] == objs[objs[x].v.thread];
    }
  }

  lemma HeadClosedList(objs: Heap, objs': Heap, t: Ref, t2: Ref)
    requires HeadClosed(objs, objs', t) && UvListOk(objs, t)
    requires t2 in objs && objs[t2].Thread? && UvListOk(objs, t2)
    ensures t2 in objs' && objs'[t2].Thread? && UvListOk(objs', t2)
  {
    var u := objs[t].openupval[0];
    var l := objs[t2].openupval;
    assert forall i :: 0 <= i < |l| ==> l[i] in l && OpenAt(objs, l[i], t2);
    if t2 == t {
      assert forall i :: 1 <= i < |l| ==> Level(objs, l[0]) > Level(objs, l[i]) && l[i] != u && l[i] != t;
      TailListOk(objs, objs', t);
    } else {
      assert u !in l && t !in l;
      assert forall i :: 0 <= i < |l| ==> Level(objs', l[i]) == Level(objs, l[i]);
    }
  }

  lemma HeadClosedUvOk(objs: Heap, objs': Heap, uvhead: seq<Ref>, t: Ref)
    requires HeadClosed(objs, objs', t) && UvOk(objs, uvhead)
    ensures UvOk(objs', Without(uvhead, objs[t].openupval[0]))
  {
    var u := objs[t].openupval[0];
    WithoutSpec(uvhead, u);
    assert UvListOk(objs, t);
    forall t2 | t2 in objs' && objs'[t2].Thread?
      ensures UvListOk(objs', t2)
    {
      assert t2 == t || t2 in objs;
      HeadClosedList(objs, objs', t, t2);
    }
    forall x | x in objs' && IsOpen(objs'[x])
      ensures objs'[x].v.thread in objs' && objs'[objs'[x].v.thread].Thread? && x in objs'[objs'[x].v.thread].openupval
    {
      assert x in objs && x != u && x != t && objs'[x] == objs[x];
      var t2 := objs[x].v.thread;
      if t2 == t {
        assert objs[t].openupval == [u] + objs[t].openupval[1..];
      }
    }
  }

  lemma CloseHead(s: State, t: Ref)
    requires CanClose(s.objs, t)
    ensures HeadClosed(s.objs, CloseOne(s, t).objs, t)
    ensures CloseOne(s, t).uvhead == Without(s.uvhead, s.objs[t].openupval[0])
  {
  }

  /** The marks after an upvalue `u` of value `v` is closed. */
  ghost function ClosedMarks(objs: Heap, m: Marks, phase: Phase, white: bool, u: Ref, v: Value): Marks {
    if !IsGray(m, u) then m
    else if phase == GCSpropagate then BarrierF(objs, m.(color := m.color[u := Black]), phase, white, u, v)
    else m.(color := m.color[u := White(white)])
  }

  /** A body that is the same, a thread that stays one, or the upvalue that is closed. */
  predicate SameOrClosed(a: Body, b: Body) {
    a == b || (a.Thread? && b.Thread?) || (IsOpen(a) && b.UpVal? && !IsOpen(b))
  }

  lemma ClosedBody(objs: Heap, objs': Heap, t: Ref, x: Ref)
    requires HeadClosed(objs, objs', t) && objs'.Keys == objs.Keys && x in objs
    ensures SameOrClosed(objs[x], objs'[x]) && (x != objs[t].openupval[0] && IsOpen(objs[x]) ==> objs'[x] == objs[x])
  {
  }

  lemma BodyKinds(a: Body, b: Body, c: Color)
    requires SameOrClosed(a, b)
    ensures Traversable(a) == Traversable(b) && a.Table? == b.Table? && a.Thread? == b.Thread?
    ensures ColorFits(a, c) && !(IsOpen(a) && c.Gray?) ==> ColorFits(b, c)
  {
  }

  lemma ClosedKinds(objs: Heap, objs': Heap, t: Ref)
    requires HeadClosed(objs, objs', t) && objs'.Keys == objs.Keys
    ensures SameListKinds(objs, objs')
    ensures var u := objs[t].openupval[0];
            u in objs && u in objs' && IsOpen(objs[u]) && objs'[u].UpVal? && !IsOpen(objs'[u])
            && forall x :: x in objs && x != u && IsOpen(objs[x]) ==> objs'[x] == objs[x]
  {
    forall x, c | x in objs
      ensures Traversable(objs[x]) == Traversable(objs'[x]) && objs[x].Table? == objs'[x].Table?
      ensures objs[x].Thread? == objs'[x].Thread?
      ensures ColorFits(objs[x], c) && !(IsOpen(objs[x]) && c.Gray?) ==> ColorFits(objs'[x], c)
      ensures x != objs[t].openupval[0] && IsOpen(objs[x]) ==> objs'[x] == objs[x]
    {
      ClosedBody(objs, objs', t, x);
      BodyKinds(objs[x], objs'[x], c);
    }
    hide Traversable, ColorFits;
  }

  lemma UpvalOnNoList(objs: Heap, m: Marks, u: Ref)
    requires ListKinds(objs, m) && u in objs && IsOpen(objs[u])
    ensures u !in m.gray && u !in m.grayagain && u !in m.weak && !Traversable(objs[u])
  {
  }

  lemma ClosedLists(objs: Heap, objs': Heap, m: Marks, white: bool, t: Ref)
    requires HeadClosed(objs, objs', t) && objs'.Keys == objs.Keys && Lists(objs, m, white)
    ensures var u := objs[t].openupval[0];
            Lists(objs', if IsGray(m, u) then m.(color := m.color[u := Black]) else m, white)
  {
    hide Lists;
    ClosedKinds(objs, objs', t);
    BlackenedLists(objs, objs', m, white, objs[t].openupval[0]);
  }

  function Blackened(m: Marks, u: Ref): Marks {
    if IsGray(m, u) then m.(color := m.color[u := Black]) else m
  }

  lemma BlackenedOnList(objs: Heap, objs': Heap, m: Marks, u: Ref)
    requires ListKinds(objs, m) && OnList(objs, m) && SameListKinds(objs, objs') && u in objs && IsOpen(objs[u])
    ensures ListKinds(objs', Blackened(m, u)) && OnList(objs', Blackened(m, u))
  {
    hide Traversable, ColorFits, IsOpen;
    UpvalOnNoList(objs, m, u);
    assert forall x :: IsGray(Blackened(m, u), x) <==> IsGray(m, x) && x != u;
    hide Blackened;
  }

  lemma BlackenedFits(objs: Heap, objs': Heap, m: Marks, white: bool, u: Ref)
    requires Fits(objs, m, white) && SameListKinds(objs, objs') && u in objs && objs'[u].UpVal? && !IsOpen(objs'[u])
    requires forall x :: x in objs && x != u && IsOpen(objs[x]) ==> objs'[x] == objs[x]
    ensures Fits(objs', Blackened(m, u), white)
  {
    forall x | x in objs' && x in Blackened(m, u).color
      ensures ColorFits(objs'[x], Blackened(m, u).color[x])
      ensures Blackened(m, u).color[x].White? ==> Blackened(m, u).color[x] == White(white)
    {
      if x in m.color {
        assert ColorFits(objs[x], m.color[x]);
      }
    }
  }

  lemma BlackenedLists(objs: Heap, objs': Heap, m: Marks, white: bool, u: Ref)
    requires Lists(objs, m, white) && SameListKinds(objs, objs') && u in objs && IsOpen(objs[u])
    requires objs'[u].UpVal? && !IsOpen(objs'[u]) && forall x :: x in objs && x != u && IsOpen(objs[x])
                                                                 ==> objs'[x] == objs[x]
    ensures Lists(objs', Blackened(m, u), white)
  {
    hide NoDup, Disjoint, ListKinds, OnList, Fits;
    BlackenedOnList(objs, objs', m, u);
    BlackenedFits(objs, objs', m, white, u);
  }

  lemma ClosedMarkInv(objs: Heap, objs': Heap, m: Marks, white: bool, t: Ref)
    requires HeadClosed(objs, objs', t) && objs'.Keys == objs.Keys && MarkInv(objs, m, white)
    ensures var u := objs[t].openupval[0];
            var m' := ClosedMarks(objs', m, GCSpropagate, white, u, SlotVal(objs, objs[u].v));
            MarkInv(objs', m', white) && MoreMarked(m.color, m'.color)
  {
    var u := objs[t].openupval[0];
    var v := SlotVal(objs, objs[u].v);
    ClosedLists(objs, objs', m, white, t);
    assert HeapIn(objs') by {
      forall x, c | Refers(objs', x, c)
        ensures c in objs'
      {
        HeadClosedRefs(objs, objs', t, x, c);
      }
    }
    var m1 := if IsGray(m, u) then m.(color := m.color[u := Black]) else m;
    ClosedTriColor(objs, objs', m, m1, white, t);
    if IsGray(m, u) {
      assert ValsIn(objs', [v]) by {
        assert forall c :: Obj(c) in [v] ==> Refers(objs, u, c);
      }
      BarrierFInv(objs', m1, white, u, v, []);
      MarkedMore(objs', m1, [v]);
    }
  }

  lemma ClosedTriColor(objs: Heap, objs': Heap, m: Marks, m1: Marks, white: bool, t: Ref)
    requires HeadClosed(objs, objs', t) && objs'.Keys == objs.Keys && m.color.Keys == objs.Keys
    requires TriColor(objs, m.color, [], {}) && Fits(objs, m, white)
    requires var u := objs[t].openupval[0];
             m1 == if IsGray(m, u) then m.(color := m.color[u := Black]) else m
    ensures var u := objs[t].openupval[0];
            TriColor(objs', m1.color, [], {u})
            && (IsBlack(m1, u) ==> forall c :: Refers(objs', u, c) ==> Seen(m1.color, [SlotVal(objs, objs[u].v)], c))
            && (!IsGray(m, u) ==> TriColor(objs', m1.color, [], {}))
  {
    var u := objs[t].openupval[0];
    assert !IsBlack(m, u) by {
      assert ColorFits(objs[u], m.color[u]);
    }
    forall x, c | x in m1.color && m1.color[x].Black? && x != u && Refers(objs', x, c)
      ensures Seen(m1.color, [], c)
    {
      HeadClosedRefs(objs, objs', t, x, c);
      assert Seen(m.color, [], c);
    }
  }

  lemma CloseOneMarks(s: State, t: Ref)
    requires CanClose(s.objs, t) && !Dead(s, s.objs[t].openupval[0])
    ensures var u := s.objs[t].openupval[0];
            var s' := CloseOne(s, t);
            && s'.objs.Keys == s.objs.Keys
            && s'.m == ClosedMarks(s'.objs, s.m, s.phase, s.white, u, SlotVal(s.objs, s.objs[u].v))
            && s'.rootgc == InsertAt(s.rootgc, 0, u) && s'.sweepgc == ShiftSweep(s.sweepgc, 0)
  {
  }

  lemma CloseMarking(s: State, t: Ref)
    requires CanClose(s.objs, t) && MarkInv(s.objs, s.m, s.white) && s.phase == GCSpropagate
    ensures var s' := CloseOne(s, t);
            MarkInv(s'.objs, s'.m, s.white) && MoreMarked(s.m.color, s'.m.color) && s'.objs.Keys == s.objs.Keys
  {
    MarkInvNoneDead(s);
    CloseHead(s, t);
    CloseOneMarks(s, t);
    ClosedMarkInv(s.objs, CloseOne(s, t).objs, s.m, s.white, t);
    hide MarkInv, ClosedMarks, CloseOne, HeadClosed;
  }

  lemma CloseSweeping(s: State, t: Ref)
    requires CanClose(s.objs, t) && NeverBlack(s.objs, s.m.color) && s.m.color.Keys == s.objs.Keys
    requires s.phase != GCSpropagate
    ensures forall r :: Live(CloseOne(s, t), r) <==> Live(s, r)
    ensures NeverBlack(CloseOne(s, t).objs, CloseOne(s, t).m.color)
    ensures CloseOne(s, t).m.color.Keys == CloseOne(s, t).objs.Keys
  {
  }

  lemma MarkInvNeverBlack(objs: Heap, m: Marks, white: bool)
    requires MarkInv(objs, m, white)
    ensures NeverBlack(objs, m.color) && m.color.Keys == objs.Keys
  {
  }

  /** Open upvalues that are not dead are gray or of the current white while the collector sweeps. */
  lemma CloseSameDead(s: State, t: Ref)
    requires CanClose(s.objs, t) && NeverBlack(s.objs, s.m.color) && s.m.color.Keys == s.objs.Keys
    requires s.phase == GCSpropagate ==> MarkInv(s.objs, s.m, s.white)
    ensures forall r :: Live(CloseOne(s, t), r) <==> Live(s, r)
    ensures NeverBlack(CloseOne(s, t).objs, CloseOne(s, t).m.color)
    ensures CloseOne(s, t).m.color.Keys == CloseOne(s, t).objs.Keys
  {
    if s.phase == GCSpropagate {
      var s' := CloseOne(s, t);
      CloseMarking(s, t);
      MarkInvNoneDead(s);
      MarkInvNoneDead(s');
      MarkInvNeverBlack(s'.objs, s'.m, s.white);
      hide MarkInv, CloseOne, NeverBlack, CanClose;
    } else {
      CloseSweeping(s, t);
    }
  }

  lemma CloseRefs(s: State, t: Ref)
    requires RefsLive(s) && RootsLive(s) && CanClose(s.objs, t)
    requires forall r :: Live(CloseOne(s, t), r) <==> Live(s, r)
    ensures RefsLive(CloseOne(s, t)) && RootsLive(CloseOne(s, t))
  {
    var s' := CloseOne(s, t);
    CloseHead(s, t);
    assert s'.roots == s.roots;
    hide CloseOne, HeadClosed, RefsLive, RootsLive, CanClose;
    forall x, c | Live(s, x) && Refers(s'.objs, x, c)
      ensures Refers(s.objs, x, c)
    {
      HeadClosedRefs(s.objs, s'.objs, t, x, c);
    }
    RefsKept(s, s');
  }

  lemma CloseRootList(objs: Heap, objs': Heap, rootgc: seq<Ref>, t: Ref)
    requires HeadClosed(objs, objs', t) && RootListOk(objs, rootgc)
    ensures var u := objs[t].openupval[0];
            RootListOk(objs', if u in objs' then InsertAt(rootgc, 0, u) else rootgc)
  {
    var u := objs[t].openupval[0];
    assert u !in rootgc;
    InsertMembers(rootgc, 0, u);
    InsertNoDup(rootgc, 0, u);
    hide InsertAt, NoDup;
  }

  lemma CloseStrings(s: State, t: Ref)
    requires CanClose(s.objs, t) && StrOk(s.objs, s.strt, s.nuse)
    ensures StrOk(CloseOne(s, t).objs, s.strt, s.nuse)
  {
    CloseHead(s, t);
    hide CloseOne, StrOk;
    SameStringsOk(s.objs, CloseOne(s, t).objs, s.strt, s.nuse);
  }

  lemma CloseFrame(s: State, t: Ref)
    requires CanClose(s.objs, t)
    ensures var s' := CloseOne(s, t);
            && s'.strt == s.strt && s'.nuse == s.nuse && s'.roots == s.roots && s'.fixed == s.fixed
              && s'.phase == s.phase
            && s'.sweepstrgc == s.sweepstrgc && s'.white == s.white
            && s'.rootgc == (if s.objs[t].openupval[0] in s'.objs then InsertAt(s.rootgc, 0, s.objs[t].openupval[0])
              else s.rootgc)
  {
  }

  lemma CloseStruct(s: State, t: Ref)
    requires Struct(s) && CanClose(s.objs, t)
    requires NeverBlack(CloseOne(s, t).objs, CloseOne(s, t).m.color)
    requires CloseOne(s, t).m.color.Keys == CloseOne(s, t).objs.Keys
    ensures Struct(CloseOne(s, t))
  {
    var s' := CloseOne(s, t);
    CloseHead(s, t);
    CloseFrame(s, t);
    CloseStrings(s, t);
    CloseFixed(s, t);
    hide UvOk, StrOk, RootListOk, FixedOk, NeverBlack, HeadClosed, InsertAt, CloseOne, CanClose;
    HeadClosedUvOk(s.objs, s'.objs, s.uvhead, t);
    CloseRootList(s.objs, s'.objs, s.rootgc, t);
  }

  lemma CloseFixed(s: State, t: Ref)
    requires FixedOk(s.objs, s.roots, s.fixed) && CanClose(s.objs, t)
    ensures FixedOk(CloseOne(s, t).objs, s.roots, s.fixed)
  {
    CloseHead(s, t);
    hide CloseOne;
  }

  lemma CloseSwept(s: State, s': State, t: Ref)
    requires UvOk(s.objs, s.uvhead) && HeadClosed(s.objs, s'.objs, t) && NeverBlack(s.objs, s.m.color)
    requires forall x :: CurWhite(s.m.color, s.white, x) ==> CurWhite(s'.m.color, s.white, x)
    ensures forall r :: r in s.objs && Swept(s.objs, s.m.color, s.white, r) ==> Swept(s'.objs, s'.m.color, s.white, r)
  {
    forall r | r in s.objs && Swept(s.objs, s.m.color, s.white, r)
      ensures Swept(s'.objs, s'.m.color, s.white, r)
    {
      if r == t {
        assert s.objs[t].openupval == [s.objs[t].openupval[0]] + s'.objs[t].openupval;
      }
    }
  }

  lemma ClosePhase(s: State, t: Ref)
    requires Struct(s) && PhaseInv(s) && CanClose(s.objs, t)
    ensures PhaseInv(CloseOne(s, t))
  {
    if s.phase == GCSpropagate {
      CloseMarking(s, t);
      CloseFrame(s, t);
      hide MarkInv, CloseOne, Struct;
    } else if Dead(s, s.objs[t].openupval[0]) {
      ClosePhaseDead(s, t);
    } else {
      ClosePhaseAlive(s, t);
    }
  }

  lemma ClosePhaseAlive(s: State, t: Ref)
    requires Struct(s) && PhaseInv(s) && CanClose(s.objs, t) && s.phase != GCSpropagate
      && !Dead(s, s.objs[t].openupval[0])
    ensures PhaseInv(CloseOne(s, t))
  {
    hide StrOk, FixedOk, UvOk, RootListOk, PhaseInv, UvListOk;
    var s' := CloseOne(s, t);
    CloseHead(s, t);
    CloseOneMarks(s, t);
    assert forall x :: CurWhite(s.m.color, s.white, x) ==> CurWhite(s'.m.color, s.white, x);
    CloseSwept(s, s', t);
    hide CloseOne, CanClose;
    ClosePhaseLive(s, s', s.objs[t].openupval[0]);
  }

  lemma ClosePhaseLive(s: State, s': State, u: Ref)
    requires Struct(s) && PhaseInv(s) && s.phase != GCSpropagate && u in s.objs && IsOpen(s.objs[u]) && !Dead(s, u)
    requires s' == s.(objs := s'.objs,
      m := ClosedMarks(s'.objs, s.m, s.phase, s.white, u, SlotVal(s.objs, s.objs[u].v)),
                      uvhead := s'.uvhead, rootgc := InsertAt(s.rootgc, 0, u), sweepgc := ShiftSweep(s.sweepgc, 0))
    requires forall r :: r in s.objs && Swept(s.objs, s.m.color, s.white, r) ==> Swept(s'.objs, s'.m.color, s.white, r)
    requires forall x :: CurWhite(s.m.color, s.white, x) ==> CurWhite(s'.m.color, s.white, x)
    requires forall x :: x in s'.objs && s'.objs[x].Str? ==> x in s.objs && s.objs[x].Str?
    requires u in s'.objs && s'.objs[u].UpVal?
    ensures PhaseInv(s')
  {
    hide UvOk, StrOk, FixedOk;
    assert CurWhite(s'.m.color, s.white, u);
    if s.phase == GCSsweep {
      forall i | 0 <= i < s'.sweepgc
        ensures Swept(s'.objs, s'.m.color, s'.white, s'.rootgc[i])
      {
        if i > 0 {
          assert s'.rootgc[i] == s.rootgc[i - 1] && s.rootgc[i - 1] in s.rootgc;
        }
      }
    }
    hide UvOk, StrOk;
  }

  lemma ClosePhaseDead(s: State, t: Ref)
    requires Struct(s) && PhaseInv(s) && CanClose(s.objs, t) && Dead(s, s.objs[t].openupval[0])
      && s.phase != GCSpropagate
    ensures PhaseInv(CloseOne(s, t))
  {
    hide StrOk, FixedOk, UvOk, HeadClosed;
    var s' := CloseOne(s, t);
    var u := s.objs[t].openupval[0];
    CloseHead(s, t);
    assert forall x :: CurWhite(s.m.color, s.white, x) ==> CurWhite(s'.m.color, s.white, x);
    CloseSwept(s, s', t);
    if s.phase == GCSsweep {
      forall i | 0 <= i < s'.sweepgc
        ensures Swept(s'.objs, s'.m.color, s'.white, s'.rootgc[i])
      {
        assert s.rootgc[i] in s.rootgc;
        assert Swept(s.objs, s.m.color, s.white, s.rootgc[i]);
      }
    }
  }

  /** Closing an upvalue keeps the invariant, in every phase. */
  lemma CloseOneInv(s: State, t: Ref)
    requires Inv(s) && CanClose(s.objs, t)
    ensures Inv(CloseOne(s, t))
  {
    CloseSameDead(s, t);
    hide RefsLive, RootsLive, CloseOne, NeverBlack;
    CloseRefs(s, t);
    CloseStruct(s, t);
    ClosePhase(s, t);
    hide Struct, PhaseInv;
  }

  lemma CloseOneKeepsLive(s: State, t: Ref)
    requires Inv(s) && CanClose(s.objs, t)
    ensures KeepsLive(s, CloseOne(s, t))
  {
    hide RefsLive, RootsLive, UvOk, StrOk, RootListOk, FixedOk;
    var s' := CloseOne(s, t);
    CloseSameDead(s, t);
    CloseHead(s, t);
    CloseFrame(s, t);
    hide CloseOne, HeadClosed, NeverBlack, PhaseInv, InsertAt, CanClose;
    forall x, c | Live(s, x)
      ensures Refers(s'.objs, x, c) <==> Refers(s.objs, x, c)
    {
      HeadClosedRefs(s.objs, s'.objs, t, x, c);
    }
  }

  lemma KeepsItself(s: State)
    ensures KeepsLive(s, s)
  {
  }

  lemma {:induction false} CloseUpvalsKeepsLive(s: State, t: Ref, level: nat)
    requires Inv(s) && t in s.objs && s.objs[t].Thread? && UvListOk(s.objs, t)
    ensures KeepsLive(s, CloseUpvals(s, t, level))
    decreases |s.objs[t].openupval|
  {
    hide Inv, CloseOne, KeepsLive, UvListOk;
    var l := s.objs[t].openupval;
    KeepsItself(s);
    if l != [] && Level(s.objs, l[0]) >= level {
      CloseOneList(s, t);
      CloseOneInv(s, t);
      CloseOneKeepsLive(s, t);
      CloseUpvalsKeepsLive(CloseOne(s, t), t, level);
      KeepsLiveTrans(s, CloseOne(s, t), CloseUpvals(s, t, level));
    }
  }

  /** Every upvalue that outlives the step stands for the same value as before. */
  lemma CloseKeepsValues(s: State, t: Ref, u: Ref)
    requires Inv(s) && CanClose(s.objs, t) && u in s.objs && s.objs[u].UpVal? && Live(s, u)
    ensures u in CloseOne(s, t).objs && CloseOne(s, t).objs[u].UpVal?
    ensures SlotVal(CloseOne(s, t).objs, CloseOne(s, t).objs[u].v) == SlotVal(s.objs, s.objs[u].v)
  {
    hide RefsLive, RootsLive, UvOk, StrOk, RootListOk, FixedOk;
    var s' := CloseOne(s, t);
    CloseSameDead(s, t);
    CloseHead(s, t);
    hide CloseOne;
    if IsOpen(s.objs[u]) && u != s.objs[t].openupval[0] {
      var t2 := s.objs[u].v.thread;
      assert t2 == t || t2 == s.objs[t].openupval[0] || (t2 in s.objs <==> t2 in s'.objs);
    }
  }

  lemma ThreadUvList(s: State, t: Ref)
    requires Inv(s) && t in s.objs && s.objs[t].Thread?
    ensures UvListOk(s.objs, t)
  {
    hide UvListOk, StrOk, RootListOk, FixedOk, RefsLive, RootsLive, PhaseInv, NeverBlack;
  }

  lemma {:induction false} CloseUpvalsInv(s: State, t: Ref, level: nat)
    requires Inv(s) && t in s.objs && s.objs[t].Thread?
    ensures UvListOk(s.objs, t)
    ensures Inv(CloseUpvals(s, t, level))
    decreases |s.objs[t].openupval|
  {
    hide Inv, CloseOne, UvListOk;
    ThreadUvList(s, t);
    var l := s.objs[t].openupval;
    if l != [] && Level(s.objs, l[0]) >= level {
      CloseOneList(s, t);
      CloseOneInv(s, t);
      CloseUpvalsInv(CloseOne(s, t), t, level);
    }
  }
}

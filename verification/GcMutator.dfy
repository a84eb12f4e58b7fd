/**
  What the program does to the heap between collector steps: writes with their barriers
  (lgc.h, lgc.c: luaC_barrierf, luaC_barrierback), allocation (luaC_link, luaS_newudata),
  and changes of the roots.
 */
module GcMutator {
  import opened GcHeap
  import opened GcMark
  import opened GcCycle
  import opened GcAtomic
  import opened GcInv

  predicate IsBlack(m: Marks, r: Ref) {
    r in m.color && m.color[r].Black?
  }

  /** luaC_barriert: the table turns gray again. */
  function BarrierT(m: Marks, r: Ref, v: Value): Marks {
    if WhiteAt(m.color, v) && IsBlack(m, r)
    then Marks(m.color[r := Gray], m.gray, [r] + m.grayagain, m.weak) else m
  }

  /** luaC_barrier: mark the value, or, while sweeping, sweep the object that holds it. */
  ghost function BarrierF(objs: Heap, m: Marks, phase: Phase, white: bool, r: Ref, v: Value): Marks {
    if WhiteAt(m.color, v) && IsBlack(m, r) then
      if phase == GCSpropagate then MarkAll(objs, m, [v]) else m.(color := m.color[r := White(white)])
    else m
  }

  /** The barrier each kind of object has; a thread has none, for it is never black. */
  ghost function Barrier(objs: Heap, m: Marks, phase: Phase, white: bool, r: Ref, v: Value): Marks {
    if r !in objs || objs[r].Thread? then m
    else if objs[r].Table? then BarrierT(m, r, v)
    else BarrierF(objs, m, phase, white, r, v)
  }

  ghost function Barriers(objs: Heap, m: Marks, phase: Phase, white: bool, r: Ref, news: seq<Value>): Marks
    decreases |news|
  {
    if news == [] then m
    else Barriers(objs, Barrier(objs, m, phase, white, r, news[0]), phase, white, r, news[1..])
  }

  /** Object `r` gets body `b`; `news` are the values stored, each followed by its barrier. */
  ghost function Write(s: State, r: Ref, b: Body, news: seq<Value>): State {
    var objs := s.objs[r := b];
    s.(objs := objs, m := Barriers(objs, s.m, s.phase, s.white, r, news))
  }

  /** A write keeps the kind of the object, and does not open or close upvalues. */
  predicate SameShape(a: Body, b: Body) {
    match a
    case Str(_, _) => false
    case Udata(_, _) => b.Udata?
    case Table(_, _, _, _) => b.Table?
    case CClosure(_, _) => b.CClosure?
    case LClosure(_, _, _) => b.LClosure?
    case UpVal(v) => v.Closed? && b.UpVal? && b.v.Closed?
    case Thread(_, _, l) => b.Thread? && b.openupval == l
    case Proto(_, _, _, _, _) => b.Proto?
  }

  /** Values held after the write were held before or are stored by it. */
  ghost predicate StoresOnly(objs: Heap, r: Ref, b: Body, news: seq<Value>)
    requires r in objs
  {
    && (forall c :: Obj(c) in BodyVals(objs, b, STRONG) ==> Obj(c) in AllVals(objs, r) || Obj(c) in news)
    && (objs[r].Thread? && b.Thread? ==>
          forall l :: 0 <= l < |b.stack| ==>
            (l < |objs[r].stack| && b.stack[l] == objs[r].stack[l]) || b.stack[l] in news || !b.stack[l].Obj?)
  }

  /** A thread keeps the slots its open upvalues stand for. */
  ghost predicate SlotsKept(objs: Heap, r: Ref, b: Body) {
    b.Thread? ==> forall u :: OpenAt(objs, u, r) ==> objs[u].v.level < |b.stack|
  }

  ghost predicate WriteOk(s: State, r: Ref, b: Body, news: seq<Value>) {
    && r in s.objs && SameShape(s.objs[r], b) && StoresOnly(s.objs, r, b, news) && SlotsKept(s.objs, r, b)
    && (forall v :: v in news && v.Obj? ==> Live(s, v.ref))
  }

  // ---------------------------------------------------------------- structure

  lemma WriteRefs(s: State, r: Ref, b: Body, news: seq<Value>, x: Ref, c: Ref)
    requires WriteOk(s, r, b, news) && UvOk(s.objs, s.uvhead)
    requires Refers(s.objs[r := b], x, c)
    ensures Refers(s.objs, x, c) || Obj(c) in news
  {
    var objs' := s.objs[r := b];
    if x == r {
      assert AllVals(objs', r) == BodyVals(s.objs, b, STRONG);
    } else if OpenAt(s.objs, x, r) && b.Thread? {
      var l := s.objs[x].v.level;
      assert Obj(c) == SlotVal(objs', s.objs[x].v) == b.stack[l];
    }
  }

  /** The same upvalues are open, and the same threads list them. */
  ghost predicate SameUpvals(objs: Heap, objs': Heap) {
    && objs'.Keys == objs.Keys
    && (forall u :: u in objs && (IsOpen(objs[u]) || IsOpen(objs'[u])) ==> objs'[u] == objs[u])
    && (forall t :: t in objs ==> objs'[t].Thread? == objs[t].Thread?)
    && (forall t :: t in objs && objs[t].Thread? ==> objs'[t].openupval == objs[t].openupval)
  }

  lemma SameUpvalsOk(objs: Heap, objs': Heap, uvhead: seq<Ref>)
    requires SameUpvals(objs, objs') && UvOk(objs, uvhead)
    requires forall t, u :: t in objs && objs[t].Thread? && OpenAt(objs, u, t) && objs[u].v.level < |objs[t].stack|
               ==> objs[u].v.level < |objs'[t].stack|
    ensures UvOk(objs', uvhead)
  {
    forall t | t in objs' && objs'[t].Thread?
      ensures UvListOk(objs', t)
    {
      assert UvListOk(objs, t);
      var l := objs[t].openupval;
      assert forall i :: 0 <= i < |l| ==> l[i] in l && Level(objs', l[i]) == Level(objs, l[i]);
    }
  }

  lemma WriteUvOk(s: State, r: Ref, b: Body, news: seq<Value>)
    requires WriteOk(s, r, b, news) && UvOk(s.objs, s.uvhead)
    ensures UvOk(s.objs[r := b], s.uvhead)
  {
    assert SameUpvals(s.objs, s.objs[r := b]);
    SameUpvalsOk(s.objs, s.objs[r := b], s.uvhead);
  }

  lemma WriteStrOk(s: State, r: Ref, b: Body)
    requires r in s.objs && SameShape(s.objs[r], b) && StrOk(s.objs, s.strt, s.nuse)
    ensures StrOk(s.objs[r := b], s.strt, s.nuse)
  {
    SameStringsOk(s.objs, s.objs[r := b], s.strt, s.nuse);
  }

  lemma WriteStruct(s: State, r: Ref, b: Body)
    requires r in s.objs && SameShape(s.objs[r], b)
    requires RootListOk(s.objs, s.rootgc) && FixedOk(s.objs, s.roots, s.fixed)
    ensures RootListOk(s.objs[r := b], s.rootgc) && FixedOk(s.objs[r := b], s.roots, s.fixed)
  {
  }

  // ---------------------------------------------------------------- barriers outside the mark phase

  /** Only `r` changes colour, from black to gray or the current white. */
  ghost predicate Whitened(m: Marks, m': Marks, white: bool, r: Ref) {
    && m'.color.Keys == m.color.Keys
    && forall x :: x in m.color ==>
         (m'.color[x] == m.color[x]
          || (x == r && m.color[x].Black? && (m'.color[x].Gray? || m'.color[x] == White(white))))
  }

  lemma {:induction false} BarriersSweeping(objs: Heap, m: Marks, phase: Phase, white: bool, r: Ref, news: seq<Value>)
    requires phase != GCSpropagate
    ensures Whitened(m, Barriers(objs, m, phase, white, r, news), white, r)
    decreases |news|
  {
    if news != [] {
      BarriersSweeping(objs, Barrier(objs, m, phase, white, r, news[0]), phase, white, r, news[1..]);
    }
  }

  // ---------------------------------------------------------------- barriers in the mark phase

  /** After a write: what `r` refers to is marked, or its barrier is still to come (`rest`). */
  ghost predicate BarrierInv(objs: Heap, m: Marks, white: bool, r: Ref, rest: seq<Value>) {
    && HeapIn(objs) && Lists(objs, m, white)
    && TriColor(objs, m.color, [], {r})
    && (IsBlack(m, r) ==> forall c :: Refers(objs, r, c) ==> Seen(m.color, rest, c))
  }

  lemma BarrierTInv(objs: Heap, m: Marks, white: bool, r: Ref, v: Value, rest: seq<Value>)
    requires r in objs && objs[r].Table? && BarrierInv(objs, m, white, r, [v] + rest)
    ensures BarrierInv(objs, BarrierT(m, r, v), white, r, rest)
  {
    if WhiteAt(m.color, v) && IsBlack(m, r) {
      assert r !in m.gray && r !in m.grayagain && r !in m.weak;
      NoDupCons(r, m.grayagain);
      BarrierTLists(objs, m, white, r);
      var m1 := BarrierT(m, r, v);
      forall x, c | x in m1.color && m1.color[x].Black? && x !in {r} && Refers(objs, x, c)
        ensures Seen(m1.color, [], c)
      {
        assert Seen(m.color, [], c);
      }
    } else if IsBlack(m, r) {
      forall c | Refers(objs, r, c)
        ensures Seen(m.color, rest, c)
      {
        assert Seen(m.color, [v] + rest, c);
      }
    }
  }

  lemma BarrierTLists(objs: Heap, m: Marks, white: bool, r: Ref)
    requires r in objs && objs[r].Table? && Lists(objs, m, white) && IsBlack(m, r)
    requires r !in m.gray && r !in m.grayagain && r !in m.weak && NoDup([r] + m.grayagain)
    ensures Lists(objs, Marks(m.color[r := Gray], m.gray, [r] + m.grayagain, m.weak), white)
  {
    var m1 := Marks(m.color[r := Gray], m.gray, [r] + m.grayagain, m.weak);
    assert Unshared(m1) && ListKinds(objs, m1);
    forall x | IsGray(m1, x) && x in objs && Traversable(objs[x])
      ensures x in m1.gray || x in m1.grayagain || x in m1.weak
    {
      assert x == r || IsGray(m, x);
    }
  }

  lemma BarrierFInv(objs: Heap, m: Marks, white: bool, r: Ref, v: Value, rest: seq<Value>)
    requires r in objs && BarrierInv(objs, m, white, r, [v] + rest) && ValsIn(objs, [v])
    ensures BarrierInv(objs, BarrierF(objs, m, GCSpropagate, white, r, v), white, r, rest)
  {
    if WhiteAt(m.color, v) && IsBlack(m, r) {
      var m1 := MarkAll(objs, m, [v]);
      MarkedLists(objs, m, [v], white);
      MarkedMore(objs, m, [v]);
      assert TriColor(objs, m.color, [v], {r});
      MarkAllTriColor(objs, m, [v], {r});
      assert Obj(v.ref) in [v];
      forall c | Refers(objs, r, c)
        ensures Seen(m1.color, rest, c)
      {
        assert Seen(m.color, [v] + rest, c);
      }
    } else if IsBlack(m, r) {
      forall c | Refers(objs, r, c)
        ensures Seen(m.color, rest, c)
      {
        assert Seen(m.color, [v] + rest, c);
      }
    }
  }

  lemma BarrierStep(objs: Heap, m: Marks, white: bool, r: Ref, v: Value, rest: seq<Value>)
    requires r in objs && BarrierInv(objs, m, white, r, [v] + rest) && ValsIn(objs, [v])
    ensures BarrierInv(objs, Barrier(objs, m, GCSpropagate, white, r, v), white, r, rest)
  {
    if objs[r].Thread? {
      assert !IsBlack(m, r);
    } else if objs[r].Table? {
      BarrierTInv(objs, m, white, r, v, rest);
    } else {
      BarrierFInv(objs, m, white, r, v, rest);
    }
  }

  lemma BarriersMore(objs: Heap, m: Marks, white: bool, r: Ref, v: Value)
    ensures MoreMarked(m.color, Barrier(objs, m, GCSpropagate, white, r, v).color)
  {
    MarkedMore(objs, m, [v]);
  }

  lemma {:induction false} BarriersInv(objs: Heap, m: Marks, white: bool, r: Ref, news: seq<Value>)
    requires r in objs && BarrierInv(objs, m, white, r, news) && ValsIn(objs, news)
    ensures var m' := Barriers(objs, m, GCSpropagate, white, r, news);
            MarkInv(objs, m', white) && MoreMarked(m.color, m'.color)
    decreases |news|
  {
    if news == [] {
      assert TriColor(objs, m.color, [], {});
    } else {
      assert news == [news[0]] + news[1..];
      BarrierStep(objs, m, white, r, news[0], news[1..]);
      BarriersMore(objs, m, white, r, news[0]);
      hide BarrierInv;
      BarriersInv(objs, Barrier(objs, m, GCSpropagate, white, r, news[0]), white, r, news[1..]);
    }
  }

  lemma WriteHeapIn(s: State, r: Ref, b: Body, news: seq<Value>)
    requires UvOk(s.objs, s.uvhead) && WriteOk(s, r, b, news) && HeapIn(s.objs)
    ensures HeapIn(s.objs[r := b])
  {
    var objs := s.objs[r := b];
    forall x, c | Refers(objs, x, c)
      ensures c in objs
    {
      WriteRefs(s, r, b, news, x, c);
      if Obj(c) in news {
        assert Obj(c).Obj? && Live(s, Obj(c).ref);
      }
    }
  }

  lemma WriteTriColor(s: State, r: Ref, b: Body, news: seq<Value>)
    requires UvOk(s.objs, s.uvhead) && WriteOk(s, r, b, news)
    requires TriColor(s.objs, s.m.color, [], {}) && Fits(s.objs, s.m, s.white) && s.m.color.Keys == s.objs.Keys
    ensures TriColor(s.objs[r := b], s.m.color, [], {r})
    ensures IsBlack(s.m, r) ==> forall c :: Refers(s.objs[r := b], r, c) ==> Seen(s.m.color, news, c)
  {
    var objs := s.objs[r := b];
    forall x, c | x in s.m.color && s.m.color[x].Black? && x !in {r} && Refers(objs, x, c)
      ensures Seen(s.m.color, [], c)
    {
      assert !IsOpen(s.objs[x]) && objs[x] == s.objs[x];
      assert Refers(s.objs, x, c);
    }
    if IsBlack(s.m, r) {
      forall c | Refers(objs, r, c)
        ensures Seen(s.m.color, news, c)
      {
        WriteRefs(s, r, b, news, r, c);
        assert Refers(s.objs, r, c) ==> Seen(s.m.color, [], c);
      }
    }
  }

  /** The invariant of the mark phase, right after the object changes and before its barriers. */
  lemma WriteBarrierInv(s: State, r: Ref, b: Body, news: seq<Value>)
    requires UvOk(s.objs, s.uvhead) && WriteOk(s, r, b, news) && MarkInv(s.objs, s.m, s.white)
    ensures BarrierInv(s.objs[r := b], s.m, s.white, r, news)
  {
    WriteHeapIn(s, r, b, news);
    WriteLists(s, r, b);
    WriteTriColor(s, r, b, news);
    hide Lists, TriColor, HeapIn, WriteOk, UvOk;
  }

  lemma WriteLists(s: State, r: Ref, b: Body)
    requires r in s.objs && SameShape(s.objs[r], b) && Lists(s.objs, s.m, s.white)
    ensures Lists(s.objs[r := b], s.m, s.white)
  {
    var objs := s.objs[r := b];
    assert forall x :: x in objs ==> Traversable(objs[x]) == Traversable(s.objs[x])
                                     && objs[x].Table? == s.objs[x].Table?
                                     && objs[x].Thread? == s.objs[x].Thread?;
    assert forall x :: x in objs && x in s.m.color && ColorFits(s.objs[x], s.m.color[x])
                       ==> ColorFits(objs[x], s.m.color[x]);
  }

  // ---------------------------------------------------------------- a write keeps the invariant

  /** In the mark phase nothing is dead. */
  lemma MarkInvNoneDead(s: State)
    requires MarkInv(s.objs, s.m, s.white)
    ensures NoneDead(s)
  {
    forall r | r in s.m.color
      ensures s.m.color[r] != White(!s.white)
    {
      assert r in s.objs;
    }
  }

  lemma DeadWhileSweeping(s: State, r: Ref)
    requires PhaseInv(s) && Dead(s, r)
    ensures s.phase == GCSsweepstring || s.phase == GCSsweep
  {
    if s.phase == GCSpropagate {
      MarkInvNoneDead(s);
    }
  }

  lemma WriteMarkInv(s: State, r: Ref, b: Body, news: seq<Value>)
    requires UvOk(s.objs, s.uvhead) && WriteOk(s, r, b, news) && MarkInv(s.objs, s.m, s.white)
      && s.phase == GCSpropagate
    ensures var s' := Write(s, r, b, news);
            MarkInv(s'.objs, s'.m, s'.white) && MoreMarked(s.m.color, s'.m.color)
  {
    WriteBarrierInv(s, r, b, news);
    NewsIn(s, r, b, news);
    hide MarkInv, UvOk, BarrierInv;
    BarriersInv(s.objs[r := b], s.m, s.white, r, news);
  }

  lemma WriteSameDead(s: State, r: Ref, b: Body, news: seq<Value>)
    requires UvOk(s.objs, s.uvhead) && WriteOk(s, r, b, news) && NeverBlack(s.objs, s.m.color)
    requires s.phase == GCSpropagate ==> MarkInv(s.objs, s.m, s.white)
    ensures SameDead(s, Write(s, r, b, news))
    ensures NeverBlack(Write(s, r, b, news).objs, Write(s, r, b, news).m.color)
  {
    if s.phase == GCSpropagate {
      WriteMarkInv(s, r, b, news);
      MarkInvNoneDead(s);
      MarkInvNoneDead(Write(s, r, b, news));
      hide MarkInv, UvOk, WriteOk, Barriers;
    } else {
      BarriersSweeping(s.objs[r := b], s.m, s.phase, s.white, r, news);
      hide UvOk, WriteOk, Barriers;
    }
  }

  lemma NewsIn(s: State, r: Ref, b: Body, news: seq<Value>)
    requires WriteOk(s, r, b, news)
    ensures ValsIn(s.objs[r := b], news)
  {
    forall c | Obj(c) in news
      ensures c in s.objs[r := b]
    {
      assert Obj(c).Obj? && Live(s, Obj(c).ref);
    }
  }

  lemma WriteLive(s: State, r: Ref, b: Body, news: seq<Value>)
    requires Inv(s) && WriteOk(s, r, b, news)
    ensures RefsLive(Write(s, r, b, news)) && RootsLive(Write(s, r, b, news))
  {
    var s' := Write(s, r, b, news);
    WriteSameDead(s, r, b, news);
    forall x, c | Refers(s'.objs, x, c)
      ensures Refers(s.objs, x, c) || Live(s, c)
    {
      WriteRefs(s, r, b, news, x, c);
      assert Obj(c) in news ==> Live(s, Obj(c).ref);
    }
    LivenessKept(s, s');
  }

  lemma WritePhase(s: State, r: Ref, b: Body, news: seq<Value>)
    requires Inv(s) && WriteOk(s, r, b, news)
    ensures PhaseInv(Write(s, r, b, news))
  {
    var s' := Write(s, r, b, news);
    if s.phase == GCSpropagate {
      WriteMarkInv(s, r, b, news);
    } else {
      hide Struct, PhaseInv;
      BarriersSweeping(s'.objs, s.m, s.phase, s.white, r, news);
      WriteSwept(s, s', r, b);
      PhaseKept(s, s');
    }
  }

  lemma WriteSwept(s: State, s': State, r: Ref, b: Body)
    requires r in s.objs && SameShape(s.objs[r], b) && s' == s.(objs := s.objs[r := b], m := s'.m)
    requires Whitened(s.m, s'.m, s.white, r)
    ensures SweptKept(s, s')
  {
  }

  /** A write followed by its barriers keeps the invariant, whatever phase the collector is in. */
  lemma WriteInv(s: State, r: Ref, b: Body, news: seq<Value>)
    requires Inv(s) && WriteOk(s, r, b, news)
    ensures Inv(Write(s, r, b, news))
  {
    WriteSameDead(s, r, b, news);
    WriteUvOk(s, r, b, news);
    WriteStrOk(s, r, b);
    WriteStruct(s, r, b);
    WriteLive(s, r, b, news);
    WritePhase(s, r, b, news);
    hide PhaseInv, RootListOk, StrOk, UvOk, FixedOk, WriteOk, NeverBlack;
  }
}

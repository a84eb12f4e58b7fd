/** Capturing a local variable (lfunc.c: luaF_findupval) keeps the invariant. */
module GcFindUpval {
  import opened GcHeap
  import opened GcMark
  import opened GcCycle
  import opened GcAtomic
  import opened GcInv
  import opened GcMutator
  import opened GcAlloc
  import opened GcUpval

  ghost predicate FindOk(s: State, t: Ref, level: nat, r: Ref) {
    t in s.objs && s.objs[t].Thread? && Live(s, t) && level < |s.objs[t].stack| && r !in s.objs
  }

  lemma FoundIsOpen(objs: Heap, t: Ref, level: nat)
    requires t in objs && objs[t].Thread? && UvListOk(objs, t)
    ensures var f := FoundUpval(objs, t, level);
            f.Obj? ==> OpenAt(objs, f.ref, t) && objs[f.ref].v.level == level && f.ref in objs[t].openupval
  {
    var l := objs[t].openupval;
    var k := UvPos(objs, l, level);
    if k < |l| {
      assert l[k] in l;
    }
  }

  /** One upvalue for a slot: the search finds it whenever there is one. */
  lemma FoundComplete(objs: Heap, t: Ref, level: nat, u: Ref)
    requires t in objs && objs[t].Thread? && UvListOk(objs, t)
    requires u in objs[t].openupval && Level(objs, u) == level
    ensures FoundUpval(objs, t, level) == Obj(u)
  {
    var l := objs[t].openupval;
    var k := UvPos(objs, l, level);
    var i :| 0 <= i < |l| && l[i] == u;
    assert k == i by {
      assert Level(objs, l[k]) <= level;
    }
  }

  // ---------------------------------------------------------------- an upvalue is found

  lemma RevivedInv(s: State, t: Ref, level: nat, u: Ref)
    requires Inv(s) && t in s.objs && s.objs[t].Thread? && Live(s, t) && level < |s.objs[t].stack|
    requires OpenAt(s.objs, u, t) && s.objs[u].v.level == level && Dead(s, u)
    ensures Inv(s.(m := s.m.(color := s.m.color[u := White(s.white)])))
  {
    hide UvOk, StrOk, RootListOk, FixedOk;
    var s' := s.(m := s.m.(color := s.m.color[u := White(s.white)]));
    assert s.phase != GCSpropagate by {
      if s.phase == GCSpropagate {
        MarkInvNoneDead(s);
      }
    }
    RevivedRefs(s, s', t, u);
    RevivedSwept(s, s', u);
    hide RefsLive, RootsLive, SweptKept, PhaseInv;
    PhaseKept(s, s');
  }

  lemma RevivedSwept(s: State, s': State, u: Ref)
    requires u in s.m.color && s' == s.(m := s.m.(color := s.m.color[u := White(s.white)]))
    ensures SweptKept(s, s')
  {
  }

  lemma RevivedRefs(s: State, s': State, t: Ref, u: Ref)
    requires RefsLive(s) && RootsLive(s) && t in s.objs && s.objs[t].Thread? && Live(s, t)
    requires OpenAt(s.objs, u, t) && s.objs[u].v.level < |s.objs[t].stack| && u in s.m.color
    requires s' == s.(m := s.m.(color := s.m.color[u := White(s.white)]))
    ensures RefsLive(s') && RootsLive(s')
  {
    assert forall x :: Live(s, x) ==> Live(s', x);
    forall x | Live(s', x)
      ensures ClosedAt(s', x)
    {
      forall c | Refers(s.objs, x, c)
        ensures Live(s', c)
      {
        if x == u {
          assert Obj(c) == s.objs[t].stack[s.objs[u].v.level];
          assert Refers(s.objs, t, c) && ClosedAt(s, t);
        } else {
          assert ClosedAt(s, x);
        }
      }
    }
  }

  // ---------------------------------------------------------------- a new upvalue is created

  ghost predicate Opened(objs: Heap, objs': Heap, t: Ref, level: nat, r: Ref) {
    && t in objs && objs[t].Thread? && level < |objs[t].stack| && r !in objs
    && objs' == objs[r := UpVal(Open(t, level))]
                    [t := Thread(objs[t].gt, objs[t].stack,
                      InsertAt(objs[t].openupval, UvPos(objs, objs[t].openupval, level), r))]
  }

  lemma OpenedRefs(objs: Heap, objs': Heap, uvhead: seq<Ref>, t: Ref, level: nat, r: Ref, x: Ref, c: Ref)
    requires Opened(objs, objs', t, level, r) && UvOk(objs, uvhead)
    ensures x != r ==> (Refers(objs', x, c) <==> Refers(objs, x, c))
    ensures Refers(objs', r, c) ==> Refers(objs, t, c)
  {
    if x in objs && IsOpen(objs[x]) {
      assert objs[x].v.thread in objs;
    }
    if Refers(objs', r, c) {
      assert Obj(c) == objs[t].stack[level];
    }
  }

  lemma OpenedLevels(objs: Heap, l: seq<Ref>, objs': Heap, l': seq<Ref>, level: nat, k: nat, r: Ref)
    requires k <= |l| && l' == InsertAt(l, k, r)
    requires forall i, j :: 0 <= i < j < |l| ==> Level(objs, l[i]) > Level(objs, l[j])
    requires forall i :: 0 <= i < |l| ==> Level(objs', l[i]) == Level(objs, l[i])
    requires Level(objs', r) == level
    requires forall i :: 0 <= i < k ==> Level(objs, l[i]) > level
    requires forall i :: k <= i < |l| ==> Level(objs, l[i]) < level
    ensures forall i, j :: 0 <= i < j < |l'| ==> Level(objs', l'[i]) > Level(objs', l'[j])
  {
    assert forall i :: 0 <= i < |l'| ==> l'[i] == if i < k then l[i] else if i == k then r else l[i - 1];
  }

  lemma OpenedSameLevels(objs: Heap, objs': Heap, t: Ref, level: nat, r: Ref, t2: Ref)
    requires Opened(objs, objs', t, level, r) && t2 in objs && objs[t2].Thread? && UvListOk(objs, t2)
    ensures forall i :: 0 <= i < |objs[t2].openupval| ==>
              Level(objs', objs[t2].openupval[i]) == Level(objs, objs[t2].openupval[i])
    ensures Level(objs', r) == level
  {
    var l := objs[t2].openupval;
    forall i | 0 <= i < |l|
      ensures Level(objs', l[i]) == Level(objs, l[i])
    {
      assert l[i] in l && OpenAt(objs, l[i], t2);
    }
  }

  lemma OpenedMembers(objs: Heap, objs': Heap, t: Ref, level: nat, r: Ref)
    requires Opened(objs, objs', t, level, r) && UvListOk(objs, t)
    ensures forall u :: u in objs'[t].openupval ==> OpenAt(objs', u, t) && objs'[u].v.level < |objs'[t].stack|
  {
    InsertMembers(objs[t].openupval, UvPos(objs, objs[t].openupval, level), r);
    hide InsertAt, UvPos;
  }

  lemma OpenedList(objs: Heap, objs': Heap, t: Ref, level: nat, r: Ref)
    requires Opened(objs, objs', t, level, r) && UvListOk(objs, t) && FoundUpval(objs, t, level) == Nil
    ensures UvListOk(objs', t)
  {
    var l := objs[t].openupval;
    var k := UvPos(objs, l, level);
    OpenedMembers(objs, objs', t, level, r);
    hide InsertAt, UvPos;
    OpenedSameLevels(objs, objs', t, level, r, t);
    forall i | k <= i < |l|
      ensures Level(objs, l[i]) < level
    {
      assert i > k ==> Level(objs, l[k]) > Level(objs, l[i]);
    }
    hide FoundUpval;
    OpenedLevels(objs, l, objs', objs'[t].openupval, level, k, r);
  }

  lemma OpenedUvOk(objs: Heap, objs': Heap, uvhead: seq<Ref>, t: Ref, level: nat, r: Ref)
    requires Opened(objs, objs', t, level, r) && UvOk(objs, uvhead) && FoundUpval(objs, t, level) == Nil
    ensures UvOk(objs', [r] + uvhead)
  {
    OpenedList(objs, objs', t, level, r);
    InsertMembers(objs[t].openupval, UvPos(objs, objs[t].openupval, level), r);
    NoDupCons(r, uvhead);
    forall t2 | t2 in objs' && objs'[t2].Thread?
      ensures UvListOk(objs', t2)
    {
      if t2 != t {
        assert UvListOk(objs, t2);
        OpenedSameLevels(objs, objs', t, level, r, t2);
      }
    }
    hide InsertAt;
  }

  lemma OpenedMarkInv(objs: Heap, objs': Heap, uvhead: seq<Ref>, m: Marks, white: bool, t: Ref, level: nat, r: Ref)
    requires Opened(objs, objs', t, level, r) && UvOk(objs, uvhead) && MarkInv(objs, m, white)
    ensures MarkInv(objs', m.(color := m.color[r := White(white)]), white)
  {
    var m' := m.(color := m.color[r := White(white)]);
    forall x, c | Refers(objs', x, c)
      ensures c in objs' && (x != r ==> Refers(objs, x, c))
    {
      OpenedRefs(objs, objs', uvhead, t, level, r, x, c);
    }
    OpenedLists(objs, objs', m, white, t, level, r);
    forall x, c | x in m'.color && m'.color[x].Black? && x !in {} && Refers(objs', x, c)
      ensures Seen(m'.color, [], c)
    {
      assert Refers(objs, x, c) && Seen(m.color, [], c) && c in objs;
    }
    hide Lists;
  }

  lemma OpenedKinds(objs: Heap, objs': Heap, t: Ref, level: nat, r: Ref)
    requires Opened(objs, objs', t, level, r)
    ensures var objs1 := objs[r := UpVal(Open(t, level))];
            SameListKinds(objs1, objs') && forall x :: x in objs1 && IsOpen(objs1[x]) ==> objs'[x] == objs1[x]
  {
    var objs1 := objs[r := UpVal(Open(t, level))];
    forall x, c | x in objs1 && ColorFits(objs1[x], c)
      ensures ColorFits(objs'[x], c)
    {
      assert x != t ==> objs'[x] == objs1[x];
      assert x == t ==> objs1[x].Thread? && objs'[x].Thread?;
    }
    hide InsertAt, UvPos;
  }

  lemma OpenedLists(objs: Heap, objs': Heap, m: Marks, white: bool, t: Ref, level: nat, r: Ref)
    requires Opened(objs, objs', t, level, r) && Lists(objs, m, white)
    ensures Lists(objs', m.(color := m.color[r := White(white)]), white)
  {
    hide Unshared, Opened, Traversable;
    assert r !in objs by {
      OpenedNew(objs, objs', t, level, r);
    }
    OpenedKinds(objs, objs', t, level, r);
    AddLists(objs, m, white, r, UpVal(Open(t, level)));
    ListsKept(objs[r := UpVal(Open(t, level))], objs', m.(color := m.color[r := White(white)]), white);
  }

  lemma OpenedNew(objs: Heap, objs': Heap, t: Ref, level: nat, r: Ref)
    requires Opened(objs, objs', t, level, r)
    ensures r !in objs
  {
  }

  lemma ListsKept(objs: Heap, objs': Heap, m: Marks, white: bool)
    requires Lists(objs, m, white) && SameListKinds(objs, objs')
    requires forall x :: x in objs && IsOpen(objs[x]) ==> objs'[x] == objs[x]
    ensures Lists(objs', m, white)
  {
    hide Unshared, Traversable;
    forall x | x in objs' && x in m.color
      ensures ColorFits(objs'[x], m.color[x])
    {
      assert ColorFits(objs[x], m.color[x]);
    }
  }

  lemma OpenedSwept(s: State, s': State, t: Ref, level: nat, r: Ref)
    requires Opened(s.objs, s'.objs, t, level, r) && s.m.color.Keys == s.objs.Keys
    requires s'.m.color == s.m.color[r := White(s.white)]
    ensures forall x :: Swept(s.objs, s.m.color, s.white, x) ==> Swept(s'.objs, s'.m.color, s.white, x)
  {
    InsertMembers(s.objs[t].openupval, UvPos(s.objs, s.objs[t].openupval, level), r);
    assert forall x :: CurWhite(s.m.color, s.white, x) ==> CurWhite(s'.m.color, s.white, x);
    hide InsertAt;
  }

  lemma OpenedAllWhite(s: State, s': State, t: Ref, level: nat, r: Ref)
    requires Opened(s.objs, s'.objs, t, level, r) && s.m.color.Keys == s.objs.Keys
    requires s'.m.color == s.m.color[r := White(s.white)]
    ensures AllWhite(s.m.color, s.white) ==> AllWhite(s'.m.color, s.white)
    ensures forall x :: CurWhite(s.m.color, s.white, x) ==> CurWhite(s'.m.color, s.white, x)
    ensures forall x :: x in s'.objs && s'.objs[x].Str? ==> x in s.objs && s.objs[x].Str?
  {
  }

  lemma OpenedPhase(s: State, s': State, t: Ref, level: nat, r: Ref)
    requires UvOk(s.objs, s.uvhead) && s.m.color.Keys == s.objs.Keys && PhaseInv(s)
      && Opened(s.objs, s'.objs, t, level, r)
    requires s' == s.(objs := s'.objs, m := s.m.(color := s.m.color[r := White(s.white)]), uvhead := s'.uvhead)
    ensures PhaseInv(s')
  {
    hide UvOk;
    if s.phase == GCSpropagate {
      hide MarkInv, Opened;
      OpenedMarkInv(s.objs, s'.objs, s.uvhead, s.m, s.white, t, level, r);
    } else {
      hide PhaseInv;
      OpenedSwept(s, s', t, level, r);
      OpenedAllWhite(s, s', t, level, r);
      hide Swept, AllWhite;
      PhaseKept(s, s');
    }
  }

  lemma OpenedStruct(s: State, s': State, t: Ref, level: nat, r: Ref)
    requires Struct(s) && Opened(s.objs, s'.objs, t, level, r) && FoundUpval(s.objs, t, level) == Nil
    requires s' == s.(objs := s'.objs, m := s.m.(color := s.m.color[r := White(s.white)]), uvhead := [r] + s.uvhead)
    ensures Struct(s')
  {
    hide UvOk, StrOk, RootListOk, FixedOk, InsertAt, UvPos;
    OpenedUvOk(s.objs, s'.objs, s.uvhead, t, level, r);
    hide FoundUpval;
    StructKept(s, s');
  }

  lemma OpenedLive(s: State, s': State, t: Ref, level: nat, r: Ref)
    requires UvOk(s.objs, s.uvhead) && RefsLive(s) && RootsLive(s) && Live(s, t)
    requires Opened(s.objs, s'.objs, t, level, r)
    requires s' == s.(objs := s'.objs, m := s.m.(color := s.m.color[r := White(s.white)]), uvhead := s'.uvhead)
    ensures RefsLive(s') && RootsLive(s')
  {
    assert forall x :: Live(s, x) ==> Live(s', x);
    forall x | Live(s', x)
      ensures ClosedAt(s', x)
    {
      forall c | Refers(s'.objs, x, c)
        ensures Live(s', c)
      {
        OpenedRefs(s.objs, s'.objs, s.uvhead, t, level, r, x, c);
        assert x != r ==> Live(s, x) && ClosedAt(s, x);
        assert ClosedAt(s, t);
      }
    }
  }

  lemma FindUpvalInv(s: State, t: Ref, level: nat, r: Ref)
    requires Inv(s) && FindOk(s, t, level, r)
    ensures Inv(FindUpval(s, t, level, r))
  {
    assert UvListOk(s.objs, t);
    var f := FoundUpval(s.objs, t, level);
    FoundIsOpen(s.objs, t, level);
    if f.Obj? {
      if Dead(s, f.ref) {
        RevivedInv(s, t, level, f.ref);
      }
    } else {
      var s' := FindUpval(s, t, level, r);
      assert Opened(s.objs, s'.objs, t, level, r);
      hide FoundUpval, FindUpval, Opened;
      assert s' == s.(objs := s'.objs, m := s.m.(color := s.m.color[r := White(s.white)]), uvhead := [r] + s.uvhead);
      OpenedStruct(s, s', t, level, r);
      OpenedPhase(s, s', t, level, r);
      OpenedLive(s, s', t, level, r);
      hide Struct, PhaseInv, RefsLive, RootsLive;
    }
  }
}

/**
  Allocation (lgc.c: luaC_link; lstring.c: luaS_newudata; lstate.c: luaE_newthread) and
  changes of the roots.
 */
module GcAlloc {
  import opened GcHeap
  import opened GcMark
  import opened GcCycle
  import opened GcAtomic
  import opened GcInv
  import opened GcMutator

  function IndexOf(l: seq<Ref>, r: Ref): nat
    ensures IndexOf(l, r) <= |l|
    ensures r in l ==> IndexOf(l, r) < |l| && l[IndexOf(l, r)] == r
  {
    if l == [] || l[0] == r then 0 else 1 + IndexOf(l[1..], r)
  }

  function InsertAt(l: seq<Ref>, i: nat, r: Ref): seq<Ref>
    requires i <= |l|
  {
    l[..i] + [r] + l[i..]
  }

  /** Userdata are linked after the main thread, everything else first. */
  function LinkPos(s: State, b: Body): (pos: nat)
    ensures pos <= |s.rootgc|
  {
    if b.Udata? && s.roots.mainthread in s.rootgc then IndexOf(s.rootgc, s.roots.mainthread) + 1 else 0
  }

  /** The sweep pointer is the address of a link: what is linked there will be swept. */
  function ShiftSweep(sweepgc: nat, pos: nat): nat {
    if sweepgc <= pos then sweepgc else sweepgc + 1
  }

  /** A new object has the current white. */
  function New(s: State, r: Ref, b: Body): State {
    var pos := LinkPos(s, b);
    s.(objs := s.objs[r := b], m := s.m.(color := s.m.color[r := White(s.white)]),
       rootgc := InsertAt(s.rootgc, pos, r), sweepgc := ShiftSweep(s.sweepgc, pos))
  }

  ghost predicate AddOk(s: State, r: Ref, b: Body) {
    && r !in s.objs && !IsOpen(b) && (b.Thread? ==> b.openupval == [])
    && (forall c :: Obj(c) in BodyVals(s.objs, b, STRONG) ==> Live(s, c))
  }

  ghost predicate NewOk(s: State, r: Ref, b: Body) {
    AddOk(s, r, b) && InRoot(b)
  }

  lemma InsertMembers(l: seq<Ref>, i: nat, r: Ref)
    requires i <= |l|
    ensures forall x :: x in InsertAt(l, i, r) <==> x == r || x in l
  {
    assert l == l[..i] + l[i..];
  }

  lemma InsertNoDup(l: seq<Ref>, i: nat, r: Ref)
    requires i <= |l| && NoDup(l) && r !in l
    ensures NoDup(InsertAt(l, i, r))
  {
  }

  /** An object not in the heap yet is referred to by nobody, and changes nobody's references. */
  lemma AddRefs(objs: Heap, uvhead: seq<Ref>, r: Ref, b: Body, x: Ref, c: Ref)
    requires r !in objs && UvOk(objs, uvhead) && x != r
    ensures Refers(objs[r := b], x, c) <==> Refers(objs, x, c)
  {
    if x in objs && IsOpen(objs[x]) {
      assert objs[x].v.thread in objs;
    }
  }

  lemma NewBodyRefs(objs: Heap, r: Ref, b: Body, c: Ref)
    requires r !in objs && !IsOpen(b)
    ensures Refers(objs[r := b], r, c) <==> Obj(c) in BodyVals(objs, b, STRONG)
  {
  }

  lemma AddUvOk(objs: Heap, uvhead: seq<Ref>, r: Ref, b: Body)
    requires r !in objs && UvOk(objs, uvhead) && !IsOpen(b) && (b.Thread? ==> b.openupval == [])
    ensures UvOk(objs[r := b], uvhead)
  {
    var objs' := objs[r := b];
    forall t | t in objs' && objs'[t].Thread?
      ensures UvListOk(objs', t)
    {
      if t != r {
        assert UvListOk(objs, t);
        var l := objs[t].openupval;
        assert forall i :: 0 <= i < |l| ==> l[i] in l && Level(objs', l[i]) == Level(objs, l[i]);
      }
    }
  }

  lemma AddLists(objs: Heap, m: Marks, white: bool, r: Ref, b: Body)
    requires r !in objs && Lists(objs, m, white)
    ensures Lists(objs[r := b], m.(color := m.color[r := White(white)]), white)
  {
    var m1 := m.(color := m.color[r := White(white)]);
    assert r !in m.color;
    assert forall x :: IsGray(m1, x) <==> IsGray(m, x);
  }

  lemma AddLive(s: State, s': State, r: Ref, b: Body)
    requires AddOk(s, r, b) && UvOk(s.objs, s.uvhead) && RefsLive(s) && RootsLive(s)
    requires s'.objs == s.objs[r := b] && s'.m.color == s.m.color[r := White(s.white)]
    requires s'.white == s.white && s'.roots == s.roots
    ensures RefsLive(s') && RootsLive(s')
  {
    assert forall x :: Live(s, x) ==> Live(s', x);
    forall x | Live(s', x)
      ensures ClosedAt(s', x)
    {
      forall c | Refers(s'.objs, x, c)
        ensures Live(s', c)
      {
        if x == r {
          NewBodyRefs(s.objs, r, b, c);
        } else {
          AddRefs(s.objs, s.uvhead, r, b, x, c);
          assert Live(s, x) && ClosedAt(s, x);
        }
      }
    }
  }

  lemma AddMarkInv(s: State, r: Ref, b: Body)
    requires AddOk(s, r, b) && UvOk(s.objs, s.uvhead) && MarkInv(s.objs, s.m, s.white)
    ensures MarkInv(s.objs[r := b], s.m.(color := s.m.color[r := White(s.white)]), s.white)
  {
    var objs := s.objs[r := b];
    var color := s.m.color[r := White(s.white)];
    AddLists(s.objs, s.m, s.white, r, b);
    forall x, c | Refers(objs, x, c)
      ensures c in objs && (x != r ==> Refers(s.objs, x, c))
    {
      if x == r {
        NewBodyRefs(s.objs, r, b, c);
      } else {
        AddRefs(s.objs, s.uvhead, r, b, x, c);
      }
    }
    forall x, c | x in color && color[x].Black? && x !in {} && Refers(objs, x, c)
      ensures Seen(color, [], c)
    {
      assert Refers(s.objs, x, c) && Seen(s.m.color, [], c);
      assert c in s.objs;
    }
  }

  lemma InsertSwept(s: State, r: Ref, b: Body, pos: nat)
    requires r !in s.objs && pos <= |s.rootgc| && (b.Thread? ==> b.openupval == []) && s.m.color.Keys == s.objs.Keys
    requires s.sweepgc <= |s.rootgc|
    requires forall i :: 0 <= i < s.sweepgc ==> Swept(s.objs, s.m.color, s.white, s.rootgc[i])
    ensures forall i :: 0 <= i < ShiftSweep(s.sweepgc, pos) ==>
              Swept(s.objs[r := b], s.m.color[r := White(s.white)], s.white, InsertAt(s.rootgc, pos, r)[i])
  {
    var objs := s.objs[r := b];
    var color := s.m.color[r := White(s.white)];
    forall i | 0 <= i < ShiftSweep(s.sweepgc, pos)
      ensures Swept(objs, color, s.white, InsertAt(s.rootgc, pos, r)[i])
    {
      if i != pos {
        var j := if i < pos then i else i - 1;
        assert InsertAt(s.rootgc, pos, r)[i] == s.rootgc[j];
        assert Swept(s.objs, s.m.color, s.white, s.rootgc[j]);
        assert forall u :: CurWhite(s.m.color, s.white, u) ==> CurWhite(color, s.white, u);
      }
    }
  }

  lemma NewStrings(s: State, r: Ref, b: Body)
    requires r !in s.objs && InRoot(b) && s.m.color.Keys == s.objs.Keys
    ensures StringsSwept(s.objs, s.m.color, s.white)
      ==> StringsSwept(s.objs[r := b], s.m.color[r := White(s.white)], s.white)
  {
  }

  lemma NewPhase(s: State, r: Ref, b: Body)
    requires NewOk(s, r, b) && UvOk(s.objs, s.uvhead) && s.m.color.Keys == s.objs.Keys && PhaseInv(s)
    ensures PhaseInv(New(s, r, b))
  {
    if s.phase == GCSpropagate {
      AddMarkInv(s, r, b);
      hide MarkInv, NewOk, UvOk, LinkPos;
    } else if s.phase == GCSsweep {
      InsertSwept(s, r, b, LinkPos(s, b));
      NewStrings(s, r, b);
      assert |InsertAt(s.rootgc, LinkPos(s, b), r)| == |s.rootgc| + 1;
      hide InsertAt, StringsSwept, Swept, UvOk, LinkPos;
    } else if s.phase == GCSsweepstring {
      var s' := New(s, r, b);
      assert s'.phase == GCSsweepstring && s'.strt == s.strt && s'.sweepstrgc == s.sweepstrgc;
      assert s'.sweepgc == 0;
      assert forall r1 :: CurWhite(s.m.color, s.white, r1) ==> CurWhite(s'.m.color, s'.white, r1);
    }
  }

  lemma NewRootList(s: State, r: Ref, b: Body, pos: nat)
    requires r !in s.objs && InRoot(b) && RootListOk(s.objs, s.rootgc) && pos <= |s.rootgc|
    ensures RootListOk(s.objs[r := b], InsertAt(s.rootgc, pos, r))
  {
    assert r !in s.rootgc;
    InsertMembers(s.rootgc, pos, r);
    InsertNoDup(s.rootgc, pos, r);
    hide InsertAt, NoDup;
  }

  lemma NewStruct(s: State, r: Ref, b: Body)
    requires NewOk(s, r, b) && Struct(s)
    ensures Struct(New(s, r, b))
  {
    hide RootListOk, UvOk, StrOk, InsertAt, ShiftSweep, FixedOk, NeverBlack;
    NewRootList(s, r, b, LinkPos(s, b));
    hide LinkPos;
    AddUvOk(s.objs, s.uvhead, r, b);
    SameStringsOk(s.objs, s.objs[r := b], s.strt, s.nuse);
    NewSmall(s, r, b);
    hide NewOk;
  }

  lemma NewSmall(s: State, r: Ref, b: Body)
    requires r !in s.objs && s.m.color.Keys == s.objs.Keys
    requires FixedOk(s.objs, s.roots, s.fixed) && NeverBlack(s.objs, s.m.color)
    ensures FixedOk(s.objs[r := b], s.roots, s.fixed) && NeverBlack(s.objs[r := b], s.m.color[r := White(s.white)])
  {
  }

  lemma NewInv(s: State, r: Ref, b: Body)
    requires Inv(s) && NewOk(s, r, b)
    ensures Inv(New(s, r, b))
  {
    AddLive(s, New(s, r, b), r, b);
    NewPhase(s, r, b);
    NewStruct(s, r, b);
    hide Struct, PhaseInv, RefsLive, RootsLive;
  }

  // ---------------------------------------------------------------- roots

  /** Another coroutine runs. */
  function Switch(s: State, t: Ref): State {
    s.(roots := s.roots.(running := t))
  }

  lemma RootsInv(s: State, roots: Roots)
    requires Inv(s) && FixedOk(s.objs, roots, s.fixed)
    requires roots.mainthread == s.roots.mainthread && roots.registry == s.roots.registry
    requires RootsLive(s.(roots := roots))
    ensures Inv(s.(roots := roots))
  {
    var s' := s.(roots := roots);
    assert forall r :: Live(s, r) <==> Live(s', r);
    forall r | Live(s', r)
      ensures ClosedAt(s', r)
    {
      assert ClosedAt(s, r);
    }
    hide FixedOk, StrOk, UvOk, RootListOk, MarkInv;
  }

  lemma SwitchInv(s: State, t: Ref)
    requires Inv(s) && Live(s, t) && s.objs[t].Thread?
    ensures Inv(Switch(s, t))
  {
    var s' := Switch(s, t);
    forall r | IsRoot(s', r)
      ensures Live(s', r)
    {
      assert IsRoot(s, r) || r == t;
    }
    RootsInv(s, s'.roots);
  }

  /** The metatable of a basic type changes; no barrier, for `mt` is marked again atomically. */
  function SetMt(s: State, i: nat, v: Value): State {
    if i < |s.roots.mt| then s.(roots := s.roots.(mt := s.roots.mt[i := v])) else s
  }

  lemma SetMtInv(s: State, i: nat, v: Value)
    requires Inv(s) && (v.Obj? ==> Live(s, v.ref))
    ensures Inv(SetMt(s, i, v))
  {
    var s' := SetMt(s, i, v);
    forall r | IsRoot(s', r)
      ensures Live(s', r)
    {
      assert IsRoot(s, r) || v == Obj(r);
    }
    RootsInv(s, s'.roots);
  }
}

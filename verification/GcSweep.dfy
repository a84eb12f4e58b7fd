/**
  The sweep (lgc.c: sweeplist, freeobj, checkSizes; lstate.c: luaE_freethread).
 */
module GcSweep {
  import opened GcHeap
  import opened GcMark
  import opened GcCycle
  import opened GcAtomic
  import opened GcInv
  import opened GcMutator
  import opened GcAlloc
  import opened GcUpval
  import opened GcStrings

  const GCSWEEPMAX: nat := 40
  const MINSTRTABSIZE: nat := 32

  /** Dead, and not fixed. */
  predicate Doomed(color: Colors, fixed: set<Ref>, white: bool, r: Ref) {
    r in color && color[r] == White(!white) && r !in fixed
  }

  function Kept(color: Colors, fixed: set<Ref>, white: bool, l: seq<Ref>): seq<Ref> {
    if l == [] then []
    else (if Doomed(color, fixed, white, l[0]) then [] else [l[0]]) + Kept(color, fixed, white, l[1..])
  }

  function DoomedIn(color: Colors, fixed: set<Ref>, white: bool, l: seq<Ref>): set<Ref> {
    set r | r in l && Doomed(color, fixed, white, r)
  }

  /** The colours after a list is swept: what is kept gets the current white. */
  function SweptColors(color: Colors, fixed: set<Ref>, white: bool, l: seq<Ref>): Colors {
    map r | r in color && !(r in l && Doomed(color, fixed, white, r)) :: if r in l then White(white) else color[r]
  }

  function Minus(l: seq<Ref>, gone: set<Ref>): seq<Ref> {
    if l == [] then [] else (if l[0] in gone then [] else [l[0]]) + Minus(l[1..], gone)
  }

  /** One chain of the string table. */
  function SweepBucket(s: State): State
    requires s.sweepstrgc < |s.strt|
  {
    var i := s.sweepstrgc;
    var l := s.strt[i];
    var kept := Kept(s.m.color, s.fixed, s.white, l);
    s.(objs := s.objs - DoomedIn(s.m.color, s.fixed, s.white, l),
       m := s.m.(color := SweptColors(s.m.color, s.fixed, s.white, l)),
       strt := s.strt[i := kept], nuse := s.nuse - (|l| - |kept|), sweepstrgc := i + 1,
       phase := if i + 1 >= |s.strt| then GCSsweep else s.phase)
  }

  /** The open upvalues of a thread. */
  function SweepUpvals(s: State, t: Ref): State
    requires t in s.objs && s.objs[t].Thread?
  {
    var th := s.objs[t];
    var l := th.openupval;
    var gone := DoomedIn(s.m.color, s.fixed, s.white, l);
    s.(objs := s.objs[t := Thread(th.gt, th.stack, Kept(s.m.color, s.fixed, s.white, l))] - gone,
       m := s.m.(color := SweptColors(s.m.color, s.fixed, s.white, l)),
       uvhead := Minus(s.uvhead, gone))
  }

  function Unlink(s: State, r: Ref): State {
    s.(objs := s.objs - {r}, m := s.m.(color := s.m.color - {r}), rootgc := Without(s.rootgc, r))
  }

  function SweepKeep(s: State, r: Ref): State {
    s.(m := s.m.(color := s.m.color[r := White(s.white)]), sweepgc := s.sweepgc + 1)
  }

  // ---------------------------------------------------------------- filtering

  lemma {:induction false} KeptSpec(color: Colors, fixed: set<Ref>, white: bool, l: seq<Ref>)
    ensures forall r :: r in Kept(color, fixed, white, l) <==> r in l && !Doomed(color, fixed, white, r)
    ensures |Kept(color, fixed, white, l)| <= |l|
    ensures NoDup(l) ==> NoDup(Kept(color, fixed, white, l))
  {
    if l != [] {
      assert l == [l[0]] + l[1..];
      KeptSpec(color, fixed, white, l[1..]);
      if NoDup(l) && !Doomed(color, fixed, white, l[0]) {
        assert l[0] !in l[1..];
        NoDupCons(l[0], Kept(color, fixed, white, l[1..]));
      }
    }
  }

  ghost predicate Decreasing(objs: Heap, l: seq<Ref>) {
    forall i, j :: 0 <= i < j < |l| ==> Level(objs, l[i]) > Level(objs, l[j])
  }

  lemma {:induction false} KeptDecreasing(objs: Heap, color: Colors, fixed: set<Ref>, white: bool, l: seq<Ref>)
    requires Decreasing(objs, l)
    ensures Decreasing(objs, Kept(color, fixed, white, l))
  {
    if l != [] {
      var rest := l[1..];
      assert Decreasing(objs, rest);
      KeptDecreasing(objs, color, fixed, white, rest);
      KeptSpec(color, fixed, white, rest);
      var k := Kept(color, fixed, white, rest);
      forall i | 0 <= i < |k|
        ensures Level(objs, l[0]) > Level(objs, k[i])
      {
        assert k[i] in rest;
        var j :| 0 <= j < |rest| && rest[j] == k[i];
        assert l[j + 1] == rest[j];
      }
    }
  }

  lemma {:induction false} MinusSpec(l: seq<Ref>, gone: set<Ref>)
    ensures forall r :: r in Minus(l, gone) <==> r in l && r !in gone
    ensures NoDup(l) ==> NoDup(Minus(l, gone))
  {
    if l != [] {
      assert l == [l[0]] + l[1..];
      MinusSpec(l[1..], gone);
      if NoDup(l) && l[0] !in gone {
        assert l[0] !in l[1..];
        NoDupCons(l[0], Minus(l[1..], gone));
      }
    }
  }

  // ---------------------------------------------------------------- freeing dead objects

  /** What sweeping a list does to liveness: the dead go, the rest stay; fixed objects come back to life. */
  lemma SweptLive(s: State, s': State, l: seq<Ref>)
    requires s'.m.color == SweptColors(s.m.color, s.fixed, s.white, l)
    requires s'.objs.Keys == s.objs.Keys - DoomedIn(s.m.color, s.fixed, s.white, l) && s'.white == s.white
    ensures forall r :: Live(s, r) ==> Live(s', r)
    ensures forall r :: Live(s', r) ==> Live(s, r) || (r in l && r in s.fixed)
  {
  }

  lemma SweptMonotone(s: State, s': State, l: seq<Ref>)
    requires s'.m.color == SweptColors(s.m.color, s.fixed, s.white, l) && s'.white == s.white
    ensures forall r :: CurWhite(s.m.color, s.white, r) ==> CurWhite(s'.m.color, s'.white, r)
    ensures forall r :: r in l && r in s.m.color && !Doomed(s.m.color, s.fixed, s.white, r)
                        ==> CurWhite(s'.m.color, s'.white, r)
  {
  }

  /** Freeing dead objects: live ones keep their references, if no live upvalue stood for a slot of a freed thread. */
  lemma FreedRefs(s: State, s': State)
    requires RefsLive(s) && RootsLive(s) && s'.roots == s.roots && UvOk(s.objs, s.uvhead)
    requires forall r :: Live(s, r) ==> Live(s', r)
    requires forall r :: Live(s', r) ==> Live(s, r) || s'.objs[r].Str?
    requires forall x :: x in s'.objs ==> x in s.objs
    requires forall x :: x in s'.objs && !s.objs[x].Thread? ==> s'.objs[x] == s.objs[x]
    requires forall x :: x in s'.objs && s.objs[x].Thread? ==>
               s'.objs[x].Thread? && s'.objs[x].gt == s.objs[x].gt && s'.objs[x].stack == s.objs[x].stack
    requires forall x :: Live(s, x) && IsOpen(s.objs[x]) ==> s.objs[x].v.thread in s'.objs
    ensures RefsLive(s') && RootsLive(s')
  {
    forall x, c | Live(s, x) && Refers(s'.objs, x, c)
      ensures Refers(s.objs, x, c)
    {
      if IsOpen(s.objs[x]) {
        assert SlotVal(s'.objs, s.objs[x].v) == SlotVal(s.objs, s.objs[x].v);
      }
    }
    RefsKept(s, s');
  }

  lemma FreedKeepsLive(s: State, s': State)
    requires s'.roots == s.roots && s'.fixed == s.fixed && UvOk(s.objs, s.uvhead)
    requires forall r :: Live(s, r) ==> Live(s', r)
    requires forall r :: Live(s', r) ==> Live(s, r) || r in s.fixed
    requires forall x :: x in s'.objs ==> x in s.objs
    requires forall x :: x in s'.objs && !s.objs[x].Thread? ==> s'.objs[x] == s.objs[x]
    requires forall x :: x in s'.objs && s.objs[x].Thread? ==>
               s'.objs[x].Thread? && s'.objs[x].gt == s.objs[x].gt && s'.objs[x].stack == s.objs[x].stack
    requires forall x :: Live(s, x) && IsOpen(s.objs[x]) ==> s.objs[x].v.thread in s'.objs
    ensures KeepsLive(s, s')
  {
    forall x, c | Live(s, x)
      ensures Refers(s'.objs, x, c) <==> Refers(s.objs, x, c)
    {
      if IsOpen(s.objs[x]) {
        assert SlotVal(s'.objs, s.objs[x].v) == SlotVal(s.objs, s.objs[x].v);
      }
    }
  }

  // ---------------------------------------------------------------- one chain of strings

  lemma BucketShape(s: State)
    requires StrOk(s.objs, s.strt, s.nuse) && s.sweepstrgc < |s.strt| && FixedOk(s.objs, s.roots, s.fixed)
    ensures var l := s.strt[s.sweepstrgc];
            && (forall r :: r in l ==> r in s.objs && s.objs[r].Str?)
            && (forall r :: r in DoomedIn(s.m.color, s.fixed, s.white, l) ==> r in l && Dead(s, r) && r in s.objs
                                                                              && s.objs[r].Str?)
  {
    hide Interned, Total;
  }

  lemma BucketHolds(s: State)
    requires BucketsOk(s.objs, s.strt) && s.sweepstrgc < |s.strt|
    ensures BucketsOk(SweepBucket(s).objs, SweepBucket(s).strt)
  {
    var s' := SweepBucket(s);
    var i := s.sweepstrgc;
    var l := s.strt[i];
    KeptSpec(s.m.color, s.fixed, s.white, l);
    hide Bucket, Kept;
    assert forall b :: 0 <= b < |s.strt| && b != i ==> s'.strt[b] == s.strt[b];
    forall r | r in s'.objs && s'.objs[r].Str?
      ensures r in s'.strt[Bucket(s'.objs[r].hash, |s'.strt|)]
    {
      assert r in s.strt[Bucket(s.objs[r].hash, |s.strt|)];
    }
    forall b, r | 0 <= b < |s'.strt| && r in s'.strt[b]
      ensures r in s'.objs && s'.objs[r].Str? && Bucket(s'.objs[r].hash, |s'.strt|) == b
    {
      assert r in s.strt[b];
      if b != i {
        assert r !in l by {
          assert Bucket(s.objs[r].hash, |s.strt|) == b;
        }
      }
    }
  }

  lemma BucketStrOk(s: State)
    requires StrOk(s.objs, s.strt, s.nuse) && s.sweepstrgc < |s.strt|
    ensures StrOk(SweepBucket(s).objs, SweepBucket(s).strt, SweepBucket(s).nuse)
  {
    var s' := SweepBucket(s);
    var l := s.strt[s.sweepstrgc];
    BucketHolds(s);
    hide BucketsOk, Kept;
    TotalUpdate(s.strt, s.sweepstrgc, Kept(s.m.color, s.fixed, s.white, l));
    assert Interned(s'.objs);
  }

  /** Freeing strings changes neither the root list nor the upvalues. */
  lemma FreedStrings(s: State, s': State)
    requires UvOk(s.objs, s.uvhead) && RootListOk(s.objs, s.rootgc) && FixedOk(s.objs, s.roots, s.fixed)
    requires forall r :: r in s'.objs <==> r in s.objs && (r in s'.objs || !s.objs[r].Str?)
    requires forall r :: r in s'.objs && r in s.objs ==> s'.objs[r] == s.objs[r]
    requires forall r :: r in s.fixed ==> r in s'.objs
    requires s'.roots == s.roots && s'.uvhead == s.uvhead && s'.rootgc == s.rootgc && s'.fixed == s.fixed
    ensures UvOk(s'.objs, s'.uvhead) && RootListOk(s'.objs, s'.rootgc) && FixedOk(s'.objs, s'.roots, s'.fixed)
  {
    forall t | t in s'.objs && s'.objs[t].Thread?
      ensures UvListOk(s'.objs, t)
    {
      var l := s.objs[t].openupval;
      assert UvListOk(s.objs, t);
      assert forall i :: 0 <= i < |l| ==> l[i] in l && Level(s'.objs, l[i]) == Level(s.objs, l[i]);
    }
  }

  lemma BucketFrame(s: State)
    requires Struct(s) && s.sweepstrgc < |s.strt|
    ensures var s' := SweepBucket(s);
            && UvOk(s'.objs, s'.uvhead) && RootListOk(s'.objs, s'.rootgc) && FixedOk(s'.objs, s'.roots, s'.fixed)
            && NeverBlack(s'.objs, s'.m.color) && s'.m.color.Keys == s'.objs.Keys
  {
    hide UvOk, RootListOk, StrOk;
    var s' := SweepBucket(s);
    BucketShape(s);
    BucketColors(s);
    hide NeverBlack;
    FreedStrings(s, s');
  }

  lemma BucketColors(s: State)
    requires NeverBlack(s.objs, s.m.color) && s.m.color.Keys == s.objs.Keys && s.sweepstrgc < |s.strt|
    requires FixedOk(s.objs, s.roots, s.fixed)
    ensures var s' := SweepBucket(s);
            && NeverBlack(s'.objs, s'.m.color) && s'.m.color.Keys == s'.objs.Keys
            && forall r :: r in s.fixed ==> r in s'.objs
  {
    hide Kept;
  }

  lemma BucketRefs(s: State)
    requires Inv(s) && s.sweepstrgc < |s.strt|
    ensures RefsLive(SweepBucket(s)) && RootsLive(SweepBucket(s))
    ensures KeepsLive(s, SweepBucket(s))
  {
    hide PhaseInv, RootListOk;
    var s' := SweepBucket(s);
    var l := s.strt[s.sweepstrgc];
    BucketShape(s);
    hide StrOk;
    SweptLive(s, s', l);
    hide RefsLive, RootsLive;
    FreedRefs(s, s');
    FreedKeepsLive(s, s');
    hide KeepsLive;
  }

  lemma BucketPhase(s: State)
    requires BucketsOk(s.objs, s.strt) && PhaseInv(s) && s.phase == GCSsweepstring
    requires s.m.color.Keys == s.objs.Keys
    ensures PhaseInv(SweepBucket(s))
  {
    var s' := SweepBucket(s);
    var i := s.sweepstrgc;
    var l := s.strt[i];
    KeptSpec(s.m.color, s.fixed, s.white, l);
    SweptMonotone(s, s', l);
    BucketHolds(s);
    forall b, r | 0 <= b <= i && r in s'.strt[b]
      ensures CurWhite(s'.m.color, s'.white, r)
    {
      assert r in s.strt[b] && r in s.objs;
    }
    if s'.phase == GCSsweep {
      forall r | r in s'.objs && s'.objs[r].Str?
        ensures CurWhite(s'.m.color, s'.white, r)
      {
        assert r in s'.strt[Bucket(s'.objs[r].hash, |s'.strt|)];
      }
    }
    hide Bucket, CurWhite;
  }

  lemma SweepBucketInv(s: State)
    requires Inv(s) && s.phase == GCSsweepstring
    ensures s.sweepstrgc < |s.strt|
    ensures Inv(SweepBucket(s)) && KeepsLive(s, SweepBucket(s))
  {
    hide KeepsLive;
    BucketRefs(s);
    BucketFrame(s);
    hide RefsLive, RootsLive, UvOk, RootListOk, FixedOk, NeverBlack;
    BucketStrOk(s);
    BucketPhase(s);
    hide StrOk, PhaseInv;
  }

  // ---------------------------------------------------------------- the open upvalues of a thread

  lemma UpvalsShape(s: State, t: Ref)
    requires UvOk(s.objs, s.uvhead) && FixedOk(s.objs, s.roots, s.fixed) && t in s.objs && s.objs[t].Thread?
    ensures var l := s.objs[t].openupval;
            forall u :: u in l ==> OpenAt(s.objs, u, t) && u !in s.fixed && u != t
  {
    assert UvListOk(s.objs, t);
  }

  /** `objs'` is `objs` without the upvalues in `gone`, all of thread `t`, whose list is now `kept`. */
  ghost predicate Thinned(objs: Heap, objs': Heap, t: Ref, gone: set<Ref>, kept: seq<Ref>) {
    && t in objs && objs[t].Thread? && t !in gone
    && (forall u :: u in gone ==> OpenAt(objs, u, t))
    && objs'.Keys == objs.Keys - gone
    && objs'[t] == Thread(objs[t].gt, objs[t].stack, kept)
    && (forall x :: x in objs' && x != t ==> objs'[x] == objs[x])
    && (forall u :: u in kept <==> u in objs[t].openupval && u !in gone)
    && Decreasing(objs, kept)
  }

  lemma UpvalsThinned(s: State, t: Ref)
    requires UvOk(s.objs, s.uvhead) && FixedOk(s.objs, s.roots, s.fixed) && t in s.objs && s.objs[t].Thread?
    ensures var l := s.objs[t].openupval;
            Thinned(s.objs, SweepUpvals(s, t).objs, t, DoomedIn(s.m.color, s.fixed, s.white, l),
              Kept(s.m.color, s.fixed, s.white, l))
  {
    UpvalsShape(s, t);
    var l := s.objs[t].openupval;
    assert UvListOk(s.objs, t);
    KeptSpec(s.m.color, s.fixed, s.white, l);
    KeptDecreasing(s.objs, s.m.color, s.fixed, s.white, l);
    hide Kept, UvOk, FixedOk;
  }

  lemma ThinnedList(objs: Heap, objs': Heap, t: Ref, gone: set<Ref>, kept: seq<Ref>, t2: Ref)
    requires Thinned(objs, objs', t, gone, kept) && t2 in objs && objs[t2].Thread? && UvListOk(objs, t2)
    requires UvListOk(objs, t)
    ensures t2 in objs' && objs'[t2].Thread? && UvListOk(objs', t2)
  {
    var l' := if t2 == t then kept else objs[t2].openupval;
    assert t2 !in gone && objs'[t2].openupval == l';
    forall u | u in l'
      ensures u in objs[t2].openupval && u in objs' && objs'[u] == objs[u] && Level(objs', u) == Level(objs, u)
    {
      assert OpenAt(objs, u, t2);
    }
    assert forall i :: 0 <= i < |l'| ==> l'[i] in l';
  }

  lemma ThinnedUvOk(objs: Heap, objs': Heap, t: Ref, gone: set<Ref>, kept: seq<Ref>, uvhead: seq<Ref>)
    requires Thinned(objs, objs', t, gone, kept) && UvOk(objs, uvhead)
    ensures UvOk(objs', Minus(uvhead, gone))
  {
    MinusSpec(uvhead, gone);
    assert UvListOk(objs, t);
    forall t2 | t2 in objs' && objs'[t2].Thread?
      ensures UvListOk(objs', t2)
    {
      assert UvListOk(objs, t2);
      ThinnedList(objs, objs', t, gone, kept, t2);
    }
    forall u | u in objs' && IsOpen(objs'[u])
      ensures objs'[u].v.thread in objs' && objs'[objs'[u].v.thread].Thread? && u in objs'[objs'[u].v.thread].openupval
    {
      assert u != t && objs'[u] == objs[u];
      assert objs[u].v.thread !in gone;
    }
  }

  lemma UpvalsUvOk(s: State, t: Ref)
    requires UvOk(s.objs, s.uvhead) && FixedOk(s.objs, s.roots, s.fixed) && t in s.objs && s.objs[t].Thread?
    ensures UvOk(SweepUpvals(s, t).objs, SweepUpvals(s, t).uvhead)
  {
    hide UvOk, FixedOk, Kept, Minus;
    var l := s.objs[t].openupval;
    UpvalsThinned(s, t);
    hide Thinned;
    ThinnedUvOk(s.objs, SweepUpvals(s, t).objs, t, DoomedIn(s.m.color, s.fixed, s.white, l),
      Kept(s.m.color, s.fixed, s.white, l), s.uvhead);
  }

  lemma ThinnedKinds(objs: Heap, objs': Heap, t: Ref, gone: set<Ref>, kept: seq<Ref>)
    requires Thinned(objs, objs', t, gone, kept)
    ensures SameKinds(objs, objs')
  {
  }

  lemma UpvalsKinds(s: State, t: Ref)
    requires UvOk(s.objs, s.uvhead) && FixedOk(s.objs, s.roots, s.fixed) && t in s.objs && s.objs[t].Thread?
    requires s.m.color.Keys == s.objs.Keys && NeverBlack(s.objs, s.m.color)
    ensures var s' := SweepUpvals(s, t);
            SamePlaces(s, s') && SameKinds(s.objs, s'.objs) && s'.m.color.Keys == s'.objs.Keys
              && NeverBlack(s'.objs, s'.m.color)
  {
    hide UvOk, FixedOk, Kept, Minus;
    var l := s.objs[t].openupval;
    UpvalsThinned(s, t);
    ThinnedKinds(s.objs, SweepUpvals(s, t).objs, t, DoomedIn(s.m.color, s.fixed, s.white, l),
      Kept(s.m.color, s.fixed, s.white, l));
    hide SameKinds;
  }

  lemma UpvalsRefs(s: State, t: Ref)
    requires UvOk(s.objs, s.uvhead) && FixedOk(s.objs, s.roots, s.fixed) && t in s.objs && s.objs[t].Thread?
    requires RefsLive(s) && RootsLive(s)
    ensures RefsLive(SweepUpvals(s, t)) && RootsLive(SweepUpvals(s, t))
    ensures KeepsLive(s, SweepUpvals(s, t))
  {
    var s' := SweepUpvals(s, t);
    var l := s.objs[t].openupval;
    UpvalsShape(s, t);
    SweptLive(s, s', l);
    hide RefsLive, RootsLive, Kept, Minus, FixedOk;
    assert forall x :: Live(s, x) && IsOpen(s.objs[x]) ==> s.objs[x].v.thread in s'.objs;
    FreedRefs(s, s');
    FreedKeepsLive(s, s');
  }

  lemma UpvalsSwept(s: State, t: Ref)
    requires UvOk(s.objs, s.uvhead) && FixedOk(s.objs, s.roots, s.fixed) && t in s.objs && s.objs[t].Thread?
    ensures SweptKept(s, SweepUpvals(s, t))
    ensures s.m.color.Keys == s.objs.Keys ==>
              forall u :: u in SweepUpvals(s, t).objs[t].openupval ==> CurWhite(SweepUpvals(s, t).m.color, s.white, u)
    ensures forall x :: x !in s.objs[t].openupval && x in s.m.color ==>
              x in SweepUpvals(s, t).m.color && SweepUpvals(s, t).m.color[x] == s.m.color[x]
  {
    hide UvOk, Kept, Minus, FixedOk;
    var s' := SweepUpvals(s, t);
    var l := s.objs[t].openupval;
    UpvalsShape(s, t);
    SweptMonotone(s, s', l);
    KeptSpec(s.m.color, s.fixed, s.white, l);
  }

  lemma SweepUpvalsInv(s: State, t: Ref)
    requires Inv(s) && s.phase == GCSsweep && t in s.objs && s.objs[t].Thread?
    ensures Inv(SweepUpvals(s, t)) && KeepsLive(s, SweepUpvals(s, t))
  {
    hide KeepsLive, PhaseInv, UvOk, RootListOk, FixedOk, StrOk, NeverBlack, RefsLive, RootsLive;
    var s' := SweepUpvals(s, t);
    UpvalsUvOk(s, t);
    UpvalsKinds(s, t);
    UpvalsRefs(s, t);
    UpvalsSwept(s, t);
    hide SweptKept, SameKinds, SweepUpvals;
    StructKept(s, s');
    PhaseKept(s, s');
  }
}

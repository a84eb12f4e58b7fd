/**
  What luaF_close does to the heap (lfunc.c): it detaches exactly the upvalues at or above a
  level, and every upvalue that outlives it stands for the value it stood for.
 */
module GcClose {
  import opened GcHeap
  import opened GcMark
  import opened GcCycle
  import opened GcAtomic
  import opened GcInv
  import opened GcMutator
  import opened GcAlloc
  import opened GcUpval
  import opened GcStrings
  import opened GcSweep
  import opened GcSweepList
  import opened GcSteps
  import opened GcFull
  import opened GcRuns

  /** What closing one upvalue of thread `t` does to object `x`. */
  lemma CloseOneAt(s: State, t: Ref, x: Ref)
    requires t in s.objs && s.objs[t].Thread? && UvListOk(s.objs, t) && s.objs[t].openupval != []
    ensures CanClose(s.objs, t)
    ensures var s' := CloseOne(s, t);
            var u := s.objs[t].openupval[0];
            && t in s'.objs && s'.objs[t] == Thread(s.objs[t].gt, s.objs[t].stack, s.objs[t].openupval[1..])
            && UvListOk(s'.objs, t)
            && (x != t && x != u ==> (x in s'.objs <==> x in s.objs) && (x in s.objs ==> s'.objs[x] == s.objs[x]))
            && (u in s'.objs <==> !Dead(s, u))
            && (u in s'.objs ==> s'.objs[u] == UpVal(Closed(SlotVal(s.objs, s.objs[u].v))))
  {
    CloseOneList(s, t);
    CloseOneFrame(s, t, x);
    CloseHead(s, t);
    hide UvListOk;
  }

  /** An object that is neither the thread nor one of its open upvalues is left alone. */
  lemma {:induction false} CloseUpvalsFrame(s: State, t: Ref, level: nat, x: Ref)
    requires t in s.objs && s.objs[t].Thread? && UvListOk(s.objs, t)
    requires x != t && x !in s.objs[t].openupval
    ensures var s' := CloseUpvals(s, t, level);
            (x in s'.objs <==> x in s.objs) && (x in s.objs ==> s'.objs[x] == s.objs[x])
    decreases |s.objs[t].openupval|
  {
    hide UvListOk, CloseOne;
    var l := s.objs[t].openupval;
    if l != [] && Level(s.objs, l[0]) >= level {
      CloseOneAt(s, t, x);
      assert l == [l[0]] + l[1..];
      CloseUpvalsFrame(CloseOne(s, t), t, level, x);
    }
  }

  /** The upvalues of a list are different ones, and none is the thread. */
  lemma HeadApart(objs: Heap, t: Ref)
    requires t in objs && objs[t].Thread? && UvListOk(objs, t) && objs[t].openupval != []
    ensures var l := objs[t].openupval;
            l[0] !in l[1..] && forall u :: u in l ==> u != t && u in objs && IsOpen(objs[u])
                                                      && Level(objs, u) <= Level(objs, l[0])
  {
    var l := objs[t].openupval;
    assert forall i :: 1 <= i < |l| ==> Level(objs, l[0]) > Level(objs, l[i]);
    assert l == [l[0]] + l[1..];
  }

  /** Closing detaches exactly the open upvalues at or above the level, and changes nothing else of the thread. */
  lemma {:induction false} CloseUpvalsExact(s: State, t: Ref, level: nat)
    requires t in s.objs && s.objs[t].Thread? && UvListOk(s.objs, t)
    ensures var s' := CloseUpvals(s, t, level);
            && t in s'.objs && s'.objs[t].Thread?
            && s'.objs[t].gt == s.objs[t].gt && s'.objs[t].stack == s.objs[t].stack
            && forall u :: u in s'.objs[t].openupval <==> u in s.objs[t].openupval && Level(s.objs, u) < level
    decreases |s.objs[t].openupval|
  {
    hide UvListOk, CloseOne;
    var l := s.objs[t].openupval;
    if l != [] {
      HeadApart(s.objs, t);
      if Level(s.objs, l[0]) >= level {
        CloseOneAt(s, t, t);
        assert l == [l[0]] + l[1..];
        forall u | u in l[1..]
          ensures Level(CloseOne(s, t).objs, u) == Level(s.objs, u)
        {
          CloseOneAt(s, t, u);
        }
        CloseUpvalsExact(CloseOne(s, t), t, level);
      }
    }
  }

  /**
    An open upvalue of the thread is kept below the level; above, it is freed if dead, and else
    closed over its slot's value.
   */
  lemma {:induction false} CloseUpvalsEach(s: State, t: Ref, level: nat, u: Ref)
    requires Inv(s) && t in s.objs && s.objs[t].Thread? && UvListOk(s.objs, t) && u in s.objs[t].openupval
    ensures var s' := CloseUpvals(s, t, level);
            && u in s.objs && IsOpen(s.objs[u])
            && (Level(s.objs, u) < level ==> u in s'.objs && s'.objs[u] == s.objs[u])
            && (Level(s.objs, u) >= level ==> (u in s'.objs <==> !Dead(s, u)))
            && (Level(s.objs, u) >= level && u in s'.objs ==> s'.objs[u] == UpVal(Closed(SlotVal(s.objs, s.objs[u].v))))
    decreases |s.objs[t].openupval|
  {
    hide Inv, UvListOk, CloseOne;
    var l := s.objs[t].openupval;
    HeadApart(s.objs, t);
    assert l == [l[0]] + l[1..];
    if Level(s.objs, l[0]) >= level {
      CloseOneAt(s, t, u);
      var s1 := CloseOne(s, t);
      if u == l[0] {
        CloseUpvalsFrame(s1, t, level, u);
      } else {
        CloseOneInv(s, t);
        CloseOneDead(s, t, u);
        SlotKept(s, t, u);
        CloseUpvalsEach(s1, t, level, u);
      }
    }
  }

  lemma CloseOneDead(s: State, t: Ref, u: Ref)
    requires Inv(s) && CanClose(s.objs, t) && u in s.objs && u in CloseOne(s, t).objs
    ensures Dead(s, u) <==> Dead(CloseOne(s, t), u)
  {
    hide UvOk, StrOk, RootListOk, FixedOk, RefsLive, RootsLive, CloseOne;
    CloseSameDead(s, t);
    var s' := CloseOne(s, t);
    assert u in s.m.color && u in s'.m.color;
    assert Live(s, u) <==> Live(s', u);
  }

  lemma SlotKept(s: State, t: Ref, u: Ref)
    requires t in s.objs && s.objs[t].Thread? && UvListOk(s.objs, t) && s.objs[t].openupval != []
    requires u in s.objs[t].openupval
    ensures u in s.objs && s.objs[u].UpVal?
    ensures SlotVal(CloseOne(s, t).objs, s.objs[u].v) == SlotVal(s.objs, s.objs[u].v)
  {
    CloseOneAt(s, t, t);
    hide CloseOne;
  }

  /** The value of upvalue `u`. */
  function UpvalVal(objs: Heap, u: Ref): Value
    requires u in objs && objs[u].UpVal?
  {
    SlotVal(objs, objs[u].v)
  }

  lemma OwnerOf(s: State, u: Ref)
    requires Inv(s) && u in s.objs && IsOpen(s.objs[u])
    ensures ThreadAt(s.objs, s.objs[u].v.thread) && u in s.objs[s.objs[u].v.thread].openupval
  {
    hide StrOk, RootListOk, FixedOk, NeverBlack, RefsLive, RootsLive, PhaseInv, UvListOk;
  }

  /** Every upvalue that is alive stands for the same value after luaF_close. */
  lemma CloseUpvalsKeepsValues(s: State, t: Ref, level: nat, u: Ref)
    requires Inv(s) && t in s.objs && s.objs[t].Thread? && UvListOk(s.objs, t)
    requires Live(s, u) && s.objs[u].UpVal?
    ensures var s' := CloseUpvals(s, t, level);
            u in s'.objs && s'.objs[u].UpVal? && UpvalVal(s'.objs, u) == UpvalVal(s.objs, u)
  {
    hide Inv, UvListOk, CloseUpvals;
    CloseUpvalsExact(s, t, level);
    if u in s.objs[t].openupval {
      CloseUpvalsEach(s, t, level, u);
      OwnerOf(s, u);
      OpenHere(s.objs, t, u);
    } else {
      CloseUpvalsFrame(s, t, level, u);
      if IsOpen(s.objs[u]) {
        OwnerOf(s, u);
        var t2 := s.objs[u].v.thread;
        assert t2 !in s.objs[t].openupval by {
          if t2 in s.objs[t].openupval {
            OpenHere(s.objs, t, t2);
          }
        }
        CloseUpvalsFrame(s, t, level, t2);
      }
    }
  }

  lemma OpenHere(objs: Heap, t: Ref, u: Ref)
    requires t in objs && objs[t].Thread? && UvListOk(objs, t) && u in objs[t].openupval
    ensures u in objs && IsOpen(objs[u]) && objs[u].v.thread == t
  {
  }

  /** The same for a step of the program that closes the upvalues of the running thread. */
  lemma CloseStep(s: State, level: nat, u: Ref)
    requires Inv(s) && Live(s, u) && s.objs[u].UpVal?
    ensures var s' := Step(s, Close(level));
            var t := s.roots.running;
            && u in s'.objs && s'.objs[u].UpVal? && UpvalVal(s'.objs, u) == UpvalVal(s.objs, u)
            && ThreadAt(s.objs, t) && ThreadAt(s'.objs, t)
            && (u in s'.objs[t].openupval <==> u in s.objs[t].openupval && Level(s.objs, u) < level)
            && (u in s.objs[t].openupval && Level(s.objs, u) >= level ==> s'.objs[u].v == Closed(UpvalVal(s.objs, u)))
  {
    hide Inv, CloseUpvals, UvListOk;
    var t := s.roots.running;
    RunningThread(s);
    CloseUpvalsInv(s, t, level);
    CloseUpvalsKeepsValues(s, t, level, u);
    CloseUpvalsExact(s, t, level);
    if u in s.objs[t].openupval {
      CloseUpvalsEach(s, t, level, u);
    }
  }

  /** An upvalue that is alive outlives its thread, with its value: freeing a thread closes all its upvalues first. */
  lemma FreeThreadKeepsValues(s: State, t: Ref, u: Ref)
    requires Inv(s) && t in s.objs && s.objs[t].Thread? && Live(s, u) && s.objs[u].UpVal?
    ensures var s' := FreeObj(s, t);
            && t !in s'.objs && u in s'.objs && s'.objs[u].UpVal? && UpvalVal(s'.objs, u) == UpvalVal(s.objs, u)
            && (u in s.objs[t].openupval ==> s'.objs[u].v == Closed(UpvalVal(s.objs, u)))
  {
    hide Inv, CloseUpvals, UvListOk;
    CloseUpvalsInv(s, t, 0);
    CloseUpvalsKeepsValues(s, t, 0, u);
    CloseUpvalsExact(s, t, 0);
    var s1 := CloseUpvals(s, t, 0);
    if u in s.objs[t].openupval {
      CloseUpvalsEach(s, t, 0, u);
    }
    if IsOpen(s1.objs[u]) {
      OwnerOf(s1, u);
    }
  }
}

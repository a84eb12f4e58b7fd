/**
  What the program can count on between two steps of the collector: what it makes is alive,
  and stays so until the collector moves.  And a run in which a closure it made, with an open
  upvalue, outlives a collection while garbage does not.
 */
module GcProgram {
  import opened GcHeap
  import opened GcMark
  import opened GcCycle
  import opened GcAtomic
  import opened GcInv
  import opened GcMutator
  import opened GcAlloc
  import opened GcUpval
  import opened GcFindUpval
  import opened GcStrings
  import opened GcSweep
  import opened GcSweepList
  import opened GcSteps
  import opened GcFull
  import opened GcRuns
  import opened GcStringHash

  predicate ByProgram(op: Op) {
    op != Collect && op != FullCollect
  }

  // ---------------------------------------------------------------- what the program holds

  lemma WrittenStays(s: State, t: Ref, b: Body, news: seq<Value>, r: Ref)
    requires Inv(s) && WriteOk(s, t, b, news) && Live(s, r)
    ensures Live(Write(s, t, b, news), r)
  {
    WriteSameDead(s, t, b, news);
    hide UvOk, StrOk, RootListOk, FixedOk, NeverBlack, RefsLive, RootsLive, PhaseInv, WriteOk, Barriers;
  }

  lemma FoundStays(s: State, t: Ref, level: nat, u: Ref, r: Ref)
    requires FindOk(s, t, level, u) && Live(s, r)
    ensures Live(FindUpval(s, t, level, u), r)
  {
    hide InsertAt, UvPos;
  }

  lemma InternedStays(s: State, bytes: Bytes, u: Ref, r: Ref)
    requires |s.strt| > 0 && Live(s, r)
    ensures Live(Intern(s, bytes, u), r)
  {
    hide Hash, FindStr, Rehash, Bucket;
  }

  /** What is alive stays alive through every step of the program. */
  lemma StaysUsable(s: State, op: Op, r: Ref)
    requires Inv(s) && Enabled(s, op) && ByProgram(op) && Live(s, r)
    ensures Live(Step(s, op), r)
  {
    hide Inv, WriteOk, NewOk, FindOk, Write, FindUpval, CloseUpvals, Intern, KeepsLive;
    match op
    case Store(t, b, news) => WrittenStays(s, t, b, news, r);
    case StoreOpen(u, v) => StoredOpenStays(s, u, v, r);
    case Capture(level, u) => FoundStays(s, s.roots.running, level, u, r);
    case Close(level) => ClosedStays(s, level, r);
    case MakeString(bytes, u) =>
      if |s.strt| > 0 {
        InternedStays(s, bytes, u, r);
      }
    case _ =>
  }

  lemma StoredOpenStays(s: State, u: Ref, v: Value, r: Ref)
    requires Inv(s) && Enabled(s, StoreOpen(u, v)) && Live(s, r)
    ensures Live(Step(s, StoreOpen(u, v)), r)
  {
    hide StrOk, UvOk, RootListOk, FixedOk, NeverBlack, RefsLive, RootsLive, PhaseInv, WriteOk, Write;
    SlotSetOk(s, u, v);
    hide Inv;
    WrittenStays(s, s.objs[u].v.thread, SlotSet(s.objs[s.objs[u].v.thread], s.objs[u].v.level, v), [v], r);
  }

  lemma ClosedStays(s: State, level: nat, r: Ref)
    requires Inv(s) && Live(s, r)
    ensures Live(Step(s, Close(level)), r)
  {
    hide Inv, CloseUpvals;
    RunningThread(s);
    CloseUpvalsInv(s, s.roots.running, level);
    CloseUpvalsKeepsLive(s, s.roots.running, level);
  }

  /** The upvalue captured is the one the thread has for that slot, alive. */
  lemma CapturedUsable(s: State, level: nat, r: Ref)
    requires Inv(s) && Enabled(s, Capture(level, r))
    ensures var s' := Step(s, Capture(level, r));
            var t := s'.roots.running;
            && t in s'.objs && s'.objs[t].Thread?
            && FoundUpval(s'.objs, t, level).Obj? && Live(s', FoundUpval(s'.objs, t, level).ref)
  {
    hide StrOk, RootListOk, FixedOk, NeverBlack, RefsLive, RootsLive, PhaseInv;
    var t := s.roots.running;
    var s' := FindUpval(s, t, level, r);
    assert UvListOk(s.objs, t);
    FoundIsOpen(s.objs, t, level);
    FindUpvalInv(s, t, level, r);
    assert UvListOk(s'.objs, t);
    if !FoundUpval(s.objs, t, level).Obj? {
      InsertMembers(s.objs[t].openupval, UvPos(s.objs, s.objs[t].openupval, level), r);
      FoundComplete(s'.objs, t, level, r);
    }
    hide InsertAt, UvPos;
  }

  lemma InternedHas(s: State, bytes: Bytes, r: Ref)
    requires StrOk(s.objs, s.strt, s.nuse) && s.m.color.Keys == s.objs.Keys && r !in s.objs
    ensures var f := FindStr(s.objs, s.strt[Bucket(Hash(bytes), |s.strt|)], bytes);
            var x := if f.Obj? then f.ref else r;
            var s' := Intern(s, bytes, r);
            Live(s', x) && s'.objs[x].Str? && s'.objs[x].bytes == bytes
  {
    FindStrSpec(s.objs, s.strt[Bucket(Hash(bytes), |s.strt|)], bytes);
    hide Hash, Rehash, FindStr, Interned, Bucket;
  }

  /** The string made is the one the table has for these bytes, alive. */
  lemma MadeStringUsable(s: State, bytes: Bytes, r: Ref)
    requires Inv(s) && Enabled(s, MakeString(bytes, r))
    ensures var s' := Step(s, MakeString(bytes, r));
            && |s'.strt| > 0
            && var f := FindStr(s'.objs, s'.strt[Bucket(Hash(bytes), |s'.strt|)], bytes);
               f.Obj? && Live(s', f.ref)
  {
    hide UvOk, RootListOk, FixedOk, NeverBlack, RefsLive, RootsLive, PhaseInv, Hash, Intern, FindStr, Interned;
    InternInv(s, bytes, r);
    InternedHas(s, bytes, r);
    var f := FindStr(s.objs, s.strt[Bucket(Hash(bytes), |s.strt|)], bytes);
    var s' := Intern(s, bytes, r);
    FindStrComplete(s'.objs, s'.strt, bytes, if f.Obj? then f.ref else r);
  }

  // ---------------------------------------------------------------- fixed names

  /** A fixed string for these bytes: a reserved word or the name of a metamethod. */
  ghost predicate Named(s: State, b: Bytes) {
    exists r :: r in s.fixed && r in s.objs && s.objs[r].Str? && s.objs[r].bytes == b
  }

  /** Strings stay what they are, if they stay; none is unfixed. */
  ghost predicate StringsStay(s: State, s': State) {
    && s.fixed <= s'.fixed && s'.roots.mainthread == s.roots.mainthread
    && forall r :: r in s.objs && s.objs[r].Str? && r in s'.objs && s'.objs[r].Str? ==> s'.objs[r] == s.objs[r]
  }

  lemma NamedStays(s: State, s': State, b: Bytes)
    requires Inv(s) && Inv(s') && StringsStay(s, s') && Named(s, b)
    ensures Named(s', b)
  {
    hide UvOk, StrOk, RootListOk, NeverBlack, RefsLive, RootsLive, PhaseInv;
    var r :| r in s.fixed && r in s.objs && s.objs[r].Str? && s.objs[r].bytes == b;
    assert r in s'.objs && s'.objs[r].Str?;
  }

  lemma CollectStrings(s: State)
    requires Inv(s)
    ensures StringsStay(s, SingleStep(s))
  {
    hide RefsLive, RootsLive, UvOk, StrOk, RootListOk, FixedOk, NeverBlack, AllWhite, MarkInv;
    StepFixed(s);
    if AtomicNext(s) {
      AtomicInv(s);
      hide PhaseInv, AtomicMark, ClearTables;
    } else if Sweeping(s.phase) {
      SweepBodies(s);
      SingleStepInv(s);
      hide PhaseInv, SingleStep;
    } else {
      hide PhaseInv, MarkRoot, PropagateMark;
    }
  }

  lemma ClosedStrings(s: State, level: nat)
    requires Inv(s)
    ensures StringsStay(s, Step(s, Close(level)))
  {
    hide Inv, CloseUpvals;
    RunningThread(s);
    CloseUpvalsInv(s, s.roots.running, level);
    CloseUpvalsKeepsLive(s, s.roots.running, level);
    CloseUpvalsBodies(s, s.roots.running, level);
  }

  lemma InternedStrings(s: State, bytes: Bytes, r: Ref)
    requires |s.strt| > 0 && r !in s.objs
    ensures StringsStay(s, Intern(s, bytes, r))
  {
    hide Hash, FindStr, Rehash, Bucket;
  }

  lemma ProgramStrings(s: State, op: Op)
    requires Inv(s) && Enabled(s, op) && ByProgram(op)
    ensures StringsStay(s, Step(s, op))
  {
    hide Inv, FindStr, CloseUpvals, Intern, InsertAt, UvPos, Barriers;
    match op
    case Close(level) => ClosedStrings(s, level);
    case MakeString(bytes, r) =>
      if |s.strt| > 0 {
        InternedStrings(s, bytes, r);
      }
    case _ =>
  }

  lemma {:induction false} NamedUntil(s: State, stop: Phase, b: Bytes)
    requires Inv(s) && Named(s, b)
    ensures Named(StepUntil(s, stop), b)
    decreases PhaseRank(s.phase), WhitesLeft(s), WorkLeft(s)
  {
    hide Inv, SingleStep, Named, StringsStay;
    if s.phase != stop && s.phase != GCSpause {
      SingleStepInv(s);
      StepDecreases(s);
      CollectStrings(s);
      NamedStays(s, SingleStep(s), b);
      NamedUntil(SingleStep(s), stop, b);
    }
  }

  lemma NamedFullGC(s: State, b: Bytes)
    requires Inv(s) && Named(s, b)
    ensures Named(FullGC(s), b)
  {
    hide Inv, SingleStep, StepUntil, AllWhite, KeepsLive;
    AbandonInv(s);
    SweepUntil(Abandon(s), GCSfinalize);
    NamedUntil(Abandon(s), GCSfinalize, b);
    var s2 := StepUntil(Abandon(s), GCSfinalize);
    StartCycleInv(s2);
    assert Named(StartCycle(s2), b);
    hide Named, StartCycle;
    NamedUntil(StartCycle(s2), GCSpause, b);
  }

  lemma NamedStep(s: State, op: Op, b: Bytes)
    requires Inv(s) && Enabled(s, op) && Named(s, b)
    ensures Named(Step(s, op), b)
  {
    hide Inv, Enabled, Named, StringsStay, SingleStep, FullGC;
    StepInv(s, op);
    if op == Collect {
      CollectStrings(s);
      NamedStays(s, SingleStep(s), b);
    } else if op == FullCollect {
      NamedFullGC(s, b);
    } else {
      ProgramStrings(s, op);
      NamedStays(s, Step(s, op), b);
    }
  }

  /** A fixed name lives through every run. */
  lemma {:induction false} NamedRun(s: State, ops: seq<Op>, s': State, b: Bytes)
    requires Inv(s) && Run(s, ops, s') && Named(s, b)
    ensures Named(s', b)
    decreases |ops|
  {
    if ops != [] {
      StepInv(s, ops[0]);
      NamedStep(s, ops[0], b);
      hide Inv, Enabled, Named, Step;
      NamedRun(Step(s, ops[0]), ops[1..], s', b);
    }
  }

  lemma {:induction false} FreshBound(refs: set<Ref>) returns (n: Ref)
    ensures forall r :: r in refs ==> r < n
    decreases refs
  {
    if refs == {} {
      n := 0;
    } else {
      var x :| x in refs;
      n := FreshBound(refs - {x});
      assert forall r :: r in refs ==> r == x || r in refs - {x};
      if n <= x {
        n := x + 1;
      }
    }
  }

  lemma FixedName(s: State, b: Bytes) returns (ops: seq<Op>, s': State)
    requires Inv(s)
    ensures |ops| == 2 && Run(s, ops, s') && Inv(s') && Named(s', b)
  {
    hide UvOk, RootListOk, FixedOk, NeverBlack, RefsLive, RootsLive, PhaseInv, Hash, Intern, Interned, BucketsOk;
    var r := FreshBound(s.objs.Keys);
    var op1 := MakeString(b, r);
    StepInv(s, op1);
    InternedHas(s, b, r);
    var s1 := Step(s, op1);
    var f := FindStr(s.objs, s.strt[Bucket(Hash(b), |s.strt|)], b);
    var x := if f.Obj? then f.ref else r;
    StepInv(s1, Fix(x));
    s' := Step(s1, Fix(x));
    assert x in s'.fixed && x in s'.objs && s'.objs[x].Str? && s'.objs[x].bytes == b;
    ops := [op1, Fix(x)];
    hide Inv;
    assert ops[1..] == [Fix(x)] && [Fix(x)][1..] == [];
    assert Run(s1, [Fix(x)], s');
  }

  lemma RunFirst(s: State, op: Op, rest: seq<Op>, s': State)
    ensures Run(s, [op] + rest, s') <==> Enabled(s, op) && Run(Step(s, op), rest, s')
  {
    hide Enabled, Step;
    assert ([op] + rest)[1..] == rest;
  }

  lemma {:induction false} RunConcat(s: State, a: seq<Op>, s1: State, b: seq<Op>, s2: State)
    requires Run(s, a, s1) && Run(s1, b, s2)
    ensures Run(s, a + b, s2)
    decreases |a|
  {
    hide Enabled, Step;
    if a == [] {
      assert a + b == b;
    } else {
      hide Run;
      assert a == [a[0]] + a[1..] && a + b == [a[0]] + (a[1..] + b);
      RunFirst(s, a[0], a[1..], s1);
      RunConcat(Step(s, a[0]), a[1..], s1, b, s2);
      RunFirst(s, a[0], a[1..] + b, s2);
    }
  }

  /** The names made when a state is opened (luaT_init, luaX_init): a run makes and fixes any list of them. */
  lemma {:induction false} NamesFixed(s: State, names: seq<Bytes>) returns (ops: seq<Op>, s': State)
    requires Inv(s)
    ensures Run(s, ops, s') && Inv(s') && forall b :: b in names ==> Named(s', b)
    decreases |names|
  {
    hide Inv, Named, Enabled, Step;
    if names == [] {
      ops, s' := [], s;
    } else {
      var a, s1 := FixedName(s, names[0]);
      var rest, s2 := NamesFixed(s1, names[1..]);
      NamedRun(s1, rest, s2, names[0]);
      RunConcat(s, a, s1, rest, s2);
      ops, s' := a + rest, s2;
      assert names == [names[0]] + names[1..];
    }
  }

  // ---------------------------------------------------------------- black objects

  lemma MarkedOrListed(objs: Heap, m: Marks, white: bool, r: Ref)
    requires Lists(objs, m, white) && m.gray == [] && (forall x :: x in m.grayagain ==> x in objs && objs[x].Thread?)
    requires r in objs && Traversable(objs[r]) && !objs[r].Thread? && !objs[r].Table? && NonWhite(m.color, r)
    ensures m.color[r].Black?
  {
  }

  /** After the atomic step every closure and prototype that is alive is black. */
  lemma MarkedBlack(s: State, r: Ref)
    requires Inv(s) && AtomicNext(s) && r in s.objs && (s.objs[r].LClosure? || s.objs[r].CClosure? || s.objs[r].Proto?)
    ensures Live(SingleStep(s), r) <==> IsBlack(SingleStep(s).m, r)
  {
    hide StrOk, RootListOk, FixedOk, NeverBlack;
    var m := AtomicMark(s.objs, s.m, s.roots, s.uvhead);
    RootValsIn(s);
    AtomicMarkInv(s.objs, s.m, s.white, s.roots, s.uvhead);
    hide UvOk, AtomicMark, Covered;
    AtomicClosed(s.objs, m, s.white);
    AtomicInv(s);
    hide ClearTables;
    if NonWhite(m.color, r) {
      MarkedOrListed(s.objs, m, s.white, r);
    }
  }
}

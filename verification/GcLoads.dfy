/**
  What the program can load from the heap, object by object and field by field (lvm.c: LOADK,
  CLOSURE, GETUPVAL, GETTABLE; lapi.c: getmetatable, getfenv), said without the collector's
  traversal, and what collection does to it: nothing that can be loaded is freed, and what is
  loaded stays the same.
 */
module GcLoads {
  import opened Wrappers
  import opened GcHeap
  import opened GcMark
  import opened GcCycle
  import opened GcAtomic
  import opened GcInv
  import opened GcMutator
  import opened GcUpval
  import opened GcStrings
  import opened GcSweep
  import opened GcSweepList
  import opened GcSteps
  import opened GcFull
  import opened GcRuns
  import opened GcClose
  import opened GcWeak

  // ---------------------------------------------------------------- fields

  datatype Field =
    | Metatable | Env
    | ArraySlot(i: nat) | KeyOf(i: nat) | ValueOf(i: nat)
    | CUpvalue(i: nat)
    | FunctionProto | Upvalue(i: nat)
    | UpvalueValue
    | Globals | StackSlot(i: nat)
    | Source | Constant(i: nat) | UpvalueName(i: nat) | InnerProto(i: nat) | LocalName(i: nat)

  function At(vs: seq<Value>, i: nat): Option<Value> {
    if i < |vs| then Some(vs[i]) else None
  }

  /** The value in field `f` of object `r`, if it has that field. An empty entry of a table has no key to be loaded. */
  function Load(objs: Heap, r: Ref, f: Field): Option<Value> {
    if r !in objs then None
    else match objs[r]
      case Str(_, _) => None
      case Udata(meta, env) =>
        if f == Metatable then Some(meta) else if f == Env then Some(env) else None
      case Table(meta, _, arr, nodes) =>
        if f == Metatable then Some(meta)
        else if f.ArraySlot? then At(arr, f.i)
        else if f.KeyOf? && f.i < |nodes| && nodes[f.i].val != Nil then Some(nodes[f.i].key)
        else if f.ValueOf? && f.i < |nodes| then Some(nodes[f.i].val)
        else None
      case CClosure(env, vals) =>
        if f == Env then Some(env) else if f.CUpvalue? then At(vals, f.i) else None
      case LClosure(env, proto, upvals) =>
        if f == Env then Some(env) else if f == FunctionProto then Some(proto)
        else if f.Upvalue? then At(upvals, f.i) else None
      case UpVal(Closed(value)) => if f == UpvalueValue then Some(value) else None
      case UpVal(Open(t, level)) =>
        if f == UpvalueValue && t in objs && objs[t].Thread? then At(objs[t].stack, level) else None
      case Thread(gt, stack, _) =>
        if f == Globals then Some(gt) else if f.StackSlot? then At(stack, f.i) else None
      case Proto(source, k, upnames, p, locnames) =>
        if f == Source then Some(source) else if f.Constant? then At(k, f.i)
        else if f.UpvalueName? then At(upnames, f.i) else if f.InnerProto? then At(p, f.i)
        else if f.LocalName? then At(locnames, f.i) else None
  }

  ghost predicate Loads(objs: Heap, r: Ref, v: Value) {
    exists f :: Load(objs, r, f) == Some(v)
  }

  /** The table's metatable asks for weak keys, or for weak values. */
  predicate WeakKeys(objs: Heap, b: Body)
    requires b.Table?
  {
    b.meta.Obj? && b.meta.ref in objs && objs[b.meta.ref].Table? && objs[b.meta.ref].mode.weakKey
  }

  predicate WeakValues(objs: Heap, b: Body)
    requires b.Table?
  {
    b.meta.Obj? && b.meta.ref in objs && objs[b.meta.ref].Table? && objs[b.meta.ref].mode.weakVal
  }

  /** A field that is a weak reference. */
  predicate WeakField(objs: Heap, r: Ref, f: Field) {
    r in objs && objs[r].Table?
    && ((WeakKeys(objs, objs[r]) && f.KeyOf?) || (WeakValues(objs, objs[r]) && (f.ArraySlot? || f.ValueOf?)))
  }

  ghost predicate LoadsStrongly(objs: Heap, r: Ref, v: Value) {
    exists f :: Load(objs, r, f) == Some(v) && !WeakField(objs, r, f)
  }

  // ---------------------------------------------------------------- references are fields

  /** Entry `i` holds `v` in a field that is followed. */
  predicate EntryHolds(objs: Heap, r: Ref, mode: Mode, i: nat, v: Value) {
    (!mode.weakKey && Load(objs, r, KeyOf(i)) == Some(v)) || (!mode.weakVal && Load(objs, r, ValueOf(i)) == Some(v))
  }

  lemma EntryLoads(objs: Heap, r: Ref, mode: Mode, i: nat, c: Ref)
    requires r in objs && objs[r].Table?
    ensures EntryHolds(objs, r, mode, i, Obj(c)) <==>
            i < |objs[r].nodes| && Obj(c) in EntryVals(objs[r].nodes[i], mode)
  {
  }

  lemma NodesLoad(objs: Heap, r: Ref, mode: Mode, c: Ref)
    requires r in objs && objs[r].Table?
    ensures Obj(c) in NodeVals(objs[r].nodes, mode) <==> exists i: nat :: EntryHolds(objs, r, mode, i, Obj(c))
  {
    hide EntryHolds, NodeVals, EntryVals;
    var nodes := objs[r].nodes;
    NodeValsMembers(nodes, mode, Obj(c));
    if i :| 0 <= i < |nodes| && Obj(c) in EntryVals(nodes[i], mode) {
      EntryLoads(objs, r, mode, i, c);
    }
    if i: nat :| EntryHolds(objs, r, mode, i, Obj(c)) {
      EntryLoads(objs, r, mode, i, c);
    }
  }

  lemma TableLoads(objs: Heap, r: Ref, mode: Mode, c: Ref)
    requires r in objs && objs[r].Table?
    ensures Obj(c) in BodyVals(objs, objs[r], mode) <==>
            exists f: Field :: Load(objs, r, f) == Some(Obj(c))
                        && !((mode.weakKey && f.KeyOf?) || (mode.weakVal && (f.ArraySlot? || f.ValueOf?)))
  {
    var b := objs[r];
    var v := Obj(c);
    NodesLoad(objs, r, mode, c);
    BackwardsMembers(b.arr, v);
    hide Backwards, NodeVals;
    if v in BodyVals(objs, b, mode) {
      if b.meta == v {
        assert Load(objs, r, Metatable) == Some(v);
      } else if v in NodeVals(b.nodes, mode) {
        var i: nat :| EntryHolds(objs, r, mode, i, v);
        var f := if !mode.weakKey && Load(objs, r, KeyOf(i)) == Some(v) then KeyOf(i) else ValueOf(i);
        assert Load(objs, r, f) == Some(v);
      } else {
        var i: nat :| i < |b.arr| && b.arr[i] == v;
        assert Load(objs, r, ArraySlot(i)) == Some(v);
      }
    }
    if f: Field :| Load(objs, r, f) == Some(v)
                   && !((mode.weakKey && f.KeyOf?) || (mode.weakVal && (f.ArraySlot? || f.ValueOf?))) {
      if f.KeyOf? || f.ValueOf? {
        assert EntryHolds(objs, r, mode, f.i, v);
      }
    }
  }

  lemma OtherLoads(objs: Heap, r: Ref, c: Ref)
    requires r in objs && !objs[r].Table? && !objs[r].Proto?
    ensures Refers(objs, r, c) <==> Loads(objs, r, Obj(c))
  {
    if Refers(objs, r, c) {
      var i: nat :| i < |AllVals(objs, r)| && AllVals(objs, r)[i] == Obj(c);
      var f := match objs[r]
        case Udata(_, _) => if i == 0 then Metatable else Env
        case CClosure(_, _) => if i == 0 then Env else CUpvalue(i - 1)
        case LClosure(_, _, _) => if i == 0 then Env else if i == 1 then FunctionProto else Upvalue(i - 2)
        case Thread(_, _, _) => if i == 0 then Globals else StackSlot(i - 1)
        case _ => UpvalueValue;
      assert Load(objs, r, f) == Some(Obj(c));
    }
    if f :| Load(objs, r, f) == Some(Obj(c)) {
      assert objs[r].Udata? || objs[r].LClosure? ==> Obj(c) in AllVals(objs, r);
    }
  }

  lemma ProtoLoads(objs: Heap, r: Ref, c: Ref)
    requires r in objs && objs[r].Proto?
    ensures Refers(objs, r, c) <==> Loads(objs, r, Obj(c))
  {
    var b := objs[r];
    var v := Obj(c);
    if Refers(objs, r, c) {
      if v == b.source {
        assert Load(objs, r, Source) == Some(v);
      } else if v in b.k {
        var i: nat :| i < |b.k| && b.k[i] == v;
        assert Load(objs, r, Constant(i)) == Some(v);
      } else if v in b.upnames {
        var i: nat :| i < |b.upnames| && b.upnames[i] == v;
        assert Load(objs, r, UpvalueName(i)) == Some(v);
      } else if v in b.p {
        var i: nat :| i < |b.p| && b.p[i] == v;
        assert Load(objs, r, InnerProto(i)) == Some(v);
      } else {
        var i: nat :| i < |b.locnames| && b.locnames[i] == v;
        assert Load(objs, r, LocalName(i)) == Some(v);
      }
    }
  }

  /** An object refers to exactly what can be loaded from its fields, for all heaps and kinds of objects. */
  lemma RefersExact(objs: Heap, r: Ref, c: Ref)
    ensures Refers(objs, r, c) <==> Loads(objs, r, Obj(c))
  {
    hide BodyVals, Load;
    if r in objs {
      if objs[r].Table? {
        TableLoads(objs, r, STRONG, c);
      } else if objs[r].Proto? {
        ProtoLoads(objs, r, c);
      } else {
        OtherLoads(objs, r, c);
      }
    } else {
      LoadsNone(objs, r);
    }
  }

  lemma LoadsNone(objs: Heap, r: Ref)
    requires r !in objs
    ensures forall f :: Load(objs, r, f) == None
  {
  }

  /** What the collector follows: every field but the weak ones, as the metatable of a table asks. */
  lemma StrongExact(objs: Heap, r: Ref, c: Ref)
    ensures RefersStrongly(objs, r, c) <==> LoadsStrongly(objs, r, Obj(c))
  {
    hide BodyVals, Load;
    if r in objs && objs[r].Table? {
      TableLoads(objs, r, ModeOf(objs, objs[r].meta), c);
    } else {
      RefersExact(objs, r, c);
      if r !in objs {
        LoadsNone(objs, r);
      }
    }
  }

  // ---------------------------------------------------------------- loads one after another

  /** What the program starts from: its threads, the registry, and the metatables of the basic types. */
  ghost predicate StartsFrom(s: State, v: Value) {
    v == Obj(s.roots.mainthread) || v == Obj(s.roots.running) || v == s.roots.registry || v in s.roots.mt
  }

  /** The value reached from `v` by loading the fields `path`, if each object has the field. */
  function Fetch(objs: Heap, v: Value, path: seq<Field>): Option<Value>
    decreases |path|
  {
    if path == [] then Some(v)
    else if !v.Obj? then None
    else
      var next := Load(objs, v.ref, path[0]);
      if next.None? then None else Fetch(objs, next.value, path[1..])
  }

  lemma {:induction false} FetchConcat(objs: Heap, v: Value, path: seq<Field>, more: seq<Field>)
    requires Fetch(objs, v, path).Some?
    ensures Fetch(objs, v, path + more) == Fetch(objs, Fetch(objs, v, path).value, more)
    decreases |path|
  {
    hide Load;
    if path == [] {
      assert path + more == more;
    } else {
      assert (path + more)[1..] == path[1..] + more;
      FetchConcat(objs, Load(objs, v.ref, path[0]).value, path[1..], more);
    }
  }

  lemma {:induction false} FetchReached(s: State, v: Value, path: seq<Field>, c: Ref)
    requires (v.Obj? ==> Reach(s, v.ref)) && Fetch(s.objs, v, path) == Some(Obj(c))
    ensures Reach(s, c)
    decreases |path|
  {
    hide Load, Reach, Refers;
    if path != [] {
      var next := Load(s.objs, v.ref, path[0]).value;
      if next.Obj? {
        assert Loads(s.objs, v.ref, Obj(next.ref));
        RefersExact(s.objs, v.ref, next.ref);
        ReachStep(s, v.ref, next.ref);
      }
      FetchReached(s, next, path[1..], c);
    }
  }

  lemma {:induction false} PathFetched(s: State, p: seq<Ref>) returns (path: seq<Field>)
    requires IsPath(s.objs, p)
    ensures Fetch(s.objs, Obj(p[0]), path) == Some(Obj(p[|p| - 1]))
    decreases |p|
  {
    hide Load, Refers;
    if |p| == 1 {
      path := [];
    } else {
      var q := p[..|p| - 1];
      var init := PathFetched(s, q);
      var x, c := p[|p| - 2], p[|p| - 1];
      assert Refers(s.objs, x, c);
      RefersExact(s.objs, x, c);
      var f :| Load(s.objs, x, f) == Some(Obj(c));
      path := init + [f];
      FetchConcat(s.objs, Obj(p[0]), init, [f]);
      assert Fetch(s.objs, Obj(c), [f][1..]) == Some(Obj(c));
    }
  }

  /** What can be reached is exactly what the program can fetch by loading fields, one after another. */
  lemma ReachExact(s: State, r: Ref)
    ensures Reach(s, r) <==> exists v, path :: StartsFrom(s, v) && Fetch(s.objs, v, path) == Some(Obj(r))
  {
    hide Load, Refers, Fetch;
    if Reach(s, r) {
      var p :| IsPath(s.objs, p) && IsRoot(s, p[0]) && p[|p| - 1] == r;
      var path := PathFetched(s, p);
      assert StartsFrom(s, Obj(p[0])) && Fetch(s.objs, Obj(p[0]), path) == Some(Obj(r));
    }
    if v, path :| StartsFrom(s, v) && Fetch(s.objs, v, path) == Some(Obj(r)) {
      StartReached(s, v);
      FetchReached(s, v, path, r);
    }
  }

  lemma StartReached(s: State, v: Value)
    requires StartsFrom(s, v)
    ensures v.Obj? ==> Reach(s, v.ref)
  {
    if v.Obj? {
      ReachRoot(s, v.ref);
    }
  }

  /**
    The safety of the collector, as the program sees it: over every run, whatever object it
    fetches, by any sequence of loads, is allocated and alive, and the collector's next step
    does not free it.
   */
  lemma LoadedSafe(size: nat, ops: seq<Op>, s: State, v: Value, path: seq<Field>, c: Ref)
    requires size > 0 && PowerOfTwo(size) && Run(Initial(size), ops, s)
    requires StartsFrom(s, v) && Fetch(s.objs, v, path) == Some(Obj(c))
    ensures Live(s, c) && c in SingleStep(s).objs
  {
    hide Run, Initial, Fetch, SingleStep;
    ReachExact(s, c);
    CollectorSafe(size, ops, s, c);
  }

  /** A full collection keeps exactly the objects that can be fetched, and the fixed ones. */
  lemma FullGCFetched(s: State, r: Ref)
    requires Inv(s) && NoModes(s.objs)
    ensures r in FullGC(s).objs <==>
            r in s.fixed || exists v, path :: StartsFrom(s, v) && Fetch(s.objs, v, path) == Some(Obj(r))
  {
    hide Inv, FullGC, Fetch, NoModes;
    FullGCExact(s);
    ReachExact(s, r);
  }

  // ---------------------------------------------------------------- what a step of the collector changes

  /** Objects that are the same, or threads with the same contents, or upvalues with the same value, load the same. */
  ghost predicate SameUse(objs: Heap, objs': Heap, r: Ref) {
    && r in objs && r in objs'
    && (objs[r].UpVal? ==> objs'[r].UpVal? && UpvalVal(objs', r) == UpvalVal(objs, r))
    && (objs[r].Thread? ==> objs'[r].Thread? && objs'[r].gt == objs[r].gt && objs'[r].stack == objs[r].stack)
    && (!objs[r].UpVal? && !objs[r].Thread? ==> objs'[r] == objs[r])
  }

  lemma UseLoads(s: State, s': State, r: Ref, f: Field)
    requires Inv(s) && Inv(s') && SameUse(s.objs, s'.objs, r)
    ensures Load(s'.objs, r, f) == Load(s.objs, r, f)
  {
    hide Inv, UpvalVal;
    if s.objs[r].UpVal? {
      if f == UpvalueValue {
        hide Load;
        UpvalLoads(s, r);
        UpvalLoads(s', r);
      }
    } else {
      PlainLoads(s.objs, s'.objs, r, f);
    }
  }

  lemma PlainLoads(objs: Heap, objs': Heap, r: Ref, f: Field)
    requires SameUse(objs, objs', r) && !objs[r].UpVal?
    ensures Load(objs', r, f) == Load(objs, r, f)
  {
  }

  lemma UpvalLoads(s: State, u: Ref)
    requires Inv(s) && u in s.objs && s.objs[u].UpVal?
    ensures Load(s.objs, u, UpvalueValue) == Some(UpvalVal(s.objs, u))
  {
    hide StrOk, RootListOk, FixedOk, NeverBlack, RefsLive, RootsLive, PhaseInv;
    if IsOpen(s.objs[u]) {
      OwnerOf(s, u);
      assert UvListOk(s.objs, s.objs[u].v.thread);
    }
  }

  /** Every live object stays, with the same use. */
  ghost predicate SameUses(s: State, s': State) {
    forall r :: Live(s, r) ==> Live(s', r) && SameUse(s.objs, s'.objs, r)
  }

  lemma SameUsesTrans(a: State, b: State, c: State)
    requires SameUses(a, b) && SameUses(b, c)
    ensures SameUses(a, c)
  {
    hide UpvalVal, Live;
  }

  lemma SameUsesItself(s: State)
    ensures SameUses(s, s)
  {
  }

  lemma CloseUse(s: State, t: Ref, level: nat, r: Ref)
    requires Inv(s) && t in s.objs && s.objs[t].Thread? && UvListOk(s.objs, t) && Live(s, r)
    ensures SameUse(s.objs, CloseUpvals(s, t, level).objs, r)
  {
    hide Inv, UvListOk, CloseUpvals;
    if s.objs[r].UpVal? {
      CloseUpvalsKeepsValues(s, t, level, r);
    } else if r == t {
      CloseUpvalsExact(s, t, level);
    } else {
      if r in s.objs[t].openupval {
        OpenHere(s.objs, t, r);
      }
      CloseUpvalsFrame(s, t, level, r);
    }
  }

  /** Freeing objects, none of them a thread with open upvalues that stay, leaves the others as they are. */
  lemma FreedUse(objs: Heap, objs': Heap, r: Ref)
    requires r in objs && r in objs' && objs'[r] == objs[r]
    requires IsOpen(objs[r]) ==> var t := objs[r].v.thread;
      (t in objs && objs[t].Thread? ==> t in objs' && objs'[t].Thread? && objs'[t].stack == objs[t].stack)
      && (t in objs' && objs'[t].Thread? ==> t in objs && objs[t].Thread?)
    ensures SameUse(objs, objs', r)
  {
  }

  lemma BucketUse(s: State, r: Ref)
    requires Inv(s) && s.sweepstrgc < |s.strt| && Live(s, r)
    ensures SameUse(s.objs, SweepBucket(s).objs, r)
  {
    hide UvOk, RootListOk, FixedOk, NeverBlack, RefsLive, RootsLive, PhaseInv, SameUse, PowerOfTwo, Interned;
    var i := s.sweepstrgc;
    assert forall x :: x in DoomedIn(s.m.color, s.fixed, s.white, s.strt[i]) ==> x in s.objs && s.objs[x].Str?;
    assert r !in DoomedIn(s.m.color, s.fixed, s.white, s.strt[i]);
    FreedUse(s.objs, SweepBucket(s).objs, r);
  }

  lemma SweepUpvalsUse(s: State, t: Ref, r: Ref)
    requires Inv(s) && t in s.objs && s.objs[t].Thread? && Live(s, r)
    ensures SameUse(s.objs, SweepUpvals(s, t).objs, r)
  {
    hide UvOk, StrOk, RootListOk, FixedOk, NeverBlack, RefsLive, RootsLive, PhaseInv, SameUse, Kept, Minus;
    UpvalsThinned(s, t);
    assert r !in DoomedIn(s.m.color, s.fixed, s.white, s.objs[t].openupval);
    if r == t {
      ThreadUse(s.objs, SweepUpvals(s, t).objs, t);
    } else {
      if IsOpen(s.objs[r]) {
        OwnerOf(s, r);
      }
      FreedUse(s.objs, SweepUpvals(s, t).objs, r);
    }
  }

  lemma ThreadUse(objs: Heap, objs': Heap, t: Ref)
    requires t in objs && objs[t].Thread? && t in objs' && objs'[t].Thread?
    requires objs'[t].gt == objs[t].gt && objs'[t].stack == objs[t].stack
    ensures SameUse(objs, objs', t)
  {
  }

  lemma FreeObjUse(s: State, t: Ref, r: Ref)
    requires Inv(s) && t in s.objs && Dead(s, t) && Live(s, r)
    ensures SameUse(s.objs, FreeObj(s, t).objs, r)
  {
    hide Inv, CloseUpvals, UvListOk, SameUse;
    if s.objs[t].Thread? {
      InvUvList(s, t);
      FreeThreadUse(s, t, r);
    } else {
      if IsOpen(s.objs[r]) {
        OwnerOf(s, r);
      }
      FreedUse(s.objs, FreeObj(s, t).objs, r);
    }
  }

  lemma FreeThreadUse(s: State, t: Ref, r: Ref)
    requires Inv(s) && ThreadAt(s.objs, t) && UvListOk(s.objs, t) && Dead(s, t) && Live(s, r)
    ensures SameUse(s.objs, FreeObj(s, t).objs, r)
  {
    hide Inv, CloseUpvals, UvListOk;
    if s.objs[r].UpVal? {
      FreeThreadKeepsValues(s, t, r);
    } else {
      CloseUse(s, t, 0, r);
    }
  }

  lemma SameHeapUses(s: State, s': State)
    requires s'.objs == s.objs && KeepsLive(s, s')
    ensures SameUses(s, s')
  {
  }

  lemma SweepUpvalsUses(s: State, t: Ref)
    requires Inv(s) && s.phase == GCSsweep && ThreadAt(s.objs, t)
    ensures SameUses(s, SweepUpvals(s, t))
  {
    hide Inv, SweepUpvals, SameUse;
    SweepUpvalsInv(s, t);
    forall r | Live(s, r)
      ensures SameUse(s.objs, SweepUpvals(s, t).objs, r)
    {
      SweepUpvalsUse(s, t, r);
    }
  }

  lemma FreeObjUses(s: State, t: Ref)
    requires Inv(s) && s.phase == GCSsweep && t in s.objs && InRoot(s.objs[t])
      && Doomed(s.m.color, s.fixed, s.white, t)
    ensures SameUses(s, FreeObj(s, t))
  {
    hide Inv, FreeObj, SameUse;
    FreeObjInv(s, t);
    forall r | Live(s, r)
      ensures SameUse(s.objs, FreeObj(s, t).objs, r)
    {
      FreeObjUse(s, t, r);
    }
  }

  lemma SweepOneUses(s: State)
    requires Inv(s) && s.phase == GCSsweep && s.sweepgc < |s.rootgc|
    ensures SameUses(s, SweepOne(s))
  {
    hide Inv, SweepUpvals, FreeObj, SweepKeep, SameUses, KeepsLive, UvListOk, Doomed;
    var r := s.rootgc[s.sweepgc];
    NextThere(s);
    if ThreadAt(s.objs, r) {
      SweepUpvalsInv(s, r);
      UpvalsDone(s, r);
      SweepUpvalsUses(s, r);
      DoneUses(SweepUpvals(s, r), r);
      SameUsesTrans(s, SweepUpvals(s, r), SweepOne(s));
    } else {
      DoneUses(s, r);
    }
  }

  lemma NextThere(s: State)
    requires Inv(s) && s.sweepgc < |s.rootgc|
    ensures var r := s.rootgc[s.sweepgc]; r in s.objs && InRoot(s.objs[r])
  {
    hide UvOk, StrOk, FixedOk, NeverBlack, RefsLive, RootsLive, PhaseInv;
  }

  lemma UpvalsDone(s: State, t: Ref)
    requires Inv(s) && ThreadAt(s.objs, t)
    ensures var s' := SweepUpvals(s, t);
            && ThreadAt(s'.objs, t) && s'.phase == s.phase && s'.rootgc == s.rootgc && s'.sweepgc == s.sweepgc
            && forall u :: u in s'.objs[t].openupval ==> CurWhite(s'.m.color, s'.white, u)
  {
    hide UvOk, StrOk, RootListOk, FixedOk, NeverBlack, RefsLive, RootsLive, PhaseInv, SweptKept, Kept, Minus;
    UpvalsSwept(s, t);
    SweepUpvalsKeeps(s, t);
  }

  /** The object swept next is freed or kept. */
  lemma DoneUses(s: State, r: Ref)
    requires Inv(s) && s.phase == GCSsweep && s.sweepgc < |s.rootgc| && s.rootgc[s.sweepgc] == r
    requires ThreadAt(s.objs, r) ==> forall u :: u in s.objs[r].openupval ==> CurWhite(s.m.color, s.white, u)
    ensures SameUses(s, if Doomed(s.m.color, s.fixed, s.white, r) then FreeObj(s, r) else SweepKeep(s, r))
  {
    hide Inv, FreeObj, SweepKeep, SameUses, KeepsLive, Doomed;
    NextThere(s);
    if Doomed(s.m.color, s.fixed, s.white, r) {
      FreeObjUses(s, r);
    } else {
      KeepInv(s, r);
      KeepUses(s, r);
    }
  }

  lemma KeepUses(s: State, r: Ref)
    requires KeepsLive(s, SweepKeep(s, r))
    ensures SameUses(s, SweepKeep(s, r))
  {
    hide KeepsLive;
    SameHeapUses(s, SweepKeep(s, r));
  }

  lemma {:induction false} SweepListUses(s: State, count: nat)
    requires Inv(s) && s.phase == GCSsweep
    ensures SameUses(s, SweepList(s, count))
    decreases count
  {
    hide Inv, SweepOne, SameUses, KeepsLive;
    SameUsesItself(s);
    if count > 0 && s.sweepgc < |s.rootgc| {
      SweepOneInv(s);
      SweepOnePhase(s);
      SweepOneUses(s);
      SweepListUses(SweepOne(s), count - 1);
      SameUsesTrans(s, SweepOne(s), SweepList(s, count));
    }
  }

  lemma SweepStepUses(s: State)
    requires Inv(s) && s.phase == GCSsweep
    ensures SameUses(s, SweepStep(s))
  {
    hide Inv, SweepList, SameUses, KeepsLive;
    SweepListInv(s, GCSWEEPMAX);
    SweepListUses(s, GCSWEEPMAX);
    var s1 := SweepList(s, GCSWEEPMAX);
    if s1.sweepgc >= |s1.rootgc| {
      KeepsLiveFrame(s1, CheckSizes(s1).(phase := GCSfinalize));
      SameHeapUses(s1, SweepStep(s));
      SameUsesTrans(s, s1, SweepStep(s));
    }
  }

  lemma BucketUses(s: State)
    requires Inv(s) && s.phase == GCSsweepstring
    ensures SameUses(s, SingleStep(s))
  {
    hide Inv, SweepBucket, SameUse;
    SweepBucketInv(s);
    forall r | Live(s, r)
      ensures SameUse(s.objs, SweepBucket(s).objs, r)
    {
      BucketUse(s, r);
    }
  }

  lemma QuietUses(s: State)
    requires Inv(s) && !AtomicNext(s)
    ensures SameUses(s, SingleStep(s))
  {
    hide Inv, SameUses, KeepsLive, SweepStep;
    SingleStepInv(s);
    if s.phase == GCSsweepstring {
      BucketUses(s);
    } else if s.phase == GCSsweep {
      SweepStepUses(s);
    } else {
      SameHeapUses(s, SingleStep(s));
    }
  }

  /** A step of the collector, but for the atomic one, changes nothing that the program can load. */
  lemma QuietLoads(s: State, r: Ref, f: Field)
    requires Inv(s) && !AtomicNext(s) && Live(s, r)
    ensures Load(SingleStep(s).objs, r, f) == Load(s.objs, r, f)
  {
    hide Inv, SingleStep, SameUse, Load;
    QuietUses(s);
    SingleStepInv(s);
    UseLoads(s, SingleStep(s), r, f);
  }

  // ---------------------------------------------------------------- the collector is not seen

  predicate WeakTable(objs: Heap, b: Body) {
    b.Table? && (WeakKeys(objs, b) || WeakValues(objs, b))
  }

  /** A field that collection may not empty: not an entry of a weak table, nor a slot of one with weak values. */
  predicate Firm(objs: Heap, r: Ref, f: Field) {
    r in objs && WeakTable(objs, objs[r]) ==> f == Metatable || (f.ArraySlot? && !WeakValues(objs, objs[r]))
  }

  predicate FirmPath(objs: Heap, v: Value, path: seq<Field>)
    decreases |path|
  {
    path == [] || !v.Obj?
    || (Firm(objs, v.ref, path[0])
        && (Load(objs, v.ref, path[0]).Some? ==> FirmPath(objs, Load(objs, v.ref, path[0]).value, path[1..])))
  }

  lemma WeakTableIs(objs: Heap, b: Body)
    ensures IsWeak(objs, b) <==> WeakTable(objs, b)
    ensures b.Table? ==> ModeOf(objs, b.meta).weakVal == WeakValues(objs, b)
  {
  }

  lemma LosesFirm(objs: Heap, s': State, r: Ref, f: Field)
    requires r in objs && r in s'.objs && objs[r].Table? && Firm(objs, r, f)
    requires s'.objs[r] == objs[r] || (WeakTable(objs, objs[r])
      && LosesDropped(s', WeakValues(objs, objs[r]), objs[r], s'.objs[r]))
    ensures Load(s'.objs, r, f) == Load(objs, r, f)
  {
    hide Dropped, WeakValues, WeakKeys;
  }

  /** The modes of tables are as they were. */
  ghost predicate SameModes(objs: Heap, objs': Heap, r: Ref) {
    r in objs && objs[r].Table? ==> r in objs' && objs'[r].Table? && objs'[r].meta == objs[r].meta
                                    && WeakKeys(objs', objs'[r]) == WeakKeys(objs, objs[r])
                                    && WeakValues(objs', objs'[r]) == WeakValues(objs, objs[r])
  }

  lemma SameFirm(objs: Heap, objs': Heap, r: Ref, f: Field)
    requires SameModes(objs, objs', r) && Firm(objs, r, f)
      && (r in objs && r in objs' && objs'[r].Table? ==> objs[r].Table?)
    requires r in objs
    ensures Firm(objs', r, f)
  {
    hide WeakKeys, WeakValues;
  }

  lemma AtomicFirm(s: State, r: Ref, f: Field)
    requires Inv(s) && AtomicNext(s) && r in s.objs && Firm(s.objs, r, f)
    ensures Load(SingleStep(s).objs, r, f) == Load(s.objs, r, f) && Firm(SingleStep(s).objs, r, f)
  {
    hide Inv, SingleStep, LosesDropped, Load, Firm, StrongMarked, HeapIn, SameModes, WeakTable, WeakValues, WeakKeys;
    var m := AtomicFacts(s);
    var s' := SingleStep(s);
    ShrunkModes(s.objs, s'.objs, SetOf(m.weak), r);
    SameFirm(s.objs, s'.objs, r, f);
    if s.objs[r].Table? {
      AtomicTable(s, r);
      WeakTableIs(s.objs, s.objs[r]);
      LosesFirm(s.objs, s', r, f);
    } else {
      ShrunkLoads(s.objs, s'.objs, SetOf(m.weak), r, f);
    }
  }

  lemma ShrunkModes(objs: Heap, objs': Heap, l: set<Ref>, r: Ref)
    requires Shrunk(objs, objs', l)
    ensures SameModes(objs, objs', r)
  {
    hide Refers;
  }

  lemma ShrunkLoads(objs: Heap, objs': Heap, l: set<Ref>, r: Ref, f: Field)
    requires Shrunk(objs, objs', l) && r in objs && !objs[r].Table?
    ensures Load(objs', r, f) == Load(objs, r, f)
  {
    hide Refers;
  }

  lemma QuietFirm(s: State, r: Ref, f: Field)
    requires Inv(s) && !AtomicNext(s) && Live(s, r) && Firm(s.objs, r, f)
    ensures Load(SingleStep(s).objs, r, f) == Load(s.objs, r, f) && Firm(SingleStep(s).objs, r, f)
  {
    hide Inv, SingleStep, Load, Firm;
    QuietLoads(s, r, f);
    QuietModes(s, r);
    SameFirm(s.objs, SingleStep(s).objs, r, f);
  }

  lemma QuietModes(s: State, r: Ref)
    requires Inv(s) && !AtomicNext(s) && Live(s, r)
    ensures SameModes(s.objs, SingleStep(s).objs, r)
    ensures r in SingleStep(s).objs && SingleStep(s).objs[r].Table? ==> s.objs[r].Table?
  {
    hide Struct, PhaseInv, RootsLive, SingleStep;
    QuietBodies(s);
    QuietUses(s);
    if s.objs[r].Table? && s.objs[r].meta.Obj? {
      assert Refers(s.objs, r, s.objs[r].meta.ref);
    }
  }

  lemma StepFirm(s: State, r: Ref, f: Field)
    requires Inv(s) && Live(s, r) && Firm(s.objs, r, f)
    ensures Load(SingleStep(s).objs, r, f) == Load(s.objs, r, f) && Firm(SingleStep(s).objs, r, f)
  {
    hide Inv, SingleStep, Load, Firm;
    if AtomicNext(s) {
      AtomicFirm(s, r, f);
    } else {
      QuietFirm(s, r, f);
    }
  }

  lemma {:induction false} StepFetches(s: State, v: Value, path: seq<Field>)
    requires Inv(s) && (v.Obj? ==> Reach(s, v.ref)) && FirmPath(s.objs, v, path)
    ensures FirmPath(SingleStep(s).objs, v, path)
    ensures Fetch(SingleStep(s).objs, v, path) == Fetch(s.objs, v, path)
    decreases |path|
  {
    hide Inv, Reach, Refers, SingleStep, Load, Firm;
    if path != [] && v.Obj? {
      NoDangling(s, v.ref);
      StepFirm(s, v.ref, path[0]);
      if Load(s.objs, v.ref, path[0]).Some? {
        var next := Load(s.objs, v.ref, path[0]).value;
        if next.Obj? {
          assert Loads(s.objs, v.ref, Obj(next.ref));
          RefersExact(s.objs, v.ref, next.ref);
          ReachStep(s, v.ref, next.ref);
        }
        StepFetches(s, next, path[1..]);
      }
    }
  }

  /** The program starts from the same values, and fetches the same by every path without a weak reference. */
  ghost predicate LooksSame(s: State, s': State) {
    && s'.roots == s.roots
    && (forall v, path :: StartsFrom(s, v) && FirmPath(s.objs, v, path) ==>
          FirmPath(s'.objs, v, path) && Fetch(s'.objs, v, path) == Fetch(s.objs, v, path))
  }

  lemma LooksSameTrans(a: State, b: State, c: State)
    requires LooksSame(a, b) && LooksSame(b, c)
    ensures LooksSame(a, c)
  {
    hide FirmPath, Fetch;
    assert forall v :: StartsFrom(a, v) <==> StartsFrom(b, v);
  }

  lemma SameHeapLooks(s: State, s': State)
    requires s'.objs == s.objs && s'.roots == s.roots
    ensures LooksSame(s, s')
  {
    hide FirmPath, Fetch;
  }

  /** No step of the collector is seen by the program, but by way of weak tables. */
  lemma StepLooksSame(s: State)
    requires Inv(s)
    ensures Inv(SingleStep(s)) && LooksSame(s, SingleStep(s))
  {
    hide Inv, SingleStep, FirmPath, Fetch, Reach;
    SingleStepInv(s);
    StepRoots(s);
    forall v, path | StartsFrom(s, v) && FirmPath(s.objs, v, path)
      ensures FirmPath(SingleStep(s).objs, v, path) && Fetch(SingleStep(s).objs, v, path) == Fetch(s.objs, v, path)
    {
      StartReached(s, v);
      StepFetches(s, v, path);
    }
  }

  lemma StepRoots(s: State)
    requires Inv(s)
    ensures SingleStep(s).roots == s.roots
  {
    hide Inv;
    if AtomicNext(s) {
      hide AtomicMark, ClearTables;
    } else {
      SingleStepInv(s);
      hide SingleStep;
    }
  }

  lemma {:induction false} UntilLooksSame(s: State, stop: Phase)
    requires Inv(s)
    ensures LooksSame(s, StepUntil(s, stop))
    decreases PhaseRank(s.phase), WhitesLeft(s), WorkLeft(s)
  {
    hide Inv, SingleStep, LooksSame;
    if s.phase != stop && s.phase != GCSpause {
      StepLooksSame(s);
      StepDecreases(s);
      UntilLooksSame(SingleStep(s), stop);
      LooksSameTrans(s, SingleStep(s), StepUntil(s, stop));
    } else {
      SameHeapLooks(s, s);
    }
  }

  /** A full collection is not seen either. */
  lemma FullGCLooksSame(s: State)
    requires Inv(s)
    ensures LooksSame(s, FullGC(s))
  {
    hide Inv, SingleStep, StepUntil, AllWhite, KeepsLive, StartCycle, LooksSame;
    AbandonInv(s);
    SweepUntil(Abandon(s), GCSfinalize);
    SameHeapLooks(s, Abandon(s));
    UntilLooksSame(Abandon(s), GCSfinalize);
    var s2 := StepUntil(Abandon(s), GCSfinalize);
    LooksSameTrans(s, Abandon(s), s2);
    StartCycleInv(s2);
    StartCycleFrame(s2);
    SameHeapLooks(s2, StartCycle(s2));
    LooksSameTrans(s, s2, StartCycle(s2));
    UntilLooksSame(StartCycle(s2), GCSpause);
    LooksSameTrans(s, StartCycle(s2), FullGC(s));
  }

  /**
    Over every run: however far the collector goes on from there, the program fetches what it
    fetched before, by every path of loads without a weak reference.
   */
  lemma CollectorUnseen(size: nat, ops: seq<Op>, s: State, n: nat)
    requires size > 0 && PowerOfTwo(size) && Run(Initial(size), ops, s)
    ensures LooksSame(s, Steps(s, n))
  {
    hide Inv, Run, Initial, LooksSame;
    InitialInv(size);
    RunInv(Initial(size), ops, s);
    StepsLookSame(s, n);
  }

  lemma {:induction false} StepsLookSame(s: State, n: nat)
    requires Inv(s)
    ensures LooksSame(s, Steps(s, n))
    decreases n
  {
    hide Inv, SingleStep, LooksSame;
    if n == 0 {
      SameHeapLooks(s, s);
    } else {
      StepLooksSame(s);
      StepsLookSame(SingleStep(s), n - 1);
      LooksSameTrans(s, SingleStep(s), Steps(s, n));
    }
  }

  // ---------------------------------------------------------------- instructions

  /** `v` is alive, and not freed by the collector's next step. */
  ghost predicate Safe(s: State, v: Value) {
    v.Obj? ==> Live(s, v.ref) && v.ref in SingleStep(s).objs
  }

  /** Over every run, whatever is loaded from an object that can be reached is safe, and can be reached. */
  lemma LoadSafe(size: nat, ops: seq<Op>, s: State, r: Ref, f: Field, v: Value)
    requires size > 0 && PowerOfTwo(size) && Run(Initial(size), ops, s)
    requires Reach(s, r) && Load(s.objs, r, f) == Some(v)
    ensures Safe(s, v) && (v.Obj? ==> Reach(s, v.ref))
  {
    hide Run, Initial, Load, SingleStep, Live, Refers, Reach;
    if v.Obj? {
      assert Loads(s.objs, r, v);
      RefersExact(s.objs, r, v.ref);
      ReachStep(s, r, v.ref);
      CollectorSafe(size, ops, s, v.ref);
    }
  }

  /**
    A Lua function in a register of the running thread: its constants (LOADK, GETGLOBAL), its
    inner prototypes (CLOSURE), the values of its upvalues (GETUPVAL) and its environment are safe.
   */
  lemma FunctionSafe(size: nat, ops: seq<Op>, s: State, l: nat, f: Ref, p: Ref)
    requires size > 0 && PowerOfTwo(size) && Run(Initial(size), ops, s)
    requires s.roots.running in s.objs && s.objs[s.roots.running].Thread? && l < |s.objs[s.roots.running].stack|
    requires s.objs[s.roots.running].stack[l] == Obj(f) && f in s.objs && s.objs[f].LClosure?
    requires s.objs[f].proto == Obj(p) && p in s.objs && s.objs[p].Proto?
    ensures forall i :: 0 <= i < |s.objs[p].k| ==> Safe(s, s.objs[p].k[i])
    ensures forall i :: 0 <= i < |s.objs[p].p| ==> Safe(s, s.objs[p].p[i])
    ensures forall i :: 0 <= i < |s.objs[f].upvals| && s.objs[f].upvals[i].Obj? ==>
              var u := s.objs[f].upvals[i].ref;
              Live(s, u) && (u in s.objs && s.objs[u].UpVal? ==> Safe(s, UpvalVal(s.objs, u)))
    ensures Safe(s, s.objs[f].env)
  {
    hide Run, Initial, SingleStep, Live, Reach, Load;
    var t := s.roots.running;
    ReachRoot(s, t);
    RegisterLoads(s.objs, t, l);
    LoadSafe(size, ops, s, t, StackSlot(l), Obj(f));
    FunctionLoads(s.objs, f);
    LoadSafe(size, ops, s, f, FunctionProto, Obj(p));
    LoadSafe(size, ops, s, f, Env, s.objs[f].env);
    PrototypeLoads(s.objs, p);
    forall i | 0 <= i < |s.objs[p].k|
      ensures Safe(s, s.objs[p].k[i])
    {
      LoadSafe(size, ops, s, p, Constant(i), s.objs[p].k[i]);
    }
    forall i | 0 <= i < |s.objs[p].p|
      ensures Safe(s, s.objs[p].p[i])
    {
      LoadSafe(size, ops, s, p, InnerProto(i), s.objs[p].p[i]);
    }
    forall i | 0 <= i < |s.objs[f].upvals| && s.objs[f].upvals[i].Obj?
      ensures var u := s.objs[f].upvals[i].ref;
              Live(s, u) && (u in s.objs && s.objs[u].UpVal? ==> Safe(s, UpvalVal(s.objs, u)))
    {
      LoadSafe(size, ops, s, f, Upvalue(i), s.objs[f].upvals[i]);
      UpvalueSafe(size, ops, s, s.objs[f].upvals[i].ref);
    }
  }

  lemma UpvalueSafe(size: nat, ops: seq<Op>, s: State, u: Ref)
    requires size > 0 && PowerOfTwo(size) && Run(Initial(size), ops, s) && Reach(s, u)
    ensures u in s.objs && s.objs[u].UpVal? ==> Safe(s, UpvalVal(s.objs, u))
  {
    hide Run, Initial, Safe, Reach, Load, Inv, UpvalVal;
    if u in s.objs && s.objs[u].UpVal? {
      InitialInv(size);
      RunInv(Initial(size), ops, s);
      UpvalLoads(s, u);
      LoadSafe(size, ops, s, u, UpvalueValue, UpvalVal(s.objs, u));
    }
  }

  lemma RegisterLoads(objs: Heap, t: Ref, l: nat)
    requires t in objs && objs[t].Thread? && l < |objs[t].stack|
    ensures Load(objs, t, StackSlot(l)) == Some(objs[t].stack[l])
  {
  }

  lemma FunctionLoads(objs: Heap, f: Ref)
    requires f in objs && objs[f].LClosure?
    ensures Load(objs, f, FunctionProto) == Some(objs[f].proto) && Load(objs, f, Env) == Some(objs[f].env)
    ensures forall i: nat :: i < |objs[f].upvals| ==> Load(objs, f, Upvalue(i)) == Some(objs[f].upvals[i])
  {
  }

  lemma PrototypeLoads(objs: Heap, p: Ref)
    requires p in objs && objs[p].Proto?
    ensures forall i: nat :: i < |objs[p].k| ==> Load(objs, p, Constant(i)) == Some(objs[p].k[i])
    ensures forall i: nat :: i < |objs[p].p| ==> Load(objs, p, InnerProto(i)) == Some(objs[p].p[i])
  {
  }
}

/**
  The collector as it runs (lgc.c, lfunc.c, lstring.c): one object whose fields are updated in
  place.  Each method is the code of one C function, and leaves the state that the functions of
  the other modules specify; the invariants are proved there.
 */
module GcCollector {
  import opened Limits
  import opened GcHeap
  import opened GcMark
  import opened GcCycle
  import opened GcAtomic
  import opened GcInv
  import opened GcMutator
  import opened GcAlloc
  import opened GcUpval
  import opened GcStrings
  import opened GcSweep
  import opened GcSweepList
  import opened GcSteps
  import opened GcFull
  import opened GcStringHash

  class GlobalState {
    var objs: Heap
    var color: Colors
    var gray: seq<Ref>
    var grayagain: seq<Ref>
    var weak: seq<Ref>
    var roots: Roots
    var fixed: set<Ref>
    var currentwhite: bool
    var gcstate: Phase
    var rootgc: seq<Ref>
    var sweepgc: nat
    var strt: seq<seq<Ref>>
    var nuse: int
    var sweepstrgc: nat
    var uvhead: seq<Ref>

    function MarkState(): Marks
      reads this
    {
      Marks(color, gray, grayagain, weak)
    }

    function View(): State
      reads this
    {
      State(objs, MarkState(), roots, fixed, currentwhite, gcstate, rootgc, sweepgc, strt, nuse, sweepstrgc, uvhead)
    }

    // -------------------------------------------------------------- marking

    method MarkValue(v: Value)
      modifies this`color, this`gray
      ensures MarkState() == MarkAll(objs, old(MarkState()), [v])
      decreases Whites(color), 1
    {
      assert [v][1..] == [];
      if v.Obj? && v.ref in objs && v.ref in color && color[v.ref].White? {
        ReallyMarkObject(v.ref);
      }
    }

    method ReallyMarkObject(o: Ref)
      requires o in objs && o in color && color[o].White?
      modifies this`color, this`gray
      ensures MarkState() == MarkAll(objs, old(MarkState()), [Obj(o)])
      decreases Whites(color), 0
    {
      ghost var m0 := MarkState();
      ghost var m1 := MarkOne(objs, m0, o);
      assert Inner(objs, o) + [Obj(o)][1..] == Inner(objs, o);
      assert Whites(m1.color) == Whites(m0.color) - {o};
      assert MarkAll(objs, m0, [Obj(o)]) == MarkAll(objs, m1, Inner(objs, o));
      color := color[o := Gray];
      assert Whites(color) == Whites(m0.color) - {o};
      match objs[o]
      case Str(_, _) =>
      case Udata(mt, env) =>
        color := color[o := Black];
        MarkAllConcat(objs, m1, [mt], [env]);
        MarkAllProgress(objs, m1, [mt]);
        assert MarkState().color == m1.color;
        MarkValue(mt);
        MarkValue(env);
      case UpVal(v) =>
        var value := SlotVal(objs, v);
        MarkAllRecolor(objs, MarkState(), [value], o, Black);
        assert color[o := Black] == m0.color[o := Black];
        assert color == m0.color[o := Gray];
        MarkValue(value);
        if v.Closed? {
          color := color[o := Black];
        }
      case CClosure(_, _) => gray := [o] + gray;
      case LClosure(_, _, _) => gray := [o] + gray;
      case Table(_, _, _, _) => gray := [o] + gray;
      case Thread(_, _, _) => gray := [o] + gray;
      case Proto(_, _, _, _, _) => gray := [o] + gray;
    }

    method MarkForward(vs: seq<Value>)
      modifies this`color, this`gray
      ensures MarkState() == MarkAll(objs, old(MarkState()), vs)
    {
      var i := 0;
      while i < |vs|
        invariant 0 <= i <= |vs|
        invariant MarkState() == MarkAll(objs, old(MarkState()), vs[..i])
      {
        MarkAllConcat(objs, old(MarkState()), vs[..i], [vs[i]]);
        assert vs[..i + 1] == vs[..i] + [vs[i]];
        MarkValue(vs[i]);
        i := i + 1;
      }
      assert vs[..|vs|] == vs;
    }

    method MarkBackward(vs: seq<Value>)
      modifies this`color, this`gray
      ensures MarkState() == MarkAll(objs, old(MarkState()), Backwards(vs))
    {
      var i := |vs|;
      assert vs[..i] == vs;
      while i > 0
        invariant 0 <= i <= |vs|
        invariant MarkAll(objs, MarkState(), Backwards(vs[..i])) == MarkAll(objs, old(MarkState()), Backwards(vs))
      {
        i := i - 1;
        assert vs[..i + 1][..i] == vs[..i];
        MarkAllConcat(objs, MarkState(), [vs[i]], Backwards(vs[..i]));
        MarkValue(vs[i]);
      }
    }

    method MarkNodes(nodes: seq<Entry>, mode: Mode)
      modifies this`color, this`gray
      ensures MarkState() == MarkAll(objs, old(MarkState()), NodeVals(nodes, mode))
    {
      var i := |nodes|;
      assert nodes[..i] == nodes;
      while i > 0
        invariant 0 <= i <= |nodes|
        invariant MarkAll(objs, MarkState(), NodeVals(nodes[..i], mode))
          == MarkAll(objs, old(MarkState()), NodeVals(nodes, mode))
      {
        i := i - 1;
        assert nodes[..i + 1][..i] == nodes[..i];
        var e := nodes[i];
        ghost var m0 := MarkState();
        MarkAllConcat(objs, m0, EntryVals(e, mode), NodeVals(nodes[..i], mode));
        if e.val != Nil {
          MarkAllConcat(objs, m0, if mode.weakKey then [] else [e.key], if mode.weakVal then [] else [e.val]);
          if !mode.weakKey {
            MarkValue(e.key);
          }
          if !mode.weakVal {
            MarkValue(e.val);
          }
        }
      }
    }

    /** Traverse a table; a weak one goes to the `weak` list. */
    method TraverseTable(h: Ref) returns (isWeak: bool)
      requires h in objs && objs[h].Table?
      modifies this`color, this`gray, this`weak
      ensures isWeak == IsWeak(objs, objs[h])
      ensures MarkState() == MarkAll(objs, old(MarkState()).(weak := if isWeak then [h] + old(weak) else old(weak)),
        StrongVals(objs, h))
    {
      var b := objs[h];
      ghost var m0 := MarkState();
      var mode := ModeOf(objs, b.meta);
      isWeak := mode.weakKey || mode.weakVal;
      ghost var m1 := m0.(weak := if isWeak then [h] + weak else weak);
      MarkAllWeakList(objs, m0, [b.meta], m1.weak);
      var arr := if mode.weakVal then [] else b.arr;
      assert Backwards([]) == [];
      assert StrongVals(objs, h) == ([b.meta] + Backwards(arr)) + NodeVals(b.nodes, mode);
      MarkAllConcat(objs, m1, [b.meta] + Backwards(arr), NodeVals(b.nodes, mode));
      MarkAllConcat(objs, m1, [b.meta], Backwards(arr));
      MarkValue(b.meta);
      if isWeak {
        weak := [h] + weak;
      }
      if mode.weakKey && mode.weakVal {
        BothWeak(b.nodes);
        return;
      }
      if !mode.weakVal {
        MarkBackward(b.arr);
      }
      MarkNodes(b.nodes, mode);
    }

    /** Traverse the first gray object. */
    method DoPropagateMark()
      requires gray != [] && gray[0] in objs && Traversable(objs[gray[0]])
      modifies this`color, this`gray, this`grayagain, this`weak
      ensures MarkState() == PropagateMark(objs, old(MarkState()))
    {
      var o := gray[0];
      ghost var m0 := MarkState();
      ghost var todo := StrongVals(objs, o);
      gray := gray[1..];
      color := color[o := Black];
      match objs[o]
      case Table(_, _, _, _) =>
        ghost var m1 := MarkState();
        var isWeak := TraverseTable(o);
        if isWeak {
          MarkAllRecolor(objs, m1.(weak := [o] + m0.weak), todo, o, Gray);
          assert m1.color[o := Gray] == m0.color[o := Gray];
          color := color[o := Gray];
        }
      case CClosure(env, vals) =>
        MarkAllConcat(objs, MarkState(), [env], vals);
        MarkValue(env);
        MarkForward(vals);
      case LClosure(env, proto, upvals) =>
        assert todo == ([env] + [proto]) + upvals;
        MarkAllConcat(objs, MarkState(), [env] + [proto], upvals);
        MarkAllConcat(objs, MarkState(), [env], [proto]);
        MarkValue(env);
        MarkValue(proto);
        MarkForward(upvals);
      case Thread(gt, stack, _) =>
        grayagain := [o] + grayagain;
        color := color[o := Gray];
        assert color == m0.color[o := Gray];
        MarkAllConcat(objs, MarkState(), [gt], stack);
        MarkValue(gt);
        MarkForward(stack);
      case Proto(source, k, upnames, p, locnames) =>
        ProtoConcat(objs, MarkState(), source, k, upnames, p, locnames);
        MarkValue(source);
        MarkForward(k);
        MarkForward(upnames);
        MarkForward(p);
        MarkForward(locnames);
      case _ =>
        assert false;
    }

    method DoPropagateAll()
      requires Lists(objs, MarkState(), currentwhite)
      modifies this`color, this`gray, this`grayagain, this`weak
      ensures MarkState() == PropagateAll(objs, old(MarkState()))
    {
      while gray != []
        invariant Lists(objs, MarkState(), currentwhite)
        invariant PropagateAll(objs, MarkState()) == PropagateAll(objs, old(MarkState()))
        decreases Whites(color), |gray|
      {
        ghost var m := MarkState();
        assert gray[0] in gray;
        PropagateMarkDecreases(objs, m);
        PropagateMarkLists(objs, m, currentwhite);
        DoPropagateMark();
      }
    }

    method MarkRoots()
      modifies this`color, this`gray
      ensures MarkState() == MarkAll(objs, old(MarkState()), RootVals(objs, roots))
    {
      var g := MainGlobals(objs, roots);
      RootsConcat(objs, MarkState(), roots);
      MarkValue(Obj(roots.mainthread));
      MarkValue(g);
      MarkValue(roots.registry);
      MarkForward(roots.mt);
    }

    method DoMarkRoot()
      modifies this`color, this`gray, this`grayagain, this`weak, this`gcstate
      ensures View() == StartCycle(old(View()))
    {
      hide MarkAll, RootVals;
      gray := [];
      grayagain := [];
      weak := [];
      MarkRoots();
      gcstate := GCSpropagate;
    }

    method RemarkUpvals()
      modifies this`color, this`gray
      ensures MarkState() == Remark(objs, old(MarkState()), uvhead)
    {
      var i := 0;
      while i < |uvhead|
        invariant 0 <= i <= |uvhead|
        invariant Remark(objs, MarkState(), uvhead[i..]) == Remark(objs, old(MarkState()), uvhead)
      {
        var uv := uvhead[i];
        assert uvhead[i..][1..] == uvhead[i + 1..] && uvhead[i..][0] == uv;
        if uv in objs && uv in color && color[uv].Gray? {
          MarkForward(AllVals(objs, uv));
        }
        i := i + 1;
      }
    }

    // -------------------------------------------------------------- the atomic step

    method ClearArray(a0: seq<Value>) returns (arr: seq<Value>)
      modifies this`color
      ensures (arr, color) == ClearArr(objs, old(color), a0)
    {
      arr := a0;
      var i := |arr|;
      ghost var all := ClearArr(objs, color, a0);
      assert a0[..i] == a0 && all.0 + arr[i..] == all.0;
      while i > 0
        invariant 0 <= i <= |arr| == |a0| && arr[..i] == a0[..i]
        invariant ClearArr(objs, color, a0[..i]).0 + arr[i..] == all.0
        invariant ClearArr(objs, color, a0[..i]).1 == all.1
      {
        ghost var c0, arr0, r0 := color, arr, ClearArr(objs, color, a0[..i]);
        i := i - 1;
        assert a0[..i + 1][..i] == a0[..i];
        var o := arr[i];
        if IsStr(objs, o) && WhiteAt(color, o) {
          color := color[o.ref := Gray];
        } else if Cleared(objs, color, o) {
          arr := arr[i := Nil];
        }
        assert color == Touched(objs, c0, o);
        AssocOne(ClearArr(objs, color, a0[..i]).0, arr[i], arr0[i + 1..]);
        assert arr[i..] == [arr[i]] + arr0[i + 1..];
        assert r0.0 == ClearArr(objs, color, a0[..i]).0 + [arr[i]];
      }
      assert a0[..0] == [] && [] + arr[0..] == arr;
    }

    method ClearHash(n0: seq<Entry>) returns (nodes: seq<Entry>)
      modifies this`color
      ensures (nodes, color) == ClearNodes(objs, old(color), n0)
    {
      nodes := n0;
      var i := |nodes|;
      ghost var all := ClearNodes(objs, color, n0);
      assert n0[..i] == n0 && all.0 + nodes[i..] == all.0;
      while i > 0
        invariant 0 <= i <= |nodes| == |n0| && nodes[..i] == n0[..i]
        invariant ClearNodes(objs, color, n0[..i]).0 + nodes[i..] == all.0
        invariant ClearNodes(objs, color, n0[..i]).1 == all.1
      {
        ghost var c0, nodes0, r0 := color, nodes, ClearNodes(objs, color, n0[..i]);
        i := i - 1;
        assert n0[..i + 1][..i] == n0[..i];
        var n := nodes[i];
        if n.val != Nil {
          var keyCleared := Cleared(objs, color, n.key);
          color := Touched(objs, color, n.key);
          if keyCleared {
            nodes := nodes[i := Entry(n.key, Nil)];
          } else {
            var valCleared := Cleared(objs, color, n.val);
            color := Touched(objs, color, n.val);
            if valCleared {
              nodes := nodes[i := Entry(n.key, Nil)];
            }
          }
        }
        assert (nodes[i], color) == ClearEntry(objs, c0, n);
        AssocOne(ClearNodes(objs, color, n0[..i]).0, nodes[i], nodes0[i + 1..]);
        assert nodes[i..] == [nodes[i]] + nodes0[i + 1..];
        assert r0.0 == ClearNodes(objs, color, n0[..i]).0 + [nodes[i]];
      }
      assert n0[..0] == [] && [] + nodes[0..] == nodes;
    }

    /** Empty the weak tables of what is about to be collected. */
    method DoClearTables(l: seq<Ref>)
      requires forall h :: h in l ==> h in objs && objs[h].Table?
      modifies this`objs, this`color
      ensures (objs, color) == ClearTables(old(objs), old(color), l)
    {
      var i := 0;
      while i < |l|
        invariant 0 <= i <= |l|
        invariant forall h :: h in l ==> h in objs && objs[h].Table?
        invariant ClearTables(objs, color, l[i..]) == ClearTables(old(objs), old(color), l)
      {
        var h := l[i];
        assert l[i..][0] == h && l[i..][1..] == l[i + 1..];
        var b := objs[h];
        var arr := b.arr;
        if ModeOf(objs, b.meta).weakVal {
          arr := ClearArray(arr);
        }
        var nodes := ClearHash(b.nodes);
        objs := objs[h := Table(b.meta, b.mode, arr, nodes)];
        i := i + 1;
      }
    }

    /** The marking of the atomic step: upvalues, then the weak tables, then what was made gray again. */
    method AtomicMarking()
      requires AtomicReady(objs, MarkState(), roots, uvhead, currentwhite)
      modifies this`color, this`gray, this`grayagain, this`weak
      ensures MarkState() == AtomicMark(objs, old(MarkState()), roots, uvhead)
    {
      hide Lists;
      RemarkUpvals();
      DoPropagateAll();
      gray := weak;
      weak := [];
      MarkAllConcat(objs, MarkState(), [Obj(roots.running)], roots.mt);
      MarkValue(Obj(roots.running));
      MarkForward(roots.mt);
      DoPropagateAll();
      gray := grayagain;
      grayagain := [];
      DoPropagateAll();
    }

    method EnterSweep()
      modifies this`currentwhite, this`sweepstrgc, this`sweepgc, this`gcstate
      ensures View() == old(View()).(white := !old(currentwhite), phase := GCSsweepstring, sweepstrgc := 0,
        sweepgc := 0)
    {
      currentwhite := !currentwhite;
      sweepstrgc := 0;
      sweepgc := 0;
      gcstate := GCSsweepstring;
    }

    method MarkAndClear()
      requires AtomicReady(objs, MarkState(), roots, uvhead, currentwhite)
      requires forall h :: h in AtomicMark(objs, MarkState(), roots, uvhead).weak ==> h in objs && objs[h].Table?
      modifies this`objs, this`color, this`gray, this`grayagain, this`weak
      ensures var m := AtomicMark(old(objs), old(MarkState()), roots, uvhead);
              var r := ClearTables(old(objs), m.color, m.weak);
              objs == r.0 && MarkState() == m.(color := r.1)
    {
      hide AtomicReady, AtomicMark, ClearTables;
      AtomicMarking();
      DoClearTables(weak);
    }

    method DoAtomic()
      requires gcstate == GCSpropagate && gray == [] && Inv(View())
      modifies this
      ensures View() == Atomic(old(View()))
    {
      hide Inv, AtomicMark, ClearTables, AtomicReady;
      AtomicStages(View());
      MarkAndClear();
      EnterSweep();
    }

    // -------------------------------------------------------------- barriers and links

    method DoBarrierF(o: Ref, v: Value)
      requires o in objs && IsBlack(MarkState(), o) && WhiteAt(color, v) && v.ref in objs
      modifies this`color, this`gray
      ensures MarkState() == BarrierF(objs, old(MarkState()), gcstate, currentwhite, o, v)
    {
      if gcstate == GCSpropagate {
        assert [v] == [Obj(v.ref)];
        ReallyMarkObject(v.ref);
      } else {
        color := color[o := White(currentwhite)];
      }
    }

    method DoBarrierBack(t: Ref)
      requires IsBlack(MarkState(), t)
      modifies this`color, this`grayagain
      ensures forall v :: WhiteAt(old(color), v) ==> MarkState() == BarrierT(old(MarkState()), t, v)
    {
      color := color[t := Gray];
      grayagain := [t] + grayagain;
    }

    /** The barrier macros: `news` are stored into `r`, one after the other. */
    method StoreBarriers(r: Ref, news: seq<Value>)
      requires r in objs && ValsIn(objs, news)
      modifies this`color, this`gray, this`grayagain
      ensures MarkState() == Barriers(objs, old(MarkState()), gcstate, currentwhite, r, news)
    {
      var i := 0;
      while i < |news|
        invariant 0 <= i <= |news|
        invariant Barriers(objs, MarkState(), gcstate, currentwhite, r, news[i..]) ==
                  Barriers(objs, old(MarkState()), gcstate, currentwhite, r, news)
      {
        var v := news[i];
        assert news[i..][0] == v && news[i..][1..] == news[i + 1..];
        if !objs[r].Thread? && WhiteAt(color, v) && IsBlack(MarkState(), r) {
          assert Obj(v.ref) in news;
          if objs[r].Table? {
            DoBarrierBack(r);
          } else {
            DoBarrierF(r, v);
          }
        }
        i := i + 1;
      }
    }

    method DoWrite(r: Ref, b: Body, news: seq<Value>)
      requires r in objs && ValsIn(objs, news)
      modifies this
      ensures View() == Write(old(View()), r, b, news)
    {
      objs := objs[r := b];
      StoreBarriers(r, news);
    }

    /** luaC_link, and luaS_newudata for userdata. */
    method DoLink(r: Ref, b: Body)
      modifies this
      ensures View() == New(old(View()), r, b)
    {
      var pos := LinkPos(View(), b);
      rootgc := InsertAt(rootgc, pos, r);
      sweepgc := ShiftSweep(sweepgc, pos);
      color := color[r := White(currentwhite)];
      objs := objs[r := b];
    }

    // -------------------------------------------------------------- upvalues

    /** The search of the list of open upvalues, which goes down in level */
    method FindPos(l: seq<Ref>, level: nat) returns (k: nat)
      ensures k == UvPos(objs, l, level)
    {
      k := 0;
      while k < |l| && Level(objs, l[k]) > level
        invariant 0 <= k <= |l|
        invariant UvPos(objs, l, level) == k + UvPos(objs, l[k..], level)
      {
        assert l[k..][1..] == l[k + 1..];
        k := k + 1;
      }
    }

    /** luaF_findupval */
    method DoFindUpval(t: Ref, level: nat, r: Ref) returns (uv: Ref)
      requires t in objs && objs[t].Thread? && r !in objs
      modifies this
      ensures View() == FindUpval(old(View()), t, level, r)
      ensures uv == if FoundUpval(old(objs), t, level).Obj? then FoundUpval(old(objs), t, level).ref else r
    {
      hide UvPos, InsertAt;
      var th := objs[t];
      var l := th.openupval;
      var k := FindPos(l, level);
      if k < |l| && Level(objs, l[k]) == level {
        uv := l[k];
        if Dead(View(), uv) {
          color := color[uv := White(currentwhite)];
        }
        return;
      }
      uv := r;
      objs := objs[uv := UpVal(Open(t, level))];
      color := color[uv := White(currentwhite)];
      objs := objs[t := Thread(th.gt, th.stack, InsertAt(l, k, uv))];
      uvhead := [uv] + uvhead;
    }

    /** luaC_linkupval */
    method DoLinkUpval(u: Ref)
      requires u in objs && objs[u].UpVal?
      requires gcstate == GCSpropagate ==> forall c :: Refers(objs, u, c) ==> c in objs
      modifies this
      ensures View() == LinkUpval(old(View()), u)
    {
      hide InsertAt, ShiftSweep, SlotVal, AllVals, MarkAll;
      UpvalRefers(objs, u);
      rootgc := InsertAt(rootgc, 0, u);
      sweepgc := ShiftSweep(sweepgc, 0);
      if IsGray(MarkState(), u) {
        if gcstate == GCSpropagate {
          color := color[u := Black];
          var v := SlotVal(objs, objs[u].v);
          if WhiteAt(color, v) {
            assert Refers(objs, u, v.ref);
            DoBarrierF(u, v);
          }
        } else {
          color := color[u := White(currentwhite)];
        }
      }
    }

    /** luaF_close */
    method DoClose(t: Ref, level: nat)
      requires Inv(View()) && t in objs && objs[t].Thread? && UvListOk(objs, t)
      modifies this
      ensures View() == CloseUpvals(old(View()), t, level)
    {
      ghost var s0 := View();
      while objs[t].openupval != [] && Level(objs, objs[t].openupval[0]) >= level
        invariant Inv(View()) && t in objs && objs[t].Thread? && UvListOk(objs, t)
        invariant CloseUpvals(View(), t, level) == CloseUpvals(s0, t, level)
        decreases |objs[t].openupval|
      {
        ghost var s := View();
        CloseOneList(s, t);
        CloseOneInv(s, t);
        DoCloseOne(t);
      }
    }

    method DoCloseOne(t: Ref)
      requires Inv(View()) && CanClose(objs, t)
      modifies this
      ensures View() == CloseOne(old(View()), t)
    {
      hide Inv;
      ghost var s := View();
      var th := objs[t];
      var uv := th.openupval[0];
      objs := objs[t := Thread(th.gt, th.stack, th.openupval[1..])];
      uvhead := Without(uvhead, uv);
      if Dead(View(), uv) {
        objs := objs - {uv};
        color := color - {uv};
      } else {
        var value := SlotVal(objs, objs[uv].v);
        objs := objs[uv := UpVal(Closed(value))];
        CloseHeapIn(s, objs, t);
        DoLinkUpval(uv);
      }
    }

    // -------------------------------------------------------------- strings

    /** Relink one chain into the new table; `rest` is what is still to be moved. */
    method RelinkChain(chain: seq<Ref>, nh: seq<seq<Ref>>, ghost rest: seq<Ref>) returns (newhash: seq<seq<Ref>>)
      requires |nh| > 0
      ensures |newhash| == |nh| && Rehash(objs, rest, newhash) == Rehash(objs, chain + rest, nh)
    {
      newhash := nh;
      var p := chain;
      while p != []
        invariant |newhash| == |nh|
        invariant Rehash(objs, p + rest, newhash) == Rehash(objs, chain + rest, nh)
        decreases |p|
      {
        var h1 := Bucket(HashOf(objs, p[0]), |newhash|);
        assert (p + rest)[1..] == p[1..] + rest;
        newhash := newhash[h1 := [p[0]] + newhash[h1]];
        p := p[1..];
      }
      assert [] + rest == rest;
    }

    /** luaS_resize */
    method DoResize(newsize: nat)
      requires newsize > 0
      modifies this`strt
      ensures View() == Resize(old(View()), newsize)
    {
      if gcstate == GCSsweepstring {
        return;
      }
      var newhash := Empty(newsize);
      var i := 0;
      while i < |strt|
        invariant 0 <= i <= |strt| && |newhash| == newsize && strt == old(strt)
        invariant Rehash(objs, Flat(strt[i..]), newhash) == Rehash(objs, Flat(strt), Empty(newsize))
      {
        assert strt[i..][0] == strt[i] && strt[i..][1..] == strt[i + 1..];
        newhash := RelinkChain(strt[i], newhash, Flat(strt[i + 1..]));
        i := i + 1;
      }
      assert strt[i..] == [];
      strt := newhash;
    }

    /** The search of a chain for an equal string */
    method FindString(l: seq<Ref>, bytes: Bytes) returns (i: nat)
      ensures i <= |l|
      ensures FindStr(objs, l, bytes) == if i < |l| then Obj(l[i]) else Nil
    {
      i := 0;
      while i < |l| && !(l[i] in objs && objs[l[i]].Str? && objs[l[i]].bytes == bytes)
        invariant 0 <= i <= |l|
        invariant FindStr(objs, l, bytes) == FindStr(objs, l[i..], bytes)
      {
        assert l[i..][1..] == l[i + 1..];
        i := i + 1;
      }
    }

    /** luaS_newlstr; `r` is where a new string would be allocated */
    method DoIntern(bytes: Bytes, r: Ref) returns (ts: Ref)
      requires |strt| > 0
      modifies this
      ensures View() == Intern(old(View()), bytes, r)
    {
      hide Hash, Bucket, FindStr, Resize;
      var h := Hash(bytes);
      var b := Bucket(h, |strt|);
      var l := strt[b];
      var i := FindString(l, bytes);
      if i < |l| {
        ts := l[i];
        if Dead(View(), ts) {
          color := color[ts := White(currentwhite)];
        }
        return;
      }
      ts := r;
      objs := objs[ts := Str(bytes, h)];
      color := color[ts := White(currentwhite)];
      strt := strt[b := [ts] + strt[b]];
      nuse := nuse + 1;
      if nuse > |strt| && |strt| <= MAX_INT / 2 {
        DoResize(|strt| * 2);
      }
    }

    // -------------------------------------------------------------- sweeping

    /** sweeplist, on one chain of the string table */
    method SweepStrings(l: seq<Ref>) returns (kept: seq<Ref>)
      requires NoDup(l)
      modifies this`objs, this`color, this`nuse
      ensures kept == Kept(old(color), fixed, currentwhite, l)
      ensures objs == old(objs) - DoomedIn(old(color), fixed, currentwhite, l)
      ensures color == SweptColors(old(color), fixed, currentwhite, l)
      ensures nuse == old(nuse) - (|l| - |kept|)
    {
      kept := [];
      var i := 0;
      while i < |l|
        invariant 0 <= i <= |l|
        invariant kept == Kept(old(color), fixed, currentwhite, l[..i])
        invariant objs == old(objs) - DoomedIn(old(color), fixed, currentwhite, l[..i])
        invariant color == SweptColors(old(color), fixed, currentwhite, l[..i])
        invariant nuse == old(nuse) - (i - |kept|)
      {
        var curr := l[i];
        SweepNext(old(color), fixed, currentwhite, l, i);
        if Doomed(color, fixed, currentwhite, curr) {
          nuse := nuse - 1;
          objs := objs - {curr};
          color := color - {curr};
        } else {
          kept := kept + [curr];
          if curr in color {
            color := color[curr := White(currentwhite)];
          }
        }
        i := i + 1;
      }
      assert l[..|l|] == l;
    }

    method DoSweepBucket()
      requires sweepstrgc < |strt| && NoDup(strt[sweepstrgc])
      modifies this`objs, this`color, this`nuse, this`strt, this`sweepstrgc, this`gcstate
      ensures View() == SweepBucket(old(View()))
    {
      hide NoDup, Kept, DoomedIn, SweptColors;
      var i := sweepstrgc;
      sweepstrgc := sweepstrgc + 1;
      var kept := SweepStrings(strt[i]);
      strt := strt[i := kept];
      if sweepstrgc >= |strt| {
        gcstate := GCSsweep;
      }
    }

    /** sweeplist, on the open upvalues of a thread; a freed one leaves the ring of open upvalues */
    method SweepOpen(l: seq<Ref>) returns (kept: seq<Ref>)
      requires NoDup(l) && NoDup(uvhead)
      modifies this`objs, this`color, this`uvhead
      ensures kept == Kept(old(color), fixed, currentwhite, l)
      ensures objs == old(objs) - DoomedIn(old(color), fixed, currentwhite, l)
      ensures color == SweptColors(old(color), fixed, currentwhite, l)
      ensures uvhead == Minus(old(uvhead), DoomedIn(old(color), fixed, currentwhite, l))
    {
      kept := [];
      var i := 0;
      MinusNone(uvhead);
      assert DoomedIn(color, fixed, currentwhite, l[..0]) == {};
      while i < |l|
        invariant 0 <= i <= |l|
        invariant kept == Kept(old(color), fixed, currentwhite, l[..i])
        invariant objs == old(objs) - DoomedIn(old(color), fixed, currentwhite, l[..i])
        invariant color == SweptColors(old(color), fixed, currentwhite, l[..i])
        invariant uvhead == Minus(old(uvhead), DoomedIn(old(color), fixed, currentwhite, l[..i]))
      {
        var curr := l[i];
        SweepNext(old(color), fixed, currentwhite, l, i);
        if Doomed(color, fixed, currentwhite, curr) {
          MinusOne(old(uvhead), DoomedIn(old(color), fixed, currentwhite, l[..i]), curr);
          uvhead := Without(uvhead, curr);
          objs := objs - {curr};
          color := color - {curr};
        } else {
          kept := kept + [curr];
          if curr in color {
            color := color[curr := White(currentwhite)];
          }
        }
        i := i + 1;
      }
      assert l[..|l|] == l;
    }

    method DoSweepUpvals(t: Ref)
      requires t in objs && objs[t].Thread? && UvListOk(objs, t) && NoDup(uvhead)
      modifies this`objs, this`color, this`uvhead
      ensures View() == SweepUpvals(old(View()), t)
    {
      hide Kept, DoomedIn, SweptColors, UvListOk, NoDup, Minus;
      var th := objs[t];
      OwnUpvals(objs, color, fixed, currentwhite, t);
      var kept := SweepOpen(th.openupval);
      objs := objs[t := Thread(th.gt, th.stack, kept)];
    }

    /** freeobj, on an object of `rootgc` */
    method DoFreeObj(o: Ref)
      requires Inv(View())
      modifies this
      ensures View() == FreeObj(old(View()), o)
    {
      ThreadUpvals(View(), o);
      hide Inv, CloseUpvals, UvListOk, Unlink;
      if ThreadAt(objs, o) {
        DoClose(o, 0);
      }
      DoUnlink(o);
    }

    method DoUnlink(o: Ref)
      modifies this`rootgc, this`objs, this`color
      ensures View() == Unlink(old(View()), o)
    {
      rootgc := Without(rootgc, o);
      objs := objs - {o};
      color := color - {o};
    }

    method FreeOrKeep(curr: Ref)
      requires Inv(View())
      modifies this
      ensures View() == if Doomed(old(color), old(fixed), old(currentwhite), curr) then FreeObj(old(View()), curr)
        else SweepKeep(old(View()), curr)
    {
      hide Inv, FreeObj;
      if Doomed(color, fixed, currentwhite, curr) {
        DoFreeObj(curr);
      } else {
        color := color[curr := White(currentwhite)];
        sweepgc := sweepgc + 1;
      }
    }

    /** The body of the loop of sweeplist, on `rootgc` */
    method DoSweepOne()
      requires Inv(View()) && gcstate == GCSsweep && sweepgc < |rootgc|
      modifies this
      ensures View() == SweepOne(old(View()))
    {
      var curr := rootgc[sweepgc];
      ThreadUpvals(View(), curr);
      hide Inv, SweepUpvals, FreeObj, SweepKeep, Doomed, UvListOk, NoDup;
      if ThreadAt(objs, curr) {
        SweepUpvalsInv(View(), curr);
        DoSweepUpvals(curr);
      }
      FreeOrKeep(curr);
    }

    method DoSweepList(max: nat)
      requires Inv(View()) && gcstate == GCSsweep
      modifies this
      ensures View() == SweepList(old(View()), max)
      ensures Inv(View())
    {
      hide Inv, SweepOne;
      var count := max;
      while sweepgc < |rootgc| && count > 0
        invariant Inv(View()) && gcstate == GCSsweep
        invariant SweepList(View(), count) == SweepList(old(View()), max)
        decreases count
      {
        SweepOneInv(View());
        SweepOnePhase(View());
        DoSweepOne();
        count := count - 1;
      }
    }

    method DoCheckSizes()
      modifies this`strt
      ensures View() == CheckSizes(old(View()))
    {
      if nuse < |strt| / 4 && |strt| > MINSTRTABSIZE * 2 {
        DoResize(|strt| / 2);
      }
    }

    method DoSweepStep()
      requires Inv(View()) && gcstate == GCSsweep
      modifies this
      ensures View() == SweepStep(old(View()))
    {
      hide Inv, SweepList;
      DoSweepList(GCSWEEPMAX);
      if sweepgc >= |rootgc| {
        hide Resize;
        DoCheckSizes();
        gcstate := GCSfinalize;
      }
    }

    // -------------------------------------------------------------- whole steps and cycles

    method StepMark()
      requires Inv(View()) && gcstate == GCSpropagate && gray != []
      modifies this
      ensures View() == old(View()).(m := PropagateMark(old(objs), old(MarkState())))
    {
      GrayHead(View());
      hide Inv, PropagateMark, Traversable;
      DoPropagateMark();
    }

    method StepPropagate()
      requires Inv(View()) && gcstate == GCSpropagate
      modifies this
      ensures View() == SingleStep(old(View()))
    {
      hide Inv, PropagateMark, Atomic;
      if gray != [] {
        StepMark();
      } else {
        DoAtomic();
      }
    }

    method StepSweepString()
      requires Inv(View()) && gcstate == GCSsweepstring
      modifies this
      ensures View() == SingleStep(old(View()))
    {
      if sweepstrgc < |strt| {
        BucketNoDup(View());
        hide Inv, SweepBucket, NoDup;
        DoSweepBucket();
      }
    }

    method DoSingleStep()
      requires Inv(View())
      modifies this
      ensures View() == SingleStep(old(View()))
      ensures Inv(View())
    {
      hide Inv, StartCycle, Atomic, PropagateMark, SweepBucket, SweepStep;
      SingleStepInv(View());
      match gcstate
      case GCSpause => DoMarkRoot();
      case GCSpropagate => StepPropagate();
      case GCSsweepstring => StepSweepString();
      case GCSsweep => DoSweepStep();
      case GCSfinalize => gcstate := GCSpause;
    }

    method FinishCycle(stop: Phase)
      requires Inv(View())
      modifies this
      ensures View() == StepUntil(old(View()), stop)
      ensures Inv(View())
    {
      hide Inv, SingleStep;
      while gcstate != stop && gcstate != GCSpause
        invariant Inv(View())
        invariant StepUntil(View(), stop) == StepUntil(old(View()), stop)
        decreases PhaseRank(gcstate), WhitesLeft(View()), WorkLeft(View())
      {
        SingleStepInv(View());
        StepDecreases(View());
        DoSingleStep();
      }
    }

    /** The beginning of luaC_fullgc: a mark that is under way is given up. */
    method DoAbandon()
      modifies this`gray, this`grayagain, this`weak, this`sweepstrgc, this`sweepgc, this`gcstate
      ensures View() == Abandon(old(View()))
    {
      hide Abandon;
      AbandonIs(View());
      if gcstate == GCSpause || gcstate == GCSpropagate {
        sweepstrgc, sweepgc := 0, 0;
        gray, grayagain, weak := [], [], [];
        gcstate := GCSsweepstring;
      }
    }

    /** luaC_fullgc */
    method DoFullGC()
      requires Inv(View())
      modifies this
      ensures View() == FullGC(old(View()))
      ensures Inv(View())
    {
      hide Inv, StepUntil, Abandon, StartCycle;
      AbandonInv(View());
      SweepUntil(Abandon(View()), GCSfinalize);
      DoAbandon();
      FinishCycle(GCSfinalize);
      StartCycleInv(View());
      DoMarkRoot();
      FinishCycle(GCSpause);
    }
  }

  // ---------------------------------------------------------------- lemmas about the order of marking

  lemma AbandonIs(s: State)
    ensures Abandon(s) ==
            if s.phase == GCSpause || s.phase == GCSpropagate then
              State(s.objs, Marks(s.m.color, [], [], []), s.roots, s.fixed, s.white, GCSsweepstring, s.rootgc, 0,
                    s.strt, s.nuse, 0, s.uvhead)
            else s
  {
  }

  lemma UpvalRefers(objs: Heap, u: Ref)
    requires u in objs && objs[u].UpVal?
    ensures var v := SlotVal(objs, objs[u].v); v.Obj? ==> Refers(objs, u, v.ref)
  {
  }

  lemma OwnUpvals(objs: Heap, color: Colors, fixed: set<Ref>, white: bool, t: Ref)
    requires t in objs && objs[t].Thread? && UvListOk(objs, t)
    ensures NoDup(objs[t].openupval) && t !in DoomedIn(color, fixed, white, objs[t].openupval)
  {
  }

  lemma AssocOne<T>(a: seq<T>, x: T, b: seq<T>)
    ensures (a + [x]) + b == a + ([x] + b)
  {
  }

  /** Marking does not look at the `weak` list. */
  lemma {:induction false} MarkAllWeakList(objs: Heap, m: Marks, todo: seq<Value>, l: seq<Ref>)
    ensures MarkAll(objs, m.(weak := l), todo) == MarkAll(objs, m, todo).(weak := l)
    decreases Whites(m.color), |todo|
  {
    if todo == [] {
    } else if !NeedsMark(objs, m.color, todo[0]) {
      MarkAllWeakList(objs, m, todo[1..], l);
    } else {
      var m1 := MarkOne(objs, m, todo[0].ref);
      assert Whites(m1.color) == Whites(m.color) - {todo[0].ref};
      assert MarkOne(objs, m.(weak := l), todo[0].ref) == m1.(weak := l);
      MarkAllWeakList(objs, m1, Inner(objs, todo[0].ref) + todo[1..], l);
    }
  }

  lemma {:induction false} BothWeak(nodes: seq<Entry>)
    ensures NodeVals(nodes, Mode(true, true)) == []
  {
    if nodes != [] {
      BothWeak(nodes[..|nodes| - 1]);
    }
  }

  lemma RootsConcat(objs: Heap, m: Marks, roots: Roots)
    ensures MarkAll(objs, m, RootVals(objs, roots)) ==
            MarkAll(objs, MarkAll(objs,
              MarkAll(objs, MarkAll(objs, m, [Obj(roots.mainthread)]), [MainGlobals(objs, roots)]),
                                  [roots.registry]), roots.mt)
  {
    var a, g := [Obj(roots.mainthread)], [MainGlobals(objs, roots)];
    assert RootVals(objs, roots) == ((a + g) + [roots.registry]) + roots.mt;
    MarkAllConcat(objs, m, (a + g) + [roots.registry], roots.mt);
    MarkAllConcat(objs, m, a + g, [roots.registry]);
    MarkAllConcat(objs, m, a, g);
  }

  lemma ProtoConcat(objs: Heap, m: Marks, source: Value, k: seq<Value>, upnames: seq<Value>, p: seq<Value>,
      locnames: seq<Value>)
    ensures MarkAll(objs, m, [source] + k + upnames + p + locnames) ==
            MarkAll(objs, MarkAll(objs, MarkAll(objs, MarkAll(objs, MarkAll(objs, m, [source]), k), upnames), p),
              locnames)
  {
    MarkAllConcat(objs, m, [source] + k + upnames + p, locnames);
    MarkAllConcat(objs, m, [source] + k + upnames, p);
    MarkAllConcat(objs, m, [source] + k, upnames);
    MarkAllConcat(objs, m, [source], k);
  }

  lemma PropagateMarkLists(objs: Heap, m: Marks, white: bool)
    requires Lists(objs, m, white) && m.gray != []
    ensures Lists(objs, PropagateMark(objs, m), white)
  {
    HeadIn(objs, m, white);
    PoppedLists(objs, m, white);
    hide Lists;
    MarkedLists(objs, Popped(objs, m), StrongVals(objs, m.gray[0]), white);
  }

  lemma CloseHeapIn(s: State, objs': Heap, t: Ref)
    requires Inv(s) && CanClose(s.objs, t) && objs' == ClosedHeap(s.objs, t, s.objs[t].openupval[0])
    ensures s.phase == GCSpropagate ==> forall c :: Refers(objs', s.objs[t].openupval[0], c) ==> c in objs'
  {
    hide StrOk, UvOk, RootListOk, FixedOk, RefsLive, RootsLive;
    var u := s.objs[t].openupval[0];
    if s.phase == GCSpropagate {
      forall c | Refers(objs', u, c)
        ensures c in objs'
      {
        assert Refers(s.objs, u, c);
      }
    }
  }

  /** Each of the three passes of the atomic step starts with the lists in order. */
  ghost predicate AtomicReady(objs: Heap, m: Marks, roots: Roots, uvhead: seq<Ref>, white: bool) {
    var m1 := MarkUpvals(objs, m, uvhead);
    var m2 := MarkRunning(objs, m1, roots);
    && Lists(objs, Remark(objs, m, uvhead), white)
    && Lists(objs, MarkAll(objs, Marks(m1.color, m1.weak, m1.grayagain, []), [Obj(roots.running)] + roots.mt), white)
    && Lists(objs, Marks(m2.color, m2.grayagain, [], m2.weak), white)
  }

  lemma AtomicStages(s: State)
    requires Inv(s) && s.phase == GCSpropagate && s.m.gray == []
    ensures AtomicReady(s.objs, s.m, s.roots, s.uvhead, s.white)
    ensures forall h :: h in AtomicMark(s.objs, s.m, s.roots, s.uvhead).weak ==> h in s.objs && s.objs[h].Table?
  {
    hide StrOk, RootListOk, FixedOk, NeverBlack, RefsLive;
    RootValsIn(s);
    var pend := SetOf(s.m.grayagain) + SetOf(s.m.weak);
    CoveredAtStart(s.objs, s.m, s.white, s.uvhead);
    RemarkInv(s.objs, s.m, s.white, s.uvhead, pend);
    MarkUpvalsInv(s.objs, s.m, s.white, s.uvhead);
    hide UvOk;
    var m1 := MarkUpvals(s.objs, s.m, s.uvhead);
    var m1' := Marks(m1.color, m1.weak, m1.grayagain, []);
    SwapLists(s.objs, m1, m1', s.white);
    MarkedLists(s.objs, m1', [Obj(s.roots.running)] + s.roots.mt, s.white);
    MarkRunningInv(s.objs, m1, s.white, s.roots);
    var m2 := MarkRunning(s.objs, m1, s.roots);
    SwapLists(s.objs, m2, Marks(m2.color, m2.grayagain, [], m2.weak), s.white);
    MarkAgainInv(s.objs, m2, s.white);
    hide Unshared, OnList, Fits;
  }

  // ---------------------------------------------------------------- lemmas about sweeping

  lemma {:induction false} KeptConcat(color: Colors, fixed: set<Ref>, white: bool, a: seq<Ref>, b: seq<Ref>)
    ensures Kept(color, fixed, white, a + b) == Kept(color, fixed, white, a) + Kept(color, fixed, white, b)
  {
    if a == [] {
      assert a + b == b;
    } else {
      assert (a + b)[0] == a[0] && (a + b)[1..] == a[1..] + b;
      KeptConcat(color, fixed, white, a[1..], b);
    }
  }

  /** What one round of the sweep adds to what the earlier ones did. */
  lemma SweepNext(color: Colors, fixed: set<Ref>, white: bool, l: seq<Ref>, i: nat)
    requires i < |l| && NoDup(l)
    ensures var c := SweptColors(color, fixed, white, l[..i]);
            var r := l[i];
            && (Doomed(c, fixed, white, r) <==> Doomed(color, fixed, white, r))
            && Kept(color, fixed, white, l[..i + 1]) ==
               Kept(color, fixed, white, l[..i]) + (if Doomed(color, fixed, white, r) then [] else [r])
            && DoomedIn(color, fixed, white, l[..i + 1]) ==
               (if Doomed(color, fixed, white, r) then DoomedIn(color, fixed, white, l[..i]) + {r}
                 else DoomedIn(color, fixed, white, l[..i]))
            && SweptColors(color, fixed, white, l[..i + 1]) ==
               (if Doomed(color, fixed, white, r) then c - {r} else if r in c then c[r := White(white)] else c)
  {
    assert l[..i + 1] == l[..i] + [l[i]];
    assert l[i] !in l[..i];
    KeptConcat(color, fixed, white, l[..i], [l[i]]);
    assert [l[i]][1..] == [];
  }

  lemma {:induction false} MinusNone(l: seq<Ref>)
    ensures Minus(l, {}) == l
  {
    if l != [] {
      MinusNone(l[1..]);
    }
  }

  lemma {:induction false} WithoutAbsent(l: seq<Ref>, r: Ref)
    requires r !in l
    ensures Without(l, r) == l
  {
    if l != [] {
      WithoutAbsent(l[1..], r);
    }
  }

  lemma {:induction false} MinusOne(l: seq<Ref>, gone: set<Ref>, r: Ref)
    requires NoDup(l)
    ensures Without(Minus(l, gone), r) == Minus(l, gone + {r})
  {
    if l != [] {
      assert NoDup(l[1..]);
      MinusOne(l[1..], gone, r);
      assert [] + Minus(l[1..], gone) == Minus(l[1..], gone)
        && [] + Minus(l[1..], gone + {r}) == Minus(l[1..], gone + {r});
      if l[0] == r && r !in gone {
        assert l[0] !in l[1..];
        MinusSpec(l[1..], gone);
        WithoutAbsent(Minus(l[1..], gone), r);
        assert ([r] + Minus(l[1..], gone))[1..] == Minus(l[1..], gone);
      } else if l[0] !in gone {
        assert ([l[0]] + Minus(l[1..], gone))[1..] == Minus(l[1..], gone);
      }
    }
  }

  lemma BucketNoDup(s: State)
    requires Inv(s) && s.sweepstrgc < |s.strt|
    ensures NoDup(s.strt[s.sweepstrgc])
  {
  }

  lemma ThreadUpvals(s: State, t: Ref)
    requires Inv(s)
    ensures NoDup(s.uvhead) && (ThreadAt(s.objs, t) ==> UvListOk(s.objs, t))
  {
  }

  lemma GrayHead(s: State)
    requires Inv(s) && s.phase == GCSpropagate
    ensures s.m.gray != [] ==> s.m.gray[0] in s.objs && Traversable(s.objs[s.m.gray[0]])
  {
    assert s.m.gray != [] ==> s.m.gray[0] in s.m.gray;
  }
}

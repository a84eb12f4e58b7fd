/**
  The end of the mark phase (lgc.c: remarkupvals, cleartable, atomic), which runs without
  interruption: it traverses again what may have changed behind the barriers, empties the
  weak tables of what is about to be collected, and makes the other white current.
 */
module GcAtomic {
  import opened GcHeap
  import opened GcMark
  import opened GcCycle

  // ---------------------------------------------------------------- weak tables

  predicate IsStr(objs: Heap, v: Value) {
    v.Obj? && v.ref in objs && objs[v.ref].Str?
  }

  predicate WhiteAt(color: Colors, v: Value) {
    v.Obj? && v.ref in color && color[v.ref].White?
  }

  /** `iscleared`: anything but a string goes when it is still white. */
  predicate Cleared(objs: Heap, color: Colors, v: Value) {
    WhiteAt(color, v) && !IsStr(objs, v)
  }

  /** ... and a string is marked, so it stays. */
  function Touched(objs: Heap, color: Colors, v: Value): Colors {
    if IsStr(objs, v) && WhiteAt(color, v) then color[v.ref := Gray] else color
  }

  function ClearArr(objs: Heap, color: Colors, arr: seq<Value>): (r: (seq<Value>, Colors)) {
    if arr == [] then ([], color)
    else
      var v := arr[|arr| - 1];
      var r := ClearArr(objs, Touched(objs, color, v), arr[..|arr| - 1]);
      (r.0 + [if Cleared(objs, color, v) then Nil else v], r.1)
  }

  function ClearEntry(objs: Heap, color: Colors, e: Entry): (Entry, Colors) {
    if e.val == Nil then (e, color)
    else
      var c1 := Touched(objs, color, e.key);
      if Cleared(objs, color, e.key) then (Entry(e.key, Nil), c1)
      else if Cleared(objs, c1, e.val) then (Entry(e.key, Nil), Touched(objs, c1, e.val))
      else (e, Touched(objs, c1, e.val))
  }

  function ClearNodes(objs: Heap, color: Colors, nodes: seq<Entry>): (r: (seq<Entry>, Colors)) {
    if nodes == [] then ([], color)
    else
      var e := ClearEntry(objs, color, nodes[|nodes| - 1]);
      var r := ClearNodes(objs, e.1, nodes[..|nodes| - 1]);
      (r.0 + [e.0], r.1)
  }

  function ClearTable(objs: Heap, color: Colors, h: Ref): (Heap, Colors) {
    if h !in objs || !objs[h].Table? then (objs, color)
    else
      var b := objs[h];
      var a := if ModeOf(objs, b.meta).weakVal then ClearArr(objs, color, b.arr) else (b.arr, color);
      var n := ClearNodes(objs, a.1, b.nodes);
      (objs[h := Table(b.meta, b.mode, a.0, n.0)], n.1)
  }

  function ClearTables(objs: Heap, color: Colors, l: seq<Ref>): (Heap, Colors)
    decreases |l|
  {
    if l == [] then (objs, color)
    else
      var r := ClearTable(objs, color, l[0]);
      ClearTables(r.0, r.1, l[1..])
  }

  // ---------------------------------------------------------------- the atomic step

  ghost function MarkUpvals(objs: Heap, m: Marks, uvhead: seq<Ref>): Marks {
    PropagateAll(objs, Remark(objs, m, uvhead))
  }

  ghost function MarkRunning(objs: Heap, m: Marks, roots: Roots): Marks {
    PropagateAll(objs, MarkAll(objs, Marks(m.color, m.weak, m.grayagain, []), [Obj(roots.running)] + roots.mt))
  }

  ghost function MarkAgain(objs: Heap, m: Marks): Marks {
    PropagateAll(objs, Marks(m.color, m.grayagain, [], m.weak))
  }

  ghost function AtomicMark(objs: Heap, m: Marks, roots: Roots, uvhead: seq<Ref>): Marks {
    MarkAgain(objs, MarkRunning(objs, MarkUpvals(objs, m, uvhead), roots))
  }

  ghost function Atomic(s: State): State {
    var m := AtomicMark(s.objs, s.m, s.roots, s.uvhead);
    var r := ClearTables(s.objs, m.color, m.weak);
    s.(objs := r.0, m := m.(color := r.1), white := !s.white, phase := GCSsweepstring, sweepstrgc := 0, sweepgc := 0)
  }

  // ---------------------------------------------------------------- marking is complete

  ghost function SetOf(l: seq<Ref>): set<Ref> {
    set r | r in l
  }

  lemma CoveredAtStart(objs: Heap, m: Marks, white: bool, uvhead: seq<Ref>)
    requires MarkInv(objs, m, white) && m.gray == []
    requires forall r :: r in objs && IsOpen(objs[r]) ==> r in uvhead
    ensures Covered(objs, m, [], SetOf(m.grayagain) + SetOf(m.weak) + SetOf(uvhead))
  {
    forall r, c | NonWhite(m.color, r) && r !in m.gray && r !in SetOf(m.grayagain) + SetOf(m.weak) + SetOf(uvhead)
                  && RefersStrongly(objs, r, c)
      ensures Seen(m.color, [], c)
    {
      StrongIsAll(objs, r, c);
      assert ColorFits(objs[r], m.color[r]) && (IsGray(m, r) ==> !Traversable(objs[r]));
    }
  }

  lemma RemarkOne(objs: Heap, m: Marks, white: bool, uv: Ref, pend: set<Ref>)
    requires MarkInv(objs, m, white) && Covered(objs, m, [], pend + {uv}) && IsGray(m, uv) && uv in objs
    ensures var m1 := MarkAll(objs, m, AllVals(objs, uv));
            MarkInv(objs, m1, white) && Covered(objs, m1, [], pend) && MoreMarked(m.color, m1.color)
            && m1.grayagain == m.grayagain && m1.weak == m.weak
  {
    var todo := AllVals(objs, uv);
    var m1 := MarkAll(objs, m, todo);
    assert forall c :: Obj(c) in todo ==> Refers(objs, uv, c);
    assert ValsIn(objs, todo);
    MarkedInv(objs, m, todo, white);
    MarkedMore(objs, m, todo);
    MarkAllGrows(objs, m, todo);
    assert Covered(objs, m, todo, pend + {uv});
    MarkAllCovered(objs, m, todo, pend + {uv});
    forall r, c | NonWhite(m1.color, r) && r !in m1.gray && r !in pend && RefersStrongly(objs, r, c)
      ensures Seen(m1.color, [], c)
    {
      if r == uv {
        StrongIsAll(objs, r, c);
      }
    }
  }

  lemma RemarkSkip(objs: Heap, m: Marks, white: bool, uv: Ref, pend: set<Ref>)
    requires MarkInv(objs, m, white) && Covered(objs, m, [], pend + {uv})
    requires !(uv in objs && IsGray(m, uv))
    ensures Covered(objs, m, [], pend)
  {
    forall r, c | NonWhite(m.color, r) && r !in m.gray && r !in pend && RefersStrongly(objs, r, c)
      ensures Seen(m.color, [], c)
    {
      if r == uv {
        StrongIsAll(objs, r, c);
      }
    }
  }

  lemma {:induction false} RemarkInv(objs: Heap, m: Marks, white: bool, uvs: seq<Ref>, pend: set<Ref>)
    requires MarkInv(objs, m, white) && Covered(objs, m, [], pend + SetOf(uvs))
    ensures var m' := Remark(objs, m, uvs);
            MarkInv(objs, m', white) && Covered(objs, m', [], pend) && MoreMarked(m.color, m'.color)
            && m'.grayagain == m.grayagain && m'.weak == m.weak
    decreases |uvs|
  {
    if uvs == [] {
      assert pend + SetOf(uvs) == pend;
    } else {
      var uv := uvs[0];
      var rest := pend + SetOf(uvs[1..]);
      assert uvs == [uv] + uvs[1..];
      assert pend + SetOf(uvs) == rest + {uv};
      if uv in objs && IsGray(m, uv) {
        RemarkOne(objs, m, white, uv, rest);
        hide MarkInv, Covered;
        RemarkInv(objs, MarkAll(objs, m, AllVals(objs, uv)), white, uvs[1..], pend);
      } else {
        RemarkSkip(objs, m, white, uv, rest);
        hide MarkInv, Covered;
        RemarkInv(objs, m, white, uvs[1..], pend);
      }
    }
  }

  /** Gray lists that change places. */
  lemma SwapLists(objs: Heap, m: Marks, m1: Marks, white: bool)
    requires MarkInv(objs, m, white) && m.gray == [] && m1.color == m.color
    requires (m1.gray == m.weak && m1.grayagain == m.grayagain && m1.weak == [])
          || (m1.gray == m.grayagain && m1.grayagain == [] && m1.weak == m.weak)
    ensures MarkInv(objs, m1, white)
  {
  }

  lemma MarkUpvalsInv(objs: Heap, m: Marks, white: bool, uvhead: seq<Ref>)
    requires MarkInv(objs, m, white) && m.gray == []
    requires forall r :: r in objs && IsOpen(objs[r]) ==> r in uvhead
    ensures var m' := MarkUpvals(objs, m, uvhead);
            MarkInv(objs, m', white) && m'.gray == [] && Covered(objs, m', [], SetOf(m'.grayagain) + SetOf(m'.weak))
            && MoreMarked(m.color, m'.color)
  {
    var pend := SetOf(m.grayagain) + SetOf(m.weak);
    CoveredAtStart(objs, m, white, uvhead);
    RemarkInv(objs, m, white, uvhead, pend);
    PropagateAllInv(objs, Remark(objs, m, uvhead), white, pend);
    var m' := MarkUpvals(objs, m, uvhead);
    assert pend <= SetOf(m'.grayagain) + SetOf(m'.weak);
    hide MarkInv;
  }

  lemma MarkRunningInv(objs: Heap, m: Marks, white: bool, roots: Roots)
    requires MarkInv(objs, m, white) && m.gray == [] && Covered(objs, m, [], SetOf(m.grayagain) + SetOf(m.weak))
    requires ValsIn(objs, [Obj(roots.running)] + roots.mt)
    ensures var m' := MarkRunning(objs, m, roots);
            MarkInv(objs, m', white) && m'.gray == [] && Covered(objs, m', [], SetOf(m'.grayagain))
            && MoreMarked(m.color, m'.color)
            && forall c :: Obj(c) in [Obj(roots.running)] + roots.mt ==> NonWhite(m'.color, c)
  {
    var m1 := Marks(m.color, m.weak, m.grayagain, []);
    var todo := [Obj(roots.running)] + roots.mt;
    var pend := SetOf(m.grayagain);
    SwapLists(objs, m, m1, white);
    assert Covered(objs, m1, todo, pend);
    MarkAllCovered(objs, m1, todo, pend);
    MarkedInv(objs, m1, todo, white);
    MarkedMore(objs, m1, todo);
    MarkAllGrows(objs, m1, todo);
    var m2 := MarkAll(objs, m1, todo);
    PropagateAllInv(objs, m2, white, pend);
    assert pend <= SetOf(PropagateAll(objs, m2).grayagain);
    hide MarkInv;
  }

  lemma MarkAgainInv(objs: Heap, m: Marks, white: bool)
    requires MarkInv(objs, m, white) && m.gray == [] && Covered(objs, m, [], SetOf(m.grayagain))
    ensures var m' := MarkAgain(objs, m);
            MarkInv(objs, m', white) && m'.gray == [] && Covered(objs, m', [], {})
            && MoreMarked(m.color, m'.color)
            && forall r :: r in m'.grayagain ==> r in objs && objs[r].Thread?
  {
    var m1 := Marks(m.color, m.grayagain, [], m.weak);
    SwapLists(objs, m, m1, white);
    assert Covered(objs, m1, [], {});
    PropagateAllInv(objs, m1, white, {});
    hide MarkInv;
  }

  /** After the three passes nothing is left to traverse: whatever is marked refers strongly to marked objects only. */
  lemma AtomicMarkInv(objs: Heap, m: Marks, white: bool, roots: Roots, uvhead: seq<Ref>)
    requires MarkInv(objs, m, white) && m.gray == []
    requires forall r :: r in objs && IsOpen(objs[r]) ==> r in uvhead
    requires ValsIn(objs, [Obj(roots.running)] + roots.mt)
    ensures var m' := AtomicMark(objs, m, roots, uvhead);
            MarkInv(objs, m', white) && m'.gray == [] && Covered(objs, m', [], {})
            && MoreMarked(m.color, m'.color)
            && (forall r :: r in m'.grayagain ==> r in objs && objs[r].Thread?)
            && forall c :: Obj(c) in [Obj(roots.running)] + roots.mt ==> NonWhite(m'.color, c)
  {
    MarkUpvalsInv(objs, m, white, uvhead);
    MarkRunningInv(objs, MarkUpvals(objs, m, uvhead), white, roots);
    MarkAgainInv(objs, MarkRunning(objs, MarkUpvals(objs, m, uvhead), roots), white);
    hide MarkInv, Covered;
  }

  // ---------------------------------------------------------------- clearing is exact

  /** Only strings change colour, from white to gray. */
  ghost predicate StringsMarked(objs: Heap, c: Colors, c': Colors) {
    && c'.Keys == c.Keys
    && forall r :: r in c ==> c'[r] == c[r] || (c[r].White? && c'[r].Gray? && r in objs && objs[r].Str?)
  }

  /** `v` stays what it was, unless it was about to be collected. */
  ghost predicate KeptOrCleared(objs: Heap, c: Colors, c': Colors, v: Value, v': Value) {
    if Cleared(objs, c, v) then v' == Nil else v' == v && !WhiteAt(c', v)
  }

  lemma {:induction false} ClearArrSpec(objs: Heap, color: Colors, arr: seq<Value>)
    ensures var r := ClearArr(objs, color, arr);
            StringsMarked(objs, color, r.1) && |r.0| == |arr|
            && forall i :: 0 <= i < |arr| ==> KeptOrCleared(objs, color, r.1, arr[i], r.0[i])
  {
    if arr != [] {
      var v := arr[|arr| - 1];
      ClearArrSpec(objs, Touched(objs, color, v), arr[..|arr| - 1]);
      var r := ClearArr(objs, color, arr);
      forall i | 0 <= i < |arr|
        ensures KeptOrCleared(objs, color, r.1, arr[i], r.0[i])
      {
        if i < |arr| - 1 {
          assert arr[..|arr| - 1][i] == arr[i];
        }
      }
    }
  }

  /** An entry of a weak table is emptied if and only if its key or its value is about to be collected. */
  ghost predicate EntryCleared(objs: Heap, c: Colors, c': Colors, e: Entry, e': Entry) {
    && e'.key == e.key
    && if e.val == Nil || Cleared(objs, c, e.key) || Cleared(objs, c, e.val) then e'.val == Nil
       else e'.val == e.val && !WhiteAt(c', e.key) && !WhiteAt(c', e.val)
  }

  lemma ClearEntrySpec(objs: Heap, color: Colors, e: Entry)
    ensures var r := ClearEntry(objs, color, e);
            StringsMarked(objs, color, r.1) && EntryCleared(objs, color, r.1, e, r.0)
  {
  }

  lemma {:induction false} ClearNodesSpec(objs: Heap, color: Colors, nodes: seq<Entry>)
    ensures var r := ClearNodes(objs, color, nodes);
            StringsMarked(objs, color, r.1) && |r.0| == |nodes|
            && forall i :: 0 <= i < |nodes| ==> EntryCleared(objs, color, r.1, nodes[i], r.0[i])
  {
    if nodes != [] {
      var e := nodes[|nodes| - 1];
      ClearEntrySpec(objs, color, e);
      var c1 := ClearEntry(objs, color, e).1;
      ClearNodesSpec(objs, c1, nodes[..|nodes| - 1]);
      var r := ClearNodes(objs, color, nodes);
      forall i | 0 <= i < |nodes|
        ensures EntryCleared(objs, color, r.1, nodes[i], r.0[i])
      {
        if i < |nodes| - 1 {
          assert nodes[..|nodes| - 1][i] == nodes[i];
        }
      }
    }
  }

  /** A table that refers to nothing white. */
  ghost predicate CleanAt(objs: Heap, color: Colors, h: Ref) {
    forall c :: Refers(objs, h, c) ==> !WhiteAt(color, Obj(c))
  }

  ghost predicate StrongMarked(objs: Heap, color: Colors, h: Ref) {
    forall c :: RefersStrongly(objs, h, c) ==> NonWhite(color, c)
  }

  /** Clearing changes tables only, and only by dropping references. */
  ghost predicate Shrunk(objs: Heap, objs': Heap, l: set<Ref>) {
    && objs'.Keys == objs.Keys
    && (forall r :: r in objs && r !in l ==> objs'[r] == objs[r])
    && (forall r :: r in objs && objs[r].Table? ==>
          objs'[r].Table? && objs'[r].mode == objs[r].mode && objs'[r].meta == objs[r].meta)
    && (forall r :: r in objs && !objs[r].Table? ==> objs'[r] == objs[r])
    && (forall r, c :: Refers(objs', r, c) ==> Refers(objs, r, c))
  }

  lemma ArrVal(objs: Heap, color: Colors, arr: seq<Value>, c: Ref)
    requires Obj(c) in Backwards(ClearArr(objs, color, arr).0)
    ensures Obj(c) in Backwards(arr) && !WhiteAt(ClearArr(objs, color, arr).1, Obj(c))
  {
    var r := ClearArr(objs, color, arr);
    ClearArrSpec(objs, color, arr);
    BackwardsMembers(r.0, Obj(c));
    var i :| 0 <= i < |r.0| && r.0[i] == Obj(c);
    assert KeptOrCleared(objs, color, r.1, arr[i], r.0[i]);
    assert arr[i] == Obj(c);
    BackwardsMembers(arr, Obj(c));
  }

  lemma NodeVal(objs: Heap, color: Colors, nodes: seq<Entry>, c: Ref)
    requires Obj(c) in NodeVals(ClearNodes(objs, color, nodes).0, STRONG)
    ensures Obj(c) in NodeVals(nodes, STRONG) && !WhiteAt(ClearNodes(objs, color, nodes).1, Obj(c))
  {
    var r := ClearNodes(objs, color, nodes);
    ClearNodesSpec(objs, color, nodes);
    NodeValsMembers(r.0, STRONG, Obj(c));
    NodeValsMembers(nodes, STRONG, Obj(c));
    hide ClearNodes, NodeVals;
    var i :| 0 <= i < |r.0| && Obj(c) in EntryVals(r.0[i], STRONG);
    assert EntryCleared(objs, color, r.1, nodes[i], r.0[i]);
    assert Obj(c) in EntryVals(nodes[i], STRONG);
  }

  lemma ClearTableColors(objs: Heap, color: Colors, h: Ref)
    ensures StringsMarked(objs, color, ClearTable(objs, color, h).1)
  {
    if h in objs && objs[h].Table? {
      var b := objs[h];
      ClearArrSpec(objs, color, b.arr);
      var a := if ModeOf(objs, b.meta).weakVal then ClearArr(objs, color, b.arr) else (b.arr, color);
      ClearNodesSpec(objs, a.1, b.nodes);
    }
  }

  lemma ClearTableRef(objs: Heap, color: Colors, h: Ref, c: Ref)
    requires color.Keys == objs.Keys && HeapIn(objs)
    requires h in objs && objs[h].Table? && StrongMarked(objs, color, h)
    requires Refers(ClearTable(objs, color, h).0, h, c)
    ensures Refers(objs, h, c) && !WhiteAt(ClearTable(objs, color, h).1, Obj(c))
  {
    var b := objs[h];
    var mode := ModeOf(objs, b.meta);
    var a := if mode.weakVal then ClearArr(objs, color, b.arr) else (b.arr, color);
    var n := ClearNodes(objs, a.1, b.nodes);
    ClearArrSpec(objs, color, b.arr);
    ClearNodesSpec(objs, a.1, b.nodes);
    if b.meta == Obj(c) {
      assert RefersStrongly(objs, h, c);
    } else if Obj(c) in NodeVals(n.0, STRONG) {
      NodeVal(objs, a.1, b.nodes, c);
    } else {
      assert Obj(c) in Backwards(a.0);
      if mode.weakVal {
        ArrVal(objs, color, b.arr, c);
      } else {
        assert RefersStrongly(objs, h, c);
      }
    }
  }

  lemma ClearTableSpec(objs: Heap, color: Colors, h: Ref)
    requires color.Keys == objs.Keys && HeapIn(objs)
    requires h in objs && objs[h].Table? && StrongMarked(objs, color, h)
    ensures var r := ClearTable(objs, color, h);
            Shrunk(objs, r.0, {h}) && StringsMarked(objs, color, r.1) && CleanAt(r.0, r.1, h)
  {
    var r := ClearTable(objs, color, h);
    ClearTableColors(objs, color, h);
    forall x, c | Refers(r.0, x, c)
      ensures Refers(objs, x, c) && (x == h ==> !WhiteAt(r.1, Obj(c)))
    {
      if x == h {
        ClearTableRef(objs, color, h, c);
      } else {
        assert r.0[x] == objs[x];
      }
    }
  }

  /** Metatables keep their mode while tables are cleared, so other tables are traversed as before. */
  lemma ShrunkStrong(objs: Heap, objs': Heap, color: Colors, color': Colors, l: set<Ref>, h: Ref)
    requires Shrunk(objs, objs', l) && StringsMarked(objs, color, color')
    requires h in objs && h !in l && objs[h].Table? && StrongMarked(objs, color, h)
    ensures StrongMarked(objs', color', h)
  {
    forall c | RefersStrongly(objs', h, c)
      ensures NonWhite(color', c)
    {
      assert RefersStrongly(objs, h, c);
    }
  }

  lemma {:induction false} ClearTablesSpec(objs: Heap, color: Colors, l: seq<Ref>)
    requires color.Keys == objs.Keys && HeapIn(objs) && NoDup(l)
    requires forall h :: h in l ==> h in objs && objs[h].Table? && StrongMarked(objs, color, h)
    ensures var r := ClearTables(objs, color, l);
            Shrunk(objs, r.0, SetOf(l)) && StringsMarked(objs, color, r.1)
            && forall h :: h in l ==> CleanAt(r.0, r.1, h)
    decreases |l|
  {
    if l != [] {
      var h0 := l[0];
      var rest := l[1..];
      assert l == [h0] + rest;
      ClearTableSpec(objs, color, h0);
      var r1 := ClearTable(objs, color, h0);
      forall h | h in rest
        ensures h in r1.0 && r1.0[h].Table? && StrongMarked(r1.0, r1.1, h)
      {
        assert h in l && h != h0;
        ShrunkStrong(objs, r1.0, color, r1.1, {h0}, h);
      }
      ClearTablesSpec(r1.0, r1.1, rest);
      var r := ClearTables(objs, color, l);
      ClearTablesTrans(objs, color, r1.0, r1.1, r.0, r.1, h0, rest);
    }
  }

  lemma ClearTablesTrans(objs: Heap, color: Colors, o1: Heap, c1: Colors, o2: Heap, c2: Colors, h0: Ref, rest: seq<Ref>)
    requires Shrunk(objs, o1, {h0}) && StringsMarked(objs, color, c1) && CleanAt(o1, c1, h0)
    requires Shrunk(o1, o2, SetOf(rest)) && StringsMarked(o1, c1, c2)
    requires h0 !in rest
    ensures Shrunk(objs, o2, SetOf([h0] + rest)) && StringsMarked(objs, color, c2) && CleanAt(o2, c2, h0)
  {
    assert SetOf([h0] + rest) == {h0} + SetOf(rest);
  }

  /**
    The whole atomic step: afterwards nothing marked refers, strongly or weakly, to anything
    that is not, so what the sweep is about to free cannot be reached.
   */
  lemma AtomicClosed(objs: Heap, m: Marks, white: bool)
    requires MarkInv(objs, m, white) && m.gray == [] && Covered(objs, m, [], {})
    requires forall r :: r in m.grayagain ==> r in objs && objs[r].Thread?
    ensures var r := ClearTables(objs, m.color, m.weak);
            Shrunk(objs, r.0, SetOf(m.weak)) && StringsMarked(objs, m.color, r.1)
            && forall x, c :: NonWhite(r.1, x) && Refers(r.0, x, c) ==> NonWhite(r.1, c)
  {
    forall h | h in m.weak
      ensures h in objs && objs[h].Table? && StrongMarked(objs, m.color, h)
    {
      assert IsGray(m, h) && NonWhite(m.color, h);
      assert forall c :: RefersStrongly(objs, h, c) ==> Seen(m.color, [], c);
    }
    ClearTablesSpec(objs, m.color, m.weak);
    var r := ClearTables(objs, m.color, m.weak);
    forall x, c | NonWhite(r.1, x) && Refers(r.0, x, c)
      ensures NonWhite(r.1, c)
    {
      assert Refers(objs, x, c);
      assert c in objs;
      if x in m.weak {
        assert CleanAt(r.0, r.1, x);
      } else {
        AtomicClosedAt(objs, m, white, r.1, x, c);
      }
    }
  }

  lemma AtomicClosedAt(objs: Heap, m: Marks, white: bool, color': Colors, x: Ref, c: Ref)
    requires MarkInv(objs, m, white) && m.gray == [] && Covered(objs, m, [], {})
    requires forall r :: r in m.grayagain ==> r in objs && objs[r].Thread?
    requires StringsMarked(objs, m.color, color')
    requires NonWhite(color', x) && Refers(objs, x, c) && x !in m.weak
    ensures NonWhite(color', c)
  {
    if m.color[x].Black? {
      assert Seen(m.color, [], c);
    } else if m.color[x].Gray? {
      assert IsGray(m, x);
      assert RefersStrongly(objs, x, c);
      assert Seen(m.color, [], c);
    }
  }
}

/**
  Marking (lgc.c: reallymarkobject and the markvalue/markobject macros).

  `MarkAll` marks a list of values in order.  An object that is never gray (userdata,
  upvalue) is marked together with what it holds, as the recursive calls of
  reallymarkobject do; the others are left on the gray list.
 */
module GcMark {
  import opened GcHeap

  ghost function Whites(color: Colors): set<Ref> {
    set r | r in color && color[r].White?
  }

  predicate NeedsMark(objs: Heap, color: Colors, v: Value) {
    v.Obj? && v.ref in objs && v.ref in color && color[v.ref].White?
  }

  /** Objects that wait on a gray list until they are traversed. */
  predicate Traversable(b: Body) {
    b.Table? || b.CClosure? || b.LClosure? || b.Thread? || b.Proto?
  }

  /** The colour given to a white object; open upvalues are never black. */
  function MarkedColor(b: Body): Color {
    if b.Udata? || (b.UpVal? && b.v.Closed?) then Black else Gray
  }

  function MarkOne(objs: Heap, m: Marks, r: Ref): Marks
    requires r in objs
  {
    m.(color := m.color[r := MarkedColor(objs[r])], gray := if Traversable(objs[r]) then [r] + m.gray else m.gray)
  }

  /** What is marked together with `r`. */
  function Inner(objs: Heap, r: Ref): seq<Value>
    requires r in objs
  {
    if objs[r].Udata? || objs[r].UpVal? then AllVals(objs, r) else []
  }

  ghost function MarkAll(objs: Heap, m: Marks, todo: seq<Value>): Marks
    decreases Whites(m.color), |todo|
  {
    if todo == [] then m
    else if !NeedsMark(objs, m.color, todo[0]) then MarkAll(objs, m, todo[1..])
    else
      var m1 := MarkOne(objs, m, todo[0].ref);
      assert Whites(m1.color) == Whites(m.color) - {todo[0].ref};
      MarkAll(objs, m1, Inner(objs, todo[0].ref) + todo[1..])
  }

  /** Marking one list after another is marking their concatenation. */
  lemma {:induction false} MarkAllConcat(objs: Heap, m: Marks, a: seq<Value>, b: seq<Value>)
    ensures MarkAll(objs, m, a + b) == MarkAll(objs, MarkAll(objs, m, a), b)
    decreases Whites(m.color), |a|
  {
    if a == [] {
      assert a + b == b;
    } else {
      assert (a + b)[0] == a[0] && (a + b)[1..] == a[1..] + b;
      if !NeedsMark(objs, m.color, a[0]) {
        MarkAllConcat(objs, m, a[1..], b);
      } else {
        var m1 := MarkOne(objs, m, a[0].ref);
        assert Whites(m1.color) == Whites(m.color) - {a[0].ref};
        var inner := Inner(objs, a[0].ref);
        assert inner + (a[1..] + b) == (inner + a[1..]) + b;
        MarkAllConcat(objs, m1, inner + a[1..], b);
      }
    }
  }

  // ---------------------------------------------------------------- what marking keeps

  predicate NonWhite(color: Colors, r: Ref) {
    r in color && !color[r].White?
  }

  ghost predicate NoDup(s: seq<Ref>) {
    forall i, j :: 0 <= i < j < |s| ==> s[i] != s[j]
  }

  /** `c` is marked, or still waits in `todo`. */
  ghost predicate Seen(color: Colors, todo: seq<Value>, c: Ref) {
    NonWhite(color, c) || Obj(c) in todo
  }

  /** Every marked object outside `pend` and the gray list has its strong references seen. */
  ghost predicate Covered(objs: Heap, m: Marks, todo: seq<Value>, pend: set<Ref>) {
    forall r, c :: NonWhite(m.color, r) && r !in m.gray && r !in pend && RefersStrongly(objs, r, c)
      ==> Seen(m.color, todo, c)
  }

  /** No black object outside `ex` refers to a white one. */
  ghost predicate TriColor(objs: Heap, color: Colors, todo: seq<Value>, ex: set<Ref>) {
    forall r, c :: r in color && color[r].Black? && r !in ex && Refers(objs, r, c)
      ==> Seen(color, todo, c)
  }

  /** References are to allocated objects. */
  ghost predicate ValsIn(objs: Heap, todo: seq<Value>) {
    forall c :: Obj(c) in todo ==> c in objs
  }

  ghost predicate HeapIn(objs: Heap) {
    forall r, c :: Refers(objs, r, c) ==> c in objs
  }

  /** The colours and the gray list grow only. */
  ghost predicate Grows(m: Marks, m': Marks) {
    && m'.color.Keys == m.color.Keys
    && (forall r :: NonWhite(m.color, r) ==> m'.color[r] == m.color[r])
    && (forall r :: r in m.color && m'.color[r].White? ==> m'.color[r] == m.color[r])
    && IsSuffix(m.gray, m'.gray) && m'.grayagain == m.grayagain && m'.weak == m.weak
  }

  ghost predicate IsSuffix(a: seq<Ref>, b: seq<Ref>) {
    |a| <= |b| && b[|b| - |a|..] == a
  }

  lemma SuffixTrans(a: seq<Ref>, b: seq<Ref>, c: seq<Ref>)
    requires IsSuffix(a, b) && IsSuffix(b, c)
    ensures IsSuffix(a, c)
  {
    assert c[|c| - |a|..] == c[|c| - |b|..][|b| - |a|..];
  }

  lemma SuffixMembers(a: seq<Ref>, b: seq<Ref>, r: Ref)
    requires IsSuffix(a, b) && r in a
    ensures r in b
  {
    assert b == b[..|b| - |a|] + a;
  }

  lemma NoDupCons(x: Ref, s: seq<Ref>)
    requires NoDup(s) && x !in s
    ensures NoDup([x] + s)
  {
  }

  lemma MarkOneGrows(objs: Heap, m: Marks, r: Ref)
    requires r in objs && r in m.color && m.color[r].White?
    ensures Grows(m, MarkOne(objs, m, r))
  {
  }

  lemma GrowsTrans(a: Marks, b: Marks, c: Marks)
    requires Grows(a, b) && Grows(b, c)
    ensures Grows(a, c)
  {
    SuffixTrans(a.gray, b.gray, c.gray);
  }

  /** An object just marked has the colour of its kind, and is on the gray list if it is traversable. */
  ghost predicate NewlyMarked(objs: Heap, m: Marks, m': Marks) {
    forall r :: r in m.color && m.color[r].White? && NonWhite(m'.color, r) ==>
      && r in objs && m'.color[r] == MarkedColor(objs[r])
      && (Traversable(objs[r]) ==> r in m'.gray)
  }

  ghost predicate GrayFresh(objs: Heap, m: Marks, m': Marks) {
    forall i :: 0 <= i < |m'.gray| - |m.gray| ==>
      var r := m'.gray[i];
      r in objs && Traversable(objs[r]) && r in m.color && m.color[r].White? && r in m'.color && m'.color[r].Gray?
  }

  lemma {:induction false} MarkAllGrows(objs: Heap, m: Marks, todo: seq<Value>)
    ensures Grows(m, MarkAll(objs, m, todo))
    decreases Whites(m.color), |todo|
  {
    if todo == [] {
    } else if !NeedsMark(objs, m.color, todo[0]) {
      MarkAllGrows(objs, m, todo[1..]);
    } else {
      var m1 := MarkOne(objs, m, todo[0].ref);
      assert Whites(m1.color) == Whites(m.color) - {todo[0].ref};
      MarkAllGrows(objs, m1, Inner(objs, todo[0].ref) + todo[1..]);
      MarkOneGrows(objs, m, todo[0].ref);
      GrowsTrans(m, m1, MarkAll(objs, m, todo));
    }
  }

  lemma {:induction false} MarkAllNew(objs: Heap, m: Marks, todo: seq<Value>)
    ensures NewlyMarked(objs, m, MarkAll(objs, m, todo))
    decreases Whites(m.color), |todo|
  {
    if todo == [] {
    } else if !NeedsMark(objs, m.color, todo[0]) {
      MarkAllNew(objs, m, todo[1..]);
    } else {
      var x := todo[0].ref;
      var m1 := MarkOne(objs, m, x);
      var rest := Inner(objs, x) + todo[1..];
      assert Whites(m1.color) == Whites(m.color) - {x};
      MarkAllNew(objs, m1, rest);
      MarkAllGrows(objs, m1, rest);
      if Traversable(objs[x]) {
        assert m1.gray[0] == x;
        SuffixMembers(m1.gray, MarkAll(objs, m1, rest).gray, x);
      }
    }
  }

  lemma MarkOneFresh(objs: Heap, m: Marks, x: Ref, m2: Marks)
    requires x in objs && x in m.color && m.color[x].White?
    requires Grows(MarkOne(objs, m, x), m2) && GrayFresh(objs, MarkOne(objs, m, x), m2)
    ensures GrayFresh(objs, m, m2)
  {
    var m1 := MarkOne(objs, m, x);
    forall i | 0 <= i < |m2.gray| - |m.gray|
      ensures var r := m2.gray[i];
              r in objs && Traversable(objs[r]) && r in m.color && m.color[r].White? && r in m2.color
                && m2.color[r].Gray?
    {
      if i >= |m2.gray| - |m1.gray| {
        assert m2.gray[i] == m2.gray[|m2.gray| - |m1.gray|..][0];
      }
    }
  }

  lemma {:induction false} MarkAllGray(objs: Heap, m: Marks, todo: seq<Value>)
    requires NoDup(m.gray) && forall r :: r in m.gray ==> NonWhite(m.color, r)
    ensures GrayFresh(objs, m, MarkAll(objs, m, todo))
    ensures NoDup(MarkAll(objs, m, todo).gray)
    decreases Whites(m.color), |todo|
  {
    if todo == [] {
    } else if !NeedsMark(objs, m.color, todo[0]) {
      MarkAllGray(objs, m, todo[1..]);
    } else {
      var x := todo[0].ref;
      var m1 := MarkOne(objs, m, x);
      var rest := Inner(objs, x) + todo[1..];
      assert Whites(m1.color) == Whites(m.color) - {x};
      if Traversable(objs[x]) {
        NoDupCons(x, m.gray);
      }
      MarkAllGray(objs, m1, rest);
      MarkAllGrows(objs, m1, rest);
      MarkOneFresh(objs, m, x, MarkAll(objs, m1, rest));
    }
  }

  /** Everything asked for ends up marked. */
  lemma {:induction false} MarkAllMarks(objs: Heap, m: Marks, todo: seq<Value>, c: Ref)
    requires Obj(c) in todo && c in objs && c in m.color
    ensures NonWhite(MarkAll(objs, m, todo).color, c)
    decreases Whites(m.color), |todo|
  {
    if !NeedsMark(objs, m.color, todo[0]) {
      if todo[0] == Obj(c) {
        MarkAllGrows(objs, m, todo[1..]);
      } else {
        MarkAllMarks(objs, m, todo[1..], c);
      }
    } else {
      var x := todo[0].ref;
      var m1 := MarkOne(objs, m, x);
      var rest := Inner(objs, x) + todo[1..];
      assert Whites(m1.color) == Whites(m.color) - {x};
      if x == c {
        MarkAllGrows(objs, m1, rest);
      } else {
        assert Obj(c) in rest;
        MarkAllMarks(objs, m1, rest, c);
      }
    }
  }

  lemma InnerIsAll(objs: Heap, r: Ref)
    requires r in objs && !Traversable(objs[r])
    ensures Inner(objs, r) == AllVals(objs, r) == StrongVals(objs, r)
  {
  }

  lemma MarkOneCovered(objs: Heap, m: Marks, todo: seq<Value>, pend: set<Ref>)
    requires todo != [] && NeedsMark(objs, m.color, todo[0])
    requires Covered(objs, m, todo, pend)
    ensures Covered(objs, MarkOne(objs, m, todo[0].ref), Inner(objs, todo[0].ref) + todo[1..], pend)
  {
    var x := todo[0].ref;
    var m1 := MarkOne(objs, m, x);
    var rest := Inner(objs, x) + todo[1..];
    forall r, c | NonWhite(m1.color, r) && r !in m1.gray && r !in pend && RefersStrongly(objs, r, c)
      ensures Seen(m1.color, rest, c)
    {
      if r == x {
        assert Traversable(objs[x]) ==> m1.gray == [x] + m.gray;
        InnerIsAll(objs, x);
      } else {
        assert Traversable(objs[x]) ==> m1.gray == [x] + m.gray;
        assert Seen(m.color, todo, c);
        assert todo == [todo[0]] + todo[1..];
      }
    }
  }

  /** Marking keeps the coverage invariant, and leaves nothing waiting. */
  lemma {:induction false} MarkAllCovered(objs: Heap, m: Marks, todo: seq<Value>, pend: set<Ref>)
    requires Covered(objs, m, todo, pend)
    requires m.color.Keys == objs.Keys && HeapIn(objs) && ValsIn(objs, todo)
    ensures Covered(objs, MarkAll(objs, m, todo), [], pend)
    decreases Whites(m.color), |todo|
  {
    if todo == [] {
    } else {
      assert todo == [todo[0]] + todo[1..];
      if !NeedsMark(objs, m.color, todo[0]) {
        assert todo[0].Obj? ==> Obj(todo[0].ref) in todo;
        assert Covered(objs, m, todo[1..], pend);
        MarkAllCovered(objs, m, todo[1..], pend);
      } else {
        var x := todo[0].ref;
        MarkOneCovered(objs, m, todo, pend);
        assert Whites(MarkOne(objs, m, x).color) == Whites(m.color) - {x};
        InnerIn(objs, x);
        MarkAllCovered(objs, MarkOne(objs, m, x), Inner(objs, x) + todo[1..], pend);
      }
    }
  }

  lemma InnerIn(objs: Heap, x: Ref)
    requires x in objs && HeapIn(objs)
    ensures ValsIn(objs, Inner(objs, x))
  {
    forall c | Obj(c) in Inner(objs, x)
      ensures c in objs
    {
      assert Refers(objs, x, c);
    }
  }

  lemma MarkOneTriColor(objs: Heap, m: Marks, todo: seq<Value>, ex: set<Ref>)
    requires todo != [] && NeedsMark(objs, m.color, todo[0])
    requires TriColor(objs, m.color, todo, ex)
    ensures TriColor(objs, MarkOne(objs, m, todo[0].ref).color, Inner(objs, todo[0].ref) + todo[1..], ex)
  {
    var x := todo[0].ref;
    var m1 := MarkOne(objs, m, x);
    var rest := Inner(objs, x) + todo[1..];
    forall r, c | r in m1.color && m1.color[r].Black? && r !in ex && Refers(objs, r, c)
      ensures Seen(m1.color, rest, c)
    {
      if r == x {
        InnerIsAll(objs, x);
      } else {
        assert Seen(m.color, todo, c);
        assert todo == [todo[0]] + todo[1..];
      }
    }
  }

  lemma {:induction false} MarkAllTriColor(objs: Heap, m: Marks, todo: seq<Value>, ex: set<Ref>)
    requires TriColor(objs, m.color, todo, ex)
    requires m.color.Keys == objs.Keys && HeapIn(objs) && ValsIn(objs, todo)
    ensures TriColor(objs, MarkAll(objs, m, todo).color, [], ex)
    decreases Whites(m.color), |todo|
  {
    if todo == [] {
    } else {
      assert todo == [todo[0]] + todo[1..];
      if !NeedsMark(objs, m.color, todo[0]) {
        assert todo[0].Obj? ==> Obj(todo[0].ref) in todo;
        assert TriColor(objs, m.color, todo[1..], ex);
        MarkAllTriColor(objs, m, todo[1..], ex);
      } else {
        var x := todo[0].ref;
        MarkOneTriColor(objs, m, todo, ex);
        assert Whites(MarkOne(objs, m, x).color) == Whites(m.color) - {x};
        InnerIn(objs, x);
        MarkAllTriColor(objs, MarkOne(objs, m, x), Inner(objs, x) + todo[1..], ex);
      }
    }
  }

  /** Marking does nothing, or some white object is white no more. */
  lemma {:induction false} MarkAllProgress(objs: Heap, m: Marks, todo: seq<Value>)
    ensures MarkAll(objs, m, todo) == m || Whites(MarkAll(objs, m, todo).color) < Whites(m.color)
    decreases Whites(m.color), |todo|
  {
    if todo == [] {
    } else if !NeedsMark(objs, m.color, todo[0]) {
      MarkAllProgress(objs, m, todo[1..]);
    } else {
      var m1 := MarkOne(objs, m, todo[0].ref);
      assert Whites(m1.color) == Whites(m.color) - {todo[0].ref};
      MarkAllProgress(objs, m1, Inner(objs, todo[0].ref) + todo[1..]);
    }
  }

  ghost predicate StronglyClosed(objs: Heap, within: iset<Ref>) {
    forall r, c :: r in within && RefersStrongly(objs, r, c) ==> c in within
  }

  ghost predicate MarkedWithin(color: Colors, within: iset<Ref>) {
    forall r :: NonWhite(color, r) ==> r in within
  }

  /** Marking stays inside any set closed under strong references. */
  lemma {:induction false} MarkAllWithin(objs: Heap, m: Marks, todo: seq<Value>, within: iset<Ref>)
    requires StronglyClosed(objs, within) && MarkedWithin(m.color, within)
    requires forall c :: Obj(c) in todo ==> c in within
    ensures MarkedWithin(MarkAll(objs, m, todo).color, within)
    decreases Whites(m.color), |todo|
  {
    if todo == [] {
    } else {
      assert todo == [todo[0]] + todo[1..];
      if !NeedsMark(objs, m.color, todo[0]) {
        MarkAllWithin(objs, m, todo[1..], within);
      } else {
        var x := todo[0].ref;
        var m1 := MarkOne(objs, m, x);
        assert Obj(x) in todo;
        assert Whites(m1.color) == Whites(m.color) - {x};
        forall c | Obj(c) in Inner(objs, x)
          ensures c in within
        {
          InnerIsAll(objs, x);
          assert RefersStrongly(objs, x, c);
        }
        MarkAllWithin(objs, m1, Inner(objs, x) + todo[1..], within);
      }
    }
  }

  /** Marking does not look whether a marked object is gray or black. */
  lemma {:induction false} MarkAllRecolor(objs: Heap, m: Marks, todo: seq<Value>, x: Ref, col: Color)
    requires NonWhite(m.color, x) && !col.White?
    ensures var m' := MarkAll(objs, m, todo);
            MarkAll(objs, m.(color := m.color[x := col]), todo) == m'.(color := m'.color[x := col])
    decreases Whites(m.color), |todo|
  {
    if todo == [] {
    } else if !NeedsMark(objs, m.color, todo[0]) {
      MarkAllRecolor(objs, m, todo[1..], x, col);
    } else {
      var y := todo[0].ref;
      var m1 := MarkOne(objs, m, y);
      assert Whites(m1.color) == Whites(m.color) - {y};
      assert MarkOne(objs, m.(color := m.color[x := col]), y) == m1.(color := m1.color[x := col]);
      MarkAllRecolor(objs, m1, Inner(objs, y) + todo[1..], x, col);
    }
  }
}

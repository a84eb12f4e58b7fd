/**
  References (lauxlib.c: luaL_ref, luaL_unref).  Free references form a list in the table itself:
  slot 0 holds the first one, and each free slot the next one; the last free slot holds nil.
 */
module TblRef {
  import opened Wrappers
  import opened TblNodes
  import opened TblTable
  import opened TblClass
  import opened TblBorder

  const REFNIL: int := -1

  ghost predicate LiveAt(m: Map, live: map<int, Value>, r: int) {
    r in live ==> r >= 1 && MapAt(m, IntKey(r)) == live[r] && live[r] != Nil
  }

  predicate FreeAt(m: Map, live: map<int, Value>, free: seq<int>, i: int) {
    0 <= i < |free| ==> free[i] >= 1 && free[i] !in live && MapAt(m, IntKey(free[i])) == NextFree(free, i + 1)
  }

  predicate Known(m: Map, live: map<int, Value>, free: seq<int>, k: int) {
    k >= 1 && MapAt(m, IntKey(k)) != Nil ==> k in live || k in free
  }

  ghost predicate NoRepeat(free: seq<int>) {
    forall i, j :: 0 <= i < j < |free| ==> free[i] != free[j]
  }

  /** `live` are the references in use with their values, `free` the list of the released ones. */
  ghost predicate RefsOk(m: Map, live: map<int, Value>, free: seq<int>) {
    && (forall r :: LiveAt(m, live, r)) && (forall i :: FreeAt(m, live, free, i)) && NoRepeat(free)
    && MapAt(m, IntKey(0)) == NextFree(free, 0) && forall k :: Known(m, live, free, k)
  }

  function NextFree(free: seq<int>, i: int): Value {
    if 0 <= i < |free| then Val(free[i]) else Nil
  }

  lemma AfterPut(m: Map, a: Key, v: Value, k: Key)
    ensures MapAt(Put(m, a, v), k) == if k == a then v else MapAt(m, k)
  {
  }

  /** What a field is after two assignments. */
  lemma AfterPuts(m: Map, a: Key, v: Value, b: Key, w: Value, k: Key)
    ensures MapAt(Put(Put(m, a, v), b, w), k) == if k == b then w else if k == a then v else MapAt(m, k)
  {
  }

  /** With no free reference, one past a border is not in use. */
  lemma BorderIsNew(m: Map, live: map<int, Value>, n: nat, v: Value)
    requires RefsOk(m, live, []) && IsBorder(m, n) && v != Nil
    ensures n + 1 !in live && RefsOk(Put(m, IntKey(n + 1), v), live[n + 1 := v], [])
  {
    var m', live' := Put(m, IntKey(n + 1), v), live[n + 1 := v];
    assert MapAt(m, IntKey(n + 1)) == Nil;
    hide Put, MapAt;
    assert LiveAt(m, live, n + 1);
    forall k
      ensures LiveAt(m', live', k) && FreeAt(m', live', [], k) && Known(m', live', [], k)
    {
      AfterPut(m, IntKey(n + 1), v, IntKey(k));
      assert LiveAt(m, live, k) && Known(m, live, [], k);
    }
    AfterPut(m, IntKey(n + 1), v, IntKey(0));
  }

  /** Taking the first free reference. */
  lemma TakeFree(m: Map, live: map<int, Value>, free: seq<int>, v: Value)
    requires RefsOk(m, live, free) && free != [] && v != Nil
    ensures var m' := Put(Put(m, IntKey(0), MapAt(m, IntKey(free[0]))), IntKey(free[0]), v);
            free[0] !in live && RefsOk(m', live[free[0] := v], free[1..])
  {
    hide Put, MapAt;
    var ref, rest := free[0], free[1..];
    var next := MapAt(m, IntKey(ref));
    var m', live' := Put(Put(m, IntKey(0), next), IntKey(ref), v), live[ref := v];
    assert FreeAt(m, live, free, 0);
    forall k
      ensures LiveAt(m', live', k) && Known(m', live', rest, k)
    {
      AfterPuts(m, IntKey(0), next, IntKey(ref), v, IntKey(k));
      assert LiveAt(m, live, k) && Known(m, live, free, k);
    }
    forall i
      ensures FreeAt(m', live', rest, i)
    {
      if 0 <= i < |rest| {
        assert FreeAt(m, live, free, i + 1) && rest[i] == free[i + 1];
        AfterPuts(m, IntKey(0), next, IntKey(ref), v, IntKey(rest[i]));
      }
    }
    AfterPuts(m, IntKey(0), next, IntKey(ref), v, IntKey(0));
  }

  /** Putting a reference back. */
  lemma GiveBack(m: Map, live: map<int, Value>, free: seq<int>, ref: int)
    requires RefsOk(m, live, free) && ref in live
    ensures var m' := Put(Put(m, IntKey(ref), MapAt(m, IntKey(0))), IntKey(0), Val(ref));
            RefsOk(m', live - {ref}, [ref] + free)
  {
    hide Put, MapAt;
    var more, live', first := [ref] + free, live - {ref}, MapAt(m, IntKey(0));
    var m' := Put(Put(m, IntKey(ref), first), IntKey(0), Val(ref));
    assert LiveAt(m, live, ref);
    forall k
      ensures LiveAt(m', live', k) && Known(m', live', more, k)
    {
      AfterPuts(m, IntKey(ref), first, IntKey(0), Val(ref), IntKey(k));
      assert LiveAt(m, live, k) && Known(m, live, free, k);
    }
    forall i
      ensures FreeAt(m', live', more, i)
    {
      if 0 <= i < |more| {
        assert FreeAt(m, live, free, i - 1);
        AfterPuts(m, IntKey(ref), first, IntKey(0), Val(ref), IntKey(more[i]));
      }
    }
    forall i | 0 <= i < |free|
      ensures free[i] != ref
    {
      assert FreeAt(m, live, free, i);
    }
    AfterPuts(m, IntKey(ref), first, IntKey(0), Val(ref), IntKey(0));
  }

  /** luaL_ref: a reference that was not in use; every live one keeps its value */
  method Ref(t: Table, v: Value, ghost live: map<int, Value>, ghost free: seq<int>)
    returns (r: Result<int, Error>, ghost live': map<int, Value>, ghost free': seq<int>)
    requires t.Valid() && RefsOk(t.m, live, free)
    modifies t
    ensures r.Ok? ==> t.Valid() && RefsOk(t.m, live', free')
    ensures r.Ok? && v != Nil ==> r.value !in live && r.value >= 1 && live' == live[r.value := v]
    ensures v == Nil ==> r == Ok(REFNIL) && live' == live && t.m == old(t.m)
  {
    hide TblClass.Table.Valid;
    live', free' := live, free;
    if v == Nil {
      return Ok(REFNIL), live', free';
    }
    assert FreeAt(t.m, live, free, 0);
    var first := t.Get(IntKey(0));
    var ref := if first.Val? then first.v else 0;
    if ref != 0 {
      TakeFree(t.m, live, free, v);
      var rest := t.Get(IntKey(ref));
      var done := t.Set(IntKey(0), rest);
      if done.Fail? {
        return Fail(done.error), live', free';
      }
      free' := free[1..];
    } else {
      ref := GetN(t);
      BorderIsNew(t.m, live, ref, v);
      ref := ref + 1;
    }
    var done := t.Set(IntKey(ref), v);
    if done.Fail? {
      return Fail(done.error), live', free';
    }
    return Ok(ref), live[ref := v], free';
  }

  /** luaL_unref */
  method Unref(t: Table, ref: int, ghost live: map<int, Value>, ghost free: seq<int>)
      returns (r: Result<(), Error>, ghost free': seq<int>)
    requires t.Valid() && RefsOk(t.m, live, free) && (ref >= 0 ==> ref in live)
    modifies t
    ensures r.Ok? ==> t.Valid() && RefsOk(t.m, live - {ref}, free')
  {
    hide TblClass.Table.Valid;
    assert LiveAt(t.m, live, ref);
    free' := free;
    if ref >= 0 {
      GiveBack(t.m, live, free, ref);
      var first := t.Get(IntKey(0));
      var done := t.Set(IntKey(ref), first);
      if done.Fail? {
        return Fail(done.error), free';
      }
      done := t.Set(IntKey(0), Val(ref));
      if done.Fail? {
        return Fail(done.error), free';
      }
      free' := [ref] + free;
    } else {
      assert live - {ref} == live;
    }
    return Ok(()), free';
  }
}

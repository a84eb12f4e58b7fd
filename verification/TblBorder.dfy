/** The length of a table (ltable.c: luaH_getn, unbound_search). */
module TblBorder {
  import opened Limits
  import opened TblNodes
  import opened TblSizes
  import opened TblTable
  import opened TblCount
  import opened TblResize
  import opened TblClass

  /** `t[n]` is not nil, or `n` is 0, and `t[n + 1]` is nil. */
  predicate IsBorder(m: Map, n: int) {
    n >= 0 && (n == 0 || IntKey(n) in m) && IntKey(n + 1) !in m
  }

  /** The indices 1 to `n` as keys. */
  function Firsts(n: nat): (r: set<Key>)
    ensures |r| == n && forall k :: k in r <==> InRange(n, k)
  {
    if n == 0 then {} else Firsts(n - 1) + {IntKey(n)}
  }

  /** Indices that are all present are not more than the fields. */
  lemma PresentBound(m: Map, n: nat)
    requires forall k: int :: 1 <= k <= n ==> IntKey(k) in m
    ensures n <= |m|
  {
    assert Firsts(n) <= m.Keys by {
      forall k | k in Firsts(n)
        ensures k in m.Keys
      {
        assert k == IntKey(k.i);
      }
    }
    SubsetKeys(Firsts(n), m.Keys);
    assert |m| == |m.Keys|;
  }

  /** No table has as many fields as there are integers. */
  lemma FieldsBound(t: Table)
    requires t.Valid()
    ensures |t.m| < MAX_INT
  {
    hide TblClass.Table.Valid;
    t.FieldsSplit();
    t.SizesBound();
    SubsetArr(t.arr, |t.arr|);
    SubsetLive(t.nodes, |t.nodes|);
    assert |t.m| == |t.m.Keys|;
  }

  lemma {:induction false} SubsetArr(arr: seq<Value>, n: nat)
    requires n <= |arr|
    ensures |ArrKeys(arr, n)| <= n
  {
    if n == 0 {
      assert ArrKeys(arr, 0) == {};
    } else {
      SubsetArr(arr, n - 1);
      assert ArrKeys(arr, n) == if InArr(arr, n) then ArrKeys(arr, n - 1) + {n as int} else ArrKeys(arr, n - 1);
    }
  }

  lemma {:induction false} SubsetLive(nodes: seq<Node>, left: nat)
    requires left <= |nodes|
    ensures |LiveKeys(nodes, |nodes| - left)| <= left
  {
    var i := |nodes| - left;
    if left == 0 {
      assert LiveKeys(nodes, i) == {};
    } else {
      SubsetLive(nodes, left - 1);
      assert LiveKeys(nodes, i) == if nodes[i].val != Nil then LiveKeys(nodes, i + 1) + {nodes[i].key}
        else LiveKeys(nodes, i + 1);
    }
  }

  /** unbound_search: `j0` is zero or a present index; every index used fits an `int`. */
  method UnboundSearch(t: Table, j0: nat) returns (r: nat)
    requires t.Valid() && j0 <= MAXASIZE && (j0 == 0 || IntKey(j0) in t.m)
    ensures IsBorder(t.m, r) && r <= MAX_INT
  {
    hide TblClass.Table.Valid;
    NoNils(t);
    var i, j := j0, j0 + 1;
    var v := t.Get(IntKey(j));
    while v != Nil
      invariant 0 <= i < j <= MAX_INT && (i == 0 || IntKey(i) in t.m) && (v == Nil <==> IntKey(j) !in t.m)
      decreases MAX_INT - j
    {
      i := j;
      j := j * 2;
      if j > MAX_INT {
        i := 1;
        FieldsBound(t);
        var w := t.Get(IntKey(i));
        while w != Nil
          invariant 1 <= i <= MAX_INT && (forall k: int :: 1 <= k < i ==> IntKey(k) in t.m)
            && (w == Nil <==> IntKey(i) !in t.m)
          decreases MAX_INT - i
        {
          PresentBound(t.m, i);
          i := i + 1;
          w := t.Get(IntKey(i));
        }
        return i - 1;
      }
      v := t.Get(IntKey(j));
    }
    while j - i > 1
      invariant 0 <= i < j <= MAX_INT && (i == 0 || IntKey(i) in t.m) && IntKey(j) !in t.m
      decreases j - i
    {
      var m := (i + j) / 2;
      var w := t.Get(IntKey(m));
      if w == Nil {
        j := m;
      } else {
        i := m;
      }
    }
    return i;
  }

  lemma NoNils(t: Table)
    requires t.Valid()
    ensures forall key :: MapAt(t.m, key) == Nil <==> key !in t.m
  {
    t.ValidParts();
  }

  /** luaH_getn */
  method GetN(t: Table) returns (r: nat)
    requires t.Valid()
    ensures IsBorder(t.m, r)
  {
    ArrFields(t);
    t.SizesBound();
    hide TblClass.Table.Valid;
    var j := |t.arr|;
    if j > 0 && t.arr[j - 1] == Nil {
      var i := 0;
      while j - i > 1
        invariant 0 <= i < j <= |t.arr| && (i == 0 || t.arr[i - 1] != Nil) && t.arr[j - 1] == Nil
      {
        var m := (i + j) / 2;
        if t.arr[m - 1] == Nil {
          j := m;
        } else {
          i := m;
        }
      }
      return i;
    } else if t.dummy {
      return j;
    } else {
      r := UnboundSearch(t, j);
    }
  }

  /** What the array part says about the fields, and an empty hash part. */
  lemma ArrFields(t: Table)
    requires t.Valid()
    ensures forall i: int :: 1 <= i <= |t.arr| ==> (t.arr[i - 1] == Nil <==> IntKey(i) !in t.m)
    ensures t.dummy ==> IntKey(|t.arr| + 1) !in t.m
  {
    t.ValidParts();
    forall i: int | 1 <= i <= |t.arr|
      ensures t.arr[i - 1] == Nil <==> IntKey(i) !in t.m
    {
      assert At(t.arr, t.nodes, IntKey(i)) == MapAt(t.m, IntKey(i));
    }
    if t.dummy {
      var key := IntKey(|t.arr| + 1);
      EmptyFind(1, key);
      assert At(t.arr, t.nodes, key) == MapAt(t.m, key);
    }
  }
}

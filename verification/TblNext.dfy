/**
  Traversal (ltable.c: findindex, luaH_next).  Positions number the array part first and then the
  nodes; which key stands at a position does not change while values are only cleared.
 */
module TblNext {
  import opened Wrappers
  import opened TblNodes
  import opened TblTable
  import opened TblCount
  import opened TblClass

  /** The keys by position: `n` array slots, then the nodes. */
  function Layout(n: nat, nodes: seq<Node>): (r: seq<Key>)
    ensures |r| == n + |nodes|
  {
    seq(n, i => IntKey(i + 1)) + seq(|nodes|, i requires 0 <= i < |nodes| => nodes[i].key)
  }

  function ValueAt(arr: seq<Value>, nodes: seq<Node>, p: nat): Value
    requires p < |arr| + |nodes|
  {
    if p < |arr| then arr[p] else nodes[p - |arr|].val
  }

  /** What is read at a position is the field of the key that stands there. */
  lemma LayoutAt(arr: seq<Value>, nodes: seq<Node>, m: Map, p: nat)
    requires Holds(arr, nodes, m) && KeysOk(nodes) && p < |arr| + |nodes|
    ensures ValueAt(arr, nodes, p) == MapAt(m, Layout(|arr|, nodes)[p])
  {
    var key := Layout(|arr|, nodes)[p];
    if key != NilKey {
      assert At(arr, nodes, key) == MapAt(m, key);
      StoredFind(nodes, key);
      if p >= |arr| {
        assert Used(nodes, p - |arr|);
      }
    } else {
      assert NilKey !in m;
    }
  }

  lemma LayoutUnique(arr: seq<Value>, nodes: seq<Node>, m: Map, p: nat, q: nat)
    requires Holds(arr, nodes, m) && KeysOk(nodes) && p < |arr| + |nodes| && q < |arr| + |nodes|
    requires var l := Layout(|arr|, nodes); l[p] == l[q] != NilKey
    ensures p == q
  {
    if p >= |arr| {
      assert Used(nodes, p - |arr|);
    }
    if q >= |arr| {
      assert Used(nodes, q - |arr|);
    }
  }

  lemma LayoutHas(arr: seq<Value>, nodes: seq<Node>, m: Map, key: Key)
    requires Holds(arr, nodes, m) && KeysOk(nodes) && key in m
    ensures key in Layout(|arr|, nodes)
  {
    assert At(arr, nodes, key) == MapAt(m, key);
    StoredFind(nodes, key);
    var l := Layout(|arr|, nodes);
    if InRange(|arr|, key) {
      assert l[key.i - 1] == key;
    } else {
      assert Stored(nodes, key);
      var i :| Used(nodes, i) && nodes[i].key == key;
      assert l[|arr| + i] == key;
    }
  }

  /** findindex: the position of a key, -1 at the start */
  method FindIndex(t: Table, key: Key) returns (r: Result<int, Error>)
    requires t.Valid()
    ensures r.Fail? <==> key != NilKey && !t.HasSlot(key)
    ensures r.Fail? ==> r.error == InvalidKey
    ensures r.Ok? && key == NilKey ==> r.value == -1
    ensures r.Ok? && key != NilKey ==> 0 <= r.value < |t.arr| + |t.nodes| && Layout(|t.arr|, t.nodes)[r.value] == key
  {
    if key == NilKey {
      return Ok(-1);
    }
    if key.IntKey? && 0 < key.i <= |t.arr| {
      return Ok(key.i - 1);
    }
    var n := t.FindNode(key);
    if n == NULL {
      return Fail(InvalidKey);
    }
    return Ok(n + |t.arr|);
  }

  datatype Step = End | Entry(key: Key, val: Value)

  /** The first entry after position `from` stands at `to`. */
  ghost predicate FirstAfter(layout: seq<Key>, m: Map, from: int, to: int, step: Step) {
    && -1 <= from < to <= |layout|
    && (forall p :: from < p < to ==> layout[p] !in m)
    && (step.End? <==> to == |layout|)
    && (to < |layout| ==> step.key == layout[to] && step.key in m && m[step.key] == step.val)
  }

  /** luaH_next */
  method Next(t: Table, key: Key) returns (r: Result<Step, Error>, ghost from: int, ghost to: int)
    requires t.Valid()
    ensures r.Fail? <==> key != NilKey && !t.HasSlot(key)
    ensures r.Fail? ==> r.error == InvalidKey
    ensures r.Ok? ==> FirstAfter(Layout(|t.arr|, t.nodes), t.m, from, to, r.value)
    ensures r.Ok? ==> if key == NilKey then from == -1 else from >= 0 && Layout(|t.arr|, t.nodes)[from] == key
  {
    hide TblClass.Table.Valid, Holds, KeysOk, MapAt, NodesOk, Layout, At;
    ghost var l := Layout(|t.arr|, t.nodes);
    t.ValidParts();
    from, to := -1, -1;
    var index := FindIndex(t, key);
    if index.Fail? {
      return Fail(index.error), from, to;
    }
    from := index.value;
    var i := index.value + 1;
    while i < |t.arr|
      invariant from < i <= |l| && (i > |t.arr| ==> i == from + 1)
      invariant forall p :: from < p < i ==> l[p] !in t.m
    {
      LayoutField(t.arr, t.nodes, t.m, i);
      if t.arr[i] != Nil {
        r, to := Ok(Entry(IntKey(i + 1), t.arr[i])), i;
        return;
      }
      i := i + 1;
    }
    i := i - |t.arr|;
    while i < |t.nodes|
      invariant 0 <= i <= |t.nodes| && from < i + |t.arr|
      invariant forall p :: from < p < i + |t.arr| ==> l[p] !in t.m
    {
      LayoutField(t.arr, t.nodes, t.m, i + |t.arr|);
      if t.nodes[i].val != Nil {
        r, to := Ok(Entry(t.nodes[i].key, t.nodes[i].val)), i + |t.arr|;
        return;
      }
      i := i + 1;
    }
    assert i + |t.arr| == |l|;
    return Ok(End), from, |l|;
  }

  lemma LayoutField(arr: seq<Value>, nodes: seq<Node>, m: Map, p: nat)
    requires Holds(arr, nodes, m) && KeysOk(nodes) && p < |arr| + |nodes|
    ensures var key := Layout(|arr|, nodes)[p];
            && (p < |arr| ==> key == IntKey(p + 1)) && (p >= |arr| ==> key == nodes[p - |arr|].key)
            && (ValueAt(arr, nodes, p) == Nil <==> key !in m) && (key in m ==> m[key] == ValueAt(arr, nodes, p))
  {
    LayoutAt(arr, nodes, m, p);
  }

  // ---------------------------------------------------------------- whole traversals

  ghost predicate SameKeys(nodes: seq<Node>, nodes': seq<Node>) {
    |nodes| == |nodes'| && forall i :: 0 <= i < |nodes| ==> nodes[i].key == nodes'[i].key
  }

  lemma SameLayout(n: nat, nodes: seq<Node>, nodes': seq<Node>)
    requires SameKeys(nodes, nodes')
    ensures Layout(n, nodes) == Layout(n, nodes')
  {
  }

  ghost function KeySet(ks: seq<Key>): set<Key> {
    set k | k in ks
  }

  lemma KeySetStep(ks: seq<Key>, i: nat)
    requires i < |ks|
    ensures KeySet(ks[..i + 1]) == KeySet(ks[..i]) + {ks[i]}
  {
    assert ks[..i + 1] == ks[..i] + [ks[i]];
  }

  /** Assign nil to the fields among `ks`; nothing moves. */
  method ClearAll(t: Table, ks: seq<Key>)
    requires t.Valid()
    modifies t
    ensures t.Valid() && t.m == old(t.m) - KeySet(ks)
    ensures Layout(|t.arr|, t.nodes) == old(Layout(|t.arr|, t.nodes))
  {
    hide TblClass.Table.Valid, Layout;
    var i := 0;
    ghost var m0 := t.m;
    ghost var l := Layout(|t.arr|, t.nodes);
    while i < |ks|
      invariant 0 <= i <= |ks| && t.Valid() && t.m == m0 - KeySet(ks[..i])
      invariant Layout(|t.arr|, t.nodes) == l
    {
      ClearOne(t, ks[i]);
      KeySetStep(ks, i);
      i := i + 1;
    }
    assert ks[..|ks|] == ks;
  }

  method ClearOne(t: Table, key: Key)
    requires t.Valid()
    modifies t
    ensures t.Valid() && t.m == old(t.m) - {key}
    ensures Layout(|t.arr|, t.nodes) == old(Layout(|t.arr|, t.nodes))
  {
    hide TblClass.Table.Valid, Layout;
    var v := t.Get(key);
    FieldSlot(t, key);
    if v != Nil {
      var r := t.SetSlot(key, true);
      ghost var was := t.nodes;
      t.Assign(r.value, key, Nil);
      SameLayout(|t.arr|, was, t.nodes);
    }
  }

  /** A field has a slot. */
  lemma FieldSlot(t: Table, key: Key)
    requires t.Valid()
    ensures key in t.m ==> t.HasSlot(key) && key != NilKey && t.m[key] != Nil
    ensures key !in t.m ==> t.m - {key} == t.m
  {
    if key in t.m {
      t.ValidParts();
      assert At(t.arr, t.nodes, key) == MapAt(t.m, key);
      StoredFind(t.nodes, key);
    }
  }

  /**
    A scan: at its step `j` the table stands for `snaps[j]`, and the entry seen is the first one
    after the position of the entry before, `at[j]`.
   */
  ghost predicate Scan(layout: seq<Key>, snaps: seq<Map>, seen: seq<Step>, at: seq<int>) {
    && |snaps| == |seen| + 1 && |at| == |seen| + 1 && at[0] == -1
    && forall j :: 0 <= j < |seen| ==> seen[j].Entry? && FirstAfter(layout, snaps[j], at[j], at[j + 1], seen[j])
  }

  /** Between two steps fields were cleared, and nothing else was done. */
  ghost predicate OnlyCleared(snaps: seq<Map>) {
    forall i, j, k :: 0 <= i <= j < |snaps| && k in snaps[j] ==> k in snaps[i] && snaps[i][k] == snaps[j][k]
  }

  ghost predicate Distinct(layout: seq<Key>) {
    forall p, q :: 0 <= p < |layout| && 0 <= q < |layout| && layout[p] == layout[q] != NilKey ==> p == q
  }

  lemma {:induction false} AtGrows(layout: seq<Key>, snaps: seq<Map>, seen: seq<Step>, at: seq<int>, i: nat, j: nat)
    requires Scan(layout, snaps, seen, at) && i <= j < |at|
    ensures at[i] <= at[j] && (i < j ==> at[i] < at[j])
  {
    if i < j {
      AtGrows(layout, snaps, seen, at, i, j - 1);
      assert FirstAfter(layout, snaps[j - 1], at[j - 1], at[j], seen[j - 1]);
    }
  }

  /** No entry is seen twice. */
  lemma SeenOnce(layout: seq<Key>, snaps: seq<Map>, seen: seq<Step>, at: seq<int>, i: nat, j: nat)
    requires Scan(layout, snaps, seen, at) && Distinct(layout) && NilKey !in snaps[0] && OnlyCleared(snaps)
    requires i < j < |seen|
    ensures seen[i].key != seen[j].key
  {
    AtGrows(layout, snaps, seen, at, i + 1, j + 1);
    assert FirstAfter(layout, snaps[i], at[i], at[i + 1], seen[i])
      && FirstAfter(layout, snaps[j], at[j], at[j + 1], seen[j]);
    assert seen[j].key in snaps[0];
    assert 0 <= at[i + 1] < at[j + 1] < |layout|;
  }

  /** A field that stands before the place the scan has got to was seen, or was gone when the scan came to it. */
  lemma {:induction false} SeenBefore(layout: seq<Key>, snaps: seq<Map>, seen: seq<Step>, at: seq<int>, p: nat, j: nat)
    requires Scan(layout, snaps, seen, at) && j < |at| && p <= at[j] && p < |layout|
    ensures exists i :: 0 <= i < j && at[i] < p <= at[i + 1]
                        && if p == at[i + 1] then seen[i].key == layout[p] else layout[p] !in snaps[i]
    decreases j
  {
    if p <= at[j - 1] {
      SeenBefore(layout, snaps, seen, at, p, j - 1);
    } else {
      var i := j - 1;
      assert FirstAfter(layout, snaps[i], at[i], at[i + 1], seen[i]);
      assert at[i] < p <= at[i + 1];
    }
  }

  /** When the scan is over, every field still there was seen. */
  lemma SeenAll(layout: seq<Key>, snaps: seq<Map>, seen: seq<Step>, at: seq<int>, p: nat)
    requires Scan(layout, snaps, seen, at) && OnlyCleared(snaps) && p < |layout|
    requires FirstAfter(layout, snaps[|seen|], at[|seen|], |layout|, End)
    requires layout[p] in snaps[|seen|]
    ensures exists i :: 0 <= i < |seen| && seen[i].key == layout[p]
  {
    if p <= at[|seen|] {
      SeenBefore(layout, snaps, seen, at, p, |seen|);
    }
  }

  /**
    A whole traversal with luaH_next, in which after step `j` the fields `clears[j]` are set to nil.
   */
  method Traverse(t: Table, clears: seq<seq<Key>>) returns (seen: seq<Step>, ghost snaps: seq<Map>, ghost at: seq<int>)
    requires t.Valid()
    modifies t
    ensures t.Valid() && snaps != [] && snaps[0] == old(t.m) && t.m == snaps[|snaps| - 1]
    ensures Scan(Layout(|t.arr|, t.nodes), snaps, seen, at) && OnlyCleared(snaps)
    ensures forall i, j :: 0 <= i < j < |seen| ==> seen[i].key != seen[j].key
    ensures forall i :: 0 <= i < |seen| ==> seen[i].key in old(t.m) && old(t.m)[seen[i].key] == seen[i].val
    ensures forall key :: key in t.m ==> exists i :: 0 <= i < |seen| && seen[i].key == key
  {
    hide *;
    ghost var l := Layout(|t.arr|, t.nodes);
    TableLayout(t);
    seen, snaps, at := [], [t.m], [-1];
    ScanStart(l, t.m);
    var key := NilKey;
    while true
      invariant t.Valid() && Layout(|t.arr|, t.nodes) == l && Scanning(l, snaps, seen, at, key)
      invariant |snaps| == |seen| + 1 && |at| == |seen| + 1 && t.m == snaps[|seen|] && snaps[0] == old(t.m)
      decreases |l| - at[|seen|]
    {
      LayoutSlot(t, key);
      ScanKey(l, snaps, seen, at, key);
      var r, from, to := Next(t, key);
      NextStep(l, t.m, from, to, r.value);
      SameFrom(l, key, from, at[|seen|]);
      if r.value.End? {
        break;
      }
      ghost var m0 := t.m;
      ClearAll(t, if |seen| < |clears| then clears[|seen|] else []);
      ScanMore(l, snaps, seen, at, key, t.m, to, r.value);
      key := r.value.key;
      seen, snaps, at := seen + [r.value], snaps + [t.m], at + [to];
    }
    Visited(l, snaps, seen, at);
    TableLayout(t);
  }

  /** The state of a traversal: `key` is the last key seen, nil at the start. */
  ghost predicate Scanning(l: seq<Key>, snaps: seq<Map>, seen: seq<Step>, at: seq<int>, key: Key) {
    && |snaps| == |seen| + 1 && |at| == |seen| + 1
    && Scan(l, snaps, seen, at) && OnlyCleared(snaps) && Distinct(l) && NilKey !in snaps[0]
    && (|seen| == 0 ==> key == NilKey)
    && (|seen| > 0 ==> key != NilKey && 0 <= at[|seen|] < |l| && l[at[|seen|]] == key)
  }

  lemma ScanStart(l: seq<Key>, m: Map)
    requires Distinct(l) && NilKey !in m
    ensures Scanning(l, [m], [], [-1], NilKey)
  {
  }

  lemma ScanKey(l: seq<Key>, snaps: seq<Map>, seen: seq<Step>, at: seq<int>, key: Key)
    requires Scanning(l, snaps, seen, at, key)
    ensures |snaps| == |seen| + 1 && |at| == |seen| + 1 && Scan(l, snaps, seen, at) && OnlyCleared(snaps)
      && NilKey !in snaps[0]
    ensures if key == NilKey then at[|seen|] == -1 else key in l && 0 <= at[|seen|] < |l| && l[at[|seen|]] == key
  {
  }

  /** One step more, after which fields were cleared. */
  lemma ScanMore(l: seq<Key>, snaps: seq<Map>, seen: seq<Step>, at: seq<int>, key: Key, m: Map, to: int, step: Step)
    requires Scanning(l, snaps, seen, at, key) && step.Entry? && FirstAfter(l, snaps[|seen|], at[|seen|], to, step)
    requires forall k :: k in m ==> k in snaps[|seen|] && m[k] == snaps[|seen|][k]
    ensures Scanning(l, snaps + [m], seen + [step], at + [to], step.key) && at[|seen|] < to <= |l|
  {
    ClearedMore(snaps, m);
    hide OnlyCleared, Distinct;
  }

  lemma TableLayout(t: Table)
    requires t.Valid()
    ensures Distinct(Layout(|t.arr|, t.nodes)) && NilKey !in t.m
    ensures forall key :: key in t.m ==> key in Layout(|t.arr|, t.nodes)
  {
    t.ValidParts();
    var l := Layout(|t.arr|, t.nodes);
    forall p, q | 0 <= p < |l| && 0 <= q < |l| && l[p] == l[q] != NilKey
      ensures p == q
    {
      LayoutUnique(t.arr, t.nodes, t.m, p, q);
    }
    forall key | key in t.m
      ensures key in l
    {
      LayoutHas(t.arr, t.nodes, t.m, key);
    }
  }

  /** A key of the layout can be handed to luaH_next. */
  lemma LayoutSlot(t: Table, key: Key)
    requires t.Valid()
    ensures key != NilKey && key in Layout(|t.arr|, t.nodes) ==> t.HasSlot(key)
    ensures Distinct(Layout(|t.arr|, t.nodes))
  {
    TableLayout(t);
    var l := Layout(|t.arr|, t.nodes);
    if key != NilKey && key in l {
      var p :| 0 <= p < |l| && l[p] == key;
      if p >= |t.arr| {
        assert Used(t.nodes, p - |t.arr|);
      }
    }
  }

  lemma SameFrom(l: seq<Key>, key: Key, from: int, last: int)
    requires Distinct(l)
    requires if key == NilKey then from == -1 && last == -1 else 0 <= from < |l| && l[from] == key && 0 <= last < |l|
                                                                 && l[last] == key
    ensures from == last
  {
  }

  lemma NextStep(l: seq<Key>, m: Map, from: int, to: int, step: Step)
    requires FirstAfter(l, m, from, to, step)
    ensures from < to <= |l| && (step.End? ==> to == |l|)
    ensures step.Entry? ==> to < |l| && step.key == l[to] && step.key in m
  {
  }

  lemma ClearedMore(snaps: seq<Map>, m: Map)
    requires OnlyCleared(snaps) && snaps != []
    requires var last := snaps[|snaps| - 1]; forall k :: k in m ==> k in last && m[k] == last[k]
    ensures OnlyCleared(snaps + [m])
  {
  }

  lemma Visited(l: seq<Key>, snaps: seq<Map>, seen: seq<Step>, at: seq<int>)
    requires Scan(l, snaps, seen, at) && OnlyCleared(snaps) && Distinct(l) && NilKey !in snaps[0]
    requires (forall key :: key in snaps[0] ==> key in l) && FirstAfter(l, snaps[|seen|], at[|seen|], |l|, End)
    ensures forall i, j :: 0 <= i < j < |seen| ==> seen[i].key != seen[j].key
    ensures forall i :: 0 <= i < |seen| ==> seen[i].key in snaps[0] && snaps[0][seen[i].key] == seen[i].val
    ensures forall key :: key in snaps[|seen|] ==> exists i :: 0 <= i < |seen| && seen[i].key == key
  {
    forall i, j | 0 <= i < j < |seen|
      ensures seen[i].key != seen[j].key
    {
      SeenOnce(l, snaps, seen, at, i, j);
    }
    forall i | 0 <= i < |seen|
      ensures seen[i].key in snaps[0] && snaps[0][seen[i].key] == seen[i].val
    {
      assert FirstAfter(l, snaps[i], at[i], at[i + 1], seen[i]);
    }
    forall key | key in snaps[|seen|]
      ensures exists i :: 0 <= i < |seen| && seen[i].key == key
    {
      assert key in snaps[0];
      var p :| 0 <= p < |l| && l[p] == key;
      SeenAll(l, snaps, seen, at, p);
    }
  }
}

/** What resize keeps: which fields are back in the table at each point of the re-insertion. */
module TblResize {
  import opened TblNodes
  import opened TblSizes
  import opened TblTable
  import opened TblCount

  /** The fields with array indices up to `n`. */
  ghost function UpTo(m: Map, n: nat): Map {
    map k | k in m && InRange(n, k) :: m[k]
  }

  /** The fields of the array part, and those of the nodes from `i` on. */
  ghost function Rebuilt(m: Map, size: nat, nodes: seq<Node>, i: nat): Map {
    map k | k in m && (InRange(size, k) || k in LiveKeys(nodes, i)) :: m[k]
  }

  lemma UpToStep(arr: seq<Value>, nodes: seq<Node>, m: Map, i: nat)
    requires Holds(arr, nodes, m) && i < |arr|
    ensures IntKey(i + 1) !in UpTo(m, i)
    ensures arr[i] == Nil ==> UpTo(m, i + 1) == UpTo(m, i)
    ensures arr[i] != Nil ==> UpTo(m, i + 1) == UpTo(m, i)[IntKey(i + 1) := arr[i]] && IntKey(i + 1) in m
                              && m[IntKey(i + 1)] == arr[i]
  {
    var key := IntKey(i + 1);
    assert At(arr, nodes, key) == arr[i] == MapAt(m, key);
    assert forall k: Key :: k.IntKey? ==> k == IntKey(k.i);
    hide At;
  }

  /** With no node left to insert from, the map so far is the array part. */
  lemma RebuiltNone(m: Map, size: nat, nodes: seq<Node>)
    ensures Rebuilt(m, size, nodes, |nodes|) == UpTo(m, size)
  {
    assert LiveKeys(nodes, |nodes|) == {};
  }

  lemma RebuiltStep(arr: seq<Value>, nodes: seq<Node>, m: Map, i: nat)
    requires Holds(arr, nodes, m) && KeysOk(nodes) && i < |nodes|
    ensures nodes[i].val == Nil ==> Rebuilt(m, |arr|, nodes, i) == Rebuilt(m, |arr|, nodes, i + 1)
    ensures nodes[i].val != Nil ==>
              var key := nodes[i].key;
              && key != NilKey && key in m && m[key] == nodes[i].val && key !in Rebuilt(m, |arr|, nodes, i + 1)
              && Rebuilt(m, |arr|, nodes, i) == Rebuilt(m, |arr|, nodes, i + 1)[key := nodes[i].val]
  {
    var key := nodes[i].key;
    LiveStep(nodes, i);
    if nodes[i].val != Nil {
      assert Used(nodes, i);
      StoredFind(nodes, key);
      assert At(arr, nodes, key) == MapAt(m, key);
    }
    hide LiveKeys, KeysOk, At;
  }

  lemma RebuiltAll(arr: seq<Value>, nodes: seq<Node>, m: Map)
    requires Holds(arr, nodes, m) && KeysOk(nodes)
    ensures Rebuilt(m, |arr|, nodes, 0) == m
  {
    forall key | key in m
      ensures InRange(|arr|, key) || key in LiveKeys(nodes, 0)
    {
      KeySplit(arr, nodes, m, key);
    }
  }

  function Nils(n: nat): seq<Value> {
    seq(n, _ => Nil)
  }

  /** The array part alone, after it was made larger or smaller. */
  function Resized(arr: seq<Value>, n: nat): seq<Value> {
    if n <= |arr| then arr[..n] else arr + Nils(n - |arr|)
  }

  lemma ResizedHolds(arr: seq<Value>, nodes: seq<Node>, m: Map, nasize: nat, size: nat)
    requires Holds(arr, nodes, m)
    ensures Holds(Resized(arr, nasize), EmptyNodes(size), UpTo(m, if nasize <= |arr| then nasize else |arr|))
  {
    var arr' := Resized(arr, nasize);
    var m' := UpTo(m, if nasize <= |arr| then nasize else |arr|);
    forall key | key != NilKey
      ensures At(arr', EmptyNodes(size), key) == MapAt(m', key)
    {
      assert At(arr, nodes, key) == MapAt(m, key);
      EmptyFind(size, key);
    }
    assert forall i :: 0 <= i < size ==> EmptyNodes(size)[i].key == NilKey;
  }

  lemma SubsetKeys(a: set<Key>, b: set<Key>)
    requires a <= b
    ensures |a| <= |b|
  {
    assert b == a + (b - a);
  }

  /** A field that is not back yet has a free node, if it does not go to the array part. */
  lemma RoomLeft(used: set<Key>, now: set<Key>, ks: set<Key>, key: Key, n: nat)
    requires used <= HashPart(now, n) && now <= ks && key in ks && key !in now && !InRange(n, key)
    ensures |used| < |HashPart(ks, n)|
  {
    assert key in HashPart(ks, n) && key !in HashPart(now, n);
    assert used <= HashPart(ks, n) - {key};
    SubsetKeys(used, HashPart(ks, n) - {key});
  }

  lemma HashPartAdd(ks: set<Key>, key: Key, n: nat)
    ensures HashPart(ks, n) <= HashPart(ks + {key}, n)
    ensures !InRange(n, key) ==> HashPart(ks + {key}, n) == HashPart(ks, n) + {key}
    ensures |HashPart(ks, n)| <= |ks|
  {
    SubsetKeys(HashPart(ks, n), ks);
  }

  lemma KeysAfter(m: Map, key: Key, v: Value)
    ensures m[key := v].Keys == m.Keys + {key}
  {
  }
}

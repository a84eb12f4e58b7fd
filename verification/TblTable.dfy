/**
  Lua tables (ltable.c): an array part, and a hash part for the other keys.  `m` is the finite
  map that a table stands for: its fields that are not nil.
 */
module TblTable {
  import opened Wrappers
  import opened TblNodes
  import opened TblSizes

  const MAXASIZE: int := 0x400_0000

  datatype Error = NilIndex | TableOverflow | InvalidKey

  /** Where the value of a key is kept. */
  datatype Slot = InArray(i: nat) | InNode(n: nat)

  type Map = map<Key, Value>

  predicate InRange(size: int, key: Key) {
    key.IntKey? && 1 <= key.i <= size
  }

  /** The value of a key in the two parts. */
  function At(arr: seq<Value>, nodes: seq<Node>, key: Key): Value {
    if InRange(|arr|, key) then arr[key.i - 1]
    else if key == NilKey then Nil
    else Find(nodes, key)
  }

  function MapAt(m: Map, key: Key): Value {
    if key in m then m[key] else Nil
  }

  /** The map after `t[key] = v`. */
  function Put(m: Map, key: Key, v: Value): Map {
    if v == Nil then m - {key} else m[key := v]
  }

  /** The two parts hold exactly the fields of `m`, and no array index is in the hash part. */
  ghost predicate Holds(arr: seq<Value>, nodes: seq<Node>, m: Map) {
    && (forall key :: key in m ==> m[key] != Nil && key != NilKey)
    && (forall key :: key != NilKey ==> At(arr, nodes, key) == MapAt(m, key))
    && (forall i :: Used(nodes, i) ==> !InRange(|arr|, nodes[i].key))
  }

  ghost function UsedKeys(nodes: seq<Node>): set<Key> {
    set i | 0 <= i < |nodes| && nodes[i].key != NilKey :: nodes[i].key
  }

  lemma {:induction false} AllUsed(nodes: seq<Node>)
    requires forall i :: 0 <= i < |nodes| ==> Used(nodes, i)
    requires forall i, j :: 0 <= i < |nodes| && 0 <= j < |nodes| && nodes[i].key == nodes[j].key ==> i == j
    ensures |UsedKeys(nodes)| == |nodes|
  {
    if nodes != [] {
      var rest := nodes[..|nodes| - 1];
      var last := nodes[|nodes| - 1].key;
      assert forall i :: 0 <= i < |rest| ==> rest[i] == nodes[i] && Used(nodes, i);
      AllUsed(rest);
      assert last !in UsedKeys(rest);
      assert UsedKeys(nodes) == UsedKeys(rest) + {last} by {
        assert Used(nodes, |nodes| - 1);
      }
    }
  }

  /** There is a free node if fewer keys are stored than there are nodes. */
  lemma FreeNode(nodes: seq<Node>)
    requires KeysOk(nodes) && |UsedKeys(nodes)| < |nodes|
    ensures exists i :: 0 <= i < |nodes| && nodes[i].key == NilKey
  {
    if forall i :: 0 <= i < |nodes| ==> nodes[i].key != NilKey {
      assert forall i :: 0 <= i < |nodes| ==> Used(nodes, i);
      AllUsed(nodes);
    }
  }

  function EmptyNodes(n: nat): seq<Node> {
    seq(n, _ => Node(NilKey, Nil, NULL))
  }

  lemma EmptyOk(hash: Hash, n: nat)
    requires n > 0
    ensures NodesOk(hash, EmptyNodes(n), Order(seq(n, _ => 0), seq(n, _ => 0.0), 1), n) && UsedKeys(EmptyNodes(n)) == {}
    ensures forall key :: Find(EmptyNodes(n), key) == Nil
  {
    forall key
      ensures Find(EmptyNodes(n), key) == Nil
    {
      EmptyFind(n, key);
    }
  }

  lemma {:induction false} EmptyFind(n: nat, key: Key)
    ensures Find(EmptyNodes(n), key) == Nil
  {
    if n > 0 {
      assert EmptyNodes(n)[1..] == EmptyNodes(n - 1);
      EmptyFind(n - 1, key);
    }
  }

  /** Inserting a key with a nil value, or moving nodes, keeps the map. */
  lemma HoldsSame(arr: seq<Value>, nodes: seq<Node>, nodes': seq<Node>, m: Map)
    requires KeysOk(nodes) && KeysOk(nodes') && Holds(arr, nodes, m)
    requires forall i :: Used(nodes, i) && nodes[i].val != Nil ==> HasNode(nodes', nodes[i].key, nodes[i].val)
    requires forall i :: Used(nodes', i) && nodes'[i].val != Nil ==> HasNode(nodes, nodes'[i].key, nodes'[i].val)
    requires forall i :: Used(nodes', i) ==> !InRange(|arr|, nodes'[i].key)
    ensures Holds(arr, nodes', m)
  {
    forall key | key != NilKey
      ensures At(arr, nodes', key) == MapAt(m, key)
    {
      assert At(arr, nodes, key) == MapAt(m, key);
      FindSame(nodes, nodes', key);
    }
  }

  ghost predicate HasNode(nodes: seq<Node>, key: Key, v: Value) {
    exists j :: Used(nodes, j) && nodes[j].key == key && nodes[j].val == v
  }

  lemma HasNodeAt(nodes: seq<Node>, j: int)
    requires Used(nodes, j)
    ensures HasNode(nodes, nodes[j].key, nodes[j].val)
  {
  }

  lemma TakeOverHolds(arr: seq<Value>, nodes: seq<Node>, m: Map, mp: nat, key: Key)
    requires KeysOk(nodes) && Holds(arr, nodes, m) && mp < |nodes| && nodes[mp].val == Nil && key != NilKey
    requires !Stored(nodes, key) && !InRange(|arr|, key) && KeysOk(TakeOver(nodes, mp, key))
    ensures Holds(arr, TakeOver(nodes, mp, key), m) && UsedKeys(TakeOver(nodes, mp, key)) <= UsedKeys(nodes) + {key}
  {
    var n' := TakeOver(nodes, mp, key);
    forall i | Used(nodes, i) && nodes[i].val != Nil
      ensures HasNode(n', nodes[i].key, nodes[i].val)
    {
      HasNodeAt(n', i);
    }
    forall i | Used(n', i) && n'[i].val != Nil
      ensures HasNode(nodes, n'[i].key, n'[i].val)
    {
      HasNodeAt(nodes, i);
    }
    assert forall i :: Used(n', i) ==> n'[i].key == key || Used(nodes, i);
    HoldsSame(arr, nodes, n', m);
  }

  lemma MoveHolds(arr: seq<Value>, nodes: seq<Node>, m: Map, hash: Hash, prev: nat, mp: nat, n: nat, key: Key)
    requires |nodes| > 0 && KeysOk(nodes) && Holds(arr, nodes, m) && MoveCase(hash, nodes, prev, mp, n) && key != NilKey
      && prev != mp
    requires !Stored(nodes, key) && !InRange(|arr|, key) && KeysOk(MoveTo(nodes, prev, mp, n, key))
    ensures Holds(arr, MoveTo(nodes, prev, mp, n, key), m)
      && UsedKeys(MoveTo(nodes, prev, mp, n, key)) <= UsedKeys(nodes) + {key}
  {
    var n' := MoveTo(nodes, prev, mp, n, key);
    forall i | Used(nodes, i) && nodes[i].val != Nil
      ensures HasNode(n', nodes[i].key, nodes[i].val)
    {
      HasNodeAt(n', if i == mp then n else i);
    }
    forall i | Used(n', i) && n'[i].val != Nil
      ensures HasNode(nodes, n'[i].key, n'[i].val)
    {
      HasNodeAt(nodes, Before(mp, n, i));
    }
    assert forall i :: Used(n', i) ==> i == mp
                                       || (Used(nodes, Before(mp, n, i)) && nodes[Before(mp, n, i)].key == n'[i].key);
    HoldsSame(arr, nodes, n', m);
  }

  lemma InsertHolds(arr: seq<Value>, nodes: seq<Node>, m: Map, mp: nat, n: nat, key: Key)
    requires KeysOk(nodes) && Holds(arr, nodes, m) && Used(nodes, mp) && n < |nodes| && nodes[n].key == NilKey
      && key != NilKey
    requires !Stored(nodes, key) && !InRange(|arr|, key) && KeysOk(InsertAfter(nodes, mp, n, key))
    ensures Holds(arr, InsertAfter(nodes, mp, n, key), m) && UsedKeys(InsertAfter(nodes, mp, n, key)) <= UsedKeys(nodes)
      + {key}
  {
    var n' := InsertAfter(nodes, mp, n, key);
    forall i | Used(nodes, i) && nodes[i].val != Nil
      ensures HasNode(n', nodes[i].key, nodes[i].val)
    {
      HasNodeAt(n', i);
    }
    forall i | Used(n', i) && n'[i].val != Nil
      ensures HasNode(nodes, n'[i].key, n'[i].val)
    {
      HasNodeAt(nodes, i);
    }
    assert forall i :: Used(n', i) ==> n'[i].key == key || (Used(nodes, i) && nodes[i].key == n'[i].key);
    HoldsSame(arr, nodes, n', m);
  }

  /** Assigning to the node of a key. */
  lemma AssignHolds(hash: Hash, arr: seq<Value>, nodes: seq<Node>, o: Order, lastfree: int, m: Map, n: nat, v: Value)
    requires NodesOk(hash, nodes, o, lastfree) && Holds(arr, nodes, m) && Used(nodes, n)
    ensures var nodes' := nodes[n := nodes[n].(val := v)];
            NodesOk(hash, nodes', o, lastfree) && Holds(arr, nodes', Put(m, nodes[n].key, v))
              && UsedKeys(nodes') == UsedKeys(nodes)
  {
    var nodes' := nodes[n := nodes[n].(val := v)];
    AssignNodes(hash, nodes, o, lastfree, n, v);
    hide LinksOk, MainOk, FreeOk;
    var key0 := nodes[n].key;
    forall key | key != NilKey
      ensures At(arr, nodes', key) == MapAt(Put(m, key0, v), key)
    {
      assert At(arr, nodes, key) == MapAt(m, key);
      StoredFind(nodes, key);
      StoredFind(nodes', key);
      if key == key0 {
        assert Used(nodes', n);
      } else if Stored(nodes, key) {
        var i :| Used(nodes, i) && nodes[i].key == key;
        assert Used(nodes', i) && nodes'[i].key == key;
      } else {
        assert forall i :: Used(nodes', i) ==> Used(nodes, i) && nodes'[i].key == nodes[i].key;
      }
    }
    assert forall i :: 0 <= i < |nodes| ==> nodes'[i].key == nodes[i].key;
  }

  lemma AssignNodes(hash: Hash, nodes: seq<Node>, o: Order, lastfree: int, n: nat, v: Value)
    requires NodesOk(hash, nodes, o, lastfree) && Used(nodes, n)
    ensures NodesOk(hash, nodes[n := nodes[n].(val := v)], o, lastfree)
  {
    var nodes' := nodes[n := nodes[n].(val := v)];
    assert forall i :: Used(nodes', i) <==> Used(nodes, i);
    assert forall i :: 0 <= i < |nodes| ==> nodes'[i].key == nodes[i].key && nodes'[i].next == nodes[i].next;
    assert LinksOk(nodes', o) by {
      forall i
        ensures NextAt(nodes', o, i)
      {
        assert NextAt(nodes, o, i);
      }
      forall i, x
        ensures GapAt(nodes', o, i, x) && RankAt(nodes', o, i, x)
      {
        assert GapAt(nodes, o, i, x) && RankAt(nodes, o, i, x);
      }
    }
    hide LinksOk;
  }
}

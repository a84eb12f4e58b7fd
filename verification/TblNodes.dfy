/**
  The hash part of a table (ltable.c): a chained scatter table with Brent's variation.

  `chain` and `rank` say which chain a node belongs to and where it stands in it.  A node whose
  value is nil keeps its key and its place until another key takes the node over.
 */
module TblNodes {

  datatype Key = NilKey | IntKey(i: int) | OtherKey(id: nat)

  datatype Value = Nil | Val(v: int)

  datatype Node = Node(key: Key, val: Value, next: int)

  const NULL: int := -1

  /** The hash of a key, in a node vector of a given size. */
  type Hash = (Key, nat) -> nat

  /** `mainposition` */
  function MainPos(hash: Hash, n: nat, key: Key): (p: nat)
    requires n > 0
    ensures p < n
  {
    hash(key, n) % n
  }

  predicate Used(nodes: seq<Node>, i: int) {
    0 <= i < |nodes| && nodes[i].key != NilKey
  }

  datatype Order = Order(chain: seq<nat>, rank: seq<real>, unused: nat)

  predicate SameChain(o: Order, i: int, j: int)
    requires 0 <= i < |o.chain| && 0 <= j < |o.chain|
  {
    o.chain[i] == o.chain[j]
  }

  predicate Shaped(nodes: seq<Node>, o: Order) {
    |nodes| > 0 && |o.chain| == |nodes| && |o.rank| == |nodes|
  }

  /** A free node is empty; no two nodes have one key. */
  ghost predicate KeysOk(nodes: seq<Node>) {
    && (forall i :: 0 <= i < |nodes| && nodes[i].key == NilKey ==> nodes[i] == Node(NilKey, Nil, NULL))
    && (forall i, j :: Used(nodes, i) && Used(nodes, j) && nodes[i].key == nodes[j].key ==> i == j)
  }

  /** A link leads further along the same chain. */
  predicate NextAt(nodes: seq<Node>, o: Order, i: int)
    requires Shaped(nodes, o)
  {
    Used(nodes, i) && nodes[i].next != NULL ==>
      Used(nodes, nodes[i].next) && SameChain(o, i, nodes[i].next) && o.rank[i] < o.rank[nodes[i].next]
  }

  /** ... and skips no node of the chain. */
  predicate GapAt(nodes: seq<Node>, o: Order, i: int, x: int)
    requires Shaped(nodes, o)
  {
    Used(nodes, i) && Used(nodes, x) && SameChain(o, i, x) && o.rank[x] > o.rank[i] ==>
      nodes[i].next != NULL && (Used(nodes, nodes[i].next) ==> o.rank[x] >= o.rank[nodes[i].next])
  }

  predicate RankAt(nodes: seq<Node>, o: Order, i: int, x: int)
    requires Shaped(nodes, o)
  {
    Used(nodes, i) && Used(nodes, x) && SameChain(o, i, x) && o.rank[x] == o.rank[i] ==> i == x
  }

  /** Links lead to the next node of the same chain. */
  ghost predicate LinksOk(nodes: seq<Node>, o: Order)
    requires Shaped(nodes, o)
  {
    && (forall i :: NextAt(nodes, o, i))
    && (forall i, x :: GapAt(nodes, o, i, x))
    && (forall i, x :: RankAt(nodes, o, i, x))
    && (forall i :: 0 <= i < |nodes| ==> o.chain[i] < o.unused)
  }

  /**
    The invariant of the file header: every key is in the chain of its main position, not before
    it, and the node at that position is in its own main position.
   */
  ghost predicate MainOk(hash: Hash, nodes: seq<Node>, o: Order)
    requires Shaped(nodes, o)
  {
    forall i :: Used(nodes, i) ==>
      var p := MainPos(hash, |nodes|, nodes[i].key);
      Used(nodes, p) && SameChain(o, p, i) && o.rank[p] <= o.rank[i] && MainPos(hash, |nodes|, nodes[p].key) == p
  }

  ghost predicate FreeOk(nodes: seq<Node>, lastfree: int) {
    lastfree <= |nodes| && forall i :: lastfree <= i < |nodes| && 0 <= i ==> Used(nodes, i)
  }

  ghost predicate NodesOk(hash: Hash, nodes: seq<Node>, o: Order, lastfree: int) {
    Shaped(nodes, o) && KeysOk(nodes) && LinksOk(nodes, o) && MainOk(hash, nodes, o) && FreeOk(nodes, lastfree)
  }

  /** `key` is stored, perhaps with a nil value. */
  ghost predicate Stored(nodes: seq<Node>, key: Key) {
    exists i :: Used(nodes, i) && nodes[i].key == key
  }

  /** The value stored for a key. */
  function Find(nodes: seq<Node>, key: Key): Value {
    if nodes == [] then Nil
    else if nodes[0].key == key then nodes[0].val
    else Find(nodes[1..], key)
  }

  lemma {:induction false} FindAt(nodes: seq<Node>, i: nat)
    requires i < |nodes| && nodes[i].key != NilKey
    requires forall j :: 0 <= j < |nodes| && nodes[j].key == nodes[i].key ==> j == i
    ensures Find(nodes, nodes[i].key) == nodes[i].val
  {
    if i > 0 {
      assert nodes[1..][i - 1] == nodes[i];
      FindAt(nodes[1..], i - 1);
    }
  }

  lemma {:induction false} FindNone(nodes: seq<Node>, key: Key)
    requires forall j :: 0 <= j < |nodes| ==> nodes[j].key != key
    ensures Find(nodes, key) == Nil
  {
    if nodes != [] {
      FindNone(nodes[1..], key);
    }
  }

  lemma StoredFind(nodes: seq<Node>, key: Key)
    requires KeysOk(nodes) && key != NilKey
    ensures forall i :: Used(nodes, i) && nodes[i].key == key ==> Find(nodes, key) == nodes[i].val
    ensures !Stored(nodes, key) ==> Find(nodes, key) == Nil
  {
    forall i | Used(nodes, i) && nodes[i].key == key
      ensures Find(nodes, key) == nodes[i].val
    {
      FindAt(nodes, i);
    }
    if !Stored(nodes, key) {
      forall j | 0 <= j < |nodes|
        ensures nodes[j].key != key
      {
        assert nodes[j].key == key ==> Used(nodes, j);
      }
      FindNone(nodes, key);
    }
  }

  /** Two vectors that hold the same keys with the same values. */
  lemma FindSame(nodes: seq<Node>, nodes': seq<Node>, key: Key)
    requires KeysOk(nodes) && KeysOk(nodes') && key != NilKey
    requires forall i :: Used(nodes, i) && nodes[i].key == key && nodes[i].val != Nil ==>
               exists j :: Used(nodes', j) && nodes'[j].key == key && nodes'[j].val == nodes[i].val
    requires forall j :: Used(nodes', j) && nodes'[j].key == key && nodes'[j].val != Nil ==>
               exists i :: Used(nodes, i) && nodes[i].key == key && nodes[i].val == nodes'[j].val
    ensures Find(nodes, key) == Find(nodes', key)
  {
    StoredFind(nodes, key);
    StoredFind(nodes', key);
  }

  // ---------------------------------------------------------------- the three ways to insert a key

  /** A node whose value is nil, in the main position of the key, is taken over with its links. */
  function TakeOver(nodes: seq<Node>, mp: nat, key: Key): seq<Node>
    requires mp < |nodes|
  {
    nodes[mp := Node(key, nodes[mp].val, nodes[mp].next)]
  }

  function TakeOverOrder(nodes: seq<Node>, o: Order, mp: nat): Order
    requires mp < |nodes| == |o.chain|
  {
    if nodes[mp].key == NilKey then o.(chain := o.chain[mp := o.unused], unused := o.unused + 1) else o
  }

  lemma TakeOverOk(hash: Hash, nodes: seq<Node>, o: Order, lastfree: int, mp: nat, key: Key)
    requires NodesOk(hash, nodes, o, lastfree) && key != NilKey && !Stored(nodes, key)
    requires mp == MainPos(hash, |nodes|, key) && nodes[mp].val == Nil
    ensures NodesOk(hash, TakeOver(nodes, mp, key), TakeOverOrder(nodes, o, mp), lastfree)
  {
    var n', o' := TakeOver(nodes, mp, key), TakeOverOrder(nodes, o, mp);
    TakeOverLinks(nodes, o, mp, key);
    TakeOverMain(hash, nodes, o, mp, key);
    assert forall i :: Used(nodes, i) ==> Used(n', i);
    hide LinksOk, MainOk;
  }

  lemma TakeOverLinks(nodes: seq<Node>, o: Order, mp: nat, key: Key)
    requires Shaped(nodes, o) && KeysOk(nodes) && LinksOk(nodes, o) && mp < |nodes| && key != NilKey
    ensures LinksOk(TakeOver(nodes, mp, key), TakeOverOrder(nodes, o, mp))
  {
    var n', o' := TakeOver(nodes, mp, key), TakeOverOrder(nodes, o, mp);
    forall i
      ensures NextAt(n', o', i)
    {
      assert NextAt(nodes, o, i);
    }
    forall i, x
      ensures GapAt(n', o', i, x) && RankAt(n', o', i, x)
    {
      assert NextAt(nodes, o, i) && GapAt(nodes, o, i, x) && RankAt(nodes, o, i, x);
    }
  }

  lemma TakeOverMain(hash: Hash, nodes: seq<Node>, o: Order, mp: nat, key: Key)
    requires Shaped(nodes, o) && KeysOk(nodes) && MainOk(hash, nodes, o) && key != NilKey
    requires mp == MainPos(hash, |nodes|, key) && (forall i :: 0 <= i < |nodes| ==> o.chain[i] < o.unused)
    ensures MainOk(hash, TakeOver(nodes, mp, key), TakeOverOrder(nodes, o, mp))
  {
    var n', o' := TakeOver(nodes, mp, key), TakeOverOrder(nodes, o, mp);
    forall i | Used(n', i)
      ensures var p := MainPos(hash, |n'|, n'[i].key);
              Used(n', p) && SameChain(o', p, i) && o'.rank[p] <= o'.rank[i] && MainPos(hash, |n'|, n'[p].key) == p
    {
      if i != mp {
        assert Used(nodes, i);
      }
    }
  }

  /** The colliding node, out of its main position, is moved to the free node `n`. */
  function MoveTo(nodes: seq<Node>, prev: nat, mp: nat, n: nat, key: Key): seq<Node>
    requires prev < |nodes| && mp < |nodes| && n < |nodes|
  {
    nodes[prev := nodes[prev].(next := n)][n := nodes[mp]][mp := Node(key, Nil, NULL)]
  }

  function MoveOrder(o: Order, mp: nat, n: nat): Order
    requires |o.rank| == |o.chain| && mp < |o.chain| && n < |o.chain|
  {
    Order(o.chain[n := o.chain[mp]][mp := o.unused], o.rank[n := o.rank[mp]], o.unused + 1)
  }

  ghost predicate MoveCase(hash: Hash, nodes: seq<Node>, prev: nat, mp: nat, n: nat) {
    && Used(nodes, mp) && Used(nodes, prev) && nodes[prev].next == mp && n < |nodes| && nodes[n].key == NilKey
    && MainPos(hash, |nodes|, nodes[mp].key) != mp
  }

  /** Where a node was before the move. */
  function Before(mp: nat, n: nat, i: int): int {
    if i == n then mp else i
  }

  lemma MoveNext(hash: Hash, nodes: seq<Node>, o: Order, prev: nat, mp: nat, n: nat, key: Key, i: int)
    requires Shaped(nodes, o) && KeysOk(nodes) && LinksOk(nodes, o) && MoveCase(hash, nodes, prev, mp, n)
      && key != NilKey
    ensures NextAt(MoveTo(nodes, prev, mp, n, key), MoveOrder(o, mp, n), i)
  {
    var i0 := Before(mp, n, i);
    assert NextAt(nodes, o, i0) && NextAt(nodes, o, prev);
    if Used(nodes, i) && i != prev && nodes[i].next == mp {
      assert GapAt(nodes, o, i, prev) && GapAt(nodes, o, prev, i) && RankAt(nodes, o, i, prev);
    }
  }

  lemma MoveLinks(hash: Hash, nodes: seq<Node>, o: Order, prev: nat, mp: nat, n: nat, key: Key)
    requires Shaped(nodes, o) && KeysOk(nodes) && LinksOk(nodes, o) && MoveCase(hash, nodes, prev, mp, n)
      && key != NilKey
    ensures LinksOk(MoveTo(nodes, prev, mp, n, key), MoveOrder(o, mp, n)) && prev != mp
  {
    var n', o' := MoveTo(nodes, prev, mp, n, key), MoveOrder(o, mp, n);
    assert NextAt(nodes, o, prev);
    forall i
      ensures NextAt(n', o', i)
    {
      MoveNext(hash, nodes, o, prev, mp, n, key, i);
    }
    forall i, x
      ensures GapAt(n', o', i, x) && RankAt(n', o', i, x)
    {
      var i0, x0 := Before(mp, n, i), Before(mp, n, x);
      assert NextAt(nodes, o, i0) && GapAt(nodes, o, i0, x0) && RankAt(nodes, o, i0, x0);
    }
  }

  lemma MoveMain(hash: Hash, nodes: seq<Node>, o: Order, prev: nat, mp: nat, n: nat, key: Key)
    requires Shaped(nodes, o) && KeysOk(nodes) && MainOk(hash, nodes, o) && MoveCase(hash, nodes, prev, mp, n)
      && key != NilKey
    requires mp == MainPos(hash, |nodes|, key) && prev != mp
    ensures MainOk(hash, MoveTo(nodes, prev, mp, n, key), MoveOrder(o, mp, n))
  {
    var n', o' := MoveTo(nodes, prev, mp, n, key), MoveOrder(o, mp, n);
    forall i | Used(n', i)
      ensures var p := MainPos(hash, |n'|, n'[i].key);
              Used(n', p) && SameChain(o', p, i) && o'.rank[p] <= o'.rank[i] && MainPos(hash, |n'|, n'[p].key) == p
    {
      if i != mp {
        var i0 := if i == n then mp else i;
        assert Used(nodes, i0) && nodes[i0].key == n'[i].key;
        var p := MainPos(hash, |nodes|, nodes[i0].key);
        assert p != mp && p != n;
      }
    }
  }

  lemma MoveOk(hash: Hash, nodes: seq<Node>, o: Order, lastfree: int, prev: nat, mp: nat, n: nat, key: Key)
    requires NodesOk(hash, nodes, o, n + 1) && MoveCase(hash, nodes, prev, mp, n) && key != NilKey
      && !Stored(nodes, key)
    requires mp == MainPos(hash, |nodes|, key)
    ensures NodesOk(hash, MoveTo(nodes, prev, mp, n, key), MoveOrder(o, mp, n), n)
  {
    var n' := MoveTo(nodes, prev, mp, n, key);
    MoveLinks(hash, nodes, o, prev, mp, n, key);
    MoveMain(hash, nodes, o, prev, mp, n, key);
    assert forall i :: Used(nodes, i) ==> Used(n', i);
    hide LinksOk, MainOk;
    MoveKeys(hash, nodes, prev, mp, n, key);
  }

  lemma MoveKeys(hash: Hash, nodes: seq<Node>, prev: nat, mp: nat, n: nat, key: Key)
    requires |nodes| > 0 && KeysOk(nodes) && MoveCase(hash, nodes, prev, mp, n) && key != NilKey && !Stored(nodes, key)
      && prev != mp
    ensures KeysOk(MoveTo(nodes, prev, mp, n, key))
  {
    var n' := MoveTo(nodes, prev, mp, n, key);
    assert forall x :: Used(nodes, x) ==> nodes[x].key != key;
    assert forall i :: Used(n', i) && i != mp ==> Used(nodes, Before(mp, n, i))
                                                  && nodes[Before(mp, n, i)].key == n'[i].key;
  }

  /** The colliding node is in its main position: the free node `n` joins its chain after it. */
  function InsertAfter(nodes: seq<Node>, mp: nat, n: nat, key: Key): seq<Node>
    requires mp < |nodes| && n < |nodes|
  {
    nodes[n := Node(key, Nil, nodes[mp].next)][mp := nodes[mp].(next := n)]
  }

  function InsertOrder(nodes: seq<Node>, o: Order, mp: nat, n: nat): Order
    requires Shaped(nodes, o) && mp < |nodes| && n < |nodes|
  {
    var next := nodes[mp].next;
    var r := if 0 <= next < |nodes| then (o.rank[mp] + o.rank[next]) / 2.0 else o.rank[mp] + 1.0;
    Order(o.chain[n := o.chain[mp]], o.rank[n := r], o.unused)
  }

  lemma InsertNext(nodes: seq<Node>, o: Order, mp: nat, n: nat, key: Key, i: int)
    requires Shaped(nodes, o) && KeysOk(nodes) && LinksOk(nodes, o) && Used(nodes, mp) && n < |nodes|
      && nodes[n].key == NilKey && key != NilKey
    ensures NextAt(InsertAfter(nodes, mp, n, key), InsertOrder(nodes, o, mp, n), i)
  {
    assert NextAt(nodes, o, i) && NextAt(nodes, o, mp);
  }

  lemma InsertGap(nodes: seq<Node>, o: Order, mp: nat, n: nat, key: Key, i: int, x: int)
    requires Shaped(nodes, o) && KeysOk(nodes) && LinksOk(nodes, o) && Used(nodes, mp) && n < |nodes|
      && nodes[n].key == NilKey && key != NilKey
    ensures GapAt(InsertAfter(nodes, mp, n, key), InsertOrder(nodes, o, mp, n), i, x)
    ensures RankAt(InsertAfter(nodes, mp, n, key), InsertOrder(nodes, o, mp, n), i, x)
  {
    assert NextAt(nodes, o, i) && NextAt(nodes, o, mp);
    var i0, x0 := Before(mp, n, i), Before(mp, n, x);
    assert GapAt(nodes, o, i0, x0) && RankAt(nodes, o, i0, x0);
    assert GapAt(nodes, o, mp, x0) && GapAt(nodes, o, mp, i0) && RankAt(nodes, o, mp, x0);
  }

  lemma InsertLinks(nodes: seq<Node>, o: Order, mp: nat, n: nat, key: Key)
    requires Shaped(nodes, o) && KeysOk(nodes) && LinksOk(nodes, o) && Used(nodes, mp) && n < |nodes|
      && nodes[n].key == NilKey && key != NilKey
    ensures LinksOk(InsertAfter(nodes, mp, n, key), InsertOrder(nodes, o, mp, n))
  {
    var n', o' := InsertAfter(nodes, mp, n, key), InsertOrder(nodes, o, mp, n);
    forall i
      ensures NextAt(n', o', i)
    {
      InsertNext(nodes, o, mp, n, key, i);
    }
    forall i, x
      ensures GapAt(n', o', i, x) && RankAt(n', o', i, x)
    {
      InsertGap(nodes, o, mp, n, key, i, x);
    }
  }

  lemma InsertMain(hash: Hash, nodes: seq<Node>, o: Order, mp: nat, n: nat, key: Key)
    requires Shaped(nodes, o) && KeysOk(nodes) && LinksOk(nodes, o) && MainOk(hash, nodes, o)
    requires Used(nodes, mp) && n < |nodes| && nodes[n].key == NilKey && key != NilKey
    requires mp == MainPos(hash, |nodes|, key) && MainPos(hash, |nodes|, nodes[mp].key) == mp
    ensures MainOk(hash, InsertAfter(nodes, mp, n, key), InsertOrder(nodes, o, mp, n))
  {
    var n', o' := InsertAfter(nodes, mp, n, key), InsertOrder(nodes, o, mp, n);
    assert NextAt(nodes, o, mp);
    forall i | Used(n', i)
      ensures var p := MainPos(hash, |n'|, n'[i].key);
              Used(n', p) && SameChain(o', p, i) && o'.rank[p] <= o'.rank[i] && MainPos(hash, |n'|, n'[p].key) == p
    {
      if i != n {
        assert Used(nodes, i) && nodes[i].key == n'[i].key;
        assert MainPos(hash, |nodes|, nodes[i].key) != n;
      }
    }
  }

  lemma InsertKeys(nodes: seq<Node>, mp: nat, n: nat, key: Key)
    requires KeysOk(nodes) && Used(nodes, mp) && n < |nodes| && nodes[n].key == NilKey && key != NilKey
      && !Stored(nodes, key)
    ensures KeysOk(InsertAfter(nodes, mp, n, key))
  {
    var n' := InsertAfter(nodes, mp, n, key);
    forall i, j | Used(n', i) && Used(n', j) && n'[i].key == n'[j].key
      ensures i == j
    {
      if i != n {
        assert Used(nodes, i);
      }
      if j != n {
        assert Used(nodes, j);
      }
    }
  }

  lemma InsertOk(hash: Hash, nodes: seq<Node>, o: Order, mp: nat, n: nat, key: Key)
    requires NodesOk(hash, nodes, o, n + 1) && Used(nodes, mp) && n < |nodes| && nodes[n].key == NilKey && key != NilKey
      && !Stored(nodes, key)
    requires mp == MainPos(hash, |nodes|, key) && MainPos(hash, |nodes|, nodes[mp].key) == mp
    ensures NodesOk(hash, InsertAfter(nodes, mp, n, key), InsertOrder(nodes, o, mp, n), n)
  {
    InsertLinks(nodes, o, mp, n, key);
    InsertMain(hash, nodes, o, mp, n, key);
    InsertKeys(nodes, mp, n, key);
    assert forall i :: Used(nodes, i) ==> Used(InsertAfter(nodes, mp, n, key), i);
    hide LinksOk, MainOk, KeysOk;
  }
}

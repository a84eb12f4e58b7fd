/** What rehash counts: the integer keys of a table, and the keys that its hash part must hold. */
module TblCount {
  import opened TblNodes
  import opened TblSizes
  import opened TblTable

  predicate InArr(arr: seq<Value>, i: int) {
    1 <= i <= |arr| && arr[i - 1] != Nil
  }

  /** The array indices up to `n` that hold a value. */
  ghost function ArrKeys(arr: seq<Value>, n: nat): set<int>
    requires n <= |arr|
  {
    set i: int | 1 <= i <= n && InArr(arr, i)
  }

  ghost function LiveKeys(nodes: seq<Node>, from: nat): set<Key> {
    set j | from <= j < |nodes| && nodes[j].val != Nil :: nodes[j].key
  }

  /** The integer keys that may live in an array part. */
  ghost function IntsOf(ks: set<Key>): set<int> {
    set k | k in ks && k.IntKey? && 0 < k.i <= MAXASIZE :: k.i
  }

  /** The keys that do not go to an array part of size `n`. */
  ghost function HashPart(ks: set<Key>, n: nat): set<Key> {
    set k | k in ks && !InRange(n, k)
  }

  lemma MaxIsPow2()
    ensures Pow2(MAXBITS) == MAXASIZE
  {
    Pow2Values();
    Pow2Add(8, 8);
    Pow2Add(16, 8);
    Pow2Add(24, 2);
  }

  lemma AddSlice(nums: seq<nat>, s: set<int>, t: set<int>, lg: nat)
    requires Counts(nums, s) && s !! t && lg <= MAXBITS && forall k :: k in t ==> InSlice(k, lg)
    ensures Counts(nums[lg := nums[lg] + |t|], s + t)
  {
    Pow2Grows(lg, MAXBITS);
    forall j | 0 <= j < |nums|
      ensures nums[lg := nums[lg] + |t|][j] == |Slice(s + t, j)|
    {
      if j == lg {
        assert Slice(s + t, j) == Slice(s, j) + t;
      } else {
        forall k | k in t
          ensures !InSlice(k, j)
        {
          if InSlice(k, j) {
            SliceUnique(k, j, lg);
          }
        }
        assert Slice(s + t, j) == Slice(s, j);
      }
    }
    hide InSlice;
  }

  lemma IntsAdd(ks: set<Key>, key: Key)
    requires key !in ks
    ensures var one := key.IntKey? && 0 < key.i <= MAXASIZE;
            IntsOf(ks + {key}) == (if one then IntsOf(ks) + {key.i} else IntsOf(ks)) && (one ==> key.i !in IntsOf(ks))
  {
    assert forall k: Key :: k.IntKey? ==> k == IntKey(k.i);
  }

  lemma LiveStep(nodes: seq<Node>, i: nat)
    requires KeysOk(nodes) && i < |nodes|
    ensures LiveKeys(nodes, i) == if nodes[i].val != Nil then LiveKeys(nodes, i + 1) + {nodes[i].key}
      else LiveKeys(nodes, i + 1)
    ensures nodes[i].val != Nil ==> nodes[i].key !in LiveKeys(nodes, i + 1)
  {
    assert forall j :: 0 <= j < |nodes| && nodes[j].val != Nil ==> Used(nodes, j);
  }

  ghost function AsKeys(s: set<int>): set<Key> {
    set i | i in s :: IntKey(i)
  }

  lemma {:induction false} AsKeysSize(s: set<int>)
    ensures |AsKeys(s)| == |s|
    decreases |s|
  {
    if s != {} {
      var i := Member(s);
      var rest := s - {i};
      AsKeysSize(rest);
      assert s == rest + {i};
      assert IntKey(i) !in AsKeys(rest);
      assert AsKeys(s) == AsKeys(rest) + {IntKey(i)};
    } else {
      assert AsKeys(s) == {};
    }
  }

  /** The fields of a table are those of its two parts. */
  lemma KeysSplit(arr: seq<Value>, nodes: seq<Node>, m: Map)
    requires KeysOk(nodes) && Holds(arr, nodes, m) && |arr| <= MAXASIZE
    ensures |m.Keys| == |ArrKeys(arr, |arr|)| + |LiveKeys(nodes, 0)|
    ensures IntsOf(m.Keys) == ArrKeys(arr, |arr|) + IntsOf(LiveKeys(nodes, 0))
    ensures ArrKeys(arr, |arr|) !! IntsOf(LiveKeys(nodes, 0))
  {
    var s := ArrKeys(arr, |arr|);
    var ak, live := AsKeys(s), LiveKeys(nodes, 0);
    AsKeysSize(s);
    forall key
      ensures (key in m.Keys <==> key in ak || key in live) && !(key in ak && key in live)
    {
      KeySplit(arr, nodes, m, key);
    }
    hide Holds, KeysOk, LiveKeys;
    assert m.Keys == ak + live && ak !! live;
    IntsSplit(m.Keys, s, live);
  }

  lemma IntsSplit(ks: set<Key>, s: set<int>, live: set<Key>)
    requires ks == AsKeys(s) + live && AsKeys(s) !! live && forall i :: i in s ==> 0 < i <= MAXASIZE
    ensures IntsOf(ks) == s + IntsOf(live) && s !! IntsOf(live)
  {
    forall i
      ensures i in IntsOf(ks) <==> i in s || i in IntsOf(live)
      ensures !(i in s && i in IntsOf(live))
    {
      assert i in s <==> IntKey(i) in AsKeys(s);
      assert i in IntsOf(ks) <==> IntKey(i) in ks && 0 < i <= MAXASIZE;
      assert i in IntsOf(live) <==> IntKey(i) in live && 0 < i <= MAXASIZE;
    }
  }

  lemma KeySplit(arr: seq<Value>, nodes: seq<Node>, m: Map, key: Key)
    requires KeysOk(nodes) && Holds(arr, nodes, m)
    ensures key in m.Keys <==> key in AsKeys(ArrKeys(arr, |arr|)) || key in LiveKeys(nodes, 0)
    ensures key in AsKeys(ArrKeys(arr, |arr|)) ==> key !in LiveKeys(nodes, 0)
  {
    var inHash := key in LiveKeys(nodes, 0);
    if inHash {
      var j :| 0 <= j < |nodes| && nodes[j].val != Nil && nodes[j].key == key;
      assert Used(nodes, j);
    }
    if key == NilKey {
      assert key !in m;
    } else {
      assert At(arr, nodes, key) == MapAt(m, key);
      StoredFind(nodes, key);
      if !InRange(|arr|, key) && Stored(nodes, key) {
        var j :| Used(nodes, j) && nodes[j].key == key;
      }
      if InRange(|arr|, key) {
        assert arr[key.i - 1] != Nil <==> key.i in ArrKeys(arr, |arr|);
      }
    }
  }

  /** What does not go to the array part is the rest. */
  lemma HashPartSize(ks: set<Key>, n: nat)
    requires n <= MAXASIZE
    ensures |HashPart(ks, n)| == |ks| - Below(IntsOf(ks), n)
  {
    var low := set i | i in IntsOf(ks) && i <= n;
    AsKeysSize(low);
    forall k
      ensures k in ks && InRange(n, k) <==> k in AsKeys(low)
    {
      if k in ks && InRange(n, k) {
        assert k.i in IntsOf(ks);
        assert k.i in low;
      }
      if k in AsKeys(low) {
        var i :| i in low && k == IntKey(i);
        var k' :| k' in ks && k'.IntKey? && 0 < k'.i <= MAXASIZE && k'.i == i;
        assert k' == k;
      }
    }
    assert ks == HashPart(ks, n) + AsKeys(low);
    assert HashPart(ks, n) !! AsKeys(low);
  }

}

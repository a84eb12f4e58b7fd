/** A table as it runs: the node vector, its links and the free pointer are changed in place. */
module TblClass {
  import opened Wrappers
  import opened TblNodes
  import opened TblSizes
  import opened TblTable
  import opened TblCount
  import opened TblResize

  class Table {
    const hash: Hash
    var arr: seq<Value>
    var nodes: seq<Node>
    var lsizenode: nat
    var dummy: bool
    var lastfree: int
    ghost var o: Order
    ghost var m: Map

    ghost predicate Valid()
      reads this
    {
      && NodesOk(hash, nodes, o, if dummy then |nodes| else lastfree) && Holds(arr, nodes, m)
      && |nodes| == Pow2(lsizenode) && lsizenode <= MAXBITS && |arr| <= MAXASIZE
      && (dummy ==> nodes == EmptyNodes(1) && lastfree <= 0)
    }

    /** luaH_new, for an empty table */
    constructor (hash: Hash)
      ensures Valid() && m == map[] && this.hash == hash && arr == [] && dummy
    {
      this.hash := hash;
      arr := [];
      nodes := EmptyNodes(1);
      lsizenode := 0;
      dummy := true;
      lastfree := 0;
      o := Order([0], [0.0], 1);
      m := map[];
      new;
      EmptyOk(hash, 1);
      assert nodes[0] == Node(NilKey, Nil, NULL);
    }

    // -------------------------------------------------------------- looking up

    /** There is a place for the value of this key already. */
    ghost predicate HasSlot(key: Key)
      reads this
    {
      InRange(|arr|, key) || (key != NilKey && Stored(nodes, key))
    }

    /** Walk the chain of a key. */
    method FindNode(key: Key) returns (n: int)
      requires Valid() && key != NilKey
      ensures if n == NULL then !Stored(nodes, key) else Used(nodes, n) && nodes[n].key == key
    {
      var mp := MainPos(hash, |nodes|, key);
      n := mp;
      ghost var ahead := SetAhead(o, n);
      while n != NULL
        invariant n != NULL ==> 0 <= n < |nodes| && (n == mp || Used(nodes, n)) && SameChain(o, mp, n)
                                && o.rank[mp] <= o.rank[n]
        invariant forall x :: Used(nodes, x) && nodes[x].key == key ==>
                    n != NULL && Used(nodes, n) && SameChain(o, n, x) && o.rank[n] <= o.rank[x]
        invariant n != NULL ==> ahead == SetAhead(o, n)
        decreases n != NULL, ahead
      {
        if nodes[n].key == key {
          return;
        }
        ChainStep(nodes, o, n);
        ghost var n0 := n;
        n := nodes[n].next;
        if n != NULL {
          ahead := SetAhead(o, n);
        }
      }
    }

    method GetSlot(key: Key) returns (found: bool, slot: Slot)
      requires Valid()
      ensures found ==> SlotOf(slot, key)
      ensures !found ==> (key != NilKey ==> !Stored(nodes, key)) && !InRange(|arr|, key)
    {
      slot := InArray(0);
      if key.IntKey? && 1 <= key.i <= |arr| {
        return true, InArray(key.i - 1);
      }
      if key == NilKey {
        return false, slot;
      }
      var n := FindNode(key);
      if n == NULL {
        return false, slot;
      }
      return true, InNode(n);
    }

    ghost predicate SlotOf(slot: Slot, key: Key)
      reads this
    {
      match slot
      case InArray(i) => InRange(|arr|, key) && i == key.i - 1
      case InNode(n) => Used(nodes, n) && nodes[n].key == key && !InRange(|arr|, key)
    }

    /** luaH_get: the value of the field, nil if there is none */
    method Get(key: Key) returns (v: Value)
      requires Valid()
      ensures v == MapAt(m, key)
    {
      assert key == NilKey ==> key !in m;
      var found, slot := GetSlot(key);
      if key != NilKey {
        assert At(arr, nodes, key) == MapAt(m, key);
        StoredFind(nodes, key);
      }
      if !found {
        return Nil;
      }
      match slot {
        case InArray(i) => v := arr[i];
        case InNode(n) => v := nodes[n].val;
      }
    }

    // -------------------------------------------------------------- inserting

    method GetFreePos() returns (n: int)
      requires Valid()
      modifies this`lastfree
      ensures n == NULL ==> Valid() && forall i :: 0 <= i < |nodes| ==> Used(nodes, i) || dummy
      ensures n != NULL ==> 0 <= n < |nodes| && nodes[n].key == NilKey && lastfree == n && !dummy
                            && NodesOk(hash, nodes, o, n + 1)
    {
      while true
        invariant (!dummy ==> FreeOk(nodes, lastfree)) && (dummy ==> lastfree <= 0)
        decreases lastfree
      {
        lastfree := lastfree - 1;
        if !(lastfree + 1 > 0) {
          return NULL;
        }
        if nodes[lastfree].key == NilKey {
          return lastfree;
        }
      }
    }

    /** The node before `mp` in its chain, searched from the main position of its key. */
    method FindPrevious(mp: nat) returns (othern: nat)
      requires NodesOk(hash, nodes, o, |nodes|) && Used(nodes, mp) && MainPos(hash, |nodes|, nodes[mp].key) != mp
      ensures Used(nodes, othern) && nodes[othern].next == mp
    {
      othern := MainPos(hash, |nodes|, nodes[mp].key);
      assert RankAt(nodes, o, othern, mp) && GapAt(nodes, o, othern, mp) && NextAt(nodes, o, othern);
      while nodes[othern].next != mp
        invariant Used(nodes, othern) && SameChain(o, othern, mp) && o.rank[othern] < o.rank[mp]
          && nodes[othern].next != NULL
        invariant Used(nodes, nodes[othern].next) && o.rank[nodes[othern].next] <= o.rank[mp]
        decreases SetAhead(o, othern)
      {
        var next := nodes[othern].next;
        assert NextAt(nodes, o, othern);
        AheadShrinks(o, othern, next);
        assert RankAt(nodes, o, next, mp) && GapAt(nodes, o, next, mp) && NextAt(nodes, o, next);
        othern := next;
      }
    }

    /** The part of newkey that needs no larger table; `ok` tells whether there was room. */
    method InsertKey(key: Key) returns (ok: bool, mp: nat)
      requires Valid() && key != NilKey && !Stored(nodes, key) && !InRange(|arr|, key)
      modifies this`nodes, this`lastfree, this`o
      ensures Valid() && |nodes| == |old(nodes)|
      ensures ok ==> SlotOf(InNode(mp), key) && UsedKeys(nodes) <= UsedKeys(old(nodes)) + {key} && !dummy
      ensures !ok ==> nodes == old(nodes) && (dummy || forall i :: 0 <= i < |nodes| ==> Used(nodes, i))
    {
      mp := MainPos(hash, |nodes|, key);
      if nodes[mp].val != Nil || dummy {
        var n := GetFreePos();
        if n == NULL {
          return false, mp;
        }
        UsedVal(nodes, mp);
        var othern := MainPos(hash, |nodes|, nodes[mp].key);
        if othern != mp {
          othern := FindPrevious(mp);
          PreviousNot(nodes, o, othern, mp);
          MoveOk(hash, nodes, o, lastfree, othern, mp, n, key);
          MoveHolds(arr, nodes, m, hash, othern, mp, n, key);
          o := MoveOrder(o, mp, n);
          nodes := MoveTo(nodes, othern, mp, n, key);
        } else {
          InsertOk(hash, nodes, o, mp, n, key);
          InsertHolds(arr, nodes, m, mp, n, key);
          o := InsertOrder(nodes, o, mp, n);
          nodes := InsertAfter(nodes, mp, n, key);
          mp := n;
        }
      } else {
        TakeOverOk(hash, nodes, o, lastfree, mp, key);
        TakeOverHolds(arr, nodes, m, mp, key);
        o := TakeOverOrder(nodes, o, mp);
        nodes := TakeOver(nodes, mp, key);
      }
      return true, mp;
    }

    method Assign(slot: Slot, key: Key, v: Value)
      requires Valid() && SlotOf(slot, key) && key != NilKey
      modifies this`arr, this`nodes, this`m
      ensures Valid() && m == Put(old(m), key, v) && |arr| == |old(arr)| && |nodes| == |old(nodes)|
        && UsedKeys(nodes) == UsedKeys(old(nodes))
      ensures forall i :: 0 <= i < |nodes| ==> nodes[i].key == old(nodes)[i].key
    {
      match slot {
        case InArray(i) =>
          ArrayHolds(arr, nodes, m, i, v);
          arr := arr[i := v];
        case InNode(n) =>
          AssignHolds(hash, arr, nodes, o, if dummy then |nodes| else lastfree, m, n, v);
          assert !dummy;
          nodes := nodes[n := nodes[n].(val := v)];
      }
      m := Put(m, key, v);
    }

    // -------------------------------------------------------------- counting

    /** countint */
    method CountInt(key: Key, nums: array<nat>, ghost s: set<int>) returns (one: bool)
      requires nums.Length == MAXBITS + 1 && Counts(nums[..], s)
        && (key.IntKey? && 0 < key.i <= MAXASIZE ==> key.i !in s)
      modifies nums
      ensures one <==> key.IntKey? && 0 < key.i <= MAXASIZE
      ensures Counts(nums[..], if key.IntKey? && 0 < key.i <= MAXASIZE then s + {key.i} else s)
    {
      if key.IntKey? && 0 < key.i <= MAXASIZE {
        MaxIsPow2();
        var lg := CeilLog2(key.i);
        if lg > MAXBITS {
          Pow2Grows(MAXBITS, lg - 1);
        }
        CountOne(nums[..], s, key.i, lg);
        ghost var old' := nums[..];
        nums[lg] := nums[lg] + 1;
        assert nums[..] == old'[lg := old'[lg] + 1];
        return true;
      }
      return false;
    }

    /** "count elements in range" */
    method CountSlots(from: nat, lim: nat) returns (lc: nat)
      requires 1 <= from <= lim + 1 && lim <= |arr|
      ensures lc == |SliceKeys(arr, from - 1, lim)|
    {
      lc := 0;
      var i := from;
      assert SliceKeys(arr, from - 1, from - 1) == {};
      while i <= lim
        invariant from <= i <= lim + 1 && lc == |SliceKeys(arr, from - 1, i - 1)|
      {
        NextKey(arr, from - 1, i);
        if arr[i - 1] != Nil {
          lc := lc + 1;
        }
        i := i + 1;
      }
    }

    /** numusearray */
    method NumUseArray(nums: array<nat>) returns (ause: nat)
      requires Valid() && nums.Length == MAXBITS + 1 && Counts(nums[..], {})
      modifies nums
      ensures Counts(nums[..], ArrKeys(arr, |arr|)) && ause == |ArrKeys(arr, |arr|)|
    {
      var size := |arr|;
      assert size <= MAXASIZE;
      MaxIsPow2();
      hide *;
      var lg: nat, ttlg: nat, i: nat := 0, 1, 1;
      ause := 0;
      SliceStart(arr);
      while lg <= MAXBITS
        invariant Slicing(size, lg, ttlg, i)
        invariant Counts(nums[..], ArrKeys(arr, i - 1)) && ause == |ArrKeys(arr, i - 1)|
      {
        var lim := ttlg;
        if lim > size {
          lim := size;
          if i > lim {
            break;
          }
        }
        SlicingStep(size, lg, ttlg, i, lim);
        var lc := CountSlots(i, lim);
        ghost var was := nums[..];
        SliceCounted(arr, was, lg, i, lim, lc);
        nums[lg] := nums[lg] + lc;
        assert nums[..] == was[lg := was[lg] + lc];
        ause := ause + lc;
        i := lim + 1;
        lg, ttlg := lg + 1, ttlg * 2;
      }
      SlicingDone(size, lg, ttlg, i);
    }

    /** numusehash */
    method NumUseHash(nums: array<nat>, ghost s: set<int>) returns (totaluse: nat, ause: nat)
      requires Valid() && nums.Length == MAXBITS + 1 && Counts(nums[..], s) && s !! IntsOf(LiveKeys(nodes, 0))
      modifies nums
      ensures totaluse == |LiveKeys(nodes, 0)| && ause == |IntsOf(LiveKeys(nodes, 0))|
      ensures Counts(nums[..], s + IntsOf(LiveKeys(nodes, 0)))
    {
      hide NodesOk, Holds, Counts, LiveKeys, IntsOf;
      totaluse, ause := 0, 0;
      var i := |nodes|;
      ghost var n0 := nodes;
      NodesKeys(hash, nodes, o, if dummy then |nodes| else lastfree);
      NoneLive(nodes);
      assert s + {} == s;
      while i > 0
        invariant 0 <= i <= |n0| && nodes == n0
        invariant totaluse == |LiveKeys(n0, i)| && ause == |IntsOf(LiveKeys(n0, i))|
        invariant Counts(nums[..], s + IntsOf(LiveKeys(n0, i)))
      {
        i := i - 1;
        LiveStep(n0, i);
        if nodes[i].val != Nil {
          ghost var ints := IntsOf(LiveKeys(n0, i + 1));
          IntsAdd(LiveKeys(n0, i + 1), nodes[i].key);
          IntNew(n0, i, s);
          var one := CountInt(nodes[i].key, nums, s + ints);
          if one {
            ause := ause + 1;
            assert s + ints + {nodes[i].key.i} == s + (ints + {nodes[i].key.i});
          }
          totaluse := totaluse + 1;
        }
      }
    }

    // -------------------------------------------------------------- resizing

    /** setnodevector */
    method SetNodeVector(size: nat) returns (r: Result<(), Error>)
      modifies this`nodes, this`lsizenode, this`dummy, this`lastfree, this`o
      ensures r.Fail? <==> size > Pow2(MAXBITS)
      ensures r.Fail? ==> r.error == TableOverflow
      ensures r.Ok? ==> nodes == EmptyNodes(Pow2(lsizenode)) && lsizenode <= MAXBITS && |nodes| >= size
                        && (dummy <==> size == 0) && (dummy ==> lsizenode == 0 && lastfree <= 0)
                        && NodesOk(hash, nodes, o, if dummy then |nodes| else lastfree)
    {
      hide *;
      var lsize: nat := 0;
      Pow2Grows(0, MAXBITS);
      if size > 0 {
        lsize := CeilLog2(size);
        if lsize > MAXBITS {
          Pow2Grows(MAXBITS, lsize - 1);
          return Fail(TableOverflow);
        }
        Pow2Grows(lsize, MAXBITS);
      }
      var n := Pow2(lsize);
      EmptyOk(hash, n);
      EmptyLength(n);
      nodes := EmptyNodes(n);
      lsizenode := lsize;
      dummy := size == 0;
      lastfree := if size == 0 then 0 else n;
      o := Order(seq(n, _ => 0), seq(n, _ => 0.0), 1);
      return Ok(());
    }

    /** There is room for a key that is not in the table. */
    ghost predicate Room(key: Key)
      reads this
    {
      InRange(|arr|, key) || (!dummy && |UsedKeys(nodes)| < |nodes|)
    }

    /** All that resize keeps while it puts the fields of `m0` back. */
    ghost predicate Rebuilding(m0: Map, nasize: nat, nhsize: nat)
      reads this
    {
      && Valid() && |arr| == nasize && |nodes| >= nhsize && (dummy <==> nhsize == 0)
      && UsedKeys(nodes) <= HashPart(m.Keys, nasize) && m.Keys <= m0.Keys
      && |HashPart(m0.Keys, nasize)| <= nhsize
    }

    /** One re-insertion: it finds room, so it does not rehash. */
    method Reinsert(key: Key, v: Value, ghost m0: Map, ghost nasize: nat, ghost nhsize: nat)
      requires Rebuilding(m0, nasize, nhsize) && key in m0 && key !in m && v != Nil && key != NilKey
      modifies this
      ensures Rebuilding(m0, nasize, nhsize) && m == old(m)[key := v]
      decreases true, 0, 0
    {
      hide NodesOk, Holds;
      if !InRange(nasize, key) {
        RoomLeft(UsedKeys(nodes), m.Keys, m0.Keys, key, nasize);
      }
      ghost var used, m1 := UsedKeys(nodes), m;
      var r := SetSlot(key, false);
      Assign(r.value, key, v);
      KeysAfter(m1, key, v);
      assert UsedKeys(nodes) <= HashPart(m.Keys, nasize) by {
        HashPartAdd(m1.Keys, key, nasize);
      }
    }

    /** "re-insert elements from vanishing slice" */
    method ReinsertSlice(oldarr: seq<Value>, ghost nold: seq<Node>, nasize: nat, ghost nhsize: nat, ghost m0: Map)
      requires Holds(oldarr, nold, m0) && nasize <= |oldarr| && Rebuilding(m0, nasize, nhsize) && m == UpTo(m0, nasize)
      modifies this
      ensures Rebuilding(m0, nasize, nhsize) && m == UpTo(m0, |oldarr|)
      decreases true, 0, 1
    {
      hide *;
      var i := nasize;
      while i < |oldarr|
        invariant nasize <= i <= |oldarr| && Rebuilding(m0, nasize, nhsize) && m == UpTo(m0, i)
      {
        UpToStep(oldarr, nold, m0, i);
        if oldarr[i] != Nil {
          Reinsert(IntKey(i + 1), oldarr[i], m0, nasize, nhsize);
        }
        i := i + 1;
      }
    }

    /** "re-insert elements from hash part" */
    method ReinsertNodes(ghost oldarr: seq<Value>, nold: seq<Node>, ghost nasize: nat, ghost nhsize: nat, ghost m0: Map)
      requires Holds(oldarr, nold, m0) && KeysOk(nold) && Rebuilding(m0, nasize, nhsize) && m == UpTo(m0, |oldarr|)
      modifies this
      ensures Rebuilding(m0, nasize, nhsize) && m == m0
      decreases true, 0, 1
    {
      hide *;
      RebuiltNone(m0, |oldarr|, nold);
      var i := |nold|;
      while i > 0
        invariant 0 <= i <= |nold| && Rebuilding(m0, nasize, nhsize) && m == Rebuilt(m0, |oldarr|, nold, i)
      {
        i := i - 1;
        RebuiltStep(oldarr, nold, m0, i);
        if nold[i].val != Nil {
          Reinsert(nold[i].key, nold[i].val, m0, nasize, nhsize);
        }
      }
      RebuiltAll(oldarr, nold, m0);
    }

    /** The node vector is new and empty: only fields of the array part are in the table. */
    lemma Restart(oldarr: seq<Value>, nold: seq<Node>, nasize: nat, nhsize: nat, m0: Map)
      requires Holds(oldarr, nold, m0) && nasize <= MAXASIZE && |HashPart(m0.Keys, nasize)| <= nhsize
      requires nodes == EmptyNodes(Pow2(lsizenode)) && lsizenode <= MAXBITS && |nodes| >= nhsize
      requires (dummy <==> nhsize == 0) && (dummy ==> lsizenode == 0 && lastfree <= 0)
      requires NodesOk(hash, nodes, o, if dummy then |nodes| else lastfree)
      requires arr == Resized(oldarr, nasize) && m == UpTo(m0, if nasize <= |oldarr| then nasize else |oldarr|)
      ensures Rebuilding(m0, nasize, nhsize)
    {
      ResizedHolds(oldarr, nold, m0, nasize, |nodes|);
      NoKeys(|nodes|);
      hide NodesOk, Holds, EmptyNodes, HashPart, UsedKeys;
      assert Pow2(0) == 1;
    }

    /** resize */
    method Resize(nasize: nat, nhsize: nat) returns (r: Result<(), Error>)
      requires Valid() && nasize <= MAXASIZE && |HashPart(m.Keys, nasize)| <= nhsize
      modifies this
      ensures r.Fail? <==> nhsize > Pow2(MAXBITS)
      ensures r.Fail? ==> r.error == TableOverflow
      ensures r.Ok? ==> m == old(m) && Rebuilding(m, nasize, nhsize)
      decreases true, 0, 2
    {
      hide *;
      var oldarr, nold := arr, nodes;
      ghost var m0 := m;
      ValidParts();
      if nasize > |oldarr| {
        arr := oldarr + Nils(nasize - |oldarr|);
      }
      r := SetNodeVector(nhsize);
      if r.Fail? {
        return;
      }
      ResizedIs(oldarr, nasize);
      if nasize < |oldarr| {
        arr := oldarr[..nasize];
        m := UpTo(m0, nasize);
        Restart(oldarr, nold, nasize, nhsize, m0);
        ReinsertSlice(oldarr, nold, nasize, nhsize, m0);
      } else {
        m := UpTo(m0, |oldarr|);
        Restart(oldarr, nold, nasize, nhsize, m0);
      }
      ReinsertNodes(oldarr, nold, nasize, nhsize, m0);
      r := Ok(());
    }

    lemma ValidParts()
      requires Valid()
      ensures Holds(arr, nodes, m) && KeysOk(nodes)
    {
    }

    /** After the re-insertion there is room for the pending key. */
    lemma PendingRoom(ek: Key, nasize: nat, nhsize: nat)
      requires Rebuilding(m, nasize, nhsize) && ek !in m && nhsize == |HashPart(m.Keys + {ek}, nasize)|
      ensures Valid() && |arr| == nasize && Room(ek)
    {
      hide Valid, HashPart, UsedKeys;
      if !InRange(nasize, ek) {
        RoomLeft(UsedKeys(nodes), m.Keys, m.Keys + {ek}, ek, nasize);
      }
    }

    /** The counting in rehash: the keys in use, with the pending one. */
    method CountKeys(ek: Key, nums: array<nat>) returns (nasize: nat, totaluse: nat)
      requires Valid() && ek != NilKey && ek !in m && nums.Length == MAXBITS + 1 && Counts(nums[..], {})
      modifies nums
      ensures Counts(nums[..], IntsOf(m.Keys + {ek})) && nasize == |IntsOf(m.Keys + {ek})| && totaluse == |m.Keys| + 1
    {
      hide *;
      ghost var s, live := ArrKeys(arr, |arr|), LiveKeys(nodes, 0);
      FieldsSplit();
      nasize := NumUseArray(nums);
      totaluse := nasize;
      var use, ause := NumUseHash(nums, s);
      totaluse := totaluse + use;
      nasize := nasize + ause;
      IntsAdd(m.Keys, ek);
      assert |s + IntsOf(live)| == |s| + |IntsOf(live)|;
      PendingNew(m.Keys, ek);
      var one := CountInt(ek, nums, s + IntsOf(live));
      if one {
        nasize := nasize + 1;
      }
      totaluse := totaluse + 1;
    }

    lemma SizesBound()
      requires Valid()
      ensures |arr| <= MAXASIZE && |nodes| <= MAXASIZE
    {
      Pow2Grows(lsizenode, MAXBITS);
      MaxIsPow2();
    }

    /** rehash: the array size is the best one, and there is room for the pending key. */
    method Rehash(ek: Key) returns (r: Result<(), Error>)
      requires Valid() && ek != NilKey && ek !in m
      modifies this
      ensures r.Fail? ==> r.error == TableOverflow && |old(m)| >= Pow2(MAXBITS)
      ensures r.Ok? ==> Valid() && m == old(m) && Room(ek) && Best(IntsOf(m.Keys + {ek}), |arr|)
      decreases true, 1
    {
      hide *;
      ghost var ks := m.Keys + {ek};
      var nums := new nat[MAXBITS + 1](_ => 0);
      ZeroCounts(nums[..]);
      var nasize, totaluse := CountKeys(ek, nums);
      var na, n := ComputeSizes(nums[..], nasize, IntsOf(ks));
      BestSize(IntsOf(ks), n);
      HashPartSize(ks, n);
      HashPartAdd(m.Keys, ek, n);
      HashPartAdd(ks, ek, n);
      SubsetKeys(HashPart(m.Keys, n), HashPart(ks, n));
      r := Resize(n, totaluse - na);
      if r.Ok? {
        PendingRoom(ek, n, totaluse - na);
      }
    }

    /** The fields are those of the two parts. */
    lemma FieldsSplit()
      requires Valid()
      ensures |m.Keys| == |ArrKeys(arr, |arr|)| + |LiveKeys(nodes, 0)|
      ensures IntsOf(m.Keys) == ArrKeys(arr, |arr|) + IntsOf(LiveKeys(nodes, 0))
      ensures ArrKeys(arr, |arr|) !! IntsOf(LiveKeys(nodes, 0))
    {
      ValidParts();
      KeysSplit(arr, nodes, m);
    }

    // -------------------------------------------------------------- setting a field

    /** newkey */
    method NewKey(key: Key, ghost mayGrow: bool) returns (r: Result<Slot, Error>)
      requires Valid() && key != NilKey && !Stored(nodes, key) && !InRange(|arr|, key) && (mayGrow || Room(key))
      modifies this
      ensures r.Ok? ==> Valid() && m == old(m) && SlotOf(r.value, key)
      ensures !mayGrow ==> r.Ok? && arr == old(arr) && |nodes| == |old(nodes)| && dummy == old(dummy)
                           && UsedKeys(nodes) <= UsedKeys(old(nodes)) + {key}
      ensures r.Fail? ==> r.error == TableOverflow && |old(m)| >= Pow2(MAXBITS)
      decreases mayGrow, 2
    {
      NodesKeys(hash, nodes, o, if dummy then |nodes| else lastfree);
      NotField(arr, nodes, m, key);
      hide NodesOk, Holds;
      ghost var was := nodes;
      var ok, mp := InsertKey(key);
      if !ok {
        if !dummy {
          AllUsedFull(was);
        }
        assert mayGrow;
        var g := Rehash(key);
        if g.Fail? {
          return Fail(g.error);
        }
        r := SetSlot(key, false);
      } else {
        r := Ok(InNode(mp));
      }
    }

    /** luaH_set: where to put the value of a field, which may have to be made */
    method SetSlot(key: Key, ghost mayGrow: bool) returns (r: Result<Slot, Error>)
      requires Valid() && (mayGrow || (key != NilKey && Room(key)))
      modifies this
      ensures r.Ok? ==> Valid() && m == old(m) && SlotOf(r.value, key)
      ensures !mayGrow ==> r.Ok? && arr == old(arr) && |nodes| == |old(nodes)| && dummy == old(dummy)
                           && UsedKeys(nodes) <= UsedKeys(old(nodes)) + {key}
      ensures old(HasSlot(key)) ==> r.Ok? && arr == old(arr) && nodes == old(nodes) && dummy == old(dummy)
      ensures key == NilKey <==> r == Fail(NilIndex)
      ensures r == Fail(TableOverflow) ==> |old(m)| >= Pow2(MAXBITS)
      decreases mayGrow, 3
    {
      hide NodesOk, Holds;
      var found, slot := GetSlot(key);
      if found {
        return Ok(slot);
      }
      if key == NilKey {
        return Fail(NilIndex);
      }
      r := NewKey(key, mayGrow);
    }

    /** t[key] = v */
    method Set(key: Key, v: Value) returns (r: Result<(), Error>)
      requires Valid()
      modifies this
      ensures r.Ok? ==> Valid() && m == Put(old(m), key, v)
      ensures r == Fail(NilIndex) <==> key == NilKey
      ensures r == Fail(TableOverflow) ==> |old(m)| >= Pow2(MAXBITS)
    {
      hide NodesOk, Holds;
      var slot :- SetSlot(key, true);
      Assign(slot, key, v);
      return Ok(());
    }
  }

  lemma EmptyLength(n: nat)
    ensures |EmptyNodes(n)| == n
  {
  }

  lemma NoKeys(n: nat)
    ensures UsedKeys(EmptyNodes(n)) == {}
  {
  }

  lemma ResizedIs(arr: seq<Value>, n: nat)
    ensures Resized(arr, n) == if n < |arr| then arr[..n] else if n > |arr| then arr + Nils(n - |arr|) else arr
  {
    assert arr[..|arr|] == arr;
  }

  lemma NodesKeys(hash: Hash, nodes: seq<Node>, o: Order, lastfree: int)
    requires NodesOk(hash, nodes, o, lastfree)
    ensures KeysOk(nodes) && |nodes| > 0
  {
  }

  lemma NoneLive(nodes: seq<Node>)
    ensures LiveKeys(nodes, |nodes|) == {} && IntsOf({}) == {}
  {
  }

  lemma ZeroCounts(nums: seq<nat>)
    requires |nums| == MAXBITS + 1 && forall i :: 0 <= i < |nums| ==> nums[i] == 0
    ensures Counts(nums, {})
  {
    assert forall lg :: Slice({}, lg) == {};
  }

  /** The next key of the hash part is not an array index, nor one counted before. */
  lemma IntNew(nodes: seq<Node>, i: nat, s: set<int>)
    requires KeysOk(nodes) && i < |nodes| && nodes[i].val != Nil && s !! IntsOf(LiveKeys(nodes, 0))
    ensures nodes[i].key.IntKey? && 0 < nodes[i].key.i <= MAXASIZE ==> nodes[i].key.i !in s
  {
    var key := nodes[i].key;
    if key.IntKey? && 0 < key.i <= MAXASIZE {
      assert key in LiveKeys(nodes, 0);
      assert key.i in IntsOf(LiveKeys(nodes, 0));
    }
  }

  lemma BestSize(s: set<int>, n: nat)
    requires Best(s, n)
    ensures n <= MAXASIZE
  {
    MaxIsPow2();
    if n > 0 {
      var i: nat :| i <= MAXBITS && n == Pow2(i) && Dense(s, n);
      Pow2Grows(i, MAXBITS);
    }
  }

  lemma PendingNew(ks: set<Key>, ek: Key)
    requires ek !in ks
    ensures ek.IntKey? ==> ek.i !in IntsOf(ks)
  {
    assert forall k: Key :: k.IntKey? ==> k == IntKey(k.i);
  }

  /** A key that has no slot is not a field. */
  lemma NotField(arr: seq<Value>, nodes: seq<Node>, m: Map, key: Key)
    requires Holds(arr, nodes, m) && KeysOk(nodes) && key != NilKey && !Stored(nodes, key) && !InRange(|arr|, key)
    ensures key !in m
  {
    assert At(arr, nodes, key) == MapAt(m, key);
    StoredFind(nodes, key);
  }

  lemma AllUsedFull(nodes: seq<Node>)
    requires KeysOk(nodes) && forall i :: 0 <= i < |nodes| ==> Used(nodes, i)
    ensures |UsedKeys(nodes)| == |nodes|
  {
    AllUsed(nodes);
  }

  /** Where the loop of numusearray stands: slice `lg` ends at `ttlg`, and slot `i` is the next. */
  predicate Slicing(size: nat, lg: nat, ttlg: nat, i: nat) {
    && lg <= MAXBITS + 1 && ttlg == Pow2(lg) && 1 <= i <= size + 1
    && ((i == size + 1 && ttlg > size) || i == 1 + if lg == 0 then 0 else Pow2(lg - 1))
  }

  lemma SliceStart(arr: seq<Value>)
    ensures Slicing(|arr|, 0, 1, 1) && ArrKeys(arr, 0) == {}
  {
  }

  lemma SlicingStep(size: nat, lg: nat, ttlg: nat, i: nat, lim: nat)
    requires Slicing(size, lg, ttlg, i) && lg <= MAXBITS
    requires lim == if ttlg > size then size else ttlg
    requires ttlg > size ==> i <= lim
    ensures 1 <= i <= lim + 1 && lim <= size && Slicing(size, lg + 1, ttlg * 2, lim + 1)
    ensures lim <= Pow2(lg) && (lg > 0 ==> i - 1 >= Pow2(lg - 1))
  {
    PowDouble(lg);
  }

  lemma SlicingDone(size: nat, lg: nat, ttlg: nat, i: nat)
    requires Slicing(size, lg, ttlg, i) && size <= Pow2(MAXBITS)
    requires lg <= MAXBITS ==> ttlg > size && i > size
    ensures i == size + 1
  {
  }

  lemma SliceCounted(arr: seq<Value>, nums: seq<nat>, lg: nat, i: nat, lim: nat, lc: nat)
    requires lg <= MAXBITS && 1 <= i <= lim + 1 && lim <= |arr|
    requires lim <= Pow2(lg) && (lg > 0 ==> i - 1 >= Pow2(lg - 1))
    requires Counts(nums, ArrKeys(arr, i - 1)) && lc == |SliceKeys(arr, i - 1, lim)|
    ensures |nums| == MAXBITS + 1 && Counts(nums[lg := nums[lg] + lc], ArrKeys(arr, lim))
    ensures |ArrKeys(arr, lim)| == |ArrKeys(arr, i - 1)| + lc
  {
    hide *;
    var s, t := ArrKeys(arr, i - 1), SliceKeys(arr, i - 1, lim);
    CountsLength(nums, s);
    SliceDone(arr, i - 1, lim, lg);
    AddSlice(nums, s, t, lg);
    assert |s + t| == |s| + |t|;
  }

  /** The nodes that stand after `n`, in any chain. */
  ghost function SetAhead(o: Order, n: int): set<int>
    requires 0 <= n < |o.rank|
  {
    set x | 0 <= x < |o.rank| && o.rank[x] > o.rank[n]
  }

  lemma AheadShrinks(o: Order, n: int, next: int)
    requires 0 <= n < |o.rank| && 0 <= next < |o.rank| && o.rank[n] < o.rank[next]
    ensures SetAhead(o, next) < SetAhead(o, n)
  {
    assert next in SetAhead(o, n) && next !in SetAhead(o, next);
  }

  /** One link further: nodes of the chain that are ahead of `n` are not before the next one. */
  lemma ChainStep(nodes: seq<Node>, o: Order, n: int)
    requires Shaped(nodes, o) && KeysOk(nodes) && LinksOk(nodes, o) && 0 <= n < |nodes|
    ensures !Used(nodes, n) ==> nodes[n].next == NULL
    ensures Used(nodes, n) && nodes[n].next != NULL ==>
              Used(nodes, nodes[n].next) && SameChain(o, n, nodes[n].next) && o.rank[n] < o.rank[nodes[n].next]
              && SetAhead(o, nodes[n].next) < SetAhead(o, n)
    ensures forall x :: Used(nodes, n) && Used(nodes, x) && SameChain(o, n, x) && o.rank[n] <= o.rank[x] && x != n ==>
              nodes[n].next != NULL && o.rank[nodes[n].next] <= o.rank[x]
  {
    assert NextAt(nodes, o, n);
    if Used(nodes, n) && nodes[n].next != NULL {
      AheadShrinks(o, n, nodes[n].next);
    }
    forall x | Used(nodes, n) && Used(nodes, x) && SameChain(o, n, x) && o.rank[n] <= o.rank[x] && x != n
      ensures nodes[n].next != NULL && o.rank[nodes[n].next] <= o.rank[x]
    {
      assert RankAt(nodes, o, n, x) && GapAt(nodes, o, n, x);
    }
  }

  lemma UsedVal(nodes: seq<Node>, i: nat)
    requires KeysOk(nodes) && i < |nodes| && nodes[i].val != Nil
    ensures Used(nodes, i)
  {
  }

  lemma PreviousNot(nodes: seq<Node>, o: Order, prev: nat, mp: nat)
    requires Shaped(nodes, o) && LinksOk(nodes, o) && Used(nodes, prev) && nodes[prev].next == mp
    ensures prev != mp
  {
    assert NextAt(nodes, o, prev);
  }

  // ---------------------------------------------------------------- the array part

  lemma ArrayHolds(arr: seq<Value>, nodes: seq<Node>, m: Map, i: nat, v: Value)
    requires Holds(arr, nodes, m) && i < |arr|
    ensures Holds(arr[i := v], nodes, Put(m, IntKey(i + 1), v))
  {
    var arr', m' := arr[i := v], Put(m, IntKey(i + 1), v);
    forall key | key != NilKey
      ensures At(arr', nodes, key) == MapAt(m', key)
    {
      assert At(arr, nodes, key) == MapAt(m, key);
    }
  }

  /** The array indices after `base`, up to `n`, that hold a value. */
  ghost function SliceKeys(arr: seq<Value>, base: nat, n: nat): set<int> {
    set i: int | base < i <= n && InArr(arr, i)
  }

  lemma NextKey(arr: seq<Value>, base: nat, i: nat)
    requires base < i <= |arr|
    ensures SliceKeys(arr, base, i) == if arr[i - 1] != Nil then SliceKeys(arr, base, i - 1) + {i as int}
      else SliceKeys(arr, base, i - 1)
    ensures i !in SliceKeys(arr, base, i - 1)
  {
  }

  lemma SliceDone(arr: seq<Value>, base: nat, done: nat, lg: nat)
    requires base <= done <= |arr| && done <= Pow2(lg) && (lg > 0 ==> base >= Pow2(lg - 1) || base == done)
    ensures ArrKeys(arr, done) == ArrKeys(arr, base) + SliceKeys(arr, base, done)
    ensures ArrKeys(arr, base) !! SliceKeys(arr, base, done) && forall k :: k in SliceKeys(arr, base, done)
                                                                            ==> InSlice(k, lg)
  {
  }

  lemma PowDouble(lg: nat)
    ensures Pow2(lg + 1) == 2 * Pow2(lg) && (lg > 0 ==> Pow2(lg) == 2 * Pow2(lg - 1))
  {
  }

  lemma CountsLength(nums: seq<nat>, s: set<int>)
    requires Counts(nums, s)
    ensures |nums| == MAXBITS + 1
  {
  }
}

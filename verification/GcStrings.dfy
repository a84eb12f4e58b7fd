/**
  The string table (lstring.c: luaS_newlstr, newlstr, luaS_resize).
 */
module GcStrings {
  import opened Limits
  import opened GcHeap
  import opened GcMark
  import opened GcCycle
  import opened GcAtomic
  import opened GcInv
  import opened GcMutator
  import opened GcAlloc
  import opened GcStringHash

  function FindStr(objs: Heap, chain: seq<Ref>, bytes: Bytes): Value {
    if chain == [] then Nil
    else if chain[0] in objs && objs[chain[0]].Str? && objs[chain[0]].bytes == bytes then Obj(chain[0])
    else FindStr(objs, chain[1..], bytes)
  }

  function HashOf(objs: Heap, r: Ref): nat {
    if r in objs && objs[r].Str? then objs[r].hash else 0
  }

  /** Each string of a chain goes first into its new bucket. */
  function Rehash(objs: Heap, l: seq<Ref>, nh: seq<seq<Ref>>): (r: seq<seq<Ref>>)
    requires |nh| > 0
    ensures |r| == |nh|
    decreases |l|
  {
    if l == [] then nh
    else
      var h1 := Bucket(HashOf(objs, l[0]), |nh|);
      Rehash(objs, l[1..], nh[h1 := [l[0]] + nh[h1]])
  }

  function Flat(strt: seq<seq<Ref>>): seq<Ref> {
    if strt == [] then [] else strt[0] + Flat(strt[1..])
  }

  function Empty(n: nat): seq<seq<Ref>> {
    seq(n, _ => [])
  }

  /** luaS_resize: refused while the collector sweeps the buckets. */
  function Resize(s: State, newsize: nat): State
    requires newsize > 0
  {
    if s.phase == GCSsweepstring then s else s.(strt := Rehash(s.objs, Flat(s.strt), Empty(newsize)))
  }

  function AddStr(s: State, bytes: Bytes, r: Ref): State
    requires |s.strt| > 0
  {
    var h := Hash(bytes);
    var b := Bucket(h, |s.strt|);
    s.(objs := s.objs[r := Str(bytes, h)], m := s.m.(color := s.m.color[r := White(s.white)]),
       strt := s.strt[b := [r] + s.strt[b]], nuse := s.nuse + 1)
  }

  function Grow(s: State): State
    requires |s.strt| > 0
  {
    if s.nuse > |s.strt| && |s.strt| <= MAX_INT / 2 then Resize(s, |s.strt| * 2) else s
  }

  /** The one string object for `bytes`; a dead one is brought back to life. */
  function Intern(s: State, bytes: Bytes, r: Ref): State
    requires |s.strt| > 0
  {
    var f := FindStr(s.objs, s.strt[Bucket(Hash(bytes), |s.strt|)], bytes);
    if f.Obj? then
      if Dead(s, f.ref) then s.(m := s.m.(color := s.m.color[f.ref := White(s.white)])) else s
    else Grow(AddStr(s, bytes, r))
  }

  // ---------------------------------------------------------------- lookup

  lemma {:induction false} FindStrSpec(objs: Heap, chain: seq<Ref>, bytes: Bytes)
    ensures var f := FindStr(objs, chain, bytes);
            && f != Prim(0)
            && (f.Obj? ==> f.ref in chain && f.ref in objs && objs[f.ref].Str? && objs[f.ref].bytes == bytes)
            && (!f.Obj? ==> forall r :: r in chain && r in objs && objs[r].Str? ==> objs[r].bytes != bytes)
  {
    if chain != [] {
      assert chain == [chain[0]] + chain[1..];
      FindStrSpec(objs, chain[1..], bytes);
    }
  }

  /** A string is found exactly when an equal one exists anywhere in the heap. */
  lemma FindStrComplete(objs: Heap, strt: seq<seq<Ref>>, bytes: Bytes, x: Ref)
    requires BucketsOk(objs, strt) && Interned(objs) && x in objs && objs[x].Str? && objs[x].bytes == bytes
    ensures FindStr(objs, strt[Bucket(Hash(bytes), |strt|)], bytes) == Obj(x)
  {
    FindStrSpec(objs, strt[Bucket(Hash(bytes), |strt|)], bytes);
    assert objs[x].hash == Hash(bytes);
    hide Hash, FindStr;
  }

  // ---------------------------------------------------------------- resizing permutes without loss

  /** `nh` holds exactly `members`, each in its bucket, once. */
  ghost predicate Holds(objs: Heap, nh: seq<seq<Ref>>, members: set<Ref>) {
    && |nh| > 0
    && (forall b, r :: 0 <= b < |nh| && r in nh[b] ==> r in members && Bucket(HashOf(objs, r), |nh|) == b)
    && (forall b :: 0 <= b < |nh| ==> NoDup(nh[b]))
    && (forall r :: r in members ==> r in nh[Bucket(HashOf(objs, r), |nh|)])
  }

  lemma {:induction false} TotalUpdate(t: seq<seq<Ref>>, b: nat, l: seq<Ref>)
    requires b < |t|
    ensures Total(t[b := l]) == Total(t) - |t[b]| + |l|
  {
    if b > 0 {
      assert t[b := l][1..] == t[1..][b - 1 := l];
      TotalUpdate(t[1..], b - 1, l);
    } else {
      assert t[b := l][1..] == t[1..];
    }
  }

  lemma HoldsAdd(objs: Heap, nh: seq<seq<Ref>>, members: set<Ref>, r: Ref)
    requires Holds(objs, nh, members) && r !in members
    ensures var h1 := Bucket(HashOf(objs, r), |nh|);
            Holds(objs, nh[h1 := [r] + nh[h1]], members + {r})
  {
    var h1 := Bucket(HashOf(objs, r), |nh|);
    assert r !in nh[h1];
    NoDupCons(r, nh[h1]);
    hide Bucket, HashOf;
  }

  lemma {:induction false} RehashHolds(objs: Heap, l: seq<Ref>, nh: seq<seq<Ref>>, members: set<Ref>)
    requires Holds(objs, nh, members) && NoDup(l) && forall r :: r in l ==> r !in members
    ensures Holds(objs, Rehash(objs, l, nh), members + SetOf(l))
    ensures Total(Rehash(objs, l, nh)) == Total(nh) + |l|
    decreases |l|
  {
    if l == [] {
      assert members + SetOf(l) == members;
    } else {
      var h1 := Bucket(HashOf(objs, l[0]), |nh|);
      var nh1 := nh[h1 := [l[0]] + nh[h1]];
      assert l == [l[0]] + l[1..];
      HoldsAdd(objs, nh, members, l[0]);
      TotalUpdate(nh, h1, [l[0]] + nh[h1]);
      assert l[0] !in l[1..];
      hide Holds, Total;
      RehashHolds(objs, l[1..], nh1, members + {l[0]});
      assert members + {l[0]} + SetOf(l[1..]) == members + SetOf(l);
    }
  }

  ghost predicate AllDistinct(strt: seq<seq<Ref>>) {
    && (forall b :: 0 <= b < |strt| ==> NoDup(strt[b]))
    && (forall a, b, r :: 0 <= a < b < |strt| && r in strt[a] ==> r !in strt[b])
  }

  lemma {:induction false} FlatMembers(strt: seq<seq<Ref>>, r: Ref)
    ensures r in Flat(strt) <==> exists b :: 0 <= b < |strt| && r in strt[b]
  {
    if strt != [] {
      FlatMembers(strt[1..], r);
      assert (exists b :: 0 <= b < |strt| && r in strt[b]) ==> r in strt[0]
                                                               || exists b :: 0 <= b < |strt[1..]|
                                                                              && r in strt[1..][b] by {
        if b :| 0 <= b < |strt| && r in strt[b] {
          assert b > 0 ==> strt[1..][b - 1] == strt[b];
        }
      }
      if b :| 0 <= b < |strt[1..]| && r in strt[1..][b] {
        assert strt[b + 1] == strt[1..][b];
      }
    }
  }

  lemma NoDupConcat(a: seq<Ref>, b: seq<Ref>)
    requires NoDup(a) && NoDup(b) && forall r :: r in a ==> r !in b
    ensures NoDup(a + b)
  {
    forall i, j | 0 <= i < j < |a + b|
      ensures (a + b)[i] != (a + b)[j]
    {
      if i < |a| <= j {
        assert a[i] in a && b[j - |a|] in b;
      }
    }
  }

  lemma {:induction false} FlatNoDup(strt: seq<seq<Ref>>)
    requires AllDistinct(strt)
    ensures NoDup(Flat(strt)) && |Flat(strt)| == Total(strt)
  {
    if strt != [] {
      var rest := strt[1..];
      assert forall b :: 0 <= b < |rest| ==> rest[b] == strt[b + 1];
      FlatNoDup(rest);
      forall r | r in strt[0]
        ensures r !in Flat(rest)
      {
        FlatMembers(rest, r);
      }
      NoDupConcat(strt[0], Flat(rest));
    }
  }

  lemma {:induction false} EmptyTotal(n: nat)
    ensures Total(Empty(n)) == 0
  {
    if n > 0 {
      assert Empty(n)[1..] == Empty(n - 1);
      EmptyTotal(n - 1);
    }
  }

  ghost function Strs(objs: Heap): set<Ref> {
    set r | r in objs && objs[r].Str?
  }

  lemma HashOfStr(objs: Heap, r: Ref)
    requires r in objs && objs[r].Str?
    ensures HashOf(objs, r) == objs[r].hash
  {
  }

  lemma BucketsToHolds(objs: Heap, strt: seq<seq<Ref>>)
    requires BucketsOk(objs, strt)
    ensures Holds(objs, strt, Strs(objs))
  {
    forall b, r | 0 <= b < |strt| && r in strt[b]
      ensures r in Strs(objs) && Bucket(HashOf(objs, r), |strt|) == b
    {
      HashOfStr(objs, r);
    }
    forall r | r in Strs(objs)
      ensures r in strt[Bucket(HashOf(objs, r), |strt|)]
    {
      HashOfStr(objs, r);
    }
  }

  lemma HoldsToBuckets(objs: Heap, strt: seq<seq<Ref>>)
    requires Holds(objs, strt, Strs(objs))
    ensures BucketsOk(objs, strt)
  {
    forall b, r | 0 <= b < |strt| && r in strt[b]
      ensures r in objs && objs[r].Str? && Bucket(objs[r].hash, |strt|) == b
    {
      assert r in Strs(objs);
      HashOfStr(objs, r);
    }
    forall r | r in objs && objs[r].Str?
      ensures r in strt[Bucket(objs[r].hash, |strt|)]
    {
      assert r in Strs(objs);
      HashOfStr(objs, r);
    }
  }

  lemma HoldsFlat(objs: Heap, strt: seq<seq<Ref>>, members: set<Ref>)
    requires Holds(objs, strt, members)
    ensures AllDistinct(strt) && SetOf(Flat(strt)) == members
  {
    forall r
      ensures r in Flat(strt) <==> r in members
    {
      FlatMembers(strt, r);
      if r in members {
        assert r in strt[Bucket(HashOf(objs, r), |strt|)];
      }
    }
    forall a, b, r | 0 <= a < b < |strt| && r in strt[a]
      ensures r !in strt[b]
    {
      assert Bucket(HashOf(objs, r), |strt|) == a;
    }
  }

  /** Resizing the table loses no string, duplicates none, and puts each in its new bucket. */
  lemma ResizeOk(objs: Heap, strt: seq<seq<Ref>>, nuse: int, newsize: nat)
    requires StrOk(objs, strt, nuse) && newsize > 0 && PowerOfTwo(newsize)
    ensures StrOk(objs, Rehash(objs, Flat(strt), Empty(newsize)), nuse)
  {
    var l := Flat(strt);
    BucketsToHolds(objs, strt);
    HoldsFlat(objs, strt, Strs(objs));
    FlatNoDup(strt);
    EmptyTotal(newsize);
    assert Holds(objs, Empty(newsize), {});
    hide Interned, Holds, BucketsOk;
    RehashHolds(objs, l, Empty(newsize), {});
    assert {} + SetOf(l) == Strs(objs);
    HoldsToBuckets(objs, Rehash(objs, l, Empty(newsize)));
  }

  lemma ResizeInv(s: State, newsize: nat)
    requires Inv(s) && newsize > 0 && PowerOfTwo(newsize)
    ensures Inv(Resize(s, newsize))
  {
    hide UvOk, StrOk, RootListOk, FixedOk, NeverBlack, MarkInv, AllWhite, Swept, Rehash, StringsSwept;
    ResizeOk(s.objs, s.strt, s.nuse, newsize);
    var s' := Resize(s, newsize);
    assert s'.roots == s.roots && forall r :: Live(s, r) <==> Live(s', r);
    RefsKept(s, s');
  }

  // ---------------------------------------------------------------- interning

  lemma AddStrOk(s: State, bytes: Bytes, r: Ref)
    requires StrOk(s.objs, s.strt, s.nuse) && r !in s.objs
    requires !FindStr(s.objs, s.strt[Bucket(Hash(bytes), |s.strt|)], bytes).Obj?
    ensures StrOk(AddStr(s, bytes, r).objs, AddStr(s, bytes, r).strt, AddStr(s, bytes, r).nuse)
  {
    hide Hash;
    var s' := AddStr(s, bytes, r);
    var b := Bucket(Hash(bytes), |s.strt|);
    TotalUpdate(s.strt, b, [r] + s.strt[b]);
    AddStrInterned(s, bytes, r);
    BucketsToHolds(s.objs, s.strt);
    HoldsMore(s.objs, s'.objs, s.strt, Strs(s.objs));
    HoldsAdd(s'.objs, s.strt, Strs(s.objs), r);
    assert Strs(s'.objs) == Strs(s.objs) + {r};
    HoldsToBuckets(s'.objs, s'.strt);
    hide Holds, BucketsOk, Total, Interned;
  }

  lemma HoldsMore(objs: Heap, objs': Heap, nh: seq<seq<Ref>>, members: set<Ref>)
    requires Holds(objs, nh, members) && forall r :: r in members ==> HashOf(objs', r) == HashOf(objs, r)
    ensures Holds(objs', nh, members)
  {
    hide Bucket, HashOf;
  }

  lemma AddStrInterned(s: State, bytes: Bytes, r: Ref)
    requires StrOk(s.objs, s.strt, s.nuse) && r !in s.objs
    requires !FindStr(s.objs, s.strt[Bucket(Hash(bytes), |s.strt|)], bytes).Obj?
    ensures Interned(s.objs[r := Str(bytes, Hash(bytes))])
  {
    hide Hash;
    forall x | x in s.objs && s.objs[x].Str?
      ensures s.objs[x].bytes != bytes
    {
      if s.objs[x].bytes == bytes {
        FindStrComplete(s.objs, s.strt, bytes, x);
      }
    }
    hide BucketsOk, FindStr, Total;
  }

  lemma AddStrPhase(s: State, bytes: Bytes, r: Ref)
    requires UvOk(s.objs, s.uvhead) && s.m.color.Keys == s.objs.Keys && |s.strt| > 0 && r !in s.objs && PhaseInv(s)
    ensures PhaseInv(AddStr(s, bytes, r))
  {
    hide UvOk, Hash;
    var s' := AddStr(s, bytes, r);
    if s.phase == GCSpropagate {
      AddMarkInv(s, r, Str(bytes, Hash(bytes)));
      hide MarkInv;
    } else {
      assert forall x :: CurWhite(s.m.color, s.white, x) ==> CurWhite(s'.m.color, s.white, x);
      assert forall x :: Swept(s.objs, s.m.color, s.white, x) ==> Swept(s'.objs, s'.m.color, s.white, x);
      assert CurWhite(s'.m.color, s.white, r);
      hide Swept, Bucket;
    }
  }

  lemma AddStrInv(s: State, bytes: Bytes, r: Ref)
    requires Inv(s) && r !in s.objs
    requires !FindStr(s.objs, s.strt[Bucket(Hash(bytes), |s.strt|)], bytes).Obj?
    ensures Inv(AddStr(s, bytes, r))
  {
    hide Hash, UvOk, RootListOk, FixedOk, RefsLive, RootsLive, PhaseInv, FindStr;
    var b := Str(bytes, Hash(bytes));
    AddStrOk(s, bytes, r);
    AddStrPhase(s, bytes, r);
    AddLive(s, AddStr(s, bytes, r), r, b);
    AddUvOk(s.objs, s.uvhead, r, b);
    AddStrSmall(s, r, b);
    hide StrOk, NeverBlack;
  }

  lemma AddStrSmall(s: State, r: Ref, b: Body)
    requires r !in s.objs && b.Str? && RootListOk(s.objs, s.rootgc) && FixedOk(s.objs, s.roots, s.fixed)
    requires s.m.color.Keys == s.objs.Keys && NeverBlack(s.objs, s.m.color)
    ensures RootListOk(s.objs[r := b], s.rootgc) && FixedOk(s.objs[r := b], s.roots, s.fixed)
    ensures NeverBlack(s.objs[r := b], s.m.color[r := White(s.white)])
  {
  }

  lemma RevivedStr(s: State, u: Ref)
    requires Inv(s) && u in s.objs && s.objs[u].Str? && Dead(s, u)
    ensures Inv(s.(m := s.m.(color := s.m.color[u := White(s.white)])))
  {
    hide UvOk, StrOk, RootListOk, FixedOk, RefsLive, RootsLive, PhaseInv;
    var s' := s.(m := s.m.(color := s.m.color[u := White(s.white)]));
    DeadWhileSweeping(s, u);
    RefsKept(s, s');
    RevivedSweptKept(s, s', u);
    hide SweptKept;
    PhaseKept(s, s');
  }

  lemma RevivedSweptKept(s: State, s': State, u: Ref)
    requires u in s.m.color && s' == s.(m := s.m.(color := s.m.color[u := White(s.white)]))
    ensures SweptKept(s, s')
  {
  }

  /** Interning keeps the invariant; in particular equal strings stay one object, alive. */
  lemma InternInv(s: State, bytes: Bytes, r: Ref)
    requires Inv(s) && r !in s.objs
    ensures Inv(Intern(s, bytes, r))
  {
    hide Hash, RefsLive, RootsLive, PhaseInv, UvOk, RootListOk, FixedOk, Interned;
    var f := FindStr(s.objs, s.strt[Bucket(Hash(bytes), |s.strt|)], bytes);
    FindStrSpec(s.objs, s.strt[Bucket(Hash(bytes), |s.strt|)], bytes);
    if f.Obj? {
      if Dead(s, f.ref) {
        RevivedStr(s, f.ref);
      }
    } else {
      AddStrInv(s, bytes, r);
      var s1 := AddStr(s, bytes, r);
      hide Inv, AddStr;
      if s1.nuse > |s1.strt| && |s1.strt| <= MAX_INT / 2 {
        ResizeInv(s1, |s1.strt| * 2);
      }
    }
  }
}

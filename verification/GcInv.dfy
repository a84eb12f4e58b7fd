/**
  The invariant of the collector: where each object is linked (rootgc, the string table,
  the open-upvalue lists), and what the colours mean in each phase.
 */
module GcInv {
  import opened GcHeap
  import opened GcMark
  import opened GcCycle
  import opened GcStringHash

  /** Objects linked into `rootgc`; strings are in the string table, open upvalues in their thread's list. */
  predicate InRoot(b: Body) {
    !b.Str? && !IsOpen(b)
  }

  ghost predicate RootListOk(objs: Heap, rootgc: seq<Ref>) {
    && NoDup(rootgc)
    && (forall r :: r in rootgc ==> r in objs && InRoot(objs[r]))
    && (forall r :: r in objs && InRoot(objs[r]) ==> r in rootgc)
  }

  // ---------------------------------------------------------------- open upvalues

  predicate OpenAt(objs: Heap, u: Ref, t: Ref) {
    u in objs && IsOpen(objs[u]) && objs[u].v.thread == t
  }

  function Level(objs: Heap, u: Ref): nat {
    if u in objs && IsOpen(objs[u]) then objs[u].v.level else 0
  }

  /** The open upvalues of a thread stand for live stack slots, in strictly decreasing order of level. */
  ghost predicate UvListOk(objs: Heap, t: Ref)
    requires t in objs && objs[t].Thread?
  {
    var l := objs[t].openupval;
    && (forall u :: u in l ==> OpenAt(objs, u, t) && objs[u].v.level < |objs[t].stack|)
    && (forall i, j :: 0 <= i < j < |l| ==> Level(objs, l[i]) > Level(objs, l[j]))
  }

  ghost predicate UvOk(objs: Heap, uvhead: seq<Ref>) {
    && (forall t :: t in objs && objs[t].Thread? ==> UvListOk(objs, t))
    && (forall u :: u in objs && IsOpen(objs[u]) ==>
          objs[u].v.thread in objs && objs[objs[u].v.thread].Thread? && u in objs[objs[u].v.thread].openupval)
    && NoDup(uvhead)
    && (forall u :: u in uvhead <==> u in objs && IsOpen(objs[u]))
  }

  // ---------------------------------------------------------------- the string table

  function Total(strt: seq<seq<Ref>>): nat {
    if strt == [] then 0 else |strt[0]| + Total(strt[1..])
  }

  /** Each string is in the bucket its hash selects. */
  ghost predicate BucketsOk(objs: Heap, strt: seq<seq<Ref>>) {
    && |strt| > 0
    && (forall b, r :: 0 <= b < |strt| && r in strt[b] ==> r in objs && objs[r].Str?
                                                           && Bucket(objs[r].hash, |strt|) == b)
    && (forall b :: 0 <= b < |strt| ==> NoDup(strt[b]))
    && (forall r :: r in objs && objs[r].Str? ==> r in strt[Bucket(objs[r].hash, |strt|)])
  }

  /** The number of buckets is a power of two. */
  predicate PowerOfTwo(n: nat) {
    n == 1 || (n > 1 && n % 2 == 0 && PowerOfTwo(n / 2))
  }

  /** `lmod`, whose mask keeps the remainder since the size is a power of two. */
  function Bucket(hash: nat, size: nat): (b: nat)
    requires size > 0
    ensures b < size
  {
    hash % size
  }

  /** Equal strings are one object. */
  ghost predicate Interned(objs: Heap) {
    && (forall r :: r in objs && objs[r].Str? ==> objs[r].hash == Hash(objs[r].bytes))
    && (forall a, b :: a in objs && b in objs && objs[a].Str? && objs[b].Str? && objs[a].bytes == objs[b].bytes
                       ==> a == b)
  }

  ghost predicate StrOk(objs: Heap, strt: seq<seq<Ref>>, nuse: int) {
    BucketsOk(objs, strt) && PowerOfTwo(|strt|) && Interned(objs) && nuse == Total(strt)
  }

  // ---------------------------------------------------------------- structure and phases

  ghost predicate FixedOk(objs: Heap, roots: Roots, fixed: set<Ref>) {
    && roots.mainthread in objs && objs[roots.mainthread].Thread? && roots.mainthread in fixed
    && roots.running in objs && objs[roots.running].Thread?
    && (forall r :: r in fixed ==> r in objs && (objs[r].Str? || r == roots.mainthread))
  }

  /** Threads and open upvalues are never black. */
  ghost predicate NeverBlack(objs: Heap, color: Colors) {
    forall r :: r in objs && r in color && color[r].Black? ==> !objs[r].Thread? && !IsOpen(objs[r])
  }

  ghost predicate Struct(s: State) {
    && s.m.color.Keys == s.objs.Keys
    && NeverBlack(s.objs, s.m.color)
    && RootListOk(s.objs, s.rootgc)
    && UvOk(s.objs, s.uvhead)
    && StrOk(s.objs, s.strt, s.nuse)
    && FixedOk(s.objs, s.roots, s.fixed)
  }

  predicate CurWhite(color: Colors, white: bool, r: Ref) {
    r in color && color[r] == White(white)
  }

  ghost predicate AllWhite(color: Colors, white: bool) {
    forall r :: r in color ==> color[r] == White(white)
  }

  /** Swept: the current white, and so are the open upvalues of a thread. */
  ghost predicate Swept(objs: Heap, color: Colors, white: bool, r: Ref) {
    CurWhite(color, white, r) &&
    (r in objs && objs[r].Thread? ==> forall u :: u in objs[r].openupval ==> CurWhite(color, white, u))
  }

  ghost predicate StringsSwept(objs: Heap, color: Colors, white: bool) {
    forall r :: r in objs && objs[r].Str? ==> CurWhite(color, white, r)
  }

  ghost predicate PhaseInv(s: State) {
    match s.phase
    case GCSpause => AllWhite(s.m.color, s.white)
    case GCSfinalize => AllWhite(s.m.color, s.white)
    case GCSpropagate =>
      && MarkInv(s.objs, s.m, s.white)
      && NonWhite(s.m.color, s.roots.mainthread)
      && (s.roots.registry.Obj? ==> NonWhite(s.m.color, s.roots.registry.ref))
    case GCSsweepstring =>
      && s.sweepgc == 0 && s.sweepstrgc < |s.strt|
      && (forall b, r :: 0 <= b < s.sweepstrgc && r in s.strt[b] ==> CurWhite(s.m.color, s.white, r))
    case GCSsweep =>
      && StringsSwept(s.objs, s.m.color, s.white)
      && s.sweepgc <= |s.rootgc|
      && (forall i :: 0 <= i < s.sweepgc ==> Swept(s.objs, s.m.color, s.white, s.rootgc[i]))
  }

  /** The invariant of every reachable state. */
  ghost predicate Inv(s: State) {
    Struct(s) && RefsLive(s) && RootsLive(s) && PhaseInv(s)
  }

  /** While everything is marked or of the current white, nothing is dead. */
  ghost predicate NoneDead(s: State) {
    forall r :: r in s.m.color ==> s.m.color[r] != White(!s.white)
  }

  /** Nothing that can be reached dangles. */
  lemma NoDangling(s: State, r: Ref)
    requires Inv(s) && Reach(s, r)
    ensures Live(s, r)
  {
    ReachLive(s, r);
  }

  // ---------------------------------------------------------------- same liveness

  ghost predicate SameDead(s: State, s': State) {
    s'.m.color.Keys == s.m.color.Keys && forall r :: Dead(s, r) <==> Dead(s', r)
  }

  /** New references are to live objects. */
  ghost predicate NewRefsLive(s: State, objs': Heap) {
    forall x, c :: Refers(objs', x, c) ==> Refers(s.objs, x, c) || Live(s, c)
  }

  lemma LivenessKept(s: State, s': State)
    requires RefsLive(s) && RootsLive(s)
    requires s'.objs.Keys == s.objs.Keys && SameDead(s, s') && NewRefsLive(s, s'.objs) && s'.roots == s.roots
    ensures RefsLive(s') && RootsLive(s')
  {
    assert forall r :: Live(s, r) <==> Live(s', r);
    forall r | Live(s', r)
      ensures ClosedAt(s', r)
    {
      assert ClosedAt(s, r);
    }
  }

  /** Objects may be freed and strings revived, as long as the live ones stay and get no other references. */
  lemma RefsKept(s: State, s': State)
    requires RefsLive(s) && RootsLive(s) && s'.roots == s.roots
    requires forall r :: Live(s, r) ==> Live(s', r)
    requires forall r :: Live(s', r) ==> Live(s, r) || s'.objs[r].Str?
    requires forall x, c :: Live(s, x) && Refers(s'.objs, x, c) ==> Refers(s.objs, x, c) || Live(s, c)
    ensures RefsLive(s') && RootsLive(s')
  {
    forall r | Live(s', r)
      ensures ClosedAt(s', r)
    {
      assert Live(s, r) ==> ClosedAt(s, r);
    }
  }

  /** What has been swept stays swept. */
  ghost predicate SweptKept(s: State, s': State) {
    && (forall x :: CurWhite(s.m.color, s.white, x) ==> CurWhite(s'.m.color, s.white, x))
    && (forall x :: Swept(s.objs, s.m.color, s.white, x) ==> Swept(s'.objs, s'.m.color, s.white, x))
    && (forall x :: x in s'.objs && s'.objs[x].Str? ==> x in s.objs && s.objs[x].Str?)
    && (AllWhite(s.m.color, s.white) ==> AllWhite(s'.m.color, s.white))
  }

  /** The phase, the sweep positions and the lists they point into do not change. */
  ghost predicate SamePlaces(s: State, s': State) {
    && s'.white == s.white && s'.phase == s.phase && s'.roots == s.roots && s'.fixed == s.fixed
    && s'.rootgc == s.rootgc && s'.sweepgc == s.sweepgc
    && s'.strt == s.strt && s'.nuse == s.nuse && s'.sweepstrgc == s.sweepstrgc
  }

  lemma PhaseKept(s: State, s': State)
    requires PhaseInv(s) && s.phase != GCSpropagate && SamePlaces(s, s') && SweptKept(s, s')
    ensures PhaseInv(s')
  {
    hide AllWhite, Swept;
  }

  /** Bodies change, but no string, no root-list member, no thread and no colour that matters to the structure. */
  ghost predicate SameKinds(objs: Heap, objs': Heap) {
    && (forall x :: (x in objs && InRoot(objs[x])) <==> (x in objs' && InRoot(objs'[x])))
    && (forall x :: (x in objs && objs[x].Str?) <==> (x in objs' && objs'[x].Str?))
    && (forall x :: x in objs && objs[x].Str? ==> objs'[x] == objs[x])
    && (forall x :: x in objs && objs[x].Thread? ==> x in objs' && objs'[x].Thread?)
  }

  lemma SameStringsOk(objs: Heap, objs': Heap, strt: seq<seq<Ref>>, nuse: int)
    requires StrOk(objs, strt, nuse)
    requires forall x :: (x in objs && objs[x].Str?) <==> (x in objs' && objs'[x].Str?)
    requires forall x :: x in objs && objs[x].Str? ==> objs'[x] == objs[x]
    ensures StrOk(objs', strt, nuse)
  {
  }

  lemma RootListKept(objs: Heap, objs': Heap, rootgc: seq<Ref>)
    requires RootListOk(objs, rootgc) && SameKinds(objs, objs')
    ensures RootListOk(objs', rootgc)
  {
  }

  lemma FixedKept(objs: Heap, objs': Heap, roots: Roots, fixed: set<Ref>)
    requires FixedOk(objs, roots, fixed) && SameKinds(objs, objs')
    ensures FixedOk(objs', roots, fixed)
  {
  }

  lemma StructKept(s: State, s': State)
    requires Struct(s) && SamePlaces(s, s') && SameKinds(s.objs, s'.objs)
    requires s'.m.color.Keys == s'.objs.Keys && NeverBlack(s'.objs, s'.m.color) && UvOk(s'.objs, s'.uvhead)
    ensures Struct(s')
  {
    hide UvOk, StrOk, RootListOk, FixedOk, NeverBlack;
    SameStringsOk(s.objs, s'.objs, s.strt, s.nuse);
    RootListKept(s.objs, s'.objs, s.rootgc);
    FixedKept(s.objs, s'.objs, s.roots, s.fixed);
  }

  /**
    What the collector may do outside the atomic step: live objects stay, with the same
    references; dead ones go, or are fixed.
   */
  ghost predicate KeepsLive(s: State, s': State) {
    && s'.roots == s.roots && s'.fixed == s.fixed
    && (forall r :: Live(s, r) ==> Live(s', r))
    && (forall r :: Live(s', r) ==> Live(s, r) || r in s.fixed)
    && (forall x, c :: Live(s, x) ==> (Refers(s'.objs, x, c) <==> Refers(s.objs, x, c)))
  }

  lemma KeepsLiveTrans(a: State, b: State, c: State)
    requires KeepsLive(a, b) && KeepsLive(b, c)
    ensures KeepsLive(a, c)
  {
  }

  lemma PathThere(s: State, s': State, p: seq<Ref>)
    requires RefsLive(s) && KeepsLive(s, s') && IsPath(s.objs, p) && Live(s, p[0])
    ensures IsPath(s'.objs, p)
  {
    forall i | 0 <= i < |p| - 1
      ensures Refers(s'.objs, p[i], p[i + 1])
    {
      var q := p[..i + 1];
      PathLive(s, q);
      assert q[|q| - 1] == p[i] && Refers(s.objs, p[i], p[i + 1]);
    }
  }

  lemma {:induction false} PathBack(s: State, s': State, p: seq<Ref>)
    requires RefsLive(s) && KeepsLive(s, s') && IsPath(s'.objs, p) && Live(s, p[0])
    ensures IsPath(s.objs, p) && Live(s, p[|p| - 1])
    decreases |p|
  {
    if |p| > 1 {
      var q := p[..|p| - 1];
      var x, c := p[|p| - 2], p[|p| - 1];
      assert Refers(s'.objs, x, c);
      PathBack(s, s', q);
      assert q[|q| - 1] == x && ClosedAt(s, x) && Refers(s.objs, x, c);
      forall i | 0 <= i < |p| - 1
        ensures Refers(s.objs, p[i], p[i + 1])
      {
        if i < |p| - 2 {
          assert q[i] == p[i] && q[i + 1] == p[i + 1];
        }
      }
    }
  }

  /** The program sees no difference: exactly the same objects can be reached. */
  lemma SameReach(s: State, s': State, r: Ref)
    requires RefsLive(s) && RootsLive(s) && KeepsLive(s, s')
    ensures Reach(s, r) <==> Reach(s', r)
  {
    if Reach(s, r) {
      var p :| IsPath(s.objs, p) && IsRoot(s, p[0]) && p[|p| - 1] == r;
      PathThere(s, s', p);
      assert IsRoot(s', p[0]);
    }
    if Reach(s', r) {
      var p :| IsPath(s'.objs, p) && IsRoot(s', p[0]) && p[|p| - 1] == r;
      assert IsRoot(s, p[0]);
      PathBack(s, s', p);
    }
  }
}

/**
  The collected heap: objects, colours, the collector's lists, and reachability
  (lobject.h, lstate.h, lgc.h).

  Objects are named by references; a pointer field that may be NULL holds `Nil`.
  A table entry whose value is nil refers to nothing: its key is kept only to be
  compared, never followed.
 */
module GcHeap {

  import opened GcStringHash

  type Ref = nat

  datatype Value = Nil | Prim(n: int) | Obj(ref: Ref)

  datatype Entry = Entry(key: Value, val: Value)

  datatype Mode = Mode(weakKey: bool, weakVal: bool)

  /** Where the value of an upvalue lives: a slot of a thread's stack, or itself. */
  datatype Slot = Open(thread: Ref, level: nat) | Closed(value: Value)

  datatype Body =
    | Str(bytes: Bytes, hash: nat)
    | Udata(meta: Value, env: Value)
      /** `mode` is what the `__mode` field says of the tables this one is a metatable of. */
    | Table(meta: Value, mode: Mode, arr: seq<Value>, nodes: seq<Entry>)
    | CClosure(env: Value, vals: seq<Value>)
    | LClosure(env: Value, proto: Value, upvals: seq<Value>)
    | UpVal(v: Slot)
    | Thread(gt: Value, stack: seq<Value>, openupval: seq<Ref>)
    | Proto(source: Value, k: seq<Value>, upnames: seq<Value>, p: seq<Value>, locnames: seq<Value>)

  type Heap = map<Ref, Body>

  datatype Color = White(which: bool) | Gray | Black

  type Colors = map<Ref, Color>

  datatype Phase = GCSpause | GCSpropagate | GCSsweepstring | GCSsweep | GCSfinalize

  /** The colours and the lists of gray objects, which share the `gclist` field of the objects. */
  datatype Marks = Marks(color: Colors, gray: seq<Ref>, grayagain: seq<Ref>, weak: seq<Ref>)

  datatype Roots = Roots(mainthread: Ref, running: Ref, registry: Value, mt: seq<Value>)

  datatype State = State(
    objs: Heap,
    m: Marks,
    roots: Roots,
    fixed: set<Ref>,
    white: bool,
    phase: Phase,
    rootgc: seq<Ref>,
    sweepgc: nat,
    strt: seq<seq<Ref>>,
    nuse: int,
    sweepstrgc: nat,
    uvhead: seq<Ref>)

  // ---------------------------------------------------------------- contents

  /** The values of `vs`, last one first: the order in which `while (i--)` visits them. */
  function Backwards(vs: seq<Value>): seq<Value> {
    if vs == [] then [] else [vs[|vs| - 1]] + Backwards(vs[..|vs| - 1])
  }

  function EntryVals(e: Entry, mode: Mode): seq<Value> {
    if e.val == Nil then []
    else (if mode.weakKey then [] else [e.key]) + (if mode.weakVal then [] else [e.val])
  }

  function NodeVals(nodes: seq<Entry>, mode: Mode): seq<Value> {
    if nodes == [] then []
    else EntryVals(nodes[|nodes| - 1], mode) + NodeVals(nodes[..|nodes| - 1], mode)
  }

  const STRONG := Mode(false, false)

  /** The weak mode of a table, looked up in its metatable. */
  function ModeOf(objs: Heap, meta: Value): Mode {
    if meta.Obj? && meta.ref in objs && objs[meta.ref].Table? then objs[meta.ref].mode else STRONG
  }

  /** The value an upvalue stands for. */
  function SlotVal(objs: Heap, v: Slot): Value {
    match v
    case Closed(value) => value
    case Open(t, l) => if t in objs && objs[t].Thread? && l < |objs[t].stack| then objs[t].stack[l] else Nil
  }

  /** The values a body holds, when a table is read with weak mode `mode`. */
  function BodyVals(objs: Heap, b: Body, mode: Mode): seq<Value> {
    match b
    case Str(_, _) => []
    case Udata(meta, env) => [meta, env]
    case Table(meta, _, arr, nodes) =>
      [meta] + (if mode.weakVal then [] else Backwards(arr)) + NodeVals(nodes, mode)
    case CClosure(env, vals) => [env] + vals
    case LClosure(env, proto, upvals) => [env, proto] + upvals
    case UpVal(v) => [SlotVal(objs, v)]
    case Thread(gt, stack, _) => [gt] + stack
    case Proto(source, k, upnames, p, locnames) => [source] + k + upnames + p + locnames
  }

  /** Everything object `r` refers to. */
  function AllVals(objs: Heap, r: Ref): seq<Value>
    requires r in objs
  {
    BodyVals(objs, objs[r], STRONG)
  }

  /** What the collector traverses in `r`: the strong part of a weak table only. */
  function StrongVals(objs: Heap, r: Ref): seq<Value>
    requires r in objs
  {
    BodyVals(objs, objs[r], if objs[r].Table? then ModeOf(objs, objs[r].meta) else STRONG)
  }

  ghost predicate Refers(objs: Heap, r: Ref, c: Ref) {
    r in objs && Obj(c) in AllVals(objs, r)
  }

  ghost predicate RefersStrongly(objs: Heap, r: Ref, c: Ref) {
    r in objs && Obj(c) in StrongVals(objs, r)
  }

  lemma {:induction false} BackwardsMembers(vs: seq<Value>, v: Value)
    ensures v in Backwards(vs) <==> v in vs
  {
    if vs != [] {
      BackwardsMembers(vs[..|vs| - 1], v);
      assert vs == vs[..|vs| - 1] + [vs[|vs| - 1]];
    }
  }

  lemma {:induction false} WeakNodeVals(nodes: seq<Entry>, mode: Mode, v: Value)
    ensures v in NodeVals(nodes, mode) ==> v in NodeVals(nodes, STRONG)
  {
    if nodes != [] {
      WeakNodeVals(nodes[..|nodes| - 1], mode, v);
      assert v in EntryVals(nodes[|nodes| - 1], mode) ==> v in EntryVals(nodes[|nodes| - 1], STRONG);
    }
  }

  /** A value held by the nodes is the key or the value of an entry that is not empty. */
  lemma {:induction false} NodeValsMembers(nodes: seq<Entry>, mode: Mode, v: Value)
    ensures v in NodeVals(nodes, mode) <==>
            exists i :: 0 <= i < |nodes| && v in EntryVals(nodes[i], mode)
  {
    if nodes != [] {
      var init := nodes[..|nodes| - 1];
      NodeValsMembers(init, mode, v);
      if v in NodeVals(nodes, mode) {
        if v in EntryVals(nodes[|nodes| - 1], mode) {
        } else {
          var i :| 0 <= i < |init| && v in EntryVals(init[i], mode);
          assert nodes[i] == init[i];
        }
      }
      if i :| 0 <= i < |nodes| && v in EntryVals(nodes[i], mode) {
        if i < |init| {
          assert init[i] == nodes[i];
        }
      }
    }
  }

  lemma StrongIsAll(objs: Heap, r: Ref, c: Ref)
    requires RefersStrongly(objs, r, c)
    ensures Refers(objs, r, c)
  {
    if objs[r].Table? {
      WeakNodeVals(objs[r].nodes, ModeOf(objs, objs[r].meta), Obj(c));
    }
  }

  // ---------------------------------------------------------------- roots and paths

  /** Roots that hold from one cycle to the next; `mt` and `running` are marked again atomically. */
  ghost predicate IsRoot(s: State, r: Ref) {
    r == s.roots.mainthread || r == s.roots.running || Obj(r) == s.roots.registry || Obj(r) in s.roots.mt
  }

  /** `p` is a path of references, each object referring to the next. */
  ghost predicate IsPath(objs: Heap, p: seq<Ref>) {
    |p| > 0 && forall i :: 0 <= i < |p| - 1 ==> Refers(objs, p[i], p[i + 1])
  }

  ghost predicate Reach(s: State, r: Ref) {
    exists p: seq<Ref> :: IsPath(s.objs, p) && IsRoot(s, p[0]) && p[|p| - 1] == r
  }

  lemma ReachRoot(s: State, r: Ref)
    requires IsRoot(s, r)
    ensures Reach(s, r)
  {
    var p := [r];
    assert IsPath(s.objs, p) && IsRoot(s, p[0]) && p[|p| - 1] == r;
  }

  lemma ReachStep(s: State, r: Ref, c: Ref)
    requires Reach(s, r) && Refers(s.objs, r, c)
    ensures Reach(s, c)
  {
    var p :| IsPath(s.objs, p) && IsRoot(s, p[0]) && p[|p| - 1] == r;
    var q := p + [c];
    assert IsPath(s.objs, q) && IsRoot(s, q[0]) && q[|q| - 1] == c;
  }

  // ---------------------------------------------------------------- liveness

  /** `isdead`: carries the white of the previous cycle. */
  predicate Dead(s: State, r: Ref) {
    r in s.m.color && s.m.color[r] == White(!s.white)
  }

  predicate Live(s: State, r: Ref) {
    r in s.objs && r in s.m.color && !Dead(s, r)
  }

  ghost predicate ClosedAt(s: State, r: Ref) {
    forall c :: Refers(s.objs, r, c) ==> Live(s, c)
  }

  /** Nothing that is not dead refers to a freed or a dead object. */
  ghost predicate RefsLive(s: State) {
    forall r :: Live(s, r) ==> ClosedAt(s, r)
  }

  ghost predicate RootsLive(s: State) {
    forall r :: IsRoot(s, r) ==> Live(s, r)
  }

  lemma {:induction false} PathLive(s: State, p: seq<Ref>)
    requires RefsLive(s)
    requires IsPath(s.objs, p) && Live(s, p[0])
    ensures Live(s, p[|p| - 1])
    decreases |p|
  {
    if |p| > 1 {
      var q := p[..|p| - 1];
      PathLive(s, q);
      assert Refers(s.objs, p[|p| - 2], p[|p| - 1]);
      assert ClosedAt(s, q[|q| - 1]);
    }
  }

  /** Whatever the program can reach is allocated and not dead. */
  lemma ReachLive(s: State, r: Ref)
    requires RefsLive(s) && RootsLive(s)
    requires Reach(s, r)
    ensures Live(s, r)
  {
    var p :| IsPath(s.objs, p) && IsRoot(s, p[0]) && p[|p| - 1] == r;
    PathLive(s, p);
  }
}

/**
  What an expression descriptor stands for, and the meaning of the basic steps of the generator.
 */
module CgSound {
  import opened Wrappers
  import opened CgSyntax
  import opened CgCode
  import opened CgGen

  // ---------------------------------------------------------------- well-formed states and descriptors

  ghost predicate FsOk(fs: FS) {
    && Formed(fs.code, fs.last)
    && AllPending(fs.code, fs.here)
    && (fs.here != {} ==> fs.last == |fs.code|)
    && fs.nact <= fs.free
  }

  function JmpOf(e: Exp): set<nat> {
    if e.k.VJmp? then {e.k.pc} else {}
  }

  /** The jumps that belong to an expression. */
  function Exits(e: Exp): set<nat> {
    e.t + e.f + JmpOf(e)
  }

  predicate Computes(i: Instr) {
    i.Set? && !i.rhs.Copy? && !i.rhs.Load?
  }

  ghost predicate KindOk(fs: FS, e: Exp) {
    match e.k
    case VK(i) => i < |fs.k|
    case VJmp(pc) => pc + 1 == |fs.code| && fs.here == {} && fs.last < pc && pc > 0 && fs.code[pc - 1].Cmp?
                     && pc !in e.t && pc !in e.f
    case VReloc(pc) => pc + 1 == |fs.code| && fs.here == {} && Computes(fs.code[pc]) && fs.last <= pc
    case VNonReloc(r) => r < fs.nact || r + 1 == fs.free
    case VLocal(r) => r < fs.nact
    case _ => true
  }

  ghost predicate ExpOk(fs: FS, e: Exp) {
    && KindOk(fs, e)
    && AllPending(fs.code, Exits(e))
    && e.t !! e.f && Exits(e) !! fs.here
  }

  // ---------------------------------------------------------------- the value of an expression

  /** The code before the instruction that will be given its target register. */
  function Base(fs: FS, e: Exp): Code {
    if e.k.VReloc? && e.k.pc <= |fs.code| then fs.code[..e.k.pc] else fs.code
  }

  function KindVal(p: Prims, fs: FS, k: Kind, r: Regs): Option<Val> {
    match k
    case VNil => Some(Nil)
    case VTrue => Some(Bool(true))
    case VFalse => Some(Bool(false))
    case VK(i) => Some(KVal(fs, i))
    case VKNum(n) => Some(Num(n))
    case VLocal(i) => Some(Get(r, i))
    case VNonReloc(i) => Some(Get(r, i))
    case VJmp(_) => Some(Bool(false))
    case VReloc(pc) => if pc < |fs.code| && fs.code[pc].Set? then RhsVal(p, fs.code[pc].rhs, r) else None
  }

  /** The value with which an exit leaves: that of the register its TESTSET tests, or `deflt`. */
  function ExitVal(code: Code, j: nat, r: Regs, deflt: bool): Val {
    if Valued(code, j) then Get(r, code[j - 1].b) else Bool(deflt)
  }

  /** What the expression delivers for a run of the code before it is used; None is a runtime error. */
  function Value(p: Prims, fs: FS, e: Exp, o: Outcome): Option<Val> {
    match o
    case Err => None
    case Fall(r) => KindVal(p, fs, e.k, r)
    case Exit(j, r) =>
      if j in e.t then Some(ExitVal(fs.code, j, r, true))
      else if j in e.f then Some(ExitVal(fs.code, j, r, false))
      else if j in JmpOf(e) then Some(Bool(true))
      else KindVal(p, fs, e.k, r)
  }

  /** The run leaves the code by a jump that belongs to somebody else. */
  predicate Outer(fs: FS, e: Exp, o: Outcome) {
    o.Exit? && o.j !in Exits(e) && o.j !in fs.here
  }

  /** Exits by the true list have a true value, exits by the false list a false one. */
  predicate Truthful(p: Prims, fs: FS, e: Exp, o: Outcome) {
    o.Exit? && !Outer(fs, e, o) ==>
      && (o.j in e.t ==> Value(p, fs, e, o) != Some(Nil) && Value(p, fs, e, o) != Some(Bool(false)))
      && (o.j in e.f ==> Value(p, fs, e, o) == Some(Nil) || Value(p, fs, e, o) == Some(Bool(false)))
  }

  /** Control reaches the end of the code. */
  predicate Reached(fs: FS, o: Outcome) {
    o.Fall? || (o.Exit? && o.j in fs.here)
  }

  function Run(p: Prims, fs: FS, e: Exp, r0: Regs): Outcome {
    Exec(p, Base(fs, e), 0, r0)
  }

  ghost predicate CarriesTo(p: Prims, n: nat, fs: FS, e: Exp, o: Outcome, fs': FS, e': Exp, o': Outcome) {
    if Outer(fs, e, o) then o' == o
    else
      && !Outer(fs', e', o') && Value(p, fs', e', o') == Value(p, fs, e, o)
      && (Truthful(p, fs, e, o) ==> Truthful(p, fs', e', o'))
      && (!o'.Err? ==> !o.Err? && Agree(o.r, o'.r, n))
  }

  /**
    `e'` in `fs'` delivers what `e` did in `fs`, with the same registers below `n`;
    a run that left by somebody else's jump still does.
   */
  ghost predicate Carries(p: Prims, n: nat, fs: FS, e: Exp, fs': FS, e': Exp, r0: Regs) {
    CarriesTo(p, n, fs, e, Run(p, fs, e, r0), fs', e', Run(p, fs', e', r0))
  }

  /** The jump at `j` is still pending, and has or has not a value as before. */
  ghost predicate SameExit(code: Code, code': Code, j: nat) {
    && IsPending(code', j)
    && Valued(code', j) == Valued(code, j)
    && (Valued(code, j) ==> code'[j - 1].b == code[j - 1].b)
  }

  /** Pending jumps that are not in `own` stay where they are, with their controls. */
  ghost predicate Frame(code: Code, code': Code, own: set<nat>) {
    forall j :: IsPending(code, j) && j !in own ==> SameExit(code, code', j)
  }

  /** Jumps come from `own`, or are new. */
  ghost predicate Within(l: set<nat>, own: set<nat>, n: nat) {
    forall j :: j in l ==> j in own || j >= n
  }

  lemma FrameTrans(a: Code, b: Code, c: Code, own: set<nat>, own': set<nat>)
    requires Frame(a, b, own) && Frame(b, c, own') && Within(own', own, |a|)
    ensures Frame(a, c, own)
  {
    forall j: nat | IsPending(a, j) && j !in own
      ensures SameExit(a, c, j)
    {
      assert SameExit(a, b, j) && j !in own';
    }
  }

  /** The structure of one step of the generator on an expression. */
  ghost predicate Moves(fs: FS, e: Exp, fs': FS, e': Exp) {
    && FsOk(fs') && ExpOk(fs', e')
    && Frame(fs.code, fs'.code, Exits(e) + fs.here)
    && Within(Exits(e') + fs'.here, Exits(e) + fs.here, |Base(fs, e)|)
    && |Base(fs, e)| <= |Base(fs', e')|
    && fs.k <= fs'.k && fs'.nact == fs.nact
  }

  lemma MovesTrans(a: FS, x: Exp, b: FS, y: Exp, c: FS, z: Exp)
    requires FsOk(a) && ExpOk(a, x)
    requires Moves(a, x, b, y) && Moves(b, y, c, z)
    ensures Moves(a, x, c, z)
  {
    hide FsOk;
    forall j: nat | IsPending(a.code, j) && j !in Exits(x) + a.here
      ensures SameExit(a.code, c.code, j)
    {
      assert j < |Base(a, x)|;
      assert SameExit(a.code, b.code, j);
      assert j !in Exits(y) + b.here;
      assert SameExit(b.code, c.code, j);
    }
  }

  lemma CarriesTrans(p: Prims, n: nat, a: FS, x: Exp, b: FS, y: Exp, c: FS, z: Exp, r0: Regs)
    requires Carries(p, n, a, x, b, y, r0) && Carries(p, n, b, y, c, z, r0)
    requires Within(Exits(y) + b.here, Exits(x) + a.here, |Base(a, x)|)
    ensures Carries(p, n, a, x, c, z, r0)
  {
    var o, o1, o2 := Run(p, a, x, r0), Run(p, b, y, r0), Run(p, c, z, r0);
    if Outer(a, x, o) {
      ExecExits(p, Base(a, x), 0, r0);
      assert Outer(b, y, o1);
    }
    hide Run, Value;
  }

  // ---------------------------------------------------------------- emitting

  lemma HereFormed(fs: FS)
    requires FsOk(fs)
    ensures IsEntry(fs.code, |fs.code|) && After(fs.code, fs.here, |fs.code|)
    ensures Formed(PatchedHere(fs), fs.last)
  {
    if |fs.code| > 0 {
      assert FormedAt(fs.code, fs.last, |fs.code| - 1);
    }
    PatchedFormed(fs.code, fs.last, fs.here, |fs.code|, None, |fs.code|, fs.last);
  }

  /** The jumps to here reach the end, as falling through does. */
  lemma HereRun(p: Prims, fs: FS, r0: Regs)
    requires FsOk(fs)
    ensures var o := Exec(p, fs.code, 0, r0);
            Exec(p, PatchedHere(fs), 0, r0) == if Reached(fs, o) then Fall(o.r) else o
  {
    HereFormed(fs);
    ExecPatched(p, fs.code, fs.last, fs.here, |fs.code|, None, |fs.code|, 0, r0);
  }

  lemma ExecLast(p: Prims, code: Code, last: int, a: nat, rhs: Rhs, r0: Regs)
    requires Formed(code, last)
    ensures var o := Exec(p, code, 0, r0);
            Exec(p, code + [Set(a, rhs)], 0, r0) ==
            if !o.Fall? then o
            else match RhsVal(p, rhs, o.r)
              case None => Err
              case Some(v) => Fall(o.r[a := v])
  {
    var i := Set(a, rhs);
    ExecAppend(p, code, last, [i], 0, r0);
    var c := code + [i];
    assert c[|code|] == i;
    hide RhsVal;
  }

  lemma ExecLastNil(p: Prims, code: Code, last: int, a: nat, b: nat, r0: Regs)
    requires Formed(code, last)
    ensures var o := Exec(p, code, 0, r0);
            Exec(p, code + [LoadNil(a, b)], 0, r0) == if o.Fall? then Fall(Nils(o.r, a, b)) else o
  {
    ExecAppend(p, code, last, [LoadNil(a, b)], 0, r0);
    var c := code + [LoadNil(a, b)];
    assert c[|code|] == LoadNil(a, b);
  }

  lemma EmitOk(fs: FS, i: Instr)
    requires FsOk(fs) && (i.Set? || i.LoadNil?)
    ensures FsOk(Emit(fs, i)) && Frame(fs.code, Emit(fs, i).code, fs.here)
    ensures Emit(fs, i).code[..|fs.code|] == PatchedHere(fs)
  {
    HereFormed(fs);
    AppendFormed(PatchedHere(fs), fs.last, i);
    var c := Emit(fs, i).code;
    forall j: nat | IsPending(fs.code, j) && j !in fs.here
      ensures SameExit(fs.code, c, j)
    {
      assert PatchedHere(fs)[j] == PatchedAt(fs.code, fs.here, |fs.code|, None, |fs.code|, j);
      if j > 0 {
        assert PatchedHere(fs)[j - 1] == PatchedAt(fs.code, fs.here, |fs.code|, None, |fs.code|, j - 1);
      }
    }
  }
}

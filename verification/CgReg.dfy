/** Putting the value of an expression into a register: discharge2reg, exp2reg and what calls them. */
module CgReg {
  import opened Wrappers
  import opened CgSyntax
  import opened CgCode
  import opened CgGen
  import opened CgSound

  /** `reg` is a local or the last reserved register, and not below `n`. */
  predicate CanHold(fs: FS, reg: nat, n: nat) {
    n <= reg && (reg < fs.nact || reg + 1 == fs.free)
  }

  /** Registers that are not parameters are nil when a function starts. */
  ghost predicate Clean(r0: Regs, nact: nat) {
    forall i :: i >= nact ==> Get(r0, i) == Nil
  }

  /** The run of `fs'` is that of `fs`, with register `reg` set at the end to what `k` stands for. */
  ghost predicate Loads(p: Prims, fs: FS, k: Kind, reg: nat, fs': FS, r0: Regs) {
    var o := Exec(p, fs.code, 0, r0);
    var o' := Exec(p, fs'.code, 0, r0);
    if Reached(fs, o) then
      Reached(fs', o') && KindVal(p, fs, k, o.r) == Some(Get(o'.r, reg)) && forall i :: i != reg
                                                                                        ==> Get(o'.r, i) == Get(o.r, i)
    else o' == o
  }

  lemma LoadsCarries(p: Prims, n: nat, fs: FS, e: Exp, reg: nat, fs': FS, r0: Regs)
    requires ExpOk(fs, e) && !e.k.VJmp? && !e.k.VReloc? && CanHold(fs, reg, n)
    requires Loads(p, fs, e.k, reg, fs', r0) && Frame(fs.code, fs'.code, fs.here)
    requires fs'.here == {} || fs'.here == fs.here
    ensures Carries(p, n, fs, e, fs', InReg(e, reg), r0)
  {
    var o := Exec(p, fs.code, 0, r0);
    var o' := Exec(p, fs'.code, 0, r0);
    hide FsOk, KindVal;
    ExecExits(p, fs.code, 0, r0);
    if o.Exit? && o.j !in fs.here {
      assert SameExit(fs.code, fs'.code, o.j);
    }
    if Reached(fs, o) {
      assert Value(p, fs', InReg(e, reg), o') == Some(Get(o'.r, reg)) by {
        assert o'.Exit? ==> o'.j !in Exits(e);
      }
    }
  }

  lemma LoadsMoves(fs: FS, e: Exp, reg: nat, fs': FS)
    requires FsOk(fs) && ExpOk(fs, e) && !e.k.VJmp? && !e.k.VReloc? && CanHold(fs, reg, 0)
    requires FsOk(fs') && Frame(fs.code, fs'.code, fs.here)
    requires (fs'.here == {} || fs'.here == fs.here) && fs.k <= fs'.k && fs'.nact == fs.nact && fs'.free == fs.free
      && |fs.code| <= |fs'.code|
    ensures Moves(fs, e, fs', InReg(e, reg))
  {
    hide Formed;
    forall j | j in Exits(e)
      ensures IsPending(fs'.code, j)
    {
      assert SameExit(fs.code, fs'.code, j);
    }
  }

  lemma EmitSetLoads(p: Prims, fs: FS, k: Kind, reg: nat, rhs: Rhs, r0: Regs)
    requires FsOk(fs)
    requires forall r :: RhsVal(p, rhs, r) == KindVal(p, fs, k, r) && RhsVal(p, rhs, r).Some?
    ensures Loads(p, fs, k, reg, Emit(fs, Set(reg, rhs)), r0)
  {
    HereFormed(fs);
    HereRun(p, fs, r0);
    ExecLast(p, PatchedHere(fs), fs.last, reg, rhs, r0);
    hide RhsVal, KindVal, PatchedHere;
  }

  lemma EmitNilLoads(p: Prims, fs: FS, reg: nat, r0: Regs)
    requires FsOk(fs)
    ensures Loads(p, fs, VNil, reg, Emit(fs, LoadNil(reg, reg)), r0)
  {
    HereFormed(fs);
    HereRun(p, fs, r0);
    ExecLastNil(p, PatchedHere(fs), fs.last, reg, reg, r0);
    hide PatchedHere;
  }

  /** A LOADNIL just before, which nothing jumps over, is extended. */
  lemma ExtendNil(p: Prims, fs: FS, reg: nat, r0: Regs)
    requires FsOk(fs) && |fs.code| > fs.last && Extends(fs, reg)
    ensures var fs' := LoadNilInto(fs, reg);
            FsOk(fs') && Frame(fs.code, fs'.code, fs.here) && Loads(p, fs, VNil, reg, fs', r0)
  {
    var n := |fs.code| - 1;
    var base := fs.code[..n];
    var prev := fs.code[n];
    var fs' := LoadNilInto(fs, reg);
    BaseFormed(fs);
    assert fs.code == base + [prev];
    ExecLastNil(p, base, fs.last, prev.a, prev.b, r0);
    var b := if reg > prev.b then reg else prev.b;
    ExecLastNil(p, base, fs.last, prev.a, b, r0);
    AppendFormed(base, fs.last, LoadNil(prev.a, b));
    assert AllPending(fs'.code, fs.here);
  }

  /** Without its last instruction, when nothing jumps past it, the code is still formed. */
  lemma BaseFormed(fs: FS)
    requires FsOk(fs) && |fs.code| > fs.last && |fs.code| > 0 && !fs.code[|fs.code| - 1].Jmp?
    ensures Formed(fs.code[..|fs.code| - 1], fs.last)
  {
    var n := |fs.code| - 1;
    var base := fs.code[..n];
    forall i | 0 <= i < n
      ensures FormedAt(base, fs.last, i)
    {
      assert FormedAt(fs.code, fs.last, i);
    }
  }

  lemma NilLoads(p: Prims, fs: FS, reg: nat, r0: Regs)
    requires FsOk(fs) && Clean(r0, fs.nact)
    ensures var fs' := LoadNilInto(fs, reg);
            FsOk(fs') && Frame(fs.code, fs'.code, fs.here) && Loads(p, fs, VNil, reg, fs', r0)
            && (fs'.here == {} || fs'.here == fs.here) && |fs.code| <= |fs'.code|
  {
    var n := |fs.code|;
    if n > fs.last && n == 0 && reg >= fs.nact {
    } else if n > fs.last && Extends(fs, reg) {
      ExtendNil(p, fs, reg, r0);
    } else {
      EmitNilLoads(p, fs, reg, r0);
      EmitOk(fs, LoadNil(reg, reg));
    }
  }

  lemma AddKOk(fs: FS, v: Val)
    ensures fs.k <= AddK(fs, v).k
    ensures var i := IndexOf(fs.k, v); i < |AddK(fs, v).k| && AddK(fs, v).k[i] == v
    ensures FsOk(fs) ==> FsOk(AddK(fs, v))
  {
    IndexIn(fs.k, v);
  }

  lemma {:induction false} IndexIn(k: seq<Val>, v: Val)
    ensures v in k <==> IndexOf(k, v) < |k|
  {
    if k != [] {
      assert k == [k[0]] + k[1..];
      IndexIn(k[1..], v);
    }
  }

  /** The instruction that loads a value of kind `k`. */
  function RhsFor(fs: FS, k: Kind): Rhs {
    match k
    case VTrue => Load(Bool(true))
    case VFalse => Load(Bool(false))
    case VK(i) => Load(KVal(fs, i))
    case VKNum(n) => Load(Num(n))
    case VNonReloc(r) => Copy(r)
    case VLocal(r) => Copy(r)
    case _ => Load(Nil)
  }

  predicate Plain(k: Kind) {
    !k.VJmp? && !k.VReloc?
  }

  lemma PlainLoads(p: Prims, fs: FS, e: Exp, reg: nat, r0: Regs)
    requires FsOk(fs) && ExpOk(fs, e) && Plain(e.k) && Clean(r0, fs.nact)
    ensures var fs' := Discharge2Reg(fs, e, reg);
            FsOk(fs') && Frame(fs.code, fs'.code, fs.here) && Loads(p, fs, e.k, reg, fs', r0)
            && (fs'.here == {} || fs'.here == fs.here) && fs.k <= fs'.k && fs'.nact == fs.nact && fs'.free == fs.free
            && |fs.code| <= |fs'.code|
  {
    var k := Discharge(e).k;
    if k.VNil? {
      NilLoads(p, fs, reg, r0);
    } else if k == VNonReloc(reg) {
    } else {
      var fs1 := if k.VKNum? then AddK(fs, Num(k.n)) else fs;
      if k.VKNum? {
        AddKOk(fs, Num(k.n));
      }
      var rhs := RhsFor(fs, k);
      assert Discharge2Reg(fs, e, reg) == Emit(fs1, Set(reg, rhs));
      EmitOk(fs1, Set(reg, rhs));
      EmitSetLoads(p, fs1, k, reg, rhs, r0);
    }
  }

  lemma RelocRun(p: Prims, fs: FS, e: Exp, reg: nat, r0: Regs)
    requires FsOk(fs) && ExpOk(fs, e) && e.k.VReloc?
    ensures var fs' := Discharge2Reg(fs, e, reg);
            Formed(Base(fs, e), fs.last) && fs'.code == Base(fs, e) + [Set(reg, fs.code[e.k.pc].rhs)]
  {
    BaseFormed(fs);
    assert fs.code == Base(fs, e) + [fs.code[e.k.pc]];
  }

  lemma RelocLoads(p: Prims, n: nat, fs: FS, e: Exp, reg: nat, r0: Regs)
    requires FsOk(fs) && ExpOk(fs, e) && e.k.VReloc? && CanHold(fs, reg, n)
    ensures var fs' := Discharge2Reg(fs, e, reg);
            Moves(fs, e, fs', InReg(e, reg)) && Carries(p, n, fs, e, fs', InReg(e, reg), r0)
  {
    var fs' := Discharge2Reg(fs, e, reg);
    var base := Base(fs, e);
    var rhs := fs.code[e.k.pc].rhs;
    RelocRun(p, fs, e, reg, r0);
    ExecLast(p, base, fs.last, reg, rhs, r0);
    AppendFormed(base, fs.last, Set(reg, rhs));
    ExecExits(p, base, 0, r0);
    hide RhsVal, Formed;
  }

  /** discharge2reg keeps the exits and moves the value into the register. */
  lemma Discharge2RegOk(p: Prims, n: nat, fs: FS, e: Exp, reg: nat, r0: Regs)
    requires FsOk(fs) && ExpOk(fs, e) && !e.k.VJmp? && CanHold(fs, reg, n) && Clean(r0, fs.nact)
    ensures var fs' := Discharge2Reg(fs, e, reg);
            Moves(fs, e, fs', InReg(e, reg)) && Carries(p, n, fs, e, fs', InReg(e, reg), r0) && fs'.free == fs.free
  {
    if e.k.VReloc? {
      RelocLoads(p, n, fs, e, reg, r0);
    } else {
      PlainLoads(p, fs, e, reg, r0);
      var fs' := Discharge2Reg(fs, e, reg);
      hide Discharge2Reg, FsOk, Loads, ExpOk;
      LoadsMoves(fs, e, reg, fs');
      LoadsCarries(p, n, fs, e, reg, fs', r0);
    }
  }
}

/** luaK_exp2nextreg, luaK_exp2anyreg, luaK_exp2val and luaK_exp2RK deliver the value they are given. */
module CgExps {
  import opened CgSyntax
  import opened CgCode
  import opened CgGen
  import opened CgSound
  import opened CgReg
  import opened CgClose

  /** The first register that was free before the expression. */
  function Room(fs: FS, e: Exp): int {
    if e.k.VNonReloc? && e.k.r >= fs.nact then fs.free - 1 else fs.free
  }

  ghost predicate ExpState(fs: FS, e: Exp) {
    FsOk(fs) && ExpOk(fs, e)
  }

  /**
    A step of the generator on one expression: the same value, the same registers in use, the rest
    of the code unharmed.
   */
  ghost predicate Keeps(p: Prims, fs: FS, e: Exp, fs': FS, e': Exp, r0: Regs) {
    && Moves(fs, e, fs', e')
    && Room(fs', e') == Room(fs, e) >= 0
    && Carries(p, Room(fs, e), fs, e, fs', e', r0)
  }

  lemma KeepsTrans(p: Prims, a: FS, x: Exp, b: FS, y: Exp, c: FS, z: Exp, r0: Regs)
    requires ExpState(a, x) && Keeps(p, a, x, b, y, r0) && Keeps(p, b, y, c, z, r0)
    ensures Keeps(p, a, x, c, z, r0)
  {
    MovesTrans(a, x, b, y, c, z);
    CarriesTrans(p, Room(a, x), a, x, b, y, c, z, r0);
    hide Carries, FsOk, ExpOk, Frame;
  }

  lemma SameOk(p: Prims, n: nat, fs: FS, e: Exp, r0: Regs)
    requires ExpState(fs, e)
    ensures Moves(fs, e, fs, e) && Carries(p, n, fs, e, fs, e, r0)
  {
    hide Formed, Value;
  }

  lemma DischargeOk(p: Prims, fs: FS, e: Exp, r0: Regs)
    requires ExpState(fs, e)
    ensures ExpState(fs, Discharge(e)) && Keeps(p, fs, e, fs, Discharge(e), r0)
  {
    hide Formed, RhsVal;
  }

  lemma VJmpNeedsValue(fs: FS, e: Exp)
    requires ExpState(fs, e) && e.k.VJmp?
    ensures NeedValue(fs.code, TrueList(e)) && TrueList(e) != {} && fs.here == {}
  {
    assert e.k.pc in TrueList(e) && !Valued(fs.code, e.k.pc);
  }

  /** The end of exp2reg, for an expression whose value is in its register. */
  function Closed(fs: FS, e: Exp, reg: nat): FS {
    if e.t == {} && e.f == {} then fs
    else if NeedValue(fs.code, e.t) || NeedValue(fs.code, e.f) then
      var fs2 := LoadBools(fs, true, reg);
      var n := |fs2.code|;
      PatchValues(fs2, e.t, e.f, reg, n - 2, n - 1)
    else PatchValues(fs, e.t, e.f, reg, |fs.code|, |fs.code|)
  }

  lemma ClosedFree(fs: FS, e: Exp, reg: nat)
    ensures Closed(fs, e, reg).free == fs.free
  {
    LoadBoolsCode(fs, true, reg);
    hide NeedValue, Patched, LoadBools;
  }

  lemma CloseOk(p: Prims, n: nat, fs: FS, e: Exp, reg: nat, r0: Regs)
    requires ExpState(fs, e) && CanHold(fs, reg, n) && e.k == VNonReloc(reg)
    ensures var fs' := Closed(fs, e, reg);
            Moves(fs, e, fs', Fixed(reg)) && Carries(p, n, fs, e, fs', Fixed(reg), r0) && fs'.free == fs.free
  {
    hide FsOk, ExpOk, LoadBools, NeedValue, PatchValues, Moves, Carries;
    ClosedFree(fs, e, reg);
    if e.t == {} && e.f == {} {
      SameOk(p, n, fs, e, r0);
      assert e == Fixed(reg);
    } else if NeedValue(fs.code, e.t) || NeedValue(fs.code, e.f) {
      CloseLoads(p, n, fs, e, reg, r0);
      LoadsMoved(fs, e, reg, n);
    } else {
      CloseValued(p, n, fs, e, reg, r0);
    }
  }

  lemma Exp2RegJmp(p: Prims, n: nat, fs: FS, e: Exp, reg: nat, r0: Regs)
    requires ExpState(fs, e) && CanHold(fs, reg, n) && e.k.VJmp?
    ensures var fs' := Exp2Reg(fs, e, reg);
            Moves(fs, e, fs', Fixed(reg)) && Carries(p, n, fs, e, fs', Fixed(reg), r0) && fs'.free == fs.free
  {
    hide FsOk, ExpOk, LoadBools, NeedValue, Patched, Frame, CarriesTo, Discharge2Reg;
    VJmpNeedsValue(fs, e);
    LoadBoolsCode(fs, false, reg);
    JmpStays(fs, e, reg);
    CloseLoads(p, n, fs, e, reg, r0);
    LoadsMoved(fs, e, reg, n);
  }

  lemma JmpStays(fs: FS, e: Exp, reg: nat)
    requires e.k.VJmp?
    ensures Discharge2Reg(fs, e, reg) == fs
  {
  }

  lemma Exp2RegOk(p: Prims, n: nat, fs: FS, e: Exp, reg: nat, r0: Regs)
    requires ExpState(fs, e) && CanHold(fs, reg, n) && Clean(r0, fs.nact)
    ensures var fs' := Exp2Reg(fs, e, reg);
            Moves(fs, e, fs', Fixed(reg)) && Carries(p, n, fs, e, fs', Fixed(reg), r0) && fs'.free == fs.free
  {
    hide FsOk, ExpOk, PatchValues, LoadBools, NeedValue, Discharge2Reg, Frame, Carries, Exp2Reg;
    if e.k.VJmp? {
      Exp2RegJmp(p, n, fs, e, reg, r0);
    } else {
      var fs1 := Discharge2Reg(fs, e, reg);
      var e1 := InReg(e, reg);
      Discharge2RegOk(p, n, fs, e, reg, r0);
      CloseOk(p, n, fs1, e1, reg, r0);
      var fs' := Exp2Reg(fs, e, reg);
      Exp2RegClosed(fs, e, reg);
      hide Closed, Moves;
      MovesTrans(fs, e, fs1, e1, fs', Fixed(reg));
      CarriesOn(p, n, fs, e, fs1, e1, fs', Fixed(reg), r0);
    }
  }

  lemma CarriesOn(p: Prims, n: nat, a: FS, x: Exp, b: FS, y: Exp, c: FS, z: Exp, r0: Regs)
    requires Carries(p, n, a, x, b, y, r0) && Carries(p, n, b, y, c, z, r0) && Moves(a, x, b, y)
    ensures Carries(p, n, a, x, c, z, r0)
  {
    hide Carries, FsOk, ExpOk, Frame;
    CarriesTrans(p, n, a, x, b, y, c, z, r0);
  }

  lemma Exp2RegClosed(fs: FS, e: Exp, reg: nat)
    requires !e.k.VJmp?
    ensures Exp2Reg(fs, e, reg) == Closed(Discharge2Reg(fs, e, reg), InReg(e, reg), reg)
  {
    hide PatchValues, LoadBools, NeedValue, Discharge2Reg;
  }

  // ---------------------------------------------------------------- choosing the register

  /** Changing which registers are reserved above a value that is not in one of them. */
  lemma ReservedOk(p: Prims, n: nat, fs: FS, e: Exp, free: nat, r0: Regs)
    requires ExpState(fs, e) && free >= fs.nact && (e.k.VNonReloc? ==> e.k.r < fs.nact || free == fs.free)
    ensures var fs1 := fs.(free := free);
            ExpState(fs1, e) && Moves(fs, e, fs1, e) && Carries(p, n, fs, e, fs1, e, r0)
  {
    hide Formed, RhsVal;
  }

  lemma Exp2NextOk(p: Prims, fs: FS, e: Exp, r0: Regs)
    requires ExpState(fs, e) && Clean(r0, fs.nact)
    ensures var r := Exp2Next(fs, e);
            Keeps(p, fs, e, r.0, r.1, r0) && r.1 == Fixed(Room(fs, e)) && r.0.free == Room(fs, e) + 1
  {
    hide Exec;
    var e1 := Discharge(e);
    DischargeOk(p, fs, e, r0);
    var n := Room(fs, e);
    var fs2 := fs.(free := n + 1);
    assert Reserve(FreeExp(fs, e1)) == fs2;
    ReservedOk(p, n, fs, e1, n + 1, r0);
    assert FsOk(fs) ==> fs.nact <= fs.free;
    hide FsOk, ExpOk, Exp2Reg;
    Exp2RegOk(p, n, fs2, e1, n, r0);
    var r := Exp2Next(fs, e);
    MovesTrans(fs, e1, fs2, e1, r.0, r.1);
    CarriesTrans(p, n, fs, e1, fs2, e1, r.0, r.1, r0);
    assert Keeps(p, fs, e1, r.0, r.1, r0);
    KeepsTrans(p, fs, e, fs, e1, r.0, r.1, r0);
  }

  lemma Exp2AnyOk(p: Prims, fs: FS, e: Exp, r0: Regs)
    requires ExpState(fs, e) && Clean(r0, fs.nact)
    ensures var r := Exp2Any(fs, e);
            Keeps(p, fs, e, r.0, r.1, r0) && r.1.k.VNonReloc? && !HasJumps(r.1)
  {
    var e1 := Discharge(e);
    DischargeOk(p, fs, e, r0);
    if e1.k.VNonReloc? && !HasJumps(e1) {
    } else if e1.k.VNonReloc? && e1.k.r >= fs.nact {
      var n := Room(fs, e1);
      Exp2RegOk(p, n, fs, e1, e1.k.r, r0);
      hide FsOk, ExpOk, Exp2Reg;
      var r := Exp2Any(fs, e);
      assert Keeps(p, fs, e1, r.0, r.1, r0);
      KeepsTrans(p, fs, e, fs, e1, r.0, r.1, r0);
    } else {
      hide FsOk, ExpOk;
      Exp2NextOk(p, fs, e1, r0);
      var r := Exp2Next(fs, e1);
      hide Exp2Next;
      KeepsTrans(p, fs, e, fs, e1, r.0, r.1, r0);
    }
  }

  lemma Exp2ValOk(p: Prims, fs: FS, e: Exp, r0: Regs)
    requires ExpState(fs, e) && Clean(r0, fs.nact)
    ensures var r := Exp2Val(fs, e);
            Keeps(p, fs, e, r.0, r.1, r0) && !HasJumps(r.1) && !r.1.k.VLocal?
  {
    hide ExpState, Exp2Any, Keeps;
    if HasJumps(e) {
      Exp2AnyOk(p, fs, e, r0);
    } else {
      DischargeOk(p, fs, e, r0);
    }
  }

  /** A literal that becomes a constant of the function. */
  lemma ConstantOk(p: Prims, fs: FS, e: Exp, r0: Regs)
    requires ExpState(fs, e) && Literal(e.k).Some?
    ensures var v := Literal(e.k).value;
            Keeps(p, fs, e, AddK(fs, v), e.(k := VK(IndexOf(fs.k, v))), r0)
  {
    hide Formed, RhsVal, Exec;
    var v := Literal(e.k).value;
    AddKOk(fs, v);
    var fs', i := AddK(fs, v), IndexOf(fs.k, v);
    assert KVal(fs', i) == v && fs' == fs.(k := fs'.k) && fs.k <= fs'.k;
    hide AddK, IndexOf, AllPending;
    assert Moves(fs, e, fs', e.(k := VK(i)));
  }

  /** An operand that luaK_exp2RK leaves as it is. */
  predicate IsRK(e: Exp) {
    !HasJumps(e) && (e.k.VNonReloc? || (e.k.VK? && e.k.info <= MAXINDEXRK))
  }

  lemma Exp2RKOk(p: Prims, fs: FS, e: Exp, r0: Regs)
    requires ExpState(fs, e) && Clean(r0, fs.nact)
    ensures var r := Exp2RK(fs, e);
            Keeps(p, fs, e, r.0, r.1, r0) && IsRK(r.1)
  {
    Exp2ValOk(p, fs, e, r0);
    var r := Exp2Val(fs, e);
    assert ExpState(r.0, r.1) && r.0.nact == fs.nact by {
      hide FsOk, ExpOk, Frame, Carries;
    }
    hide ExpState, Exp2Val, Exp2Any, AddK, IndexOf;
    var lit := Literal(r.1.k);
    var r' := Exp2RK(fs, e);
    if lit.Some? && |r.0.k| <= MAXINDEXRK {
      ConstantOk(p, r.0, r.1, r0);
      hide Keeps;
      KeepsTrans(p, fs, e, r.0, r.1, r'.0, r'.1, r0);
    } else if r.1.k.VK? && r.1.k.info <= MAXINDEXRK {
    } else {
      Exp2AnyOk(p, r.0, r.1, r0);
      hide Keeps;
      KeepsTrans(p, fs, e, r.0, r.1, r'.0, r'.1, r0);
    }
  }
}

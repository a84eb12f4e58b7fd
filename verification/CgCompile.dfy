/**
  The code of every expression does what the expression means: whatever the registers hold when
  the function starts.
 */
module CgCompile {
  import opened Wrappers
  import opened CgSyntax
  import opened CgCode
  import opened CgGen
  import opened CgSound
  import opened CgReg
  import opened CgExps
  import opened CgConds
  import opened CgNot
  import opened CgOps

  // ---------------------------------------------------------------- emitting the operation

  lemma BothRun(p: Prims, n: nat, a: Expr, b: Expr, fs: FS, o: Outcome, fs': FS, x: Rk, y: Rk, o': Outcome, op: ArithOp)
    requires Both(p, n, a, b, fs, o, fs', x, y, o')
    ensures var e := EArith(op, a, b);
            var o2 := Arrive(fs', o');
            if Reached(fs, o) then (if o2.Err? then Eval(p, e, o.r) == None
                                   else o2.Fall? && RhsVal(p, Bin(op, x, y), o2.r) == Eval(p, e, o.r)
                                        && Agree(o.r, o2.r, n))
            else o2 == o
  {
    hide Arith, RkVal;
  }

  lemma RelocMoves(fs: FS, fs': FS, i: Instr)
    requires FsOk(fs) && Moves(fs, UNIT, fs', UNIT) && fs'.free == fs.free && Computes(i)
    ensures var fs2 := Emit(fs', i);
            var e := Exp(VReloc(|fs'.code|), {}, {});
            Moves(fs, UNIT, fs2, e) && Room(fs2, e) == fs.free && Base(fs2, e) == PatchedHere(fs')
            && |fs2.code| == |fs'.code| + 1 && fs2.code[|fs'.code|] == i && fs2.here == {}
  {
    var fs2 := Emit(fs', i);
    var e := Exp(VReloc(|fs'.code|), {}, {});
    EmitOk(fs', i);
    assert fs2.code[|fs'.code|] == i;
    hide Formed, PatchedHere;
    assert Moves(fs', UNIT, fs2, e);
    UnitOk(fs);
    hide FsOk, ExpOk, Frame;
    MovesTrans(fs, UNIT, fs', UNIT, fs2, e);
  }

  lemma ArithEmit(p: Prims, op: ArithOp, a: Expr, b: Expr, fs: FS, fs': FS, x: Rk, y: Rk, r0: Regs)
    requires FsOk(fs) && BothOk(p, a, b, fs, fs', x, y, r0) && fs'.free == fs.free
    ensures var i := Set(0, Bin(op, x, y));
            Compiled(p, EArith(op, a, b), fs, Emit(fs', i), Exp(VReloc(|fs'.code|), {}, {}), r0)
  {
    hide FsOk, Moves, Both, Exec, RhsVal, Emit, Base, Eval;
    var i := Set(0, Bin(op, x, y));
    var o, o' := Exec(p, fs.code, 0, r0), Exec(p, fs'.code, 0, r0);
    RelocMoves(fs, fs', i);
    MovesFs(fs, fs');
    HereRun(p, fs', r0);
    BothRun(p, fs.free, a, b, fs, o, fs', x, y, o', op);
    hide PatchedHere;
  }

  lemma MovesFs(fs: FS, fs': FS)
    requires Moves(fs, UNIT, fs', UNIT)
    ensures FsOk(fs')
  {
  }

  // ---------------------------------------------------------------- binary arithmetic

  lemma RkSame(fs: FS, e: Exp)
    requires IsRK(e)
    ensures Exp2RK(fs, e) == (fs, e)
  {
  }

  /** Registers taken by an operand. */
  function Temps(fs: FS, e: Exp): nat {
    if e.k.VNonReloc? && e.k.r >= fs.nact then 1 else 0
  }

  lemma FreeBoth(fs: FS, e1: Exp, e2: Exp)
    requires fs.free >= Temps(fs, e1) + Temps(fs, e2)
    ensures FreeExp(FreeExp(fs, e1), e2) == fs.(free := fs.free - Temps(fs, e1) - Temps(fs, e2))
  {
  }

  lemma WaitingBelow(fs: FS, fs2: FS, e1: Exp, fs3: FS, e2: Exp)
    requires FsOk(fs) && Moves(fs, UNIT, fs2, e1) && Room(fs2, e1) == fs.free && Waits(e1)
    requires Moves(fs2, UNIT, fs3, e2) && Room(fs3, e2) == fs2.free
    ensures (e1.k.VNonReloc? ==> e1.k.r < fs2.free) && (e1.k.VK? ==> e1.k.info < |fs3.k|) && fs.free <= fs2.free
    ensures fs2.free == fs.free + Temps(fs2, e1) && fs2.nact == fs3.nact == fs.nact && ExpState(fs3, e2)
    ensures IsNumeral(e1) && fs3.nact <= fs3.free ==> ExpState(fs3, e1)
  {
    hide Formed, Frame, Within;
    UnitOk(fs);
  }

  lemma Operands(p: Prims, a: Expr, b: Expr, fs: FS, fs2: FS, e1: Exp, fs3: FS, e2: Exp, r0: Regs)
    requires FsOk(fs) && Compiled(p, a, fs, fs2, e1, r0) && IsRK(e1) && Compiled(p, b, fs2, fs3, e2, r0)
    requires Legal(p, b, fs.nact) && Clean(r0, fs.nact)
    ensures var r2 := Exp2RK(fs3, e2);
            IsRK(r2.1) && r2.0.free == fs.free + Temps(r2.0, e1) + Temps(r2.0, r2.1)
            && BothOk(p, a, b, fs, r2.0, RkOf(r2.0, e1), RkOf(r2.0, r2.1), r0)
  {
    hide FsOk, Moves, Delivers, Exec, Legal, ExpOk, Pair, Both, Exp2RK;
    SecondOk(p, a, b, fs, fs2, e1, fs3, e2, r0);
    WaitingBelow(fs, fs2, e1, fs3, e2);
    Exp2RKOk(p, fs3, e2, r0);
    var r2 := Exp2RK(fs3, e2);
    PairKeeps(p, a, b, fs, fs3, e1, e2, r2.0, r2.1, r0);
    PairBoth(p, a, b, fs, r2.0, e1, r2.1, r0);
    KeepsNact(p, fs3, e2, r2.0, r2.1, r0);
  }

  lemma KeepsNact(p: Prims, fs: FS, e: Exp, fs': FS, e': Exp, r0: Regs)
    requires Keeps(p, fs, e, fs', e', r0)
    ensures fs'.nact == fs.nact && fs'.nact <= fs'.free && ExpState(fs', e')
  {
    hide Formed, Frame, Within, CarriesTo;
  }

  lemma NumeralOperands(p: Prims, a: Expr, b: Expr, fs: FS, fs2: FS, e1: Exp, fs3: FS, e2: Exp, r0: Regs)
    requires FsOk(fs) && Compiled(p, a, fs, fs2, e1, r0) && IsNumeral(e1) && Compiled(p, b, fs2, fs3, e2, r0)
    requires Legal(p, b, fs.nact) && Clean(r0, fs.nact)
    ensures var r2 := Exp2RK(fs3, e2);
            var r1 := Exp2RK(r2.0, e1);
            IsRK(r1.1) && IsRK(r2.1) && r1.0.free == fs.free + Temps(r1.0, r1.1) + Temps(r1.0, r2.1)
            && BothOk(p, a, b, fs, r1.0, RkOf(r1.0, r1.1), RkOf(r1.0, r2.1), r0)
  {
    hide FsOk, Moves, Delivers, Exec, Legal, ExpOk, Pair, Both, Exp2RK, IsRK;
    SecondOk(p, a, b, fs, fs2, e1, fs3, e2, r0);
    WaitingBelow(fs, fs2, e1, fs3, e2);
    Exp2RKOk(p, fs3, e2, r0);
    var r2 := Exp2RK(fs3, e2);
    PairKeeps(p, a, b, fs, fs3, e1, e2, r2.0, r2.1, r0);
    KeepsNact(p, fs3, e2, r2.0, r2.1, r0);
    NumeralState(r2.0, r2.1, e1);
    Exp2RKOk(p, r2.0, e1, r0);
    var r1 := Exp2RK(r2.0, e1);
    KeepsNact(p, r2.0, e1, r1.0, r1.1, r0);
    NumeralPair(p, a, b, fs, r2.0, e1, r2.1, r1.0, r1.1, r0);
  }

  lemma NumeralState(fs: FS, e2: Exp, e: Exp)
    requires ExpState(fs, e2) && IsNumeral(e)
    ensures ExpState(fs, e)
  {
    hide Formed;
  }

  lemma FoldedOk(p: Prims, op: ArithOp, a: Expr, b: Expr, fs: FS, fs2: FS, e1: Exp, fs3: FS, e2: Exp, n: Number,
      r0: Regs)
    requires FsOk(fs) && Compiled(p, a, fs, fs2, e1, r0) && Waits(e1) && Compiled(p, b, fs2, fs3, e2, r0)
    requires Legal(p, b, fs.nact) && Folded(p, op, e1, e2) == Some(n)
    ensures Compiled(p, EArith(op, a, b), fs, fs3, e1.(k := VKNum(n)), r0)
  {
    SecondOk(p, a, b, fs, fs2, e1, fs3, e2, r0);
    var e := e1.(k := VKNum(n));
    assert e.t == {} && e.f == {} && e2.t == {} && e2.f == {};
    hide Legal, Exec, Delivers;
    assert Moves(fs, UNIT, fs3, e) && Room(fs3, e) == fs.free by {
      hide Formed, Frame, Within, Pair;
    }
    hide FsOk, Moves;
    FoldedRun(p, fs.free, op, a, b, fs, Exec(p, fs.code, 0, r0), fs3, e1, e2, Run(p, fs3, e2, r0), n);
  }

  lemma FoldedRun(p: Prims, m: nat, op: ArithOp, a: Expr, b: Expr, fs: FS, o: Outcome, fs': FS, e1: Exp, e2: Exp,
      o': Outcome, n: Number)
    requires Pair(p, m, a, b, fs, o, fs', e1, e2, o') && Folded(p, op, e1, e2) == Some(n)
    ensures Delivers(p, m, EArith(op, a, b), fs, o, fs', e1.(k := VKNum(n)), o')
  {
  }

  lemma ArithOk(p: Prims, op: ArithOp, a: Expr, b: Expr, fs: FS, fs2: FS, e1: Exp, fs3: FS, e2: Exp, r0: Regs)
    requires FsOk(fs) && Compiled(p, a, fs, fs2, e1, r0) && Waits(e1) && Compiled(p, b, fs2, fs3, e2, r0)
    requires Legal(p, b, fs.nact) && Clean(r0, fs.nact)
    ensures var r := CodeArith(p, fs3, op, e1, e2); Compiled(p, EArith(op, a, b), fs, r.0, r.1, r0)
  {
    hide FsOk, Compiled, Both, Exec, Exp2RK, FreeExp, Legal, Emit, RkOf, Moves;
    var n := Folded(p, op, e1, e2);
    if n.Some? {
      FoldedOk(p, op, a, b, fs, fs2, e1, fs3, e2, n.value, r0);
    } else {
      var r2 := Exp2RK(fs3, e2);
      var r1 := Exp2RK(r2.0, e1);
      if IsRK(e1) {
        RkSame(r2.0, e1);
        Operands(p, a, b, fs, fs2, e1, fs3, e2, r0);
      } else {
        NumeralOperands(p, a, b, fs, fs2, e1, fs3, e2, r0);
      }
      FreeBoth(r1.0, r1.1, r2.1);
      var fs1 := FreeExp(FreeExp(r1.0, r1.1), r2.1);
      BothFreed(p, a, b, fs, r1.0, fs1, RkOf(r1.0, r1.1), RkOf(r1.0, r2.1), r0);
      ArithEmit(p, op, a, b, fs, fs1, RkOf(r1.0, r1.1), RkOf(r1.0, r2.1), r0);
    }
  }

  lemma BothFreed(p: Prims, a: Expr, b: Expr, fs: FS, fs': FS, fs2: FS, x: Rk, y: Rk, r0: Regs)
    requires FsOk(fs) && BothOk(p, a, b, fs, fs', x, y, r0) && fs2 == fs'.(free := fs.free)
    ensures BothOk(p, a, b, fs, fs2, x, y, r0)
  {
    hide Exec, Eval, Formed, Frame, Within;
  }

  // ---------------------------------------------------------------- comparisons

  lemma TakenCompare(p: Prims, op: CompOp, x: Rk, y: Rk, r: Regs)
    ensures IsTest(CompTest(op, x, y)) && Taken(p, CompTest(op, x, y), r) == Compare(p, op, RkVal(x, r), RkVal(y, r))
  {
  }

  lemma CompRun(p: Prims, n: nat, op: CompOp, a: Expr, b: Expr, fs: FS, o: Outcome, fs': FS, x: Rk, y: Rk, o': Outcome,
      fs2: FS, m: nat)
    requires Both(p, n, a, b, fs, o, fs', x, y, o') && fs2.here == {} && IsTest(CompTest(op, x, y))
    requires !Reached(fs, o) ==> o.Err? || o.j != m + 1
    ensures Delivers(p, n, EComp(op, a, b), fs, o, fs2, Exp(VJmp(m + 1), {}, {}),
      AfterTest(p, CompTest(op, x, y), m, Arrive(fs', o')))
  {
    var o1 := Arrive(fs', o');
    if o1.Fall? {
      TakenCompare(p, op, x, y, o1.r);
    }
    hide Compare, RkVal, Taken, CompTest;
  }

  lemma JmpMoves(fs: FS, fs': FS, test: Instr)
    requires FsOk(fs) && Moves(fs, UNIT, fs', UNIT) && fs'.free == fs.free && test.Cmp?
    ensures var fs2 := CondJump(fs', test);
            var e := Exp(VJmp(|fs'.code| + 1), {}, {});
            Moves(fs, UNIT, fs2, e) && Room(fs2, e) == fs.free && fs2.here == {} && |fs.code| <= |fs'.code|
  {
    var fs2 := CondJump(fs', test);
    var e := Exp(VJmp(|fs'.code| + 1), {}, {});
    CondJumpCode(fs', test);
    hide Formed, PatchedHere, CondJump;
    assert Moves(fs', UNIT, fs2, e);
    UnitOk(fs);
    hide FsOk, ExpOk, Frame;
    MovesTrans(fs, UNIT, fs', UNIT, fs2, e);
  }

  lemma CompEmit(p: Prims, op: CompOp, a: Expr, b: Expr, fs: FS, fs': FS, x: Rk, y: Rk, r0: Regs)
    requires FsOk(fs) && BothOk(p, a, b, fs, fs', x, y, r0) && fs'.free == fs.free
    ensures Compiled(p, EComp(op, a, b), fs, CondJump(fs', CompTest(op, x, y)), Exp(VJmp(|fs'.code| + 1), {}, {}), r0)
  {
    hide FsOk, Moves, Both, Exec, CondJump, Delivers;
    var test := CompTest(op, x, y);
    var o, o' := Exec(p, fs.code, 0, r0), Exec(p, fs'.code, 0, r0);
    JmpMoves(fs, fs', test);
    MovesFs(fs, fs');
    CondJumpRun(p, fs', test, r0);
    ExecExits(p, fs.code, 0, r0);
    CompRun(p, fs.free, op, a, b, fs, o, fs', x, y, o', CondJump(fs', test), |fs'.code|);
  }

  lemma CompOk(p: Prims, op: CompOp, a: Expr, b: Expr, fs: FS, fs2: FS, e1: Exp, fs3: FS, e2: Exp, r0: Regs)
    requires FsOk(fs) && Compiled(p, a, fs, fs2, e1, r0) && IsRK(e1) && Compiled(p, b, fs2, fs3, e2, r0)
    requires Legal(p, b, fs.nact) && Clean(r0, fs.nact)
    ensures var r := CodeComp(fs3, op, e1, e2); Compiled(p, EComp(op, a, b), fs, r.0, r.1, r0)
  {
    hide FsOk, Compiled, Both, Exec, Exp2RK, FreeExp, Legal, CondJump, RkOf, Moves, CompTest;
    RkSame(fs3, e1);
    Operands(p, a, b, fs, fs2, e1, fs3, e2, r0);
    var r2 := Exp2RK(fs3, e2);
    FreeBoth(r2.0, r2.1, e1);
    var fs1 := FreeExp(FreeExp(r2.0, r2.1), e1);
    BothFreed(p, a, b, fs, r2.0, fs1, RkOf(r2.0, e1), RkOf(r2.0, r2.1), r0);
    CompEmit(p, op, a, b, fs, fs1, RkOf(r2.0, e1), RkOf(r2.0, r2.1), r0);
  }

  // ---------------------------------------------------------------- unary operators

  function Unary(minus: bool, a: Expr): Expr {
    if minus then EMinus(a) else ELen(a)
  }

  function UnaryRhs(minus: bool, b: nat): Rhs {
    if minus then Minus(b) else Len(b)
  }

  lemma UnaryRun(p: Prims, n: nat, minus: bool, a: Expr, fs: FS, o: Outcome, fs': FS, e: Exp, o': Outcome)
    requires Delivers(p, n, a, fs, o, fs', e, o') && e.k.VNonReloc? && !HasJumps(e)
    requires !Reached(fs, o) ==> o.Err? || o.j !in fs'.here
    ensures var x := Unary(minus, a);
            var o2 := Arrive(fs', o');
            if Reached(fs, o) then (if o2.Err? then Eval(p, x, o.r) == None
                                    else o2.Fall? && RhsVal(p, UnaryRhs(minus, e.k.r), o2.r) == Eval(p, x, o.r)
                                         && Agree(o.r, o2.r, n))
            else o2 == o
  {
  }

  lemma UnaryEmit(p: Prims, minus: bool, a: Expr, fs: FS, fs': FS, e: Exp, r0: Regs)
    requires FsOk(fs) && Compiled(p, a, fs, fs', e, r0) && e.k.VNonReloc? && !HasJumps(e)
    ensures var fs1 := FreeExp(fs', e);
            var i := Set(0, UnaryRhs(minus, e.k.r));
            Compiled(p, Unary(minus, a), fs, Emit(fs1, i), Exp(VReloc(|fs1.code|), {}, {}), r0)
  {
    hide Delivers, Exec, RhsVal, Emit, Eval, FsOk, Frame;
    var o, o' := Exec(p, fs.code, 0, r0), Exec(p, fs'.code, 0, r0);
    var fs1 := FreeExp(fs', e);
    var i := Set(0, UnaryRhs(minus, e.k.r));
    FreedMoves(fs, fs', e);
    ExecExits(p, fs.code, 0, r0);
    if !Reached(fs, o) {
      NotReachedYet(fs, o, fs', e);
    }
    hide Moves;
    RelocMoves(fs, fs1, i);
    MovesFs(fs, fs1);
    HereRun(p, fs1, r0);
    UnaryRun(p, fs.free, minus, a, fs, o, fs', e, o');
    hide PatchedHere, FreeExp;
    UnaryDelivers(p, fs.free, Unary(minus, a), fs, o, Arrive(fs1, o'), Emit(fs1, i), |fs1.code|,
      UnaryRhs(minus, e.k.r));
  }

  lemma UnaryDelivers(p: Prims, n: nat, x: Expr, fs: FS, o: Outcome, o2: Outcome, fs2: FS, pc: nat, rhs: Rhs)
    requires pc < |fs2.code| && fs2.code[pc] == Set(0, rhs) && fs2.here == {}
    requires if Reached(fs, o) then (if o2.Err? then Eval(p, x, o.r) == None
                                     else o2.Fall? && RhsVal(p, rhs, o2.r) == Eval(p, x, o.r) && Agree(o.r, o2.r, n))
             else o2 == o
    ensures Delivers(p, n, x, fs, o, fs2, Exp(VReloc(pc), {}, {}), o2)
  {
    hide Eval, RhsVal;
  }

  lemma FreedMoves(fs: FS, fs': FS, e: Exp)
    requires FsOk(fs) && Moves(fs, UNIT, fs', e) && e.k.VNonReloc? && !HasJumps(e) && Room(fs', e) == fs.free
    ensures var fs1 := FreeExp(fs', e);
            Moves(fs, UNIT, fs1, UNIT) && fs1 == fs'.(free := fs.free)
  {
    hide Formed, Frame, Within;
    FreedOk(fs', e);
  }

  /** luaK_prefix, for a minus that is not folded and for the length operator */
  lemma UnaryOk(p: Prims, minus: bool, a: Expr, fs: FS, fs1: FS, e1: Exp, r0: Regs)
    requires FsOk(fs) && Compiled(p, a, fs, fs1, e1, r0) && Clean(r0, fs.nact)
    ensures var r := CodeUnary(fs1, minus, e1); Compiled(p, Unary(minus, a), fs, r.0, r.1, r0)
  {
    assert ExpState(fs1, e1) && fs1.nact == fs.nact by {
      hide Formed, Frame, Within, Delivers;
    }
    hide FsOk, ExpState, Compiled, Exp2Any, Emit, FreeExp, Moves, Keeps;
    Exp2AnyOk(p, fs1, e1, r0);
    var r := Exp2Any(fs1, e1);
    CompiledKeeps(p, a, fs, fs1, e1, r.0, r.1, r0);
    UnaryEmit(p, minus, a, fs, r.0, r.1, r0);
  }

  lemma MinusFolded(p: Prims, a: Expr, fs: FS, fs1: FS, e1: Exp, r0: Regs)
    requires FsOk(fs) && Compiled(p, a, fs, fs1, e1, r0) && IsNumeral(e1)
    ensures Compiled(p, EMinus(a), fs, fs1, e1.(k := VKNum(p.neg(e1.k.n))), r0)
  {
    var e := e1.(k := VKNum(p.neg(e1.k.n)));
    assert Moves(fs, UNIT, fs1, e) by {
      hide Formed, Frame, Within, Delivers;
    }
    hide Moves, Exec, FsOk;
  }

  lemma NotOk(p: Prims, a: Expr, fs: FS, fs1: FS, e1: Exp, r0: Regs)
    requires FsOk(fs) && Compiled(p, a, fs, fs1, e1, r0) && Clean(r0, fs.nact)
      && (e1.k.VK? ==> !Falsy(KVal(fs1, e1.k.info)))
    ensures var r := CodeNot(fs1, e1); Compiled(p, ENot(a), fs, r.0, r.1, r0)
  {
    hide FsOk, ExpOk, Frame, CodeNot, Exec, Value, Within, Eval;
    var o, o1 := Exec(p, fs.code, 0, r0), Run(p, fs1, e1, r0);
    ExecExits(p, fs.code, 0, r0);
    if !Reached(fs, o) {
      NotReachedYet(fs, o, fs1, e1);
    }
    assert Truthful(p, fs1, e1, o1);
    CodeNotOk(p, fs1, e1, r0);
    var r := CodeNot(fs1, e1);
    UnitOk(fs);
    MovesTrans(fs, UNIT, fs1, e1, r.0, r.1);
    hide Moves, Truthful, Outer;
    NotDelivers(p, fs.free, a, fs, o, fs1, e1, o1, r.0, r.1, Run(p, r.0, r.1, r0), Room(fs1, e1));
  }

  lemma NotDelivers(p: Prims, n: nat, a: Expr, fs: FS, o: Outcome, fs1: FS, e1: Exp, o1: Outcome, fs2: FS, e2: Exp,
      o2: Outcome, m: nat)
    requires Delivers(p, n, a, fs, o, fs1, e1, o1) && Negates(p, m, fs1, e1, o1, fs2, e2, o2) && n <= m
    requires !Reached(fs, o) ==> o.Err? || Outer(fs1, e1, o)
    ensures Delivers(p, n, ENot(a), fs, o, fs2, e2, o2)
  {
    hide Value, Truthful;
  }
}

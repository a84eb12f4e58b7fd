/** Operands of a binary operator, codearith and codecomp. */
module CgOps {
  import opened Wrappers
  import opened CgSyntax
  import opened CgCode
  import opened CgGen
  import opened CgSound
  import opened CgReg
  import opened CgExps
  import opened CgConds

  const UNIT: Exp := Leaf(VNil)

  /** From where `o` arrives in `fs`, the run goes on to deliver `v`, the value of an expression. */
  ghost predicate Delivers(p: Prims, n: nat, x: Expr, fs: FS, o: Outcome, fs': FS, e': Exp, o': Outcome) {
    if Reached(fs, o) then
      && !Outer(fs', e', o') && Value(p, fs', e', o') == Eval(p, x, o.r) && Truthful(p, fs', e', o')
      && (!o'.Err? ==> Agree(o.r, o'.r, n))
    else o' == o
  }

  /** The code of an expression: what it delivers, the jumps and registers it takes. */
  ghost predicate Compiled(p: Prims, x: Expr, fs: FS, fs': FS, e': Exp, r0: Regs) {
    && Moves(fs, UNIT, fs', e') && Room(fs', e') == fs.free
    && Delivers(p, fs.free, x, fs, Exec(p, fs.code, 0, r0), fs', e', Run(p, fs', e', r0))
  }

  lemma UnitOk(fs: FS)
    requires FsOk(fs)
    ensures fs.nact <= fs.free && ExpState(fs, UNIT) && Room(fs, UNIT) == fs.free && Exits(UNIT) == {}
  {
  }

  lemma NotMine(fs: FS, o: Outcome, fs': FS, e': Exp)
    requires Moves(fs, UNIT, fs', e') && !Reached(fs, o) && (o.Exit? ==> o.j < |fs.code|)
    ensures o.Exit? ==> Outer(fs', e', o)
  {
    hide FsOk, ExpOk, Frame;
  }

  lemma CompiledKeeps(p: Prims, x: Expr, fs: FS, fs1: FS, e1: Exp, fs2: FS, e2: Exp, r0: Regs)
    requires FsOk(fs) && Compiled(p, x, fs, fs1, e1, r0) && Keeps(p, fs1, e1, fs2, e2, r0)
    ensures Compiled(p, x, fs, fs2, e2, r0)
  {
    UnitOk(fs);
    ExecExits(p, fs.code, 0, r0);
    var o := Exec(p, fs.code, 0, r0);
    if !Reached(fs, o) {
      NotMine(fs, o, fs1, e1);
      if o.Err? {
        ErrStays(p, fs.free, fs1, e1, fs2, e2, r0);
      }
    }
    MovesTrans(fs, UNIT, fs1, e1, fs2, e2);
    hide FsOk, ExpOk, Frame, Moves, Value, Exec;
  }

  /** A run that fails before the expression is used fails after. */
  lemma ErrStays(p: Prims, n: nat, fs: FS, e: Exp, fs': FS, e': Exp, r0: Regs)
    requires Carries(p, n, fs, e, fs', e', r0) && Run(p, fs, e, r0).Err?
    ensures Run(p, fs', e', r0).Err?
  {
    hide Run;
  }

  // ---------------------------------------------------------------- two operands

  /** A first operand that waits while the second is compiled. */
  predicate Waits(e: Exp) {
    IsRK(e) || IsNumeral(e)
  }

  /** Both operands: the first still has its value when the second delivers its own. */
  ghost predicate Pair(p: Prims, n: nat, a: Expr, b: Expr, fs: FS, o: Outcome, fs': FS, e1: Exp, e2: Exp, o': Outcome) {
    if Reached(fs, o) then
      var va, vb := Eval(p, a, o.r), Eval(p, b, o.r);
      && !Outer(fs', e2, o')
      && (va.None? ==> o'.Err?)
      && (va.Some? ==> Value(p, fs', e2, o') == vb
                       && (!o'.Err? ==> Agree(o.r, o'.r, n) && KindVal(p, fs', e1.k, o'.r) == va))
    else o' == o
  }

  ghost predicate PairOk(p: Prims, a: Expr, b: Expr, fs: FS, fs': FS, e1: Exp, e2: Exp, r0: Regs) {
    && Moves(fs, UNIT, fs', e2)
    && Pair(p, fs.free, a, b, fs, Exec(p, fs.code, 0, r0), fs', e1, e2, Run(p, fs', e2, r0))
  }

  lemma WaitsUnit(fs: FS, e: Exp, fs': FS, e': Exp)
    requires Waits(e)
    ensures Moves(fs, e, fs', e') <==> Moves(fs, UNIT, fs', e')
  {
    hide FsOk, ExpOk, Frame, Within;
  }

  /** A waiting operand keeps its value while registers and constants are only added. */
  lemma WaitsKeeps(p: Prims, e: Exp, fs: FS, fs': FS, r: Regs, r': Regs)
    requires Waits(e) && fs.k <= fs'.k && Agree(r, r', fs.free) && KindOk(fs, e) && fs.nact <= fs.free
    ensures KindVal(p, fs', e.k, r') == KindVal(p, fs, e.k, r)
  {
  }

  lemma WaitsRun(p: Prims, fs: FS, e: Exp, o: Outcome)
    requires Waits(e)
    ensures Base(fs, e) == fs.code && (Outer(fs, e, o) <==> !Reached(fs, o) && !o.Err?)
    ensures Value(p, fs, e, o) == if o.Err? then None else KindVal(p, fs, e.k, o.r)
    ensures KindVal(p, fs, e.k, map[]).Some?
  {
  }

  lemma SecondPair(p: Prims, a: Expr, b: Expr, fs: FS, o: Outcome, fs2: FS, e1: Exp, o2: Outcome, fs3: FS, e2: Exp,
      o3: Outcome)
    requires Delivers(p, fs.free, a, fs, o, fs2, e1, o2) && Delivers(p, fs2.free, b, fs2, o2, fs3, e2, o3) && Waits(e1)
    requires KindOk(fs2, e1) && fs2.nact <= fs2.free && fs2.k <= fs3.k && fs.nact <= fs.free <= fs2.free
      && Legal(p, b, fs.nact)
    requires !Reached(fs, o) ==> !Reached(fs2, o)
    ensures Pair(p, fs.free, a, b, fs, o, fs3, e1, e2, o3)
  {
    hide Eval, Legal, Truthful, KindOk;
    WaitsRun(p, fs2, e1, o2);
    if Reached(fs, o) && !o2.Err? {
      EvalAgree(p, b, o.r, o2.r, fs.nact);
      if !o3.Err? {
        WaitsKeeps(p, e1, fs2, fs3, o2.r, o3.r);
      }
    }
    hide KindVal, Value;
  }

  /** What is known of the states between two operands. */
  lemma BetweenOk(fs: FS, fs2: FS, e1: Exp, fs3: FS, e2: Exp)
    requires FsOk(fs) && Moves(fs, UNIT, fs2, e1) && Waits(e1) && Moves(fs2, UNIT, fs3, e2) && Room(fs2, e1) == fs.free
    ensures KindOk(fs2, e1) && fs2.nact <= fs2.free && fs2.k <= fs3.k && fs.nact <= fs.free <= fs2.free && FsOk(fs2)
      && FsOk(fs3)
    ensures Moves(fs, UNIT, fs3, e2)
  {
    hide Formed, Frame;
    UnitOk(fs);
    WaitsUnit(fs2, e1, fs3, e2);
    MovesTrans(fs, UNIT, fs2, e1, fs3, e2);
  }

  lemma NotReachedYet(fs: FS, o: Outcome, fs': FS, e': Exp)
    requires Moves(fs, UNIT, fs', e') && !Reached(fs, o) && (o.Exit? ==> o.j < |fs.code|)
    ensures !Reached(fs', o) && (o.Err? || Outer(fs', e', o))
  {
    hide FsOk, ExpOk, Frame;
  }

  lemma SecondOk(p: Prims, a: Expr, b: Expr, fs: FS, fs2: FS, e1: Exp, fs3: FS, e2: Exp, r0: Regs)
    requires FsOk(fs) && Compiled(p, a, fs, fs2, e1, r0) && Waits(e1) && Compiled(p, b, fs2, fs3, e2, r0)
    requires Legal(p, b, fs.nact)
    ensures PairOk(p, a, b, fs, fs3, e1, e2, r0)
  {
    hide FsOk, Moves, Delivers, Legal, Exec, Pair, KindOk, Reached, Room, Waits;
    var o := Exec(p, fs.code, 0, r0);
    BetweenOk(fs, fs2, e1, fs3, e2);
    ExecExits(p, fs.code, 0, r0);
    if !Reached(fs, o) {
      NotReachedYet(fs, o, fs2, e1);
    }
    WaitsRun(p, fs2, e1, o);
    SecondPair(p, a, b, fs, o, fs2, e1, Run(p, fs2, e1, r0), fs3, e2, Run(p, fs3, e2, r0));
  }

  lemma PairStep(p: Prims, n: nat, a: Expr, b: Expr, fs: FS, o: Outcome, fs1: FS, e1: Exp, e2: Exp, o1: Outcome,
      fs2: FS, e2': Exp, o2: Outcome, m: nat)
    requires Pair(p, n, a, b, fs, o, fs1, e1, e2, o1) && CarriesTo(p, m, fs1, e2, o1, fs2, e2', o2)
    requires Waits(e1) && (e1.k.VNonReloc? ==> e1.k.r < m) && (e1.k.VK? ==> e1.k.info < |fs1.k|) && n <= m
      && fs1.k <= fs2.k
    requires !Reached(fs, o) ==> o.Err? || Outer(fs1, e2, o)
    ensures Pair(p, n, a, b, fs, o, fs2, e1, e2', o2)
  {
    hide Eval, Truthful, Value;
  }

  lemma PairKeeps(p: Prims, a: Expr, b: Expr, fs: FS, fs1: FS, e1: Exp, e2: Exp, fs2: FS, e2': Exp, r0: Regs)
    requires FsOk(fs) && PairOk(p, a, b, fs, fs1, e1, e2, r0) && Keeps(p, fs1, e2, fs2, e2', r0)
    requires Waits(e1) && (e1.k.VNonReloc? ==> e1.k.r < Room(fs1, e2)) && (e1.k.VK? ==> e1.k.info < |fs1.k|)
      && fs.free <= Room(fs1, e2)
    ensures PairOk(p, a, b, fs, fs2, e1, e2', r0)
  {
    hide FsOk, ExpOk, Frame, Within, Exec, Pair, CarriesTo;
    var o := Exec(p, fs.code, 0, r0);
    UnitOk(fs);
    MovesTrans(fs, UNIT, fs1, e2, fs2, e2');
    ExecExits(p, fs.code, 0, r0);
    if !Reached(fs, o) && o.Exit? {
      NotMine(fs, o, fs1, e2);
    }
    PairStep(p, fs.free, a, b, fs, o, fs1, e1, e2, Run(p, fs1, e2, r0), fs2, e2', Run(p, fs2, e2', r0), Room(fs1, e2));
  }

  /** Both operands can be read by one instruction. */
  ghost predicate Both(p: Prims, n: nat, a: Expr, b: Expr, fs: FS, o: Outcome, fs': FS, x: Rk, y: Rk, o': Outcome) {
    if Reached(fs, o) then
      var va, vb := Eval(p, a, o.r), Eval(p, b, o.r);
      if va.None? || vb.None? then o'.Err?
      else Reached(fs', o') && RkVal(x, o'.r) == va.value && RkVal(y, o'.r) == vb.value && Agree(o.r, o'.r, n)
    else o' == o && (o.Exit? ==> o.j !in fs'.here)
  }

  ghost predicate BothOk(p: Prims, a: Expr, b: Expr, fs: FS, fs': FS, x: Rk, y: Rk, r0: Regs) {
    && Moves(fs, UNIT, fs', UNIT)
    && Both(p, fs.free, a, b, fs, Exec(p, fs.code, 0, r0), fs', x, y, Exec(p, fs'.code, 0, r0))
  }

  lemma PairBothRun(p: Prims, n: nat, a: Expr, b: Expr, fs: FS, o: Outcome, fs': FS, e1: Exp, e2: Exp, o': Outcome)
    requires Pair(p, n, a, b, fs, o, fs', e1, e2, o') && IsRK(e1) && IsRK(e2)
    requires !Reached(fs, o) ==> o.Err? || Outer(fs', e2, o)
    ensures Both(p, n, a, b, fs, o, fs', RkOf(fs', e1), RkOf(fs', e2), o')
  {
    hide Eval;
    WaitsRun(p, fs', e2, o');
    hide Value;
  }

  lemma RkUnit(fs: FS, fs': FS, e: Exp)
    requires Moves(fs, UNIT, fs', e) && Waits(e)
    ensures Moves(fs, UNIT, fs', UNIT)
  {
    hide Formed, Frame;
  }

  lemma PairBoth(p: Prims, a: Expr, b: Expr, fs: FS, fs': FS, e1: Exp, e2: Exp, r0: Regs)
    requires FsOk(fs) && PairOk(p, a, b, fs, fs', e1, e2, r0) && IsRK(e1) && IsRK(e2)
    ensures BothOk(p, a, b, fs, fs', RkOf(fs', e1), RkOf(fs', e2), r0)
  {
    hide FsOk, Moves, Exec, Pair, Both, Reached, Outer, RkOf;
    WaitsRun(p, fs', e2, Err);
    var o := Exec(p, fs.code, 0, r0);
    ExecExits(p, fs.code, 0, r0);
    if !Reached(fs, o) {
      NotReachedYet(fs, o, fs', e2);
    }
    RkUnit(fs, fs', e2);
    PairBothRun(p, fs.free, a, b, fs, o, fs', e1, e2, Run(p, fs', e2, r0));
  }

  lemma RkKind(p: Prims, fs: FS, e: Exp, r: Regs)
    requires IsRK(e)
    ensures KindVal(p, fs, e.k, r) == Some(RkVal(RkOf(fs, e), r))
  {
  }

  lemma RkCarry(p: Prims, m: nat, fs: FS, e: Exp, o: Outcome, fs': FS, e': Exp, o': Outcome)
    requires CarriesTo(p, m, fs, e, o, fs', e', o') && Waits(e) && IsRK(e')
    ensures Reached(fs, o) ==> Reached(fs', o') && KindVal(p, fs', e'.k, o'.r) == KindVal(p, fs, e.k, o.r)
                               && Agree(o.r, o'.r, m)
    ensures o.Err? ==> o'.Err?
    ensures o.Exit? && !Reached(fs, o) ==> o' == o
  {
    hide KindVal, Truthful, Agree;
    WaitsRun(p, fs, e, o);
    WaitsRun(p, fs', e', o');
    WaitsSome(p, fs, e, if o.Err? then map[] else o.r);
    hide Value;
  }

  lemma WaitsSome(p: Prims, fs: FS, e: Exp, r: Regs)
    requires Waits(e)
    ensures KindVal(p, fs, e.k, r).Some?
  {
  }

  /** Both operands have their values, in states of any kind. */
  ghost predicate Vals(p: Prims, n: nat, va: Option<Val>, vb: Option<Val>, r: Regs, fs': FS, e1: Exp, e2: Exp,
      o': Outcome) {
    if va.None? || vb.None? then o'.Err?
    else Reached(fs', o') && KindVal(p, fs', e1.k, o'.r) == va && KindVal(p, fs', e2.k, o'.r) == vb && Agree(r, o'.r, n)
  }

  lemma PairVals(p: Prims, n: nat, a: Expr, b: Expr, fs: FS, o: Outcome, fs': FS, e1: Exp, e2: Exp, o': Outcome)
    requires Pair(p, n, a, b, fs, o, fs', e1, e2, o') && IsRK(e2) && Reached(fs, o)
    ensures Vals(p, n, Eval(p, a, o.r), Eval(p, b, o.r), o.r, fs', e1, e2, o')
  {
    hide Eval, KindVal, Truthful, Value, Agree, Outer, Base;
    WaitsRun(p, fs', e2, o');
    WaitsSome(p, fs', e2, if o'.Err? then map[] else o'.r);
  }

  lemma ValsStep(p: Prims, n: nat, va: Option<Val>, vb: Option<Val>, r: Regs, fs1: FS, e1: Exp, e2: Exp, o1: Outcome,
      fs2: FS, e1': Exp, o2: Outcome, m: nat)
    requires Vals(p, n, va, vb, r, fs1, e1, e2, o1) && CarriesTo(p, m, fs1, e1, o1, fs2, e1', o2)
    requires Waits(e1) && IsRK(e1') && IsRK(e2) && KindOk(fs1, e2) && fs1.k <= fs2.k && n <= m == fs1.free
      && fs1.nact <= fs1.free
    ensures Vals(p, n, va, vb, r, fs2, e1', e2, o2)
  {
    hide KindVal, KindOk, CarriesTo;
    RkCarry(p, m, fs1, e1, o1, fs2, e1', o2);
    if !o1.Err? {
      WaitsKeeps(p, e2, fs1, fs2, o1.r, o2.r);
    }
  }

  lemma NumeralRun(p: Prims, n: nat, m: nat, a: Expr, b: Expr, fs: FS, o: Outcome, fs1: FS, e1: Exp, e2: Exp,
      o1: Outcome, fs2: FS, e1': Exp, o2: Outcome)
    requires Pair(p, n, a, b, fs, o, fs1, e1, e2, o1) && CarriesTo(p, m, fs1, e1, o1, fs2, e1', o2)
    requires IsNumeral(e1) && IsRK(e2) && IsRK(e1') && KindOk(fs1, e2) && fs1.k <= fs2.k && n <= m == fs1.free
      && fs1.nact <= fs1.free
    requires !Reached(fs, o) ==> o.Err? || (Outer(fs1, e1, o) && Outer(fs2, e1', o))
    ensures Both(p, n, a, b, fs, o, fs2, RkOf(fs2, e1'), RkOf(fs2, e2), o2)
  {
    hide Eval, Truthful, KindOk, KindVal, RkVal, RkOf, Value, CarriesTo;
    if Reached(fs, o) {
      PairVals(p, n, a, b, fs, o, fs1, e1, e2, o1);
      hide Pair;
      ValsStep(p, n, Eval(p, a, o.r), Eval(p, b, o.r), o.r, fs1, e1, e2, o1, fs2, e1', o2, m);
      var r := if o2.Err? then map[] else o2.r;
      RkKind(p, fs2, e2, r);
      RkKind(p, fs2, e1', r);
    } else {
      RkCarry(p, m, fs1, e1, o1, fs2, e1', o2);
    }
  }

  /** A numeral is put among the constants, or in a register above the second operand. */
  lemma NumeralPair(p: Prims, a: Expr, b: Expr, fs: FS, fs1: FS, e1: Exp, e2: Exp, fs2: FS, e1': Exp, r0: Regs)
    requires FsOk(fs) && PairOk(p, a, b, fs, fs1, e1, e2, r0) && IsNumeral(e1) && IsRK(e2)
    requires Keeps(p, fs1, e1, fs2, e1', r0) && IsRK(e1') && fs.free <= fs1.free
    ensures BothOk(p, a, b, fs, fs2, RkOf(fs2, e1'), RkOf(fs2, e2), r0)
  {
    hide FsOk, Exec, Pair, Both, CarriesTo, Moves, AllPending, RkOf, KindOk, Outer;
    var o := Exec(p, fs.code, 0, r0);
    ExecExits(p, fs.code, 0, r0);
    NumeralMoves(fs, fs1, e1, e2, fs2, e1');
    NumeralFacts(fs, fs1, e1, e2, fs2, e1');
    if !Reached(fs, o) && o.Exit? {
      NumeralUnreached(fs, o, fs1, e1, e2, fs2, e1');
    }
    NumeralRun(p, fs.free, fs1.free, a, b, fs, o, fs1, e1, e2, Run(p, fs1, e2, r0), fs2, e1', Run(p, fs2, e1', r0));
  }

  lemma NumeralFacts(fs: FS, fs1: FS, e1: Exp, e2: Exp, fs2: FS, e1': Exp)
    requires Moves(fs, UNIT, fs1, e2) && Moves(fs1, e1, fs2, e1') && IsNumeral(e1) && IsRK(e2)
    ensures KindOk(fs1, e2) && fs1.k <= fs2.k && fs1.nact <= fs1.free
  {
    UnitOk(fs1);
    hide Formed, Frame;
  }

  /** A run that does not arrive leaves by the same jump after both operands. */
  lemma NumeralUnreached(fs: FS, o: Outcome, fs1: FS, e1: Exp, e2: Exp, fs2: FS, e1': Exp)
    requires Moves(fs, UNIT, fs1, e2) && Moves(fs1, e1, fs2, e1') && IsNumeral(e1) && IsRK(e2)
    requires !Reached(fs, o) && o.Exit? && o.j < |fs.code|
    ensures Outer(fs1, e1, o) && Outer(fs2, e1', o)
  {
    hide FsOk, ExpOk, Frame;
    NotMine(fs, o, fs1, e2);
    NumeralOuter(fs1, e1, fs2, e1', o);
  }

  lemma NumeralOuter(fs: FS, e: Exp, fs': FS, e': Exp, o: Outcome)
    requires Moves(fs, e, fs', e') && Outer(fs, e, o) && (o.Exit? ==> o.j < |Base(fs, e)|)
    ensures Outer(fs', e', o)
  {
    hide FsOk, ExpOk, Frame;
  }

  lemma NumeralMoves(fs: FS, fs1: FS, e1: Exp, e2: Exp, fs2: FS, e1': Exp)
    requires FsOk(fs) && Moves(fs, UNIT, fs1, e2) && IsNumeral(e1) && IsRK(e2) && Moves(fs1, e1, fs2, e1') && IsRK(e1')
    ensures Moves(fs, UNIT, fs2, UNIT)
  {
    UnitOk(fs);
    assert Moves(fs, UNIT, fs1, e1) && Moves(fs1, e1, fs2, UNIT) by {
      hide Formed, Frame, Within;
    }
    hide FsOk, ExpOk, Frame, Moves;
    MovesTrans(fs, UNIT, fs1, e1, fs2, UNIT);
  }
}

/** Short-circuit operators, and the theorem for whole expressions. */
module CgExpr {
  import opened Wrappers
  import opened CgSyntax
  import opened CgCode
  import opened CgGen
  import opened CgSound
  import opened CgReg
  import opened CgExps
  import opened CgConds
  import opened CgNot
  import opened CgOps
  import opened CgCompile

  function Logic(cond: bool, a: Expr, b: Expr): Expr {
    if cond then EOr(a, b) else EAnd(a, b)
  }

  /** luaK_posfix for `and` and `or`: the exits of the first operand join those of the second. */
  function Joined(cond: bool, e: Exp, l: set<nat>): Exp {
    if cond then e.(t := e.t + l) else e.(f := e.f + l)
  }

  // ---------------------------------------------------------------- runs

  lemma GuardedRun(p: Prims, n: nat, m: nat, cond: bool, a: Expr, b: Expr, fs: FS, o: Outcome, fs1: FS, e1: Exp,
      o1: Outcome,
                   fs2: FS, l: set<nat>, o2: Outcome)
    requires Delivers(p, n, a, fs, o, fs1, e1, o1) && Guards(p, cond, m, fs1, e1, o1, fs2, l, o2) && n <= m
    requires !Reached(fs, o) ==> o.Err? || Outer(fs1, e1, o)
    requires l !! fs2.here
    ensures !Reached(fs, o) ==> o2 == o
    ensures Reached(fs, o) ==>
              match Eval(p, a, o.r)
              case None => o2 == Err
              case Some(v) =>
                !o2.Err? && Agree(o.r, o2.r, n)
                && if Falsy(v) == cond then Reached(fs2, o2)
                   else o2.Exit? && o2.j in l && !Reached(fs2, o2) && ExitVal(fs2.code, o2.j, o2.r, cond) == v
  {
    hide Eval, Value, Truthful, ExitVal;
  }

  /** A run that left by an exit of the first operand leaves the whole expression with that value. */
  lemma ShortCircuit(p: Prims, cond: bool, fs2: FS, fs3: FS, e3: Exp, l: set<nat>, j: nat, r: Regs, v: Val)
    requires j in l && l !! Exits(e3) && l !! fs3.here && ExitVal(fs2.code, j, r, cond) == v && Falsy(v) != cond
    requires SameExit(fs2.code, fs3.code, j)
    ensures var e := Joined(cond, e3, l);
            var o := Exit(j, r);
            !Outer(fs3, e, o) && Value(p, fs3, e, o) == Some(v) && Truthful(p, fs3, e, o)
  {
  }

  lemma SecondOperand(p: Prims, cond: bool, fs3: FS, e3: Exp, l: set<nat>, o3: Outcome)
    requires l !! Exits(e3) && l !! fs3.here && !Outer(fs3, e3, o3) && Truthful(p, fs3, e3, o3)
    ensures var e := Joined(cond, e3, l);
            !Outer(fs3, e, o3) && Value(p, fs3, e, o3) == Value(p, fs3, e3, o3) && Truthful(p, fs3, e, o3)
  {
    hide KindVal, ExitVal;
  }

  lemma EvalLogic(p: Prims, cond: bool, a: Expr, b: Expr, r: Regs)
    ensures Eval(p, Logic(cond, a, b), r) ==
            match Eval(p, a, r)
            case None => None
            case Some(v) => if Falsy(v) == cond then Eval(p, b, r) else Some(v)
  {
  }

  lemma LogicRun(p: Prims, n: nat, m: nat, cond: bool, a: Expr, b: Expr, fs: FS, o: Outcome, fs2: FS, l: set<nat>,
      o2: Outcome,
                 fs3: FS, e3: Exp, o3: Outcome)
    requires !Reached(fs, o) ==> o2 == o && !Reached(fs2, o)
    requires Reached(fs, o) ==>
               match Eval(p, a, o.r)
               case None => o2 == Err
               case Some(v) =>
                 !o2.Err? && Agree(o.r, o2.r, n)
                 && if Falsy(v) == cond then Reached(fs2, o2)
                    else o2.Exit? && o2.j in l && !Reached(fs2, o2) && ExitVal(fs2.code, o2.j, o2.r, cond) == v
    requires Delivers(p, m, b, fs2, o2, fs3, e3, o3) && n <= m && Legal(p, b, n)
    requires l !! Exits(e3) && l !! fs3.here && forall j :: j in l ==> SameExit(fs2.code, fs3.code, j)
    ensures Delivers(p, n, Logic(cond, a, b), fs, o, fs3, Joined(cond, e3, l), o3)
  {
    hide ExitVal, Value, Truthful, Outer, SameExit, Joined, Legal, Eval, Logic;
    if Reached(fs, o) {
      var va := Eval(p, a, o.r);
      EvalLogic(p, cond, a, b, o.r);
      if va.Some? {
        if Falsy(va.value) == cond {
          EvalAgree(p, b, o.r, o2.r, n);
          SecondOperand(p, cond, fs3, e3, l, o3);
        } else {
          ShortCircuit(p, cond, fs2, fs3, e3, l, o2.j, o2.r, va.value);
        }
      } else {
        ErrValue(p, fs3, Joined(cond, e3, l));
      }
    }
  }

  lemma ErrValue(p: Prims, fs: FS, e: Exp)
    ensures Value(p, fs, e, Err) == None && !Outer(fs, e, Err) && Truthful(p, fs, e, Err)
  {
  }

  // ---------------------------------------------------------------- structure

  lemma JoinedMoves(cond: bool, fs: FS, fs1: FS, e1: Exp, fs2: FS, l: set<nat>, fs3: FS, e3: Exp)
    requires FsOk(fs) && Moves(fs, UNIT, fs1, e1) && Guarded(fs1, e1, fs2, l) && Moves(fs2, UNIT, fs3, e3)
    ensures Moves(fs, UNIT, fs3, Joined(cond, e3, l))
    ensures l !! Exits(e3) && l !! fs3.here && forall j :: j in l ==> SameExit(fs2.code, fs3.code, j)
  {
    hide FsOk, KindVal;
    assert forall j :: j in l ==> IsPending(fs2.code, j);
    forall j: nat | IsPending(fs.code, j) && j !in fs.here
      ensures SameExit(fs.code, fs3.code, j)
    {
      assert SameExit(fs.code, fs1.code, j);
      assert j < |fs.code| <= |Base(fs1, e1)|;
      assert j !in Exits(e1) + fs1.here;
      assert SameExit(fs1.code, fs2.code, j);
      assert j !in fs2.here;
      assert SameExit(fs2.code, fs3.code, j);
    }
  }

  lemma GuardedReached(fs: FS, o: Outcome, fs1: FS, e1: Exp, fs2: FS, l: set<nat>)
    requires Moves(fs, UNIT, fs1, e1) && Guarded(fs1, e1, fs2, l) && !Reached(fs, o) && (o.Exit? ==> o.j < |fs.code|)
    ensures !Reached(fs2, o)
  {
    hide FsOk, Frame;
  }

  lemma LogicOk(p: Prims, cond: bool, a: Expr, b: Expr, fs: FS, fs1: FS, e1: Exp, fs3: FS, e3: Exp, r0: Regs)
    requires FsOk(fs) && Compiled(p, a, fs, fs1, e1, r0) && Clean(r0, fs.nact)
      && (e1.k.VK? ==> !Falsy(KVal(fs1, e1.k.info)))
    requires Compiled(p, b, GoIf(fs1, e1, cond).0, fs3, e3, r0) && Legal(p, b, fs.nact)
    ensures Compiled(p, Logic(cond, a, b), fs, fs3, Joined(cond, Discharge(e3), GoIf(fs1, e1, cond).1), r0)
  {
    hide FsOk, ExpOk, Exec, Delivers, Guards, GoIf, Frame, Within;
    var g := GoIf(fs1, e1, cond);
    var fs2, l := g.0, g.1;
    var o, o1, o2 := Exec(p, fs.code, 0, r0), Run(p, fs1, e1, r0), Exec(p, fs2.code, 0, r0);
    ExecExits(p, fs.code, 0, r0);
    if !Reached(fs, o) {
      NotReachedYet(fs, o, fs1, e1);
    }
    FirstTruthful(p, fs.free, a, fs, o, fs1, e1, o1);
    GoIfOk(p, cond, fs1, e1, r0);
    if !Reached(fs, o) {
      GuardedReached(fs, o, fs1, e1, fs2, l);
    }
    var e := Discharge(e3);
    hide Truthful, Outer;
    DischargedOk(p, b, fs2, fs3, e3, r0);
    JoinedMoves(cond, fs, fs1, e1, fs2, l, fs3, e);
    UnitOk(fs);
    GuardedRun(p, fs.free, Room(fs1, e1), cond, a, b, fs, o, fs1, e1, o1, fs2, l, o2);
    LegalMore(p, b, fs.nact, fs.free);
    LogicRun(p, fs.free, fs2.free, cond, a, b, fs, o, fs2, l, o2, fs3, e, Run(p, fs3, e, r0));
    assert Run(p, fs3, Joined(cond, e, l), r0) == Run(p, fs3, e, r0) && Room(fs3, Joined(cond, e, l)) == Room(fs3, e);
  }

  lemma FirstTruthful(p: Prims, n: nat, a: Expr, fs: FS, o: Outcome, fs1: FS, e1: Exp, o1: Outcome)
    requires Delivers(p, n, a, fs, o, fs1, e1, o1) && (!Reached(fs, o) ==> o.Err? || Outer(fs1, e1, o))
    ensures Truthful(p, fs1, e1, o1)
  {
    hide Value;
  }

  lemma {:induction false} LegalMore(p: Prims, x: Expr, n: nat, m: nat)
    requires Legal(p, x, n) && n <= m
    ensures Legal(p, x, m)
  {
    match x
    case EParen(e) => LegalMore(p, e, n, m);
    case ENot(e) => LegalMore(p, e, n, m);
    case EMinus(e) => LegalMore(p, e, n, m);
    case ELen(e) => LegalMore(p, e, n, m);
    case EArith(_, a, b) =>
      LegalMore(p, a, n, m);
      LegalMore(p, b, n, m);
    case EComp(_, a, b) =>
      LegalMore(p, a, n, m);
      LegalMore(p, b, n, m);
    case EAnd(a, b) =>
      LegalMore(p, a, n, m);
      LegalMore(p, b, n, m);
    case EOr(a, b) =>
      LegalMore(p, a, n, m);
      LegalMore(p, b, n, m);
    case _ =>
  }

  lemma DischargedOk(p: Prims, x: Expr, fs: FS, fs1: FS, e1: Exp, r0: Regs)
    requires Compiled(p, x, fs, fs1, e1, r0)
    ensures Compiled(p, x, fs, fs1, Discharge(e1), r0)
  {
    hide Exec, Formed, Frame, Within, Eval;
  }

  // ---------------------------------------------------------------- every expression

  /** Numerals are not NaN, and the constants of an expression are strings, which are true. */
  ghost predicate Sane(p: Prims, fs: FS, e: Exp) {
    (e.k.VKNum? ==> !p.nan(e.k.n)) && (e.k.VK? ==> !Falsy(KVal(fs, e.k.info)))
  }

  lemma LeafOk(p: Prims, x: Expr, fs: FS, r0: Regs)
    requires FsOk(fs) && Legal(p, x, fs.nact)
    requires x.ENil? || x.ETrue? || x.EFalse? || x.ENum? || x.EStr? || x.ELocal?
    ensures var r := Compile(p, fs, x); Compiled(p, x, fs, r.0, r.1, r0) && Sane(p, r.0, r.1)
  {
    hide Formed, Exec;
    if x.EStr? {
      StringOk(p, x, fs, r0);
    }
  }

  lemma StringOk(p: Prims, x: Expr, fs: FS, r0: Regs)
    requires FsOk(fs) && x.EStr?
    ensures var r := Compile(p, fs, x); Compiled(p, x, fs, r.0, r.1, r0) && Sane(p, r.0, r.1)
  {
    hide Formed, Exec;
    AddKOk(fs, Str(x.s));
  }

  /** The operand of a comparison, or of arithmetic, before the other is compiled. */
  lemma OperandOk(p: Prims, a: Expr, fs: FS, fs1: FS, e1: Exp, r0: Regs)
    requires FsOk(fs) && Compiled(p, a, fs, fs1, e1, r0) && Clean(r0, fs.nact)
    ensures var r := Exp2RK(fs1, e1); Compiled(p, a, fs, r.0, r.1, r0) && IsRK(r.1) && FsOk(r.0) && r.0.nact == fs.nact
  {
    assert ExpState(fs1, e1) && fs1.nact == fs.nact by {
      hide Formed, Frame, Within, Delivers;
    }
    hide FsOk, ExpState, Compiled, Exp2RK, Moves, IsRK;
    Exp2RKOk(p, fs1, e1, r0);
    var r := Exp2RK(fs1, e1);
    KeepsNact(p, fs1, e1, r.0, r.1, r0);
    CompiledKeeps(p, a, fs, fs1, e1, r.0, r.1, r0);
    assert ExpState(r.0, r.1) ==> FsOk(r.0) by {
      StateFs(r.0, r.1);
    }
  }

  lemma StateFs(fs: FS, e: Exp)
    ensures ExpState(fs, e) ==> FsOk(fs)
  {
  }

  lemma CompiledFs(p: Prims, x: Expr, fs: FS, fs1: FS, e1: Exp, r0: Regs)
    requires Compiled(p, x, fs, fs1, e1, r0)
    ensures FsOk(fs1) && fs1.nact == fs.nact
  {
  }

  lemma GuardedFs(p: Prims, cond: bool, a: Expr, fs: FS, fs1: FS, e1: Exp, r0: Regs)
    requires FsOk(fs) && Compiled(p, a, fs, fs1, e1, r0) && Clean(r0, fs.nact)
      && (e1.k.VK? ==> !Falsy(KVal(fs1, e1.k.info)))
    ensures FsOk(GoIf(fs1, e1, cond).0) && GoIf(fs1, e1, cond).0.nact == fs.nact
  {
    hide FsOk, ExpOk, Exec, Delivers, Guards, GoIf, Frame, Within;
    var o, o1 := Exec(p, fs.code, 0, r0), Run(p, fs1, e1, r0);
    ExecExits(p, fs.code, 0, r0);
    if !Reached(fs, o) {
      NotReachedYet(fs, o, fs1, e1);
    }
    FirstTruthful(p, fs.free, a, fs, o, fs1, e1, o1);
    GoIfOk(p, cond, fs1, e1, r0);
  }

  /** The kinds that operators leave. */
  lemma OperatorSane(p: Prims, fs: FS, minus: bool, op: ArithOp, cmp: CompOp, e1: Exp, e2: Exp)
    ensures Sane(p, CodeUnary(fs, minus, e1).0, CodeUnary(fs, minus, e1).1)
    ensures Sane(p, CodeArith(p, fs, op, e1, e2).0, CodeArith(p, fs, op, e1, e2).1)
    ensures Sane(p, CodeComp(fs, cmp, e1, e2).0, CodeComp(fs, cmp, e1, e2).1)
    ensures Sane(p, CodeNot(fs, e1).0, CodeNot(fs, e1).1)
  {
    hide Exp2RK, Exp2Any, FreeExp, Emit, CondJump, Discharge2Any, WithoutValues, Inverted;
  }

  lemma MinusOk(p: Prims, a: Expr, fs: FS, fs1: FS, e1: Exp, r0: Regs)
    requires GoodPrims(p) && FsOk(fs) && Compiled(p, a, fs, fs1, e1, r0) && Sane(p, fs1, e1) && Clean(r0, fs.nact)
    ensures var r := CodeMinus(p, fs1, e1); Compiled(p, EMinus(a), fs, r.0, r.1, r0) && Sane(p, r.0, r.1)
  {
    hide Compiled, FsOk, CodeUnary, Exp2RK, Emit, FreeExp;
    if IsNumeral(e1) {
      MinusFolded(p, a, fs, fs1, e1, r0);
    } else {
      UnaryOk(p, true, a, fs, fs1, e1, r0);
      OperatorSane(p, fs1, true, Add, EQ, e1, e1);
    }
  }

  /**
    The main theorem: from where control arrives in `fs`, the code compiled for `x` delivers the
    value of `x`, changes no register that was in use, and leaves only by its own exits.
   */
  lemma {:induction false} CompileOk(p: Prims, fs: FS, x: Expr, r0: Regs)
    requires GoodPrims(p) && FsOk(fs) && Legal(p, x, fs.nact) && Clean(r0, fs.nact)
    ensures var r := Compile(p, fs, x); Compiled(p, x, fs, r.0, r.1, r0) && Sane(p, r.0, r.1)
    decreases x
  {
    hide GoodPrims, FsOk, Clean, Compiled, Exp2RK, GoIfTrue, GoIfFalse, CodeNot, CodeMinus, CodeUnary, CodeArith,
      CodeComp, KVal, IsRK;
    match x
    case EParen(a) =>
      CompileOk(p, fs, a, r0);
      var r := Compile(p, fs, a);
      DischargedOk(p, a, fs, r.0, r.1, r0);
      ParenOk(p, a, fs, r.0, Discharge(r.1), r0);
    case ENot(a) =>
      CompileOk(p, fs, a, r0);
      var r := Compile(p, fs, a);
      NotOk(p, a, fs, r.0, r.1, r0);
      OperatorSane(p, r.0, true, Add, EQ, r.1, r.1);
    case EMinus(a) =>
      CompileOk(p, fs, a, r0);
      var r := Compile(p, fs, a);
      MinusOk(p, a, fs, r.0, r.1, r0);
    case ELen(a) =>
      CompileOk(p, fs, a, r0);
      var r := Compile(p, fs, a);
      UnaryOk(p, false, a, fs, r.0, r.1, r0);
      OperatorSane(p, r.0, false, Add, EQ, r.1, r.1);
    case EArith(op, a, b) => ArithCase(p, fs, op, a, b, r0);
    case EComp(op, a, b) => CompCase(p, fs, op, a, b, r0);
    case EAnd(a, b) => LogicCase(p, fs, false, a, b, r0);
    case EOr(a, b) => LogicCase(p, fs, true, a, b, r0);
    case _ => LeafOk(p, x, fs, r0);
  }

  lemma ParenOk(p: Prims, a: Expr, fs: FS, fs1: FS, e1: Exp, r0: Regs)
    requires Compiled(p, a, fs, fs1, e1, r0)
    ensures Compiled(p, EParen(a), fs, fs1, e1, r0)
  {
    hide Exec, Moves;
  }

  lemma {:induction false} ArithCase(p: Prims, fs: FS, op: ArithOp, a: Expr, b: Expr, r0: Regs)
    requires GoodPrims(p) && FsOk(fs) && Legal(p, EArith(op, a, b), fs.nact) && Clean(r0, fs.nact)
    ensures var r := Compile(p, fs, EArith(op, a, b)); Compiled(p, EArith(op, a, b), fs, r.0, r.1, r0)
                                                       && Sane(p, r.0, r.1)
    decreases EArith(op, a, b), 0
  {
    hide GoodPrims, FsOk, Clean, Compiled, Exp2RK, CodeArith, Sane, IsRK;
    CompileOk(p, fs, a, r0);
    var r1 := Compile(p, fs, a);
    var r2 := if IsNumeral(r1.1) then r1 else Exp2RK(r1.0, r1.1);
    if IsNumeral(r1.1) {
      CompiledFs(p, a, fs, r1.0, r1.1, r0);
    } else {
      OperandOk(p, a, fs, r1.0, r1.1, r0);
    }
    CompileOk(p, r2.0, b, r0);
    var r3 := Compile(p, r2.0, b);
    ArithOk(p, op, a, b, fs, r2.0, r2.1, r3.0, r3.1, r0);
    OperatorSane(p, r3.0, true, op, EQ, r2.1, r3.1);
  }

  lemma {:induction false} CompCase(p: Prims, fs: FS, op: CompOp, a: Expr, b: Expr, r0: Regs)
    requires GoodPrims(p) && FsOk(fs) && Legal(p, EComp(op, a, b), fs.nact) && Clean(r0, fs.nact)
    ensures var r := Compile(p, fs, EComp(op, a, b)); Compiled(p, EComp(op, a, b), fs, r.0, r.1, r0)
                                                      && Sane(p, r.0, r.1)
    decreases EComp(op, a, b), 0
  {
    hide GoodPrims, FsOk, Clean, Compiled, Exp2RK, CodeComp, Sane, IsRK;
    CompileOk(p, fs, a, r0);
    var r1 := Compile(p, fs, a);
    OperandOk(p, a, fs, r1.0, r1.1, r0);
    var r2 := Exp2RK(r1.0, r1.1);
    CompileOk(p, r2.0, b, r0);
    var r3 := Compile(p, r2.0, b);
    CompOk(p, op, a, b, fs, r2.0, r2.1, r3.0, r3.1, r0);
    OperatorSane(p, r3.0, true, Add, op, r2.1, r3.1);
  }

  lemma LogicLegal(p: Prims, cond: bool, a: Expr, b: Expr, nact: nat)
    ensures Legal(p, Logic(cond, a, b), nact) <==> Legal(p, a, nact) && Legal(p, b, nact)
  {
  }

  lemma {:induction false} LogicCase(p: Prims, fs: FS, cond: bool, a: Expr, b: Expr, r0: Regs)
    requires GoodPrims(p) && FsOk(fs) && Legal(p, Logic(cond, a, b), fs.nact) && Clean(r0, fs.nact)
    ensures var r := Compile(p, fs, Logic(cond, a, b)); Compiled(p, Logic(cond, a, b), fs, r.0, r.1, r0)
                                                        && Sane(p, r.0, r.1)
    decreases Logic(cond, a, b), 0
  {
    hide GoodPrims, FsOk, Clean, Compiled, GoIfTrue, GoIfFalse, KVal, Exp2RK, CodeNot, CodeMinus, CodeUnary,
      CodeArith, CodeComp, AddK, Legal;
    LogicLegal(p, cond, a, b, fs.nact);
    CompileOk(p, fs, a, r0);
    var r1 := Compile(p, fs, a);
    var g := GoIf(r1.0, r1.1, cond);
    GuardedFs(p, cond, a, fs, r1.0, r1.1, r0);
    CompileOk(p, g.0, b, r0);
    var r3 := Compile(p, g.0, b);
    LogicOk(p, cond, a, b, fs, r1.0, r1.1, r3.0, r3.1, r0);
  }

  /**
    The value of an expression ends up in the next register: a runtime error if and only if
    evaluation has one, otherwise the value in the register and the registers below unchanged.
   */
  lemma NextRegOk(p: Prims, fs: FS, x: Expr, r0: Regs)
    requires GoodPrims(p) && FsOk(fs) && Legal(p, x, fs.nact) && Clean(r0, fs.nact)
    ensures var c := Compile(p, fs, x);
            var r := Exp2Next(c.0, c.1);
            var o, o' := Exec(p, fs.code, 0, r0), Exec(p, r.0.code, 0, r0);
            && FsOk(r.0) && r.0.free == fs.free + 1 && Within(r.0.here, fs.here, |fs.code|)
            && if !Reached(fs, o) then o' == o
               else match Eval(p, x, o.r)
                 case None => o' == Err
                 case Some(v) => Reached(r.0, o') && Get(o'.r, fs.free) == v && Agree(o.r, o'.r, fs.free)
  {
    hide Compile, Eval, FsOk, ExpState, Exp2Next, Clean, GoodPrims, Frame;
    CompileOk(p, fs, x, r0);
    var c := Compile(p, fs, x);
    CompiledState(p, x, fs, c.0, c.1, r0);
    Exp2NextOk(p, c.0, c.1, r0);
    var r := Exp2Next(c.0, c.1);
    CompiledKeeps(p, x, fs, c.0, c.1, r.0, r.1, r0);
    CompiledFs(p, x, fs, r.0, r.1, r0);
  }

  lemma CompiledState(p: Prims, x: Expr, fs: FS, fs1: FS, e1: Exp, r0: Regs)
    requires Compiled(p, x, fs, fs1, e1, r0)
    ensures ExpState(fs1, e1) && fs1.nact == fs.nact && Room(fs1, e1) == fs.free
  {
  }
}

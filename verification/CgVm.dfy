/**
  The virtual machine on the instructions that are emitted (lvm.c, luaV_execute), and the
  theorem for whole functions: compile an expression, run the code, and the value is there.
 */
module CgVm {
  import opened Wrappers
  import opened CgSyntax
  import opened CgCode
  import opened CgGen
  import opened CgSound
  import opened CgReg
  import opened CgExps
  import opened CgOps
  import opened CgExpr
  import opened CgLinks
  import opened CgDesc
  import opened CgFuncState

  /** `RKB`, `RKC` */
  function RkGet(k: seq<Val>, r: Regs, n: nat): Val {
    if n >= BITRK then (if n - BITRK < |k| then k[n - BITRK] else Nil) else Get(r, n)
  }

  /** `dojump` with the sBx of the instruction at `pc` */
  function DoJump(code: seq<Inst>, pc: nat, r: Regs): Next {
    if pc < |code| && code[pc].JMP? && pc + 1 + code[pc].sbx >= 0 then Go(pc + 1 + code[pc].sbx, r) else Stop(Err)
  }

  function VmStep(p: Prims, k: seq<Val>, code: seq<Inst>, pc: nat, r: Regs): Next
    requires pc < |code|
  {
    match code[pc]
    case MOVE(a, b) => Go(pc + 1, r[a := Get(r, b)])
    case LOADK(a, bx) => if bx < |k| then Go(pc + 1, r[a := k[bx]]) else Stop(Err)
    case LOADBOOL(a, v, skip) => Go(if skip then pc + 2 else pc + 1, r[a := Bool(v)])
    case LOADNIL(a, b) => Go(pc + 1, Nils(r, a, b))
    case ARITH(op, a, b, c) =>
      (match Arith(p, op, RkGet(k, r, b), RkGet(k, r, c))
       case None => Stop(Err)
       case Some(v) => Go(pc + 1, r[a := v]))
    case UNM(a, b) =>
      (match Unm(p, Get(r, b))
       case None => Stop(Err)
       case Some(v) => Go(pc + 1, r[a := v]))
    case LEN(a, b) =>
      (match p.len(Get(r, b))
       case None => Stop(Err)
       case Some(v) => Go(pc + 1, r[a := v]))
    case NOT(a, b) => Go(pc + 1, r[a := Bool(Falsy(Get(r, b)))])
    case JMP(_) => DoJump(code, pc, r)
    case COMP(op, cond, b, c) =>
      (match p.cmp(op, RkGet(k, r, b), RkGet(k, r, c))
       case None => Stop(Err)
       case Some(res) => if res == cond then DoJump(code, pc + 1, r) else Go(pc + 2, r))
    case TEST(a, c) => if Falsy(Get(r, a)) != c then DoJump(code, pc + 1, r) else Go(pc + 2, r)
    case TESTSET(a, b, c) => if Falsy(Get(r, b)) != c then DoJump(code, pc + 1, r[a := Get(r, b)]) else Go(pc + 2, r)
  }

  /** Run to the end of the code, and not beyond it; expressions only jump forwards. */
  function VmRun(p: Prims, k: seq<Val>, code: seq<Inst>, pc: nat, r: Regs): Outcome
    decreases |code| - pc
  {
    if pc == |code| then Fall(r)
    else if pc > |code| then Err
    else match VmStep(p, k, code, pc, r)
      case Stop(o) => o
      case Go(n, r1) => if n <= pc then Err else VmRun(p, k, code, n, r1)
  }

  lemma RkMeans(k: seq<Val>, r: Regs, n: nat, x: Rk)
    requires MeansRk(k, n, x)
    ensures RkGet(k, r, n) == RkVal(x, r)
  {
  }

  lemma JumpMeans(k: seq<Val>, code: seq<Inst>, ac: Code, pc: nat, r: Regs)
    requires Rep(k, code, ac) && !IsPending(ac, pc)
    ensures DoJump(code, pc, r) == Take(ac, pc, r)
  {
    if pc < |code| {
      assert Means(k, code[pc], ac[pc], pc);
    }
  }

  /** The machine does what the abstract code does, as long as no unresolved jump is taken. */
  lemma StepMeans(p: Prims, k: seq<Val>, code: seq<Inst>, ac: Code, pc: nat, r: Regs)
    requires Rep(k, code, ac) && pc < |code|
    requires var s := Step(p, ac, pc, r); s.Stop? ==> !s.o.Exit?
    ensures VmStep(p, k, code, pc, r) == Step(p, ac, pc, r)
  {
    assert Means(k, code[pc], ac[pc], pc);
    match ac[pc] {
      case Set(a, rhs) =>
        if rhs.Bin? {
          RkMeans(k, r, code[pc].b, rhs.x);
          RkMeans(k, r, code[pc].c, rhs.y);
        }
      case Cmp(op, cond, x, y) =>
        RkMeans(k, r, code[pc].b, x);
        RkMeans(k, r, code[pc].c, y);
        if !IsPending(ac, pc + 1) {
          JumpMeans(k, code, ac, pc + 1, r);
        }
      case Test(b, c) =>
        if !IsPending(ac, pc + 1) {
          JumpMeans(k, code, ac, pc + 1, r);
        }
      case TestSet(a, b, c) =>
        if !IsPending(ac, pc + 1) {
          JumpMeans(k, code, ac, pc + 1, r[a := Get(r, b)]);
        }
      case Jmp(_) =>
        if !IsPending(ac, pc) {
          JumpMeans(k, code, ac, pc, r);
        }
      case _ =>
    }
  }

  lemma {:induction false} RunMeans(p: Prims, k: seq<Val>, code: seq<Inst>, ac: Code, pc: nat, r: Regs)
    requires Rep(k, code, ac) && !Exec(p, ac, pc, r).Exit?
    ensures VmRun(p, k, code, pc, r) == Exec(p, ac, pc, r)
    decreases |code| - pc
  {
    if pc < |code| {
      var s := Step(p, ac, pc, r);
      StepMeans(p, k, code, ac, pc, r);
      hide Rep, Step, VmStep;
      if s.Go? && s.pc > pc {
        RunMeans(p, k, code, ac, s.pc, s.r);
      }
    }
  }

  /** What running the code of an expression must do, from the registers `r0`. */
  ghost predicate Leaves(p: Prims, x: Expr, nact: nat, r0: Regs, o: Outcome) {
    match Eval(p, x, r0)
    case None => o == Err
    case Some(v) => o.Fall? && Get(o.r, nact) == v && Agree(r0, o.r, nact)
  }

  lemma LeavesOk(p: Prims, x: Expr, nact: nat, r0: Regs)
    requires GoodPrims(p) && Legal(p, x, nact) && Clean(r0, nact)
    ensures var c := Compile(p, FS([], {}, -1, nact, [], nact), x);
            var fs := Exp2Next(c.0, c.1).0;
            FsOk(fs) && Leaves(p, x, nact, r0, Exec(p, PatchedHere(fs), 0, r0))
  {
    var fs0 := FS([], {}, -1, nact, [], nact);
    assert FsOk(fs0);
    NextRegOk(p, fs0, x, r0);
    var c := Compile(p, fs0, x);
    var fs := Exp2Next(c.0, c.1).0;
    hide Compile, Exp2Next, Eval, FsOk, Clean, GoodPrims;
    HereRun(p, fs, r0);
    hide PatchedHere;
  }

  /**
    Compile an expression into the first free register of a new function.  The code, with the
    jumps to its end resolved as the next instruction would resolve them, evaluates it: for
    every value of the parameters the machine runs to the end of the code and nowhere else, with
    the value in that register and the parameters unchanged, or fails if evaluation does.
    It is refused only if it is too large or too deep for the instructions and the registers.
   */
  method CompileExpression(p: Prims, nact: nat, x: Expr) returns (r: Result<(seq<Inst>, seq<Val>), Error>)
    requires nact <= 200 && GoodPrims(p) && Legal(p, x, nact)
    ensures 32 * Nodes(x) + 4 <= MAXARG_sBx && nact + 3 * Height(x) + 10 < MAXSTACK ==> r.Ok?
    ensures r.Ok? ==> AllFit(r.value.0)
    ensures r.Ok? ==> forall r0 :: Clean(r0, nact) ==> Leaves(p, x, nact, r0, VmRun(p, r.value.1, r.value.0, 0, r0))
  {
    hide Rep, AllFit, Exp2Next, Leaves, Clean, Desc, GoodPrims, Compile, Legal, IsList, IndexOk, Nodes, Height;
    var fs := new FuncState(p, nact);
    InitialOk(nact);
    var e;
    ghost var tl, fl;
    e, tl, fl :- fs.SubExpr(x);
    var _ :- fs.Exp2NextReg(e, tl, fl);
    ghost var last := fs.View();
    var _ :- fs.DischargeJpc();
    forall r0 | Clean(r0, nact)
      ensures Leaves(p, x, nact, r0, VmRun(p, fs.k, fs.code, 0, r0))
    {
      LeavesOk(p, x, nact, r0);
      LeavesRun(p, x, nact, r0, Exec(p, fs.ac, 0, r0));
      RunMeans(p, fs.k, fs.code, fs.ac, 0, r0);
    }
    return Ok((fs.code, fs.k));
  }

  lemma InitialOk(nact: nat)
    ensures FsOk(FS([], {}, -1, nact, [], nact))
  {
  }

  lemma LeavesRun(p: Prims, x: Expr, nact: nat, r0: Regs, o: Outcome)
    requires Leaves(p, x, nact, r0, o)
    ensures !o.Exit?
  {
  }
}

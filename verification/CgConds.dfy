/** Conditional jumps: jumponcond, luaK_goiftrue, luaK_goiffalse and codenot. */
module CgConds {
  import opened Wrappers
  import opened CgSyntax
  import opened CgCode
  import opened CgGen
  import opened CgSound
  import opened CgReg
  import opened CgExps

  /** Whether the test takes its jump; None is a runtime error. */
  function Taken(p: Prims, test: Instr, r: Regs): Option<bool>
    requires IsTest(test)
  {
    match test
    case Cmp(op, cond, x, y) =>
      (match p.cmp(op, RkVal(x, r), RkVal(y, r))
       case None => None
       case Some(b) => Some(b == cond))
    case Test(b, c) => Some(Falsy(Get(r, b)) != c)
    case TestSet(_, b, c) => Some(Falsy(Get(r, b)) != c)
  }

  function AfterTest(p: Prims, test: Instr, n: nat, o: Outcome): Outcome
    requires IsTest(test)
  {
    if !o.Fall? then o
    else match Taken(p, test, o.r)
      case None => Err
      case Some(b) => if b then Exit(n + 1, o.r) else Fall(o.r)
  }

  lemma TestRun(p: Prims, code: Code, last: int, test: Instr, r0: Regs)
    requires Formed(code, last) && IsTest(test)
    ensures Exec(p, code + [test, Jmp(Pending)], 0, r0) == AfterTest(p, test, |code|, Exec(p, code, 0, r0))
    ensures Formed(code + [test, Jmp(Pending)], last)
  {
    var s := [test, Jmp(Pending)];
    var c := code + s;
    ExecAppend(p, code, last, s, 0, r0);
    assert c[|code|] == test && c[|code| + 1] == Jmp(Pending);
    TestFormed(code, last, test);
  }

  lemma TestFormed(code: Code, last: int, test: Instr)
    requires Formed(code, last) && IsTest(test)
    ensures Formed(code + [test, Jmp(Pending)], last)
  {
    var c := code + [test, Jmp(Pending)];
    forall i | 0 <= i < |c|
      ensures FormedAt(c, last, i)
    {
      if i < |code| {
        assert FormedAt(code, last, i);
        assert c[i] == code[i];
        assert IsTest(code[i]) ==> c[i + 1] == code[i + 1];
      }
    }
  }

  lemma CondJumpCode(fs: FS, test: Instr)
    requires FsOk(fs) && IsTest(test)
    ensures var fs' := CondJump(fs, test);
            && fs' == fs.(code := PatchedHere(fs) + [test, Jmp(Pending)], here := {})
            && FsOk(fs') && Frame(fs.code, fs'.code, fs.here)
  {
    var fs' := CondJump(fs, test);
    HereFormed(fs);
    TestFormed(PatchedHere(fs), fs.last, test);
    assert fs'.code == PatchedHere(fs) + [test, Jmp(Pending)];
    EmitOk(fs, Set(0, Load(Nil)));
    var c := Emit(fs, Set(0, Load(Nil))).code;
    forall j: nat | IsPending(fs.code, j) && j !in fs.here
      ensures SameExit(fs.code, fs'.code, j)
    {
      assert SameExit(fs.code, c, j);
    }
    hide Formed, PatchedHere;
  }

  /** A run of the code, when it comes to its end. */
  function Arrive(fs: FS, o: Outcome): Outcome {
    if Reached(fs, o) then Fall(o.r) else o
  }

  lemma CondJumpRun(p: Prims, fs: FS, test: Instr, r0: Regs)
    requires FsOk(fs) && IsTest(test)
    ensures var o := Exec(p, fs.code, 0, r0);
            Exec(p, CondJump(fs, test).code, 0, r0) == AfterTest(p, test, |fs.code|, Arrive(fs, o))
  {
    CondJumpCode(fs, test);
    HereFormed(fs);
    HereRun(p, fs, r0);
    TestRun(p, PatchedHere(fs), fs.last, test, r0);
    hide AfterTest, PatchedHere, CondJump, Formed;
  }

  // ---------------------------------------------------------------- jumping on the value of an expression

  /** The last instruction of `fs'` jumps when the value that `o` arrives with is not false, or is. */
  ghost predicate Branches(p: Prims, fs: FS, e: Exp, o: Outcome, fs': FS, cond: bool, o': Outcome) {
    var j := |fs'.code| - 1;
    if o.Err? || (o.Exit? && o.j !in fs.here) then o' == o
    else match KindVal(p, fs, e.k, o.r)
      case None => o' == Err
      case Some(v) =>
        if Falsy(v) != cond then
          o'.Exit? && o'.j == j && ExitVal(fs'.code, j, o'.r, cond) == v && Agree(o.r, o'.r, Room(fs, e))
        else o'.Fall? && Agree(o.r, o'.r, Room(fs, e))
  }

  ghost predicate Branched(fs: FS, e: Exp, fs': FS) {
    && FsOk(fs') && fs'.here == {} && fs'.free == Room(fs, e) && fs'.nact == fs.nact && fs.k <= fs'.k
    && |Base(fs, e)| + 2 <= |fs'.code| && IsPending(fs'.code, |fs'.code| - 1) && fs'.last < |fs'.code|
    && Frame(Base(fs, e), fs'.code, fs.here)
  }

  /** The generator without the NOT emitted last. */
  lemma WithoutNot(fs: FS, e: Exp)
    requires ExpState(fs, e) && EndsInNot(fs, e)
    ensures FsOk(fs.(code := Base(fs, e)))
  {
    BaseFormed(fs);
  }

  lemma NotBranched(fs: FS, e: Exp, cond: bool)
    requires ExpState(fs, e) && EndsInNot(fs, e)
    ensures Branched(fs, e, JumpOnCond(fs, e, cond))
  {
    WithoutNot(fs, e);
    CondJumpCode(fs.(code := Base(fs, e)), Test(fs.code[e.k.pc].rhs.b, !cond));
    hide CondJump, Formed, PatchedHere;
  }

  lemma NotBranches(p: Prims, fs: FS, e: Exp, cond: bool, r0: Regs)
    requires ExpState(fs, e) && EndsInNot(fs, e)
    ensures var fs' := JumpOnCond(fs, e, cond);
            Branched(fs, e, fs') && Branches(p, fs, e, Run(p, fs, e, r0), fs', cond, Exec(p, fs'.code, 0, r0))
  {
    hide Branched, FsOk;
    NotBranched(fs, e, cond);
    var base := Base(fs, e);
    ExecExits(p, base, 0, r0);
    WithoutNot(fs, e);
    CondJumpRun(p, fs.(code := base), Test(fs.code[e.k.pc].rhs.b, !cond), r0);
    hide CondJump;
  }

  lemma AnyReg(p: Prims, fs: FS, e: Exp, r0: Regs)
    requires ExpState(fs, e) && !e.k.VJmp? && !e.k.VLocal? && Clean(r0, fs.nact)
    ensures var r := Discharge2Any(fs, e);
            && Moves(fs, e, r.0, r.1) && Carries(p, Room(fs, e), fs, e, r.0, r.1, r0)
            && r.1.k.VNonReloc? && r.1.t == e.t && r.1.f == e.f && Room(r.0, r.1) == Room(fs, e)
  {
    if e.k.VNonReloc? {
      SameOk(p, Room(fs, e), fs, e, r0);
      hide FsOk, ExpOk, Moves, Carries;
    } else {
      var n := Room(fs, e);
      assert Reserve(fs) == fs.(free := fs.free + 1);
      assert fs.free >= fs.nact;
      hide FsOk, ExpOk, Frame, Discharge2Reg;
      ReservedOk(p, n, fs, e, fs.free + 1, r0);
      Discharge2RegOk(p, n, Reserve(fs), e, fs.free, r0);
      var r := Discharge2Any(fs, e);
      MovesTrans(fs, e, Reserve(fs), e, r.0, r.1);
      CarriesTrans(p, n, fs, e, Reserve(fs), e, r.0, r.1, r0);
    }
  }

  lemma FreedOk(fs: FS, e: Exp)
    requires ExpState(fs, e) && e.k.VNonReloc?
    ensures var fs' := FreeExp(fs, e); FsOk(fs') && fs' == fs.(free := Room(fs, e)) && Room(fs, e) >= fs.nact
  {
    hide Formed;
  }

  /** A TESTSET on the register that holds the value. */
  lemma RegBranches(p: Prims, fs: FS, e: Exp, cond: bool, r0: Regs)
    requires ExpState(fs, e) && e.k.VNonReloc?
    ensures var fs' := CondJump(FreeExp(fs, e), TestSet(NO_REG, e.k.r, cond));
            Branched(fs, e, fs') && Branches(p, fs, e, Run(p, fs, e, r0), fs', cond, Exec(p, fs'.code, 0, r0))
  {
    FreedOk(fs, e);
    var fs1 := FreeExp(fs, e);
    var test := TestSet(NO_REG, e.k.r, cond);
    hide Formed;
    CondJumpCode(fs1, test);
    CondJumpRun(p, fs1, test, r0);
    hide CondJump, PatchedHere, FsOk;
  }

  // ---------------------------------------------------------------- luaK_goiftrue and luaK_goiffalse

  /**
    Control goes on in `fs'` when the value is not false (or, for `cond`, when it is); otherwise
    it leaves by `l`, with that value.
   */
  ghost predicate Guards(p: Prims, cond: bool, n: nat, fs: FS, e: Exp, o: Outcome, fs': FS, l: set<nat>, o': Outcome) {
    if Outer(fs, e, o) then o' == o
    else match Value(p, fs, e, o)
      case None => o' == Err
      case Some(v) =>
        && !o.Err? && !o'.Err? && Agree(o.r, o'.r, n)
        && if Falsy(v) == cond then Reached(fs', o')
           else o'.Exit? && o'.j in l && ExitVal(fs'.code, o'.j, o'.r, cond) == v
  }

  ghost predicate Guarded(fs: FS, e: Exp, fs': FS, l: set<nat>) {
    && FsOk(fs') && AllPending(fs'.code, l) && l !! fs'.here
    && Frame(fs.code, fs'.code, Exits(e) + fs.here)
    && Within(l + fs'.here, Exits(e) + fs.here, |Base(fs, e)|)
    && |Base(fs, e)| <= |fs'.code| && fs'.free == Room(fs, e) && fs'.nact == fs.nact && fs.k <= fs'.k
  }

  function GoIf(fs: FS, e: Exp, cond: bool): (FS, set<nat>) {
    if cond then GoIfFalse(fs, e) else GoIfTrue(fs, e)
  }

  function ExitList(e: Exp, cond: bool): set<nat> {
    if cond then e.t else e.f
  }

  lemma GuardsTrans(p: Prims, cond: bool, n: nat, fs: FS, e: Exp, o: Outcome, fs1: FS, e1: Exp, o1: Outcome, fs': FS,
      l: set<nat>, o': Outcome)
    requires CarriesTo(p, n, fs, e, o, fs1, e1, o1) && Guards(p, cond, n, fs1, e1, o1, fs', l, o')
    requires Outer(fs, e, o) ==> Outer(fs1, e1, o1)
    ensures Guards(p, cond, n, fs, e, o, fs', l, o')
  {
    hide Value;
  }

  lemma GuardedTrans(fs: FS, e: Exp, fs1: FS, e1: Exp, fs': FS, l: set<nat>)
    requires ExpState(fs, e) && Moves(fs, e, fs1, e1) && Room(fs1, e1) == Room(fs, e) && Guarded(fs1, e1, fs', l)
    ensures Guarded(fs, e, fs', l)
  {
    hide FsOk;
    forall j: nat | IsPending(fs.code, j) && j !in Exits(e) + fs.here
      ensures SameExit(fs.code, fs'.code, j)
    {
      assert j < |Base(fs, e)|;
      assert SameExit(fs.code, fs1.code, j);
      assert j !in Exits(e1) + fs1.here;
      assert SameExit(fs1.code, fs'.code, j);
    }
  }

  /** The jumps that are not taken are sent to here. */
  lemma BranchGuards(p: Prims, cond: bool, fs: FS, e: Exp, o: Outcome, fs1: FS, o1: Outcome)
    requires ExpState(fs, e) && !e.k.VJmp? && Branched(fs, e, fs1) && Branches(p, fs, e, o, fs1, cond, o1)
    requires Truthful(p, fs, e, o) && (o.Exit? ==> o.j < |Base(fs, e)| && IsPending(Base(fs, e), o.j))
    ensures Guards(p, cond, Room(fs, e), fs, e, o, PatchHere(fs1, ExitList(e, !cond)),
      ExitList(e, cond) + {|fs1.code| - 1}, o1)
  {
    hide FsOk, RhsVal;
    if o.Exit? && o.j !in fs.here {
      assert SameExit(Base(fs, e), fs1.code, o.j);
    }
  }

  lemma BranchGuarded(cond: bool, fs: FS, e: Exp, fs1: FS)
    requires ExpState(fs, e) && !e.k.VJmp? && Branched(fs, e, fs1)
    ensures Guarded(fs, e, PatchHere(fs1, ExitList(e, !cond)), ExitList(e, cond) + {|fs1.code| - 1})
  {
    forall j: nat | j in Exits(e)
      ensures IsPending(fs1.code, j) && j < |Base(fs, e)|
    {
      assert IsPending(Base(fs, e), j);
      assert SameExit(Base(fs, e), fs1.code, j);
    }
    LabelFormed(fs1);
    forall j: nat | IsPending(fs.code, j) && j !in Exits(e) + fs.here
      ensures SameExit(fs.code, fs1.code, j)
    {
      assert IsPending(Base(fs, e), j);
      assert SameExit(Base(fs, e), fs1.code, j);
    }
    hide Formed;
  }

  lemma LabelFormed(fs: FS)
    requires FsOk(fs)
    ensures Formed(fs.code, |fs.code|)
  {
    forall i | 0 <= i < |fs.code|
      ensures FormedAt(fs.code, |fs.code|, i)
    {
      assert FormedAt(fs.code, fs.last, i);
    }
  }

  /** The default case of luaK_goiftrue and luaK_goiffalse. */
  lemma JumpGuards(p: Prims, cond: bool, fs: FS, e: Exp, r0: Regs)
    requires ExpState(fs, e) && !e.k.VJmp? && !e.k.VLocal? && Clean(r0, fs.nact)
    requires Truthful(p, fs, e, Run(p, fs, e, r0))
    ensures var fs1 := JumpOnCond(fs, e, cond);
            var fs', l := PatchHere(fs1, ExitList(e, !cond)), ExitList(e, cond) + {|fs1.code| - 1};
            Guarded(fs, e, fs', l) && Guards(p, cond, Room(fs, e), fs, e, Run(p, fs, e, r0), fs', l,
              Exec(p, fs'.code, 0, r0))
  {
    var fs1 := JumpOnCond(fs, e, cond);
    var o := Run(p, fs, e, r0);
    ExecExits(p, Base(fs, e), 0, r0);
    if EndsInNot(fs, e) {
      NotBranches(p, fs, e, cond, r0);
      hide JumpOnCond, ExpState, Branches, Branched, Guards, Guarded;
      BranchGuards(p, cond, fs, e, o, fs1, Exec(p, fs1.code, 0, r0));
      BranchGuarded(cond, fs, e, fs1);
    } else {
      AnyReg(p, fs, e, r0);
      var r := Discharge2Any(fs, e);
      assert ExpState(r.0, r.1) && Truthful(p, r.0, r.1, Run(p, r.0, r.1, r0)) ==> true;
      hide FsOk, ExpOk, Frame;
      assert fs1 == CondJump(FreeExp(r.0, r.1), TestSet(NO_REG, r.1.k.r, cond));
      hide JumpOnCond, Discharge2Any;
      RegGuards(p, cond, fs, e, r.0, r.1, r0);
    }
  }

  lemma RegGuards(p: Prims, cond: bool, fs: FS, e: Exp, fs1: FS, e1: Exp, r0: Regs)
    requires ExpState(fs, e) && !e.k.VJmp? && Truthful(p, fs, e, Run(p, fs, e, r0))
    requires Moves(fs, e, fs1, e1) && Carries(p, Room(fs, e), fs, e, fs1, e1, r0)
    requires e1.k.VNonReloc? && e1.t == e.t && e1.f == e.f && Room(fs1, e1) == Room(fs, e)
    ensures var fs2 := CondJump(FreeExp(fs1, e1), TestSet(NO_REG, e1.k.r, cond));
            |fs2.code| > 0 &&
            var fs', l := PatchHere(fs2, ExitList(e, !cond)), ExitList(e, cond) + {|fs2.code| - 1};
            Guarded(fs, e, fs', l) && Guards(p, cond, Room(fs, e), fs, e, Run(p, fs, e, r0), fs', l,
              Exec(p, fs'.code, 0, r0))
  {
    var fs2 := CondJump(FreeExp(fs1, e1), TestSet(NO_REG, e1.k.r, cond));
    var o, o1, o2 := Run(p, fs, e, r0), Run(p, fs1, e1, r0), Exec(p, fs2.code, 0, r0);
    ExecExits(p, Base(fs, e), 0, r0);
    ExecExits(p, Base(fs1, e1), 0, r0);
    assert Room(fs, e) >= 0 by {
      FreedOk(fs1, e1);
    }
    RegBranches(p, fs1, e1, cond, r0);
    assert Outer(fs, e, o) ==> Outer(fs1, e1, o1);
    assert Outer(fs, e, o) || Truthful(p, fs1, e1, o1);
    assert Branched(fs1, e1, fs2) ==> |fs2.code| >= 2;
    hide FsOk, ExpOk, Frame, CondJump, FreeExp, Run, Exec, Value, Branches, Branched, Guards, Guarded;
    var fs', l := PatchHere(fs2, ExitList(e, !cond)), ExitList(e, cond) + {|fs2.code| - 1};
    BranchGuards(p, cond, fs1, e1, o1, fs2, o2);
    BranchGuarded(cond, fs1, e1, fs2);
    GuardedTrans(fs, e, fs1, e1, fs', l);
    GuardsTrans(p, cond, Room(fs, e), fs, e, o, fs1, e1, o1, fs', l, o2);
  }

  // ---------------------------------------------------------------- inverting a comparison

  /** The code before the comparison of a VJMP expression, and the comparison. */
  lemma JmpCode(fs: FS, e: Exp)
    requires ExpState(fs, e) && e.k.VJmp?
    ensures var pc := e.k.pc;
            && pc >= 1 && Formed(fs.code[..pc - 1], fs.last) && fs.code[pc - 1].Cmp?
            && fs.code == fs.code[..pc - 1] + [fs.code[pc - 1], Jmp(Pending)]
            && Inverted(fs.code, pc) == fs.code[..pc - 1] + [Inverted(fs.code, pc)[pc - 1], Jmp(Pending)]
  {
    var pc := e.k.pc;
    var base := fs.code[..pc - 1];
    assert IsPending(fs.code, pc);
    forall i | 0 <= i < |base|
      ensures FormedAt(base, fs.last, i)
    {
      assert FormedAt(fs.code, fs.last, i);
    }
  }

  /** The inverted comparison jumps exactly when the other does not. */
  lemma InvertRun(p: Prims, fs: FS, e: Exp, r0: Regs)
    requires ExpState(fs, e) && e.k.VJmp?
    ensures var pc := e.k.pc;
            var o := Exec(p, fs.code, 0, r0);
            Exec(p, Inverted(fs.code, pc), 0, r0) ==
            if o.Fall? then Exit(pc, o.r) else if o.Exit? && o.j == pc then Fall(o.r) else o
    ensures Formed(Inverted(fs.code, e.k.pc), fs.last)
  {
    var pc := e.k.pc;
    JmpCode(fs, e);
    var base := fs.code[..pc - 1];
    TestRun(p, base, fs.last, fs.code[pc - 1], r0);
    TestRun(p, base, fs.last, Inverted(fs.code, pc)[pc - 1], r0);
    ExecExits(p, base, 0, r0);
    hide Exec, Formed;
  }

  lemma InvertFrame(code: Code, pc: nat, l: set<nat>)
    requires pc < |code| && (pc > 0 ==> code[pc - 1].Cmp?)
    ensures Frame(code, Inverted(code, pc), {}) && (AllPending(code, l) ==> AllPending(Inverted(code, pc), l))
    ensures |Inverted(code, pc)| == |code| && forall j: nat :: Valued(Inverted(code, pc), j) == Valued(code, j)
  {
  }

  lemma InvertGuards(p: Prims, fs: FS, e: Exp, r0: Regs)
    requires ExpState(fs, e) && e.k.VJmp? && Truthful(p, fs, e, Run(p, fs, e, r0))
    ensures var fs' := PatchHere(fs.(code := Inverted(fs.code, e.k.pc)), e.t);
            Guarded(fs, e, fs', e.f + {e.k.pc})
              && Guards(p, false, Room(fs, e), fs, e, Run(p, fs, e, r0), fs', e.f + {e.k.pc}, Exec(p, fs'.code, 0, r0))
  {
    var pc := e.k.pc;
    var fs1 := fs.(code := Inverted(fs.code, pc));
    InvertRun(p, fs, e, r0);
    InvertFrame(fs.code, pc, Exits(e));
    assert FsOk(fs1);
    LabelFormed(fs1);
    ExecExits(p, fs.code, 0, r0);
    var o := Run(p, fs, e, r0);
    if o.Exit? && o.j in e.f {
      assert SameExit(fs.code, fs1.code, o.j);
    }
    hide Formed, Exec, Inverted;
  }

  // ---------------------------------------------------------------- no code needed

  /** The other exits come here; what goes on or leaves is decided already. */
  lemma PatchGuards(p: Prims, cond: bool, fs: FS, e: Exp, r0: Regs)
    requires ExpState(fs, e) && !e.k.VReloc? && !e.k.VLocal? && !e.k.VNonReloc? && Truthful(p, fs, e, Run(p, fs, e, r0))
    requires e.k.VJmp? ==> cond
    requires forall r :: !e.k.VJmp? ==> KindVal(p, fs, e.k, r).Some? && Falsy(KindVal(p, fs, e.k, r).value) == cond
    ensures var fs', l := PatchHere(fs, ExitList(e, !cond)), ExitList(e, cond) + JmpOf(e);
            Guarded(fs, e, fs', l) && Guards(p, cond, Room(fs, e), fs, e, Run(p, fs, e, r0), fs', l,
              Exec(p, fs'.code, 0, r0))
  {
    LabelFormed(fs);
    ExecExits(p, fs.code, 0, r0);
    assert e.k.VJmp? ==> !Valued(fs.code, e.k.pc);
    hide Formed, Exec;
  }

  lemma GoIfOk(p: Prims, cond: bool, fs: FS, e: Exp, r0: Regs)
    requires ExpState(fs, e) && Truthful(p, fs, e, Run(p, fs, e, r0)) && Clean(r0, fs.nact)
    requires e.k.VK? ==> !Falsy(KVal(fs, e.k.info))
    ensures var g := GoIf(fs, e, cond);
            Guarded(fs, e, g.0, g.1)
              && Guards(p, cond, Room(fs, e), fs, e, Run(p, fs, e, r0), g.0, g.1, Exec(p, g.0.code, 0, r0))
  {
    hide Guarded, Guards, Truthful, Run;
    if !cond && e.k.VJmp? {
      hide ExpState, JumpOnCond, Inverted;
      InvertGuards(p, fs, e, r0);
    } else if (if cond then e.k.VNil? || e.k.VFalse? || e.k.VJmp? else e.k.VK? || e.k.VKNum? || e.k.VTrue?) {
      hide ExpState, JumpOnCond, Inverted;
      PatchGuards(p, cond, fs, e, r0);
      assert !e.k.VJmp? ==> ExitList(e, cond) + JmpOf(e) == ExitList(e, cond);
    } else {
      LocalGuards(p, cond, fs, e, r0);
      hide ExpState, JumpOnCond, Inverted;
    }
  }

  lemma LocalGuards(p: Prims, cond: bool, fs: FS, e: Exp, r0: Regs)
    requires ExpState(fs, e) && Truthful(p, fs, e, Run(p, fs, e, r0)) && Clean(r0, fs.nact) && !e.k.VJmp?
    ensures var fs1 := JumpOnCond(fs, Discharge(e), cond);
            |fs1.code| > 0 &&
            var fs', l := PatchHere(fs1, ExitList(e, !cond)), ExitList(e, cond) + {|fs1.code| - 1};
            Guarded(fs, e, fs', l) && Guards(p, cond, Room(fs, e), fs, e, Run(p, fs, e, r0), fs', l,
              Exec(p, fs'.code, 0, r0))
  {
    hide ExpState, FsOk, ExpOk, Frame, Truthful, Guarded, Guards, CarriesTo, JumpOnCond, Outer, Base, Room;
    var e1 := Discharge(e);
    var o := Run(p, fs, e, r0);
    DischargeOk(p, fs, e, r0);
    DischargeSame(p, fs, e, o);
    hide Moves, Discharge;
    JumpLength(fs, e1, cond);
    JumpGuards(p, cond, fs, e1, r0);
    var fs1 := JumpOnCond(fs, e1, cond);
    var fs', l := PatchHere(fs1, ExitList(e, !cond)), ExitList(e, cond) + {|fs1.code| - 1};
    GuardedTrans(fs, e, fs, e1, fs', l);
    GuardsTrans(p, cond, Room(fs, e), fs, e, o, fs, e1, o, fs', l, Exec(p, fs'.code, 0, r0));
  }

  lemma JumpLength(fs: FS, e: Exp, cond: bool)
    ensures |JumpOnCond(fs, e, cond).code| > 0
  {
    hide Discharge2Any, FreeExp;
  }

  lemma DischargeSame(p: Prims, fs: FS, e: Exp, o: Outcome)
    requires ExpState(fs, e)
    ensures var e1 := Discharge(e);
            && Base(fs, e1) == Base(fs, e) && Room(fs, e1) == Room(fs, e) && Outer(fs, e, o) == Outer(fs, e1, o)
            && Truthful(p, fs, e1, o) == Truthful(p, fs, e, o)
            && e1.t == e.t && e1.f == e.f && !e1.k.VLocal? && (e1.k.VJmp? <==> e.k.VJmp?)
  {
  }
}

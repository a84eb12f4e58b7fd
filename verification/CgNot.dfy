/** codenot: the value is negated, and so is that of every exit. */
module CgNot {
  import opened Wrappers
  import opened CgSyntax
  import opened CgCode
  import opened CgGen
  import opened CgSound
  import opened CgReg
  import opened CgExps
  import opened CgConds

  function NotVal(v: Option<Val>): Option<Val> {
    match v
    case None => None
    case Some(x) => Some(Bool(Falsy(x)))
  }

  ghost predicate Negates(p: Prims, n: nat, fs: FS, e: Exp, o: Outcome, fs': FS, e': Exp, o': Outcome) {
    if Outer(fs, e, o) then o' == o
    else
      && !Outer(fs', e', o') && Value(p, fs', e', o') == NotVal(Value(p, fs, e, o))
      && Truthful(p, fs', e', o')
      && (!o'.Err? ==> !o.Err? && Agree(o.r, o'.r, n))
  }

  // ---------------------------------------------------------------- exchanging the exits

  function Swapped(fs: FS, e: Exp): Code {
    WithoutValues(WithoutValues(fs.code, e.t), e.f)
  }

  lemma SwapCode(fs: FS, e: Exp)
    requires ExpState(fs, e)
    ensures var c := Swapped(fs, e);
            && Formed(c, fs.last) && AllPending(c, fs.here) && AllPending(c, Exits(e)) && |c| == |fs.code|
            && Frame(fs.code, c, Exits(e))
            && (forall j :: j in e.t + e.f ==> !Valued(c, j))
            && (forall i :: 0 <= i < |c| && !fs.code[i].TestSet? ==> c[i] == fs.code[i])
  {
    WithoutValuesFormed(fs.code, fs.last, e.t);
    WithoutValuesFormed(WithoutValues(fs.code, e.t), fs.last, e.f);
    hide Formed;
  }

  lemma SwapMoves(fs: FS, e: Exp)
    requires ExpState(fs, e)
    ensures var r := SwapExits(fs, e);
            Moves(fs, e, r.0, r.1) && Room(r.0, r.1) == Room(fs, e) && r.0.free == fs.free
  {
    SwapCode(fs, e);
    hide Formed;
  }

  lemma BaseSwapped(p: Prims, code: Code, t: set<nat>, f: set<nat>, n: nat, r0: Regs)
    requires n <= |code| && AllPending(code[..n], t) && AllPending(code[..n], f)
    ensures Exec(p, WithoutValues(WithoutValues(code, t), f)[..n], 0, r0) == Exec(p, code[..n], 0, r0)
  {
    var c := code[..n];
    assert WithoutValues(WithoutValues(code, t), f)[..n] == WithoutValues(WithoutValues(c, t), f);
    ExecWithoutValues(p, c, t, 0, r0);
    ExecWithoutValues(p, WithoutValues(c, t), f, 0, r0);
  }

  lemma SwapRun(p: Prims, fs: FS, e: Exp, r0: Regs)
    requires ExpState(fs, e)
    ensures var r := SwapExits(fs, e);
            Run(p, r.0, r.1, r0) == Run(p, fs, e, r0)
  {
    var n := |Base(fs, e)|;
    assert AllPending(fs.code[..n], e.t) && AllPending(fs.code[..n], e.f) by {
      assert forall j :: j in e.t + e.f ==> IsPending(fs.code, j);
    }
    assert fs.code[..n] == Base(fs, e);
    BaseSwapped(p, fs.code, e.t, e.f, n, r0);
    var r := SwapExits(fs, e);
    assert r.0.code[..n] == Base(r.0, r.1);
    hide WithoutValues, Exec, Formed;
  }

  /** What the code before the exchange must do: exits are left alone, and the value is negated. */
  ghost predicate HalfNegates(p: Prims, n: nat, fs: FS, e: Exp, o: Outcome, fs': FS, k: Kind, o': Outcome) {
    var e' := Exp(k, e.t, e.f);
    if o.Exit? && (Outer(fs, e, o) || o.j in e.t + e.f) then o' == o
    else
      && !Outer(fs', e', o') && !(o'.Exit? && o'.j in e.t + e.f)
      && Value(p, fs', e', o') == NotVal(Value(p, fs, e, o))
      && (!o'.Err? ==> !o.Err? && Agree(o.r, o'.r, n))
  }

  lemma SwapNegates(p: Prims, n: nat, fs: FS, e: Exp, o: Outcome, fs': FS, k: Kind, r0: Regs)
    requires ExpOk(fs, e) && Truthful(p, fs, e, o)
    requires var e' := Exp(k, e.t, e.f);
             ExpState(fs', e') && HalfNegates(p, n, fs, e, o, fs', k, Run(p, fs', e', r0))
               && Frame(fs.code, fs'.code, JmpOf(e) + fs.here)
    ensures var e' := Exp(k, e.t, e.f);
            var r := SwapExits(fs', e');
            Negates(p, n, fs, e, o, r.0, r.1, Run(p, r.0, r.1, r0))
  {
    var e' := Exp(k, e.t, e.f);
    SwapCode(fs', e');
    SwapRun(p, fs', e', r0);
    var r := SwapExits(fs', e');
    var o' := Run(p, fs', e', r0);
    assert forall r1 :: KindVal(p, r.0, k, r1) == KindVal(p, fs', k, r1);
    hide Run, Formed, RhsVal, Swapped, KindVal, WithoutValues;
    SwapValue(p, n, fs, e, o, fs', k, o', r.0);
  }

  lemma SwapValue(p: Prims, n: nat, fs: FS, e: Exp, o: Outcome, fs': FS, k: Kind, o': Outcome, fs2: FS)
    requires ExpOk(fs, e) && Truthful(p, fs, e, o) && e.t !! e.f
    requires HalfNegates(p, n, fs, e, o, fs', k, o') && fs2.here == fs'.here
    requires k.VJmp? ==> k.pc !in e.t && k.pc !in e.f
    requires forall r1 :: KindVal(p, fs2, k, r1) == KindVal(p, fs', k, r1)
    requires forall j :: j in e.t + e.f ==> !Valued(fs2.code, j)
    ensures Negates(p, n, fs, e, o, fs2, Exp(k, e.f, e.t), o')
  {
    hide KindVal, Valued, ExpOk;
  }

  // ---------------------------------------------------------------- the cases of codenot

  /** A constant is negated by the compiler. */
  lemma ConstNegates(p: Prims, n: nat, fs: FS, e: Exp, k: Kind, r0: Regs)
    requires ExpState(fs, e) && Plain(e.k) && Plain(k) && KindOk(fs, Exp(k, e.t, e.f))
    requires forall r :: KindVal(p, fs, k, r) == NotVal(KindVal(p, fs, e.k, r))
    ensures ExpState(fs, Exp(k, e.t, e.f))
      && HalfNegates(p, n, fs, e, Run(p, fs, e, r0), fs, k, Run(p, fs, Exp(k, e.t, e.f), r0))
    ensures Frame(fs.code, fs.code, JmpOf(e) + fs.here)
  {
    hide FsOk, RhsVal;
  }

  lemma JmpNegates(p: Prims, n: nat, fs: FS, e: Exp, r0: Regs)
    requires ExpState(fs, e) && e.k.VJmp?
    ensures var fs' := fs.(code := Inverted(fs.code, e.k.pc));
            ExpState(fs', e) && HalfNegates(p, n, fs, e, Run(p, fs, e, r0), fs', e.k, Run(p, fs', e, r0))
            && Frame(fs.code, fs'.code, JmpOf(e) + fs.here) && Moves(fs, e, fs', e) && e == Exp(e.k, e.t, e.f)
  {
    InvertRun(p, fs, e, r0);
    InvertFrame(fs.code, e.k.pc, Exits(e));
    assert Inverted(fs.code, e.k.pc)[e.k.pc - 1].Cmp?;
    hide Formed, Exec, Inverted;
  }

  /** OP_NOT on the register that holds the value. */
  lemma RegNegates(p: Prims, fs: FS, e: Exp, r0: Regs)
    requires ExpState(fs, e) && e.k.VNonReloc?
    ensures var fs1 := FreeExp(fs, e);
            var fs' := Emit(fs1, Set(0, Not(e.k.r)));
            var k := VReloc(|fs1.code|);
            && ExpState(fs', Exp(k, e.t, e.f)) && Room(fs, e) >= 0
            && HalfNegates(p, Room(fs, e), fs, e, Run(p, fs, e, r0), fs', k, Run(p, fs', Exp(k, e.t, e.f), r0))
            && Frame(fs.code, fs'.code, JmpOf(e) + fs.here) && Moves(fs, e, fs', Exp(k, e.t, e.f))
              && Room(fs', Exp(k, e.t, e.f)) == Room(fs, e)
  {
    FreedOk(fs, e);
    var fs1 := FreeExp(fs, e);
    hide Formed;
    var fs' := Emit(fs1, Set(0, Not(e.k.r)));
    EmitOk(fs1, Set(0, Not(e.k.r)));
    HereRun(p, fs1, r0);
    ExecExits(p, fs.code, 0, r0);
    forall j | j in Exits(e)
      ensures IsPending(fs'.code, j)
    {
      assert SameExit(fs.code, fs'.code, j);
    }
    hide PatchedHere, Exec;
  }

  lemma NegatesTrans(p: Prims, n: nat, fs: FS, e: Exp, o: Outcome, fs1: FS, e1: Exp, o1: Outcome, fs2: FS, e2: Exp,
      o2: Outcome)
    requires CarriesTo(p, n, fs, e, o, fs1, e1, o1) && Negates(p, n, fs1, e1, o1, fs2, e2, o2)
    requires Outer(fs, e, o) ==> Outer(fs1, e1, o1)
    ensures Negates(p, n, fs, e, o, fs2, e2, o2)
  {
    hide Value, Truthful;
  }

  ghost predicate Negated(p: Prims, fs: FS, e: Exp, fs': FS, e': Exp, r0: Regs) {
    && Moves(fs, e, fs', e') && Room(fs', e') == Room(fs, e) >= 0
    && Negates(p, Room(fs, e), fs, e, Run(p, fs, e, r0), fs', e', Run(p, fs', e', r0))
  }

  lemma SwapNegated(p: Prims, fs: FS, e: Exp, fs': FS, k: Kind, r0: Regs)
    requires ExpState(fs, e) && Truthful(p, fs, e, Run(p, fs, e, r0)) && Room(fs, e) >= 0
    requires var e' := Exp(k, e.t, e.f);
             ExpState(fs', e') && HalfNegates(p, Room(fs, e), fs, e, Run(p, fs, e, r0), fs', k, Run(p, fs', e', r0))
             && Frame(fs.code, fs'.code, JmpOf(e) + fs.here) && Moves(fs, e, fs', e') && Room(fs', e') == Room(fs, e)
    ensures var r := SwapExits(fs', Exp(k, e.t, e.f)); Negated(p, fs, e, r.0, r.1, r0)
  {
    hide FsOk, HalfNegates, Negates, Truthful;
    var e' := Exp(k, e.t, e.f);
    var r := SwapExits(fs', e');
    SwapMoves(fs', e');
    SwapNegates(p, Room(fs, e), fs, e, Run(p, fs, e, r0), fs', k, r0);
    hide SwapExits, ExpOk;
    MovesTrans(fs, e, fs', e', r.0, r.1);
  }

  /** The default case of codenot. */
  lemma AnyNegated(p: Prims, fs: FS, e: Exp, r0: Regs)
    requires ExpState(fs, e) && !e.k.VJmp? && !e.k.VLocal? && Clean(r0, fs.nact)
    requires Truthful(p, fs, e, Run(p, fs, e, r0))
    ensures var r := Discharge2Any(fs, e);
            var fs1 := FreeExp(r.0, r.1);
            r.1.k.VNonReloc? &&
            var r' := SwapExits(Emit(fs1, Set(0, Not(r.1.k.r))), e.(k := VReloc(|fs1.code|)));
            Negated(p, fs, e, r'.0, r'.1, r0)
  {
    var o := Run(p, fs, e, r0);
    ExecExits(p, Base(fs, e), 0, r0);
    AnyReg(p, fs, e, r0);
    var r := Discharge2Any(fs, e);
    hide FsOk, ExpOk, Frame, Discharge2Any;
    var fs1 := r.0;
    var e1 := r.1;
    var o1 := Run(p, fs1, e1, r0);
    assert Outer(fs, e, o) ==> Outer(fs1, e1, o1);
    assert Truthful(p, fs1, e1, o1);
    hide Value, Exec, Base;
    RegNegates(p, fs1, e1, r0);
    var free1 := FreeExp(fs1, e1);
    var fs2 := Emit(free1, Set(0, Not(e1.k.r)));
    var k := VReloc(|free1.code|);
    hide Emit, FreeExp;
    assert e.(k := k) == Exp(k, e1.t, e1.f);
    var r' := SwapExits(fs2, e.(k := k));
    SwapNegated(p, fs1, e1, fs2, k, r0);
    hide SwapExits;
    MovesTrans(fs, e, fs1, e1, r'.0, r'.1);
    NegatesTrans(p, Room(fs, e), fs, e, o, fs1, e1, o1, r'.0, r'.1, Run(p, r'.0, r'.1, r0));
  }

  lemma ConstNegated(p: Prims, fs: FS, e: Exp, k: Kind, r0: Regs)
    requires ExpState(fs, e) && Plain(e.k) && (k.VTrue? || k.VFalse?) && !e.k.VNonReloc? && !e.k.VLocal?
    requires forall r :: KindVal(p, fs, k, r) == NotVal(KindVal(p, fs, e.k, r))
    requires Truthful(p, fs, e, Run(p, fs, e, r0))
    ensures var r := SwapExits(fs, Exp(k, e.t, e.f)); Negated(p, fs, e, r.0, r.1, r0)
  {
    ConstNegates(p, fs.free, fs, e, k, r0);
    assert Moves(fs, e, fs, Exp(k, e.t, e.f)) by {
      hide Formed;
    }
    hide FsOk, HalfNegates, Truthful, KindVal, Moves, Negated;
    SwapNegated(p, fs, e, fs, k, r0);
  }

  lemma JmpNegated(p: Prims, fs: FS, e: Exp, r0: Regs)
    requires ExpState(fs, e) && e.k.VJmp? && Truthful(p, fs, e, Run(p, fs, e, r0))
    ensures var r := SwapExits(fs.(code := Inverted(fs.code, e.k.pc)), e); Negated(p, fs, e, r.0, r.1, r0)
  {
    JmpNegates(p, fs.free, fs, e, r0);
    hide FsOk, HalfNegates, Truthful, Inverted, Moves, Negated;
    SwapNegated(p, fs, e, fs.(code := Inverted(fs.code, e.k.pc)), e.k, r0);
  }

  /** codenot gives the negation of the expression. */
  lemma CodeNotOk(p: Prims, fs: FS, e: Exp, r0: Regs)
    requires ExpState(fs, e) && Truthful(p, fs, e, Run(p, fs, e, r0)) && Clean(r0, fs.nact)
    requires e.k.VK? ==> !Falsy(KVal(fs, e.k.info))
    ensures var r := CodeNot(fs, e); Negated(p, fs, e, r.0, r.1, r0)
  {
    hide ExpState, Truthful, Negated, Run, SwapExits, Discharge2Any, Emit, FreeExp, Inverted;
    if e.k.VJmp? {
      JmpNegated(p, fs, e, r0);
    } else if e.k.VNil? || e.k.VFalse? {
      ConstNegated(p, fs, e, VTrue, r0);
    } else if e.k.VK? || e.k.VKNum? || e.k.VTrue? {
      ConstNegated(p, fs, e, VFalse, r0);
    } else {
      LocalNegated(p, fs, e, r0);
    }
  }

  lemma LocalNegated(p: Prims, fs: FS, e: Exp, r0: Regs)
    requires ExpState(fs, e) && !e.k.VJmp? && Clean(r0, fs.nact) && Truthful(p, fs, e, Run(p, fs, e, r0))
    ensures var e1 := Discharge(e);
            var r := Discharge2Any(fs, e1);
            var fs1 := FreeExp(r.0, r.1);
            r.1.k.VNonReloc? &&
            var r' := SwapExits(Emit(fs1, Set(0, Not(r.1.k.r))), e1.(k := VReloc(|fs1.code|)));
            Negated(p, fs, e, r'.0, r'.1, r0)
  {
    hide FsOk, ExpOk, Frame, Truthful, SwapExits, Discharge2Any, Emit, FreeExp, Outer, Base, Room, Negates, CarriesTo;
    var e1 := Discharge(e);
    var o := Run(p, fs, e, r0);
    DischargeOk(p, fs, e, r0);
    DischargeSame(p, fs, e, o);
    hide Discharge;
    AnyNegated(p, fs, e1, r0);
    var r := Discharge2Any(fs, e1);
    var fs1 := FreeExp(r.0, r.1);
    var r' := SwapExits(Emit(fs1, Set(0, Not(r.1.k.r))), e1.(k := VReloc(|fs1.code|)));
    MovesTrans(fs, e, fs, e1, r'.0, r'.1);
    hide Moves;
    NegatesTrans(p, Room(fs, e), fs, e, o, fs, e1, o, r'.0, r'.1, Run(p, r'.0, r'.1, r0));
  }
}

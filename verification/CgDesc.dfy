/** Expression descriptors whose lists are threaded through the code, and how steps of the generator keep them. */
module CgDesc {
  import opened Wrappers
  import opened CgSyntax
  import opened CgCode
  import opened CgGen
  import opened CgSound
  import opened CgReg
  import opened CgClose
  import opened CgExps
  import opened CgConds
  import opened CgNot
  import opened CgOps
  import opened CgCompile
  import opened CgExpr
  import opened CgLinks

  /** An error ends the compilation. */
  datatype Error = ControlTooLong | TooComplex | ConstantOverflow | CodeOverflow

  datatype ExpDesc = ExpDesc(k: Kind, t: int, f: int)

  function Abs(e: ExpDesc, tl: seq<nat>, fl: seq<nat>): Exp {
    Exp(e.k, SetOf(tl), SetOf(fl))
  }

  /** The table that finds constants. */
  ghost predicate IndexOk(k: seq<Val>, h: map<Val, nat>) {
    && (forall v :: v in h <==> v in k)
    && (forall v :: v in h ==> h[v] == IndexOf(k, v))
  }

  predicate SmallRegs(k: Kind) {
    (k.VNonReloc? ==> k.r < MAXSTACK) && (k.VLocal? ==> k.r < MAXSTACK)
  }

  /** `e` describes an expression, with the jumps of `tl` and `fl` as its exits. */
  ghost predicate Desc(fs: FS, code: seq<Inst>, e: ExpDesc, tl: seq<nat>, fl: seq<nat>) {
    && IsList(code, fs.code, e.t, tl) && IsList(code, fs.code, e.f, fl)
    && ExpState(fs, Abs(e, tl, fl)) && SmallRegs(e.k)
    && (e.k.VJmp? ==> IsList(code, fs.code, e.k.pc, [e.k.pc]))
  }

  lemma EmptyList(code: seq<Inst>, ac: Code)
    requires |code| == |ac|
    ensures IsList(code, ac, NO_JUMP, [])
  {
  }

  /** After a jump is emitted, the list of jumps to here is still a list, and the new jump is another. */
  lemma JumpLists(code0: seq<Inst>, ac0: Code, jpc0: int, l0: seq<nat>, code: seq<Inst>, ac: Code)
    requires IsList(code0, ac0, jpc0, l0) && SameLinks(ac0, code0, code, SetOf([]))
    requires |code| == |code0| + 1 && code[|code0|] == JMP(NO_JUMP) && ac == ac0 + [Jmp(Pending)]
    ensures IsList(code, ac, jpc0, l0) && IsList(code, ac, |code0|, [|code0|]) && SetOf([|code0|]) !! SetOf(l0)
  {
    forall j | j in l0
      ensures j < |code0| && j < |code| && code[j] == code0[j]
    {
      assert j in SetOf(l0) && IsPending(ac0, j);
    }
    LinkedKept(code0, code, l0);
  }

  lemma JumpLinks(code0: seq<Inst>, ac0: Code, l0: seq<nat>, code: seq<Inst>, j: nat)
    requires j == |code0|
    ensures SetOf([j] + l0) == SetOf(l0) + {j} && (l0 == [] ==> [j] + l0 == [j])
  {
  }

  // ---------------------------------------------------------------- lists of others

  /** A list of jumps that a step of the generator does not own is still a list. */
  lemma ListMoves(fs: FS, code: seq<Inst>, fs': FS, code': seq<Inst>, own: set<nat>, head: int, l: seq<nat>)
    requires IsList(code, fs.code, head, l) && SameLinks(fs.code, code, code', own) && SetOf(l) !! own
    requires |code'| == |fs'.code| && AllPending(fs'.code, SetOf(l))
    ensures IsList(code', fs'.code, head, l)
  {
    forall j | j in l
      ensures j < |code'| && j < |code| && code'[j] == code[j]
    {
      assert j in SetOf(l) && IsPending(fs.code, j) && IsPending(fs'.code, j);
    }
    LinkedKept(code, code', l);
  }

  /** The same for a list outside the expression that the step is about. */
  lemma OuterListMoves(fs: FS, code: seq<Inst>, e: Exp, fs': FS, code': seq<Inst>, e': Exp, head: int, l: seq<nat>)
    requires IsList(code, fs.code, head, l) && Moves(fs, e, fs', e') && SetOf(l) !! Exits(e) + fs.here
    requires SameLinks(fs.code, code, code', Exits(e) + fs.here) && |code'| == |fs'.code|
      && AllPending(Base(fs, e), SetOf(l))
    ensures IsList(code', fs'.code, head, l) && SetOf(l) !! Exits(e') + fs'.here
  {
    hide FsOk, ExpOk, IsList, Linked;
    forall j | j in SetOf(l)
      ensures IsPending(fs'.code, j) && j !in Exits(e') + fs'.here
    {
      assert IsPending(Base(fs, e), j) && IsPending(fs.code, j);
      assert SameExit(fs.code, fs'.code, j);
    }
    ListMoves(fs, code, fs', code', Exits(e) + fs.here, head, l);
  }

  lemma LinksTrans(a: FS, x: Exp, b: FS, y: Exp, code0: seq<Inst>, code1: seq<Inst>, code2: seq<Inst>)
    requires Moves(a, x, b, y) && ExpState(a, x)
    requires |code0| == |a.code| && |code1| == |b.code|
    requires SameLinks(a.code, code0, code1, Exits(x) + a.here) && SameLinks(b.code, code1, code2, Exits(y) + b.here)
    ensures SameLinks(a.code, code0, code2, Exits(x) + a.here)
  {
    hide FsOk;
    forall j: nat | IsPending(a.code, j) && j !in Exits(x) + a.here && j < |code0|
      ensures j < |code2| && code2[j] == code0[j]
    {
      assert SameExit(a.code, b.code, j);
      assert j < |Base(a, x)|;
      assert j !in Exits(y) + b.here;
    }
  }

  lemma LinksMore(ac: Code, code: seq<Inst>, code': seq<Inst>, own: set<nat>, own': set<nat>)
    requires SameLinks(ac, code, code', own) && own <= own'
    ensures SameLinks(ac, code, code', own')
  {
  }

  lemma PatchedOthers(ac: Code, l: set<nat>, others: set<nat>, vt: nat, reg: Option<nat>, dt: nat)
    requires AllPending(ac, others) && l !! others
    ensures AllPending(Patched(ac, l, vt, reg, dt), others)
  {
    forall j | j in others
      ensures IsPending(Patched(ac, l, vt, reg, dt), j)
    {
      assert Patched(ac, l, vt, reg, dt)[j] == PatchedAt(ac, l, vt, reg, dt, j);
    }
  }

  // ---------------------------------------------------------------- small steps

  lemma EmitPending(fs: FS, a: Instr)
    requires AllPending(fs.code, fs.here)
    ensures forall j: nat :: IsPending(fs.code, j) && j !in fs.here ==> IsPending(Emit(fs, a).code, j)
  {
    forall j: nat | IsPending(fs.code, j) && j !in fs.here
      ensures IsPending(Emit(fs, a).code, j)
    {
      assert PatchedHere(fs)[j] == PatchedAt(fs.code, fs.here, |fs.code|, None, |fs.code|, j);
    }
  }

  lemma {:induction false} IndexMore(k: seq<Val>, v: Val)
    requires v !in k
    ensures IndexOf(k + [v], v) == |k| && forall x :: x in k ==> IndexOf(k + [v], x) == IndexOf(k, x)
  {
    if k == [] {
      assert k + [v] == [v];
    } else {
      assert (k + [v])[1..] == k[1..] + [v] && (k + [v])[0] == k[0];
      assert k == [k[0]] + k[1..];
      IndexMore(k[1..], v);
    }
  }

  /** The code that luaK_nil leaves when it extends the LOADNIL before. */
  lemma LastNil(fs: FS, reg: nat)
    requires |fs.code| > fs.last && |fs.code| > 0 && fs.code[|fs.code| - 1].LoadNil?
    requires fs.code[|fs.code| - 1].a <= reg <= fs.code[|fs.code| - 1].b + 1
    ensures var n := |fs.code| - 1;
            LoadNilInto(fs, reg) ==
            if reg > fs.code[n].b then fs.(code := fs.code[n := LoadNil(fs.code[n].a, reg)]) else fs
  {
    var n := |fs.code| - 1;
    assert fs.code[..n] + [fs.code[n]] == fs.code;
    assert fs.code[..n] + [LoadNil(fs.code[n].a, reg)] == fs.code[n := LoadNil(fs.code[n].a, reg)];
  }

  /** Changing an instruction that is no jump keeps the lists. */
  lemma NilKept(code: seq<Inst>, code': seq<Inst>, fs': FS, head: int, l: seq<nat>, n: nat)
    requires |code| == |code'| == |fs'.code| && n < |code| && !code[n].JMP? && code' == code[n := code'[n]]
    requires head == Head(l) && Linked(code, l) && AllPending(fs'.code[n := Jmp(Pending)], SetOf(l))
    ensures IsList(code', fs'.code, head, l)
  {
    forall j | j in l
      ensures j < |code'| && j < |code| && code'[j] == code[j] && IsPending(fs'.code, j)
    {
      assert j in SetOf(l) && j != n;
    }
    LinkedKept(code, code', l);
  }

  // ---------------------------------------------------------------- values into registers

  function InRegister(e: ExpDesc, reg: nat): ExpDesc {
    if e.k.VJmp? then e else e.(k := VNonReloc(reg))
  }

  lemma DescMoves(fs: FS, code: seq<Inst>, e: ExpDesc, tl: seq<nat>, fl: seq<nat>, fs': FS, code': seq<Inst>,
      e': ExpDesc)
    requires Desc(fs, code, e, tl, fl) && Moves(fs, Abs(e, tl, fl), fs', Abs(e', tl, fl)) && SmallRegs(e'.k)
      && !e'.k.VJmp?
    requires e'.t == e.t && e'.f == e.f && SameLinks(fs.code, code, code', fs.here) && |code'| == |fs'.code|
    ensures Desc(fs', code', e', tl, fl)
  {
    hide FsOk, Linked, KindOk, Frame;
    ListMoves(fs, code, fs', code', fs.here, e.t, tl);
    ListMoves(fs, code, fs', code', fs.here, e.f, fl);
  }

  lemma DischargeDesc(p: Prims, fs: FS, code: seq<Inst>, e: ExpDesc, tl: seq<nat>, fl: seq<nat>, reg: nat,
      code': seq<Inst>)
    requires Desc(fs, code, e, tl, fl) && CanHold(fs, reg, 0) && reg < MAXSTACK
    requires var fs' := Discharge2Reg(fs, Abs(e, tl, fl), reg);
             |code'| == |fs'.code| && SameLinks(fs.code, code, code', fs.here) && (e.k.VJmp? ==> code' == code)
    ensures Desc(Discharge2Reg(fs, Abs(e, tl, fl), reg), code', InRegister(e, reg), tl, fl)
  {
    hide FsOk, ExpOk, IsList, Frame;
    var e1 := Abs(e, tl, fl);
    if e.k.VJmp? {
      assert Discharge2Reg(fs, e1, reg) == fs;
    } else {
      hide Discharge2Reg;
      Discharge2RegOk(p, 0, fs, e1, reg, map[]);
      DescMoves(fs, code, e, tl, fl, Discharge2Reg(fs, e1, reg), code', InRegister(e, reg));
    }
  }

  /** SETARG_A, on an instruction that computes a value */
  function SetA(i: Inst, a: nat): Inst {
    match i
    case ARITH(op, _, b, c) => ARITH(op, a, b, c)
    case UNM(_, b) => UNM(a, b)
    case LEN(_, b) => LEN(a, b)
    case NOT(_, b) => NOT(a, b)
    case _ => i
  }

  lemma SetAMeans(k: seq<Val>, c: Inst, i: Instr, pc: nat, a: nat)
    requires Means(k, c, i, pc) && Computes(i) && FitsIn(c) && a < 256
    ensures Means(k, SetA(c, a), Set(a, i.rhs), pc) && FitsIn(SetA(c, a)) && !c.JMP?
  {
  }

  lemma KindFacts(fs: FS, code: seq<Inst>, e: ExpDesc, tl: seq<nat>, fl: seq<nat>)
    requires Desc(fs, code, e, tl, fl)
    ensures ExpState(fs, Abs(e, tl, fl)) && (tl == [] ==> e.t == NO_JUMP) && (fl == [] ==> e.f == NO_JUMP)
    ensures SmallRegs(e.k) && (e.k.VK? ==> e.k.info < |fs.k|) && |code| == |fs.code|
    ensures e.k.VReloc? ==> e.k.pc + 1 == |fs.code| && Computes(fs.code[e.k.pc]) && fs.here == {}
    ensures e.k.VJmp? ==> e.k.pc + 1 == |fs.code| && fs.here == {} && e.k.pc !in tl && e.k.pc !in fl
                          && IsPending(fs.code, e.k.pc)
    ensures e.k.VNonReloc? && e.k.r >= fs.nact ==> e.k.r + 1 == fs.free
    ensures SetOf(tl) !! SetOf(fl) && SetOf(tl) !! fs.here && SetOf(fl) !! fs.here
  {
    hide Formed, Linked;
    var x := Abs(e, tl, fl);
    if e.k.VJmp? {
      assert e.k.pc in Exits(x);
      assert e.k.pc !in SetOf(tl) && e.k.pc !in SetOf(fl);
    }
  }

  // ---------------------------------------------------------------- exp2reg

  /** The list of exits when true, with the jump of a VJMP expression. */
  function TrueSeq(e: ExpDesc, tl: seq<nat>): seq<nat> {
    if e.k.VJmp? then tl + [e.k.pc] else tl
  }

  lemma TrueSeqSet(e: ExpDesc, tl: seq<nat>, fl: seq<nat>)
    ensures SetOf(TrueSeq(e, tl)) == TrueList(Abs(e, tl, fl))
  {
  }

  lemma TrueLinks(fs: FS, code: seq<Inst>, e: ExpDesc, tl: seq<nat>, fl: seq<nat>)
    requires Desc(fs, code, e, tl, fl) && e.k.VJmp?
    ensures SetOf(tl) !! SetOf([e.k.pc]) && SetOf(TrueSeq(e, tl)) !! SetOf(fl) && SetOf(TrueSeq(e, tl)) !! fs.here
  {
    KindFacts(fs, code, e, tl, fl);
    hide Linked, FsOk;
  }

  /** Three lists that share no jump. */
  predicate Apart(a: seq<nat>, b: seq<nat>, c: seq<nat>) {
    SetOf(a) !! SetOf(b) && SetOf(a) !! SetOf(c) && SetOf(b) !! SetOf(c)
  }

  lemma LoadsLists(fs: FS, code: seq<Inst>, jump: bool, reg: nat, code': seq<Inst>, head: int, l: seq<nat>)
    requires IsList(code, fs.code, head, l) && SetOf(l) !! fs.here && (jump || fs.here == {})
    requires |code'| == |LoadBools(fs, jump, reg).code| && SameLinks(fs.code, code, code', fs.here)
    ensures IsList(code', LoadBools(fs, jump, reg).code, head, l) && SetOf(l) !! LoadBools(fs, jump, reg).here
  {
    LoadBoolsCode(fs, jump, reg);
    LoadsFrame(fs.code, jump, reg, SetOf(l));
    assert forall j :: j in SetOf(l) ==> IsPending(fs.code, j);
    hide LoadBools, Linked;
    ListMoves(fs, code, LoadBools(fs, jump, reg), code', fs.here, head, l);
  }

  /** Patching one list leaves another as it was. */
  lemma PatchedList(ac: Code, code: seq<Inst>, code': seq<Inst>, l: seq<nat>, vt: nat, reg: Option<nat>, dt: nat,
      head: int, other: seq<nat>)
    requires IsList(code, ac, head, other) && AllPending(ac, SetOf(l)) && SetOf(l) !! SetOf(other) && |code'| == |code|
    requires forall i :: 0 <= i < |code| && code[i].JMP? && i !in l ==> code'[i] == code[i]
    ensures IsList(code', Patched(ac, SetOf(l), vt, reg, dt), head, other)
    ensures NeedValue(Patched(ac, SetOf(l), vt, reg, dt), SetOf(other)) == NeedValue(ac, SetOf(other))
  {
    PatchedOthers(ac, SetOf(l), SetOf(other), vt, reg, dt);
    forall j | j in other
      ensures j < |code'| && j < |code| && code'[j] == code[j]
    {
      assert j in SetOf(other) && IsPending(ac, j) && j !in SetOf(l);
      assert code[j].JMP?;
    }
    LinkedKept(code, code', other);
    var c := Patched(ac, SetOf(l), vt, reg, dt);
    forall j | j in SetOf(other)
      ensures Valued(c, j) == Valued(ac, j)
    {
      PatchOne(ac, SetOf(l), j, vt, reg, dt);
    }
  }

  lemma RepJumps(k: seq<Val>, code: seq<Inst>, ac: Code)
    requires Rep(k, code, ac)
    ensures |code| == |ac| && forall j :: 0 <= j < |ac| && ac[j].Jmp? ==> code[j].JMP?
  {
    assert forall j :: 0 <= j < |ac| ==> Means(k, code[j], ac[j], j);
  }

  lemma ExitLinks(ac: Code, code0: seq<Inst>, code1: seq<Inst>, code2: seq<Inst>, tl: seq<nat>, fl: seq<nat>)
    requires |code0| == |code1| == |code2| == |ac| && forall j :: 0 <= j < |ac| && ac[j].Jmp? ==> code0[j].JMP?
    requires forall i :: 0 <= i < |code0| && code0[i].JMP? && i !in fl ==> code1[i] == code0[i]
    requires forall i :: 0 <= i < |code0| && code1[i].JMP? && i !in tl ==> code2[i] == code1[i]
    ensures SameLinks(ac, code0, code2, SetOf(tl) + SetOf(fl))
  {
  }

  function CloseSpec(fs: FS, jump: bool, t: set<nat>, f: set<nat>, reg: nat): FS {
    if NeedValue(fs.code, t) || NeedValue(fs.code, f) then
      var fs2 := LoadBools(fs, jump, reg);
      var n := |fs2.code|;
      PatchValues(fs2, t, f, reg, n - 2, n - 1)
    else PatchValues(fs, t, f, reg, |fs.code|, |fs.code|)
  }

  lemma Exp2RegSpec(fs: FS, e: Exp, reg: nat)
    ensures Exp2Reg(fs, e, reg) ==
            var fs1 := Discharge2Reg(fs, e, reg);
            if TrueList(e) == {} && e.f == {} then fs1 else CloseSpec(fs1, !e.k.VJmp?, TrueList(e), e.f, reg)
  {
    hide Discharge2Reg, LoadBools, PatchValues, NeedValue;
  }

  /** `hasjumps`: the lists of an expression have different heads unless both are empty. */
  lemma HasJumpsHeads(t: int, f: int, tl: seq<nat>, fl: seq<nat>)
    requires t == Head(tl) && f == Head(fl) && SetOf(tl) !! SetOf(fl)
    ensures t != f <==> SetOf(tl) != {} || SetOf(fl) != {}
  {
    assert tl != [] ==> tl[0] in SetOf(tl);
    assert fl != [] ==> fl[0] in SetOf(fl);
  }

  lemma LinksTwice(ac: Code, code0: seq<Inst>, code1: seq<Inst>, code2: seq<Inst>, own: set<nat>)
    requires SameLinks(ac, code0, code1, own) && SameLinks(ac, code1, code2, own)
    ensures SameLinks(ac, code0, code2, own)
  {
  }

  lemma DischargeMoves(p: Prims, fs: FS, code: seq<Inst>, e: ExpDesc, tl: seq<nat>, fl: seq<nat>, reg: nat)
    requires Desc(fs, code, e, tl, fl) && CanHold(fs, reg, 0)
    ensures var fs1 := Discharge2Reg(fs, Abs(e, tl, fl), reg);
            Moves(fs, Abs(e, tl, fl), fs1, Abs(InRegister(e, reg), tl, fl))
  {
    hide FsOk, ExpOk, IsList, Frame;
    if e.k.VJmp? {
      assert Discharge2Reg(fs, Abs(e, tl, fl), reg) == fs;
      SameOk(p, 0, fs, Abs(e, tl, fl), map[]);
    } else {
      hide Discharge2Reg;
      Discharge2RegOk(p, 0, fs, Abs(e, tl, fl), reg, map[]);
    }
  }

  lemma HeadsDiffer(code: seq<Inst>, ac: Code, t: int, f: int, tl: seq<nat>, fl: seq<nat>)
    requires IsList(code, ac, t, tl) && IsList(code, ac, f, fl) && SetOf(tl) !! SetOf(fl)
    ensures t != f <==> SetOf(tl) != {} || SetOf(fl) != {}
  {
    HasJumpsHeads(t, f, tl, fl);
  }

  /** The jumps that were pending stay pending while loads are added. */
  lemma LoadsKeep(fs: FS, jump: bool, reg: nat)
    requires jump || fs.here == {}
    ensures forall j: nat :: IsPending(fs.code, j) && j !in fs.here ==> IsPending(LoadBools(fs, jump, reg).code, j)
  {
    LoadBoolsCode(fs, jump, reg);
  }

  lemma ClosedLinks(ac0: Code, ac1: Code, code0: seq<Inst>, code1: seq<Inst>, code2: seq<Inst>, own: set<nat>,
      here: set<nat>)
    requires SameLinks(ac0, code0, code1, here) && SameLinks(ac1, code1, code2, own)
    requires forall j: nat :: IsPending(ac0, j) && j !in here ==> IsPending(ac1, j)
    ensures SameLinks(ac0, code0, code2, own + here)
  {
  }

  lemma Exp2RegLinks(fs: FS, code0: seq<Inst>, e0: ExpDesc, fs1: FS, code1: seq<Inst>, code2: seq<Inst>,
      code3: seq<Inst>, reg: nat, tl: seq<nat>, fl: seq<nat>)
    requires ExpState(fs, Abs(e0, tl, fl)) && Moves(fs, Abs(e0, tl, fl), fs1, Abs(InRegister(e0, reg), tl, fl))
    requires |code0| == |fs.code| && |code1| == |fs1.code|
    requires SameLinks(fs.code, code0, code1, fs.here) && SameLinks(fs1.code, code1, code2, SetOf(tl))
    requires code3 == code2 || SameLinks(fs1.code, code2, code3, SetOf(TrueSeq(e0, tl)) + SetOf(fl) + fs1.here)
    ensures SameLinks(fs.code, code0, code3, Exits(Abs(e0, tl, fl)) + fs.here)
  {
    hide FsOk, ExpOk, Frame;
    var x, y := Abs(e0, tl, fl), Abs(InRegister(e0, reg), tl, fl);
    TrueSeqSet(e0, tl, fl);
    assert Exits(y) == Exits(x);
    LinksMore(fs.code, code0, code1, fs.here, Exits(x) + fs.here);
    LinksMore(fs1.code, code1, code2, SetOf(tl), Exits(y) + fs1.here);
    if code3 != code2 {
      LinksMore(fs1.code, code2, code3, SetOf(TrueSeq(e0, tl)) + SetOf(fl) + fs1.here, Exits(y) + fs1.here);
      LinksTwice(fs1.code, code1, code2, code3, Exits(y) + fs1.here);
    }
    LinksTrans(fs, x, fs1, y, code0, code1, code3);
  }

  lemma SetEmpty(l: seq<nat>)
    ensures SetOf(l) == {} <==> l == []
  {
    assert l != [] ==> l[0] in SetOf(l);
  }

  // ---------------------------------------------------------------- choosing the register

  /** luaK_dischargevars */
  function DischargeVars(e: ExpDesc): ExpDesc {
    if e.k.VLocal? then e.(k := VNonReloc(e.k.r)) else e
  }

  lemma DischargeVarsOk(p: Prims, fs: FS, code: seq<Inst>, e: ExpDesc, tl: seq<nat>, fl: seq<nat>)
    requires Desc(fs, code, e, tl, fl)
    ensures Desc(fs, code, DischargeVars(e), tl, fl) && Abs(DischargeVars(e), tl, fl) == Discharge(Abs(e, tl, fl))
  {
    hide FsOk, Linked, Carries, Frame;
    DischargeOk(p, fs, Abs(e, tl, fl), map[]);
  }

  /** An expression in a register, with no exits. */
  function Plainly(reg: nat): ExpDesc {
    ExpDesc(VNonReloc(reg), NO_JUMP, NO_JUMP)
  }

  lemma PlainDesc(fs: FS, code: seq<Inst>, e: ExpDesc)
    requires ExpState(fs, Exp(e.k, {}, {})) && |code| == |fs.code| && SmallRegs(e.k) && !e.k.VJmp? && e.t == NO_JUMP
      && e.f == NO_JUMP
    ensures Desc(fs, code, e, [], []) && Abs(e, [], []) == Exp(e.k, {}, {})
  {
    SetEmpty([]);
    EmptyList(code, fs.code);
    hide FsOk, ExpOk;
  }

  lemma ReservedDesc(p: Prims, fs: FS, code: seq<Inst>, e: ExpDesc, tl: seq<nat>, fl: seq<nat>, free: nat)
    requires Desc(fs, code, e, tl, fl) && free >= fs.nact && (e.k.VNonReloc? ==> e.k.r < fs.nact || free == fs.free)
    ensures Desc(fs.(free := free), code, e, tl, fl) && Moves(fs, Abs(e, tl, fl), fs.(free := free), Abs(e, tl, fl))
  {
    hide FsOk, Linked, Carries, Frame, ExpOk;
    ReservedOk(p, 0, fs, Abs(e, tl, fl), free, map[]);
  }

  /** The state in which luaK_exp2nextreg calls exp2reg. */
  lemma NextState(p: Prims, fs: FS, code: seq<Inst>, e: ExpDesc, tl: seq<nat>, fl: seq<nat>)
    requires Desc(fs, code, e, tl, fl) && !e.k.VLocal?
    ensures var n := Room(fs, Abs(e, tl, fl));
            var fs2 := Reserve(FreeExp(fs, Abs(e, tl, fl)));
            n >= 0 && fs2 == fs.(free := n + 1) && Desc(fs2, code, e, tl, fl) && CanHold(fs2, n, 0)
              && FreeExp(fs, Abs(e, tl, fl)).free == n
  {
    KindFacts(fs, code, e, tl, fl);
    assert fs.nact <= fs.free && (e.k.VNonReloc? && e.k.r >= fs.nact ==> fs.nact <= fs.free - 1) by {
      hide Linked, Formed;
    }
    var n := Room(fs, Abs(e, tl, fl));
    hide Desc;
    ReservedDesc(p, fs, code, e, tl, fl, n + 1);
  }

  lemma NextDesc(p: Prims, fs: FS, code: seq<Inst>, e: ExpDesc, tl: seq<nat>, fl: seq<nat>, code': seq<Inst>)
    requires Desc(fs, code, e, tl, fl) && |code'| == |Exp2Next(fs, Abs(e, tl, fl)).0.code|
    requires Exp2Next(fs, Abs(e, tl, fl)).0.free < MAXSTACK
    ensures var r := Exp2Next(fs, Abs(e, tl, fl));
            Moves(fs, Abs(e, tl, fl), r.0, r.1) && r.1.k.VNonReloc? && r.1 == Abs(Plainly(r.1.k.r), [], [])
              && Desc(r.0, code', Plainly(r.1.k.r), [], [])
  {
    hide FsOk, Linked, ExpOk, CarriesTo, Frame, Exp2Next;
    Exp2NextOk(p, fs, Abs(e, tl, fl), map[]);
    var r := Exp2Next(fs, Abs(e, tl, fl));
    SetEmpty([]);
    PlainDesc(r.0, code', Plainly(r.1.k.r));
  }

  lemma AnyDesc(p: Prims, fs: FS, code: seq<Inst>, e: ExpDesc, tl: seq<nat>, fl: seq<nat>)
    requires Desc(fs, code, e, tl, fl)
    ensures var r := Exp2Any(fs, Abs(e, tl, fl));
            Moves(fs, Abs(e, tl, fl), r.0, r.1) && r.1.k.VNonReloc? && !HasJumps(r.1) && ExpState(r.0, r.1)
  {
    hide FsOk, Linked, ExpOk, CarriesTo, Frame, Exp2Any;
    Exp2AnyOk(p, fs, Abs(e, tl, fl), map[]);
  }

  lemma ValDesc(p: Prims, fs: FS, code: seq<Inst>, e: ExpDesc, tl: seq<nat>, fl: seq<nat>)
    requires Desc(fs, code, e, tl, fl)
    ensures var r := Exp2Val(fs, Abs(e, tl, fl));
            Moves(fs, Abs(e, tl, fl), r.0, r.1) && !HasJumps(r.1) && !r.1.k.VLocal? && ExpState(r.0, r.1)
  {
    hide FsOk, Linked, ExpOk, CarriesTo, Frame, Exp2Val;
    Exp2ValOk(p, fs, Abs(e, tl, fl), map[]);
  }

  lemma RkDesc(p: Prims, fs: FS, code: seq<Inst>, e: ExpDesc, tl: seq<nat>, fl: seq<nat>)
    requires Desc(fs, code, e, tl, fl)
    ensures var r := Exp2RK(fs, Abs(e, tl, fl));
            Moves(fs, Abs(e, tl, fl), r.0, r.1) && IsRK(r.1) && ExpState(r.0, r.1)
              && Room(r.0, r.1) == Room(fs, Abs(e, tl, fl))
            && (r.1.k.VK? ==> r.1.k.info < |r.0.k|)
  {
    hide FsOk, Linked, CarriesTo, Frame, Exp2RK;
    Exp2RKOk(p, fs, Abs(e, tl, fl), map[]);
  }

  /** An expression whose lists are empty. */
  lemma NoLists(fs: FS, code: seq<Inst>, e: ExpDesc, tl: seq<nat>, fl: seq<nat>)
    requires Desc(fs, code, e, tl, fl)
    ensures HasJumps(Abs(e, tl, fl)) <==> e.t != e.f
    ensures !HasJumps(Abs(e, tl, fl)) ==> tl == [] && fl == [] && e.t == NO_JUMP && e.f == NO_JUMP
  {
    KindFacts(fs, code, e, tl, fl);
    HasJumpsHeads(e.t, e.f, tl, fl);
    SetEmpty(tl);
    SetEmpty(fl);
  }

  lemma FreeIgnoresLists(fs: FS, e: ExpDesc, tl: seq<nat>, fl: seq<nat>)
    ensures FreeExp(fs, Abs(e, tl, fl)) == FreeExp(fs, Abs(e, [], []))
  {
  }

  // ---------------------------------------------------------------- conditions

  /** Jumps that are not in `here` stay pending. */
  ghost predicate StillPending(ac: Code, ac': Code, here: set<nat>) {
    forall j: nat :: IsPending(ac, j) && j !in here ==> IsPending(ac', j)
  }

  lemma MovedPending(fs: FS, e: Exp, fs1: FS, e1: Exp, ac: Code)
    requires ExpState(fs, e) && Moves(fs, e, fs1, e1) && e1.t == e.t && e1.f == e.f && !e.k.VJmp?
      && StillPending(fs1.code, ac, fs1.here)
    ensures StillPending(fs.code, ac, fs.here)
  {
    hide FsOk;
    forall j: nat | IsPending(fs.code, j) && j !in fs.here
      ensures IsPending(ac, j)
    {
      if j in Exits(e) {
        assert j in Exits(e1);
      } else {
        assert SameExit(fs.code, fs1.code, j);
        assert j < |Base(fs, e)|;
      }
    }
  }

  /** The exits of an expression outlive the jump on its value. */
  lemma JumpFrame(p: Prims, fs: FS, code: seq<Inst>, e: ExpDesc, tl: seq<nat>, fl: seq<nat>, cond: bool)
    requires Desc(fs, code, e, tl, fl) && !e.k.VJmp? && !e.k.VLocal?
    ensures var fs' := JumpOnCond(fs, Abs(e, tl, fl), cond);
            && fs'.here == {} && |fs'.code| > 0 && AllPending(fs'.code, SetOf(tl)) && AllPending(fs'.code, SetOf(fl))
            && |fs'.code| - 1 !in SetOf(tl) && |fs'.code| - 1 !in SetOf(fl) && StillPending(fs.code, fs'.code, fs.here)
  {
    hide Formed, Linked;
    var x := Abs(e, tl, fl);
    var fs' := JumpOnCond(fs, x, cond);
    if EndsInNot(fs, x) {
      NotBranches(p, fs, x, cond, map[]);
      hide JumpOnCond, Branches;
      BranchedLists(fs, x, fs');
    } else {
      AnyReg(p, fs, x, map[]);
      var r := Discharge2Any(fs, x);
      assert ExpState(r.0, r.1);
      RegBranches(p, r.0, r.1, cond, map[]);
      assert fs' == CondJump(FreeExp(r.0, r.1), TestSet(NO_REG, r.1.k.r, cond));
      hide JumpOnCond, Branches, CondJump, FreeExp, FsOk, Discharge2Any, CarriesTo;
      BranchedLists(r.0, r.1, fs');
      MovedPending(fs, x, r.0, r.1, fs'.code);
    }
  }

  lemma BranchedLists(fs: FS, e: Exp, fs': FS)
    requires ExpState(fs, e) && Branched(fs, e, fs') && !e.k.VJmp?
    ensures fs'.here == {} && AllPending(fs'.code, e.t) && AllPending(fs'.code, e.f)
    ensures |fs'.code| > 0 && |fs'.code| - 1 !in e.t && |fs'.code| - 1 !in e.f
      && StillPending(fs.code, fs'.code, fs.here)
  {
    hide FsOk;
    forall j: nat | IsPending(fs.code, j) && j !in fs.here
      ensures IsPending(fs'.code, j)
    {
      assert IsPending(Base(fs, e), j);
      assert SameExit(Base(fs, e), fs'.code, j);
    }
    forall j | j in e.t + e.f
      ensures IsPending(fs'.code, j) && j < |Base(fs, e)|
    {
      assert IsPending(fs.code, j);
      assert IsPending(Base(fs, e), j);
      assert SameExit(Base(fs, e), fs'.code, j);
    }
  }

  lemma AnyRegDesc(p: Prims, fs: FS, code: seq<Inst>, e: ExpDesc, tl: seq<nat>, fl: seq<nat>)
    requires Desc(fs, code, e, tl, fl) && !e.k.VJmp? && !e.k.VLocal? && !e.k.VNonReloc?
    ensures var fs1 := Reserve(fs); Desc(fs1, code, e, tl, fl) && CanHold(fs1, fs.free, 0)
  {
    assert fs.nact <= fs.free by {
      hide Formed, Linked;
    }
    hide Desc;
    ReservedDesc(p, fs, code, e, tl, fl, fs.free + 1);
  }

  lemma NotMeans(k: seq<Val>, code: seq<Inst>, ac: Code, pc: nat)
    requires Rep(k, code, ac) && AllFit(code) && pc < |code| && Computes(ac[pc])
    ensures code[pc].NOT? <==> ac[pc].rhs.Not?
    ensures code[pc].NOT? ==> ac[pc].rhs.b == code[pc].b < 256
  {
    assert FitsIn(code[pc]);
    assert Means(k, code[pc], ac[pc], pc);
  }

  lemma NotLinks(ac0: Code, code0: seq<Inst>, ac1: Code, code1: seq<Inst>, code2: seq<Inst>)
    requires |code0| == |ac0| > 0 && code1 == code0[..|code0| - 1] && ac1 == ac0[..|ac0| - 1] && !ac0[|ac0| - 1].Jmp?
    requires SameLinks(ac1, code1, code2, {})
    ensures SameLinks(ac0, code0, code2, {})
  {
    forall j: nat | IsPending(ac0, j) && j < |code0|
      ensures j < |code2| && code2[j] == code0[j]
    {
      assert IsPending(ac1, j) && code1[j] == code0[j];
    }
  }

  lemma AnyLinks(p: Prims, fs: FS, code0: seq<Inst>, e: ExpDesc, tl: seq<nat>, fl: seq<nat>, fs1: FS, code1: seq<Inst>,
      code2: seq<Inst>)
    requires Desc(fs, code0, e, tl, fl) && !e.k.VJmp? && !e.k.VLocal? && fs1 == Discharge2Any(fs, Abs(e, tl, fl)).0
    requires SameLinks(fs.code, code0, code1, fs.here) && SameLinks(fs1.code, code1, code2, fs1.here)
      && |code1| == |fs1.code|
    ensures SameLinks(fs.code, code0, code2, fs.here)
  {
    var x := Abs(e, tl, fl);
    AnyReg(p, fs, x, map[]);
    hide Discharge2Any, FsOk, Linked, CarriesTo;
    var y := Discharge2Any(fs, x).1;
    forall j: nat | IsPending(fs.code, j) && j !in fs.here
      ensures IsPending(fs1.code, j) && j !in fs1.here
    {
      if j in Exits(x) {
        assert j in Exits(y);
      } else {
        assert SameExit(fs.code, fs1.code, j);
        assert j < |Base(fs, x)|;
      }
    }
  }

  lemma DescLists(fs: FS, code: seq<Inst>, e: ExpDesc, tl: seq<nat>, fl: seq<nat>)
    requires Desc(fs, code, e, tl, fl)
    ensures IsList(code, fs.code, e.t, tl) && IsList(code, fs.code, e.f, fl)
    ensures e.k.VJmp? ==> IsList(code, fs.code, e.k.pc, [e.k.pc]) && e.k.pc > 0 && fs.code[e.k.pc - 1].Cmp?
  {
    hide FsOk, Linked;
  }

  lemma ConcatLinks(fs: FS, code0: seq<Inst>, code1: seq<Inst>, l: seq<nat>)
    requires |code0| == |code1| && forall i :: 0 <= i < |code1| && i !in l ==> code1[i] == code0[i]
    ensures SameLinks(fs.code, code0, code1, SetOf(l))
  {
  }

  /** Inverting a comparison keeps the lists. */
  lemma InvertLists(fs: FS, code: seq<Inst>, e: ExpDesc, tl: seq<nat>, fl: seq<nat>, code': seq<Inst>)
    requires Desc(fs, code, e, tl, fl) && e.k.VJmp? && |code'| == |code|
    requires forall i :: 0 <= i < |code'| && code[i].JMP? ==> code'[i] == code[i]
    requires forall j :: 0 <= j < |code| && fs.code[j].Jmp? ==> code[j].JMP?
    ensures var fs' := fs.(code := Inverted(fs.code, e.k.pc));
            && IsList(code', fs'.code, e.t, tl) && IsList(code', fs'.code, e.f, fl)
              && IsList(code', fs'.code, e.k.pc, [e.k.pc])
            && SameLinks(fs.code, code, code', {}) && StillPending(fs.code, fs'.code, {})
  {
    KindFacts(fs, code, e, tl, fl);
    DescLists(fs, code, e, tl, fl);
    var pc := e.k.pc;
    InvertFrame(fs.code, pc, SetOf(tl));
    InvertFrame(fs.code, pc, SetOf(fl));
    InvertFrame(fs.code, pc, SetOf([pc]));
    var fs' := fs.(code := Inverted(fs.code, pc));
    hide Desc, Linked, Inverted;
    ListMoves(fs, code, fs', code', {}, e.t, tl);
    ListMoves(fs, code, fs', code', {}, e.f, fl);
    ListMoves(fs, code, fs', code', {}, pc, [pc]);
  }

  /** The exits of an expression are still lists after the jump on its value. */
  lemma ListsBeforeJump(p: Prims, fs: FS, code: seq<Inst>, e: ExpDesc, tl: seq<nat>, fl: seq<nat>, cond: bool,
      code': seq<Inst>)
    requires Desc(fs, code, e, tl, fl) && !e.k.VJmp? && !e.k.VLocal? && SameLinks(fs.code, code, code', fs.here)
    requires |code'| == |JumpOnCond(fs, Abs(e, tl, fl), cond).code|
    ensures var fs' := JumpOnCond(fs, Abs(e, tl, fl), cond);
            && IsList(code', fs'.code, e.t, tl) && IsList(code', fs'.code, e.f, fl) && |code'| > 0
            && |code'| - 1 !in tl && |code'| - 1 !in fl && fs'.here == {} && StillPending(fs.code, fs'.code, fs.here)
  {
    KindFacts(fs, code, e, tl, fl);
    DescLists(fs, code, e, tl, fl);
    JumpFrame(p, fs, code, e, tl, fl, cond);
    hide Desc, Linked, JumpOnCond;
    var fs' := JumpOnCond(fs, Abs(e, tl, fl), cond);
    assert |code'| - 1 in tl ==> |code'| - 1 in SetOf(tl);
    assert |code'| - 1 in fl ==> |code'| - 1 in SetOf(fl);
    ListMoves(fs, code, fs', code', fs.here, e.t, tl);
    ListMoves(fs, code, fs', code', fs.here, e.f, fl);
  }

  lemma GoIfApart(tl: seq<nat>, fl: seq<nat>, jl: seq<nat>, here: seq<nat>)
    requires SetOf(tl) !! SetOf(fl) && SetOf(tl) !! SetOf(here) && SetOf(fl) !! SetOf(here)
    requires |jl| <= 1 && (jl != [] ==> here == [] && jl[0] !in tl && jl[0] !in fl)
    ensures Apart(fl, jl, tl) && Apart(tl, jl, fl) && Apart(fl, tl, here) && Apart(tl, fl, here)
      && SetOf(jl) !! SetOf(here)
  {
  }

  lemma SetOfOne(l: seq<nat>, pc: int)
    requires l == [] || l == [pc]
    ensures SetOf(l) == if l == [] then {} else {l[0]}
  {
  }

  function LeaveSpec(fs: FS, e: Exp, cond: bool): FS {
    if e.k.VJmp? then (if cond then fs else fs.(code := Inverted(fs.code, e.k.pc))) else JumpOnCond(fs, e, cond)
  }

  lemma GoIfLinks(ac0: Code, ac1: Code, code0: seq<Inst>, code1: seq<Inst>, code2: seq<Inst>, l: set<nat>,
      here1: set<nat>, here0: set<nat>, own: set<nat>)
    requires SameLinks(ac0, code0, code1, here0) && SameLinks(ac1, code1, code2, l + here1) && l <= own && here0 <= own
      && here1 <= own
    requires |code0| == |ac0| && StillPending(ac0, ac1, here0)
    ensures SameLinks(ac0, code0, code2, own)
  {
  }

  // ---------------------------------------------------------------- codenot

  /** The state and the kind before the exits are exchanged. */
  function NotSpec(fs: FS, e: Exp): (FS, Kind) {
    if e.k.VNil? || e.k.VFalse? then (fs, VTrue)
    else if e.k.VK? || e.k.VKNum? || e.k.VTrue? then (fs, VFalse)
    else if e.k.VJmp? then (fs.(code := Inverted(fs.code, e.k.pc)), e.k)
    else
      var r := Discharge2Any(fs, e);
      var fs1 := FreeExp(r.0, r.1);
      (Emit(fs1, Set(0, Not(if r.1.k.VNonReloc? then r.1.k.r else 0))), VReloc(|fs1.code|))
  }

  lemma NotSpecOk(fs: FS, e: Exp)
    ensures var n := NotSpec(fs, Discharge(e)); CodeNot(fs, e) == SwapExits(n.0, Exp(n.1, e.t, e.f))
  {
    hide Discharge2Any, FreeExp, Emit, Inverted, WithoutValues;
  }

  lemma NotConst(p: Prims, fs: FS, e: Exp)
    requires ExpState(fs, e) && !e.k.VLocal? && !e.k.VNonReloc? && !e.k.VReloc? && !e.k.VJmp?
    ensures var n := NotSpec(fs, e); ExpState(n.0, Exp(n.1, e.t, e.f)) && Moves(fs, e, n.0, Exp(n.1, e.t, e.f))
  {
    hide Formed;
  }

  lemma NotState(p: Prims, fs: FS, e: Exp)
    requires ExpState(fs, e) && !e.k.VLocal?
    ensures var n := NotSpec(fs, e); ExpState(n.0, Exp(n.1, e.t, e.f)) && Moves(fs, e, n.0, Exp(n.1, e.t, e.f))
  {
    hide FsOk, ExpOk, Frame, Within, Emit, FreeExp, HalfNegates, CarriesTo;
    if e.k.VJmp? {
      JmpNegates(p, 0, fs, e, map[]);
      assert e == Exp(e.k, e.t, e.f);
    } else if e.k.VNonReloc? || e.k.VReloc? {
      AnyReg(p, fs, e, map[]);
      var r := Discharge2Any(fs, e);
      hide Discharge2Any;
      RegNegates(p, r.0, r.1, map[]);
      var n := NotSpec(fs, e);
      hide Moves;
      MovesTrans(fs, e, r.0, r.1, n.0, Exp(n.1, e.t, e.f));
      assert ExpState(n.0, Exp(n.1, e.t, e.f));
    } else {
      NotConst(p, fs, e);
    }
  }

  lemma SwapDesc(p: Prims, fs: FS, code: seq<Inst>, e: ExpDesc, tl: seq<nat>, fl: seq<nat>, code1: seq<Inst>, k: Kind,
      code': seq<Inst>)
    requires Desc(fs, code, e, tl, fl) && !e.k.VLocal?
    requires var n := NotSpec(fs, Abs(e, tl, fl));
             && k == n.1 && |code1| == |n.0.code| == |code'|
             && IsList(code1, n.0.code, e.t, tl) && IsList(code1, n.0.code, e.f, fl)
             && (k.VJmp? ==> IsList(code1, n.0.code, k.pc, [k.pc])) && SmallRegs(k)
             && forall i :: 0 <= i < |code1| && code1[i].JMP? ==> code'[i] == code1[i]
    ensures var n := NotSpec(fs, Abs(e, tl, fl));
            var s := SwapExits(n.0, Exp(k, SetOf(tl), SetOf(fl)));
            Desc(s.0, code', ExpDesc(k, e.f, e.t), fl, tl) && Abs(ExpDesc(k, e.f, e.t), fl, tl) == s.1
  {
    var x := Abs(e, tl, fl);
    var n := NotSpec(fs, x);
    NotState(p, fs, x);
    SwapMoves(n.0, Exp(k, x.t, x.f));
    SwapCode(n.0, Exp(k, x.t, x.f));
    var s := SwapExits(n.0, Exp(k, x.t, x.f));
    hide FsOk, ExpOk, Frame, NotSpec, Formed;
    SwapList(n.0, code1, s.0, code', e.t, tl);
    SwapList(n.0, code1, s.0, code', e.f, fl);
    if k.VJmp? {
      SwapList(n.0, code1, s.0, code', k.pc, [k.pc]);
    }
  }

  lemma SwapList(fs: FS, code: seq<Inst>, fs': FS, code': seq<Inst>, head: int, l: seq<nat>)
    requires IsList(code, fs.code, head, l) && |code'| == |code| == |fs'.code|
    requires forall i :: 0 <= i < |fs.code| && !fs.code[i].TestSet? ==> fs'.code[i] == fs.code[i]
    requires forall i :: 0 <= i < |code| && code[i].JMP? ==> code'[i] == code[i]
    ensures IsList(code', fs'.code, head, l)
  {
    forall j | j in l
      ensures j < |code'| && j < |code| && code'[j] == code[j] && IsPending(fs'.code, j)
    {
      assert j in SetOf(l) && IsPending(fs.code, j);
      var i :| 0 <= i < |l| && l[i] == j;
      assert code[l[i]].JMP?;
    }
    LinkedKept(code, code', l);
  }

  lemma PendingHere(fs: FS, code: seq<Inst>, e: ExpDesc, tl: seq<nat>, fl: seq<nat>)
    requires Desc(fs, code, e, tl, fl)
    ensures AllPending(fs.code, fs.here)
  {
    hide Formed, Linked;
  }

  /** OP_NOT is emitted after the value was put in a register. */
  lemma NotMoved(p: Prims, fs: FS, code0: seq<Inst>, e0: ExpDesc, tl: seq<nat>, fl: seq<nat>, fs1: FS, code1: seq<Inst>,
      fs2: FS, code2: seq<Inst>)
    requires Desc(fs, code0, e0, tl, fl) && !e0.k.VJmp? && !e0.k.VLocal? && fs1 == Discharge2Any(fs, Abs(e0, tl, fl)).0
    requires IsList(code1, fs1.code, e0.t, tl) && IsList(code1, fs1.code, e0.f, fl) && SetOf(tl) !! fs1.here
      && SetOf(fl) !! fs1.here
    requires SameLinks(fs.code, code0, code1, fs.here) && SameLinks(fs1.code, code1, code2, fs1.here)
    requires StillPending(fs1.code, fs2.code, fs1.here) && |code2| == |fs2.code|
    ensures IsList(code2, fs2.code, e0.t, tl) && IsList(code2, fs2.code, e0.f, fl)
    ensures SameLinks(fs.code, code0, code2, fs.here) && StillPending(fs.code, fs2.code, fs.here)
  {
    var x := Abs(e0, tl, fl);
    AnyReg(p, fs, x, map[]);
    KindFacts(fs, code0, e0, tl, fl);
    AnyLinks(p, fs, code0, e0, tl, fl, fs1, code1, code2);
    var y := Discharge2Any(fs, x).1;
    hide Discharge2Any, FsOk, Linked, CarriesTo, Desc;
    MovedPending(fs, x, fs1, y, fs2.code);
    forall j | j in SetOf(tl) + SetOf(fl)
      ensures IsPending(fs2.code, j)
    {
      assert IsPending(fs1.code, j);
    }
    ListMoves(fs1, code1, fs2, code2, fs1.here, e0.t, tl);
    ListMoves(fs1, code1, fs2, code2, fs1.here, e0.f, fl);
  }

  lemma SwapLinks(ac0: Code, ac1: Code, code0: seq<Inst>, code1: seq<Inst>, code2: seq<Inst>, here: set<nat>,
      own: set<nat>)
    requires SameLinks(ac0, code0, code1, here) && StillPending(ac0, ac1, here) && here <= own
      && |code1| == |code2| == |ac1|
    requires forall j :: 0 <= j < |ac1| && ac1[j].Jmp? ==> code1[j].JMP?
    requires forall i :: 0 <= i < |code1| && code1[i].JMP? ==> code2[i] == code1[i]
    ensures SameLinks(ac0, code0, code2, own)
  {
    forall j: nat | IsPending(ac0, j) && j !in own && j < |code0|
      ensures j < |code2| && code2[j] == code0[j]
    {
      assert IsPending(ac1, j);
    }
  }

  // ---------------------------------------------------------------- operators

  lemma StateFree(fs: FS, e: Exp, fs': FS)
    requires ExpState(fs, e) && fs' == fs.(free := fs'.free) && fs'.nact <= fs'.free
    ensures FsOk(fs')
  {
    hide Formed;
  }

  lemma RelocState(fs: FS, i: Instr)
    requires FsOk(fs) && Computes(i)
    ensures ExpState(Emit(fs, i), Exp(VReloc(|fs.code|), {}, {}))
  {
    EmitOk(fs, i);
    hide Formed, PatchedHere;
  }

  lemma NumeralDesc(fs: FS, code: seq<Inst>, e: ExpDesc, n: Number)
    requires Desc(fs, code, e, [], []) && e.k.VKNum?
    ensures Desc(fs, code, e.(k := VKNum(n)), [], []) && IsNumeral(Abs(e, [], []))
  {
    SetEmpty([]);
    hide Formed, Linked;
  }

  /** `e1` waits, as an operand or a numeral, while `e2` is the last expression compiled. */
  ghost predicate Waiting(fs: FS, e1: ExpDesc, e2: Exp) {
    && e1.t == NO_JUMP && e1.f == NO_JUMP && Waits(Exp(e1.k, {}, {})) && SmallRegs(e1.k)
    && (e1.k.VK? ==> e1.k.info < |fs.k|)
    && (e1.k.VNonReloc? ==> e1.k.r < fs.nact || e1.k.r + 1 == Room(fs, e2))
  }

  lemma WaitingFacts(fs: FS, e1: ExpDesc, e2: Exp)
    requires Waiting(fs, e1, e2)
    ensures e1.t == NO_JUMP && e1.f == NO_JUMP && Abs(e1, [], []) == Exp(e1.k, {}, {})
  {
    SetEmpty([]);
  }

  /** Two operands, neither of which has exits; the one reserved last is freed first. */
  ghost predicate BothPlaced(fs: FS, e1: ExpDesc, e2: ExpDesc) {
    && FsOk(fs) && IsRK(Exp(e1.k, {}, {})) && IsRK(Exp(e2.k, {}, {}))
    && SmallRegs(e1.k) && SmallRegs(e2.k)
    && (e1.k.VK? ==> e1.k.info < |fs.k|) && (e2.k.VK? ==> e2.k.info < |fs.k|)
    && var t1, t2 := e1.k.VNonReloc? && e1.k.r >= fs.nact, e2.k.VNonReloc? && e2.k.r >= fs.nact;
    && (t1 && !t2 ==> e1.k.r + 1 == fs.free)
    && (t2 && !t1 ==> e2.k.r + 1 == fs.free)
    && (t1 && t2 ==> (e1.k.r + 1 == fs.free && e2.k.r + 1 == e1.k.r) || (e2.k.r + 1 == fs.free && e1.k.r + 1 == e2.k.r))
  }

  lemma PlacedFacts(fs: FS, e1: ExpDesc, e2: ExpDesc)
    requires BothPlaced(fs, e1, e2)
    ensures MeansRk(fs.k, if e1.k.VK? then BITRK + e1.k.info else e1.k.r, RkOf(fs, Exp(e1.k, {}, {})))
    ensures MeansRk(fs.k, if e2.k.VK? then BITRK + e2.k.info else e2.k.r, RkOf(fs, Exp(e2.k, {}, {})))
    ensures (e1.k.VK? && e1.k.info <= MAXINDEXRK) || (e1.k.VNonReloc? && e1.k.r < MAXSTACK)
    ensures (e2.k.VK? && e2.k.info <= MAXINDEXRK) || (e2.k.VNonReloc? && e2.k.r < MAXSTACK)
  {
    hide FsOk;
  }

  lemma PlacedState(fs: FS, e1: ExpDesc, e2: ExpDesc, fs': FS)
    requires BothPlaced(fs, e1, e2) && fs' == fs.(free := fs'.free) && fs'.nact <= fs'.free
    ensures FsOk(fs')
  {
    hide Formed;
  }

  lemma FoldedDesc(fs: FS, code: seq<Inst>, e2: ExpDesc, tl: seq<nat>, fl: seq<nat>, e1: ExpDesc, n: Number)
    requires Desc(fs, code, e2, tl, fl) && e1.t == NO_JUMP && e1.f == NO_JUMP
    ensures Desc(fs, code, e1.(k := VKNum(n)), [], [])
  {
    NumeralState(fs, Abs(e2, tl, fl), Exp(VKNum(n), {}, {}));
    hide FsOk, ExpOk, Linked;
    PlainDesc(fs, code, e1.(k := VKNum(n)));
  }

  lemma StillWaiting(fs: FS, e1: ExpDesc, e2: Exp, fs2: FS, e2': Exp)
    requires Waiting(fs, e1, e2) && Moves(fs, e2, fs2, e2') && Room(fs2, e2') == Room(fs, e2)
    ensures Waiting(fs2, e1, e2')
  {
    hide FsOk, ExpOk, Frame, Within;
  }

  /** A numeral can be given to luaK_exp2RK at any time; an operand is already in place. */
  lemma WaitingNumeral(fs: FS, code: seq<Inst>, e1: ExpDesc, e2: ExpDesc)
    requires Desc(fs, code, e2, [], []) && Waiting(fs, e1, Abs(e2, [], [])) && IsRK(Abs(e2, [], []))
    ensures Abs(e1, [], []) == Exp(e1.k, {}, {})
    ensures e1.k.VKNum? ==> Desc(fs, code, e1, [], [])
    ensures !e1.k.VKNum? ==> IsRK(Abs(e1, [], [])) && BothPlaced(fs, e1, e2)
  {
    SetEmpty([]);
    hide Formed, Linked;
    if e1.k.VKNum? {
      NumeralState(fs, Abs(e2, [], []), Exp(e1.k, {}, {}));
      PlainDesc(fs, code, e1);
    }
  }

  lemma NumeralPlaced(fs: FS, code: seq<Inst>, e1: ExpDesc, e2: ExpDesc, fs': FS, code': seq<Inst>, e1': ExpDesc)
    requires Desc(fs, code, e2, [], []) && IsRK(Abs(e2, [], [])) && e1.k.VKNum? && Abs(e1, [], []) == Exp(e1.k, {}, {})
    requires Moves(fs, Abs(e1, [], []), fs', Abs(e1', [], []))
      && Room(fs', Abs(e1', [], [])) == Room(fs, Abs(e1, [], []))
    requires IsRK(Abs(e1', [], [])) && SmallRegs(e1'.k) && (e1'.k.VK? ==> e1'.k.info < |fs'.k|)
    ensures BothPlaced(fs', e1', e2) && Moves(fs, Abs(e2, [], []), fs', Abs(e1', [], []))
  {
    SetEmpty([]);
    KindFacts(fs, code, e2, [], []);
    var x1, x2 := Abs(e1, [], []), Abs(e2, [], []);
    WaitsUnit(fs, x1, fs', Abs(e1', [], []));
    WaitsUnit(fs, x2, fs', Abs(e1', [], []));
    hide Formed, Linked, Frame, Within;
  }

  /** Jumps that do not belong to the expression stay pending, and are not sent here. */
  ghost predicate OuterKept(ac: Code, ac': Code, own: set<nat>, here': set<nat>) {
    forall j: nat :: IsPending(ac, j) && j !in own ==> IsPending(ac', j) && j !in here'
  }

  lemma OuterLinks(ac0: Code, ac1: Code, code0: seq<Inst>, code1: seq<Inst>, code2: seq<Inst>, own: set<nat>,
      here1: set<nat>)
    requires SameLinks(ac0, code0, code1, own) && OuterKept(ac0, ac1, own, here1) && SameLinks(ac1, code1, code2, here1)
    ensures SameLinks(ac0, code0, code2, own)
  {
  }

  lemma MovesOuter(fs: FS, x: Exp, fs': FS, x': Exp)
    requires ExpState(fs, x) && Moves(fs, x, fs', x')
    ensures OuterKept(fs.code, fs'.code, Exits(x) + fs.here, Exits(x') + fs'.here)
    ensures OuterKept(fs.code, fs'.code, Exits(x) + fs.here, fs'.here)
  {
    hide FsOk;
    forall j: nat | IsPending(fs.code, j) && j !in Exits(x) + fs.here
      ensures IsPending(fs'.code, j) && j !in Exits(x') + fs'.here
    {
      assert SameExit(fs.code, fs'.code, j);
      assert j < |Base(fs, x)|;
    }
  }

  lemma OperandLinks(fs: FS, x: Exp, fs2: FS, y: Exp, fs3: FS, z: Exp, code0: seq<Inst>, code2: seq<Inst>,
      code3: seq<Inst>)
    requires ExpState(fs, x) && Moves(fs, x, fs2, y) && IsRK(y)
    requires Moves(fs2, y, fs3, z) || (fs3 == fs2 && code3 == code2)
    requires |code0| == |fs.code| && |code2| == |fs2.code|
    requires SameLinks(fs.code, code0, code2, Exits(x) + fs.here) && SameLinks(fs2.code, code2, code3, fs2.here)
    ensures SameLinks(fs.code, code0, code3, Exits(x) + fs.here)
      && OuterKept(fs.code, fs3.code, Exits(x) + fs.here, fs3.here)
  {
    hide FsOk, ExpOk, Frame, OuterKept;
    LinksMore(fs2.code, code2, code3, fs2.here, Exits(y) + fs2.here);
    LinksTrans(fs, x, fs2, y, code0, code2, code3);
    if fs3 == fs2 && code3 == code2 {
      MovesOuter(fs, x, fs2, y);
    } else {
      MovesTrans(fs, x, fs2, y, fs3, z);
      MovesOuter(fs, x, fs3, z);
    }
  }

  lemma PlainAbs(e: ExpDesc)
    ensures Abs(e, [], []) == Exp(e.k, {}, {})
  {
    SetEmpty([]);
  }

  lemma ListsFolded(p: Prims, fs: FS, code: seq<Inst>, op: ArithOp, e1: ExpDesc, e2: ExpDesc, tl: seq<nat>,
      fl: seq<nat>)
    requires Desc(fs, code, e2, tl, fl)
    ensures (e2.t == NO_JUMP && e2.f == NO_JUMP) <==> !HasJumps(Abs(e2, tl, fl))
    ensures !HasJumps(Abs(e2, tl, fl)) ==> Abs(e2, tl, fl) == Abs(e2, [], [])
  {
    NoLists(fs, code, e2, tl, fl);
    KindFacts(fs, code, e2, tl, fl);
    DescLists(fs, code, e2, tl, fl);
    assert tl != [] ==> tl[0] in SetOf(tl);
    assert fl != [] ==> fl[0] in SetOf(fl);
  }

  lemma JmpState(fs: FS, test: Instr)
    requires FsOk(fs) && test.Cmp?
    ensures ExpState(CondJump(fs, test), Exp(VJmp(|fs.code| + 1), {}, {})) && |CondJump(fs, test).code| == |fs.code| + 2
  {
    CondJumpCode(fs, test);
    hide Formed, PatchedHere, CondJump;
  }

  lemma JmpDesc(fs: FS, code: seq<Inst>, pc: nat)
    requires ExpState(fs, Exp(VJmp(pc), {}, {})) && |code| == |fs.code| && IsList(code, fs.code, pc, [pc])
    ensures Desc(fs, code, ExpDesc(VJmp(pc), NO_JUMP, NO_JUMP), [], [])
      && Abs(ExpDesc(VJmp(pc), NO_JUMP, NO_JUMP), [], []) == Exp(VJmp(pc), {}, {})
  {
    SetEmpty([]);
    EmptyList(code, fs.code);
    hide FsOk, ExpOk;
  }

  // ---------------------------------------------------------------- expressions

  lemma LeafState(fs: FS, k: Kind)
    requires FsOk(fs) && Plain(k) && (k.VLocal? ==> k.r < fs.nact) && (k.VK? ==> k.info < |fs.k|) && !k.VNonReloc?
    ensures ExpState(fs, Exp(k, {}, {}))
  {
    hide Formed;
  }

  /** After the second operand of `and` or `or`: its exits and those of the first are joined. */
  lemma JoinedDesc(cond: bool, fs: FS, code: seq<Inst>, e: ExpDesc, tl: seq<nat>, fl: seq<nat>, l: seq<nat>,
      code': seq<Inst>, head: int)
    requires Desc(fs, code, e, tl, fl) && |code'| == |code|
    requires forall i :: 0 <= i < |code| && i !in (if cond then tl else fl) ==> code'[i] == code[i]
    requires IsList(code', fs.code, head, if cond then tl + l else fl + l)
    requires ExpState(fs, Joined(cond, Abs(e, tl, fl), SetOf(l)))
    ensures var e' := if cond then e.(t := head) else e.(f := head);
            var tl', fl' := if cond then tl + l else tl, if cond then fl else fl + l;
            Desc(fs, code', e', tl', fl') && Abs(e', tl', fl') == Joined(cond, Abs(e, tl, fl), SetOf(l))
  {
    KindFacts(fs, code, e, tl, fl);
    DescLists(fs, code, e, tl, fl);
    SetOfConcat(tl, l);
    SetOfConcat(fl, l);
    ConcatLinks(fs, code, code', if cond then tl else fl);
    hide FsOk, ExpOk, Linked;
    if cond {
      ListMoves(fs, code, fs, code', SetOf(tl), e.f, fl);
    } else {
      ListMoves(fs, code, fs, code', SetOf(fl), e.t, tl);
    }
    if e.k.VJmp? {
      ListMoves(fs, code, fs, code', if cond then SetOf(tl) else SetOf(fl), e.k.pc, [e.k.pc]);
    }
  }

  lemma CompiledDesc(p: Prims, fs: FS, x: Expr)
    requires GoodPrims(p) && FsOk(fs) && Legal(p, x, fs.nact)
    ensures var c := Compile(p, fs, x);
            && Moves(fs, UNIT, c.0, c.1) && Room(c.0, c.1) == fs.free && FsOk(c.0) && ExpState(c.0, c.1)
              && c.0.nact == fs.nact
            && Compiled(p, x, fs, c.0, c.1, map[]) && Sane(p, c.0, c.1)
  {
    hide Compile;
    CompileOk(p, fs, x, map[]);
    var c := Compile(p, fs, x);
    hide Frame, Formed, Within, Delivers, AllPending;
  }

  lemma UnitLinks(fs: FS, fs1: FS, x1: Exp, code0: seq<Inst>, code1: seq<Inst>, code2: seq<Inst>)
    requires FsOk(fs) && Moves(fs, UNIT, fs1, x1) && |code0| == |fs.code| && |code1| == |fs1.code|
    requires SameLinks(fs.code, code0, code1, fs.here) && SameLinks(fs1.code, code1, code2, Exits(x1) + fs1.here)
    ensures SameLinks(fs.code, code0, code2, fs.here)
  {
    hide FsOk, ExpOk, Frame, Within;
    UnitOk(fs);
    LinksMore(fs.code, code0, code1, fs.here, Exits(UNIT) + fs.here);
    LinksTrans(fs, UNIT, fs1, x1, code0, code1, code2);
    assert Exits(UNIT) + fs.here == fs.here;
  }

  /** The state after luaK_goiftrue or luaK_goiffalse. */
  lemma GoIfDesc(p: Prims, cond: bool, a: Expr, fs: FS, fs1: FS, x1: Exp)
    requires FsOk(fs) && Compiled(p, a, fs, fs1, x1, map[]) && Sane(p, fs1, x1)
    ensures var g := GoIf(fs1, x1, cond);
            && FsOk(g.0) && g.0.nact == fs.nact && AllPending(g.0.code, g.1) && g.1 !! g.0.here
            && OuterKept(fs.code, g.0.code, fs.here, g.0.here)
  {
    hide FsOk, ExpOk, Exec, Delivers, Guards, GoIf, Frame, Within;
    GuardedFs(p, cond, a, fs, fs1, x1, map[]);
    var o, o1 := Exec(p, fs.code, 0, map[]), Run(p, fs1, x1, map[]);
    ExecExits(p, fs.code, 0, map[]);
    if !Reached(fs, o) {
      NotReachedYet(fs, o, fs1, x1);
    }
    FirstTruthful(p, fs.free, a, fs, o, fs1, x1, o1);
    GoIfOk(p, cond, fs1, x1, map[]);
    var g := GoIf(fs1, x1, cond);
    GuardedOuter(fs, fs1, x1, g.0, g.1);
  }

  lemma GuardedOuter(fs: FS, fs1: FS, x1: Exp, fs2: FS, l: set<nat>)
    requires FsOk(fs) && Moves(fs, UNIT, fs1, x1) && Guarded(fs1, x1, fs2, l)
    ensures OuterKept(fs.code, fs2.code, fs.here, fs2.here)
  {
    hide FsOk, ExpOk;
    forall j: nat | IsPending(fs.code, j) && j !in fs.here
      ensures IsPending(fs2.code, j) && j !in fs2.here
    {
      assert SameExit(fs.code, fs1.code, j);
      assert j !in Exits(x1) + fs1.here;
      assert SameExit(fs1.code, fs2.code, j);
    }
  }

  /** The first operand waits with its register just below those of the second. */
  lemma OperandWaits(fs: FS, code: seq<Inst>, e1: ExpDesc, fs3: FS, x3: Exp)
    requires Desc(fs, code, e1, [], []) && Waits(Abs(e1, [], [])) && Moves(fs, UNIT, fs3, x3)
      && Room(fs3, x3) == fs.free
    ensures Waiting(fs3, e1, x3)
  {
    SetEmpty([]);
    KindFacts(fs, code, e1, [], []);
    hide FsOk, ExpOk, Frame, Within, Linked;
  }

  lemma BetweenMoves(fs: FS, fs2: FS, x2: Exp, fs3: FS, x3: Exp)
    requires FsOk(fs) && Moves(fs, UNIT, fs2, x2) && Waits(x2) && Moves(fs2, UNIT, fs3, x3)
    ensures Moves(fs, UNIT, fs3, x3)
  {
    hide FsOk, ExpOk, Frame, Within, Moves;
    UnitOk(fs);
    WaitsUnit(fs2, x2, fs3, x3);
    MovesTrans(fs, UNIT, fs2, x2, fs3, x3);
  }

  /** The first operand, made an operand. */
  lemma FirstRk(p: Prims, fs: FS, fs1: FS, code: seq<Inst>, e: ExpDesc, tl: seq<nat>, fl: seq<nat>)
    requires FsOk(fs) && Moves(fs, UNIT, fs1, Abs(e, tl, fl)) && Desc(fs1, code, e, tl, fl)
    ensures var r := Exp2RK(fs1, Abs(e, tl, fl)); Moves(fs, UNIT, r.0, r.1) && IsRK(r.1) && r.0.nact == fs.nact
  {
    RkDesc(p, fs1, code, e, tl, fl);
    UnitOk(fs);
    var r := Exp2RK(fs1, Abs(e, tl, fl));
    hide FsOk, ExpOk, Frame, Within, Exp2RK, Desc;
    MovesTrans(fs, UNIT, fs1, Abs(e, tl, fl), r.0, r.1);
  }

  lemma SecondLists(fs2: FS, code2: seq<Inst>, fs3: FS, code3: seq<Inst>, x3: Exp, head: int, l: seq<nat>)
    requires Moves(fs2, UNIT, fs3, x3) && IsList(code2, fs2.code, head, l) && SetOf(l) !! fs2.here
      && |code3| == |fs3.code|
    requires SameLinks(fs2.code, code2, code3, fs2.here)
    ensures IsList(code3, fs3.code, head, l) && SetOf(l) !! Exits(x3) && SetOf(l) !! fs3.here
  {
    assert Exits(UNIT) + fs2.here == fs2.here;
    hide FsOk, ExpOk, Frame, Within, Linked;
    OuterListMoves(fs2, code2, UNIT, fs3, code3, x3, head, l);
  }

  lemma JoinedOuter(fs: FS, fs3: FS, x3: Exp, y: Exp, cond: bool, l: seq<nat>, tl: seq<nat>, fl: seq<nat>)
    requires FsOk(fs) && Moves(fs, UNIT, fs3, y) && y == Joined(cond, Discharge(x3), SetOf(l)) && x3.t == SetOf(tl)
      && x3.f == SetOf(fl)
    ensures OuterKept(fs.code, fs3.code, fs.here, SetOf(tl) + SetOf(fl))
  {
    UnitOk(fs);
    MovesOuter(fs, UNIT, fs3, y);
    assert Exits(UNIT) + fs.here == fs.here;
    hide FsOk, ExpOk, Frame, Within;
  }
}

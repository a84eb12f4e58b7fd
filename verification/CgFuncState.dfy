/**
  The code generator as it runs (lcode.c): one FuncState, updated in place, whose lists of
  pending jumps are threaded through the code.  `ac` is the code with those lists abstracted;
  every method leaves the state that the functions of CgGen give.
 */
module CgFuncState {
  import opened Limits
  import opened Wrappers
  import opened CgSyntax
  import opened CgCode
  import opened CgGen
  import opened CgSound
  import opened CgReg
  import opened CgClose
  import opened CgExps
  import opened CgConds
  import opened CgNot
  import opened CgOps
  import opened CgCompile
  import opened CgExpr
  import opened CgLinks
  import opened CgPatch
  import opened CgDesc

  class FuncState {
    const prims: Prims
    const nactvar: nat
    var code: seq<Inst>
    var lasttarget: int
    var jpc: int
    var freereg: nat
    var maxstacksize: nat
    var k: seq<Val>
    var h: map<Val, nat>
    ghost var ac: Code
    ghost var jlist: seq<nat>

    ghost predicate Valid()
      reads this
    {
      && |code| == |ac| && Rep(k, code, ac) && IsList(code, ac, jpc, jlist) && AllFit(code)
      && IndexOk(k, h) && |k| <= MAXARG_Bx
      && nactvar <= freereg <= maxstacksize < MAXSTACK
    }

    ghost function View(): FS
      reads this
    {
      FS(ac, SetOf(jlist), lasttarget, freereg, k, nactvar)
    }

    /** The code, the constants or the registers have grown to what instructions can express. */
    ghost predicate AtLimit()
      reads `code, `k, `freereg
    {
      |code| > MAXARG_sBx || |k| >= MAXARG_Bx || freereg + 1 >= MAXSTACK
    }

    /** What compiling an expression takes at most, also when it fails on the way. */
    ghost predicate Taken(x: Expr, code0: nat, k0: nat, free0: nat)
      reads `code, `k, `freereg
    {
      |code| <= code0 + 32 * Nodes(x) && |k| <= k0 + 8 * Nodes(x) && freereg <= free0 + 8 + 3 * Height(x)
    }

    ghost predicate TakenTwo(a: Expr, b: Expr, code0: nat, k0: nat, free0: nat)
      reads `code, `k, `freereg
    {
      && |code| <= code0 + 32 * (Nodes(a) + Nodes(b)) + 8 && |k| <= k0 + 8 * (Nodes(a) + Nodes(b)) + 2
      && freereg <= free0 + 11 + 3 * Larger(Height(a), Height(b))
    }

    lemma OneTaken(a: Expr, b: Expr, code0: nat, k0: nat, free0: nat)
      requires |code| <= code0 + 32 * Nodes(a) + 8 && |k| <= k0 + 8 * Nodes(a) + 2
        && freereg <= free0 + 8 + 3 * Height(a)
      ensures TakenTwo(a, b, code0, k0, free0)
    {
      hide Nodes, Height, Larger;
      LargerIs(Height(a), Height(b));
    }

    lemma TwoTaken(a: Expr, b: Expr, code0: nat, k0: nat, free0: nat, code1: nat, k1: nat, free1: nat)
      requires code1 <= code0 + 32 * Nodes(a) + 8 && k1 <= k0 + 8 * Nodes(a) + 2 && free1 <= free0 + 3
      requires Taken(b, code1, k1, free1)
      ensures TakenTwo(a, b, code0, k0, free0)
    {
      hide Nodes, Height, Larger;
      LargerIs(Height(a), Height(b));
    }

    constructor (prims: Prims, nactvar: nat)
      requires nactvar <= 200
      ensures Valid() && View() == FS([], {}, -1, nactvar, [], nactvar) && this.prims == prims
      ensures code == []
    {
      this.prims := prims;
      this.nactvar := nactvar;
      code := [];
      lasttarget := -1;
      jpc := NO_JUMP;
      freereg := nactvar;
      maxstacksize := if nactvar > 2 then nactvar else 2;
      k := [];
      h := map[];
      ac := [];
      jlist := [];
    }

    // -------------------------------------------------------------- jump lists

    method FixJump(pc: nat, dest: int) returns (r: Result<(), Error>)
      requires pc < |code| && code[pc].JMP?
      modifies this`code
      ensures r.Fail? && 0 <= dest <= |code| ==> AtLimit()
      ensures r.Fail? <==> !(-MAXARG_sBx <= Offset(pc, dest) <= MAXARG_sBx)
      ensures code == if r.Ok? then old(code)[pc := JMP(Offset(pc, dest))] else old(code)
    {
      var offset := dest - (pc + 1);
      if offset > MAXARG_sBx || -offset > MAXARG_sBx {
        return Fail(ControlTooLong);
      }
      code := code[pc := JMP(offset)];
      return Ok(());
    }

    method LastJump(l1: int, ghost s1: seq<nat>) returns (list: nat)
      requires IsList(code, ac, l1, s1) && s1 != []
      ensures list == s1[|s1| - 1]
    {
      list := l1;
      var next := GetJump(code, list);
      ghost var i := 0;
      while next != NO_JUMP
        invariant 0 <= i < |s1| && list == s1[i]
        invariant next == if i + 1 < |s1| then s1[i + 1] else NO_JUMP
        decreases |s1| - i
      {
        list := next;
        next := GetJump(code, list);
        i := i + 1;
      }
    }

    /** luaK_concat */
    method Concat(l1: int, l2: int, ghost s1: seq<nat>, ghost s2: seq<nat>) returns (r: Result<int, Error>)
      requires Rep(k, code, ac) && AllFit(code) && IsList(code, ac, l1, s1) && IsList(code, ac, l2, s2)
        && SetOf(s1) !! SetOf(s2)
      modifies this`code
      ensures r.Fail? ==> AtLimit()
      ensures r.Ok? ==> Rep(k, code, ac) && AllFit(code) && IsList(code, ac, r.value, s1 + s2)
      ensures |code| == |old(code)| && forall i :: 0 <= i < |code| && i !in s1 ==> code[i] == old(code)[i]
    {
      SetOfConcat(s1, s2);
      if l2 == NO_JUMP {
        assert s1 + s2 == s1;
        return Ok(l1);
      } else if l1 == NO_JUMP {
        assert s1 + s2 == s2;
        return Ok(l2);
      }
      var list := LastJump(l1, s1);
      assert list in SetOf(s1) && list in s1;
      assert IsPending(ac, list);
      var _ :- FixJump(list, l2);
      LinkedConcat(old(code), code, s1, s2);
      hide Linked;
      return Ok(l1);
    }

    method NeedsValue(list: int, ghost l: seq<nat>) returns (b: bool)
      requires Rep(k, code, ac) && IsList(code, ac, list, l)
      ensures b == NeedValue(ac, SetOf(l))
    {
      var p := list;
      ghost var i := 0;
      while p != NO_JUMP
        invariant 0 <= i <= |l| && p == if i < |l| then l[i] else NO_JUMP
        invariant forall j :: 0 <= j < i ==> Valued(ac, l[j])
        decreases |l| - i
      {
        assert l[i] in SetOf(l);
        ControlValued(k, code, ac, p);
        if !code[Control(code, p)].TESTSET? {
          return true;
        }
        p := GetJump(code, p);
        i := i + 1;
      }
      return false;
    }

    method PatchTestReg(node: nat, reg: nat) returns (b: bool)
      requires Rep(k, code, ac) && AllFit(code) && IsPending(ac, node) && reg < 256
      modifies this`code, this`ac
      ensures b == Valued(old(ac), node)
      ensures ac == if b then old(ac)[node - 1 := Retested(old(ac)[node - 1], RegOpt(reg))] else old(ac)
      ensures Rep(k, code, ac) && AllFit(code) && |code| == |old(code)|
      ensures forall i :: 0 <= i < |code| && old(code)[i].JMP? ==> code[i] == old(code)[i]
    {
      ControlValued(k, code, ac, node);
      var c := Control(code, node);
      var i := code[c];
      if !i.TESTSET? {
        return false;
      }
      assert FitsIn(i);
      if reg != NO_REG && reg != i.b {
        code := code[c := TESTSET(reg, i.b, i.cond)];
      } else {
        code := code[c := TEST(i.b, i.cond)];
      }
      ac := ac[node - 1 := Retested(ac[node - 1], RegOpt(reg))];
      return true;
    }

    /** Send one jump to `vtarget`, with its value in `reg`, or to `dtarget` if it has none. */
    method PatchJump(j: nat, vtarget: nat, reg: nat, dtarget: int) returns (r: Result<(), Error>)
      requires Rep(k, code, ac) && AllFit(code) && IsPending(ac, j) && reg < 256
      requires dtarget >= 0 || Valued(ac, j)
      modifies this`code, this`ac
      ensures r.Fail? && vtarget <= |code| && dtarget <= |code| ==> AtLimit()
      ensures r.Ok? ==> Rep(k, code, ac) && AllFit(code)
      ensures r.Ok? && Valued(old(ac), j)
        ==> ac == old(ac)[j - 1 := Retested(old(ac)[j - 1], RegOpt(reg))][j := Jmp(To(vtarget))]
      ensures r.Ok? && !Valued(old(ac), j) ==> dtarget >= 0 && ac == old(ac)[j := Jmp(To(dtarget))]
      ensures |code| == |old(code)| && forall i :: 0 <= i < |code| && old(code)[i].JMP? && i != j
                                                   ==> code[i] == old(code)[i]
    {
      var valued := PatchTestReg(j, reg);
      if valued {
        var _ :- FixJump(j, vtarget);
        ac := ac[j := Jmp(To(vtarget))];
      } else {
        var _ :- FixJump(j, dtarget);
        ac := ac[j := Jmp(To(dtarget))];
      }
      return Ok(());
    }

    /** patchlistaux; `dtarget` is only needed if some jump has no value */
    method PatchListAux(list0: int, vtarget: nat, reg: nat, dtarget: int, ghost l: seq<nat>)
        returns (r: Result<(), Error>)
      requires Rep(k, code, ac) && AllFit(code) && IsList(code, ac, list0, l) && reg < 256
      requires dtarget >= 0 || !NeedValue(ac, SetOf(l))
      modifies this`code, this`ac
      ensures r.Fail? && vtarget <= |code| && dtarget <= |code| ==> AtLimit()
      ensures |code| == |old(code)|
      ensures r.Ok? ==> Rep(k, code, ac) && AllFit(code)
      ensures r.Ok? ==> ac == Patched(old(ac), SetOf(l), vtarget, RegOpt(reg), if dtarget < 0 then vtarget else dtarget)
      ensures r.Ok? ==> |code| == |old(code)| && forall i :: 0 <= i < |code| && old(code)[i].JMP? && i !in l
                                                             ==> code[i] == old(code)[i]
    {
      hide Half, Rep, AllFit, Valued, NeedValue, Retested, Patched, PatchedAt, IsList, Linked, NoDup, AllPending,
        SetOf, RegOpt;
      ghost var ac0, code0 := ac, code;
      ghost var dt: nat := if dtarget < 0 then vtarget else dtarget;
      HalfStart(k, code, ac, list0, l, vtarget, RegOpt(reg), dt);
      var list := list0;
      ghost var i := 0;
      while list != NO_JUMP
        invariant 0 <= i <= |l| && list == Head(l[i..]) && Rep(k, code, ac) && AllFit(code) && |code| == |code0|
        invariant Half(code0, ac0, code, ac, l, i, vtarget, RegOpt(reg), dt)
        decreases |l| - i
      {
        var j: nat := list;
        HalfNext(code0, ac0, code, ac, l, i, vtarget, RegOpt(reg), dt);
        NeedFor(ac0, l, i);
        var next := GetJump(code, j);
        ghost var c1, a1 := code, ac;
        var _ :- PatchJump(j, vtarget, reg, dtarget);
        HalfStep(code0, ac0, c1, a1, code, ac, l, i, vtarget, RegOpt(reg), dt);
        list := next;
        i := i + 1;
      }
      HalfEnd(code0, ac0, code, ac, l, i, vtarget, RegOpt(reg), dt);
      return Ok(());
    }

    /** removevalues */
    method RemoveValues(list0: int, ghost l: seq<nat>)
      requires Rep(k, code, ac) && AllFit(code) && IsList(code, ac, list0, l)
      modifies this`code, this`ac
      ensures Rep(k, code, ac) && AllFit(code) && ac == WithoutValues(old(ac), SetOf(l))
      ensures |code| == |old(code)| && forall i :: 0 <= i < |code| && old(code)[i].JMP? ==> code[i] == old(code)[i]
    {
      ghost var ac0, code0 := ac, code;
      WithoutStart(ac, l);
      hide HalfWithout, Rep, AllFit, Valued, Retested, WithoutValues;
      var list := list0;
      ghost var i := 0;
      while list != NO_JUMP
        invariant 0 <= i <= |l| && list == if i < |l| then l[i] else NO_JUMP
        invariant Rep(k, code, ac) && AllFit(code) && HalfWithout(ac0, ac, l, i)
        invariant |code| == |code0| && forall x :: 0 <= x < |code| && code0[x].JMP? ==> code[x] == code0[x]
        decreases |l| - i
      {
        WithoutStep(ac0, ac, l, i);
        var j: nat := list;
        var _ := PatchTestReg(j, NO_REG);
        list := GetJump(code, j);
        i := i + 1;
      }
      WithoutEnd(ac0, ac, l, i);
    }

    // -------------------------------------------------------------- emitting

    method DischargeJpc() returns (r: Result<(), Error>)
      requires Valid()
      modifies this`code, this`ac, this`jpc, this`jlist
      ensures r.Fail? ==> AtLimit()
      ensures |code| == |old(code)|
      ensures r.Ok? ==> Valid() && jlist == [] && View() == old(View()).(code := PatchedHere(old(View())), here := {})
      ensures r.Ok? ==> SameLinks(old(ac), old(code), code, SetOf(old(jlist)))
    {
      var _ :- PatchListAux(jpc, |code|, NO_REG, |code|, jlist);
      jpc := NO_JUMP;
      jlist := [];
      return Ok(());
    }

    /** luaK_code: `a` is what the instruction stands for. */
    method Code(i: Inst, ghost a: Instr) returns (r: Result<nat, Error>)
      requires Valid() && FitsIn(i) && Means(k, i, a, |code|)
      modifies this`code, this`ac, this`jpc, this`jlist
      ensures r.Fail? ==> AtLimit()
      ensures |code| <= |old(code)| + 1
      ensures r.Ok? ==> Valid() && jlist == [] && View() == Emit(old(View()), a) && r.value == |old(code)|
                        && |code| == |old(code)| + 1
      ensures r.Ok? ==> code[|old(code)|] == i && SameLinks(old(ac), old(code), code, SetOf(old(jlist)))
    {
      var _ :- DischargeJpc();
      if |code| >= MAX_INT {
        return Fail(CodeOverflow);
      }
      code := code + [i];
      ac := ac + [a];
      return Ok(|code| - 1);
    }

    /** luaK_jump */
    method Jump() returns (r: Result<int, Error>, ghost l: seq<nat>)
      requires Valid()
      modifies this`code, this`ac, this`jpc, this`jlist
      ensures r.Fail? ==> AtLimit()
      ensures |code| <= |old(code)| + 1
      ensures r.Ok? ==> Valid() && jlist == [] && View() == EmitJump(old(View()))
      ensures r.Ok? ==> IsList(code, ac, r.value, l) && SetOf(l) == JumpList(old(View()))
                        && (old(jlist) == [] ==> l == [|old(code)|])
      ensures r.Ok? ==> SameLinks(old(ac), old(code), code, {})
    {
      hide Rep, AllFit, IndexOk, Linked, AllPending, NoDup, Patched;
      l := [];
      var jpc0 := jpc;
      ghost var l0, code0, ac0 := jlist, code, ac;
      EmptyList(code, ac);
      jpc := NO_JUMP;
      jlist := [];
      NothingPatched(ac, |code|, None, |code|);
      var j :- Code(JMP(NO_JUMP), Jmp(Pending));
      JumpLists(code0, ac0, jpc0, l0, code, ac);
      var list :- Concat(j, jpc0, [j], l0);
      l := [j] + l0;
      JumpLinks(code0, ac0, l0, code, j);
      EmptyList(code, ac);
      return Ok(list), l;
    }

    /** condjump */
    method CondJump(i: Inst, ghost a: Instr) returns (r: Result<int, Error>)
      requires Valid() && FitsIn(i) && Means(k, i, a, |code|) && IsTest(a)
      modifies this`code, this`ac, this`jpc, this`jlist
      ensures r.Fail? ==> AtLimit()
      ensures |code| <= |old(code)| + 2
      ensures r.Ok? ==> Valid() && jlist == [] && View() == CgGen.CondJump(old(View()), a)
      ensures r.Ok? ==> r.value == |code| - 1 && IsList(code, ac, r.value, [|code| - 1])
      ensures r.Ok? ==> SameLinks(old(ac), old(code), code, SetOf(old(jlist)))
    {
      ghost var fs, code0 := View(), code;
      hide Rep, AllFit, IndexOk, Linked, Means, Emit;
      var _ :- Code(i, a);
      ghost var fs1, code1 := View(), code;
      ghost var l;
      var j;
      j, l :- Jump();
      EmitPending(fs, a);
      return Ok(j);
    }

    /** luaK_patchtohere */
    method PatchToHere(list: int, ghost l: seq<nat>) returns (r: Result<(), Error>)
      requires Valid() && IsList(code, ac, list, l) && SetOf(l) !! SetOf(jlist)
      modifies this`code, this`jpc, this`jlist, this`lasttarget
      ensures r.Fail? ==> AtLimit()
      ensures |code| == |old(code)|
      ensures r.Ok? ==> Valid() && View() == PatchHere(old(View()), SetOf(l))
      ensures r.Ok? ==> SameLinks(ac, old(code), code, SetOf(old(jlist))) && |code| == |old(code)|
    {
      hide Rep, AllFit, IndexOk, Linked;
      lasttarget := |code|;
      ghost var l0, code0 := jlist, code;
      var head :- Concat(jpc, list, jlist, l);
      jpc := head;
      jlist := jlist + l;
      SetOfConcat(l0, l);
      return Ok(());
    }

    // -------------------------------------------------------------- registers and constants

    /** luaK_reserveregs, with luaK_checkstack, for one register */
    method ReserveReg() returns (r: Result<(), Error>)
      requires Valid()
      modifies this`freereg, this`maxstacksize
      ensures r.Fail? ==> AtLimit()
      ensures r.Fail? <==> old(freereg) + 1 >= MAXSTACK
      ensures freereg <= old(freereg) + 1
      ensures r.Ok? ==> Valid() && View() == Reserve(old(View())) && freereg < MAXSTACK
    {
      var newstack := freereg + 1;
      if newstack > maxstacksize {
        if newstack >= MAXSTACK {
          return Fail(TooComplex);
        }
        maxstacksize := newstack;
      }
      freereg := freereg + 1;
      return Ok(());
    }

    /** freeexp; the register freed is the last one reserved */
    method FreeE(e: ExpDesc)
      requires Valid() && (e.k.VNonReloc? && e.k.r >= nactvar ==> e.k.r + 1 == freereg)
      modifies this`freereg
      ensures Valid() && View() == FreeExp(old(View()), Abs(e, [], [])) && freereg <= old(freereg)
    {
      if e.k.VNonReloc? && e.k.r >= nactvar {
        freereg := freereg - 1;
        assert e.k.r == freereg;
      }
    }

    /** addk */
    method AddConstant(v: Val) returns (r: Result<nat, Error>)
      requires Valid()
      modifies this`k, this`h
      ensures r.Fail? ==> AtLimit()
      ensures r.Ok? ==> v in old(k) || |old(k)| < MAXARG_Bx
      ensures |k| <= |old(k)| + 1
      ensures r.Ok? ==> Valid() && View() == AddK(old(View()), v) && r.value == IndexOf(old(k), v)
      ensures r.Ok? ==> r.value < |k| && k[r.value] == v && old(k) <= k && r.value < MAXARG_Bx
    {
      IndexIn(k, v);
      if v in h {
        return Ok(h[v]);
      }
      if |k| >= MAXARG_Bx {
        return Fail(ConstantOverflow);
      }
      IndexMore(k, v);
      RepMore(k, k + [v], code, ac);
      h := h[v := |k|];
      k := k + [v];
      return Ok(|k| - 1);
    }

    // -------------------------------------------------------------- values into registers

    /** "range" of the previous LOADNIL: one register more */
    method ExtendNil(last: nat, from: nat)
      requires Valid() && last + 1 == |code| && code[last].LOADNIL? && code[last].a <= from < MAXSTACK
      requires ac[last] == LoadNil(code[last].a, code[last].b)
      modifies this`code, this`ac
      ensures Valid() && View() == old(View()).(code := old(ac)[last := LoadNil(old(code)[last].a, from)])
        && |code| == |old(code)|
      ensures SameLinks(old(ac), old(code), code, {})
    {
      assert Means(k, code[last], ac[last], last);
      ghost var code0, ac0 := code, ac;
      var a := code[last].a;
      code := code[last := LOADNIL(a, from)];
      ac := ac[last := LoadNil(a, from)];
      NilKept(code0, code, View(), jpc, jlist, last);
    }

    /** luaK_nil, for one register */
    method LuaNil(from: nat) returns (r: Result<(), Error>)
      requires Valid() && from < MAXSTACK
      modifies this`code, this`ac, this`jpc, this`jlist
      ensures r.Fail? ==> AtLimit()
      ensures |code| <= |old(code)| + 1
      ensures r.Ok? ==> Valid() && View() == LoadNilInto(old(View()), from)
      ensures r.Ok? ==> SameLinks(old(ac), old(code), code, SetOf(old(jlist)))
    {
      if |code| > lasttarget {
        if |code| == 0 {
          if from >= nactvar {
            return Ok(());
          }
        } else {
          var last := |code| - 1;
          var previous := code[last];
          assert Means(k, previous, ac[last], last);
          if previous.LOADNIL? && previous.a <= from <= previous.b + 1 {
            LastNil(View(), from);
            if from > previous.b {
              ExtendNil(last, from);
            }
            return Ok(());
          }
        }
      }
      var _ :- Code(LOADNIL(from, from), LoadNil(from, from));
      return Ok(());
    }

    /** SETARG_A of the instruction that computes the value */
    method Relocate(pc: nat, reg: nat)
      requires Valid() && pc < |code| && Computes(ac[pc]) && reg < MAXSTACK
      modifies this`code, this`ac
      ensures Valid() && View() == old(View()).(code := Retarget(old(ac), pc, reg))
      ensures SameLinks(old(ac), old(code), code, {}) && |code| == |old(code)|
    {
      assert Means(k, code[pc], ac[pc], pc) && FitsIn(code[pc]);
      SetAMeans(k, code[pc], ac[pc], pc, reg);
      ghost var code0, ac0 := code, ac;
      code := code[pc := SetA(code[pc], reg)];
      ac := ac[pc := Set(reg, ac[pc].rhs)];
      forall j | j in jlist
        ensures code[j] == code0[j] && IsPending(ac, j)
      {
        assert j in SetOf(jlist) && IsPending(ac0, j);
      }
      LinkedKept(code0, code, jlist);
    }

    /** discharge2reg, after luaK_dischargevars */
    method Discharge2Reg(e: ExpDesc, reg: nat, ghost tl: seq<nat>, ghost fl: seq<nat>)
        returns (r: Result<ExpDesc, Error>)
      requires Valid() && Desc(View(), code, e, tl, fl) && CanHold(View(), reg, 0) && reg < MAXSTACK
      modifies this
      ensures r.Fail? ==> AtLimit()
      ensures |code| <= |old(code)| + 1 && |k| <= |old(k)| + 1 && freereg <= old(freereg)
      ensures r.Ok? ==> Valid() && View() == CgGen.Discharge2Reg(old(View()), Abs(e, tl, fl), reg)
      ensures r.Ok? ==> r.value == InRegister(e, reg) && Desc(View(), code, r.value, tl, fl)
      ensures r.Ok? ==> SameLinks(old(ac), old(code), code, SetOf(old(jlist))) && (e.k.VJmp? ==> code == old(code))
    {
      ghost var fs, code0 := View(), code;
      KindFacts(fs, code, e, tl, fl);
      var _ :- DischargeKind(e.k, reg, Abs(e, tl, fl));
      DischargeDesc(prims, fs, code0, e, tl, fl, reg, code);
      return Ok(InRegister(e, reg));
    }

    /** The switch of discharge2reg */
    method DischargeKind(kind: Kind, reg: nat, ghost e: Exp) returns (r: Result<(), Error>)
      requires Valid() && reg < MAXSTACK && e.k == kind && SmallRegs(kind)
      requires kind.VK? ==> kind.info < |k|
      requires kind.VReloc? ==> kind.pc < |code| && Computes(ac[kind.pc])
      modifies this
      ensures r.Fail? ==> AtLimit()
      ensures |code| <= |old(code)| + 1 && |k| <= |old(k)| + 1 && freereg <= old(freereg)
      ensures r.Ok? ==> Valid() && View() == CgGen.Discharge2Reg(old(View()), e, reg)
      ensures r.Ok? ==> SameLinks(old(ac), old(code), code, SetOf(old(jlist))) && (kind.VJmp? ==> code == old(code))
    {
      hide Rep, IsList, AllFit, IndexOk, LoadNilInto, Emit, AddK;
      match kind {
        case VNil =>
          var _ :- LuaNil(reg);
        case VFalse =>
          var _ :- Code(LOADBOOL(reg, false, false), Set(reg, Load(Bool(false))));
        case VTrue =>
          var _ :- Code(LOADBOOL(reg, true, false), Set(reg, Load(Bool(true))));
        case VK(info) =>
          var _ :- Code(LOADK(reg, info), Set(reg, Load(k[info])));
        case VKNum(n) =>
          var info :- AddConstant(Num(n));
          var _ :- Code(LOADK(reg, info), Set(reg, Load(Num(n))));
        case VReloc(pc) =>
          Relocate(pc, reg);
        case VNonReloc(b) =>
          if reg != b {
            var _ :- Code(MOVE(reg, b), Set(reg, Copy(b)));
          }
        case VLocal(b) =>
          if reg != b {
            var _ :- Code(MOVE(reg, b), Set(reg, Copy(b)));
          }
        case VJmp(_) =>
      }
      return Ok(());
    }

    /** The places where exp2reg loads false and true, after a jump over them. */
    method LoadFalseTrue(jump: bool, reg: nat) returns (r: Result<(int, int), Error>)
      requires Valid() && reg < MAXSTACK && (jump || jlist == [])
      modifies this`code, this`ac, this`jpc, this`jlist, this`lasttarget
      ensures r.Fail? ==> AtLimit()
      ensures |code| <= |old(code)| + 3
      ensures r.Ok? ==> Valid() && View() == LoadBools(old(View()), jump, reg)
      ensures r.Ok? ==> |code| >= 2 && r.value == (|code| - 2, |code| - 1)
      ensures r.Ok? ==> SameLinks(old(ac), old(code), code, SetOf(old(jlist)))
    {
      hide Rep, AllFit, IndexOk, Linked, Patched, NoDup;
      EmptyList(code, ac);
      var fj := NO_JUMP;
      ghost var l := [];
      if jump {
        fj, l :- Jump();
      }
      ghost var fs1, code1 := View(), code;
      var places :- CodeLabels(reg);
      ListMoves(fs1, code1, View(), code, {}, fj, l);
      var _ :- PatchToHere(fj, l);
      return Ok(places);
    }

    /** code_label, for false and for true */
    method CodeLabels(reg: nat) returns (r: Result<(int, int), Error>)
      requires Valid() && reg < MAXSTACK && jlist == []
      modifies this`code, this`ac, this`jpc, this`jlist, this`lasttarget
      ensures r.Fail? ==> AtLimit()
      ensures |code| <= |old(code)| + 2
      ensures r.Ok? ==> Valid() && jlist == [] && |code| == |old(code)| + 2 && r.value == (|code| - 2, |code| - 1)
      ensures r.Ok? ==> SameLinks(old(ac), old(code), code, {})
                        && ac == old(ac) + [LoadSkip(reg, false)] + [Set(reg, Load(Bool(true)))]
      ensures r.Ok? ==>
        View() == Emit(Label(Emit(Label(old(View())), LoadSkip(reg, false))), Set(reg, Load(Bool(true))))
    {
      hide Rep, AllFit, IndexOk, Linked, Patched;
      NothingPatched(ac, |code|, None, |code|);
      lasttarget := |code|;
      var pf :- Code(LOADBOOL(reg, false, true), LoadSkip(reg, false));
      NothingPatched(ac, |code|, None, |code|);
      lasttarget := |code|;
      var pt :- Code(LOADBOOL(reg, true, false), Set(reg, Load(Bool(true))));
      return Ok((pf, pt));
    }

    /** The last two loops of exp2reg */
    method PatchExits(t: int, f: int, reg: nat, pf: int, pt: int, ghost tl: seq<nat>, ghost fl: seq<nat>)
        returns (r: Result<(), Error>)
      requires Valid() && reg < MAXSTACK && IsList(code, ac, t, tl) && IsList(code, ac, f, fl) && Apart(tl, fl, jlist)
      requires (pf >= 0 || !NeedValue(ac, SetOf(fl))) && (pt >= 0 || !NeedValue(ac, SetOf(tl))) && pf <= |code|
        && pt <= |code|
      modifies this`code, this`ac, this`lasttarget
      ensures r.Fail? ==> AtLimit()
      ensures |code| == |old(code)|
      ensures r.Ok? ==> Valid()
      ensures r.Ok? ==>
        View() == PatchValues(old(View()), SetOf(tl), SetOf(fl), reg,
        if pf < 0 then |old(code)| else pf, if pt < 0 then |old(code)| else pt)
      ensures r.Ok? ==> SameLinks(old(ac), old(code), code, SetOf(tl) + SetOf(fl)) && |code| == |old(code)|
    {
      hide Rep, AllFit, IndexOk, Linked, Patched, NeedValue;
      var final := |code|;
      lasttarget := final;
      ghost var code0, ac0 := code, ac;
      RepJumps(k, code, ac);
      ghost var df: nat := if pf < 0 then final else pf;
      ghost var dt: nat := if pt < 0 then final else pt;
      var _ :- PatchListAux(f, final, reg, pf, fl);
      PatchedList(ac0, code0, code, fl, final, Some(reg), df, t, tl);
      PatchedList(ac0, code0, code, fl, final, Some(reg), df, jpc, jlist);
      ghost var code1, ac1 := code, ac;
      var _ :- PatchListAux(t, final, reg, pt, tl);
      PatchedList(ac1, code1, code, tl, final, Some(reg), dt, jpc, jlist);
      ExitLinks(ac0, code0, code1, code, tl, fl);
      return Ok(());
    }

    /** "put this jump in `t' list" */
    method JoinTrue(e: ExpDesc, ghost tl: seq<nat>, ghost fl: seq<nat>) returns (r: Result<int, Error>)
      requires Valid() && Desc(View(), code, e, tl, fl)
      modifies this`code
      ensures r.Fail? ==> AtLimit()
      ensures |code| == |old(code)|
      ensures r.Ok? ==> Valid() && View() == old(View()) && |code| == |old(code)|
      ensures r.Ok? ==> IsList(code, ac, r.value, TrueSeq(e, tl)) && IsList(code, ac, e.f, fl)
      ensures r.Ok? ==> SameLinks(ac, old(code), code, SetOf(tl)) && Apart(TrueSeq(e, tl), fl, jlist)
    {
      hide Rep, AllFit, IndexOk, Linked, ExpState, Desc, NoDup, AllPending;
      KindFacts(View(), code, e, tl, fl);
      DescLists(View(), code, e, tl, fl);
      if !e.k.VJmp? {
        return Ok(e.t);
      }
      ghost var code0 := code;
      TrueLinks(View(), code, e, tl, fl);
      var t :- Concat(e.t, e.k.pc, tl, [e.k.pc]);
      EmptyList(code, ac);
      ListMoves(View(), code0, View(), code, SetOf(tl), e.f, fl);
      ListMoves(View(), code0, View(), code, SetOf(tl), jpc, jlist);
      return Ok(t);
    }

    /** exp2reg, once the value is in its register and some exit is left */
    method CloseExits(jump: bool, reg: nat, t: int, f: int, ghost tl: seq<nat>, ghost fl: seq<nat>)
        returns (r: Result<(), Error>)
      requires Valid() && reg < MAXSTACK && (jump || jlist == [])
      requires IsList(code, ac, t, tl) && IsList(code, ac, f, fl) && Apart(tl, fl, jlist)
      modifies this
      ensures r.Fail? ==> AtLimit()
      ensures |code| <= |old(code)| + 3 && |k| <= |old(k)| && freereg <= old(freereg)
      ensures r.Ok? ==> Valid() && View() == CloseSpec(old(View()), jump, SetOf(tl), SetOf(fl), reg)
      ensures r.Ok? ==> SameLinks(old(ac), old(code), code, SetOf(tl) + SetOf(fl) + SetOf(old(jlist)))
    {
      hide Rep, AllFit, IndexOk, Linked, NeedValue, LoadBools, PatchValues, AllPending;
      ghost var fs, code0 := View(), code;
      var pf, pt := NO_JUMP, NO_JUMP;
      var need := NeedsValue(t, tl);
      if !need {
        need := NeedsValue(f, fl);
      }
      if need {
        var places :- LoadFalseTrue(jump, reg);
        pf, pt := places.0, places.1;
        LoadsLists(fs, code0, jump, reg, code, t, tl);
        LoadsLists(fs, code0, jump, reg, code, f, fl);
      }
      ghost var fs1, code1 := View(), code;
      var _ :- PatchExits(t, f, reg, pf, pt, tl, fl);
      if need {
        LoadsKeep(fs, jump, reg);
        ClosedLinks(fs.code, fs1.code, code0, code1, code, SetOf(tl) + SetOf(fl), fs.here);
      }
      return Ok(());
    }

    method Exp2Reg(e0: ExpDesc, reg: nat, ghost tl: seq<nat>, ghost fl: seq<nat>) returns (r: Result<ExpDesc, Error>)
      requires Valid() && Desc(View(), code, e0, tl, fl) && CanHold(View(), reg, 0) && reg < MAXSTACK
      modifies this
      ensures r.Fail? ==> AtLimit()
      ensures |code| <= |old(code)| + 4 && |k| <= |old(k)| + 1 && freereg <= old(freereg)
      ensures r.Ok? ==> Valid() && View() == CgGen.Exp2Reg(old(View()), Abs(e0, tl, fl), reg)
      ensures r.Ok? ==> r.value == ExpDesc(VNonReloc(reg), NO_JUMP, NO_JUMP)
      ensures r.Ok? ==> SameLinks(old(ac), old(code), code, Exits(Abs(e0, tl, fl)) + SetOf(old(jlist)))
    {
      hide Rep, AllFit, IndexOk, Linked, IsList, CgGen.Discharge2Reg, CgGen.Exp2Reg, CloseSpec, ExpState;
      ghost var fs, code0, x := View(), code, Abs(e0, tl, fl);
      Exp2RegSpec(fs, x, reg);
      KindFacts(fs, code0, e0, tl, fl);
      var e :- Discharge2Reg(e0, reg, tl, fl);
      ghost var fs1, code1 := View(), code;
      KindFacts(fs1, code1, e, tl, fl);
      DischargeMoves(prims, fs, code0, e0, tl, fl, reg);
      var t :- JoinTrue(e, tl, fl);
      ghost var ttl, code2 := TrueSeq(e, tl), code;
      TrueSeqSet(e0, tl, fl);
      HeadsDiffer(code, ac, t, e.f, ttl, fl);
      SetEmpty(jlist);
      if t != e.f {
        var _ :- CloseExits(!e.k.VJmp?, reg, t, e.f, ttl, fl);
      }
      Exp2RegLinks(fs, code0, e0, fs1, code1, code2, code, reg, tl, fl);
      return Ok(ExpDesc(VNonReloc(reg), NO_JUMP, NO_JUMP));
    }

    /** luaK_exp2nextreg */
    method Exp2NextReg(e0: ExpDesc, ghost tl: seq<nat>, ghost fl: seq<nat>) returns (r: Result<ExpDesc, Error>)
      requires Valid() && Desc(View(), code, e0, tl, fl)
      modifies this
      ensures r.Fail? ==> AtLimit()
      ensures |code| <= |old(code)| + 4 && |k| <= |old(k)| + 1 && freereg <= old(freereg) + 1
      ensures r.Ok? ==> Valid() && View() == Exp2Next(old(View()), Abs(e0, tl, fl)).0
      ensures r.Ok? ==> Abs(r.value, [], []) == Exp2Next(old(View()), Abs(e0, tl, fl)).1
                        && Desc(View(), code, r.value, [], []) && r.value.k.VNonReloc?
      ensures r.Ok? ==> SameLinks(old(ac), old(code), code, Exits(Abs(e0, tl, fl)) + SetOf(old(jlist)))
    {
      hide Rep, AllFit, IndexOk, Desc, ExpState, CgGen.Exp2Reg, IsList, FreeExp;
      ghost var fs, code0 := View(), code;
      DischargeVarsOk(prims, fs, code, e0, tl, fl);
      var e := DischargeVars(e0);
      NextState(prims, fs, code, e, tl, fl);
      KindFacts(fs, code, e, tl, fl);
      FreeIgnoresLists(fs, e, tl, fl);
      FreeE(e);
      var _ :- ReserveReg();
      var e' :- Exp2Reg(e, freereg - 1, tl, fl);
      NextDesc(prims, fs, code0, e0, tl, fl, code);
      return Ok(e');
    }

    /** luaK_exp2anyreg */
    method Exp2AnyReg(e0: ExpDesc, ghost tl: seq<nat>, ghost fl: seq<nat>) returns (r: Result<ExpDesc, Error>)
      requires Valid() && Desc(View(), code, e0, tl, fl)
      modifies this
      ensures r.Fail? ==> AtLimit()
      ensures |code| <= |old(code)| + 4 && |k| <= |old(k)| + 1 && freereg <= old(freereg) + 1
      ensures r.Ok? ==> Valid() && View() == Exp2Any(old(View()), Abs(e0, tl, fl)).0
      ensures r.Ok? ==> Abs(r.value, [], []) == Exp2Any(old(View()), Abs(e0, tl, fl)).1
                        && Desc(View(), code, r.value, [], []) && r.value.k.VNonReloc?
      ensures r.Ok? ==> SameLinks(old(ac), old(code), code, Exits(Abs(e0, tl, fl)) + SetOf(old(jlist)))
    {
      hide Rep, AllFit, IndexOk, Desc, ExpState, CgGen.Exp2Reg, IsList, Exp2Next;
      ghost var fs, code0 := View(), code;
      DischargeVarsOk(prims, fs, code, e0, tl, fl);
      var e := DischargeVars(e0);
      NoLists(fs, code, e, tl, fl);
      KindFacts(fs, code, e, tl, fl);
      if e.k.VNonReloc? {
        if e.t == e.f {
          return Ok(e);
        }
        if e.k.r >= nactvar {
          AnyDesc(prims, fs, code, e0, tl, fl);
          var e' :- Exp2Reg(e, e.k.r, tl, fl);
          PlainDesc(View(), code, e');
          return Ok(e');
        }
      }
      var e' :- Exp2NextReg(e, tl, fl);
      return Ok(e');
    }

    /** luaK_exp2val */
    method Exp2Val(e: ExpDesc, ghost tl: seq<nat>, ghost fl: seq<nat>) returns (r: Result<ExpDesc, Error>)
      requires Valid() && Desc(View(), code, e, tl, fl)
      modifies this
      ensures r.Fail? ==> AtLimit()
      ensures |code| <= |old(code)| + 4 && |k| <= |old(k)| + 1 && freereg <= old(freereg) + 1
      ensures r.Ok? ==> Valid() && View() == CgGen.Exp2Val(old(View()), Abs(e, tl, fl)).0
      ensures r.Ok? ==> Abs(r.value, [], []) == CgGen.Exp2Val(old(View()), Abs(e, tl, fl)).1
                        && Desc(View(), code, r.value, [], [])
      ensures r.Ok? ==> SameLinks(old(ac), old(code), code, Exits(Abs(e, tl, fl)) + SetOf(old(jlist)))
    {
      hide Rep, AllFit, IndexOk, Desc, ExpState, IsList, Exp2Any;
      NoLists(View(), code, e, tl, fl);
      if e.t != e.f {
        var e' :- Exp2AnyReg(e, tl, fl);
        return Ok(e');
      }
      DischargeVarsOk(prims, View(), code, e, tl, fl);
      return Ok(DischargeVars(e));
    }

    /** luaK_exp2RK; the operand is returned with the expression */
    method Exp2RKOperand(e0: ExpDesc, ghost tl: seq<nat>, ghost fl: seq<nat>) returns (r: Result<ExpDesc, Error>)
      requires Valid() && Desc(View(), code, e0, tl, fl)
      modifies this
      ensures r.Fail? ==> AtLimit()
      ensures |code| <= |old(code)| + 8 && |k| <= |old(k)| + 2 && freereg <= old(freereg) + 2
      ensures r.Ok? ==> Valid() && View() == Exp2RK(old(View()), Abs(e0, tl, fl)).0
      ensures r.Ok? ==> Abs(r.value, [], []) == Exp2RK(old(View()), Abs(e0, tl, fl)).1
                        && Desc(View(), code, r.value, [], []) && IsRK(Abs(r.value, [], []))
      ensures r.Ok? ==> SameLinks(old(ac), old(code), code, Exits(Abs(e0, tl, fl)) + SetOf(old(jlist)))
    {
      hide Rep, AllFit, IndexOk, Desc, ExpState, IsList, Exp2Any, CgGen.Exp2Val, AddK, IndexOf;
      ghost var fs, code0, x := View(), code, Abs(e0, tl, fl);
      KindFacts(fs, code, e0, tl, fl);
      RkDesc(prims, fs, code, e0, tl, fl);
      ValDesc(prims, fs, code, e0, tl, fl);
      var e :- Exp2Val(e0, tl, fl);
      ghost var fs1, code1 := View(), code;
      KindFacts(fs1, code1, e, [], []);
      var lit := Literal(e.k);
      if lit.Some? && |k| <= MAXINDEXRK {
        var info :- AddConstant(lit.value);
        var e' := e.(k := VK(info));
        PlainDesc(View(), code, e');
        return Ok(e');
      } else if e.k.VK? && e.k.info <= MAXINDEXRK {
        return Ok(e);
      }
      var e' :- Exp2AnyReg(e, [], []);
      LinksTrans(fs, x, fs1, Abs(e, [], []), code0, code1, code);
      return Ok(e');
    }

    // -------------------------------------------------------------- conditions

    /** discharge2anyreg */
    method Discharge2AnyReg(e: ExpDesc, ghost tl: seq<nat>, ghost fl: seq<nat>) returns (r: Result<ExpDesc, Error>)
      requires Valid() && Desc(View(), code, e, tl, fl) && !e.k.VJmp? && !e.k.VLocal?
      modifies this
      ensures r.Fail? ==> AtLimit()
      ensures |code| <= |old(code)| + 1 && |k| <= |old(k)| + 1 && freereg <= old(freereg) + 1
      ensures r.Ok? ==> Valid() && View() == Discharge2Any(old(View()), Abs(e, tl, fl)).0
      ensures r.Ok? ==> Abs(r.value, tl, fl) == Discharge2Any(old(View()), Abs(e, tl, fl)).1
                        && Desc(View(), code, r.value, tl, fl) && r.value.k.VNonReloc?
      ensures r.Ok? ==> SameLinks(old(ac), old(code), code, SetOf(old(jlist))) && r.value.t == e.t && r.value.f == e.f
    {
      hide Rep, AllFit, IndexOk, Desc, IsList, CgGen.Discharge2Reg;
      if e.k.VNonReloc? {
        return Ok(e);
      }
      AnyRegDesc(prims, View(), code, e, tl, fl);
      var _ :- ReserveReg();
      var e' :- Discharge2Reg(e, freereg - 1, tl, fl);
      return Ok(e');
    }

    /** "remove previous OP_NOT" */
    method RemoveLast()
      requires Valid() && |code| > 0 && jlist == []
      modifies this`code, this`ac
      ensures Valid() && View() == old(View()).(code := old(ac)[..|old(ac)| - 1])
      ensures code == old(code)[..|old(code)| - 1]
    {
      ghost var n := |code| - 1;
      assert Rep(k, code[..n], ac[..n]) by {
        assert forall i :: 0 <= i < n ==> Means(k, code[i], ac[i], i);
      }
      code := code[..|code| - 1];
      ac := ac[..n];
    }

    /** The jump on an operand of `not`, whose instruction was the last one */
    method JumpOnNot(b: nat, cond: bool) returns (r: Result<int, Error>)
      requires Valid() && |code| > 0 && jlist == [] && !ac[|code| - 1].Jmp? && b < 256
      modifies this`code, this`ac, this`jpc, this`jlist
      ensures r.Fail? ==> AtLimit()
      ensures |code| <= |old(code)| + 1
      ensures r.Ok? ==> Valid() && jlist == []
                        && View() == CgGen.CondJump(old(View()).(code := old(ac)[..|old(ac)| - 1]), Test(b, !cond))
      ensures r.Ok? ==> r.value == |code| - 1 && IsList(code, ac, r.value, [|code| - 1])
      ensures r.Ok? ==> SameLinks(old(ac), old(code), code, {})
    {
      hide Rep, AllFit, IndexOk, IsList, CgGen.CondJump, SameLinks;
      SetEmpty(jlist);
      ghost var code0, ac0 := code, ac;
      RemoveLast();
      ghost var code1, ac1 := code, ac;
      var j :- CondJump(TEST(b, !cond), Test(b, !cond));
      NotLinks(ac0, code0, ac1, code1, code);
      return Ok(j);
    }

    method JumpOnCond(e0: ExpDesc, cond: bool, ghost tl: seq<nat>, ghost fl: seq<nat>) returns (r: Result<int, Error>)
      requires Valid() && Desc(View(), code, e0, tl, fl) && !e0.k.VJmp? && !e0.k.VLocal?
      modifies this
      ensures r.Fail? ==> AtLimit()
      ensures |code| <= |old(code)| + 3 && |k| <= |old(k)| + 1 && freereg <= old(freereg) + 1
      ensures r.Ok? ==> Valid() && jlist == [] && View() == CgGen.JumpOnCond(old(View()), Abs(e0, tl, fl), cond)
      ensures r.Ok? ==> r.value == |code| - 1 && IsList(code, ac, r.value, [|code| - 1])
      ensures r.Ok? ==> SameLinks(old(ac), old(code), code, SetOf(old(jlist)))
    {
      hide Rep, AllFit, IndexOk, Desc, IsList, Discharge2Any, CgGen.CondJump, FreeExp, SameLinks, AllPending, SetOf,
        ExpState, FsOk, ExpOk;
      ghost var fs, code0 := View(), code;
      KindFacts(fs, code, e0, tl, fl);
      SetEmpty(jlist);
      if e0.k.VReloc? {
        var ie := code[e0.k.pc];
        NotMeans(k, code, ac, e0.k.pc);
        if ie.NOT? {
          r := JumpOnNot(ie.b, cond);
          return;
        }
      }
      var e :- Discharge2AnyReg(e0, tl, fl);
      ghost var fs1, code1 := View(), code;
      KindFacts(fs1, code1, e, tl, fl);
      FreeIgnoresLists(fs1, e, tl, fl);
      FreeE(e);
      var j :- CondJump(TESTSET(NO_REG, e.k.r, cond), TestSet(NO_REG, e.k.r, cond));
      AnyLinks(prims, fs, code0, e0, tl, fl, fs1, code1, code);
      return Ok(j);
    }

    /** invertjump */
    method InvertJump(pc: nat)
      requires Valid() && 0 < pc < |code| && ac[pc - 1].Cmp?
      modifies this`code, this`ac
      ensures Valid() && View() == old(View()).(code := Inverted(old(ac), pc)) && |code| == |old(code)|
      ensures forall i :: 0 <= i < |code| && old(code)[i].JMP? ==> code[i] == old(code)[i]
    {
      hide Rep, AllFit, IsList, IndexOk, Inverted, SetOf;
      InvertOk(k, code, ac, pc, jpc, jlist);
      var i := code[pc - 1];
      code := code[pc - 1 := COMP(i.cmp, !i.cond, i.b, i.c)];
      ac := Inverted(ac, pc);
    }

    /** The end of luaK_goiftrue and luaK_goiffalse: insert the last jump, and send the other exits here. */
    method FinishGoIf(exits: int, j: int, others: int, ghost el: seq<nat>, ghost jl: seq<nat>, ghost ol: seq<nat>)
        returns (r: Result<int, Error>)
      requires Valid() && IsList(code, ac, exits, el) && IsList(code, ac, j, jl) && IsList(code, ac, others, ol)
      requires Apart(el, jl, ol) && Apart(el, ol, jlist) && SetOf(jl) !! SetOf(jlist)
      modifies this`code, this`jpc, this`jlist, this`lasttarget
      ensures r.Fail? ==> AtLimit()
      ensures |code| == |old(code)|
      ensures r.Ok? ==> Valid() && View() == PatchHere(old(View()), SetOf(ol)) && |code| == |old(code)|
      ensures r.Ok? ==> IsList(code, ac, r.value, el + jl) && SetOf(el + jl) == SetOf(el) + SetOf(jl)
                        && SetOf(el + jl) !! SetOf(jlist)
      ensures r.Ok? ==> SameLinks(ac, old(code), code, SetOf(el) + SetOf(old(jlist)))
    {
      hide Rep, AllFit, IndexOk, Linked, AllPending;
      ghost var code0, fs := code, View();
      SetOfConcat(el, jl);
      var list :- Concat(exits, j, el, jl);
      ghost var code1 := code;
      ConcatLinks(fs, code0, code1, el);
      ListMoves(fs, code0, fs, code1, SetOf(el), others, ol);
      ListMoves(fs, code0, fs, code1, SetOf(el), jpc, jlist);
      var _ :- PatchToHere(others, ol);
      ListMoves(fs, code1, fs, code, fs.here, list, el + jl);
      LinksMore(ac, code0, code1, SetOf(el), SetOf(el) + fs.here);
      LinksMore(ac, code1, code, fs.here, SetOf(el) + fs.here);
      LinksTwice(ac, code0, code1, code, SetOf(el) + fs.here);
      return Ok(list);
    }

    /** The jump of luaK_goiftrue or luaK_goiffalse, when one is needed */
    method Leave(e: ExpDesc, cond: bool, ghost tl: seq<nat>, ghost fl: seq<nat>) returns (r: Result<int, Error>)
      requires Valid() && Desc(View(), code, e, tl, fl) && !e.k.VLocal?
      modifies this
      ensures r.Fail? ==> AtLimit()
      ensures |code| <= |old(code)| + 3 && |k| <= |old(k)| + 1 && freereg <= old(freereg) + 1
      ensures r.Ok? ==> Valid() && jlist == [] && View() == LeaveSpec(old(View()), Abs(e, tl, fl), cond)
      ensures r.Ok? ==> r.value == (if e.k.VJmp? then e.k.pc else |code| - 1) && r.value >= 0
                        && IsList(code, ac, r.value, [r.value])
      ensures r.Ok? ==> r.value !in tl && r.value !in fl && IsList(code, ac, e.t, tl) && IsList(code, ac, e.f, fl)
      ensures r.Ok? ==> SameLinks(old(ac), old(code), code, SetOf(old(jlist)))
                        && StillPending(old(ac), ac, SetOf(old(jlist)))
    {
      hide Rep, AllFit, IndexOk, Desc, IsList, CgGen.JumpOnCond, Inverted, ExpState;
      ghost var fs, code0 := View(), code;
      KindFacts(fs, code, e, tl, fl);
      DescLists(fs, code, e, tl, fl);
      SetEmpty(jlist);
      if e.k.VJmp? {
        if !cond {
          RepJumps(k, code, ac);
          InvertJump(e.k.pc);
          InvertLists(fs, code0, e, tl, fl, code);
        }
        return Ok(e.k.pc);
      }
      var pc :- JumpOnCond(e, cond, tl, fl);
      ListsBeforeJump(prims, fs, code0, e, tl, fl, cond, code);
      return Ok(pc);
    }

    /** luaK_goiftrue; the result is the list of exits when false */
    method GoIfTrue(e0: ExpDesc, ghost tl: seq<nat>, ghost fl: seq<nat>)
        returns (r: Result<int, Error>, ghost l: seq<nat>)
      requires Valid() && Desc(View(), code, e0, tl, fl)
      modifies this
      ensures r.Fail? ==> AtLimit()
      ensures |code| <= |old(code)| + 3 && |k| <= |old(k)| + 1 && freereg <= old(freereg) + 1
      ensures r.Ok? ==> Valid() && View() == CgGen.GoIfTrue(old(View()), Abs(e0, tl, fl)).0
      ensures r.Ok? ==> IsList(code, ac, r.value, l) && SetOf(l) == CgGen.GoIfTrue(old(View()), Abs(e0, tl, fl)).1
                        && SetOf(l) !! SetOf(jlist)
      ensures r.Ok? ==> SameLinks(old(ac), old(code), code, Exits(Abs(e0, tl, fl)) + SetOf(old(jlist)))
    {
      hide Rep, AllFit, IndexOk, Desc, IsList, CgGen.JumpOnCond, Inverted;
      l := [];
      ghost var fs, code0, x := View(), code, Abs(e0, tl, fl);
      DischargeVarsOk(prims, fs, code, e0, tl, fl);
      KindFacts(fs, code, e0, tl, fl);
      DescLists(fs, code, e0, tl, fl);
      EmptyList(code, ac);
      var e := DischargeVars(e0);
      var pc := NO_JUMP;
      if !e.k.VK? && !e.k.VKNum? && !e.k.VTrue? {
        pc :- Leave(e, false, tl, fl);
        l := [pc];
      }
      ghost var fs1, code1 := View(), code;
      GoIfApart(tl, fl, l, jlist);
      var list :- FinishGoIf(e.f, pc, e.t, fl, l, tl);
      SetOfOne(l, pc);
      l := fl + l;
      GoIfLinks(fs.code, fs1.code, code0, code1, code, SetOf(fl), fs1.here, fs.here, Exits(x) + fs.here);
      return Ok(list), l;
    }

    /** luaK_goiffalse; the result is the list of exits when true */
    method GoIfFalse(e0: ExpDesc, ghost tl: seq<nat>, ghost fl: seq<nat>)
        returns (r: Result<int, Error>, ghost l: seq<nat>)
      requires Valid() && Desc(View(), code, e0, tl, fl)
      modifies this
      ensures r.Fail? ==> AtLimit()
      ensures |code| <= |old(code)| + 3 && |k| <= |old(k)| + 1 && freereg <= old(freereg) + 1
      ensures r.Ok? ==> Valid() && View() == CgGen.GoIfFalse(old(View()), Abs(e0, tl, fl)).0
      ensures r.Ok? ==> IsList(code, ac, r.value, l) && SetOf(l) == CgGen.GoIfFalse(old(View()), Abs(e0, tl, fl)).1
                        && SetOf(l) !! SetOf(jlist)
      ensures r.Ok? ==> SameLinks(old(ac), old(code), code, Exits(Abs(e0, tl, fl)) + SetOf(old(jlist)))
    {
      hide Rep, AllFit, IndexOk, Desc, IsList, CgGen.JumpOnCond, Inverted;
      l := [];
      ghost var fs, code0, x := View(), code, Abs(e0, tl, fl);
      DischargeVarsOk(prims, fs, code, e0, tl, fl);
      KindFacts(fs, code, e0, tl, fl);
      DescLists(fs, code, e0, tl, fl);
      EmptyList(code, ac);
      var e := DischargeVars(e0);
      var pc := NO_JUMP;
      if !e.k.VNil? && !e.k.VFalse? {
        pc :- Leave(e, true, tl, fl);
        l := [pc];
      }
      ghost var fs1, code1 := View(), code;
      GoIfApart(tl, fl, l, jlist);
      var list :- FinishGoIf(e.t, pc, e.f, tl, l, fl);
      SetOfOne(l, pc);
      l := tl + l;
      GoIfLinks(fs.code, fs1.code, code0, code1, code, SetOf(tl), fs1.here, fs.here, Exits(x) + fs.here);
      return Ok(list), l;
    }

    /** The switch of codenot */
    method NotSwitch(e0: ExpDesc, ghost tl: seq<nat>, ghost fl: seq<nat>) returns (r: Result<Kind, Error>)
      requires Valid() && Desc(View(), code, e0, tl, fl) && !e0.k.VLocal?
      modifies this
      ensures r.Fail? ==> AtLimit()
      ensures |code| <= |old(code)| + 2 && |k| <= |old(k)| + 1 && freereg <= old(freereg) + 1
      ensures r.Ok? ==> Valid() && View() == NotSpec(old(View()), Abs(e0, tl, fl)).0
                        && r.value == NotSpec(old(View()), Abs(e0, tl, fl)).1
      ensures r.Ok? ==> IsList(code, ac, e0.t, tl) && IsList(code, ac, e0.f, fl) && SmallRegs(r.value)
      ensures r.Ok? && r.value.VJmp? ==> IsList(code, ac, r.value.pc, [r.value.pc])
      ensures r.Ok? ==> SameLinks(old(ac), old(code), code, SetOf(old(jlist)))
                        && StillPending(old(ac), ac, SetOf(old(jlist)))
    {
      hide Rep, AllFit, IndexOk, Desc, IsList, Discharge2Any, Emit, FreeExp, Inverted, ExpState;
      ghost var fs, code0 := View(), code;
      KindFacts(fs, code, e0, tl, fl);
      DescLists(fs, code, e0, tl, fl);
      if e0.k.VNil? || e0.k.VFalse? {
        return Ok(VTrue);
      } else if e0.k.VK? || e0.k.VKNum? || e0.k.VTrue? {
        return Ok(VFalse);
      } else if e0.k.VJmp? {
        RepJumps(k, code, ac);
        InvertJump(e0.k.pc);
        InvertLists(fs, code0, e0, tl, fl, code);
        return Ok(e0.k);
      }
      var e :- Discharge2AnyReg(e0, tl, fl);
      ghost var fs1, code1 := View(), code;
      KindFacts(fs1, code1, e, tl, fl);
      DescLists(fs1, code1, e, tl, fl);
      FreeIgnoresLists(fs1, e, tl, fl);
      FreeE(e);
      ghost var fs2 := View();
      var pc :- Code(NOT(0, e.k.r), Set(0, Not(e.k.r)));
      PendingHere(fs1, code1, e, tl, fl);
      EmitPending(fs2, Set(0, Not(e.k.r)));
      NotMoved(prims, fs, code0, e0, tl, fl, fs1, code1, View(), code);
      return Ok(VReloc(pc));
    }

    method CodeNot(e0: ExpDesc, ghost tl: seq<nat>, ghost fl: seq<nat>) returns (r: Result<ExpDesc, Error>)
      requires Valid() && Desc(View(), code, e0, tl, fl)
      modifies this
      ensures r.Fail? ==> AtLimit()
      ensures |code| <= |old(code)| + 2 && |k| <= |old(k)| + 1 && freereg <= old(freereg) + 1
      ensures r.Ok? ==> Valid() && View() == CgGen.CodeNot(old(View()), Abs(e0, tl, fl)).0
      ensures r.Ok? ==> Abs(r.value, fl, tl) == CgGen.CodeNot(old(View()), Abs(e0, tl, fl)).1
                        && Desc(View(), code, r.value, fl, tl)
      ensures r.Ok? ==> SameLinks(old(ac), old(code), code, Exits(Abs(e0, tl, fl)) + SetOf(old(jlist)))
    {
      hide Rep, AllFit, IndexOk, Desc, IsList, NotSpec, CgGen.CodeNot, WithoutValues;
      ghost var fs, code0, x := View(), code, Abs(e0, tl, fl);
      NotSpecOk(fs, x);
      DischargeVarsOk(prims, fs, code, e0, tl, fl);
      var e := DischargeVars(e0);
      var kind :- NotSwitch(e, tl, fl);
      ghost var fs1, code1 := View(), code;
      RepJumps(k, code, ac);
      RemoveBoth(e, tl, fl);
      SwapDesc(prims, fs, code0, e, tl, fl, code1, kind, code);
      SwapLinks(fs.code, fs1.code, code0, code1, code, fs.here, Exits(x) + fs.here);
      return Ok(ExpDesc(kind, e.f, e.t));
    }

    /** The exits no longer produce values. */
    method RemoveBoth(e: ExpDesc, ghost tl: seq<nat>, ghost fl: seq<nat>)
      requires Valid() && IsList(code, ac, e.t, tl) && IsList(code, ac, e.f, fl)
      modifies this`code, this`ac
      ensures Valid() && View() == old(View()).(code := WithoutValues(WithoutValues(old(ac), SetOf(tl)), SetOf(fl)))
      ensures |code| == |old(code)| && forall i :: 0 <= i < |code| && old(code)[i].JMP? ==> code[i] == old(code)[i]
    {
      hide Rep, AllFit, IndexOk, Linked;
      ghost var fs, code0 := View(), code;
      RemoveValues(e.t, tl);
      ghost var fs1, code1 := View(), code;
      SwapList(fs, code0, fs1, code1, e.f, fl);
      SwapList(fs, code0, fs1, code1, jpc, jlist);
      RemoveValues(e.f, fl);
      SwapList(fs1, code1, View(), code, jpc, jlist);
    }

    // -------------------------------------------------------------- operators

    /** The instruction of a unary operator, on a register */
    method CodeUnary(minus: bool, e0: ExpDesc, ghost tl: seq<nat>, ghost fl: seq<nat>)
        returns (r: Result<ExpDesc, Error>)
      requires Valid() && Desc(View(), code, e0, tl, fl)
      modifies this
      ensures r.Fail? ==> AtLimit()
      ensures |code| <= |old(code)| + 5 && |k| <= |old(k)| + 1 && freereg <= old(freereg) + 1
      ensures r.Ok? ==> Valid() && View() == CgGen.CodeUnary(old(View()), minus, Abs(e0, tl, fl)).0
      ensures r.Ok? ==> Abs(r.value, [], []) == CgGen.CodeUnary(old(View()), minus, Abs(e0, tl, fl)).1
                        && Desc(View(), code, r.value, [], [])
      ensures r.Ok? ==> SameLinks(old(ac), old(code), code, Exits(Abs(e0, tl, fl)) + SetOf(old(jlist)))
    {
      hide Rep, AllFit, IndexOk, Desc, IsList, Emit, Exp2Any, ExpState;
      ghost var fs, code0, x := View(), code, Abs(e0, tl, fl);
      KindFacts(fs, code, e0, tl, fl);
      AnyDesc(prims, fs, code, e0, tl, fl);
      var e :- Exp2AnyReg(e0, tl, fl);
      ghost var fs1, code1 := View(), code;
      KindFacts(fs1, code1, e, [], []);
      FreeE(e);
      ghost var i := Set(0, if minus then Minus(e.k.r) else Len(e.k.r));
      StateFree(fs1, Abs(e, [], []), View());
      RelocState(View(), i);
      var pc :- Code(if minus then UNM(0, e.k.r) else LEN(0, e.k.r), i);
      LinksTrans(fs, x, fs1, Abs(e, [], []), code0, code1, code);
      PlainDesc(View(), code, ExpDesc(VReloc(pc), NO_JUMP, NO_JUMP));
      return Ok(ExpDesc(VReloc(pc), NO_JUMP, NO_JUMP));
    }

    /** The operand that luaK_exp2RK returns: a register, or a constant above the registers */
    function Operand(e: ExpDesc): nat {
      match e.k
      case VK(info) => BITRK + info
      case VNonReloc(r) => r
      case _ => 0
    }

    /** luaK_prefix, OPR_MINUS */
    method CodeMinus(e0: ExpDesc, ghost tl: seq<nat>, ghost fl: seq<nat>) returns (r: Result<ExpDesc, Error>)
      requires Valid() && Desc(View(), code, e0, tl, fl)
      modifies this
      ensures r.Fail? ==> AtLimit()
      ensures |code| <= |old(code)| + 9 && |k| <= |old(k)| + 2 && freereg <= old(freereg) + 2
      ensures r.Ok? ==> Valid() && View() == CgGen.CodeMinus(prims, old(View()), Abs(e0, tl, fl)).0
      ensures r.Ok? ==> Abs(r.value, [], []) == CgGen.CodeMinus(prims, old(View()), Abs(e0, tl, fl)).1
                        && Desc(View(), code, r.value, [], [])
      ensures r.Ok? ==> SameLinks(old(ac), old(code), code, Exits(Abs(e0, tl, fl)) + SetOf(old(jlist)))
    {
      hide Rep, AllFit, IndexOk, Desc, IsList, Emit, Exp2RK, CgGen.CodeUnary, ExpState, FreeExp;
      ghost var fs, code0, x := View(), code, Abs(e0, tl, fl);
      NoLists(fs, code, e0, tl, fl);
      KindFacts(fs, code, e0, tl, fl);
      if !e0.k.VKNum? || e0.t != e0.f {
        var e :- CodeUnary(true, e0, tl, fl);
        return Ok(e);
      }
      if !prims.nan(prims.neg(e0.k.n)) {
        NumeralDesc(fs, code, e0, prims.neg(e0.k.n));
        return Ok(e0.(k := VKNum(prims.neg(e0.k.n))));
      }
      RkDesc(prims, fs, code, e0, tl, fl);
      var e :- Exp2RKOperand(e0, tl, fl);
      ghost var fs1, code1 := View(), code;
      KindFacts(fs1, code1, e, [], []);
      FreeE(e);
      ghost var i := Set(0, Minus(OperandCode(Abs(e, [], []))));
      StateFree(fs1, Abs(e, [], []), View());
      RelocState(View(), i);
      var pc :- Code(UNM(0, Operand(e)), i);
      LinksTrans(fs, x, fs1, Abs(e, [], []), code0, code1, code);
      PlainDesc(View(), code, ExpDesc(VReloc(pc), NO_JUMP, NO_JUMP));
      return Ok(ExpDesc(VReloc(pc), NO_JUMP, NO_JUMP));
    }

    /** constfolding, for binary operators */
    method ConstFolding(op: ArithOp, e1: ExpDesc, e2: ExpDesc) returns (n: Option<Number>)
      ensures n == if e1.t == NO_JUMP && e1.f == NO_JUMP && e2.t == NO_JUMP && e2.f == NO_JUMP
                   then Folded(prims, op, Abs(e1, [], []), Abs(e2, [], [])) else None
    {
      if !(e1.k.VKNum? && e1.t == NO_JUMP && e1.f == NO_JUMP) || !(e2.k.VKNum? && e2.t == NO_JUMP && e2.f == NO_JUMP) {
        return None;
      }
      var v1, v2 := e1.k.n, e2.k.n;
      var x;
      match op {
        case Div =>
          if prims.zero(v2) {
            return None;
          }
          x := prims.num(op, v1, v2);
        case Mod =>
          if prims.zero(v2) {
            return None;
          }
          x := prims.num(op, v1, v2);
        case _ =>
          x := prims.num(op, v1, v2);
      }
      return if prims.nan(x) then None else Some(x);
    }

    /** luaK_exp2RK on an operand that waits: it is one already, or a numeral. */
    method FirstOperand(e1: ExpDesc, ghost e2: ExpDesc) returns (r: Result<ExpDesc, Error>)
      requires Valid() && Desc(View(), code, e2, [], []) && Waiting(View(), e1, Abs(e2, [], []))
        && IsRK(Abs(e2, [], []))
      modifies this
      ensures r.Fail? ==> AtLimit()
      ensures |code| <= |old(code)| + 8 && |k| <= |old(k)| + 2 && freereg <= old(freereg) + 2
      ensures r.Ok? ==> Valid() && View() == Exp2RK(old(View()), Abs(e1, [], [])).0
                        && Abs(r.value, [], []) == Exp2RK(old(View()), Abs(e1, [], [])).1
      ensures r.Ok? ==> BothPlaced(View(), r.value, e2) && SameLinks(old(ac), old(code), code, SetOf(old(jlist)))
      ensures r.Ok? && !e1.k.VKNum? ==> r.value == e1 && View() == old(View())
      ensures r.Ok? ==> Moves(old(View()), Abs(e2, [], []), View(), Abs(r.value, [], []))
                        || (View() == old(View()) && code == old(code))
    {
      hide Rep, AllFit, IndexOk, Desc, IsList, Exp2RK, ExpState, Waits, IsRK;
      ghost var fs, code0 := View(), code;
      KindFacts(fs, code, e2, [], []);
      WaitingNumeral(fs, code, e1, e2);
      if !e1.k.VKNum? {
        RkSame(fs, Abs(e1, [], []));
        return Ok(e1);
      }
      RkDesc(prims, fs, code, e1, [], []);
      var e :- Exp2RKOperand(e1, [], []);
      KindFacts(View(), code, e, [], []);
      NumeralPlaced(fs, code0, e1, e2, View(), code, e);
      return Ok(e);
    }

    /** Free the registers of two operands, the last one reserved first. */
    method FreeTwo(e1: ExpDesc, e2: ExpDesc)
      requires Valid() && BothPlaced(View(), e1, e2)
      modifies this`freereg
      ensures Valid() && View() == FreeExp(FreeExp(old(View()), Abs(e1, [], [])), Abs(e2, [], []))
        && freereg <= old(freereg)
    {
      var o1, o2 := Operand(e1), Operand(e2);
      if o1 > o2 {
        FreeE(e1);
        FreeE(e2);
      } else {
        FreeE(e2);
        FreeE(e1);
      }
    }

    /** Free the second operand of a comparison, and then the first. */
    method FreeInOrder(e1: ExpDesc, e2: ExpDesc)
      requires Valid() && BothPlaced(View(), e1, e2) && Waiting(View(), e1, Abs(e2, [], []))
      modifies this`freereg
      ensures Valid() && View() == FreeExp(FreeExp(old(View()), Abs(e2, [], [])), Abs(e1, [], []))
        && freereg <= old(freereg)
    {
      hide Rep, AllFit, IndexOk, IsList;
      FreeE(e2);
      FreeE(e1);
    }

    /** The operands of a binary operator */
    method TwoOperands(e1: ExpDesc, e2: ExpDesc, ghost tl: seq<nat>, ghost fl: seq<nat>)
        returns (r: Result<(ExpDesc, ExpDesc), Error>)
      requires Valid() && Desc(View(), code, e2, tl, fl) && Waiting(View(), e1, Abs(e2, tl, fl))
      modifies this
      ensures r.Fail? ==> AtLimit()
      ensures |code| <= |old(code)| + 16 && |k| <= |old(k)| + 4 && freereg <= old(freereg) + 4
      ensures r.Ok? ==> Valid() && BothPlaced(View(), r.value.0, r.value.1)
      ensures r.Ok? && !e1.k.VKNum? ==> r.value.0 == e1 && Waiting(View(), e1, Abs(r.value.1, [], []))
      ensures r.Ok? ==> var r2 := Exp2RK(old(View()), Abs(e2, tl, fl));
                        var r1 := Exp2RK(r2.0, Abs(e1, [], []));
                        View() == r1.0 && Abs(r.value.0, [], []) == r1.1 && Abs(r.value.1, [], []) == r2.1
      ensures r.Ok? ==> SameLinks(old(ac), old(code), code, Exits(Abs(e2, tl, fl)) + SetOf(old(jlist)))
      ensures r.Ok? ==> OuterKept(old(ac), ac, Exits(Abs(e2, tl, fl)) + SetOf(old(jlist)), SetOf(jlist))
    {
      hide Rep, AllFit, IndexOk, Desc, IsList, Exp2RK, ExpState, IsRK, Waiting, OuterKept, BothPlaced;
      ghost var fs, code0, x := View(), code, Abs(e2, tl, fl);
      KindFacts(fs, code, e2, tl, fl);
      RkDesc(prims, fs, code, e2, tl, fl);
      var e2' :- Exp2RKOperand(e2, tl, fl);
      ghost var fs2, code2 := View(), code;
      KindFacts(fs2, code2, e2', [], []);
      StillWaiting(fs, e1, x, fs2, Abs(e2', [], []));
      var e1' :- FirstOperand(e1, e2');
      OperandLinks(fs, x, fs2, Abs(e2', [], []), View(), Abs(e1', [], []), code0, code2, code);
      return Ok((e1', e2'));
    }

    /** Free the operands and emit the operation. */
    method EmitArith(op: ArithOp, e1: ExpDesc, e2: ExpDesc) returns (r: Result<ExpDesc, Error>)
      requires Valid() && BothPlaced(View(), e1, e2)
      modifies this
      ensures r.Fail? ==> AtLimit()
      ensures |code| <= |old(code)| + 1 && |k| <= |old(k)| && freereg <= old(freereg)
      ensures r.Ok? ==> var fs1 := FreeExp(FreeExp(old(View()), Abs(e1, [], [])), Abs(e2, [], []));
                        var i := Set(0, Bin(op, RkOf(old(View()), Abs(e1, [], [])),
                          RkOf(old(View()), Abs(e2, [], []))));
                        Valid() && View() == Emit(fs1, i) && r.value == ExpDesc(VReloc(|fs1.code|), NO_JUMP, NO_JUMP)
      ensures r.Ok? ==> Desc(View(), code, r.value, [], []) && Abs(r.value, [], []) == Exp(r.value.k, {}, {})
      ensures r.Ok? ==> SameLinks(old(ac), old(code), code, SetOf(old(jlist)))
    {
      hide Rep, AllFit, IndexOk, Desc, IsList, Emit, RkOf, FreeExp, ExpState;
      ghost var fs := View();
      PlacedFacts(fs, e1, e2);
      SetEmpty([]);
      FreeTwo(e1, e2);
      ghost var i := Set(0, Bin(op, RkOf(fs, Abs(e1, [], [])), RkOf(fs, Abs(e2, [], []))));
      PlacedState(fs, e1, e2, View());
      RelocState(View(), i);
      var pc :- Code(ARITH(op, 0, Operand(e1), Operand(e2)), i);
      PlainDesc(View(), code, ExpDesc(VReloc(pc), NO_JUMP, NO_JUMP));
      return Ok(ExpDesc(VReloc(pc), NO_JUMP, NO_JUMP));
    }

    method CodeArith(op: ArithOp, e1: ExpDesc, e2: ExpDesc, ghost tl: seq<nat>, ghost fl: seq<nat>)
        returns (r: Result<ExpDesc, Error>)
      requires Valid() && Desc(View(), code, e2, tl, fl) && Waiting(View(), e1, Abs(e2, tl, fl))
      modifies this
      ensures r.Fail? ==> AtLimit()
      ensures |code| <= |old(code)| + 17 && |k| <= |old(k)| + 4 && freereg <= old(freereg) + 4
      ensures r.Ok? ==> Valid() && View() == CgGen.CodeArith(prims, old(View()), op, Abs(e1, [], []), Abs(e2, tl, fl)).0
      ensures r.Ok? ==>
        Abs(r.value, [], []) == CgGen.CodeArith(prims, old(View()), op, Abs(e1, [], []), Abs(e2, tl, fl)).1
      ensures r.Ok? ==> Desc(View(), code, r.value, [], [])
      ensures r.Ok? ==> SameLinks(old(ac), old(code), code, Exits(Abs(e2, tl, fl)) + SetOf(old(jlist)))
    {
      hide Rep, AllFit, IndexOk, Desc, IsList, Exp2RK, ExpState, Emit, FreeExp, RkOf, Waiting, BothPlaced;
      ghost var fs, code0, x := View(), code, Abs(e2, tl, fl);
      NoLists(fs, code, e2, tl, fl);
      WaitingFacts(fs, e1, x);
      var n := ConstFolding(op, e1, e2);
      ListsFolded(prims, fs, code, op, e1, e2, tl, fl);
      if n.Some? {
        FoldedDesc(fs, code, e2, tl, fl, e1, n.value);
        PlainAbs(e1.(k := VKNum(n.value)));
        return Ok(e1.(k := VKNum(n.value)));
      }
      var es :- TwoOperands(e1, e2, tl, fl);
      ghost var fs3, code3 := View(), code;
      var e :- EmitArith(op, es.0, es.1);
      OuterLinks(fs.code, fs3.code, code0, code3, code, Exits(x) + fs.here, fs3.here);
      return Ok(e);
    }

    method CodeComp(op: CompOp, e1: ExpDesc, e2: ExpDesc, ghost tl: seq<nat>, ghost fl: seq<nat>)
        returns (r: Result<ExpDesc, Error>)
      requires Valid() && Desc(View(), code, e2, tl, fl) && Waiting(View(), e1, Abs(e2, tl, fl))
        && IsRK(Abs(e1, [], []))
      modifies this
      ensures r.Fail? ==> AtLimit()
      ensures |code| <= |old(code)| + 18 && |k| <= |old(k)| + 4 && freereg <= old(freereg) + 4
      ensures r.Ok? ==> Valid() && View() == CgGen.CodeComp(old(View()), op, Abs(e1, [], []), Abs(e2, tl, fl)).0
      ensures r.Ok? ==> Abs(r.value, [], []) == CgGen.CodeComp(old(View()), op, Abs(e1, [], []), Abs(e2, tl, fl)).1
      ensures r.Ok? ==> Desc(View(), code, r.value, [], [])
      ensures r.Ok? ==> SameLinks(old(ac), old(code), code, Exits(Abs(e2, tl, fl)) + SetOf(old(jlist)))
    {
      hide Rep, AllFit, IndexOk, Desc, IsList, Exp2RK, ExpState, CgGen.CondJump, FreeExp, RkOf, Waiting, BothPlaced,
        CompTest;
      ghost var fs, code0, x := View(), code, Abs(e2, tl, fl);
      RkSame(fs, Abs(e1, [], []));
      RkSame(Exp2RK(fs, x).0, Abs(e1, [], []));
      var es :- TwoOperands(e1, e2, tl, fl);
      ghost var fs3, code3 := View(), code;
      var e :- EmitComp(op, es.0, es.1);
      OuterLinks(fs.code, fs3.code, code0, code3, code, Exits(x) + fs.here, fs3.here);
      return Ok(e);
    }

    /** Free the operands and emit the comparison: `>` and `>=` exchange them. */
    method EmitComp(op: CompOp, e1: ExpDesc, e2: ExpDesc) returns (r: Result<ExpDesc, Error>)
      requires Valid() && BothPlaced(View(), e1, e2) && Waiting(View(), e1, Abs(e2, [], []))
      modifies this
      ensures r.Fail? ==> AtLimit()
      ensures |code| <= |old(code)| + 2 && |k| <= |old(k)| && freereg <= old(freereg)
      ensures r.Ok? ==> var fs1 := FreeExp(FreeExp(old(View()), Abs(e2, [], [])), Abs(e1, [], []));
                        var i := CompTest(op, RkOf(old(View()), Abs(e1, [], [])), RkOf(old(View()), Abs(e2, [], [])));
                        Valid() && View() == CgGen.CondJump(fs1, i)
                          && r.value == ExpDesc(VJmp(|fs1.code| + 1), NO_JUMP, NO_JUMP)
      ensures r.Ok? ==> Desc(View(), code, r.value, [], []) && Abs(r.value, [], []) == Exp(r.value.k, {}, {})
      ensures r.Ok? ==> SameLinks(old(ac), old(code), code, SetOf(old(jlist)))
    {
      hide Rep, AllFit, IndexOk, Desc, IsList, RkOf, FreeExp, ExpState, CgGen.CondJump, Waiting;
      ghost var fs := View();
      PlacedFacts(fs, e1, e2);
      PlainAbs(e1);
      PlainAbs(e2);
      FreeInOrder(e1, e2);
      var b, c := Operand(e1), Operand(e2);
      ghost var x, y := RkOf(fs, Abs(e1, [], [])), RkOf(fs, Abs(e2, [], []));
      if op == GT || op == GE {
        b, c := c, b;
      }
      var cmp, cond := if op == EQ || op == NE then Eq else if op == LT || op == GT then Lt else Le, op != NE;
      ghost var i := CompTest(op, x, y);
      PlacedState(fs, e1, e2, View());
      JmpState(View(), i);
      var pc :- CondJump(COMP(cmp, cond, b, c), i);
      JmpDesc(View(), code, pc);
      return Ok(ExpDesc(VJmp(pc), NO_JUMP, NO_JUMP));
    }

    // -------------------------------------------------------------- expressions

    /** The exits of the first operand of `and` (or, for `cond`, of `or`) join those of the second. */
    method Posfix(cond: bool, e0: ExpDesc, list: int, ghost tl: seq<nat>, ghost fl: seq<nat>, ghost l: seq<nat>)
        returns (r: Result<ExpDesc, Error>)
      requires Valid() && Desc(View(), code, e0, tl, fl) && IsList(code, ac, list, l)
      requires SetOf(l) !! SetOf(tl) && SetOf(l) !! SetOf(fl) && SetOf(l) !! SetOf(jlist)
      requires ExpState(View(), Joined(cond, Discharge(Abs(e0, tl, fl)), SetOf(l)))
      modifies this`code
      ensures r.Fail? ==> AtLimit()
      ensures |code| == |old(code)|
      ensures r.Ok? ==> var tl', fl' := if cond then tl + l else tl, if cond then fl else fl + l;
                        Valid() && View() == old(View()) && Desc(View(), code, r.value, tl', fl')
                        && Abs(r.value, tl', fl') == Joined(cond, Discharge(Abs(e0, tl, fl)), SetOf(l))
      ensures r.Ok? ==> SameLinks(ac, old(code), code, SetOf(tl) + SetOf(fl))
    {
      hide Rep, AllFit, IndexOk, Desc, Linked, ExpState;
      ghost var fs, code0 := View(), code;
      DischargeVarsOk(prims, fs, code, e0, tl, fl);
      var e := DischargeVars(e0);
      KindFacts(fs, code, e, tl, fl);
      DescLists(fs, code, e, tl, fl);
      ghost var own := if cond then tl else fl;
      var head :- Concat(if cond then e.t else e.f, list, own, l);
      ConcatLinks(fs, code0, code, own);
      ListMoves(fs, code0, fs, code, SetOf(own), jpc, jlist);
      JoinedDesc(cond, fs, code0, e, tl, fl, l, code, head);
      LinksMore(ac, code0, code, SetOf(own), SetOf(tl) + SetOf(fl));
      return Ok(if cond then e.(t := head) else e.(f := head));
    }

    /** An expression with no operator */
    method SimpleExp(x: Expr) returns (r: Result<ExpDesc, Error>)
      requires Valid() && FsOk(View()) && Legal(prims, x, nactvar)
      requires x.ENil? || x.ETrue? || x.EFalse? || x.ENum? || x.EStr? || x.ELocal?
      modifies this
      ensures r.Fail? ==> AtLimit()
      ensures |code| <= |old(code)| && |k| <= |old(k)| + 1 && freereg <= old(freereg)
      ensures r.Ok? ==> Valid() && View() == Compile(prims, old(View()), x).0
                        && Abs(r.value, [], []) == Compile(prims, old(View()), x).1
      ensures r.Ok? ==> Desc(View(), code, r.value, [], []) && code == old(code) && FsOk(View())
    {
      hide Rep, AllFit, IndexOk, IsList, AddK, IndexOf, Formed, AllPending;
      var kind;
      match x {
        case ENil => kind := VNil;
        case ETrue => kind := VTrue;
        case EFalse => kind := VFalse;
        case ENum(n) => kind := VKNum(n);
        case EStr(s) =>
          var info :- AddConstant(Str(s));
          kind := VK(info);
        case ELocal(v) => kind := VLocal(v);
      }
      LeafState(View(), kind);
      PlainDesc(View(), code, ExpDesc(kind, NO_JUMP, NO_JUMP));
      return Ok(ExpDesc(kind, NO_JUMP, NO_JUMP));
    }

    /** subexpr, with luaK_prefix, luaK_infix and luaK_posfix, along the syntax tree of the expression */
    method SubExpr(x: Expr) returns (r: Result<ExpDesc, Error>, ghost tl: seq<nat>, ghost fl: seq<nat>)
      requires Valid() && FsOk(View()) && GoodPrims(prims) && Legal(prims, x, nactvar)
      modifies this
      ensures r.Fail? ==> AtLimit()
      ensures Taken(x, |old(code)|, |old(k)|, old(freereg))
      ensures r.Ok? ==> Valid() && View() == Compile(prims, old(View()), x).0
                        && Abs(r.value, tl, fl) == Compile(prims, old(View()), x).1
      ensures r.Ok? ==> Desc(View(), code, r.value, tl, fl)
      ensures r.Ok? ==> SameLinks(old(ac), old(code), code, SetOf(old(jlist)))
      decreases Nodes(x), 1
    {
      hide Rep, AllFit, IndexOk, IsList, Desc, FsOk, GoodPrims, Moves, CgGen.CodeNot, CgGen.CodeMinus,
        CgGen.CodeUnary, ExpState;
      tl, fl := [], [];
      match x {
        case EParen(a) =>
          var e;
          e, tl, fl :- SubExpr(a);
          DischargeVarsOk(prims, View(), code, e, tl, fl);
          r := Ok(DischargeVars(e));
        case ENot(a) =>
          r, tl, fl := PrefixExp(x, a);
        case EMinus(a) =>
          r, tl, fl := PrefixExp(x, a);
        case ELen(a) =>
          r, tl, fl := PrefixExp(x, a);
        case EArith(op, a, b) =>
          r := ArithExp(op, a, b);
        case EComp(op, a, b) =>
          r := CompExp(op, a, b);
        case EAnd(a, b) =>
          r, tl, fl := LogicExp(false, a, b);
        case EOr(a, b) =>
          r, tl, fl := LogicExp(true, a, b);
        case _ =>
          r := SimpleExp(x);
      }
    }

    /** An operand, with luaK_prefix. */
    method PrefixExp(x: Expr, a: Expr) returns (r: Result<ExpDesc, Error>, ghost tl: seq<nat>, ghost fl: seq<nat>)
      requires Valid() && FsOk(View()) && GoodPrims(prims) && Legal(prims, a, nactvar)
      requires x == ENot(a) || x == EMinus(a) || x == ELen(a)
      modifies this
      ensures r.Fail? ==> AtLimit()
      ensures Taken(x, |old(code)|, |old(k)|, old(freereg))
      ensures r.Ok? ==> (View(), Abs(r.value, tl, fl)) == Compile(prims, old(View()), x)
      ensures r.Ok? ==> Valid() && Desc(View(), code, r.value, tl, fl)
      ensures r.Ok? ==> SameLinks(old(ac), old(code), code, SetOf(old(jlist)))
      decreases Nodes(x), 0
    {
      hide Rep, AllFit, IndexOk, IsList, Desc, FsOk, GoodPrims, Moves, CgGen.CodeNot, CgGen.CodeMinus,
        CgGen.CodeUnary, ExpState, Compiled, Sane, Legal, Compile, Nodes, Height;
      tl, fl := [], [];
      ghost var fs, code0 := View(), code;
      PrefixIs(prims, fs, x, a);
      CompiledDesc(prims, fs, a);
      var e;
      e, tl, fl :- SubExpr(a);
      ghost var fs1, code1, y := View(), code, Abs(e, tl, fl);
      KindFacts(fs1, code1, e, tl, fl);
      if x.ENot? {
        r := CodeNot(e, tl, fl);
        tl, fl := fl, tl;
      } else if x.EMinus? {
        r := CodeMinus(e, tl, fl);
        tl, fl := [], [];
      } else {
        r := CodeUnary(false, e, tl, fl);
        tl, fl := [], [];
      }
      if r.Ok? {
        UnitLinks(fs, fs1, y, code0, code1, code);
      }
    }

    /** luaK_infix, for arithmetic and for comparisons: numerals wait to be folded. */
    method Infix(arith: bool, e: ExpDesc, ghost tl: seq<nat>, ghost fl: seq<nat>) returns (r: Result<ExpDesc, Error>)
      requires Valid() && Desc(View(), code, e, tl, fl)
      modifies this
      ensures r.Fail? ==> AtLimit()
      ensures |code| <= |old(code)| + 8 && |k| <= |old(k)| + 2 && freereg <= old(freereg) + 2
      ensures r.Ok? ==> var x := Abs(e, tl, fl);
                        var q := if arith && IsNumeral(x) then (old(View()), x) else Exp2RK(old(View()), x);
                        Valid() && View() == q.0 && Abs(r.value, [], []) == q.1
      ensures r.Ok? ==> Desc(View(), code, r.value, [], []) && Waits(Abs(r.value, [], []))
                        && (!arith ==> IsRK(Abs(r.value, [], [])))
      ensures r.Ok? ==> SameLinks(old(ac), old(code), code, Exits(Abs(e, tl, fl)) + SetOf(old(jlist)))
    {
      hide Rep, AllFit, IndexOk, IsList, Desc, Exp2RK, ExpState, IsRK;
      NoLists(View(), code, e, tl, fl);
      if arith && e.k.VKNum? && e.t == e.f {
        return Ok(e);
      }
      r := Exp2RKOperand(e, tl, fl);
    }

    lemma Shape()
      requires Valid()
      ensures |code| == |ac|
    {
    }

    /** The first operand of a binary operator, with luaK_infix. */
    method FirstExp(arith: bool, a: Expr) returns (r: Result<ExpDesc, Error>)
      requires Valid() && FsOk(View()) && GoodPrims(prims) && Legal(prims, a, nactvar)
      modifies this
      ensures r.Fail? ==> AtLimit()
      ensures |code| <= |old(code)| + 32 * Nodes(a) + 8 && |k| <= |old(k)| + 8 * Nodes(a) + 2
      ensures freereg <= old(freereg) + 8 + 3 * Height(a) && (r.Ok? ==> freereg <= old(freereg) + 3)
      ensures r.Ok? ==> Valid() && Desc(View(), code, r.value, [], []) && Waits(Abs(r.value, [], []))
                        && (!arith ==> IsRK(Abs(r.value, [], [])))
      ensures r.Ok? ==> (View(), Abs(r.value, [], [])) == FirstSpec(prims, old(View()), arith, a) && FsOk(View())
      ensures r.Ok? ==> Moves(old(View()), UNIT, View(), Abs(r.value, [], []))
                        && SameLinks(old(ac), old(code), code, SetOf(old(jlist)))
      decreases Nodes(a), 2
    {
      hide Rep, AllFit, IndexOk, IsList, FsOk, GoodPrims, Moves, Exp2RK, ExpState, Compiled, Sane, IsRK, Nodes,
        Height, Compile, Legal, Desc, SameLinks, Waits, AtLimit;
      ghost var fs, code0 := View(), code;
      CompiledDesc(prims, fs, a);
      ghost var tl, fl;
      var e1;
      e1, tl, fl :- SubExpr(a);
      ghost var fs1, code1, x1 := View(), code, Abs(e1, tl, fl);
      KindFacts(fs1, code1, e1, tl, fl);
      FirstRk(prims, fs, fs1, code1, e1, tl, fl);
      var e2 :- Infix(arith, e1, tl, fl);
      UnitLinks(fs, fs1, x1, code0, code1, code);
      KindFacts(View(), code, e2, [], []);
      StateFs(View(), Abs(e2, [], []));
      return Ok(e2);
    }

    /** The second operand, while the first one, `e2`, waits since the state `fs0`. */
    method SecondExp(ghost fs0: FS, ghost code0: seq<Inst>, ghost e2: ExpDesc, b: Expr)
      returns (r: Result<ExpDesc, Error>, ghost tl: seq<nat>, ghost fl: seq<nat>)
      requires Valid() && FsOk(View()) && GoodPrims(prims) && Legal(prims, b, nactvar)
      requires FsOk(fs0) && Moves(fs0, UNIT, View(), Abs(e2, [], [])) && Desc(View(), code, e2, [], [])
        && Waits(Abs(e2, [], []))
      requires SameLinks(fs0.code, code0, code, fs0.here) && |code0| == |fs0.code|
      modifies this
      ensures r.Fail? ==> AtLimit()
      ensures Taken(b, |old(code)|, |old(k)|, old(freereg)) && (r.Ok? ==> freereg <= old(freereg) + 1)
      ensures r.Ok? ==> Valid() && Desc(View(), code, r.value, tl, fl) && Waiting(View(), e2, Abs(r.value, tl, fl))
      ensures r.Ok? ==> (View(), Abs(r.value, tl, fl)) == Compile(prims, old(View()), b)
      ensures r.Ok? ==> Moves(fs0, UNIT, View(), Abs(r.value, tl, fl)) && SameLinks(fs0.code, code0, code, fs0.here)
      decreases Nodes(b), 2
    {
      hide Rep, AllFit, IndexOk, IsList, FsOk, GoodPrims, Moves, ExpState, Compiled, Sane, Waiting, Nodes, Height,
        Compile, Legal, Desc, SameLinks, Waits, AtLimit;
      tl, fl := [], [];
      ghost var fs2, code2 := View(), code;
      CompiledDesc(prims, fs2, b);
      var e3;
      e3, tl, fl :- SubExpr(b);
      FirstWaits(fs0, code0, fs2, code2, e2, View(), code, Abs(e3, tl, fl));
      return Ok(e3), tl, fl;
    }

    /** The operands of a binary operator */
    method Operands(arith: bool, a: Expr, b: Expr)
        returns (r: Result<(ExpDesc, ExpDesc), Error>, ghost tl: seq<nat>, ghost fl: seq<nat>)
      requires Valid() && FsOk(View()) && GoodPrims(prims) && Legal(prims, a, nactvar) && Legal(prims, b, nactvar)
      modifies this
      ensures r.Fail? ==> AtLimit()
      ensures TakenTwo(a, b, |old(code)|, |old(k)|, old(freereg)) && (r.Ok? ==> freereg <= old(freereg) + 4)
      ensures r.Ok? ==> Valid() && Desc(View(), code, r.value.1, tl, fl)
                        && Waiting(View(), r.value.0, Abs(r.value.1, tl, fl))
      ensures r.Ok? ==> (Abs(r.value.0, [], []), (View(), Abs(r.value.1, tl, fl)))
                        == OperandSpec(prims, old(View()), arith, a, b)
      ensures r.Ok? ==> !arith ==> IsRK(Abs(r.value.0, [], []))
      ensures r.Ok? ==> FsOk(old(View())) && Moves(old(View()), UNIT, View(), Abs(r.value.1, tl, fl))
      ensures r.Ok? ==> SameLinks(old(ac), old(code), code, SetOf(old(jlist)))
      decreases Larger(Nodes(a), Nodes(b)), 3
    {
      hide Valid, FsOk, GoodPrims, Moves, ExpState, IsRK, Waiting, Nodes, Height, Compile, Legal, Desc, SameLinks,
        Waits, AtLimit, Larger, FirstSpec, Taken, TakenTwo;
      LargerIs(Nodes(a), Nodes(b));
      tl, fl := [], [];
      ghost var fs, code0, k0, free0 := View(), code, k, freereg;
      Shape();
      var o := FirstExp(arith, a);
      OneTaken(a, b, |code0|, |k0|, free0);
      if o.Fail? {
        return Fail(o.error), tl, fl;
      }
      ghost var code1, k1, free1 := code, k, freereg;
      var o2;
      o2, tl, fl := SecondExp(fs, code0, o.value, b);
      TwoTaken(a, b, |code0|, |k0|, free0, |code1|, |k1|, free1);
      if o2.Fail? {
        return Fail(o2.error), tl, fl;
      }
      return Ok((o.value, o2.value)), tl, fl;
    }

    method ArithExp(op: ArithOp, a: Expr, b: Expr) returns (r: Result<ExpDesc, Error>)
      requires Valid() && FsOk(View()) && GoodPrims(prims) && Legal(prims, EArith(op, a, b), nactvar)
      modifies this
      ensures r.Fail? ==> AtLimit()
      ensures Taken(EArith(op, a, b), |old(code)|, |old(k)|, old(freereg))
      ensures r.Ok? ==> Valid() && View() == Compile(prims, old(View()), EArith(op, a, b)).0
                        && Abs(r.value, [], []) == Compile(prims, old(View()), EArith(op, a, b)).1
      ensures r.Ok? ==> Desc(View(), code, r.value, [], [])
      ensures r.Ok? ==> SameLinks(old(ac), old(code), code, SetOf(old(jlist)))
      decreases Nodes(EArith(op, a, b)), 0
    {
      SizesArith(op, a, b);
      OperandsArith(prims, View(), op, a, b);
      hide Rep, AllFit, IndexOk, IsList, Desc, FsOk, GoodPrims, Moves, CgGen.CodeArith, ExpState, Waiting, Nodes,
        Height, Compile, OperandSpec;
      ghost var fs, code0 := View(), code;
      var es;
      ghost var tl, fl;
      es, tl, fl :- Operands(true, a, b);
      ghost var fs3, code3, x3 := View(), code, Abs(es.1, tl, fl);
      r := CodeArith(op, es.0, es.1, tl, fl);
      if r.Ok? {
        UnitLinks(fs, fs3, x3, code0, code3, code);
      }
    }

    method CompExp(op: CompOp, a: Expr, b: Expr) returns (r: Result<ExpDesc, Error>)
      requires Valid() && FsOk(View()) && GoodPrims(prims) && Legal(prims, EComp(op, a, b), nactvar)
      modifies this
      ensures r.Fail? ==> AtLimit()
      ensures Taken(EComp(op, a, b), |old(code)|, |old(k)|, old(freereg))
      ensures r.Ok? ==> Valid() && View() == Compile(prims, old(View()), EComp(op, a, b)).0
                        && Abs(r.value, [], []) == Compile(prims, old(View()), EComp(op, a, b)).1
      ensures r.Ok? ==> Desc(View(), code, r.value, [], [])
      ensures r.Ok? ==> SameLinks(old(ac), old(code), code, SetOf(old(jlist)))
      decreases Nodes(EComp(op, a, b)), 0
    {
      SizesComp(op, a, b);
      OperandsComp(prims, View(), op, a, b);
      hide Rep, AllFit, IndexOk, IsList, Desc, FsOk, GoodPrims, Moves, CgGen.CodeComp, ExpState, Waiting, IsRK, Nodes,
        Height, Compile, OperandSpec;
      ghost var fs, code0 := View(), code;
      var es;
      ghost var tl, fl;
      es, tl, fl :- Operands(false, a, b);
      ghost var fs3, code3, x3 := View(), code, Abs(es.1, tl, fl);
      r := CodeComp(op, es.0, es.1, tl, fl);
      if r.Ok? {
        UnitLinks(fs, fs3, x3, code0, code3, code);
      }
    }

    /** The first operand of `and` or `or`, with luaK_infix; the result is the list of its exits. */
    method FirstGuard(cond: bool, a: Expr) returns (r: Result<int, Error>, ghost l: seq<nat>)
      requires Valid() && FsOk(View()) && GoodPrims(prims) && Legal(prims, a, nactvar)
      modifies this
      ensures r.Fail? ==> AtLimit()
      ensures |code| <= |old(code)| + 32 * Nodes(a) + 3 && |k| <= |old(k)| + 8 * Nodes(a) + 1
      ensures freereg <= old(freereg) + 9 + 3 * Height(a) && (r.Ok? ==> freereg <= old(freereg) + 2)
      ensures r.Ok? ==> var c := Compile(prims, old(View()), a);
                        (View(), SetOf(l)) == GoIf(c.0, c.1, cond)
      ensures r.Ok? ==> Valid() && FsOk(View()) && IsList(code, ac, r.value, l) && SetOf(l) !! SetOf(jlist)
      ensures r.Ok? ==> SameLinks(old(ac), old(code), code, SetOf(old(jlist)))
      ensures r.Ok? ==> OuterKept(old(ac), ac, SetOf(old(jlist)), SetOf(jlist))
      decreases Nodes(a), 2
    {
      hide Rep, AllFit, IndexOk, Desc, FsOk, GoodPrims, Moves, CgGen.GoIfTrue, CgGen.GoIfFalse, ExpState, Compiled,
        Sane, OuterKept, AllPending, IsList, Nodes, Height, Legal, Compile, SameLinks, AtLimit;
      l := [];
      ghost var fs, code0 := View(), code;
      CompiledDesc(prims, fs, a);
      var e1;
      ghost var tl, fl;
      e1, tl, fl :- SubExpr(a);
      ghost var fs1, code1, x1 := View(), code, Abs(e1, tl, fl);
      Shape();
      KindFacts(fs1, code1, e1, tl, fl);
      GoIfDesc(prims, cond, a, fs, fs1, x1);
      var list;
      if cond {
        list, l :- GoIfFalse(e1, tl, fl);
      } else {
        list, l :- GoIfTrue(e1, tl, fl);
      }
      UnitLinks(fs, fs1, x1, code0, code1, code);
      return Ok(list), l;
    }

    method LogicExp(cond: bool, a: Expr, b: Expr)
        returns (r: Result<ExpDesc, Error>, ghost tl: seq<nat>, ghost fl: seq<nat>)
      requires Valid() && FsOk(View()) && GoodPrims(prims) && Legal(prims, Logic(cond, a, b), nactvar)
      modifies this
      ensures r.Fail? ==> AtLimit()
      ensures Taken(Logic(cond, a, b), |old(code)|, |old(k)|, old(freereg))
      ensures r.Ok? ==> Valid() && View() == Compile(prims, old(View()), Logic(cond, a, b)).0
                        && Abs(r.value, tl, fl) == Compile(prims, old(View()), Logic(cond, a, b)).1
      ensures r.Ok? ==> Desc(View(), code, r.value, tl, fl)
      ensures r.Ok? ==> SameLinks(old(ac), old(code), code, SetOf(old(jlist)))
      decreases Nodes(Logic(cond, a, b)), 0
    {
      hide Valid, Desc, FsOk, GoodPrims, Moves, GoIf, ExpState, Compiled, Sane, OuterKept, AllPending, IsList, Nodes,
        Height, Legal, Compile, SameLinks, AtLimit, Larger;
      tl, fl := [], [];
      ghost var fs, code0 := View(), code;
      Shape();
      SizesLogic(cond, a, b);
      LogicIs(prims, fs, cond, a, b);
      LogicLegal(prims, cond, a, b, nactvar);
      CompiledDesc(prims, fs, Logic(cond, a, b));
      var list;
      ghost var l;
      list, l :- FirstGuard(cond, a);
      ghost var fs2, code2 := View(), code;
      Shape();
      CompiledDesc(prims, fs2, b);
      var e3;
      e3, tl, fl :- SubExpr(b);
      ghost var fs3, code3, x3 := View(), code, Abs(e3, tl, fl);
      Shape();
      KindFacts(fs3, code3, e3, tl, fl);
      SecondLists(fs2, code2, fs3, code3, x3, list, l);
      OuterLinks(fs.code, fs2.code, code0, code2, code3, fs.here, fs2.here);
      r := Posfix(cond, e3, list, tl, fl, l);
      if r.Ok? {
        ghost var y := Joined(cond, Discharge(x3), SetOf(l));
        JoinedOuter(fs, fs3, x3, y, cond, l, tl, fl);
        OuterLinks(fs.code, fs3.code, code0, code3, code, fs.here, SetOf(tl) + SetOf(fl));
        tl, fl := if cond then tl + l else tl, if cond then fl else fl + l;
      }
    }
  }

  /** The condition of the comparison before the jump at `pc` is inverted. */
  lemma InvertOk(k: seq<Val>, code: seq<Inst>, ac: Code, pc: nat, head: int, l: seq<nat>)
    requires Rep(k, code, ac) && AllFit(code) && IsList(code, ac, head, l) && 0 < pc < |code| && |code| == |ac|
      && ac[pc - 1].Cmp?
    ensures var i := code[pc - 1];
            && i.COMP?
            && var code' := code[pc - 1 := COMP(i.cmp, !i.cond, i.b, i.c)];
               Rep(k, code', Inverted(ac, pc)) && AllFit(code') && IsList(code', Inverted(ac, pc), head, l)
                 && |Inverted(ac, pc)| == |ac|
  {
    assert Means(k, code[pc - 1], ac[pc - 1], pc - 1) && FitsIn(code[pc - 1]);
    RepJumps(k, code, ac);
    var i := code[pc - 1];
    var code', ac' := code[pc - 1 := COMP(i.cmp, !i.cond, i.b, i.c)], Inverted(ac, pc);
    forall j | j in l
      ensures j < |code| && code'[j] == code[j] && IsPending(ac', j)
    {
      assert j in SetOf(l) && IsPending(ac, j);
    }
    LinkedKept(code, code', l);
  }

  /** While the second operand is compiled the first one waits. */
  lemma FirstWaits(fs: FS, code0: seq<Inst>, fs2: FS, code2: seq<Inst>, e2: ExpDesc, fs3: FS, code3: seq<Inst>, x3: Exp)
    requires FsOk(fs) && Moves(fs, UNIT, fs2, Abs(e2, [], [])) && Desc(fs2, code2, e2, [], []) && Waits(Abs(e2, [], []))
    requires Moves(fs2, UNIT, fs3, x3) && Room(fs3, x3) == fs2.free && |code0| == |fs.code| && |code2| == |fs2.code|
      && |code3| == |fs3.code|
    requires SameLinks(fs.code, code0, code2, fs.here) && SameLinks(fs2.code, code2, code3, fs2.here)
    ensures Waiting(fs3, e2, x3) && Moves(fs, UNIT, fs3, x3) && SameLinks(fs.code, code0, code3, fs.here)
  {
    hide FsOk, Moves, Desc, SameLinks, Waiting, Waits;
    var x2 := Abs(e2, [], []);
    KindFacts(fs2, code2, e2, [], []);
    OperandWaits(fs2, code2, e2, fs3, x3);
    LinksMore(fs2.code, code2, code3, fs2.here, Exits(x2) + fs2.here);
    UnitLinks(fs, fs2, x2, code0, code2, code3);
    BetweenMoves(fs, fs2, x2, fs3, x3);
  }

  /** The first operand, as luaK_infix leaves it. */
  function FirstSpec(p: Prims, fs: FS, arith: bool, a: Expr): (FS, Exp) {
    var r1 := Compile(p, fs, a);
    if arith && IsNumeral(r1.1) then r1 else Exp2RK(r1.0, r1.1)
  }

  /** ... and the second, with the state after it. */
  function OperandSpec(p: Prims, fs: FS, arith: bool, a: Expr, b: Expr): (Exp, (FS, Exp)) {
    var r2 := FirstSpec(p, fs, arith, a);
    (r2.1, Compile(p, r2.0, b))
  }

  lemma PrefixIs(p: Prims, fs: FS, x: Expr, a: Expr)
    requires x == ENot(a) || x == EMinus(a) || x == ELen(a)
    ensures var c := Compile(p, fs, a);
            Compile(p, fs, x) == if x.ENot? then CgGen.CodeNot(c.0, c.1)
                                 else if x.EMinus? then CgGen.CodeMinus(p, c.0, c.1)
                                 else CgGen.CodeUnary(c.0, false, c.1)
    ensures Nodes(x) == 1 + Nodes(a) && Height(x) == 1 + Height(a)
  {
    hide CgGen.CodeNot, CgGen.CodeMinus, CgGen.CodeUnary, CgGen.CodeArith, CgGen.CodeComp, Exp2RK;
  }

  lemma OperandsArith(p: Prims, fs: FS, op: ArithOp, a: Expr, b: Expr)
    ensures var o := OperandSpec(p, fs, true, a, b); Compile(p, fs, EArith(op, a, b))
                                                     == CgGen.CodeArith(p, o.1.0, op, o.0, o.1.1)
    ensures forall nact :: Legal(p, EArith(op, a, b), nact) ==> Legal(p, a, nact) && Legal(p, b, nact)
  {
    hide CgGen.CodeArith, Exp2RK, IsNumeral;
  }

  lemma OperandsComp(p: Prims, fs: FS, op: CompOp, a: Expr, b: Expr)
    ensures var o := OperandSpec(p, fs, false, a, b); Compile(p, fs, EComp(op, a, b))
                                                      == CgGen.CodeComp(o.1.0, op, o.0, o.1.1)
    ensures forall nact :: Legal(p, EComp(op, a, b), nact) ==> Legal(p, a, nact) && Legal(p, b, nact)
  {
    hide CgGen.CodeComp, Exp2RK, IsNumeral;
  }

  lemma LogicIs(p: Prims, fs: FS, cond: bool, a: Expr, b: Expr)
    ensures var r1 := Compile(p, fs, a);
            var g := GoIf(r1.0, r1.1, cond);
            var r3 := Compile(p, g.0, b);
            Compile(p, fs, Logic(cond, a, b)) == (r3.0, Joined(cond, Discharge(r3.1), g.1))
    ensures forall e, fs :: GoIf(fs, e, cond) == if cond then CgGen.GoIfFalse(fs, e) else CgGen.GoIfTrue(fs, e)
  {
    hide CgGen.GoIfTrue, CgGen.GoIfFalse, CgGen.CodeArith, CgGen.CodeComp, CgGen.CodeNot, CgGen.CodeMinus,
      CgGen.CodeUnary, Exp2RK, IsNumeral;
  }

  lemma SizesArith(op: ArithOp, a: Expr, b: Expr)
    ensures BinarySizes(EArith(op, a, b), a, b)
  {
  }

  lemma SizesComp(op: CompOp, a: Expr, b: Expr)
    ensures BinarySizes(EComp(op, a, b), a, b)
  {
  }

  lemma SizesLogic(cond: bool, a: Expr, b: Expr)
    ensures BinarySizes(Logic(cond, a, b), a, b)
  {
  }

  predicate BinarySizes(x: Expr, a: Expr, b: Expr) {
    && Nodes(x) == 1 + Nodes(a) + Nodes(b) && Larger(Nodes(a), Nodes(b)) < Nodes(x)
    && Height(x) == 1 + Larger(Height(a), Height(b)) && Larger(Height(a), Height(b)) >= Height(a)
      && Larger(Height(a), Height(b)) >= Height(b)
  }

  lemma LargerIs(a: nat, b: nat)
    ensures Larger(a, b) >= a && Larger(a, b) >= b
  {
  }
}

/**
  Instructions as lcode.c emits them, with lists of pending jumps threaded through the sBx field
  of the jumps themselves.
 */
module CgLinks {
  import opened Wrappers
  import opened CgSyntax
  import opened CgCode
  import opened CgGen

  const NO_JUMP: int := -1
  const BITRK: nat := 256
  const MAXARG_Bx: nat := 262143
  const MAXARG_sBx: int := 131071
  const MAXSTACK: nat := 250

  datatype Inst =
    | MOVE(a: nat, b: nat)
    | LOADK(a: nat, bx: nat)
    | LOADBOOL(a: nat, val: bool, skip: bool)
    | LOADNIL(a: nat, b: nat)
    | ARITH(op: ArithOp, a: nat, b: nat, c: nat)
    | UNM(a: nat, b: nat)
    | LEN(a: nat, b: nat)
    | NOT(a: nat, b: nat)
    | JMP(sbx: int)
    | COMP(cmp: CmpOp, cond: bool, b: nat, c: nat)
    | TEST(a: nat, cond: bool)
    | TESTSET(a: nat, b: nat, cond: bool)

  /** The fields of every instruction fit in it. */
  predicate FitsIn(i: Inst) {
    match i
    case MOVE(a, b) => a < 256 && b < 256
    case LOADK(a, bx) => a < 256 && bx <= MAXARG_Bx
    case LOADBOOL(a, _, _) => a < 256
    case LOADNIL(a, b) => a < 256 && b < 512
    case ARITH(_, a, b, c) => a < 256 && b < 512 && c < 512
    case UNM(a, b) => a < 256 && b < 512
    case LEN(a, b) => a < 256 && b < 256
    case NOT(a, b) => a < 256 && b < 256
    case JMP(sbx) => -MAXARG_sBx <= sbx <= MAXARG_sBx
    case COMP(_, _, b, c) => b < 512 && c < 512
    case TEST(a, _) => a < 256
    case TESTSET(a, b, _) => a < 256 && b < 256
  }

  predicate AllFit(code: seq<Inst>) {
    forall i :: 0 <= i < |code| ==> FitsIn(code[i])
  }

  /** `ISK`, `INDEXK`: an operand is a register, or the index of a constant. */
  predicate MeansRk(k: seq<Val>, n: nat, x: Rk) {
    match x
    case Reg(r) => n == r < BITRK
    case Const(v) => BITRK <= n < BITRK + |k| && k[n - BITRK] == v
  }

  /** What instruction `c`, at position `i`, stands for. */
  predicate Means(k: seq<Val>, c: Inst, a: Instr, i: nat) {
    match a
    case Set(r, rhs) => MeansSet(k, c, r, rhs)
    case LoadSkip(r, v) => c == LOADBOOL(r, v, true)
    case LoadNil(x, y) => c == LOADNIL(x, y)
    case Cmp(op, cond, x, y) => c.COMP? && c.cmp == op && c.cond == cond && MeansRk(k, c.b, x) && MeansRk(k, c.c, y)
    case Test(b, x) => c == TEST(b, x)
    case TestSet(r, b, x) => c == TESTSET(r, b, x)
    case Jmp(t) => c.JMP? && (t.To? ==> c.sbx == t.pc - (i + 1))
  }

  predicate MeansSet(k: seq<Val>, c: Inst, r: nat, rhs: Rhs) {
    match rhs
    case Copy(b) => c == MOVE(r, b)
    case Load(v) => (c.LOADK? && c.a == r && c.bx < |k| && k[c.bx] == v)
                    || (c.LOADBOOL? && c.a == r && !c.skip && v == Bool(c.val))
    case Bin(op, x, y) => c.ARITH? && c.op == op && c.a == r && MeansRk(k, c.b, x) && MeansRk(k, c.c, y)
    case Minus(b) => c == UNM(r, b)
    case Len(b) => c == LEN(r, b)
    case Not(b) => c == NOT(r, b)
  }

  ghost predicate Rep(k: seq<Val>, code: seq<Inst>, ac: Code) {
    |code| == |ac| && forall i :: 0 <= i < |code| ==> Means(k, code[i], ac[i], i)
  }

  lemma RepMore(k: seq<Val>, k': seq<Val>, code: seq<Inst>, ac: Code)
    requires Rep(k, code, ac) && k <= k'
    ensures Rep(k', code, ac)
  {
  }

  // ---------------------------------------------------------------- lists

  /** The sBx of a jump at `pc` to `dest`. */
  function Offset(pc: int, dest: int): int {
    dest - (pc + 1)
  }

  function SetOf(l: seq<nat>): set<nat> {
    set j | j in l
  }

  /** getjump */
  function GetJump(code: seq<Inst>, pc: nat): int
    requires pc < |code| && code[pc].JMP?
  {
    if code[pc].sbx == NO_JUMP then NO_JUMP else pc + 1 + code[pc].sbx
  }

  predicate NoDup(l: seq<nat>) {
    forall i, j :: 0 <= i < j < |l| ==> l[i] != l[j]
  }

  function Head(l: seq<nat>): int {
    if l == [] then NO_JUMP else l[0]
  }

  /** The jumps of `l`, all different, are linked in that order and end with NO_JUMP. */
  ghost predicate Linked(code: seq<Inst>, l: seq<nat>) {
    && NoDup(l)
    && (forall i :: 0 <= i < |l| ==> l[i] < |code| && code[l[i]].JMP?)
    && (forall i :: 0 <= i < |l| - 1 ==> GetJump(code, l[i]) == l[i + 1])
    && (l != [] ==> GetJump(code, l[|l| - 1]) == NO_JUMP)
  }

  /** `head` starts the list `l` of pending jumps. */
  ghost predicate IsList(code: seq<Inst>, ac: Code, head: int, l: seq<nat>) {
    head == Head(l) && Linked(code, l) && |code| == |ac| && AllPending(ac, SetOf(l))
  }

  /** Jumps outside `own` keep their links. */
  ghost predicate SameLinks(ac: Code, code: seq<Inst>, code': seq<Inst>, own: set<nat>) {
    forall j: nat :: IsPending(ac, j) && j !in own && j < |code| ==> j < |code'| && code'[j] == code[j]
  }

  lemma LinkedTail(code: seq<Inst>, l: seq<nat>)
    requires Linked(code, l) && l != []
    ensures Linked(code, l[1..]) && l[0] !in l[1..] && GetJump(code, l[0]) == Head(l[1..])
    ensures SetOf(l) == SetOf(l[1..]) + {l[0]}
  {
    assert l == [l[0]] + l[1..];
  }

  lemma LinkedKept(code: seq<Inst>, code': seq<Inst>, l: seq<nat>)
    requires Linked(code, l) && forall j :: j in l ==> j < |code'| && j < |code| && code'[j] == code[j]
    ensures Linked(code', l)
  {
    forall i | 0 <= i < |l|
      ensures l[i] < |code'| && code'[l[i]] == code[l[i]]
    {
      assert l[i] in l;
    }
  }

  lemma SetOfConcat(a: seq<nat>, b: seq<nat>)
    ensures SetOf(a + b) == SetOf(a) + SetOf(b)
  {
  }

  /** The last jump of `a` is linked to the first of `b`. */
  lemma LinkedConcat(code: seq<Inst>, code': seq<Inst>, a: seq<nat>, b: seq<nat>)
    requires Linked(code, a) && Linked(code, b) && a != [] && b != [] && SetOf(a) !! SetOf(b)
    requires |code'| == |code| && (forall j :: 0 <= j < |code| && j != a[|a| - 1] ==> code'[j] == code[j])
    requires code'[a[|a| - 1]] == JMP(Offset(a[|a| - 1], b[0]))
    ensures Linked(code', a + b)
  {
    var z := a[|a| - 1];
    var l := a + b;
    forall i, j | 0 <= i < j < |l|
      ensures l[i] != l[j]
    {
      assert l[i] in a || l[i] in b;
      assert l[j] in a || l[j] in b;
      if i < |a| && j >= |a| {
        assert l[i] in SetOf(a) && l[j] in SetOf(b);
      }
    }
    assert b[0] in SetOf(b) && z in SetOf(a);
    forall i | 0 <= i < |l|
      ensures l[i] < |code'| && code'[l[i]].JMP?
      ensures l[i] != z ==> code'[l[i]] == code[l[i]]
      ensures i < |a| - 1 || i >= |a| ==> l[i] != z
    {
      if i < |a| {
        assert l[i] == a[i];
      } else {
        assert l[i] == b[i - |a|] && l[i] in SetOf(b);
      }
    }
    forall i | 0 <= i < |l| - 1
      ensures GetJump(code', l[i]) == l[i + 1]
    {
      if i < |a| - 1 {
        assert GetJump(code, a[i]) == a[i + 1];
      } else if i >= |a| {
        assert GetJump(code, b[i - |a|]) == b[i - |a| + 1];
      }
    }
    assert GetJump(code', b[|b| - 1]) == NO_JUMP;
  }

  // ---------------------------------------------------------------- controls

  /** `testTMode` */
  predicate TestMode(i: Inst) {
    i.COMP? || i.TEST? || i.TESTSET?
  }

  /** getjumpcontrol: the position of the instruction that controls a jump */
  function Control(code: seq<Inst>, pc: nat): nat
    requires pc < |code|
  {
    if pc >= 1 && TestMode(code[pc - 1]) then pc - 1 else pc
  }

  lemma ControlValued(k: seq<Val>, code: seq<Inst>, ac: Code, pc: nat)
    requires Rep(k, code, ac) && pc < |code| && IsPending(ac, pc)
    ensures code[Control(code, pc)].TESTSET? <==> Valued(ac, pc)
    ensures Valued(ac, pc) ==> pc > 0 && Control(code, pc) == pc - 1
                               && ac[pc - 1] == TestSet(code[pc - 1].a, code[pc - 1].b, code[pc - 1].cond)
  {
    assert Means(k, code[pc], ac[pc], pc);
    if pc > 0 {
      assert Means(k, code[pc - 1], ac[pc - 1], pc - 1);
    }
  }

  function RegOpt(reg: nat): Option<nat> {
    if reg == NO_REG then None else Some(reg)
  }

  /** One more jump of a list is patched. */
  lemma PatchOne(ac: Code, l: set<nat>, j: nat, vt: nat, reg: Option<nat>, dt: nat)
    requires j !in l && IsPending(ac, j) && AllPending(ac, l)
    ensures var c := Patched(ac, l, vt, reg, dt);
            var c' := Patched(ac, l + {j}, vt, reg, dt);
            && Valued(c, j) == Valued(ac, j) && IsPending(c, j)
            && (Valued(ac, j) ==> c[j - 1] == ac[j - 1] && c' == c[j - 1 := Retested(ac[j - 1], reg)][j := Jmp(To(vt))])
            && (!Valued(ac, j) ==> c' == c[j := Jmp(To(dt))])
  {
    var c := Patched(ac, l, vt, reg, dt);
    var c' := Patched(ac, l + {j}, vt, reg, dt);
    assert c[j] == PatchedAt(ac, l, vt, reg, dt, j);
    if j > 0 {
      assert c[j - 1] == PatchedAt(ac, l, vt, reg, dt, j - 1);
    }
    forall i | 0 <= i < |ac|
      ensures i != j && !(i == j - 1 && Valued(ac, j)) ==> c'[i] == c[i]
      ensures i == j - 1 && Valued(ac, j) ==> c'[i] == Retested(ac[i], reg)
    {
      assert c[i] == PatchedAt(ac, l, vt, reg, dt, i);
      assert c'[i] == PatchedAt(ac, l + {j}, vt, reg, dt, i);
    }
  }

  lemma WithoutOne(ac: Code, l: set<nat>, j: nat)
    requires j !in l && IsPending(ac, j)
    ensures var c := WithoutValues(ac, l);
            var c' := WithoutValues(ac, l + {j});
            && Valued(c, j) == Valued(ac, j) && IsPending(c, j)
            && (Valued(ac, j) ==> c[j - 1] == ac[j - 1] && c' == c[j - 1 := Retested(ac[j - 1], None)])
            && (!Valued(ac, j) ==> c' == c)
  {
    var c, c' := WithoutValues(ac, l), WithoutValues(ac, l + {j});
    assert forall i :: 0 <= i < |ac| && i != j - 1 ==> c[i] == c'[i];
  }
}

/**
  The code generator (lcode.c), on code whose lists of pending jumps are sets.

  `here` is the list `jpc` of jumps to the next instruction, `last` is `lasttarget`, `free` is
  `freereg` and `nact` is `nactvar`.
 */
module CgGen {
  import opened Wrappers
  import opened CgSyntax
  import opened CgCode

  const NO_REG: nat := 255
  const MAXINDEXRK: nat := 255

  datatype FS = FS(code: Code, here: set<nat>, last: int, free: nat, k: seq<Val>, nact: nat)

  datatype Kind =
    | VNil
    | VTrue
    | VFalse
    | VK(info: nat)
    | VKNum(n: Number)
    | VLocal(r: nat)
    | VJmp(pc: nat)
    | VReloc(pc: nat)
    | VNonReloc(r: nat)

  /** `t` and `f` are the lists of exits when true and when false. */
  datatype Exp = Exp(k: Kind, t: set<nat>, f: set<nat>)

  predicate HasJumps(e: Exp) {
    e.t != {} || e.f != {}
  }

  predicate IsNumeral(e: Exp) {
    e.k.VKNum? && !HasJumps(e)
  }

  // ---------------------------------------------------------------- emitting

  /** dischargejpc: the jumps to here are sent here, without a value. */
  function PatchedHere(fs: FS): Code {
    Patched(fs.code, fs.here, |fs.code|, None, |fs.code|)
  }

  function Emit(fs: FS, i: Instr): FS {
    fs.(code := PatchedHere(fs) + [i], here := {})
  }

  /** luaK_jump: the jumps to here join the new one, which is returned with them by JumpList. */
  function EmitJump(fs: FS): FS {
    fs.(code := fs.code + [Jmp(Pending)], here := {})
  }

  function JumpList(fs: FS): set<nat> {
    fs.here + {|fs.code|}
  }

  /** condjump */
  function CondJump(fs: FS, test: Instr): FS {
    EmitJump(Emit(fs, test))
  }

  /** luaK_getlabel */
  function Label(fs: FS): FS {
    fs.(last := |fs.code|)
  }

  /** luaK_patchtohere */
  function PatchHere(fs: FS, l: set<nat>): FS {
    fs.(last := |fs.code|, here := fs.here + l)
  }

  function Reserve(fs: FS): FS {
    fs.(free := fs.free + 1)
  }

  function FreeExp(fs: FS, e: Exp): FS {
    if e.k.VNonReloc? && e.k.r >= fs.nact && fs.free > 0 then fs.(free := fs.free - 1) else fs
  }

  function Extends(fs: FS, reg: nat): bool {
    |fs.code| > 0 && var prev := fs.code[|fs.code| - 1]; prev.LoadNil? && prev.a <= reg <= prev.b + 1
  }

  /** luaK_nil for one register: nothing at the start of a function, or one more register for a LOADNIL just before. */
  function LoadNilInto(fs: FS, reg: nat): FS {
    var n := |fs.code|;
    if n > fs.last && n == 0 && reg >= fs.nact then fs
    else if n > fs.last && Extends(fs, reg) then
      var prev := fs.code[n - 1];
      fs.(code := fs.code[..n - 1] + [LoadNil(prev.a, if reg > prev.b then reg else prev.b)])
    else Emit(fs, LoadNil(reg, reg))
  }

  // ---------------------------------------------------------------- constants

  function IndexOf(k: seq<Val>, v: Val): (i: nat)
    ensures i <= |k| && (i < |k| ==> k[i] == v) && (i == |k| ==> v !in k)
  {
    if k == [] then 0 else if k[0] == v then 0 else 1 + IndexOf(k[1..], v)
  }

  /** addk: a constant is stored once. */
  function AddK(fs: FS, v: Val): FS {
    if v in fs.k then fs else fs.(k := fs.k + [v])
  }

  function KVal(fs: FS, i: nat): Val {
    if i < |fs.k| then fs.k[i] else Nil
  }

  // ---------------------------------------------------------------- putting expressions into registers

  /** luaK_dischargevars */
  function Discharge(e: Exp): Exp {
    if e.k.VLocal? then e.(k := VNonReloc(e.k.r)) else e
  }

  function Retarget(code: Code, i: nat, reg: nat): Code {
    if i < |code| && code[i].Set? then code[i := Set(reg, code[i].rhs)] else code
  }

  /** discharge2reg, the code it leaves */
  function Discharge2Reg(fs: FS, e: Exp, reg: nat): FS {
    match Discharge(e).k
    case VNil => LoadNilInto(fs, reg)
    case VFalse => Emit(fs, Set(reg, Load(Bool(false))))
    case VTrue => Emit(fs, Set(reg, Load(Bool(true))))
    case VK(i) => Emit(fs, Set(reg, Load(KVal(fs, i))))
    case VKNum(n) => Emit(AddK(fs, Num(n)), Set(reg, Load(Num(n))))
    case VReloc(i) => fs.(code := Retarget(fs.code, i, reg))
    case VNonReloc(r) => if r != reg then Emit(fs, Set(reg, Copy(r))) else fs
    case _ => fs
  }

  function InReg(e: Exp, reg: nat): Exp {
    if e.k.VJmp? then e else e.(k := VNonReloc(reg))
  }

  /** discharge2anyreg */
  function Discharge2Any(fs: FS, e: Exp): (FS, Exp) {
    if e.k.VNonReloc? then (fs, e) else (Discharge2Reg(Reserve(fs), e, fs.free), InReg(e, fs.free))
  }

  predicate NeedValue(code: Code, l: set<nat>) {
    exists j :: j in l && !Valued(code, j)
  }

  /** The end of exp2reg: jumps with a value go to the end, the others to where one is loaded. */
  function PatchValues(fs: FS, t: set<nat>, f: set<nat>, reg: nat, pf: nat, pt: nat): FS {
    var final := |fs.code|;
    fs.(code := Patched(Patched(fs.code, f, final, Some(reg), pf), t, final, Some(reg), pt), last := final)
  }

  /** The places where exp2reg loads false and true, after a jump over them. */
  function LoadBools(fs: FS, jump: bool, reg: nat): FS {
    var j := if jump then JumpList(fs) else {};
    var fs1 := if jump then EmitJump(fs) else fs;
    var fs2 := Emit(Label(fs1), LoadSkip(reg, false));
    var fs3 := Emit(Label(fs2), Set(reg, Load(Bool(true))));
    PatchHere(fs3, j)
  }

  function TrueList(e: Exp): set<nat> {
    if e.k.VJmp? then e.t + {e.k.pc} else e.t
  }

  function Exp2Reg(fs: FS, e: Exp, reg: nat): FS {
    var fs1 := Discharge2Reg(fs, e, reg);
    var t := TrueList(e);
    if t == {} && e.f == {} then fs1
    else if NeedValue(fs1.code, t) || NeedValue(fs1.code, e.f) then
      var fs2 := LoadBools(fs1, !e.k.VJmp?, reg);
      var n := |fs2.code|;
      PatchValues(fs2, t, e.f, reg, n - 2, n - 1)
    else PatchValues(fs1, t, e.f, reg, |fs1.code|, |fs1.code|)
  }

  function Fixed(reg: nat): Exp {
    Exp(VNonReloc(reg), {}, {})
  }

  /** luaK_exp2nextreg */
  function Exp2Next(fs: FS, e: Exp): (FS, Exp) {
    var fs1 := FreeExp(fs, Discharge(e));
    (Exp2Reg(Reserve(fs1), Discharge(e), fs1.free), Fixed(fs1.free))
  }

  /** luaK_exp2anyreg */
  function Exp2Any(fs: FS, e: Exp): (FS, Exp) {
    var e1 := Discharge(e);
    if e1.k.VNonReloc? && !HasJumps(e1) then (fs, e1)
    else if e1.k.VNonReloc? && e1.k.r >= fs.nact then (Exp2Reg(fs, e1, e1.k.r), Fixed(e1.k.r))
    else Exp2Next(fs, e1)
  }

  /** luaK_exp2val */
  function Exp2Val(fs: FS, e: Exp): (FS, Exp) {
    if HasJumps(e) then Exp2Any(fs, e) else (fs, Discharge(e))
  }

  /** The value of a constant expression that luaK_exp2RK may still have to put among the constants. */
  function Literal(k: Kind): Option<Val> {
    match k
    case VNil => Some(Nil)
    case VTrue => Some(Bool(true))
    case VFalse => Some(Bool(false))
    case VKNum(n) => Some(Num(n))
    case _ => None
  }

  function Exp2RK(fs: FS, e: Exp): (FS, Exp) {
    var r := Exp2Val(fs, e);
    var lit := Literal(r.1.k);
    if lit.Some? && |r.0.k| <= MAXINDEXRK then
      (AddK(r.0, lit.value), r.1.(k := VK(IndexOf(r.0.k, lit.value))))
    else if r.1.k.VK? && r.1.k.info <= MAXINDEXRK then r
    else Exp2Any(r.0, r.1)
  }

  /** The operand that luaK_exp2RK returns for the expression it leaves. */
  function RkOf(fs: FS, e: Exp): Rk {
    match e.k
    case VK(i) => Const(KVal(fs, i))
    case VNonReloc(r) => Reg(r)
    case _ => Const(Nil)
  }

  // ---------------------------------------------------------------- conditions

  predicate EndsInNot(fs: FS, e: Exp) {
    e.k.VReloc? && e.k.pc < |fs.code| && fs.code[e.k.pc].Set? && fs.code[e.k.pc].rhs.Not?
  }

  /** jumponcond: the new jump is the last instruction. */
  function JumpOnCond(fs: FS, e: Exp, cond: bool): FS {
    if EndsInNot(fs, e) then
      CondJump(fs.(code := fs.code[..e.k.pc]), Test(fs.code[e.k.pc].rhs.b, !cond))
    else
      var r := Discharge2Any(fs, e);
      CondJump(FreeExp(r.0, r.1), TestSet(NO_REG, if r.1.k.VNonReloc? then r.1.k.r else 0, cond))
  }

  /** invertjump */
  function Inverted(code: Code, pc: nat): Code {
    if 0 < pc <= |code| && code[pc - 1].Cmp? then
      var i := code[pc - 1];
      code[pc - 1 := Cmp(i.op, !i.cond, i.x, i.y)]
    else code
  }

  /** luaK_goiftrue: control goes on when the value is true; the result is the list of exits when it is false. */
  function GoIfTrue(fs: FS, e: Exp): (FS, set<nat>) {
    if e.k.VK? || e.k.VKNum? || e.k.VTrue? then (PatchHere(fs, e.t), e.f)
    else if e.k.VJmp? then (PatchHere(fs.(code := Inverted(fs.code, e.k.pc)), e.t), e.f + {e.k.pc})
    else
      var fs1 := JumpOnCond(fs, Discharge(e), false);
      (PatchHere(fs1, e.t), e.f + {|fs1.code| - 1})
  }

  /** luaK_goiffalse */
  function GoIfFalse(fs: FS, e: Exp): (FS, set<nat>) {
    if e.k.VNil? || e.k.VFalse? then (PatchHere(fs, e.f), e.t)
    else if e.k.VJmp? then (PatchHere(fs, e.f), e.t + {e.k.pc})
    else
      var fs1 := JumpOnCond(fs, Discharge(e), true);
      (PatchHere(fs1, e.f), e.t + {|fs1.code| - 1})
  }

  /** The exits change places, and no longer produce their operands. */
  function SwapExits(fs: FS, e: Exp): (FS, Exp) {
    (fs.(code := WithoutValues(WithoutValues(fs.code, e.t), e.f)), Exp(e.k, e.f, e.t))
  }

  /** codenot */
  function CodeNot(fs: FS, e: Exp): (FS, Exp) {
    var e1 := Discharge(e);
    match e1.k
    case VNil => SwapExits(fs, e1.(k := VTrue))
    case VFalse => SwapExits(fs, e1.(k := VTrue))
    case VK(_) => SwapExits(fs, e1.(k := VFalse))
    case VKNum(_) => SwapExits(fs, e1.(k := VFalse))
    case VTrue => SwapExits(fs, e1.(k := VFalse))
    case VJmp(pc) => SwapExits(fs.(code := Inverted(fs.code, pc)), e1)
    case _ =>
      var r := Discharge2Any(fs, e1);
      var fs1 := FreeExp(r.0, r.1);
      var fs2 := Emit(fs1, Set(0, Not(if r.1.k.VNonReloc? then r.1.k.r else 0)));
      SwapExits(fs2, e1.(k := VReloc(|fs1.code|)))
  }

  // ---------------------------------------------------------------- operators

  /** constfolding, for binary operators: not when it would divide by zero, or give NaN */
  function Folded(p: Prims, op: ArithOp, e1: Exp, e2: Exp): Option<Number> {
    if !IsNumeral(e1) || !IsNumeral(e2) then None
    else if (op == Div || op == Mod) && p.zero(e2.k.n) then None
    else
      var n := p.num(op, e1.k.n, e2.k.n);
      if p.nan(n) then None else Some(n)
  }

  /** codearith, for binary operators */
  function CodeArith(p: Prims, fs: FS, op: ArithOp, e1: Exp, e2: Exp): (FS, Exp) {
    var n := Folded(p, op, e1, e2);
    if n.Some? then (fs, e1.(k := VKNum(n.value)))
    else
      var r2 := Exp2RK(fs, e2);
      var r1 := Exp2RK(r2.0, e1);
      var fs1 := FreeExp(FreeExp(r1.0, r1.1), r2.1);
      (Emit(fs1, Set(0, Bin(op, RkOf(r1.0, r1.1), RkOf(r1.0, r2.1)))), Exp(VReloc(|fs1.code|), {}, {}))
  }

  /** codearith, for OP_UNM and OP_LEN: the operand is in a register */
  function CodeUnary(fs: FS, minus: bool, e: Exp): (FS, Exp) {
    var r := Exp2Any(fs, e);
    var fs1 := FreeExp(r.0, r.1);
    var b := if r.1.k.VNonReloc? then r.1.k.r else 0;
    (Emit(fs1, Set(0, if minus then Minus(b) else Len(b))), Exp(VReloc(|fs1.code|), {}, {}))
  }

  /** codecomp: `>` and `>=` exchange their operands, and `~=` is an OP_EQ that jumps when it fails. */
  function CompTest(op: CompOp, x: Rk, y: Rk): Instr {
    match op
    case EQ => Cmp(Eq, true, x, y)
    case NE => Cmp(Eq, false, x, y)
    case LT => Cmp(Lt, true, x, y)
    case LE => Cmp(Le, true, x, y)
    case GT => Cmp(Lt, true, y, x)
    case GE => Cmp(Le, true, y, x)
  }

  function CodeComp(fs: FS, op: CompOp, e1: Exp, e2: Exp): (FS, Exp) {
    var r1 := Exp2RK(fs, e1);
    var r2 := Exp2RK(r1.0, e2);
    var fs1 := FreeExp(FreeExp(r2.0, r2.1), r1.1);
    var fs2 := CondJump(fs1, CompTest(op, RkOf(r2.0, r1.1), RkOf(r2.0, r2.1)));
    (fs2, Exp(VJmp(|fs1.code| + 1), {}, {}))
  }

  /** An operand as codearith writes it, constants above the registers. */
  function OperandCode(e: Exp): nat {
    match e.k
    case VK(i) => MAXINDEXRK + 1 + i
    case VNonReloc(r) => r
    case _ => 0
  }

  /** luaK_prefix, OPR_MINUS: a numeral that cannot be folded would become an operand among the constants. */
  function CodeMinus(p: Prims, fs: FS, e: Exp): (FS, Exp) {
    if IsNumeral(e) then
      if !p.nan(p.neg(e.k.n)) then (fs, e.(k := VKNum(p.neg(e.k.n))))
      else
        var r := Exp2RK(fs, e);
        var fs1 := FreeExp(r.0, r.1);
        (Emit(fs1, Set(0, Minus(OperandCode(r.1)))), Exp(VReloc(|fs1.code|), {}, {}))
    else CodeUnary(fs, true, e)
  }

  // ---------------------------------------------------------------- expressions

  function Leaf(k: Kind): Exp {
    Exp(k, {}, {})
  }

  /** subexpr, with luaK_prefix, luaK_infix and luaK_posfix, along the syntax tree of the expression */
  function Compile(p: Prims, fs: FS, x: Expr): (FS, Exp)
    decreases x
  {
    match x
    case ENil => (fs, Leaf(VNil))
    case ETrue => (fs, Leaf(VTrue))
    case EFalse => (fs, Leaf(VFalse))
    case ENum(n) => (fs, Leaf(VKNum(n)))
    case EStr(s) => (AddK(fs, Str(s)), Leaf(VK(IndexOf(fs.k, Str(s)))))
    case ELocal(r) => (fs, Leaf(VLocal(r)))
    case EParen(a) =>
      var r := Compile(p, fs, a);
      (r.0, Discharge(r.1))
    case ENot(a) =>
      var r := Compile(p, fs, a);
      CodeNot(r.0, r.1)
    case EMinus(a) =>
      var r := Compile(p, fs, a);
      CodeMinus(p, r.0, r.1)
    case ELen(a) =>
      var r := Compile(p, fs, a);
      CodeUnary(r.0, false, r.1)
    case EArith(op, a, b) =>
      var r1 := Compile(p, fs, a);
      var r2 := if IsNumeral(r1.1) then r1 else Exp2RK(r1.0, r1.1);
      var r3 := Compile(p, r2.0, b);
      CodeArith(p, r3.0, op, r2.1, r3.1)
    case EComp(op, a, b) =>
      var r1 := Compile(p, fs, a);
      var r2 := Exp2RK(r1.0, r1.1);
      var r3 := Compile(p, r2.0, b);
      CodeComp(r3.0, op, r2.1, r3.1)
    case EAnd(a, b) =>
      var r1 := Compile(p, fs, a);
      var r2 := GoIfTrue(r1.0, r1.1);
      var r3 := Compile(p, r2.0, b);
      var e := Discharge(r3.1);
      (r3.0, e.(f := e.f + r2.1))
    case EOr(a, b) =>
      var r1 := Compile(p, fs, a);
      var r2 := GoIfFalse(r1.0, r1.1);
      var r3 := Compile(p, r2.0, b);
      var e := Discharge(r3.1);
      (r3.0, e.(t := e.t + r2.1))
  }
}

/**
  Code as the generator sees it while jumps are still unresolved, and what running it does
  (lvm.c, the cases of luaV_execute for the instructions that expressions use).

  An unresolved jump is `Pending`: a run that takes it leaves the code by that exit.  A
  TESTSET whose jump is pending assigns nothing yet, since its register is not chosen.
 */
module CgCode {
  import opened Wrappers
  import opened CgSyntax

  datatype Rk = Reg(r: nat) | Const(v: Val)

  datatype Target = To(pc: nat) | Pending

  /** What an instruction of the form R(A) := ... computes. */
  datatype Rhs =
    | Copy(b: nat)
    | Load(v: Val)
    | Bin(op: ArithOp, x: Rk, y: Rk)
    | Minus(b: nat)
    | Len(b: nat)
    | Not(b: nat)

  datatype Instr =
    | Set(a: nat, rhs: Rhs)
      /** LOADBOOL with C = 1 */
    | LoadSkip(a: nat, val: bool)
    | LoadNil(a: nat, b: nat)
    | Cmp(op: CmpOp, cond: bool, x: Rk, y: Rk)
    | Test(b: nat, c: bool)
    | TestSet(a: nat, b: nat, c: bool)
    | Jmp(target: Target)

  type Code = seq<Instr>

  /** `testTMode`: the next instruction is a jump, which this one controls. */
  predicate IsTest(i: Instr) {
    i.Cmp? || i.Test? || i.TestSet?
  }

  function RkVal(x: Rk, r: Regs): Val {
    match x
    case Reg(i) => Get(r, i)
    case Const(v) => v
  }

  function RhsVal(p: Prims, rhs: Rhs, r: Regs): Option<Val> {
    match rhs
    case Copy(b) => Some(Get(r, b))
    case Load(v) => Some(v)
    case Bin(op, x, y) => Arith(p, op, RkVal(x, r), RkVal(y, r))
    case Minus(b) => Unm(p, Get(r, b))
    case Len(b) => p.len(Get(r, b))
    case Not(b) => Some(Bool(Falsy(Get(r, b))))
  }

  function Nils(r: Regs, a: nat, b: nat): Regs {
    map i | i in r && !(a <= i <= b) :: r[i]
  }

  // ---------------------------------------------------------------- running code

  /** Control reaches the end of the code, leaves it by a pending jump, or fails. */
  datatype Outcome = Fall(r: Regs) | Exit(j: nat, r: Regs) | Err

  datatype Next = Go(pc: nat, r: Regs) | Stop(o: Outcome)

  function Take(code: Code, j: nat, r: Regs): Next {
    if j >= |code| || !code[j].Jmp? then Stop(Err)
    else match code[j].target
      case Pending => Stop(Exit(j, r))
      case To(n) => Go(n, r)
  }

  predicate IsPending(code: Code, j: nat) {
    j < |code| && code[j] == Jmp(Pending)
  }

  function Step(p: Prims, code: Code, pc: nat, r: Regs): Next
    requires pc < |code|
  {
    match code[pc]
    case Set(a, rhs) =>
      (match RhsVal(p, rhs, r)
       case None => Stop(Err)
       case Some(v) => Go(pc + 1, r[a := v]))
    case LoadSkip(a, v) => Go(pc + 2, r[a := Bool(v)])
    case LoadNil(a, b) => Go(pc + 1, Nils(r, a, b))
    case Cmp(op, cond, x, y) =>
      (match p.cmp(op, RkVal(x, r), RkVal(y, r))
       case None => Stop(Err)
       case Some(res) => if res == cond then Take(code, pc + 1, r) else Go(pc + 2, r))
    case Test(b, c) => if Falsy(Get(r, b)) != c then Take(code, pc + 1, r) else Go(pc + 2, r)
    case TestSet(a, b, c) =>
      if Falsy(Get(r, b)) != c then
        Take(code, pc + 1, if IsPending(code, pc + 1) then r else r[a := Get(r, b)])
      else Go(pc + 2, r)
    case Jmp(_) => Take(code, pc, r)
  }

  function Exec(p: Prims, code: Code, pc: nat, r: Regs): Outcome
    decreases |code| - pc
  {
    if pc == |code| then Fall(r)
    else if pc > |code| then Err
    else match Step(p, code, pc, r)
      case Stop(o) => o
      case Go(n, r1) => if n <= pc then Err else Exec(p, code, n, r1)
  }

  // ---------------------------------------------------------------- well-formed code

  /** `pc` is not the jump that a test controls. */
  predicate IsEntry(code: Code, pc: nat) {
    pc <= |code| && !(pc > 0 && IsTest(code[pc - 1]))
  }

  /** `last` is the latest position that something jumps to. */
  predicate FormedAt(code: Code, last: int, i: nat)
    requires i < |code|
  {
    && (IsTest(code[i]) ==> i + 1 < |code| && code[i + 1].Jmp?)
    && (code[i].LoadSkip? ==> i + 2 <= last && IsEntry(code, i + 2))
    && (code[i].Jmp? && code[i].target.To? ==> i < code[i].target.pc <= last && IsEntry(code, code[i].target.pc))
  }

  ghost predicate Formed(code: Code, last: int) {
    last <= |code| && forall i :: 0 <= i < |code| ==> FormedAt(code, last, i)
  }

  lemma {:induction false} ExecExits(p: Prims, code: Code, pc: nat, r: Regs)
    ensures var o := Exec(p, code, pc, r); o.Exit? ==> pc <= o.j < |code| && IsPending(code, o.j)
    decreases |code| - pc
  {
    if pc < |code| {
      var s := Step(p, code, pc, r);
      if s.Go? && s.pc > pc {
        ExecExits(p, code, s.pc, s.r);
      }
    }
  }

  lemma StepForward(p: Prims, code: Code, last: int, pc: nat, r: Regs)
    requires Formed(code, last) && pc < |code|
    ensures var s := Step(p, code, pc, r); s.Go? ==> pc < s.pc && IsEntry(code, s.pc)
  {
    assert FormedAt(code, last, pc);
    if IsTest(code[pc]) {
      assert FormedAt(code, last, pc + 1);
    }
  }

  lemma StepAppend(p: Prims, code: Code, last: int, s: Code, pc: nat, r: Regs)
    requires Formed(code, last) && pc < |code|
    ensures Step(p, code + s, pc, r) == Step(p, code, pc, r)
  {
    assert FormedAt(code, last, pc);
    assert IsTest(code[pc]) ==> (code + s)[pc + 1] == code[pc + 1];
  }

  /** Code appended at the end runs after what was there. */
  lemma {:induction false} ExecAppend(p: Prims, code: Code, last: int, s: Code, pc: nat, r: Regs)
    requires Formed(code, last) && pc <= |code|
    ensures var o := Exec(p, code, pc, r);
            Exec(p, code + s, pc, r) == if o.Fall? then Exec(p, code + s, |code|, o.r) else o
    decreases |code| - pc
  {
    if pc < |code| {
      StepAppend(p, code, last, s, pc, r);
      StepForward(p, code, last, pc, r);
      hide Step, Formed;
      var n := Step(p, code, pc, r);
      if n.Go? {
        ExecAppend(p, code, last, s, n.pc, n.r);
      }
    }
  }

  // ---------------------------------------------------------------- patching jumps

  /** The jump at `j` is taken with a value: its control is a TESTSET. */
  predicate Valued(code: Code, j: nat) {
    0 < j <= |code| && code[j - 1].TestSet?
  }

  /** `patchtestreg`, on the control of a jump of the list */
  function Retested(i: Instr, reg: Option<nat>): Instr
    requires i.TestSet?
  {
    if reg.Some? && reg.value != i.b then TestSet(reg.value, i.b, i.c) else Test(i.b, i.c)
  }

  function PatchedAt(code: Code, l: set<nat>, vtarget: nat, reg: Option<nat>, dtarget: nat, i: nat): Instr
    requires i < |code|
  {
    if i in l then Jmp(To(if Valued(code, i) then vtarget else dtarget))
    else if code[i].TestSet? && i + 1 in l then Retested(code[i], reg)
    else code[i]
  }

  /** Send the jumps of `l` to `vtarget`, with their value in `reg`, or to `dtarget` if they have none. */
  function Patched(code: Code, l: set<nat>, vtarget: nat, reg: Option<nat>, dtarget: nat): (c: Code)
    ensures |c| == |code|
    ensures forall i :: 0 <= i < |code| ==> c[i] == PatchedAt(code, l, vtarget, reg, dtarget, i)
  {
    seq(|code|, i requires 0 <= i < |code| => PatchedAt(code, l, vtarget, reg, dtarget, i))
  }

  /** Where a jump goes once it is patched. */
  function PatchTarget(code: Code, vtarget: nat, dtarget: nat, j: nat): nat {
    if Valued(code, j) then vtarget else dtarget
  }

  /** The registers after a patched jump is taken. */
  function PatchRegs(code: Code, reg: Option<nat>, j: nat, r: Regs): Regs {
    if Valued(code, j) && reg.Some? && reg.value != code[j - 1].b then r[reg.value := Get(r, code[j - 1].b)] else r
  }

  ghost predicate AllPending(code: Code, l: set<nat>) {
    forall j :: j in l ==> IsPending(code, j)
  }

  /** The code is patched and the exit `j` is now a jump; a jump keeps its control. */
  function PatchNext(code: Code, l: set<nat>, vtarget: nat, reg: Option<nat>, dtarget: nat, n: Next): Next {
    if n.Stop? && n.o.Exit? && n.o.j in l then
      Go(PatchTarget(code, vtarget, dtarget, n.o.j), PatchRegs(code, reg, n.o.j, n.o.r))
    else n
  }

  lemma StepPatched(p: Prims, code: Code, last: int, l: set<nat>, vt: nat, reg: Option<nat>, dt: nat, pc: nat, r: Regs)
    requires Formed(code, last) && pc < |code| && IsEntry(code, pc) && AllPending(code, l)
    ensures Step(p, Patched(code, l, vt, reg, dt), pc, r) == PatchNext(code, l, vt, reg, dt, Step(p, code, pc, r))
  {
    var c := Patched(code, l, vt, reg, dt);
    assert FormedAt(code, last, pc);
    assert c[pc] == PatchedAt(code, l, vt, reg, dt, pc);
    if IsTest(code[pc]) {
      assert c[pc + 1] == PatchedAt(code, l, vt, reg, dt, pc + 1);
    }
  }

  /** The targets of a patch lie after every jump that is patched. */
  ghost predicate After(code: Code, l: set<nat>, t: nat) {
    IsEntry(code, t) && forall j :: j in l ==> j < t
  }

  /** Only the code from `pc` on matters: patching what lies before it changes nothing. */
  lemma {:induction false} ExecSuffix(p: Prims, code: Code, last: int, l: set<nat>, vt: nat, reg: Option<nat>, dt: nat,
      pc: nat, r: Regs)
    requires Formed(code, last) && IsEntry(code, pc) && AllPending(code, l) && forall j :: j in l ==> j < pc
    ensures Exec(p, Patched(code, l, vt, reg, dt), pc, r) == Exec(p, code, pc, r)
    decreases |code| - pc
  {
    if pc < |code| {
      StepPatched(p, code, last, l, vt, reg, dt, pc, r);
      StepForward(p, code, last, pc, r);
      StepExits(p, code, pc, r);
      hide Step, Formed, Patched, IsEntry;
      var n := Step(p, code, pc, r);
      if n.Go? {
        ExecSuffix(p, code, last, l, vt, reg, dt, n.pc, n.r);
      }
    }
  }

  lemma StepExits(p: Prims, code: Code, pc: nat, r: Regs)
    requires pc < |code|
    ensures var n := Step(p, code, pc, r); n.Stop? && n.o.Exit? ==> pc <= n.o.j < |code| && IsPending(code, n.o.j)
  {
  }

  /** A run that left by a patched jump goes on where the jump now leads; all others are as before. */
  lemma {:induction false} ExecPatched(p: Prims, code: Code, last: int, l: set<nat>, vt: nat, reg: Option<nat>, dt: nat,
      pc: nat, r: Regs)
    requires Formed(code, last) && IsEntry(code, pc) && AllPending(code, l) && After(code, l, vt) && After(code, l, dt)
    ensures var o := Exec(p, code, pc, r);
            Exec(p, Patched(code, l, vt, reg, dt), pc, r) ==
            if o.Exit? && o.j in l then
              Exec(p, code, PatchTarget(code, vt, dt, o.j), PatchRegs(code, reg, o.j, o.r))
            else o
    decreases |code| - pc
  {
    if pc < |code| {
      StepPatched(p, code, last, l, vt, reg, dt, pc, r);
      StepForward(p, code, last, pc, r);
      StepExits(p, code, pc, r);
      var n := Step(p, code, pc, r);
      hide Step, Formed, Patched, IsEntry, PatchRegs, Valued;
      if n.Go? {
        ExecPatched(p, code, last, l, vt, reg, dt, n.pc, n.r);
      } else if n.o.Exit? && n.o.j in l {
        var t := PatchTarget(code, vt, dt, n.o.j);
        ExecSuffix(p, code, last, l, vt, reg, dt, t, PatchRegs(code, reg, n.o.j, n.o.r));
      }
    }
  }

  /** Patched code is formed, with the targets among what is jumped to. */
  lemma PatchedFormed(code: Code, last: int, l: set<nat>, vt: nat, reg: Option<nat>, dt: nat, last': int)
    requires Formed(code, last) && AllPending(code, l) && After(code, l, vt) && After(code, l, dt)
    requires last <= last' <= |code| && (l != {} ==> vt <= last' && dt <= last')
    ensures Formed(Patched(code, l, vt, reg, dt), last')
  {
    var c := Patched(code, l, vt, reg, dt);
    forall i | 0 <= i < |c|
      ensures FormedAt(c, last', i)
    {
      assert FormedAt(code, last, i);
      assert c[i] == PatchedAt(code, l, vt, reg, dt, i);
      assert forall k :: 0 <= k <= |code| && IsEntry(code, k) ==> IsEntry(c, k) by {
        forall k | 0 <= k <= |code| && IsEntry(code, k)
          ensures IsEntry(c, k)
        {
          if k > 0 {
            assert c[k - 1] == PatchedAt(code, l, vt, reg, dt, k - 1);
          }
        }
      }
    }
  }

  // ---------------------------------------------------------------- dropping values

  /** `removevalues`: the jumps of `l` no longer produce values. */
  function WithoutValues(code: Code, l: set<nat>): (c: Code)
    ensures |c| == |code|
    ensures forall i :: 0 <= i < |code| ==>
              c[i] == if code[i].TestSet? && i + 1 in l then Retested(code[i], None) else code[i]
  {
    seq(|code|, i requires 0 <= i < |code| =>
                  if code[i].TestSet? && i + 1 in l then Retested(code[i], None) else code[i])
  }

  lemma StepWithoutValues(p: Prims, code: Code, l: set<nat>, pc: nat, r: Regs)
    requires pc < |code| && AllPending(code, l)
    ensures Step(p, WithoutValues(code, l), pc, r) == Step(p, code, pc, r)
  {
  }

  lemma {:induction false} ExecWithoutValues(p: Prims, code: Code, l: set<nat>, pc: nat, r: Regs)
    requires AllPending(code, l)
    ensures Exec(p, WithoutValues(code, l), pc, r) == Exec(p, code, pc, r)
    decreases |code| - pc
  {
    if pc < |code| {
      StepWithoutValues(p, code, l, pc, r);
      var n := Step(p, code, pc, r);
      if n.Go? && n.pc > pc {
        ExecWithoutValues(p, code, l, n.pc, n.r);
      }
    }
  }

  lemma WithoutValuesFormed(code: Code, last: int, l: set<nat>)
    requires Formed(code, last)
    ensures Formed(WithoutValues(code, l), last)
  {
    var c := WithoutValues(code, l);
    forall i | 0 <= i < |c|
      ensures FormedAt(c, last, i)
    {
      assert FormedAt(code, last, i);
      assert forall k :: 0 <= k <= |code| && IsEntry(code, k) ==> IsEntry(c, k);
    }
  }

  lemma AppendFormed(code: Code, last: int, i: Instr)
    requires Formed(code, last) && (i.Set? || i.LoadNil? || i == Jmp(Pending))
    ensures Formed(code + [i], last)
  {
    var c := code + [i];
    forall k | 0 <= k < |c|
      ensures FormedAt(c, last, k)
    {
      if k < |code| {
        assert FormedAt(code, last, k);
      }
    }
  }
}

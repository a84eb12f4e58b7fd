/**
  Lua values, expressions, and what an expression evaluates to.

  Numbers are opaque: arithmetic and comparison are given by `Prims`, which stands for the
  `luai_num...` macros (luaconf.h) and for what the virtual machine does with other operands
  (coercions and metamethods that have no side effects; None is a runtime error).
 */
module CgSyntax {

  import opened Wrappers

  /** The name of a floating-point number; -0 is not among them. */
  type Number = int

  datatype Val = Nil | Bool(b: bool) | Num(n: Number) | Str(s: string) | Obj(id: nat)

  datatype ArithOp = Add | Sub | Mul | Div | Mod | Pow

  datatype CmpOp = Eq | Lt | Le

  datatype Prims = Prims(
    num: (ArithOp, Number, Number) -> Number,
    neg: Number -> Number,
    nan: Number -> bool,
    zero: Number -> bool,
    arith: (ArithOp, Val, Val) -> Option<Val>,
    unm: Val -> Option<Val>,
    len: Val -> Option<Val>,
    cmp: (CmpOp, Val, Val) -> Option<bool>)

  /** Negating a number that is not NaN does not give NaN. */
  ghost predicate GoodPrims(p: Prims) {
    forall n :: !p.nan(n) ==> !p.nan(p.neg(n))
  }

  /** `l_isfalse` */
  predicate Falsy(v: Val) {
    v == Nil || v == Bool(false)
  }

  function Arith(p: Prims, op: ArithOp, a: Val, b: Val): Option<Val> {
    if a.Num? && b.Num? then Some(Num(p.num(op, a.n, b.n))) else p.arith(op, a, b)
  }

  function Unm(p: Prims, a: Val): Option<Val> {
    if a.Num? then Some(Num(p.neg(a.n))) else p.unm(a)
  }

  // ---------------------------------------------------------------- registers

  type Regs = map<nat, Val>

  function Get(r: Regs, i: nat): Val {
    if i in r then r[i] else Nil
  }

  // ---------------------------------------------------------------- expressions

  datatype CompOp = EQ | NE | LT | LE | GT | GE

  datatype Expr =
    | ENil
    | ETrue
    | EFalse
    | ENum(n: Number)
    | EStr(s: string)
    | ELocal(r: nat)
    | EParen(e: Expr)
    | ENot(e: Expr)
    | EMinus(e: Expr)
    | ELen(e: Expr)
    | EArith(op: ArithOp, a: Expr, b: Expr)
    | EComp(cmp: CompOp, a: Expr, b: Expr)
    | EAnd(a: Expr, b: Expr)
    | EOr(a: Expr, b: Expr)

  /** Locals are active, and no number in the source is NaN. */
  predicate Legal(p: Prims, x: Expr, nact: nat) {
    match x
    case ENum(n) => !p.nan(n)
    case ELocal(r) => r < nact
    case EParen(e) => Legal(p, e, nact)
    case ENot(e) => Legal(p, e, nact)
    case EMinus(e) => Legal(p, e, nact)
    case ELen(e) => Legal(p, e, nact)
    case EArith(_, a, b) => Legal(p, a, nact) && Legal(p, b, nact)
    case EComp(_, a, b) => Legal(p, a, nact) && Legal(p, b, nact)
    case EAnd(a, b) => Legal(p, a, nact) && Legal(p, b, nact)
    case EOr(a, b) => Legal(p, a, nact) && Legal(p, b, nact)
    case _ => true
  }

  /** The size and the depth of an expression. */
  function Nodes(x: Expr): (n: nat)
    ensures n > 0
  {
    match x
    case EParen(e) => 1 + Nodes(e)
    case ENot(e) => 1 + Nodes(e)
    case EMinus(e) => 1 + Nodes(e)
    case ELen(e) => 1 + Nodes(e)
    case EArith(_, a, b) => 1 + Nodes(a) + Nodes(b)
    case EComp(_, a, b) => 1 + Nodes(a) + Nodes(b)
    case EAnd(a, b) => 1 + Nodes(a) + Nodes(b)
    case EOr(a, b) => 1 + Nodes(a) + Nodes(b)
    case _ => 1
  }

  function Height(x: Expr): nat {
    match x
    case EParen(e) => 1 + Height(e)
    case ENot(e) => 1 + Height(e)
    case EMinus(e) => 1 + Height(e)
    case ELen(e) => 1 + Height(e)
    case EArith(_, a, b) => 1 + Larger(Height(a), Height(b))
    case EComp(_, a, b) => 1 + Larger(Height(a), Height(b))
    case EAnd(a, b) => 1 + Larger(Height(a), Height(b))
    case EOr(a, b) => 1 + Larger(Height(a), Height(b))
    case _ => 0
  }

  function Larger(a: nat, b: nat): nat {
    if a < b then b else a
  }

  function NotOpt(o: Option<bool>): Option<bool> {
    match o
    case None => None
    case Some(b) => Some(!b)
  }

  /** `a > b` is `b < a`, and `a >= b` is `b <= a`. */
  function Compare(p: Prims, op: CompOp, a: Val, b: Val): Option<bool> {
    match op
    case EQ => p.cmp(Eq, a, b)
    case NE => NotOpt(p.cmp(Eq, a, b))
    case LT => p.cmp(Lt, a, b)
    case LE => p.cmp(Le, a, b)
    case GT => p.cmp(Lt, b, a)
    case GE => p.cmp(Le, b, a)
  }

  function BoolOpt(o: Option<bool>): Option<Val> {
    match o
    case None => None
    case Some(b) => Some(Bool(b))
  }

  /** The value of an expression, with short-circuit evaluation; None is a runtime error. */
  function Eval(p: Prims, x: Expr, r: Regs): Option<Val> {
    match x
    case ENil => Some(Nil)
    case ETrue => Some(Bool(true))
    case EFalse => Some(Bool(false))
    case ENum(n) => Some(Num(n))
    case EStr(s) => Some(Str(s))
    case ELocal(i) => Some(Get(r, i))
    case EParen(e) => Eval(p, e, r)
    case ENot(e) =>
      (match Eval(p, e, r)
       case None => None
       case Some(v) => Some(Bool(Falsy(v))))
    case EMinus(e) =>
      (match Eval(p, e, r)
       case None => None
       case Some(v) => Unm(p, v))
    case ELen(e) =>
      (match Eval(p, e, r)
       case None => None
       case Some(v) => p.len(v))
    case EArith(op, a, b) =>
      var va := Eval(p, a, r);
      var vb := Eval(p, b, r);
      if va.None? || vb.None? then None else Arith(p, op, va.value, vb.value)
    case EComp(op, a, b) =>
      var va := Eval(p, a, r);
      var vb := Eval(p, b, r);
      if va.None? || vb.None? then None else BoolOpt(Compare(p, op, va.value, vb.value))
    case EAnd(a, b) =>
      (match Eval(p, a, r)
       case None => None
       case Some(v) => if Falsy(v) then Some(v) else Eval(p, b, r))
    case EOr(a, b) =>
      (match Eval(p, a, r)
       case None => None
       case Some(v) => if Falsy(v) then Eval(p, b, r) else Some(v))
  }

  ghost predicate Agree(r: Regs, r': Regs, n: int) {
    forall i :: 0 <= i < n ==> Get(r, i) == Get(r', i)
  }

  lemma {:induction false} EvalAgree(p: Prims, x: Expr, r: Regs, r': Regs, n: nat)
    requires Legal(p, x, n) && Agree(r, r', n)
    ensures Eval(p, x, r) == Eval(p, x, r')
  {
    match x
    case EParen(e) => EvalAgree(p, e, r, r', n);
    case ENot(e) => EvalAgree(p, e, r, r', n);
    case EMinus(e) => EvalAgree(p, e, r, r', n);
    case ELen(e) => EvalAgree(p, e, r, r', n);
    case EArith(_, a, b) =>
      EvalAgree(p, a, r, r', n);
      EvalAgree(p, b, r, r', n);
    case EComp(_, a, b) =>
      EvalAgree(p, a, r, r', n);
      EvalAgree(p, b, r, r', n);
    case EAnd(a, b) =>
      EvalAgree(p, a, r, r', n);
      EvalAgree(p, b, r, r', n);
    case EOr(a, b) =>
      EvalAgree(p, a, r, r', n);
      EvalAgree(p, b, r, r', n);
    case _ =>
  }
}

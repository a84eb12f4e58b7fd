/**
  From tokens to code: what `subexpr` reads is compiled along the tree it stands for.  The C
  code does both in one pass; here the tree that is read comes between.
 */
module CgSource {
  import opened Limits
  import opened Wrappers
  import opened CgSyntax
  import opened CgReg
  import opened CgLinks
  import opened CgVm
  import P = PrsExpr
  import C = CgCode
  import D = CgDesc
  import opened PrsLevels

  datatype SourceError = Syntax(parser: P.Error) | Unfinished | Unmodelled | Limit(generator: D.Error)

  /** A simple expression of one token. */
  predicate Simple(x: Expr) {
    x.ENil? || x.ETrue? || x.EFalse? || x.ENum? || x.EStr? || x.ELocal?
  }

  function Operator(op: P.BinOpr, a: Expr, b: Expr): Option<Expr> {
    match op
    case OPR_ADD => Some(EArith(Add, a, b))
    case OPR_SUB => Some(EArith(Sub, a, b))
    case OPR_MUL => Some(EArith(Mul, a, b))
    case OPR_DIV => Some(EArith(Div, a, b))
    case OPR_MOD => Some(EArith(Mod, a, b))
    case OPR_POW => Some(EArith(Pow, a, b))
    case OPR_CONCAT => None
    case OPR_NE => Some(EComp(NE, a, b))
    case OPR_EQ => Some(EComp(EQ, a, b))
    case OPR_LT => Some(EComp(LT, a, b))
    case OPR_LE => Some(EComp(LE, a, b))
    case OPR_GT => Some(EComp(GT, a, b))
    case OPR_GE => Some(EComp(GE, a, b))
    case OPR_AND => Some(EAnd(a, b))
    case OPR_OR => Some(EOr(a, b))
  }

  /**
    The expression a tree stands for, if it has no concatenation; `operands[id]` is the simple
    expression of token `id`.
   */
  function ExprOf(operands: seq<Expr>, t: P.Tree): Option<Expr> {
    match t
    case Leaf(id) => if id < |operands| then Some(operands[id]) else None
    case Paren(e) =>
      var x := ExprOf(operands, e);
      if x.None? then None else Some(EParen(x.value))
    case Un(u, e) =>
      var x := ExprOf(operands, e);
      if x.None? then None
      else Some(match u case OPR_MINUS => EMinus(x.value) case OPR_NOT => ENot(x.value) case OPR_LEN => ELen(x.value))
    case Bin(op, l, r) =>
      var x, y := ExprOf(operands, l), ExprOf(operands, r);
      if x.None? || y.None? then None else Operator(op, x.value, y.value)
  }

  // ---------------------------------------------------------------- what a tree means

  /** The value of `a op b`, for an operator that evaluates both operands. */
  function BinaryValue(p: Prims, op: P.BinOpr, a: Val, b: Val): Option<Val> {
    match op
    case OPR_ADD => Arith(p, Add, a, b)
    case OPR_SUB => Arith(p, Sub, a, b)
    case OPR_MUL => Arith(p, Mul, a, b)
    case OPR_DIV => Arith(p, Div, a, b)
    case OPR_MOD => Arith(p, Mod, a, b)
    case OPR_POW => Arith(p, Pow, a, b)
    case OPR_EQ => Truth(p.cmp(Eq, a, b), true)
    case OPR_NE => Truth(p.cmp(Eq, a, b), false)
    case OPR_LT => Truth(p.cmp(Lt, a, b), true)
    case OPR_LE => Truth(p.cmp(Le, a, b), true)
    case OPR_GT => Truth(p.cmp(Lt, b, a), true)
    case OPR_GE => Truth(p.cmp(Le, b, a), true)
    case _ => None
  }

  /** The boolean that says whether the comparison came out as `wanted`. */
  function Truth(o: Option<bool>, wanted: bool): Option<Val> {
    if o.None? then None else Some(Bool(o.value == wanted))
  }

  function UnaryValue(p: Prims, u: P.UnOpr, a: Val): Option<Val> {
    match u
    case OPR_MINUS => Unm(p, a)
    case OPR_NOT => Some(Bool(a == Nil || a == Bool(false)))
    case OPR_LEN => p.len(a)
  }

  /** The value of a tree, operator by operator; None is a runtime error. */
  function TreeValue(p: Prims, operands: seq<Expr>, t: P.Tree, r: Regs): Option<Val> {
    match t
    case Leaf(id) => if id < |operands| then Eval(p, operands[id], r) else None
    case Paren(e) => TreeValue(p, operands, e, r)
    case Un(u, e) =>
      var v := TreeValue(p, operands, e, r);
      if v.None? then None else UnaryValue(p, u, v.value)
    case Bin(op, l, m) =>
      var a := TreeValue(p, operands, l, r);
      if a.None? then None
      else if op == P.OPR_AND && (a.value == Nil || a.value == Bool(false)) then a
      else if op == P.OPR_OR && a.value != Nil && a.value != Bool(false) then a
      else
        var b := TreeValue(p, operands, m, r);
        if b.None? || op == P.OPR_AND || op == P.OPR_OR then b else BinaryValue(p, op, a.value, b.value)
  }

  lemma BinaryMeans(p: Prims, op: P.BinOpr, a: Expr, b: Expr, x: Expr, r: Regs)
    requires Operator(op, a, b) == Some(x)
    ensures var v, w := Eval(p, a, r), Eval(p, b, r);
            Eval(p, x, r) ==
            if v.None? then None
            else if op == P.OPR_AND && Falsy(v.value) then v
            else if op == P.OPR_OR && !Falsy(v.value) then v
            else if w.None? || op == P.OPR_AND || op == P.OPR_OR then w
            else BinaryValue(p, op, v.value, w.value)
  {
  }

  /** The expression of a tree has the value of the tree, in every state of the registers. */
  lemma {:induction false} TreeMeans(p: Prims, operands: seq<Expr>, t: P.Tree, r: Regs)
    requires ExprOf(operands, t).Some?
    ensures Eval(p, ExprOf(operands, t).value, r) == TreeValue(p, operands, t, r)
  {
    hide Operator, BinaryValue;
    match t
    case Leaf(_) =>
    case Paren(e) => TreeMeans(p, operands, e, r);
    case Un(_, e) => TreeMeans(p, operands, e, r);
    case Bin(op, l, m) =>
      TreeMeans(p, operands, l, r);
      TreeMeans(p, operands, m, r);
      BinaryMeans(p, op, ExprOf(operands, l).value, ExprOf(operands, m).value, ExprOf(operands, t).value, r);
  }

  // ---------------------------------------------------------------- reading and compiling

  predicate OperandsLegal(p: Prims, operands: seq<Expr>, nact: nat) {
    forall i :: 0 <= i < |operands| ==> Simple(operands[i]) && Legal(p, operands[i], nact)
  }

  lemma {:induction false} ExprLegal(p: Prims, operands: seq<Expr>, nact: nat, t: P.Tree)
    requires OperandsLegal(p, operands, nact) && ExprOf(operands, t).Some?
    ensures Legal(p, ExprOf(operands, t).value, nact)
  {
    match t
    case Leaf(_) =>
    case Paren(e) => ExprLegal(p, operands, nact, e);
    case Un(_, e) => ExprLegal(p, operands, nact, e);
    case Bin(_, l, r) =>
      ExprLegal(p, operands, nact, l);
      ExprLegal(p, operands, nact, r);
  }

  predicate SmallEnough(x: Expr, nact: nat) {
    32 * Nodes(x) + 4 <= MAXARG_sBx && nact + 3 * Height(x) + 10 < MAXSTACK
  }

  /** The run ends with value `v` in the first free register and the locals as they were, or with the error. */
  ghost predicate EndsWith(v: Option<Val>, nact: nat, r0: Regs, o: C.Outcome) {
    if v.None? then o == C.Err else o.Fall? && Get(o.r, nact) == v.value && Agree(r0, o.r, nact)
  }

  /** Running the code leaves the value of the tree, for every value of the locals. */
  ghost predicate Evaluates(p: Prims, operands: seq<Expr>, t: P.Tree, nact: nat, code: seq<Inst>, k: seq<Val>) {
    AllFit(code)
    && forall r0 :: Clean(r0, nact) ==> EndsWith(TreeValue(p, operands, t, r0), nact, r0, VmRun(p, k, code, 0, r0))
  }

  /** The tokens of tree `t`, grouped as the manual says and not nested too deep, whose expression is `x`. */
  ghost predicate Writes(operands: seq<Expr>, ts: seq<P.Token>, t: P.Tree, x: Expr) {
    ByLevels(t) && P.Yield(t) == ts && P.Levels(t) <= MAXCCALLS && ExprOf(operands, t) == Some(x)
  }

  /** Read and compile the tokens of one expression. */
  method CompileTokens(p: Prims, nact: nat, operands: seq<Expr>, ts: seq<P.Token>)
      returns (r: Result<(seq<Inst>, seq<Val>), SourceError>)
    requires nact <= 200 && GoodPrims(p) && OperandsLegal(p, operands, nact)
    ensures forall t, x :: Writes(operands, ts, t, x) && SmallEnough(x, nact) ==> r.Ok?
    ensures r.Ok? ==> forall t, x :: Writes(operands, ts, t, x) ==>
                                 Evaluates(p, operands, t, nact, r.value.0, r.value.1)
    ensures r.Ok? ==> exists t, x :: Writes(operands, ts, t, x)
  {
    var ls := new P.LexState(ts);
    var read := ls.ReadSubexpr(0);
    forall t, x | Writes(operands, ts, t, x)
      ensures P.Subexpr(ts, 0, 0) == P.Read(t, [])
    {
      WrittenRead(operands, ts, t, x);
    }
    if read.Refused? {
      return Fail(Syntax(read.error));
    }
    if read.rest != [] {
      return Fail(Unfinished);
    }
    var t := read.t;
    var x := ExprOf(operands, t);
    if x.None? {
      return Fail(Unmodelled);
    }
    ReadByLevels(ts, t);
    assert Writes(operands, ts, t, x.value);
    ExprLegal(p, operands, nact, t);
    hide P.Yield, ByLevels, Leaves, Clean, AllFit, Legal, Nodes, Height;
    var c := CompileExpression(p, nact, x.value);
    if c.Fail? {
      return Fail(Limit(c.error));
    }
    CodeEvaluates(p, operands, t, nact, c.value.0, c.value.1);
    return Ok(c.value);
  }

  lemma CodeEvaluates(p: Prims, operands: seq<Expr>, t: P.Tree, nact: nat, code: seq<Inst>, k: seq<Val>)
    requires ExprOf(operands, t).Some? && AllFit(code)
    requires forall r0 :: Clean(r0, nact) ==> Leaves(p, ExprOf(operands, t).value, nact, r0, VmRun(p, k, code, 0, r0))
    ensures Evaluates(p, operands, t, nact, code, k)
  {
    hide AllFit, Clean, ExprOf, TreeValue, Eval, Agree;
    forall r0 | Clean(r0, nact)
      ensures EndsWith(TreeValue(p, operands, t, r0), nact, r0, VmRun(p, k, code, 0, r0))
    {
      TreeMeans(p, operands, t, r0);
    }
  }

  lemma WrittenRead(operands: seq<Expr>, ts: seq<P.Token>, t: P.Tree, x: Expr)
    requires Writes(operands, ts, t, x)
    ensures P.Subexpr(ts, 0, 0) == P.Read(t, [])
  {
    hide P.Subexpr, P.Yield, ByLevels, ExprOf;
    ReadByLevels(ts, t);
  }
}

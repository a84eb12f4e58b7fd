/**
  The grouping of operators as the Lua 5.1 Reference Manual gives it in section 2.5.6: the
  parser, which compares two numbers of each operator, reads exactly the trees that the levels
  and the associativity of the operators ask for.
 */
module PrsLevels {

  import opened Limits
  import opened PrsExpr

  /** The levels of the manual, loosest first; the unary operators are the seventh. */
  function Level(op: BinOpr): nat {
    match op
    case OPR_OR => 1
    case OPR_AND => 2
    case OPR_LT => 3 case OPR_GT => 3 case OPR_LE => 3 case OPR_GE => 3 case OPR_NE => 3 case OPR_EQ => 3
    case OPR_CONCAT => 4
    case OPR_ADD => 5 case OPR_SUB => 5
    case OPR_MUL => 6 case OPR_DIV => 6 case OPR_MOD => 6
    case OPR_POW => 8
  }

  const UNARY_LEVEL := 7

  /** Concatenation and exponentiation are right associative; all others are left associative. */
  predicate RightAssociative(op: BinOpr) {
    op == OPR_CONCAT || op == OPR_POW
  }

  /** Of `a op1 b op2 c`, the operand `b` belongs to `op2`. */
  predicate TakenBy(op1: BinOpr, op2: BinOpr) {
    Level(op2) > Level(op1) || (Level(op2) == Level(op1) && RightAssociative(op2))
  }

  /** `t` may stand to the right of `op`: every operator at its left edge takes its operand before `op` does. */
  predicate RightOperand(op: BinOpr, t: Tree) {
    t.Bin? ==> TakenBy(op, t.op) && RightOperand(op, t.l)
  }

  /** `t` may follow a unary operator: every operator at its left edge is tighter than the unary ones. */
  predicate UnaryOperand(t: Tree) {
    t.Bin? ==> Level(t.op) > UNARY_LEVEL && UnaryOperand(t.l)
  }

  /** `t` may stand to the left of `op`: no operator at its right edge loses its operand to `op`. */
  predicate LeftOperand(t: Tree, op: BinOpr) {
    match t
    case Leaf(_) => true
    case Paren(_) => true
    case Un(_, e) => Level(op) < UNARY_LEVEL && LeftOperand(e, op)
    case Bin(o, _, r) => !TakenBy(o, op) && LeftOperand(r, op)
  }

  /** The tree is grouped as the manual says. */
  predicate ByLevels(t: Tree) {
    match t
    case Leaf(_) => true
    case Paren(e) => ByLevels(e)
    case Un(_, e) => ByLevels(e) && UnaryOperand(e)
    case Bin(op, l, r) => ByLevels(l) && ByLevels(r) && LeftOperand(l, op) && RightOperand(op, r)
  }

  // ---------------------------------------------------------------- the numbers of the parser and the levels

  lemma Priorities(op1: BinOpr, op2: BinOpr)
    ensures Left(op2) > Right(op1) <==> TakenBy(op1, op2)
    ensures Left(op2) > UNARY_PRIORITY <==> Level(op2) > UNARY_LEVEL
    ensures Left(op2) > 0 && Level(op2) != UNARY_LEVEL
  {
  }

  lemma {:induction false} ClosesLevels(t: Tree, op: BinOpr)
    ensures Closes(t, op) <==> LeftOperand(t, op)
  {
    hide Left, Right, Level, TakenBy;
    match t
    case Leaf(_) =>
    case Paren(_) =>
    case Un(_, e) =>
      Priorities(op, op);
      ClosesLevels(e, op);
    case Bin(o, _, r) =>
      Priorities(o, op);
      ClosesLevels(r, op);
  }

  /** Only operators above `limit` are at the left edge of the tree. */
  predicate Above(t: Tree, limit: nat) {
    t.Bin? ==> Left(t.op) > limit && Above(t.l, limit)
  }

  lemma {:induction false} AboveLevels(t: Tree, op: BinOpr)
    ensures Above(t, Right(op)) <==> RightOperand(op, t)
    ensures Above(t, UNARY_PRIORITY) <==> UnaryOperand(t)
    ensures Above(t, 0)
  {
    hide Left, Right, Level, TakenBy;
    if t.Bin? {
      Priorities(op, t.op);
      AboveLevels(t.l, op);
    }
  }

  lemma {:induction false} GroupedAbove(t: Tree, limit: nat)
    ensures Grouped(t, limit) <==> Grouped(t, 0) && Above(t, limit)
  {
    hide Left, Right, Closes;
    if t.Bin? {
      Priorities(t.op, t.op);
      GroupedAbove(t.l, limit);
    }
  }

  /** To be grouped by the priorities of the parser is to be grouped as the manual says. */
  lemma {:induction false} GroupedByLevels(t: Tree)
    ensures Grouped(t, 0) <==> ByLevels(t)
  {
    hide Left, Right, Level, TakenBy, Above, Closes, LeftOperand, RightOperand, UnaryOperand;
    match t
    case Leaf(_) =>
    case Paren(e) =>
      GroupedByLevels(e);
    case Un(_, e) =>
      GroupedByLevels(e);
      GroupedAbove(e, UNARY_PRIORITY);
      AboveLevels(e, OPR_ADD);
    case Bin(op, l, r) =>
      Priorities(op, op);
      GroupedByLevels(l);
      GroupedByLevels(r);
      ClosesLevels(l, op);
      GroupedAbove(r, Right(op));
      AboveLevels(r, op);
  }

  /**
    Tokens are read as a tree exactly if they are the tokens of that tree, it is grouped as the
    manual says, and it is not nested too deep.
   */
  lemma ReadByLevels(ts: seq<Token>, t: Tree)
    ensures Subexpr(ts, 0, 0) == Read(t, []) <==> Yield(t) == ts && ByLevels(t) && Levels(t) <= MAXCCALLS
  {
    hide Subexpr, Yield, ByLevels, Grouped;
    GroupedByLevels(t);
    SubexprSound(ts, 0, 0);
    if Subexpr(ts, 0, 0) == Read(t, []) {
      assert Yield(t) + [] == Yield(t);
    }
    if Yield(t) == ts && ByLevels(t) {
      assert ts + [] == ts;
      SubexprReads(t, [], 0, 0);
    }
  }

  // ---------------------------------------------------------------- two operators

  /** An operand that stands by itself: a token or an expression in parentheses. */
  predicate Primary(t: Tree) {
    (t.Leaf? || t.Paren?) && ByLevels(t)
  }

  lemma PrimaryFits(t: Tree, op: BinOpr)
    requires Primary(t)
    ensures LeftOperand(t, op) && RightOperand(op, t) && UnaryOperand(t)
  {
  }

  lemma ToTheRight(a: Tree, op1: BinOpr, b: Tree, op2: BinOpr, c: Tree)
    requires Primary(a) && Primary(b) && Primary(c) && TakenBy(op1, op2)
    ensures ByLevels(Bin(op1, a, Bin(op2, b, c)))
  {
    hide Level;
    PrimaryFits(a, op1);
    PrimaryFits(b, op2);
    PrimaryFits(c, op2);
    PrimaryFits(b, op1);
    var r := Bin(op2, b, c);
    assert ByLevels(r) && RightOperand(op1, r);
  }

  lemma ToTheLeft(a: Tree, op1: BinOpr, b: Tree, op2: BinOpr, c: Tree)
    requires Primary(a) && Primary(b) && Primary(c) && !TakenBy(op1, op2)
    ensures ByLevels(Bin(op2, Bin(op1, a, b), c))
  {
    hide Level;
    PrimaryFits(a, op1);
    PrimaryFits(b, op1);
    PrimaryFits(b, op2);
    PrimaryFits(c, op2);
    var l := Bin(op1, a, b);
    assert ByLevels(l) && LeftOperand(l, op2);
  }

  lemma TakenBySame(op1: BinOpr, op2: BinOpr)
    ensures TakenBy(op1, op2) <==> Level(op2) > Level(op1) || op1 == op2 == OPR_CONCAT || op1 == op2 == OPR_POW
  {
  }

  lemma YieldThree(a: Tree, op1: BinOpr, b: Tree, op2: BinOpr, c: Tree)
    ensures Yield(Bin(op1, a, Bin(op2, b, c))) == Yield(a) + [Op(op1)] + Yield(b) + [Op(op2)] + Yield(c)
    ensures Yield(Bin(op2, Bin(op1, a, b), c)) == Yield(a) + [Op(op1)] + Yield(b) + [Op(op2)] + Yield(c)
  {
    var r, l := Bin(op2, b, c), Bin(op1, a, b);
    assert Yield(r) == Yield(b) + ([Op(op2)] + Yield(c)) && Yield(l) == Yield(a) + ([Op(op1)] + Yield(b));
    assert Yield(Bin(op1, a, r)) == Yield(a) + ([Op(op1)] + Yield(r));
    assert Yield(Bin(op2, l, c)) == Yield(l) + ([Op(op2)] + Yield(c));
    hide Yield;
    Regroup(Yield(a), [Op(op1)], Yield(b), [Op(op2)], Yield(c));
  }

  lemma Regroup<T>(a: seq<T>, b: seq<T>, c: seq<T>, d: seq<T>, e: seq<T>)
    ensures a + (b + (c + (d + e))) == a + b + c + d + e && (a + (b + c)) + (d + e) == a + b + c + d + e
  {
  }

  /**
    Three operands and any two operators are read as `a op1 (b op2 c)` exactly if `op2` is of a
    tighter level, or of the same level and right associative; else as `(a op1 b) op2 c`.
   */
  lemma TwoOperators(a: Tree, op1: BinOpr, b: Tree, op2: BinOpr, c: Tree)
    requires Primary(a) && Primary(b) && Primary(c)
    requires Levels(a) + 2 <= MAXCCALLS && Levels(b) + 2 <= MAXCCALLS && Levels(c) + 2 <= MAXCCALLS
    ensures var ts := Yield(a) + [Op(op1)] + Yield(b) + [Op(op2)] + Yield(c);
            var t := if Level(op2) > Level(op1) || (op1 == op2 == OPR_CONCAT) || (op1 == op2 == OPR_POW)
                     then Bin(op1, a, Bin(op2, b, c)) else Bin(op2, Bin(op1, a, b), c);
            Subexpr(ts, 0, 0) == Read(t, [])
  {
    hide Subexpr, Yield, ByLevels, Level, TakenBy;
    var ts := Yield(a) + [Op(op1)] + Yield(b) + [Op(op2)] + Yield(c);
    YieldThree(a, op1, b, op2, c);
    TakenBySame(op1, op2);
    if TakenBy(op1, op2) {
      ToTheRight(a, op1, b, op2, c);
      ReadByLevels(ts, Bin(op1, a, Bin(op2, b, c)));
    } else {
      ToTheLeft(a, op1, b, op2, c);
      ReadByLevels(ts, Bin(op2, Bin(op1, a, b), c));
    }
  }

  /** A unary operator before a binary one: `-a ^ b` is `-(a ^ b)`, and for every other operator `(-a) op b`. */
  lemma UnaryFirst(u: UnOpr, a: Tree, op: BinOpr, b: Tree)
    requires Primary(a) && Primary(b) && Levels(a) + 2 <= MAXCCALLS && Levels(b) + 2 <= MAXCCALLS
    ensures var ts := [Sign(u)] + Yield(a) + [Op(op)] + Yield(b);
            Subexpr(ts, 0, 0) == Read(if op == OPR_POW then Un(u, Bin(op, a, b)) else Bin(op, Un(u, a), b), [])
  {
    hide Subexpr, Yield, Level;
    var ts := [Sign(u)] + Yield(a) + [Op(op)] + Yield(b);
    PrimaryFits(a, op);
    PrimaryFits(b, op);
    YieldFirst(u, a, op, b);
    UnaryLevel(op);
    if op == OPR_POW {
      var e := Bin(op, a, b);
      assert ByLevels(e) && UnaryOperand(e);
      ReadByLevels(ts, Un(u, e));
    } else {
      var l := Un(u, a);
      assert ByLevels(l) && LeftOperand(l, op);
      ReadByLevels(ts, Bin(op, l, b));
    }
  }

  lemma UnaryLevel(op: BinOpr)
    ensures if op == OPR_POW then Level(op) > UNARY_LEVEL else Level(op) < UNARY_LEVEL
  {
  }

  lemma YieldFirst(u: UnOpr, a: Tree, op: BinOpr, b: Tree)
    ensures Yield(Un(u, Bin(op, a, b))) == [Sign(u)] + Yield(a) + [Op(op)] + Yield(b)
    ensures Yield(Bin(op, Un(u, a), b)) == [Sign(u)] + Yield(a) + [Op(op)] + Yield(b)
  {
    var e, l := Bin(op, a, b), Un(u, a);
    assert Yield(e) == Yield(a) + ([Op(op)] + Yield(b)) && Yield(l) == [Sign(u)] + Yield(a);
    assert Yield(Un(u, e)) == [Sign(u)] + Yield(e) && Yield(Bin(op, l, b)) == Yield(l) + ([Op(op)] + Yield(b));
    hide Yield;
    assert [Sign(u)] + (Yield(a) + ([Op(op)] + Yield(b))) == [Sign(u)] + Yield(a) + [Op(op)] + Yield(b);
  }

  /** A unary operator after a binary one takes its operand, whatever the binary one is: `a ^ -b` is `a ^ (-b)`. */
  lemma UnarySecond(a: Tree, op: BinOpr, u: UnOpr, b: Tree)
    requires Primary(a) && Primary(b) && Levels(a) + 2 <= MAXCCALLS && Levels(b) + 2 <= MAXCCALLS
    ensures Subexpr(Yield(a) + [Op(op), Sign(u)] + Yield(b), 0, 0) == Read(Bin(op, a, Un(u, b)), [])
  {
    hide Subexpr, Yield, Level;
    PrimaryFits(a, op);
    PrimaryFits(b, op);
    var e := Un(u, b);
    var t := Bin(op, a, e);
    assert ByLevels(e) && RightOperand(op, e);
    YieldSecond(a, op, u, b);
    ReadByLevels(Yield(a) + [Op(op), Sign(u)] + Yield(b), t);
  }

  lemma YieldSecond(a: Tree, op: BinOpr, u: UnOpr, b: Tree)
    ensures Yield(Bin(op, a, Un(u, b))) == Yield(a) + [Op(op), Sign(u)] + Yield(b)
  {
    assert Yield(Un(u, b)) == [Sign(u)] + Yield(b);
    assert Yield(Bin(op, a, Un(u, b))) == Yield(a) + ([Op(op)] + Yield(Un(u, b)));
    assert [Op(op), Sign(u)] == [Op(op)] + [Sign(u)];
    hide Yield;
    assert Yield(a) + ([Op(op)] + ([Sign(u)] + Yield(b))) == Yield(a) + ([Op(op)] + [Sign(u)]) + Yield(b);
  }
}

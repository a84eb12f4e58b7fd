/**
  How expressions are read (lparser.c: subexpr): operators are grouped by their priorities.

  A token sequence is read as the one tree that respects the priorities; the code for it is
  then generated along that tree.
 */
module PrsExpr {

  import opened Limits
  import opened Wrappers

  datatype BinOpr = OPR_ADD | OPR_SUB | OPR_MUL | OPR_DIV | OPR_MOD | OPR_POW | OPR_CONCAT | OPR_NE | OPR_EQ | OPR_LT
      | OPR_LE | OPR_GT | OPR_GE | OPR_AND | OPR_OR

  datatype UnOpr = OPR_MINUS | OPR_NOT | OPR_LEN

  /** `Operand` is a simple expression of one token; `Op(OPR_SUB)` is also the unary minus. */
  datatype Token = Operand(id: nat) | Op(op: BinOpr) | NotSign | LenSign | LParen | RParen | Other

  /** The table `priority` */
  function Left(op: BinOpr): nat {
    match op
    case OPR_ADD => 6 case OPR_SUB => 6
    case OPR_MUL => 7 case OPR_DIV => 7 case OPR_MOD => 7
    case OPR_POW => 10 case OPR_CONCAT => 5
    case OPR_AND => 2 case OPR_OR => 1
    case _ => 3
  }

  function Right(op: BinOpr): nat {
    match op
    case OPR_POW => 9
    case OPR_CONCAT => 4
    case _ => Left(op)
  }

  const UNARY_PRIORITY: nat := 8

  function GetUnOpr(ts: seq<Token>): Option<UnOpr> {
    if ts == [] then None
    else match ts[0]
      case NotSign => Some(OPR_NOT)
      case LenSign => Some(OPR_LEN)
      case Op(op) => if op == OPR_SUB then Some(OPR_MINUS) else None
      case _ => None
  }

  function GetBinOpr(ts: seq<Token>): Option<BinOpr> {
    if ts != [] && ts[0].Op? then Some(ts[0].op) else None
  }

  // ---------------------------------------------------------------- trees

  datatype Tree = Leaf(id: nat) | Paren(e: Tree) | Un(u: UnOpr, e: Tree) | Bin(op: BinOpr, l: Tree, r: Tree)

  function Sign(u: UnOpr): Token {
    match u
    case OPR_MINUS => Op(OPR_SUB)
    case OPR_NOT => NotSign
    case OPR_LEN => LenSign
  }

  /** The tokens of a tree. */
  function Yield(t: Tree): (r: seq<Token>)
    ensures r != []
  {
    match t
    case Leaf(id) => [Operand(id)]
    case Paren(e) => [LParen] + Yield(e) + [RParen]
    case Un(u, e) => [Sign(u)] + Yield(e)
    case Bin(op, l, r) => Yield(l) + ([Op(op)] + Yield(r))
  }

  /** A binary operator after the tree ends every operand at its right edge. */
  predicate Closes(t: Tree, op: BinOpr) {
    match t
    case Leaf(_) => true
    case Paren(_) => true
    case Un(_, e) => Left(op) <= UNARY_PRIORITY && Closes(e, op)
    case Bin(o, _, r) => Left(op) <= Right(o) && Closes(r, op)
  }

  /**
    The tree groups its operators as their priorities say, and has only operators above `limit`
    outside its operands.
   */
  predicate Grouped(t: Tree, limit: nat) {
    match t
    case Leaf(_) => true
    case Paren(e) => Grouped(e, 0)
    case Un(_, e) => Grouped(e, UNARY_PRIORITY)
    case Bin(op, l, r) => Left(op) > limit && Grouped(l, limit) && Closes(l, op) && Grouped(r, Right(op))
  }

  /** What comes after a tree: no operator that would still belong to it. */
  predicate Ends(t: Tree, rest: seq<Token>) {
    GetBinOpr(rest).Some? ==> Closes(t, rest[0].op)
  }

  predicate Stops(rest: seq<Token>, limit: nat) {
    GetBinOpr(rest).Some? ==> Left(rest[0].op) <= limit
  }

  /** How deep subexpr is nested. */
  function Levels(t: Tree): (n: nat)
    ensures n > 0
  {
    match t
    case Leaf(_) => 1
    case Paren(e) => 1 + Levels(e)
    case Un(_, e) => 1 + Levels(e)
    case Bin(_, l, r) => Max(Levels(l), 1 + Levels(r))
  }

  function Size(t: Tree): (n: nat)
    ensures n > 0
  {
    match t
    case Leaf(_) => 1
    case Paren(e) => 1 + Size(e)
    case Un(_, e) => 1 + Size(e)
    case Bin(_, l, r) => 1 + Size(l) + Size(r)
  }

  function Max(a: nat, b: nat): nat {
    if a < b then b else a
  }

  // ---------------------------------------------------------------- reading

  datatype Error = UnexpectedSymbol | ParenExpected | TooManyLevels

  datatype Reading = Read(t: Tree, rest: seq<Token>) | Refused(error: Error)

  /** subexpr, without the loop over binary operators; `calls` counts the calls that are active */
  function First(ts: seq<Token>, calls: int): (r: Reading)
    ensures r.Read? ==> |r.rest| < |ts|
    decreases |ts|, 0
  {
    if GetUnOpr(ts).Some? then
      var r := Subexpr(ts[1..], UNARY_PRIORITY, calls);
      if r.Refused? then r else Read(Un(GetUnOpr(ts).value, r.t), r.rest)
    else if ts == [] then Refused(UnexpectedSymbol)
    else if ts[0].Operand? then Read(Leaf(ts[0].id), ts[1..])
    else if ts[0].LParen? then
      var r := Subexpr(ts[1..], 0, calls);
      if r.Refused? then r else if r.rest != [] && r.rest[0].RParen? then Read(Paren(r.t), r.rest[1..])
                                else Refused(ParenExpected)
    else Refused(UnexpectedSymbol)
  }

  function Subexpr(ts: seq<Token>, limit: nat, calls: int): (r: Reading)
    ensures r.Read? ==> |r.rest| < |ts|
    decreases |ts|, 2
  {
    if calls + 1 > MAXCCALLS then Refused(TooManyLevels)
    else
      var r := First(ts, calls + 1);
      if r.Refused? then r else Expand(r.t, r.rest, limit, calls + 1)
  }

  /** "expand while operators have priorities higher than `limit'" */
  function Expand(t: Tree, ts: seq<Token>, limit: nat, calls: int): (r: Reading)
    ensures r.Read? ==> |r.rest| <= |ts|
    decreases |ts|, 1
  {
    if GetBinOpr(ts).Some? && Left(ts[0].op) > limit then
      var r := Subexpr(ts[1..], Right(ts[0].op), calls);
      if r.Refused? then r else Expand(Bin(ts[0].op, t, r.t), r.rest, limit, calls)
    else Read(t, ts)
  }

  // ---------------------------------------------------------------- what is read is grouped by priority

  ghost predicate Reads(ts: seq<Token>, limit: nat, r: Reading) {
    r.Read? ==> Yield(r.t) + r.rest == ts && Grouped(r.t, limit) && Ends(r.t, r.rest) && Stops(r.rest, limit)
  }

  lemma {:induction false} FirstSound(ts: seq<Token>, limit: nat, calls: int)
    ensures var r := First(ts, calls); r.Read? ==> Yield(r.t) + r.rest == ts && Grouped(r.t, limit) && Ends(r.t, r.rest)
    decreases |ts|, 0
  {
    hide Subexpr, Expand;
    var r := First(ts, calls);
    if GetUnOpr(ts).Some? {
      SubexprSound(ts[1..], UNARY_PRIORITY, calls);
      assert ts == [ts[0]] + ts[1..];
    } else if ts != [] && ts[0].LParen? {
      SubexprSound(ts[1..], 0, calls);
      var q := Subexpr(ts[1..], 0, calls);
      if r.Read? {
        assert q.rest == [RParen] + q.rest[1..];
        assert ts == [LParen] + ts[1..];
        assert [LParen] + (Yield(q.t) + ([RParen] + q.rest[1..])) == ([LParen] + Yield(q.t) + [RParen]) + q.rest[1..];
      }
    } else if r.Read? {
      assert ts == [ts[0]] + ts[1..];
    }
  }

  lemma {:induction false} SubexprSound(ts: seq<Token>, limit: nat, calls: int)
    ensures Reads(ts, limit, Subexpr(ts, limit, calls))
    decreases |ts|, 2
  {
    if calls + 1 <= MAXCCALLS {
      FirstSound(ts, limit, calls + 1);
      var r := First(ts, calls + 1);
      hide Yield, Grouped, Ends;
      if r.Read? {
        ExpandSound(r.t, r.rest, limit, calls + 1);
      }
    }
  }

  lemma {:induction false} ExpandSound(t: Tree, ts: seq<Token>, limit: nat, calls: int)
    requires Grouped(t, limit) && Ends(t, ts)
    ensures Reads(Yield(t) + ts, limit, Expand(t, ts, limit, calls))
    decreases |ts|, 1
  {
    if GetBinOpr(ts).Some? && Left(ts[0].op) > limit {
      var op := ts[0].op;
      SubexprSound(ts[1..], Right(op), calls);
      var r := Subexpr(ts[1..], Right(op), calls);
      if r.Read? {
        assert ts == [Op(op)] + ts[1..];
        assert Yield(t) + ([Op(op)] + (Yield(r.t) + r.rest)) == (Yield(t) + ([Op(op)] + Yield(r.t))) + r.rest;
        ExpandSound(Bin(op, t, r.t), r.rest, limit, calls);
      }
    }
  }

  // ---------------------------------------------------------------- every grouped tree is read

  /** The operand at the left end of a tree, and the tokens after it. */
  function Head(t: Tree): Tree {
    if t.Bin? then Head(t.l) else t
  }

  function Tail(t: Tree): seq<Token> {
    if t.Bin? then Tail(t.l) + ([Op(t.op)] + Yield(t.r)) else []
  }

  /** How deep the operands in the tail are nested. */
  function TailLevels(t: Tree): nat {
    if t.Bin? then Max(TailLevels(t.l), Levels(t.r)) else 0
  }

  lemma {:induction false} HeadTail(t: Tree, limit: nat)
    requires Grouped(t, limit)
    ensures Yield(t) == Yield(Head(t)) + Tail(t) && Levels(t) == Max(Levels(Head(t)), 1 + TailLevels(t))
      && Grouped(Head(t), limit) && !Head(t).Bin? && Size(Head(t)) <= Size(t)
    ensures Tail(t) == [] ==> Head(t) == t
    ensures Tail(t) != [] ==> Tail(t)[0].Op? && Closes(Head(t), Tail(t)[0].op)
  {
    if t.Bin? {
      HeadTail(t.l, limit);
      var h, a, b := Yield(Head(t.l)), Tail(t.l), [Op(t.op)] + Yield(t.r);
      assert (h + a) + b == h + (a + b);
    } else {
      assert Yield(t) + [] == Yield(t);
    }
  }

  lemma {:induction false} ExpandTail(t: Tree, rest: seq<Token>, limit: nat, calls: int)
    requires Grouped(t, limit) && Ends(t, rest)
    ensures Expand(Head(t), Tail(t) + rest, limit, calls) ==
            if calls + TailLevels(t) <= MAXCCALLS || !t.Bin? then Expand(t, rest, limit, calls)
              else Refused(TooManyLevels)
    decreases Size(t), 0
  {
    if t.Bin? {
      var more := [Op(t.op)] + (Yield(t.r) + rest);
      assert Tail(t) + rest == Tail(t.l) + more;
      assert more[1..] == Yield(t.r) + rest;
      ExpandTail(t.l, more, limit, calls);
      SubexprReads(t.r, rest, Right(t.op), calls);
    } else {
      assert [] + rest == rest;
    }
  }

  lemma {:induction false} FirstReads(t: Tree, rest: seq<Token>, limit: nat, calls: int)
    requires !t.Bin? && Grouped(t, limit) && Ends(t, rest)
    ensures First(Yield(t) + rest, calls) == if calls + Levels(t) - 1 <= MAXCCALLS
      || t.Leaf? then Read(t, rest) else Refused(TooManyLevels)
    decreases Size(t), 1
  {
    var ts := Yield(t) + rest;
    match t {
      case Leaf(id) =>
        assert ts[1..] == rest;
      case Paren(e) =>
        assert ts[1..] == Yield(e) + ([RParen] + rest);
        SubexprReads(e, [RParen] + rest, 0, calls);
        assert ([RParen] + rest)[1..] == rest;
      case Un(u, e) =>
        assert ts[1..] == Yield(e) + rest;
        SubexprReads(e, rest, UNARY_PRIORITY, calls);
    }
  }

  /** The tokens of a grouped tree are read as that tree, unless it is nested too deep. */
  lemma {:induction false} SubexprReads(t: Tree, rest: seq<Token>, limit: nat, calls: int)
    requires Grouped(t, limit) && Ends(t, rest) && Stops(rest, limit)
    ensures Subexpr(Yield(t) + rest, limit, calls) == if calls + Levels(t) <= MAXCCALLS then Read(t, rest)
      else Refused(TooManyLevels)
    decreases Size(t), 2
  {
    hide Yield, Grouped, Closes, Head, Tail;
    HeadTail(t, limit);
    var h, after := Head(t), Tail(t) + rest;
    assert Yield(t) + rest == Yield(h) + after;
    if calls + 1 <= MAXCCALLS {
      assert Tail(t) == [] ==> after == rest;
      FirstReads(h, after, limit, calls + 1);
      ExpandTail(t, rest, limit, calls + 1);
    }
  }

  /** Two grouped trees with the same tokens are the same tree. */
  lemma OneReading(t: Tree, t': Tree)
    requires Grouped(t, 0) && Grouped(t', 0) && Yield(t) == Yield(t')
    ensures t == t'
  {
    var calls := MAXCCALLS - Levels(t) - Levels(t');
    SubexprReads(t, [], 0, calls);
    SubexprReads(t', [], 0, calls);
  }

  // ---------------------------------------------------------------- the parser as it runs

  class LexState {
    /** The tokens still to come, with the current one. */
    var ts: seq<Token>
    var nCcalls: int

    constructor (ts: seq<Token>)
      ensures this.ts == ts && nCcalls == 0
    {
      this.ts := ts;
      nCcalls := 0;
    }

    method Next()
      modifies this`ts
      ensures ts == if old(ts) == [] then [] else old(ts)[1..]
    {
      if ts != [] {
        ts := ts[1..];
      }
    }

    /** The result, with the tokens that are left, is that of the function; the level is as before. */
    twostate predicate Gives(r: Reading, spec: Reading)
      reads this
    {
      (spec.Read? ==> r == spec && ts == spec.rest && nCcalls == old(nCcalls)) && (spec.Refused? ==> r == spec)
    }

    /** simpleexp, with prefixexp, for what is no operator */
    method SimpleExp() returns (r: Reading)
      requires GetUnOpr(ts).None?
      modifies this
      ensures Gives(r, First(old(ts), old(nCcalls)))
      decreases |ts|, 0
    {
      if ts == [] {
        return Refused(UnexpectedSymbol);
      }
      if ts[0].Operand? {
        var id := ts[0].id;
        Next();
        return Read(Leaf(id), ts);
      }
      if !ts[0].LParen? {
        return Refused(UnexpectedSymbol);
      }
      Next();
      r := ReadSubexpr(0);
      if r.Refused? {
        return;
      }
      if !(ts != [] && ts[0].RParen?) {
        return Refused(ParenExpected);
      }
      Next();
      return Read(Paren(r.t), ts);
    }

    method ReadSubexpr(limit: nat) returns (r: Reading)
      modifies this
      ensures Gives(r, Subexpr(old(ts), limit, old(nCcalls)))
      decreases |ts|, 1
    {
      ghost var ts0, calls := ts, nCcalls;
      nCcalls := nCcalls + 1;
      if nCcalls > MAXCCALLS {
        return Refused(TooManyLevels);
      }
      var uop := GetUnOpr(ts);
      if uop.Some? {
        Next();
        r := ReadSubexpr(UNARY_PRIORITY);
        if r.Refused? {
          return;
        }
        r := Read(Un(uop.value, r.t), ts);
      } else {
        r := SimpleExp();
        if r.Refused? {
          return;
        }
      }
      var op := GetBinOpr(ts);
      while op.Some? && Left(op.value) > limit
        invariant r.Read? && op == GetBinOpr(ts) && nCcalls == calls + 1 && |ts| < |ts0|
        invariant Subexpr(ts0, limit, calls) == Expand(r.t, ts, limit, calls + 1)
        decreases |ts|
      {
        Next();
        var r2 := ReadSubexpr(Right(op.value));
        if r2.Refused? {
          return r2;
        }
        r := Read(Bin(op.value, r.t, r2.t), ts);
        op := GetBinOpr(ts);
      }
      nCcalls := nCcalls - 1;
      return Read(r.t, ts);
    }
  }
}

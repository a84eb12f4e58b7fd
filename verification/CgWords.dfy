/**
  Instructions as 32-bit words (lopcodes.h): 6 bits of opcode, 8 of A, 9 of C and 9 of B, from
  the lowest up; Bx is B and C together, and sBx is Bx with excess 131071.  Shifts and masks
  are written as multiplication, division and remainder by powers of two.
 */
module CgWords {
  import opened Wrappers
  import opened CgSyntax
  import opened CgLinks
  import opened CgDesc

  const POS_A: nat := 0x40
  const POS_C: nat := 0x4000
  const POS_B: nat := 0x80_0000
  const WORD: nat := 0x1_0000_0000

  /** `CREATE_ABC` */
  function CreateABC(o: nat, a: nat, b: nat, c: nat): nat {
    o + a * POS_A + b * POS_B + c * POS_C
  }

  /** `CREATE_ABx` */
  function CreateABx(o: nat, a: nat, bx: nat): nat {
    o + a * POS_A + bx * POS_C
  }

  function GetOpcode(w: nat): nat {
    w % 64
  }

  function GetA(w: nat): nat {
    w / POS_A % 256
  }

  function GetB(w: nat): nat {
    w / POS_B % 512
  }

  function GetC(w: nat): nat {
    w / POS_C % 512
  }

  function GetBx(w: nat): nat {
    w / POS_C % 262144
  }

  /** `SETARG_A` and the like: clear the field, then put the new value there. */
  function SetArgA(w: nat, u: nat): int {
    w - GetA(w) * POS_A + u * POS_A
  }

  function SetArgB(w: nat, u: nat): int {
    w - GetB(w) * POS_B + u * POS_B
  }

  function SetArgSBx(w: nat, sbx: int): int {
    w - GetBx(w) * POS_C + (sbx + MAXARG_sBx) * POS_C
  }

  function ArithCode(op: ArithOp): nat {
    match op
    case Add => 12
    case Sub => 13
    case Mul => 14
    case Div => 15
    case Mod => 16
    case Pow => 17
  }

  function CompCode(op: CmpOp): nat {
    match op
    case Eq => 23
    case Lt => 24
    case Le => 25
  }

  function Bit(b: bool): nat {
    if b then 1 else 0
  }

  function Encode(i: Inst): nat
    requires FitsIn(i)
  {
    match i
    case MOVE(a, b) => CreateABC(0, a, b, 0)
    case LOADK(a, bx) => CreateABx(1, a, bx)
    case LOADBOOL(a, v, skip) => CreateABC(2, a, Bit(v), Bit(skip))
    case LOADNIL(a, b) => CreateABC(3, a, b, 0)
    case ARITH(op, a, b, c) => CreateABC(ArithCode(op), a, b, c)
    case UNM(a, b) => CreateABC(18, a, b, 0)
    case NOT(a, b) => CreateABC(19, a, b, 0)
    case LEN(a, b) => CreateABC(20, a, b, 0)
    case JMP(sbx) => CreateABx(22, 0, sbx + MAXARG_sBx)
    case COMP(op, cond, b, c) => CreateABC(CompCode(op), Bit(cond), b, c)
    case TEST(a, c) => CreateABC(26, a, 0, Bit(c))
    case TESTSET(a, b, c) => CreateABC(27, a, b, Bit(c))
  }

  function ArithOf(o: nat): ArithOp {
    if o == 12 then Add else if o == 13 then Sub else if o == 14 then Mul
                                                      else if o == 15 then Div else if o == 16 then Mod else Pow
  }

  function CompOf(o: nat): CmpOp {
    if o == 23 then Eq else if o == 24 then Lt else Le
  }

  /** The instruction in a word, for the opcodes that expressions use. */
  function Decode(w: nat): Option<Inst> {
    var o := GetOpcode(w);
    if o == 0 then Some(MOVE(GetA(w), GetB(w)))
    else if o == 1 then Some(LOADK(GetA(w), GetBx(w)))
    else if o == 2 then Some(LOADBOOL(GetA(w), GetB(w) != 0, GetC(w) != 0))
    else if o == 3 then Some(LOADNIL(GetA(w), GetB(w)))
    else if 12 <= o <= 17 then Some(ARITH(ArithOf(o), GetA(w), GetB(w), GetC(w)))
    else if o == 18 then Some(UNM(GetA(w), GetB(w)))
    else if o == 19 then Some(NOT(GetA(w), GetB(w)))
    else if o == 20 then Some(LEN(GetA(w), GetB(w)))
    else if o == 22 then Some(JMP(GetBx(w) - MAXARG_sBx))
    else if 23 <= o <= 25 then Some(COMP(CompOf(o), GetA(w) != 0, GetB(w), GetC(w)))
    else if o == 26 then Some(TEST(GetA(w), GetC(w) != 0))
    else if o == 27 then Some(TESTSET(GetA(w), GetB(w), GetC(w) != 0))
    else None
  }

  lemma PackABC(o: nat, a: nat, b: nat, c: nat)
    requires o < 64 && a < 256 && b < 512 && c < 512
    ensures var w := CreateABC(o, a, b, c);
            w < WORD && GetOpcode(w) == o && GetA(w) == a && GetB(w) == b && GetC(w) == c
  {
    var w := CreateABC(o, a, b, c);
    assert w / POS_A == a + 256 * (c + 512 * b);
    assert w / POS_C == c + 512 * b;
    assert w / POS_B == b;
  }

  lemma PackABx(o: nat, a: nat, bx: nat)
    requires o < 64 && a < 256 && bx < 262144
    ensures var w := CreateABx(o, a, bx);
            w < WORD && GetOpcode(w) == o && GetA(w) == a && GetBx(w) == bx
  {
    var w := CreateABx(o, a, bx);
    assert w / POS_A == a + 256 * bx;
    assert w / POS_C == bx;
  }

  /** An instruction whose fields fit is read back from its word. */
  lemma DecodeEncode(i: Inst)
    requires FitsIn(i)
    ensures Encode(i) < WORD && Decode(Encode(i)) == Some(i)
  {
    hide CreateABC, CreateABx, GetA, GetB, GetC, GetBx, GetOpcode;
    match i {
      case LOADK(a, bx) => PackABx(1, a, bx);
      case JMP(sbx) => PackABx(22, 0, sbx + MAXARG_sBx);
      case MOVE(a, b) => PackABC(0, a, b, 0);
      case LOADBOOL(a, v, skip) => PackABC(2, a, Bit(v), Bit(skip));
      case LOADNIL(a, b) => PackABC(3, a, b, 0);
      case ARITH(op, a, b, c) => PackABC(ArithCode(op), a, b, c);
      case UNM(a, b) => PackABC(18, a, b, 0);
      case NOT(a, b) => PackABC(19, a, b, 0);
      case LEN(a, b) => PackABC(20, a, b, 0);
      case COMP(op, cond, b, c) => PackABC(CompCode(op), Bit(cond), b, c);
      case TEST(a, c) => PackABC(26, a, 0, Bit(c));
      case TESTSET(a, b, c) => PackABC(27, a, b, Bit(c));
    }
  }

  /** Changing a field of the word changes that field of the instruction and no other. */
  lemma SetFields(i: Inst, u: nat, sbx: int)
    requires FitsIn(i) && u < 256 && -MAXARG_sBx <= sbx <= MAXARG_sBx
    ensures i.ARITH? || i.UNM? || i.LEN? || i.NOT? ==> SetArgA(Encode(i), u) == Encode(SetA(i, u))
    ensures i.LOADNIL? ==> SetArgB(Encode(i), u) == Encode(LOADNIL(i.a, u))
    ensures i.TESTSET? ==> SetArgA(Encode(i), u) == Encode(TESTSET(u, i.b, i.cond))
    ensures i.COMP? ==> SetArgA(Encode(i), 1 - Bit(i.cond)) == Encode(COMP(i.cmp, !i.cond, i.b, i.c))
    ensures i.JMP? ==> SetArgSBx(Encode(i), sbx) == Encode(JMP(sbx))
  {
    match i {
      case LOADNIL(a, b) => PackABC(3, a, b, 0);
      case ARITH(op, a, b, c) => PackABC(ArithCode(op), a, b, c);
      case UNM(a, b) => PackABC(18, a, b, 0);
      case NOT(a, b) => PackABC(19, a, b, 0);
      case LEN(a, b) => PackABC(20, a, b, 0);
      case COMP(op, cond, b, c) => PackABC(CompCode(op), Bit(cond), b, c);
      case TESTSET(a, b, c) => PackABC(27, a, b, Bit(c));
      case JMP(s) => PackABx(22, 0, s + MAXARG_sBx);
      case _ =>
    }
  }
}

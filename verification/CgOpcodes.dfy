/**
  The words of instructions, read by the list of opcodes and the picture of the fields in
  lopcodes.h: which opcode a word has by its place in the list, and which bits hold which operand.
 */
module CgOpcodes {
  import opened CgSyntax
  import opened CgLinks
  import opened CgDesc
  import opened CgWords

  /** The opcodes in the order of their numbers. */
  const OPCODES: seq<string> := [
    "MOVE", "LOADK", "LOADBOOL", "LOADNIL", "GETUPVAL", "GETGLOBAL", "GETTABLE", "SETGLOBAL", "SETUPVAL", "SETTABLE",
    "NEWTABLE", "SELF", "ADD", "SUB", "MUL", "DIV", "MOD", "POW", "UNM", "NOT", "LEN", "CONCAT", "JMP", "EQ", "LT",
    "LE", "TEST", "TESTSET", "CALL", "TAILCALL", "RETURN", "FORLOOP", "FORPREP", "TFORLOOP", "SETLIST", "CLOSE",
    "CLOSURE", "VARARG"]

  function NameOf(i: Inst): string {
    match i
    case MOVE(_, _) => "MOVE"
    case LOADK(_, _) => "LOADK"
    case LOADBOOL(_, _, _) => "LOADBOOL"
    case LOADNIL(_, _) => "LOADNIL"
    case ARITH(op, _, _, _) =>
      (match op
       case Add => "ADD" case Sub => "SUB" case Mul => "MUL" case Div => "DIV" case Mod => "MOD" case Pow => "POW")
    case UNM(_, _) => "UNM"
    case NOT(_, _) => "NOT"
    case LEN(_, _) => "LEN"
    case JMP(_) => "JMP"
    case COMP(op, _, _, _) => (match op case Eq => "EQ" case Lt => "LT" case Le => "LE")
    case TEST(_, _) => "TEST"
    case TESTSET(_, _, _) => "TESTSET"
  }

  /** Bits `from` to `to` of a word, `lo` and `hi` being the powers of two. */
  function Field(w: nat, lo: nat, hi: nat): nat
    requires 0 < lo < hi
  {
    w % hi / lo
  }

  /** Bits 6 to 13, 14 to 22, and 23 to 31. */
  predicate Operands(w: nat, a: nat, b: nat, c: nat) {
    Field(w, 0x40, 0x4000) == a && Field(w, 0x4000, 0x80_0000) == c && Field(w, 0x80_0000, 0x1_0000_0000) == b
  }

  /** Bits 6 to 13, and 14 to 31. */
  predicate LongOperand(w: nat, a: nat, bx: nat) {
    Field(w, 0x40, 0x4000) == a && Field(w, 0x4000, 0x1_0000_0000) == bx
  }

  lemma FieldsABC(o: nat, a: nat, b: nat, c: nat)
    requires o < 64 && a < 256 && b < 512 && c < 512
    ensures var w := CreateABC(o, a, b, c); Field(w, 1, 0x40) == o && Operands(w, a, b, c)
  {
    var w := CreateABC(o, a, b, c);
    assert w == (o + 64 * a) + 0x4000 * (c + 512 * b) && o + 64 * a < 0x4000;
    assert w % 0x4000 == o + 64 * a;
    assert w == (o + 64 * a + 0x4000 * c) + 0x80_0000 * b && o + 64 * a + 0x4000 * c < 0x80_0000;
    assert w % 0x80_0000 == o + 64 * a + 0x4000 * c;
  }

  lemma FieldsABx(o: nat, a: nat, bx: nat)
    requires o < 64 && a < 256 && bx < 262144
    ensures var w := CreateABx(o, a, bx); Field(w, 1, 0x40) == o && LongOperand(w, a, bx)
  {
    var w := CreateABx(o, a, bx);
    assert w == (o + 64 * a) + 0x4000 * bx && o + 64 * a < 0x4000;
    assert w % 0x4000 == o + 64 * a;
  }

  lemma FirstNumbered()
    ensures OPCODES[0] == "MOVE" && OPCODES[1] == "LOADK" && OPCODES[2] == "LOADBOOL" && OPCODES[3] == "LOADNIL"
    ensures OPCODES[12] == "ADD" && OPCODES[13] == "SUB" && OPCODES[14] == "MUL" && OPCODES[15] == "DIV"
  {
  }

  lemma SecondNumbered()
    ensures OPCODES[16] == "MOD" && OPCODES[17] == "POW" && OPCODES[18] == "UNM" && OPCODES[19] == "NOT"
    ensures OPCODES[20] == "LEN" && OPCODES[22] == "JMP"
  {
  }

  lemma ThirdNumbered()
    ensures OPCODES[23] == "EQ" && OPCODES[24] == "LT" && OPCODES[25] == "LE"
    ensures OPCODES[26] == "TEST" && OPCODES[27] == "TESTSET" && |OPCODES| == 38
  {
  }

  /** The word of an instruction: the number of its name in the list, and its operands in their bits. */
  lemma WordMeans(i: Inst)
    requires FitsIn(i)
    ensures var w := Encode(i);
            && Field(w, 1, 0x40) < |OPCODES| && OPCODES[Field(w, 1, 0x40)] == NameOf(i)
            && (i.MOVE? ==> Operands(w, i.a, i.b, 0))
            && (i.LOADK? ==> LongOperand(w, i.a, i.bx))
            && (i.LOADBOOL? ==> Operands(w, i.a, if i.val then 1 else 0, if i.skip then 1 else 0))
            && (i.LOADNIL? ==> Operands(w, i.a, i.b, 0))
            && (i.ARITH? ==> Operands(w, i.a, i.b, i.c))
            && (i.UNM? || i.NOT? || i.LEN? ==> Operands(w, i.a, i.b, 0))
            && (i.JMP? ==> LongOperand(w, 0, i.sbx + 131071))
            && (i.COMP? ==> Operands(w, if i.cond then 1 else 0, i.b, i.c))
            && (i.TEST? ==> Operands(w, i.a, 0, if i.cond then 1 else 0))
            && (i.TESTSET? ==> Operands(w, i.a, i.b, if i.cond then 1 else 0))
  {
    hide CreateABC, CreateABx, Operands, LongOperand, Field, OPCODES;
    FirstNumbered();
    SecondNumbered();
    ThirdNumbered();
    match i
    case LOADK(a, bx) => FieldsABx(1, a, bx);
    case JMP(sbx) => FieldsABx(22, 0, sbx + MAXARG_sBx);
    case MOVE(a, b) => FieldsABC(0, a, b, 0);
    case LOADBOOL(a, v, skip) => FieldsABC(2, a, Bit(v), Bit(skip));
    case LOADNIL(a, b) => FieldsABC(3, a, b, 0);
    case ARITH(op, a, b, c) => FieldsABC(ArithCode(op), a, b, c);
    case UNM(a, b) => FieldsABC(18, a, b, 0);
    case NOT(a, b) => FieldsABC(19, a, b, 0);
    case LEN(a, b) => FieldsABC(20, a, b, 0);
    case COMP(op, cond, b, c) => FieldsABC(CompCode(op), Bit(cond), b, c);
    case TEST(a, c) => FieldsABC(26, a, 0, Bit(c));
    case TESTSET(a, b, c) => FieldsABC(27, a, b, Bit(c));
  }
}

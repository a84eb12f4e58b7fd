/**
  The layout of a precompiled chunk, place by place, said without the functions that write it:
  bytes are a chunk of a prototype exactly if everything stands where it should.
 */
module DmpLayout {
  import opened Wrappers
  import opened ByteStrings
  import opened DmpProto
  import DmpParse

  // ---------------------------------------------------------------- what stands at a place

  /** A word, least significant byte first. */
  predicate WordAt(b: Bytes, i: nat, x: int) {
    i + 4 <= |b|
    && var b0: int, b1: int, b2: int, b3: int := b[i], b[i + 1], b[i + 2], b[i + 3];
       x == b0 + 0x100 * b1 + 0x1_0000 * b2 + 0x100_0000 * b3
  }

  /** An `int`, in two's complement. */
  predicate IntAt(b: Bytes, i: nat, x: int) {
    WordAt(b, i, if x < 0 then x + 0x1_0000_0000 else x)
  }

  predicate ByteAt(b: Bytes, i: nat, x: int) {
    i < |b| && b[i] as int == x
  }

  /** `text` stands in `b` at `i`. */
  predicate Has(b: Bytes, i: nat, text: Bytes) {
    i + |text| <= |b| && forall j :: i <= j < i + |text| ==> b[j] == text[j - i]
  }

  function NameSize(s: Name): nat {
    match s
    case NoName => 4
    case Name(s) => 4 + |s| + 1
  }

  /**
      A string: its size, which counts the zero byte at its end, its bytes, and the zero byte; no
      string is of size 0.
   */
  predicate NameAt(b: Bytes, i: nat, s: Name) {
    match s
    case NoName => WordAt(b, i, 0)
    case Name(s) => WordAt(b, i, |s| + 1) && Has(b, i + 4, s) && ByteAt(b, i + 4 + |s|, 0)
  }

  const LUA_TNIL := 0
  const LUA_TBOOLEAN := 1
  const LUA_TNUMBER := 3
  const LUA_TSTRING := 4

  function ConstantSize(c: Constant): nat {
    match c
    case Nil => 1
    case Bool(_) => 2
    case Num(_) => 9
    case Str(s) => 1 + NameSize(s)
  }

  /** A constant: its type, and its value. */
  predicate ConstantAt(b: Bytes, i: nat, c: Constant) {
    match c
    case Nil => ByteAt(b, i, LUA_TNIL)
    case Bool(v) => ByteAt(b, i, LUA_TBOOLEAN) && ByteAt(b, i + 1, if v then 1 else 0)
    case Num(n) => ByteAt(b, i, LUA_TNUMBER) && Has(b, i + 1, n)
    case Str(s) => ByteAt(b, i, LUA_TSTRING) && NameAt(b, i + 1, s)
  }

  function LocVarSize(v: LocVar): nat {
    NameSize(v.varname) + 8
  }

  predicate LocVarAt(b: Bytes, i: nat, v: LocVar) {
    var j := i + NameSize(v.varname);
    NameAt(b, i, v.varname) && IntAt(b, j, v.startpc) && IntAt(b, j + 4, v.endpc)
  }

  // ---------------------------------------------------------------- lists

  predicate WordsAt(b: Bytes, i: nat, xs: seq<int>) {
    forall j :: 0 <= j < |xs| ==> WordAt(b, i + 4 * j, xs[j])
  }

  predicate IntsAt(b: Bytes, i: nat, xs: seq<int>) {
    forall j :: 0 <= j < |xs| ==> IntAt(b, i + 4 * j, xs[j])
  }

  function ConstantsSize(xs: seq<Constant>): nat {
    if xs == [] then 0 else ConstantSize(xs[0]) + ConstantsSize(xs[1..])
  }

  predicate ConstantsAt(b: Bytes, i: nat, xs: seq<Constant>)
    decreases |xs|
  {
    xs != [] ==> ConstantAt(b, i, xs[0]) && ConstantsAt(b, i + ConstantSize(xs[0]), xs[1..])
  }

  function LocVarsSize(xs: seq<LocVar>): nat {
    if xs == [] then 0 else LocVarSize(xs[0]) + LocVarsSize(xs[1..])
  }

  predicate LocVarsAt(b: Bytes, i: nat, xs: seq<LocVar>)
    decreases |xs|
  {
    xs != [] ==> LocVarAt(b, i, xs[0]) && LocVarsAt(b, i + LocVarSize(xs[0]), xs[1..])
  }

  function NamesSize(xs: seq<Name>): nat {
    if xs == [] then 0 else NameSize(xs[0]) + NamesSize(xs[1..])
  }

  predicate NamesAt(b: Bytes, i: nat, xs: seq<Name>)
    decreases |xs|
  {
    xs != [] ==> NameAt(b, i, xs[0]) && NamesAt(b, i + NameSize(xs[0]), xs[1..])
  }

  // ---------------------------------------------------------------- functions

  function HeadSize(source: Name): nat {
    NameSize(source) + 12
  }

  /** The source, the first and the last line, and four bytes. */
  predicate HeadAt(b: Bytes, i: nat, source: Name, h: Head) {
    var j := i + NameSize(source);
    && NameAt(b, i, source) && IntAt(b, j, h.linedefined) && IntAt(b, j + 4, h.lastlinedefined)
    && ByteAt(b, j + 8, h.nups) && ByteAt(b, j + 9, h.numparams)
    && ByteAt(b, j + 10, h.isVararg) && ByteAt(b, j + 11, h.maxstacksize)
  }

  function DebugSize(d: Debug): nat {
    12 + 4 * |d.lineinfo| + LocVarsSize(d.locvars) + NamesSize(d.upvalues)
  }

  /** Lines, local variables and names of upvalues, each after its length. */
  predicate DebugAt(b: Bytes, i: nat, d: Debug) {
    var vars := i + 4 + 4 * |d.lineinfo|;
    var ups := vars + 4 + LocVarsSize(d.locvars);
    && IntAt(b, i, |d.lineinfo|) && IntsAt(b, i + 4, d.lineinfo)
    && IntAt(b, vars, |d.locvars|) && LocVarsAt(b, vars + 4, d.locvars)
    && IntAt(b, ups, |d.upvalues|) && NamesAt(b, ups + 4, d.upvalues)
  }

  /** The source that is written: none if it is stripped, or that of the function around. */
  function SourceOut(f: Proto, parent: Name, strip: bool): Name {
    if strip || f.head.source == parent then NoName else f.head.source
  }

  function DebugLeft(f: Proto, strip: bool): Debug {
    if strip then Debug([], [], []) else f.debug
  }

  function FunctionSize(f: Proto, parent: Name, strip: bool): nat {
    HeadSize(SourceOut(f, parent, strip)) + 12 + 4 * |f.code| + ConstantsSize(f.k)
    + ProtosSize(f.p, f.head.source, strip) + DebugSize(DebugLeft(f, strip))
  }

  function ProtosSize(ps: seq<Proto>, parent: Name, strip: bool): nat {
    if ps == [] then 0 else FunctionSize(ps[0], parent, strip) + ProtosSize(ps[1..], parent, strip)
  }

  /** The head, the instructions, the constants, the functions inside, and what is for debugging. */
  predicate FunctionAt(b: Bytes, i: nat, f: Proto, parent: Name, strip: bool)
    decreases f
  {
    var code := i + HeadSize(SourceOut(f, parent, strip));
    var k := code + 4 + 4 * |f.code|;
    var p := k + 4 + ConstantsSize(f.k);
    && HeadAt(b, i, SourceOut(f, parent, strip), f.head)
    && IntAt(b, code, |f.code|) && WordsAt(b, code + 4, f.code)
    && IntAt(b, k, |f.k|) && ConstantsAt(b, k + 4, f.k)
    && IntAt(b, p, |f.p|) && ProtosAt(b, p + 4, f.p, f.head.source, strip)
    && DebugAt(b, p + 4 + ProtosSize(f.p, f.head.source, strip), DebugLeft(f, strip))
  }

  predicate ProtosAt(b: Bytes, i: nat, ps: seq<Proto>, parent: Name, strip: bool)
    decreases ps
  {
    ps != [] ==> FunctionAt(b, i, ps[0], parent, strip)
                 && ProtosAt(b, i + FunctionSize(ps[0], parent, strip), ps[1..], parent, strip)
  }

  /** ESC "Lua", version 5.1, the official format, little endian, the sizes of four types, numbers with fractions. */
  predicate HeaderAt(b: Bytes) {
    && |b| >= 12
    && b[0] == 27 && b[1] == 'L' as int && b[2] == 'u' as int && b[3] == 'a' as int
    && b[4] == 0x51 && b[5] == 0 && b[6] == 1
    && b[7] == 4 && b[8] == 4 && b[9] == 4 && b[10] == 8 && b[11] == 0
  }

  /** `b` is the chunk of `f`. */
  predicate ChunkOf(b: Bytes, f: Proto, strip: bool) {
    HeaderAt(b) && FunctionAt(b, 12, f, NoName, strip) && |b| == 12 + FunctionSize(f, NoName, strip)
  }

  // ---------------------------------------------------------------- what is written is laid out so

  lemma HasBoth(b: Bytes, i: nat, x: Bytes, y: Bytes)
    ensures Has(b, i, x + y) <==> Has(b, i, x) && Has(b, i + |x|, y)
  {
    var both := x + y;
    assert forall j :: 0 <= j < |x| ==> both[j] == x[j];
    assert forall j :: 0 <= j < |y| ==> both[|x| + j] == y[j];
    if Has(b, i, x) && Has(b, i + |x|, y) {
      forall j | i <= j < i + |both|
        ensures b[j] == both[j - i]
      {
        if j >= i + |x| {
          assert b[j] == y[j - (i + |x|)];
        }
      }
    }
    if Has(b, i, both) {
      forall j | i + |x| <= j < i + |x| + |y|
        ensures b[j] == y[j - (i + |x|)]
      {
        assert b[j] == both[j - i];
      }
    }
  }

  lemma FourBytes(b: Bytes, i: nat, w: Bytes)
    requires |w| == 4 && i + 4 <= |b|
    ensures Has(b, i, w) <==> b[i] == w[0] && b[i + 1] == w[1] && b[i + 2] == w[2] && b[i + 3] == w[3]
  {
    if b[i] == w[0] && b[i + 1] == w[1] && b[i + 2] == w[2] && b[i + 3] == w[3] {
      forall j | i <= j < i + 4
        ensures b[j] == w[j - i]
      {
        assert j == i || j == i + 1 || j == i + 2 || j == i + 3;
      }
    }
  }

  /** The digits of a number made of four. */
  lemma DigitsBack(b0: Byte, b1: Byte, b2: Byte, b3: Byte)
    ensures var d0: int, d1: int, d2: int, d3: int := b0, b1, b2, b3;
            var x := d0 + 0x100 * d1 + 0x1_0000 * d2 + 0x100_0000 * d3;
            x % 256 == d0 && x / 256 % 256 == d1 && x / 65536 % 256 == d2 && x / 16777216 == d3
  {
    var d0: int, d1: int, d2: int, d3: int := b0, b1, b2, b3;
    var x := d0 + 0x100 * d1 + 0x1_0000 * d2 + 0x100_0000 * d3;
    assert x / 256 == d1 + 0x100 * d2 + 0x1_0000 * d3;
    assert x / 65536 == d2 + 0x100 * d3;
  }

  /** Four digits to the base 256 are those of their number. */
  lemma SameDigits(a0: Byte, a1: Byte, a2: Byte, a3: Byte, x: int)
    requires 0 <= x < WORD
    ensures var w := Enc32(x);
            var b0: int, b1: int, b2: int, b3: int := a0, a1, a2, a3;
            x == b0 + 0x100 * b1 + 0x1_0000 * b2 + 0x100_0000 * b3
            <==> a0 == w[0] && a1 == w[1] && a2 == w[2] && a3 == w[3]
  {
    Digits(x);
    DigitsBack(a0, a1, a2, a3);
  }

  lemma WordIs(b: Bytes, i: nat, x: int)
    requires 0 <= x < WORD
    ensures Has(b, i, Enc32(x)) <==> WordAt(b, i, x)
  {
    if i + 4 <= |b| {
      FourBytes(b, i, Enc32(x));
      SameDigits(b[i], b[i + 1], b[i + 2], b[i + 3], x);
      hide Enc32;
    }
  }

  lemma IntIs(b: Bytes, i: nat, x: int)
    requires IsInt(x)
    ensures Has(b, i, EncInt(x)) <==> IntAt(b, i, x)
  {
    hide Enc32, WordAt, Has;
    WordIs(b, i, if x < 0 then x + WORD else x);
  }

  lemma ByteIs(b: Bytes, i: nat, x: Byte)
    ensures Has(b, i, [x]) <==> ByteAt(b, i, x)
  {
  }

  lemma NameIs(b: Bytes, i: nat, s: Name)
    requires NameOk(s)
    ensures |DumpName(s)| == NameSize(s) && (Has(b, i, DumpName(s)) <==> NameAt(b, i, s))
  {
    hide Has, WordAt, ByteAt, Enc32;
    match s
    case NoName => WordIs(b, i, 0);
    case Name(s) =>
      WordIs(b, i, |s| + 1);
      HasBoth(b, i, Enc32(|s| + 1), s + [0]);
      HasBoth(b, i + 4, s, [0]);
      ByteIs(b, i + 4 + |s|, 0);
  }

  lemma ConstantIs(b: Bytes, i: nat, c: Constant)
    requires ConstantOk(c)
    ensures |DumpConstant(c)| == ConstantSize(c) && (Has(b, i, DumpConstant(c)) <==> ConstantAt(b, i, c))
  {
    hide Has, ByteAt, DumpName, NameAt;
    match c
    case Nil => ByteIs(b, i, 0);
    case Bool(v) =>
      var x: Byte := if v then 1 else 0;
      HasBoth(b, i, [1], [x]);
      assert [1] + [x] == [1, x];
      ByteIs(b, i, 1);
      ByteIs(b, i + 1, x);
    case Num(n) =>
      HasBoth(b, i, [3], n);
      ByteIs(b, i, 3);
    case Str(s) =>
      HasBoth(b, i, [4], DumpName(s));
      ByteIs(b, i, 4);
      NameIs(b, i + 1, s);
  }

  lemma LocVarIs(b: Bytes, i: nat, v: LocVar)
    requires LocVarOk(v)
    ensures |DumpLocVar(v)| == LocVarSize(v) && (Has(b, i, DumpLocVar(v)) <==> LocVarAt(b, i, v))
  {
    hide Has, DumpName, NameAt, EncInt, IntAt;
    var j := i + NameSize(v.varname);
    NameIs(b, i, v.varname);
    HasBoth(b, i, DumpName(v.varname), DumpInt(v.startpc) + DumpInt(v.endpc));
    HasBoth(b, j, DumpInt(v.startpc), DumpInt(v.endpc));
    IntIs(b, j, v.startpc);
    IntIs(b, j + 4, v.endpc);
  }

  lemma {:induction false} WordsIs(b: Bytes, i: nat, xs: seq<int>)
    requires forall j :: 0 <= j < |xs| ==> IsInstruction(xs[j])
    ensures Has(b, i, DumpWords(xs)) <==> i + 4 * |xs| <= |b| && WordsAt(b, i, xs)
    decreases |xs|
  {
    hide WordAt, Enc32;
    if xs != [] {
      HasBoth(b, i, Enc32(xs[0]), DumpWords(xs[1..]));
      WordIs(b, i, xs[0]);
      WordsIs(b, i + 4, xs[1..]);
      hide Has;
      ShiftWords(b, i, xs);
    }
  }

  lemma ShiftWords(b: Bytes, i: nat, xs: seq<int>)
    requires xs != []
    ensures WordsAt(b, i, xs) <==> WordAt(b, i, xs[0]) && WordsAt(b, i + 4, xs[1..])
  {
    hide WordAt;
    if WordAt(b, i, xs[0]) && WordsAt(b, i + 4, xs[1..]) {
      forall j | 0 <= j < |xs|
        ensures WordAt(b, i + 4 * j, xs[j])
      {
        if j > 0 {
          assert WordAt(b, i + 4 + 4 * (j - 1), xs[1..][j - 1]);
        }
      }
    }
    if WordsAt(b, i, xs) {
      assert WordAt(b, i + 4 * 0, xs[0]);
      forall j | 0 <= j < |xs| - 1
        ensures WordAt(b, i + 4 + 4 * j, xs[1..][j])
      {
        assert WordAt(b, i + 4 * (j + 1), xs[j + 1]);
      }
    }
  }

  lemma {:induction false} IntsIs(b: Bytes, i: nat, xs: seq<int>)
    requires forall j :: 0 <= j < |xs| ==> IsInt(xs[j])
    ensures Has(b, i, DumpInts(xs)) <==> i + 4 * |xs| <= |b| && IntsAt(b, i, xs)
    decreases |xs|
  {
    hide IntAt, EncInt;
    if xs != [] {
      HasBoth(b, i, EncInt(xs[0]), DumpInts(xs[1..]));
      IntIs(b, i, xs[0]);
      IntsIs(b, i + 4, xs[1..]);
      hide Has;
      ShiftInts(b, i, xs);
    }
  }

  lemma ShiftInts(b: Bytes, i: nat, xs: seq<int>)
    requires xs != []
    ensures IntsAt(b, i, xs) <==> IntAt(b, i, xs[0]) && IntsAt(b, i + 4, xs[1..])
  {
    hide IntAt;
    if IntAt(b, i, xs[0]) && IntsAt(b, i + 4, xs[1..]) {
      forall j | 0 <= j < |xs|
        ensures IntAt(b, i + 4 * j, xs[j])
      {
        if j > 0 {
          assert IntAt(b, i + 4 + 4 * (j - 1), xs[1..][j - 1]);
        }
      }
    }
    if IntsAt(b, i, xs) {
      assert IntAt(b, i + 4 * 0, xs[0]);
      forall j | 0 <= j < |xs| - 1
        ensures IntAt(b, i + 4 + 4 * j, xs[1..][j])
      {
        assert IntAt(b, i + 4 * (j + 1), xs[j + 1]);
      }
    }
  }

  lemma HasNone(b: Bytes, i: nat)
    ensures Has(b, i, []) <==> i <= |b|
  {
  }

  lemma {:induction false} ConstantsIs(b: Bytes, i: nat, xs: seq<Constant>)
    requires forall j :: 0 <= j < |xs| ==> ConstantOk(xs[j])
    ensures |DumpConstants(xs)| == ConstantsSize(xs)
    ensures Has(b, i, DumpConstants(xs)) <==> i + ConstantsSize(xs) <= |b| && ConstantsAt(b, i, xs)
    decreases |xs|
  {
    hide Has, DumpConstant, ConstantAt, ConstantSize;
    HasNone(b, i);
    if xs != [] {
      HasBoth(b, i, DumpConstant(xs[0]), DumpConstants(xs[1..]));
      ConstantIs(b, i, xs[0]);
      ConstantsIs(b, i + ConstantSize(xs[0]), xs[1..]);
    }
  }

  lemma {:induction false} LocVarsIs(b: Bytes, i: nat, xs: seq<LocVar>)
    requires forall j :: 0 <= j < |xs| ==> LocVarOk(xs[j])
    ensures |DumpLocVars(xs)| == LocVarsSize(xs)
    ensures Has(b, i, DumpLocVars(xs)) <==> i + LocVarsSize(xs) <= |b| && LocVarsAt(b, i, xs)
    decreases |xs|
  {
    hide Has, DumpLocVar, LocVarAt, LocVarSize;
    HasNone(b, i);
    if xs != [] {
      HasBoth(b, i, DumpLocVar(xs[0]), DumpLocVars(xs[1..]));
      LocVarIs(b, i, xs[0]);
      LocVarsIs(b, i + LocVarSize(xs[0]), xs[1..]);
    }
  }

  lemma {:induction false} NamesIs(b: Bytes, i: nat, xs: seq<Name>)
    requires forall j :: 0 <= j < |xs| ==> NameOk(xs[j])
    ensures |DumpNames(xs)| == NamesSize(xs)
    ensures Has(b, i, DumpNames(xs)) <==> i + NamesSize(xs) <= |b| && NamesAt(b, i, xs)
    decreases |xs|
  {
    hide Has, DumpName, NameAt, NameSize;
    HasNone(b, i);
    if xs != [] {
      HasBoth(b, i, DumpName(xs[0]), DumpNames(xs[1..]));
      NameIs(b, i, xs[0]);
      NamesIs(b, i + NameSize(xs[0]), xs[1..]);
    }
  }

  lemma HeadIs(b: Bytes, i: nat, h: Head)
    requires HeadOk(h)
    ensures |DumpHead(h)| == HeadSize(h.source)
    ensures Has(b, i, DumpHead(h)) <==> HeadAt(b, i, h.source, h)
  {
    hide Has, DumpName, NameAt, NameSize, EncInt, IntAt, ByteAt;
    var j := i + NameSize(h.source);
    var last: Bytes := [h.nups, h.numparams, h.isVararg, h.maxstacksize];
    NameIs(b, i, h.source);
    HasBoth(b, i, DumpName(h.source), DumpInt(h.linedefined) + (DumpInt(h.lastlinedefined) + last));
    HasBoth(b, j, DumpInt(h.linedefined), DumpInt(h.lastlinedefined) + last);
    HasBoth(b, j + 4, DumpInt(h.lastlinedefined), last);
    IntIs(b, j, h.linedefined);
    IntIs(b, j + 4, h.lastlinedefined);
    BytesIs(b, j + 8, h.nups, h.numparams, h.isVararg, h.maxstacksize);
  }

  lemma BytesIs(b: Bytes, i: nat, b0: Byte, b1: Byte, b2: Byte, b3: Byte)
    ensures Has(b, i, [b0, b1, b2, b3]) <==>
            ByteAt(b, i, b0) && ByteAt(b, i + 1, b1) && ByteAt(b, i + 2, b2) && ByteAt(b, i + 3, b3)
  {
    if i + 4 <= |b| {
      FourBytes(b, i, [b0, b1, b2, b3]);
      hide Has;
    }
  }

  lemma DebugIs(b: Bytes, i: nat, d: Debug)
    requires DebugOk(d)
    ensures |DumpDebug(d)| == DebugSize(d)
    ensures Has(b, i, DumpDebug(d)) <==> i + DebugSize(d) <= |b| && DebugAt(b, i, d)
  {
    hide Has, IsInt, LocVarOk, NameOk, EncInt, IntAt, DumpInts, IntsAt, DumpLocVars, LocVarsAt, DumpNames, NamesAt;
    var vars := i + 4 + 4 * |d.lineinfo|;
    var ups := vars + 4 + LocVarsSize(d.locvars);
    Lengths(|d.lineinfo|, |d.locvars|, |d.upvalues|);
    var z := DumpInt(|d.upvalues|) + DumpNames(d.upvalues);
    var y := DumpInt(|d.locvars|) + (DumpLocVars(d.locvars) + z);
    HasBoth(b, i, DumpInt(|d.lineinfo|), DumpInts(d.lineinfo) + y);
    IntIs(b, i, |d.lineinfo|);
    HasBoth(b, i + 4, DumpInts(d.lineinfo), y);
    IntsIs(b, i + 4, d.lineinfo);
    HasBoth(b, vars, DumpInt(|d.locvars|), DumpLocVars(d.locvars) + z);
    IntIs(b, vars, |d.locvars|);
    LocVarsIs(b, vars + 4, d.locvars);
    HasBoth(b, vars + 4, DumpLocVars(d.locvars), z);
    HasBoth(b, ups, DumpInt(|d.upvalues|), DumpNames(d.upvalues));
    IntIs(b, ups, |d.upvalues|);
    NamesIs(b, ups + 4, d.upvalues);
  }

  lemma Lengths(x: nat, y: nat, z: nat)
    requires IsSize(x) && IsSize(y) && IsSize(z)
    ensures IsInt(x) && IsInt(y) && IsInt(z)
  {
  }

  lemma {:induction false} FunctionIs(b: Bytes, i: nat, f: Proto, parent: Name, strip: bool)
    requires ProtoOk(f)
    ensures |DumpFunction(f, parent, strip)| == FunctionSize(f, parent, strip)
    ensures Has(b, i, DumpFunction(f, parent, strip)) <==>
            i + FunctionSize(f, parent, strip) <= |b| && FunctionAt(b, i, f, parent, strip)
    decreases f, 1
  {
    hide *;
    PartsOk(f, parent, strip);
    var code := i + HeadSize(SourceOut(f, parent, strip));
    var k := code + 4 + 4 * |f.code|;
    var p := k + 4 + ConstantsSize(f.k);
    ProtosIs(b, p + 4, f.p, f.head.source, strip);
    SameHead(b, i, f, parent, strip);
    HeadIs(b, i, HeadOut(f.head, parent, strip));
    IntIs(b, code, |f.code|);
    WordsIs(b, code + 4, f.code);
    IntIs(b, k, |f.k|);
    ConstantsIs(b, k + 4, f.k);
    IntIs(b, p, |f.p|);
    DebugIs(b, p + 4 + ProtosSize(f.p, f.head.source, strip), DebugLeft(f, strip));
    FunctionParts(b, i, f, parent, strip);
    FunctionPlaces(b, i, f, parent, strip);
  }

  lemma FunctionPlaces(b: Bytes, i: nat, f: Proto, parent: Name, strip: bool)
    ensures var code := i + HeadSize(SourceOut(f, parent, strip));
            var k := code + 4 + 4 * |f.code|;
            var p := k + 4 + ConstantsSize(f.k);
            var d := p + 4 + ProtosSize(f.p, f.head.source, strip);
            && i + FunctionSize(f, parent, strip) == d + DebugSize(DebugLeft(f, strip))
            && (FunctionAt(b, i, f, parent, strip) <==>
                && HeadAt(b, i, SourceOut(f, parent, strip), f.head)
                && IntAt(b, code, |f.code|) && WordsAt(b, code + 4, f.code)
                && IntAt(b, k, |f.k|) && ConstantsAt(b, k + 4, f.k)
                && IntAt(b, p, |f.p|) && ProtosAt(b, p + 4, f.p, f.head.source, strip)
                && DebugAt(b, d, DebugLeft(f, strip)))
  {
    hide HeadAt, IntAt, WordsAt, ConstantsAt, ProtosAt, DebugAt, HeadSize, SourceOut, ConstantsSize, ProtosSize,
      DebugSize, DebugLeft;
  }

  /** A function is dumped part by part. */
  lemma FunctionParts(b: Bytes, i: nat, f: Proto, parent: Name, strip: bool)
    requires ProtoOk(f) && IsInt(|f.code|) && IsInt(|f.k|) && IsInt(|f.p|)
    requires HeadOk(HeadOut(f.head, parent, strip))
    requires |DumpHead(HeadOut(f.head, parent, strip))| == HeadSize(SourceOut(f, parent, strip))
    requires |DumpConstants(f.k)| == ConstantsSize(f.k)
    requires |DumpProtos(f.p, f.head.source, strip)| == ProtosSize(f.p, f.head.source, strip)
    requires DebugOk(DebugLeft(f, strip)) && |DumpDebug(DebugLeft(f, strip))| == DebugSize(DebugLeft(f, strip))
    ensures |DumpFunction(f, parent, strip)| == FunctionSize(f, parent, strip)
    ensures var code := i + HeadSize(SourceOut(f, parent, strip));
            var k := code + 4 + 4 * |f.code|;
            var p := k + 4 + ConstantsSize(f.k);
            Has(b, i, DumpFunction(f, parent, strip)) <==>
            && Has(b, i, DumpHead(HeadOut(f.head, parent, strip)))
            && Has(b, code, EncInt(|f.code|)) && Has(b, code + 4, DumpWords(f.code))
            && Has(b, k, EncInt(|f.k|)) && Has(b, k + 4, DumpConstants(f.k))
            && Has(b, p, EncInt(|f.p|)) && Has(b, p + 4, DumpProtos(f.p, f.head.source, strip))
            && Has(b, p + 4 + ProtosSize(f.p, f.head.source, strip), DumpDebug(DebugLeft(f, strip)))
  {
    hide Has, HeadOk, IsInstruction, ConstantOk, DebugOk, EncInt, DumpHead, DumpWords, DumpConstants, DumpProtos,
      DumpDebug, ConstantsSize, ProtosSize, DebugSize, HeadSize, HeadOut, SourceOut;
    var code := i + HeadSize(SourceOut(f, parent, strip));
    var k := code + 4 + 4 * |f.code|;
    var p := k + 4 + ConstantsSize(f.k);
    var tail := DumpProtos(f.p, f.head.source, strip) + DumpDebug(DebugLeft(f, strip));
    var rest := EncInt(|f.k|) + (DumpConstants(f.k) + (EncInt(|f.p|) + tail));
    HasFour(b, i, DumpHead(HeadOut(f.head, parent, strip)), EncInt(|f.code|), DumpWords(f.code), rest);
    HasFour(b, k, EncInt(|f.k|), DumpConstants(f.k), EncInt(|f.p|), tail);
    HasBoth(b, p + 4, DumpProtos(f.p, f.head.source, strip), DumpDebug(DebugLeft(f, strip)));
  }

  lemma HasFour(b: Bytes, i: nat, x0: Bytes, x1: Bytes, x2: Bytes, x3: Bytes)
    ensures Has(b, i, x0 + (x1 + (x2 + x3))) <==>
            && Has(b, i, x0) && Has(b, i + |x0|, x1) && Has(b, i + |x0| + |x1|, x2)
            && Has(b, i + |x0| + |x1| + |x2|, x3)
  {
    hide Has;
    HasBoth(b, i, x0, x1 + (x2 + x3));
    HasBoth(b, i + |x0|, x1, x2 + x3);
    HasBoth(b, i + |x0| + |x1|, x2, x3);
  }

  lemma PartsOk(f: Proto, parent: Name, strip: bool)
    requires ProtoOk(f)
    ensures IsInt(|f.code|) && (forall j :: 0 <= j < |f.code| ==> IsInstruction(f.code[j]))
    ensures IsInt(|f.k|) && (forall j :: 0 <= j < |f.k| ==> ConstantOk(f.k[j]))
    ensures IsInt(|f.p|) && (forall j :: 0 <= j < |f.p| ==> ProtoOk(f.p[j]))
    ensures HeadOk(HeadOut(f.head, parent, strip)) && DebugOk(DebugLeft(f, strip))
  {
  }

  /** The head that is written differs from that of the function in its source only. */
  lemma SameHead(b: Bytes, i: nat, f: Proto, parent: Name, strip: bool)
    ensures var h := HeadOut(f.head, parent, strip);
            h.source == SourceOut(f, parent, strip)
            && (HeadAt(b, i, h.source, h) <==> HeadAt(b, i, SourceOut(f, parent, strip), f.head))
    ensures DebugOut(f.debug, strip) == DebugLeft(f, strip)
  {
    hide NameAt, IntAt, ByteAt;
  }

  lemma {:induction false} ProtosIs(b: Bytes, i: nat, ps: seq<Proto>, parent: Name, strip: bool)
    requires forall j :: 0 <= j < |ps| ==> ProtoOk(ps[j])
    ensures |DumpProtos(ps, parent, strip)| == ProtosSize(ps, parent, strip)
    ensures Has(b, i, DumpProtos(ps, parent, strip)) <==>
            i + ProtosSize(ps, parent, strip) <= |b| && ProtosAt(b, i, ps, parent, strip)
    decreases ps, 0
  {
    hide Has, ProtoOk, DumpFunction, FunctionAt, FunctionSize;
    HasNone(b, i);
    if ps != [] {
      HasBoth(b, i, DumpFunction(ps[0], parent, strip), DumpProtos(ps[1..], parent, strip));
      FunctionIs(b, i, ps[0], parent, strip);
      ProtosIs(b, i + FunctionSize(ps[0], parent, strip), ps[1..], parent, strip);
    }
  }

  // ---------------------------------------------------------------- the header

  /**
    What the bytes of the header say: byte 6 is the first byte in memory of the number 1, and the
    next four are the sizes of an int, a size, an instruction and a number.
   */
  lemma HeaderMeans(x: int, size: int, n: Number)
    requires IsInt(x) && 0 <= size < WORD
    ensures |HEADER| == 12 && HeaderAt(HEADER)
    ensures HEADER[6] == EncInt(1)[0]
    ensures HEADER[7] == |EncInt(x)| && HEADER[8] == HEADER[9] == |Enc32(size)| && HEADER[10] == |n|
  {
  }

  lemma HeaderIs(b: Bytes)
    ensures Has(b, 0, HEADER) <==> HeaderAt(b)
  {
    if |b| >= 12 {
      var h0: Bytes, h1: Bytes, h2: Bytes := HEADER[..4], HEADER[4..8], HEADER[8..];
      assert HEADER == h0 + (h1 + (h2 + []));
      HasFour(b, 0, h0, h1, h2, []);
      HasNone(b, 12);
      FourBytes(b, 0, h0);
      FourBytes(b, 4, h1);
      FourBytes(b, 8, h2);
      hide Has;
    }
  }

  /** Bytes are what luaU_dump writes for a prototype exactly if they are laid out as its chunk. */
  lemma DumpExact(b: Bytes, f: Proto, strip: bool)
    requires ProtoOk(f)
    ensures b == Dump(f, strip) <==> ChunkOf(b, f, strip)
  {
    hide HeaderAt, FunctionAt, DumpFunction, ProtoOk, FunctionSize, HEADER;
    HeaderIs(b);
    FunctionIs(b, 12, f, NoName, strip);
    HasBoth(b, 0, HEADER, DumpFunction(f, NoName, strip));
    WholeHas(b, Dump(f, strip));
    HeaderLength();
  }

  lemma HeaderLength()
    ensures |HEADER| == 12
  {
  }

  lemma WholeHas(b: Bytes, x: Bytes)
    ensures b == x <==> Has(b, 0, x) && |b| == |x|
  {
  }

  /** Without the twelve bytes of the header a chunk is refused; with them, what follows is read as a function. */
  lemma UndumpHeader(b: Bytes, calls: nat, check: Proto -> bool)
    ensures |b| < 12 ==> DmpParse.Undump(b, calls, check) == Fail(UnexpectedEnd)
    ensures |b| >= 12 && !HeaderAt(b) ==> DmpParse.Undump(b, calls, check) == Fail(BadHeader)
    ensures HeaderAt(b) ==>
              DmpParse.Undump(b, calls, check) == DmpParse.ParseFunction(b[12..], DmpParse.NO_SOURCE, calls, check)
  {
    hide DmpParse.ParseFunction, HeaderAt;
    HeaderIs(b);
    HeaderLength();
    hide HEADER;
    if |b| >= 12 {
      assert b[..12] == HEADER <==> Has(b, 0, HEADER);
    }
  }
}

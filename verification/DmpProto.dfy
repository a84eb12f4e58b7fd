/** Function prototypes and the bytes of a precompiled chunk (ldump.c), as one machine writes and reads them. */
module DmpProto {
  import opened Wrappers
  import opened ByteStrings

  datatype Error = UnexpectedEnd | BadInteger | BadConstant | TooDeep | BadCode | BadHeader

  /** A `TString *`: NULL, or a string, which may be empty. */
  datatype Name = NoName | Name(s: Bytes)

  /** A number is its eight bytes in memory. */
  type Number = s: Bytes | |s| == 8 witness [0, 0, 0, 0, 0, 0, 0, 0]

  datatype Constant = Nil | Bool(b: bool) | Num(n: Number) | Str(s: Name)

  datatype LocVar = LocVar(varname: Name, startpc: int, endpc: int)

  /** The parts of a prototype that come first in a chunk. */
  datatype Head = Head(source: Name, linedefined: int, lastlinedefined: int, nups: Byte, numparams: Byte,
      isVararg: Byte, maxstacksize: Byte)

  datatype Debug = Debug(lineinfo: seq<int>, locvars: seq<LocVar>, upvalues: seq<Name>)

  datatype Proto = Proto(head: Head, code: seq<int>, k: seq<Constant>, p: seq<Proto>, debug: Debug)

  // ---------------------------------------------------------------- words

  const WORD: int := 0x1_0000_0000

  const INT_MAX: int := 0x7FFF_FFFF

  function Enc32(x: int): (r: Bytes)
    requires 0 <= x < WORD
    ensures |r| == 4
  {
    [x % 256, x / 256 % 256, x / 65536 % 256, x / 16777216]
  }

  function Dec32(b: Bytes): (x: int)
    requires |b| == 4
    ensures 0 <= x < WORD
  {
    var b0: int, b1: int, b2: int, b3: int := b[0], b[1], b[2], b[3];
    b0 + 256 * b1 + 65536 * b2 + 16777216 * b3
  }

  lemma Digits(x: int)
    requires 0 <= x < WORD
    ensures x == x % 256 + 256 * (x / 256 % 256) + 65536 * (x / 65536 % 256) + 16777216 * (x / 16777216)
  {
    var y := x / 256;
    var z := y / 256;
    assert z == x / 65536;
    assert z / 256 == x / 16777216;
    assert x == 256 * y + x % 256 && y == 256 * z + y % 256 && z == 256 * (z / 256) + z % 256;
  }

  lemma Dec32Enc32(x: int)
    requires 0 <= x < WORD
    ensures Dec32(Enc32(x)) == x
  {
    Digits(x);
  }

  predicate IsInt(x: int) {
    -INT_MAX - 1 <= x <= INT_MAX
  }

  /** The bytes of an `int`, in two's complement. */
  function EncInt(x: int): (r: Bytes)
    requires IsInt(x)
    ensures |r| == 4
  {
    Enc32(if x < 0 then x + WORD else x)
  }

  function DecInt(b: Bytes): (x: int)
    requires |b| == 4
    ensures IsInt(x)
  {
    var u := Dec32(b);
    if u > INT_MAX then u - WORD else u
  }

  lemma DecIntEncInt(x: int)
    requires IsInt(x)
    ensures DecInt(EncInt(x)) == x
  {
    Dec32Enc32(if x < 0 then x + WORD else x);
  }

  // ---------------------------------------------------------------- what can be dumped

  predicate IsSize(x: int) {
    0 <= x <= INT_MAX
  }

  predicate NameOk(s: Name) {
    s.Name? ==> |s.s| + 1 < WORD
  }

  predicate ConstantOk(c: Constant) {
    c.Str? ==> NameOk(c.s)
  }

  predicate LocVarOk(v: LocVar) {
    NameOk(v.varname) && IsSize(v.startpc) && IsSize(v.endpc)
  }

  predicate HeadOk(h: Head) {
    NameOk(h.source) && IsSize(h.linedefined) && IsSize(h.lastlinedefined)
  }

  predicate IsInstruction(x: int) {
    0 <= x < WORD
  }

  ghost predicate DebugOk(d: Debug) {
    && IsSize(|d.lineinfo|) && (forall i :: 0 <= i < |d.lineinfo| ==> IsInt(d.lineinfo[i]))
    && IsSize(|d.locvars|) && (forall i :: 0 <= i < |d.locvars| ==> LocVarOk(d.locvars[i]))
    && IsSize(|d.upvalues|) && (forall i :: 0 <= i < |d.upvalues| ==> NameOk(d.upvalues[i]))
  }

  /** Every number of the prototype has the C type it is stored with. */
  ghost predicate ProtoOk(f: Proto) {
    && HeadOk(f.head)
    && IsSize(|f.code|) && (forall i :: 0 <= i < |f.code| ==> IsInstruction(f.code[i]))
    && IsSize(|f.k|) && (forall i :: 0 <= i < |f.k| ==> ConstantOk(f.k[i]))
    && IsSize(|f.p|) && (forall i :: 0 <= i < |f.p| ==> ProtoOk(f.p[i]))
    && DebugOk(f.debug)
  }

  /** How deep functions are nested. */
  function Depth(f: Proto): nat {
    1 + DepthAll(f.p)
  }

  function DepthAll(ps: seq<Proto>): nat {
    if ps == [] then 0 else Max(Depth(ps[0]), DepthAll(ps[1..]))
  }

  function Max(a: nat, b: nat): nat {
    if a < b then b else a
  }

  // ---------------------------------------------------------------- the bytes

  function DumpInt(x: int): Bytes
    requires IsInt(x)
  {
    EncInt(x)
  }

  function DumpName(s: Name): Bytes
    requires NameOk(s)
  {
    match s
    case NoName => Enc32(0)
    case Name(s) => Enc32(|s| + 1) + (s + [0])
  }

  function DumpConstant(c: Constant): Bytes
    requires ConstantOk(c)
  {
    match c
    case Nil => [0]
    case Bool(b) => [1, if b then 1 else 0]
    case Num(n) => [3] + n
    case Str(s) => [4] + DumpName(s)
  }

  function DumpLocVar(v: LocVar): Bytes
    requires LocVarOk(v)
  {
    DumpName(v.varname) + (DumpInt(v.startpc) + DumpInt(v.endpc))
  }

  function DumpWords(xs: seq<int>): (r: Bytes)
    requires forall i :: 0 <= i < |xs| ==> IsInstruction(xs[i])
    ensures |r| == 4 * |xs|
  {
    if xs == [] then []
    else
      assert IsInstruction(xs[0]);
      Enc32(xs[0]) + DumpWords(xs[1..])
  }

  function DumpInts(xs: seq<int>): (r: Bytes)
    requires forall i :: 0 <= i < |xs| ==> IsInt(xs[i])
    ensures |r| == 4 * |xs|
  {
    if xs == [] then [] else EncInt(xs[0]) + DumpInts(xs[1..])
  }

  function DumpConstants(xs: seq<Constant>): Bytes
    requires forall i :: 0 <= i < |xs| ==> ConstantOk(xs[i])
  {
    if xs == [] then [] else DumpConstant(xs[0]) + DumpConstants(xs[1..])
  }

  function DumpLocVars(xs: seq<LocVar>): Bytes
    requires forall i :: 0 <= i < |xs| ==> LocVarOk(xs[i])
  {
    if xs == [] then [] else DumpLocVar(xs[0]) + DumpLocVars(xs[1..])
  }

  function DumpNames(xs: seq<Name>): Bytes
    requires forall i :: 0 <= i < |xs| ==> NameOk(xs[i])
  {
    if xs == [] then [] else DumpName(xs[0]) + DumpNames(xs[1..])
  }

  function DumpHead(h: Head): Bytes
    requires HeadOk(h)
  {
    DumpName(h.source) + (DumpInt(h.linedefined)
      + (DumpInt(h.lastlinedefined) + [h.nups, h.numparams, h.isVararg, h.maxstacksize]))
  }

  function DumpDebug(d: Debug): Bytes
    requires DebugOk(d)
  {
    DumpInt(|d.lineinfo|) + (DumpInts(d.lineinfo)
      + (DumpInt(|d.locvars|) + (DumpLocVars(d.locvars) + (DumpInt(|d.upvalues|) + DumpNames(d.upvalues)))))
  }

  /** What is dumped of a head: a source that is the parent's own, or stripped, is left out. */
  function HeadOut(h: Head, parent: Name, strip: bool): Head {
    if h.source == parent || strip then h.(source := NoName) else h
  }

  function DebugOut(d: Debug, strip: bool): Debug {
    if strip then Debug([], [], []) else d
  }

  function DumpFunction(f: Proto, parent: Name, strip: bool): Bytes
    requires ProtoOk(f)
  {
    DumpHead(HeadOut(f.head, parent, strip))
      + (DumpInt(|f.code|) + (DumpWords(f.code) + (DumpInt(|f.k|) + (DumpConstants(f.k)
    + (DumpInt(|f.p|) + (DumpProtos(f.p, f.head.source, strip) + DumpDebug(DebugOut(f.debug, strip))))))))
  }

  function DumpProtos(ps: seq<Proto>, parent: Name, strip: bool): Bytes
    requires forall i :: 0 <= i < |ps| ==> ProtoOk(ps[i])
  {
    if ps == [] then [] else DumpFunction(ps[0], parent, strip) + DumpProtos(ps[1..], parent, strip)
  }

  /** luaU_header */
  const HEADER: Bytes := [27, 'L' as int, 'u' as int, 'a' as int, 0x51, 0, 1, 4, 4, 4, 8, 0]

  /** luaU_dump */
  function Dump(f: Proto, strip: bool): Bytes
    requires ProtoOk(f)
  {
    HEADER + DumpFunction(f, NoName, strip)
  }

  // ---------------------------------------------------------------- what is loaded again

  /** The prototype with every source that is left out taken from the function around it. */
  function Restored(f: Proto, parent: Name, strip: bool): Proto {
    var source := if strip || f.head.source == NoName then parent else f.head.source;
    Proto(f.head.(source := source), f.code, f.k, RestoredAll(f.p, source, strip), DebugOut(f.debug, strip))
  }

  function RestoredAll(ps: seq<Proto>, parent: Name, strip: bool): (r: seq<Proto>)
    ensures |r| == |ps|
  {
    if ps == [] then [] else [Restored(ps[0], parent, strip)] + RestoredAll(ps[1..], parent, strip)
  }
}

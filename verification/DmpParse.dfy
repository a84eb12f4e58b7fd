/** Reading a precompiled chunk (lundump.c), as functions of the bytes that are still to come. */
module DmpParse {
  import opened Limits
  import opened Wrappers
  import opened ByteStrings
  import opened DmpProto

  /** A value, and the bytes after it. */
  type Parse<T> = Result<(T, Bytes), Error>

  function ParseBlock(b: Bytes, n: nat): (r: Parse<Bytes>)
    ensures r.Ok? ==> |r.value.0| == n && b == r.value.0 + r.value.1
  {
    if |b| >= n then Ok((b[..n], b[n..])) else Fail(UnexpectedEnd)
  }

  function ParseByte(b: Bytes): Parse<Byte> {
    var (x, b) :- ParseBlock(b, 1);
    Ok((x[0], b))
  }

  function ParseInt(b: Bytes): (r: Parse<int>)
    ensures r.Ok? ==> r.value.0 >= 0
  {
    var (x, b) :- ParseBlock(b, 4);
    if DecInt(x) < 0 then Fail(BadInteger) else Ok((DecInt(x), b))
  }

  function ParseName(b: Bytes): Parse<Name> {
    var (x, b) :- ParseBlock(b, 4);
    var size := Dec32(x);
    if size == 0 then Ok((NoName, b))
    else
      var (s, b) :- ParseBlock(b, size);
      Ok((Name(s[..size - 1]), b))
  }

  function ParseConstant(b: Bytes): Parse<Constant> {
    var (t, b) :- ParseByte(b);
    if t == 0 then Ok((Nil, b))
    else if t == 1 then
      var (x, b) :- ParseByte(b);
      Ok((Bool(x != 0), b))
    else if t == 3 then
      var (n, b) :- ParseBlock(b, 8);
      Ok((Num(n), b))
    else if t == 4 then
      var (s, b) :- ParseName(b);
      Ok((Str(s), b))
    else Fail(BadConstant)
  }

  function Words(b: Bytes): seq<int>
  {
    if |b| < 4 then [] else [Dec32(b[..4])] + Words(b[4..])
  }

  function Ints(b: Bytes): seq<int>
  {
    if |b| < 4 then [] else [DecInt(b[..4])] + Ints(b[4..])
  }

  function ParseLocVar(b: Bytes): Parse<LocVar> {
    var (varname, b) :- ParseName(b);
    var (startpc, b) :- ParseInt(b);
    var (endpc, b) :- ParseInt(b);
    Ok((LocVar(varname, startpc, endpc), b))
  }

  function ParseConstants(b: Bytes, n: nat): Parse<seq<Constant>> {
    if n == 0 then Ok(([], b))
    else
      var (x, b) :- ParseConstant(b);
      var (xs, b) :- ParseConstants(b, n - 1);
      Ok(([x] + xs, b))
  }

  function ParseLocVars(b: Bytes, n: nat): Parse<seq<LocVar>> {
    if n == 0 then Ok(([], b))
    else
      var (x, b) :- ParseLocVar(b);
      var (xs, b) :- ParseLocVars(b, n - 1);
      Ok(([x] + xs, b))
  }

  function ParseNames(b: Bytes, n: nat): Parse<seq<Name>> {
    if n == 0 then Ok(([], b))
    else
      var (x, b) :- ParseName(b);
      var (xs, b) :- ParseNames(b, n - 1);
      Ok(([x] + xs, b))
  }

  function ParseHead(b: Bytes, parent: Name): Parse<Head> {
    var (source, b) :- ParseName(b);
    var (linedefined, b) :- ParseInt(b);
    var (lastlinedefined, b) :- ParseInt(b);
    var (nups, b) :- ParseByte(b);
    var (numparams, b) :- ParseByte(b);
    var (isVararg, b) :- ParseByte(b);
    var (maxstacksize, b) :- ParseByte(b);
    Ok((Head(if source.NoName? then parent else source, linedefined, lastlinedefined, nups, numparams, isVararg,
                                                maxstacksize), b))
  }

  function ParseCode(b: Bytes): Parse<seq<int>> {
    var (n, b) :- ParseInt(b);
    var (x, b) :- ParseBlock(b, 4 * n);
    Ok((Words(x), b))
  }

  function ParseDebug(b: Bytes): Parse<Debug> {
    var (n, b) :- ParseInt(b);
    var (x, b) :- ParseBlock(b, 4 * n);
    var (n, b) :- ParseInt(b);
    var (locvars, b) :- ParseLocVars(b, n);
    var (n, b) :- ParseInt(b);
    var (upvalues, b) :- ParseNames(b, n);
    Ok((Debug(Ints(x), locvars, upvalues), b))
  }

  /** `calls` functions are being loaded; `check` stands for luaG_checkcode. */
  function ParseFunction(b: Bytes, parent: Name, calls: nat, check: Proto -> bool): Parse<Proto>
    decreases MAXCCALLS - calls, 1, 0
  {
    if calls + 1 > MAXCCALLS then Fail(TooDeep)
    else
      var (head, b) :- ParseHead(b, parent);
      var (code, b) :- ParseCode(b);
      var (n, b) :- ParseInt(b);
      var (k, b) :- ParseConstants(b, n);
      var (n, b) :- ParseInt(b);
      var (p, b) :- ParseProtos(b, n, head.source, calls + 1, check);
      var (debug, b) :- ParseDebug(b);
      var f := Proto(head, code, k, p, debug);
      if check(f) then Ok((f, b)) else Fail(BadCode)
  }

  function ParseProtos(b: Bytes, n: nat, parent: Name, calls: nat, check: Proto -> bool): Parse<seq<Proto>>
    decreases MAXCCALLS - calls, 2, n
  {
    if n == 0 then Ok(([], b))
    else
      var (x, b) :- ParseFunction(b, parent, calls, check);
      var (xs, b) :- ParseProtos(b, n - 1, parent, calls, check);
      Ok(([x] + xs, b))
  }

  /** "=?", the source of a main function that has none */
  const NO_SOURCE: Name := Name(['=' as int, '?' as int])

  /** luaU_undump */
  function Undump(b: Bytes, calls: nat, check: Proto -> bool): Parse<Proto> {
    var (h, b) :- ParseBlock(b, |HEADER|);
    if h != HEADER then Fail(BadHeader) else ParseFunction(b, NO_SOURCE, calls, check)
  }

  // ---------------------------------------------------------------- loading what was dumped

  lemma BlockBack(x: Bytes, rest: Bytes)
    ensures ParseBlock(x + rest, |x|) == Ok((x, rest))
  {
  }

  lemma IntBack(x: int, rest: Bytes)
    requires IsSize(x)
    ensures ParseInt(DumpInt(x) + rest) == Ok((x, rest))
  {
    DecIntEncInt(x);
    BlockBack(DumpInt(x), rest);
    hide EncInt, DecInt;
  }

  lemma ByteBack(x: Byte, rest: Bytes)
    ensures ParseByte([x] + rest) == Ok((x, rest))
  {
    BlockBack([x], rest);
  }

  lemma NameBack(s: Name, rest: Bytes)
    requires NameOk(s)
    ensures ParseName(DumpName(s) + rest) == Ok((s, rest))
  {
    hide Enc32, Dec32;
    match s {
      case NoName =>
        Dec32Enc32(0);
        BlockBack(Enc32(0), rest);
      case Name(t) =>
        Dec32Enc32(|t| + 1);
        assert DumpName(s) + rest == Enc32(|t| + 1) + ((t + [0]) + rest);
        BlockBack(Enc32(|t| + 1), (t + [0]) + rest);
        BlockBack(t + [0], rest);
        assert (t + [0])[..|t|] == t;
    }
  }

  lemma ConstantBack(c: Constant, rest: Bytes)
    requires ConstantOk(c)
    ensures ParseConstant(DumpConstant(c) + rest) == Ok((c, rest))
  {
    hide DumpName, ParseName;
    match c {
      case Nil =>
        ByteBack(0, rest);
      case Bool(b) =>
        var x: Byte := if b then 1 else 0;
        assert DumpConstant(c) + rest == [1] + ([x] + rest);
        ByteBack(1, [x] + rest);
        ByteBack(x, rest);
      case Num(n) =>
        assert DumpConstant(c) + rest == [3] + (n + rest);
        ByteBack(3, n + rest);
        BlockBack(n, rest);
      case Str(s) =>
        assert DumpConstant(c) + rest == [4] + (DumpName(s) + rest);
        ByteBack(4, DumpName(s) + rest);
        NameBack(s, rest);
    }
  }

  lemma Assoc(a: Bytes, b: Bytes, c: Bytes)
    ensures (a + b) + c == a + (b + c)
  {
  }

  lemma LocVarBack(v: LocVar, rest: Bytes)
    requires LocVarOk(v)
    ensures ParseLocVar(DumpLocVar(v) + rest) == Ok((v, rest))
  {
    hide DumpName, ParseName, DumpInt, ParseInt;
    var n, s, e := DumpName(v.varname), DumpInt(v.startpc), DumpInt(v.endpc);
    Assoc(n, s + e, rest);
    Assoc(s, e, rest);
    NameBack(v.varname, s + (e + rest));
    IntBack(v.startpc, e + rest);
    IntBack(v.endpc, rest);
  }

  lemma {:induction false} ConstantsBack(xs: seq<Constant>, rest: Bytes)
    requires forall i :: 0 <= i < |xs| ==> ConstantOk(xs[i])
    ensures ParseConstants(DumpConstants(xs) + rest, |xs|) == Ok((xs, rest))
  {
    hide DumpConstant, ParseConstant;
    if xs != [] {
      var tail := DumpConstants(xs[1..]);
      Assoc(DumpConstant(xs[0]), tail, rest);
      ConstantBack(xs[0], tail + rest);
      ConstantsBack(xs[1..], rest);
      assert [xs[0]] + xs[1..] == xs;
    } else {
      assert [] + rest == rest;
    }
  }

  lemma {:induction false} LocVarsBack(xs: seq<LocVar>, rest: Bytes)
    requires forall i :: 0 <= i < |xs| ==> LocVarOk(xs[i])
    ensures ParseLocVars(DumpLocVars(xs) + rest, |xs|) == Ok((xs, rest))
  {
    hide DumpLocVar, ParseLocVar;
    if xs != [] {
      var tail := DumpLocVars(xs[1..]);
      Assoc(DumpLocVar(xs[0]), tail, rest);
      LocVarBack(xs[0], tail + rest);
      LocVarsBack(xs[1..], rest);
      assert [xs[0]] + xs[1..] == xs;
    } else {
      assert [] + rest == rest;
    }
  }

  lemma {:induction false} NamesBack(xs: seq<Name>, rest: Bytes)
    requires forall i :: 0 <= i < |xs| ==> NameOk(xs[i])
    ensures ParseNames(DumpNames(xs) + rest, |xs|) == Ok((xs, rest))
  {
    hide DumpName, ParseName;
    if xs != [] {
      var tail := DumpNames(xs[1..]);
      Assoc(DumpName(xs[0]), tail, rest);
      NameBack(xs[0], tail + rest);
      NamesBack(xs[1..], rest);
      assert [xs[0]] + xs[1..] == xs;
    } else {
      assert [] + rest == rest;
    }
  }

  lemma {:induction false} WordsBack(xs: seq<int>)
    requires forall i :: 0 <= i < |xs| ==> IsInstruction(xs[i])
    ensures Words(DumpWords(xs)) == xs
  {
    hide Enc32, Dec32;
    if xs != [] {
      assert IsInstruction(xs[0]);
      Dec32Enc32(xs[0]);
      var b := DumpWords(xs);
      assert b[..4] == Enc32(xs[0]) && b[4..] == DumpWords(xs[1..]);
      WordsBack(xs[1..]);
    }
  }

  lemma {:induction false} IntsBack(xs: seq<int>)
    requires forall i :: 0 <= i < |xs| ==> IsInt(xs[i])
    ensures Ints(DumpInts(xs)) == xs
  {
    hide EncInt, DecInt;
    if xs != [] {
      DecIntEncInt(xs[0]);
      var b := DumpInts(xs);
      assert b[..4] == EncInt(xs[0]) && b[4..] == DumpInts(xs[1..]);
      IntsBack(xs[1..]);
    }
  }

  lemma HeadBack(h: Head, parent: Name, rest: Bytes)
    requires HeadOk(h)
    ensures ParseHead(DumpHead(h) + rest, parent)
      == Ok((h.(source := if h.source.NoName? then parent else h.source), rest))
  {
    hide DumpName, ParseName, DumpInt, ParseInt, ParseByte;
    var n, l, e := DumpName(h.source), DumpInt(h.linedefined), DumpInt(h.lastlinedefined);
    var q: Bytes := [h.nups, h.numparams, h.isVararg, h.maxstacksize];
    Assoc(n, l + (e + q), rest);
    Assoc(l, e + q, rest);
    Assoc(e, q, rest);
    NameBack(h.source, l + (e + (q + rest)));
    IntBack(h.linedefined, e + (q + rest));
    IntBack(h.lastlinedefined, q + rest);
    var r3 := [h.maxstacksize] + rest;
    var r2 := [h.isVararg] + r3;
    var r1 := [h.numparams] + r2;
    assert q + rest == [h.nups] + r1;
    ByteBack(h.nups, r1);
    ByteBack(h.numparams, r2);
    ByteBack(h.isVararg, r3);
    ByteBack(h.maxstacksize, rest);
  }

  lemma CodeBack(code: seq<int>, rest: Bytes)
    requires IsSize(|code|) && forall i :: 0 <= i < |code| ==> IsInstruction(code[i])
    ensures ParseCode(DumpInt(|code|) + (DumpWords(code) + rest)) == Ok((code, rest))
  {
    hide DumpInt, ParseInt, DumpWords, Words;
    IntBack(|code|, DumpWords(code) + rest);
    BlockBack(DumpWords(code), rest);
    WordsBack(code);
    WordsLength(code);
  }

  lemma WordsLength(xs: seq<int>)
    requires forall i :: 0 <= i < |xs| ==> IsInstruction(xs[i])
    ensures |DumpWords(xs)| == 4 * |xs|
  {
  }

  lemma IntsLength(xs: seq<int>)
    requires forall i :: 0 <= i < |xs| ==> IsInt(xs[i])
    ensures |DumpInts(xs)| == 4 * |xs|
  {
  }

  lemma DebugBack(d: Debug, rest: Bytes)
    requires DebugOk(d)
    ensures ParseDebug(DumpDebug(d) + rest) == Ok((d, rest))
  {
    hide DumpInt, ParseInt, DumpInts, Ints, DumpLocVars, ParseLocVars, DumpNames, ParseNames;
    var n1, x1, n2, x2, n3, x3 := DumpInt(|d.lineinfo|), DumpInts(d.lineinfo), DumpInt(|d.locvars|),
      DumpLocVars(d.locvars), DumpInt(|d.upvalues|), DumpNames(d.upvalues);
    Assoc(n1, x1 + (n2 + (x2 + (n3 + x3))), rest);
    Assoc(x1, n2 + (x2 + (n3 + x3)), rest);
    Assoc(n2, x2 + (n3 + x3), rest);
    Assoc(x2, n3 + x3, rest);
    Assoc(n3, x3, rest);
    IntBack(|d.lineinfo|, x1 + (n2 + (x2 + (n3 + (x3 + rest)))));
    IntsLength(d.lineinfo);
    BlockBack(x1, n2 + (x2 + (n3 + (x3 + rest))));
    IntsBack(d.lineinfo);
    IntBack(|d.locvars|, x2 + (n3 + (x3 + rest)));
    LocVarsBack(d.locvars, n3 + (x3 + rest));
    IntBack(|d.upvalues|, x3 + rest);
    NamesBack(d.upvalues, rest);
  }

  /** luaG_checkcode accepts the function and those inside it. */
  ghost predicate Checks(f: Proto, check: Proto -> bool) {
    check(f) && forall i :: 0 <= i < |f.p| ==> Checks(f.p[i], check)
  }

  ghost predicate ChecksAll(ps: seq<Proto>, check: Proto -> bool) {
    forall i :: 0 <= i < |ps| ==> Checks(ps[i], check)
  }

  /** The parent's source as it was dumped, and as it is after loading. */
  predicate SameParent(parent: Name, loaded: Name, strip: bool) {
    strip || parent.NoName? || loaded == parent
  }

  /** Loading a function, given what loading its parts gives. */
  lemma ParseParts(b0: Bytes, parent: Name, calls: nat, check: Proto -> bool, b1: Bytes, b2: Bytes, b3: Bytes,
      b4: Bytes, b5: Bytes, b6: Bytes, rest: Bytes, f: Proto)
    requires calls + 1 <= MAXCCALLS && ParseHead(b0, parent) == Ok((f.head, b1)) && ParseCode(b1) == Ok((f.code, b2))
    requires ParseInt(b2) == Ok((|f.k|, b3)) && ParseConstants(b3, |f.k|) == Ok((f.k, b4))
      && ParseInt(b4) == Ok((|f.p|, b5))
    requires ParseDebug(b6) == Ok((f.debug, rest)) && check(f)
    ensures ParseProtos(b5, |f.p|, f.head.source, calls + 1, check) == Ok((f.p, b6))
      ==> ParseFunction(b0, parent, calls, check) == Ok((f, rest))
    ensures ParseProtos(b5, |f.p|, f.head.source, calls + 1, check) == Fail(TooDeep)
      ==> ParseFunction(b0, parent, calls, check) == Fail(TooDeep)
  {
    hide ParseHead, ParseCode, ParseInt, ParseConstants, ParseDebug, ParseProtos;
  }

  /** The parts of the prototype that is loaded back. */
  lemma RestoredParts(f: Proto, parent: Name, loaded: Name, strip: bool, check: Proto -> bool)
    requires ProtoOk(f) && SameParent(parent, loaded, strip) && Checks(Restored(f, loaded, strip), check)
    ensures var g := Restored(f, loaded, strip);
            var h := HeadOut(f.head, parent, strip);
            && HeadOk(h) && h.(source := if h.source.NoName? then loaded else h.source) == g.head && g.code == f.code
              && g.k == f.k
            && g.p == RestoredAll(f.p, g.head.source, strip) && g.debug == DebugOut(f.debug, strip) && DebugOk(g.debug)
            && check(g) && ChecksAll(g.p, check) && SameParent(f.head.source, g.head.source, strip)
    ensures IsInt(|f.code|) && IsInt(|f.k|) && IsInt(|f.p|)
    ensures IsSize(|f.code|) && IsSize(|f.k|) && IsSize(|f.p|)
      && (forall i :: 0 <= i < |f.code| ==> IsInstruction(f.code[i]))
    ensures (forall i :: 0 <= i < |f.k| ==> ConstantOk(f.k[i])) && forall i :: 0 <= i < |f.p| ==> ProtoOk(f.p[i])
  {
  }

  /** A dumped function is loaded back, unless functions are nested too deep. */
  lemma {:induction false} FunctionBack(f: Proto, parent: Name, loaded: Name, strip: bool, rest: Bytes, calls: nat,
      check: Proto -> bool)
    requires ProtoOk(f) && SameParent(parent, loaded, strip) && Checks(Restored(f, loaded, strip), check)
    ensures ParseFunction(DumpFunction(f, parent, strip) + rest, loaded, calls, check) ==
            if calls + Depth(f) <= MAXCCALLS then Ok((Restored(f, loaded, strip), rest)) else Fail(TooDeep)
    decreases f, 0
  {
    hide *;
    DepthIs(f);
    if calls + 1 <= MAXCCALLS {
      var g := Restored(f, loaded, strip);
      RestoredParts(f, parent, loaded, strip, check);
      var b6 := DumpDebug(g.debug) + rest;
      var b5 := DumpProtos(f.p, f.head.source, strip) + b6;
      var b4 := DumpInt(|f.p|) + b5;
      var b3 := DumpConstants(f.k) + b4;
      var b2 := DumpInt(|f.k|) + b3;
      var b1 := DumpInt(|f.code|) + (DumpWords(f.code) + b2);
      FunctionBytes(f, parent, strip, rest);
      HeadBack(HeadOut(f.head, parent, strip), loaded, b1);
      CodeBack(f.code, b2);
      IntBack(|f.k|, b3);
      ConstantsBack(f.k, b4);
      IntBack(|f.p|, b5);
      ProtosBack(f.p, f.head.source, g.head.source, strip, b6, calls + 1, check);
      DebugBack(g.debug, rest);
      ParseParts(DumpFunction(f, parent, strip) + rest, loaded, calls, check, b1, b2, b3, b4, b5, b6, rest, g);
    } else {
      ParseTooDeep(DumpFunction(f, parent, strip) + rest, loaded, calls, check);
    }
  }

  lemma DepthIs(f: Proto)
    ensures Depth(f) == 1 + DepthAll(f.p) && (f.p == [] ==> DepthAll(f.p) == 0)
  {
  }

  lemma ParseTooDeep(b: Bytes, parent: Name, calls: nat, check: Proto -> bool)
    requires calls + 1 > MAXCCALLS
    ensures ParseFunction(b, parent, calls, check) == Fail(TooDeep)
  {
  }

  lemma {:induction false} ProtosBack(ps: seq<Proto>, parent: Name, loaded: Name, strip: bool, rest: Bytes, calls: nat,
      check: Proto -> bool)
    requires (forall i :: 0 <= i < |ps| ==> ProtoOk(ps[i])) && SameParent(parent, loaded, strip)
      && ChecksAll(RestoredAll(ps, loaded, strip), check)
    ensures ParseProtos(DumpProtos(ps, parent, strip) + rest, |ps|, loaded, calls, check) ==
            if calls + DepthAll(ps) <= MAXCCALLS || ps == [] then Ok((RestoredAll(ps, loaded, strip), rest))
              else Fail(TooDeep)
    decreases ps, 1
  {
    hide ParseFunction, DumpFunction, Restored, Depth, Checks, ProtoOk;
    if ps == [] {
      assert [] + rest == rest;
    } else {
      var tail := DumpProtos(ps[1..], parent, strip);
      Assoc(DumpFunction(ps[0], parent, strip), tail, rest);
      var gs := RestoredAll(ps, loaded, strip);
      assert Checks(gs[0], check);
      FunctionBack(ps[0], parent, loaded, strip, tail + rest, calls, check);
      assert forall i :: 0 <= i < |ps| - 1 ==> gs[1..][i] == gs[i + 1];
      assert RestoredAll(ps[1..], loaded, strip) == gs[1..];
      ProtosBack(ps[1..], parent, loaded, strip, rest, calls, check);
    }
  }

  lemma FunctionBytes(f: Proto, parent: Name, strip: bool, rest: Bytes)
    requires ProtoOk(f)
    ensures DumpFunction(f, parent, strip) + rest ==
            DumpHead(HeadOut(f.head, parent, strip))
              + (DumpInt(|f.code|) + (DumpWords(f.code) + (DumpInt(|f.k|) + (DumpConstants(f.k)
            + (DumpInt(|f.p|) + (DumpProtos(f.p, f.head.source, strip)
              + (DumpDebug(DebugOut(f.debug, strip)) + rest)))))))
  {
    hide DumpHead, DumpInt, DumpConstants, DumpProtos, DumpDebug, DumpWords;
    var d, p, np := DumpDebug(DebugOut(f.debug, strip)), DumpProtos(f.p, f.head.source, strip), DumpInt(|f.p|);
    var k, nk, c, nc := DumpConstants(f.k), DumpInt(|f.k|), DumpWords(f.code), DumpInt(|f.code|);
    Assoc(p, d, rest);
    Assoc(np, p + d, rest);
    Assoc(k, np + (p + d), rest);
    Assoc(nk, k + (np + (p + d)), rest);
    Assoc(c, nk + (k + (np + (p + d))), rest);
    Assoc(nc, c + (nk + (k + (np + (p + d)))), rest);
    Assoc(DumpHead(HeadOut(f.head, parent, strip)), nc + (c + (nk + (k + (np + (p + d))))), rest);
  }

  /** Loading a dumped chunk. */
  lemma UndumpDump(f: Proto, strip: bool, rest: Bytes, calls: nat, check: Proto -> bool)
    requires ProtoOk(f) && Checks(Restored(f, NO_SOURCE, strip), check)
    ensures Undump(Dump(f, strip) + rest, calls, check) ==
            if calls + Depth(f) <= MAXCCALLS then Ok((Restored(f, NO_SOURCE, strip), rest)) else Fail(TooDeep)
  {
    Assoc(HEADER, DumpFunction(f, NoName, strip), rest);
    BlockBack(HEADER, DumpFunction(f, NoName, strip) + rest);
    FunctionBack(f, NoName, NO_SOURCE, strip, rest, calls, check);
    hide ParseFunction, DumpFunction, Restored;
  }

  ghost predicate Named(f: Proto) {
    f.head.source.Name? && forall i :: 0 <= i < |f.p| ==> Named(f.p[i])
  }

  /** Unstripped, the prototype that comes back is the one dumped exactly if every function has a source of its own. */
  lemma {:induction false} RestoredSame(f: Proto, parent: Name)
    requires parent.Name?
    ensures Named(Restored(f, parent, false))
    ensures Restored(f, parent, false) == f <==> Named(f)
    decreases f, 0
  {
    var source := if f.head.source == NoName then parent else f.head.source;
    RestoredAllSame(f.p, source);
    hide Named;
    assert Named(f) <==> f.head.source.Name? && forall i :: 0 <= i < |f.p| ==> Named(f.p[i]) by {
      NamedIs(f);
    }
    NamedIs(Restored(f, parent, false));
  }

  lemma NamedIs(f: Proto)
    ensures Named(f) <==> f.head.source.Name? && forall i :: 0 <= i < |f.p| ==> Named(f.p[i])
  {
  }

  lemma {:induction false} RestoredAllSame(ps: seq<Proto>, parent: Name)
    requires parent.Name?
    ensures forall i :: 0 <= i < |ps| ==> Named(RestoredAll(ps, parent, false)[i])
    ensures RestoredAll(ps, parent, false) == ps <==> forall i :: 0 <= i < |ps| ==> Named(ps[i])
    decreases ps, 1
  {
    hide Restored, Named;
    if ps != [] {
      RestoredSame(ps[0], parent);
      RestoredAllSame(ps[1..], parent);
      var rs := RestoredAll(ps, parent, false);
      assert rs[0] == Restored(ps[0], parent, false) && rs[1..] == RestoredAll(ps[1..], parent, false);
      assert forall i :: 0 < i < |ps| ==> ps[i] == ps[1..][i - 1] && rs[i] == rs[1..][i - 1];
      assert forall i :: 0 <= i < |ps| - 1 ==> ps[1..][i] == ps[i + 1];
      assert rs == ps <==> rs[0] == ps[0] && rs[1..] == ps[1..] by {
        if rs[0] == ps[0] && rs[1..] == ps[1..] {
          assert rs == [rs[0]] + rs[1..] && ps == [ps[0]] + ps[1..];
        }
      }
    }
  }

  /** Stripping takes away the sources and the debug information, and nothing else. */
  ghost predicate OnlyStripped(f: Proto, g: Proto) {
    && g.head == f.head.(source := g.head.source) && g.code == f.code && g.k == f.k && g.debug == Debug([], [], [])
    && |g.p| == |f.p| && forall i :: 0 <= i < |f.p| ==> OnlyStripped(f.p[i], g.p[i])
  }

  lemma {:induction false} StripChanges(f: Proto, parent: Name)
    ensures OnlyStripped(f, Restored(f, parent, true)) && Restored(f, parent, true).head.source == parent
    decreases f, 0
  {
    StripChangesAll(f.p, parent);
  }

  lemma {:induction false} StripChangesAll(ps: seq<Proto>, parent: Name)
    ensures forall i :: 0 <= i < |ps| ==> OnlyStripped(ps[i], RestoredAll(ps, parent, true)[i])
    decreases ps, 1
  {
    hide OnlyStripped, Restored;
    if ps != [] {
      StripChanges(ps[0], parent);
      StripChangesAll(ps[1..], parent);
      var rs := RestoredAll(ps, parent, true);
      assert forall i :: 0 < i < |ps| ==> ps[i] == ps[1..][i - 1] && rs[i] == RestoredAll(ps[1..], parent, true)[i - 1];
    }
  }
}

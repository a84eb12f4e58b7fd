/** Dumping a function as it runs (ldump.c): blocks go to a writer, and after an error nothing more is written. */
module DmpWrite {
  import opened ByteStrings
  import opened DmpProto

  /** From `o0` with status `s0`, the bytes `b` were written; with an error, only a first part of them. */
  predicate Wrote(o0: Bytes, s0: int, o1: Bytes, s1: int, b: Bytes) {
    if s0 != 0 then o1 == o0 && s1 == s0
    else if s1 == 0 then o1 == o0 + b
    else o0 <= o1 <= o0 + b
  }

  lemma WroteMore(o0: Bytes, s0: int, o1: Bytes, s1: int, o2: Bytes, s2: int, a: Bytes, b: Bytes)
    requires Wrote(o0, s0, o1, s1, a) && Wrote(o1, s1, o2, s2, b)
    ensures Wrote(o0, s0, o2, s2, a + b)
  {
    assert o0 + (a + b) == (o0 + a) + b;
    if s0 == 0 && s1 != 0 {
      assert o1 <= o0 + a + b;
    }
  }

  lemma WroteNone(o: Bytes, s: int)
    ensures Wrote(o, s, o, s, [])
  {
    assert o + [] == o;
  }

  class DumpState {
    /** What the writer has received, how many more blocks it will take, and its answer after that. */
    var out: Bytes
    var room: nat
    const failure: int
    const strip: bool
    var status: int

    constructor (room: nat, failure: int, strip: bool)
      ensures out == [] && status == 0 && this.failure == failure && this.strip == strip
    {
      out := [];
      this.room := room;
      this.failure := failure;
      this.strip := strip;
      status := 0;
    }

    method Writer(b: Bytes) returns (r: int)
      modifies this
      ensures status == old(status)
      ensures r == 0 ==> out == old(out) + b
      ensures r != 0 ==> out == old(out)
    {
      if room == 0 && failure != 0 {
        return failure;
      }
      room := if room == 0 then 0 else room - 1;
      out := out + b;
      return 0;
    }

    method DumpBlock(b: Bytes)
      modifies this
      ensures Wrote(old(out), old(status), out, status, b)
    {
      if status == 0 {
        status := Writer(b);
      }
    }

    method DumpInt(x: int)
      requires IsInt(x)
      modifies this
      ensures Wrote(old(out), old(status), out, status, DmpProto.DumpInt(x))
    {
      DumpBlock(EncInt(x));
    }

    method DumpString(s: Name)
      requires NameOk(s)
      modifies this
      ensures Wrote(old(out), old(status), out, status, DumpName(s))
    {
      hide Wrote, Enc32;
      if s == NoName {
        DumpBlock(Enc32(0));
      } else {
        DumpBlock(Enc32(|s.s| + 1));
        ghost var o1, s1 := out, status;
        DumpBlock(s.s + [0]);
        WroteMore(old(out), old(status), o1, s1, out, status, Enc32(|s.s| + 1), s.s + [0]);
      }
    }

    method DumpConstant(c: Constant)
      requires ConstantOk(c)
      modifies this
      ensures Wrote(old(out), old(status), out, status, DmpProto.DumpConstant(c))
    {
      hide Wrote, DumpName;
      var t: Byte := match c case Nil => 0 case Bool(_) => 1 case Num(_) => 3 case Str(_) => 4;
      DumpBlock([t]);
      ghost var o1, s1 := out, status;
      match c {
        case Nil =>
        case Bool(b) =>
          var x: Byte := if b then 1 else 0;
          DumpBlock([x]);
          WroteMore(old(out), old(status), o1, s1, out, status, [t], [x]);
          assert [t] + [x] == [t, x];
        case Num(n) =>
          DumpBlock(n);
          WroteMore(old(out), old(status), o1, s1, out, status, [t], n);
        case Str(s) =>
          DumpString(s);
          WroteMore(old(out), old(status), o1, s1, out, status, [t], DumpName(s));
      }
    }

    method DumpConstants(k: seq<Constant>)
      requires forall i :: 0 <= i < |k| ==> ConstantOk(k[i])
      modifies this
      ensures Wrote(old(out), old(status), out, status, DmpProto.DumpConstants(k))
      decreases |k|
    {
      hide Wrote, DmpProto.DumpConstant;
      var i := 0;
      WroteNone(out, status);
      while i < |k|
        invariant 0 <= i <= |k| && Wrote(old(out), old(status), out, status, DmpProto.DumpConstants(k[..i]))
      {
        ghost var o1, s1 := out, status;
        DumpConstant(k[i]);
        WroteMore(old(out), old(status), o1, s1, out, status, DmpProto.DumpConstants(k[..i]),
          DmpProto.DumpConstant(k[i]));
        assert k[..i + 1] == k[..i] + [k[i]];
        ConstantsMore(k[..i], k[i]);
        i := i + 1;
      }
      assert k[..|k|] == k;
    }

    method DumpLocVar(v: LocVar)
      requires LocVarOk(v)
      modifies this
      ensures Wrote(old(out), old(status), out, status, DmpProto.DumpLocVar(v))
    {
      hide Wrote, DumpName, DmpProto.DumpInt;
      DumpString(v.varname);
      ghost var o1, s1 := out, status;
      DumpInt(v.startpc);
      ghost var o2, s2 := out, status;
      DumpInt(v.endpc);
      WroteMore(o1, s1, o2, s2, out, status, DmpProto.DumpInt(v.startpc), DmpProto.DumpInt(v.endpc));
      WroteMore(old(out), old(status), o1, s1, out, status, DumpName(v.varname),
        DmpProto.DumpInt(v.startpc) + DmpProto.DumpInt(v.endpc));
    }

    method DumpLocVars(xs: seq<LocVar>)
      requires forall i :: 0 <= i < |xs| ==> LocVarOk(xs[i])
      modifies this
      ensures Wrote(old(out), old(status), out, status, DmpProto.DumpLocVars(xs))
    {
      hide Wrote, DmpProto.DumpLocVar;
      var i := 0;
      WroteNone(out, status);
      while i < |xs|
        invariant 0 <= i <= |xs| && Wrote(old(out), old(status), out, status, DmpProto.DumpLocVars(xs[..i]))
      {
        ghost var o1, s1 := out, status;
        DumpLocVar(xs[i]);
        WroteMore(old(out), old(status), o1, s1, out, status, DmpProto.DumpLocVars(xs[..i]),
          DmpProto.DumpLocVar(xs[i]));
        assert xs[..i + 1] == xs[..i] + [xs[i]];
        LocVarsMore(xs[..i], xs[i]);
        i := i + 1;
      }
      assert xs[..|xs|] == xs;
    }

    method DumpNames(xs: seq<Name>)
      requires forall i :: 0 <= i < |xs| ==> NameOk(xs[i])
      modifies this
      ensures Wrote(old(out), old(status), out, status, DmpProto.DumpNames(xs))
    {
      hide Wrote, DumpName;
      var i := 0;
      WroteNone(out, status);
      while i < |xs|
        invariant 0 <= i <= |xs| && Wrote(old(out), old(status), out, status, DmpProto.DumpNames(xs[..i]))
      {
        ghost var o1, s1 := out, status;
        DumpString(xs[i]);
        WroteMore(old(out), old(status), o1, s1, out, status, DmpProto.DumpNames(xs[..i]), DumpName(xs[i]));
        assert xs[..i + 1] == xs[..i] + [xs[i]];
        NamesMore(xs[..i], xs[i]);
        i := i + 1;
      }
      assert xs[..|xs|] == xs;
    }

    method DumpHead(h: Head)
      requires HeadOk(h)
      modifies this
      ensures Wrote(old(out), old(status), out, status, DmpProto.DumpHead(h))
    {
      hide Wrote, DumpName, DmpProto.DumpInt;
      DumpString(h.source);
      ghost var o1, s1 := out, status;
      DumpInt(h.linedefined);
      ghost var o2, s2 := out, status;
      DumpInt(h.lastlinedefined);
      ghost var o3, s3 := out, status;
      DumpBytes(h.nups, h.numparams, h.isVararg, h.maxstacksize);
      ghost var q: Bytes := [h.nups, h.numparams, h.isVararg, h.maxstacksize];
      WroteMore(o2, s2, o3, s3, out, status, DmpProto.DumpInt(h.lastlinedefined), q);
      WroteMore(o1, s1, o2, s2, out, status, DmpProto.DumpInt(h.linedefined), DmpProto.DumpInt(h.lastlinedefined) + q);
      WroteMore(old(out), old(status), o1, s1, out, status, DumpName(h.source),
        DmpProto.DumpInt(h.linedefined) + (DmpProto.DumpInt(h.lastlinedefined) + q));
    }

    method DumpBytes(a: Byte, b: Byte, c: Byte, d: Byte)
      modifies this
      ensures Wrote(old(out), old(status), out, status, [a, b, c, d])
    {
      hide Wrote;
      DumpBlock([a]);
      ghost var o1, s1 := out, status;
      DumpBlock([b]);
      WroteMore(old(out), old(status), o1, s1, out, status, [a], [b]);
      o1, s1 := out, status;
      DumpBlock([c]);
      WroteMore(old(out), old(status), o1, s1, out, status, [a] + [b], [c]);
      o1, s1 := out, status;
      DumpBlock([d]);
      WroteMore(old(out), old(status), o1, s1, out, status, [a] + [b] + [c], [d]);
      assert [a] + [b] + [c] + [d] == [a, b, c, d];
    }

    /** A count, and what it counts. */
    lemma Counted(o0: Bytes, s0: int, o1: Bytes, s1: int, o2: Bytes, s2: int, o3: Bytes, s3: int, n: Bytes, x: Bytes,
        rest: Bytes)
      requires Wrote(o0, s0, o1, s1, n) && Wrote(o1, s1, o2, s2, x) && Wrote(o2, s2, o3, s3, rest)
      ensures Wrote(o0, s0, o3, s3, n + (x + rest))
    {
      WroteMore(o1, s1, o2, s2, o3, s3, x, rest);
      WroteMore(o0, s0, o1, s1, o3, s3, n, x + rest);
      hide Wrote;
    }

    method DumpDebug(d0: Debug)
      requires DebugOk(d0)
      modifies this
      ensures Wrote(old(out), old(status), out, status, DmpProto.DumpDebug(DebugOut(d0, strip)))
    {
      hide Wrote, DmpProto.DumpInt, DmpProto.DumpNames, DmpProto.DumpLocVars, DumpInts;
      var d := DebugOut(d0, strip);
      DumpInt(|d.lineinfo|);
      ghost var o1, s1 := out, status;
      DumpBlock(DumpInts(d.lineinfo));
      ghost var o2, s2 := out, status;
      DumpInt(|d.locvars|);
      ghost var o3, s3 := out, status;
      DumpLocVars(d.locvars);
      ghost var o4, s4 := out, status;
      DumpInt(|d.upvalues|);
      ghost var o5, s5 := out, status;
      DumpNames(d.upvalues);
      WroteMore(o4, s4, o5, s5, out, status, DmpProto.DumpInt(|d.upvalues|), DmpProto.DumpNames(d.upvalues));
      ghost var r3 := DmpProto.DumpInt(|d.upvalues|) + DmpProto.DumpNames(d.upvalues);
      Counted(o2, s2, o3, s3, o4, s4, out, status, DmpProto.DumpInt(|d.locvars|), DmpProto.DumpLocVars(d.locvars), r3);
      Counted(old(out), old(status), o1, s1, o2, s2, out, status, DmpProto.DumpInt(|d.lineinfo|), DumpInts(d.lineinfo),
        DmpProto.DumpInt(|d.locvars|) + (DmpProto.DumpLocVars(d.locvars) + r3));
    }

    method DumpProtos(ps: seq<Proto>, parent: Name)
      requires forall i :: 0 <= i < |ps| ==> ProtoOk(ps[i])
      modifies this
      ensures Wrote(old(out), old(status), out, status, DmpProto.DumpProtos(ps, parent, strip))
      decreases ps, 0
    {
      hide Wrote, DmpProto.DumpFunction, ProtoOk;
      var i := 0;
      WroteNone(out, status);
      while i < |ps|
        invariant 0 <= i <= |ps|
          && Wrote(old(out), old(status), out, status, DmpProto.DumpProtos(ps[..i], parent, strip))
      {
        ghost var o1, s1 := out, status;
        DumpFunction(ps[i], parent);
        WroteMore(old(out), old(status), o1, s1, out, status, DmpProto.DumpProtos(ps[..i], parent, strip),
          DmpProto.DumpFunction(ps[i], parent, strip));
        assert ps[..i + 1] == ps[..i] + [ps[i]];
        ProtosMore(ps[..i], ps[i], parent, strip);
        i := i + 1;
      }
      assert ps[..|ps|] == ps;
    }

    method DumpFunction(f: Proto, parent: Name)
      requires ProtoOk(f)
      modifies this
      ensures Wrote(old(out), old(status), out, status, DmpProto.DumpFunction(f, parent, strip))
      decreases f, 1
    {
      hide Wrote, DmpProto.DumpHead, DmpProto.DumpInt, DumpWords, DmpProto.DumpConstants, DmpProto.DumpProtos,
        DmpProto.DumpDebug;
      DumpHead(HeadOut(f.head, parent, strip));
      ghost var o1, s1 := out, status;
      DumpInt(|f.code|);
      ghost var o2, s2 := out, status;
      DumpBlock(DumpWords(f.code));
      ghost var o3, s3 := out, status;
      DumpInt(|f.k|);
      ghost var o4, s4 := out, status;
      DumpConstants(f.k);
      ghost var o5, s5 := out, status;
      DumpInt(|f.p|);
      ghost var o6, s6 := out, status;
      DumpProtos(f.p, f.head.source);
      ghost var o7, s7 := out, status;
      DumpDebug(f.debug);
      ghost var d := DmpProto.DumpDebug(DebugOut(f.debug, strip));
      ghost var np, p := DmpProto.DumpInt(|f.p|), DmpProto.DumpProtos(f.p, f.head.source, strip);
      ghost var nk, k := DmpProto.DumpInt(|f.k|), DmpProto.DumpConstants(f.k);
      Counted(o5, s5, o6, s6, o7, s7, out, status, np, p, d);
      Counted(o3, s3, o4, s4, o5, s5, out, status, nk, k, np + (p + d));
      Counted(o1, s1, o2, s2, o3, s3, out, status, DmpProto.DumpInt(|f.code|), DumpWords(f.code),
        nk + (k + (np + (p + d))));
      WroteMore(old(out), old(status), o1, s1, out, status, DmpProto.DumpHead(HeadOut(f.head, parent, strip)),
        DmpProto.DumpInt(|f.code|) + (DumpWords(f.code) + (nk + (k + (np + (p + d))))));
    }
  }

  lemma {:induction false} ConstantsMore(xs: seq<Constant>, x: Constant)
    requires ConstantOk(x) && forall i :: 0 <= i < |xs| ==> ConstantOk(xs[i])
    ensures DumpConstants(xs + [x]) == DumpConstants(xs) + DumpConstant(x)
  {
    hide DumpConstant;
    if xs != [] {
      ConstantsMore(xs[1..], x);
      assert (xs + [x])[1..] == xs[1..] + [x];
    } else {
      assert DumpConstants([x]) == DumpConstant(x) + DumpConstants([x][1..]);
    }
  }

  lemma {:induction false} LocVarsMore(xs: seq<LocVar>, x: LocVar)
    requires LocVarOk(x) && forall i :: 0 <= i < |xs| ==> LocVarOk(xs[i])
    ensures DumpLocVars(xs + [x]) == DumpLocVars(xs) + DumpLocVar(x)
  {
    hide DumpLocVar;
    if xs != [] {
      LocVarsMore(xs[1..], x);
      assert (xs + [x])[1..] == xs[1..] + [x];
    } else {
      assert DumpLocVars([x]) == DumpLocVar(x) + DumpLocVars([x][1..]);
    }
  }

  lemma {:induction false} NamesMore(xs: seq<Name>, x: Name)
    requires NameOk(x) && forall i :: 0 <= i < |xs| ==> NameOk(xs[i])
    ensures DumpNames(xs + [x]) == DumpNames(xs) + DumpName(x)
  {
    hide DumpName;
    if xs != [] {
      NamesMore(xs[1..], x);
      assert (xs + [x])[1..] == xs[1..] + [x];
    } else {
      assert DumpNames([x]) == DumpName(x) + DumpNames([x][1..]);
    }
  }

  lemma {:induction false} ProtosMore(xs: seq<Proto>, x: Proto, parent: Name, strip: bool)
    requires ProtoOk(x) && forall i :: 0 <= i < |xs| ==> ProtoOk(xs[i])
    ensures DumpProtos(xs + [x], parent, strip) == DumpProtos(xs, parent, strip) + DumpFunction(x, parent, strip)
  {
    hide DumpFunction, ProtoOk;
    if xs != [] {
      ProtosMore(xs[1..], x, parent, strip);
      assert (xs + [x])[1..] == xs[1..] + [x];
    } else {
      assert DumpProtos([x], parent, strip) == DumpFunction(x, parent, strip) + DumpProtos([x][1..], parent, strip);
    }
  }

  /** luaU_dump: a zero status means that the writer has the whole chunk, any other that it has the first part of it */
  method Dump(f: Proto, room: nat, failure: int, strip: bool) returns (status: int, out: Bytes)
    requires ProtoOk(f)
    ensures status == 0 ==> out == DmpProto.Dump(f, strip)
    ensures status != 0 ==> out <= DmpProto.Dump(f, strip)
  {
    hide ProtoOk, DumpFunction;
    var d := new DumpState(room, failure, strip);
    d.DumpBlock(HEADER);
    ghost var o1, s1 := d.out, d.status;
    d.DumpFunction(f, NoName);
    WroteMore([], 0, o1, s1, d.out, d.status, HEADER, DumpFunction(f, NoName, strip));
    assert [] + DmpProto.Dump(f, strip) == DmpProto.Dump(f, strip);
    return d.status, d.out;
  }
}

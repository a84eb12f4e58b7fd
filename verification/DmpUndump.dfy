/**
  Loading a precompiled chunk as it runs (lundump.c): each method reads from the stream what the
  parsing function says.
 */
module DmpUndump {
  import opened Limits
  import opened Wrappers
  import opened ByteStrings
  import opened DmpProto
  import opened DmpParse
  import opened DmpZio

  /** A load gives what parsing the bytes gives, and leaves the bytes after it. */
  ghost predicate Loads<T>(r: Result<T, Error>, z: Zio, spec: Result<(T, Bytes), Error>)
    reads z
  {
    && z.Valid()
    && (spec.Ok? ==> r == Ok(spec.value.0) && z.Content() == spec.value.1)
    && (spec.Fail? ==> r == Fail(spec.error))
  }

  function Extend<T>(acc: seq<T>, r: Result<(seq<T>, Bytes), Error>): Result<(seq<T>, Bytes), Error> {
    if r.Fail? then r else Ok((acc + r.value.0, r.value.1))
  }

  lemma ExtendMore<T>(acc: seq<T>, x: T, r: Result<(seq<T>, Bytes), Error>)
    ensures Extend(acc, Extend([x], r)) == Extend(acc + [x], r)
  {
    if r.Ok? {
      assert acc + ([x] + r.value.0) == (acc + [x]) + r.value.0;
    }
  }

  lemma ExtendNone<T>(acc: seq<T>, b: Bytes, r: Result<(seq<T>, Bytes), Error>)
    ensures Extend([], r) == r && Extend(acc, Ok(([], b))) == Ok((acc, b))
  {
    assert acc + [] == acc;
    if r.Ok? {
      assert [] + r.value.0 == r.value.0;
    }
  }

  class LoadState {
    const z: Zio
    const check: Proto -> bool
    var nCcalls: nat

    constructor (z: Zio, check: Proto -> bool, nCcalls: nat)
      ensures this.z == z && this.check == check && this.nCcalls == nCcalls
    {
      this.z := z;
      this.check := check;
      this.nCcalls := nCcalls;
    }

    method LoadBlock(size: nat) returns (r: Result<Bytes, Error>)
      requires z.Valid()
      modifies z
      ensures Loads(r, z, ParseBlock(old(z.Content()), size))
    {
      var missing, b := z.Read(size);
      if missing != 0 {
        assert b + [] == b;
        return Fail(UnexpectedEnd);
      }
      return Ok(b);
    }

    method LoadByte() returns (r: Result<Byte, Error>)
      requires z.Valid()
      modifies z
      ensures Loads(r, z, ParseByte(old(z.Content())))
    {
      var b :- LoadBlock(1);
      return Ok(b[0]);
    }

    method LoadInt() returns (r: Result<int, Error>)
      requires z.Valid()
      modifies z
      ensures Loads(r, z, ParseInt(old(z.Content())))
      ensures r.Ok? ==> r.value >= 0
    {
      var b :- LoadBlock(4);
      var x := DecInt(b);
      if x < 0 {
        return Fail(BadInteger);
      }
      return Ok(x);
    }

    method LoadString() returns (r: Result<Name, Error>)
      requires z.Valid()
      modifies z
      ensures Loads(r, z, ParseName(old(z.Content())))
    {
      var b :- LoadBlock(4);
      var size := Dec32(b);
      if size == 0 {
        return Ok(NoName);
      }
      var s :- LoadBlock(size);
      return Ok(Name(s[..size - 1]));
    }

    method LoadConstant() returns (r: Result<Constant, Error>)
      requires z.Valid()
      modifies z
      ensures Loads(r, z, ParseConstant(old(z.Content())))
    {
      hide ParseByte, ParseName;
      var t :- LoadByte();
      if t == 0 {
        return Ok(Nil);
      }
      if t == 1 {
        var x :- LoadByte();
        return Ok(Bool(x != 0));
      }
      if t == 3 {
        var n :- LoadBlock(8);
        return Ok(Num(n));
      }
      if t == 4 {
        var s :- LoadString();
        return Ok(Str(s));
      }
      return Fail(BadConstant);
    }

    /** The constants of LoadConstants. */
    method LoadConstants(n: nat) returns (r: Result<seq<Constant>, Error>)
      requires z.Valid()
      modifies z
      ensures Loads(r, z, ParseConstants(old(z.Content()), n))
    {
      hide ParseConstant;
      var k, i := [], 0;
      ExtendNone(k, [], ParseConstants(z.Content(), n));
      while i < n
        invariant 0 <= i <= n && z.Valid() && ParseConstants(old(z.Content()), n)
          == Extend(k, ParseConstants(z.Content(), n - i))
      {
        ghost var b := z.Content();
        var c :- LoadConstant();
        ExtendMore(k, c, ParseConstants(z.Content(), n - i - 1));
        k := k + [c];
        i := i + 1;
      }
      ExtendNone(k, z.Content(), Ok(([], [])));
      return Ok(k);
    }

    method LoadLocVar() returns (r: Result<LocVar, Error>)
      requires z.Valid()
      modifies z
      ensures Loads(r, z, ParseLocVar(old(z.Content())))
    {
      hide ParseName, ParseInt;
      var varname :- LoadString();
      var startpc :- LoadInt();
      var endpc :- LoadInt();
      return Ok(LocVar(varname, startpc, endpc));
    }

    method LoadLocVars(n: nat) returns (r: Result<seq<LocVar>, Error>)
      requires z.Valid()
      modifies z
      ensures Loads(r, z, ParseLocVars(old(z.Content()), n))
    {
      hide ParseLocVar;
      var locvars, i := [], 0;
      ExtendNone(locvars, [], ParseLocVars(z.Content(), n));
      while i < n
        invariant 0 <= i <= n && z.Valid() && ParseLocVars(old(z.Content()), n)
          == Extend(locvars, ParseLocVars(z.Content(), n - i))
      {
        var v :- LoadLocVar();
        ExtendMore(locvars, v, ParseLocVars(z.Content(), n - i - 1));
        locvars := locvars + [v];
        i := i + 1;
      }
      ExtendNone(locvars, z.Content(), Ok(([], [])));
      return Ok(locvars);
    }

    method LoadNames(n: nat) returns (r: Result<seq<Name>, Error>)
      requires z.Valid()
      modifies z
      ensures Loads(r, z, ParseNames(old(z.Content()), n))
    {
      hide ParseName;
      var names, i := [], 0;
      ExtendNone(names, [], ParseNames(z.Content(), n));
      while i < n
        invariant 0 <= i <= n && z.Valid() && ParseNames(old(z.Content()), n)
          == Extend(names, ParseNames(z.Content(), n - i))
      {
        var s :- LoadString();
        ExtendMore(names, s, ParseNames(z.Content(), n - i - 1));
        names := names + [s];
        i := i + 1;
      }
      ExtendNone(names, z.Content(), Ok(([], [])));
      return Ok(names);
    }

    method LoadCode() returns (r: Result<seq<int>, Error>)
      requires z.Valid()
      modifies z
      ensures Loads(r, z, ParseCode(old(z.Content())))
    {
      hide ParseInt, Words;
      var n :- LoadInt();
      var b :- LoadBlock(4 * n);
      return Ok(Words(b));
    }

    method LoadDebug() returns (r: Result<Debug, Error>)
      requires z.Valid()
      modifies z
      ensures Loads(r, z, ParseDebug(old(z.Content())))
    {
      hide ParseInt, Ints, ParseLocVars, ParseNames;
      var n :- LoadInt();
      var lineinfo :- LoadBlock(4 * n);
      n :- LoadInt();
      var locvars :- LoadLocVars(n);
      n :- LoadInt();
      var upvalues :- LoadNames(n);
      return Ok(Debug(Ints(lineinfo), locvars, upvalues));
    }

    method LoadHead(parent: Name) returns (r: Result<Head, Error>)
      requires z.Valid()
      modifies z
      ensures Loads(r, z, ParseHead(old(z.Content()), parent))
    {
      hide ParseInt, ParseName, ParseByte;
      var source :- LoadString();
      if source == NoName {
        source := parent;
      }
      var linedefined :- LoadInt();
      var lastlinedefined :- LoadInt();
      var nups :- LoadByte();
      var numparams :- LoadByte();
      var isVararg :- LoadByte();
      var maxstacksize :- LoadByte();
      return Ok(Head(source, linedefined, lastlinedefined, nups, numparams, isVararg, maxstacksize));
    }

    /** The nested functions of LoadConstants. */
    method LoadProtos(n: nat, parent: Name) returns (r: Result<seq<Proto>, Error>)
      requires z.Valid() && nCcalls <= MAXCCALLS
      modifies this, z
      ensures Loads(r, z, ParseProtos(old(z.Content()), n, parent, old(nCcalls), check))
        && (r.Ok? ==> nCcalls == old(nCcalls))
      decreases MAXCCALLS - nCcalls, 2
    {
      hide ParseFunction;
      var p, i := [], 0;
      ExtendNone(p, [], ParseProtos(z.Content(), n, parent, nCcalls, check));
      while i < n
        invariant 0 <= i <= n && z.Valid() && nCcalls == old(nCcalls)
        invariant ParseProtos(old(z.Content()), n, parent, nCcalls, check)
          == Extend(p, ParseProtos(z.Content(), n - i, parent, nCcalls, check))
      {
        var f :- LoadFunction(parent);
        ExtendMore(p, f, ParseProtos(z.Content(), n - i - 1, parent, nCcalls, check));
        p := p + [f];
        i := i + 1;
      }
      ExtendNone(p, z.Content(), Ok(([], [])));
      return Ok(p);
    }

    method LoadFunction(parent: Name) returns (r: Result<Proto, Error>)
      requires z.Valid() && nCcalls <= MAXCCALLS
      modifies this, z
      ensures Loads(r, z, ParseFunction(old(z.Content()), parent, old(nCcalls), check))
        && (r.Ok? ==> nCcalls == old(nCcalls))
      decreases MAXCCALLS - nCcalls, 1
    {
      hide ParseHead, ParseCode, ParseInt, ParseConstants, ParseProtos, ParseDebug;
      nCcalls := nCcalls + 1;
      if nCcalls > MAXCCALLS {
        return Fail(TooDeep);
      }
      var head :- LoadHead(parent);
      var code :- LoadCode();
      var n :- LoadInt();
      var k :- LoadConstants(n);
      n :- LoadInt();
      var p :- LoadProtos(n, head.source);
      var debug :- LoadDebug();
      var f := Proto(head, code, k, p, debug);
      if !check(f) {
        return Fail(BadCode);
      }
      nCcalls := nCcalls - 1;
      return Ok(f);
    }

    /** luaU_undump */
    method Undump() returns (r: Result<Proto, Error>)
      requires z.Valid() && nCcalls <= MAXCCALLS
      modifies this, z
      ensures Loads(r, z, DmpParse.Undump(old(z.Content()), old(nCcalls), check)) && (r.Ok? ==> nCcalls == old(nCcalls))
    {
      hide ParseFunction;
      var h :- LoadBlock(|HEADER|);
      if h != HEADER {
        return Fail(BadHeader);
      }
      r := LoadFunction(NO_SOURCE);
    }
  }

  /** A dumped chunk, cut into blocks in any way, is loaded back. */
  method LoadDumped(blocks: seq<Bytes>, nCcalls: nat, check: Proto -> bool, ghost f: Proto, ghost strip: bool)
      returns (r: Result<Proto, Error>)
    requires (forall i :: 0 <= i < |blocks| ==> blocks[i] != []) && nCcalls <= MAXCCALLS
    requires ProtoOk(f) && Flatten(blocks) == Dump(f, strip) && Checks(Restored(f, NO_SOURCE, strip), check)
    ensures r == if nCcalls + Depth(f) <= MAXCCALLS then Ok(Restored(f, NO_SOURCE, strip)) else Fail(TooDeep)
  {
    hide Dump, DmpParse.Undump, Restored, Checks, ProtoOk, Depth;
    var z := new Zio(blocks);
    var s := new LoadState(z, check, nCcalls);
    UndumpDump(f, strip, [], nCcalls, check);
    assert Dump(f, strip) + [] == Dump(f, strip);
    r := s.Undump();
  }
}

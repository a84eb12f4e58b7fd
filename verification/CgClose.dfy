/** The end of exp2reg: every exit of the expression reaches the end with its value in the register. */
module CgClose {
  import opened Wrappers
  import opened CgSyntax
  import opened CgCode
  import opened CgGen
  import opened CgSound
  import opened CgReg

  lemma NothingPatched(code: Code, vt: nat, reg: Option<nat>, dt: nat)
    ensures Patched(code, {}, vt, reg, dt) == code
  {
  }

  /** Where exit `j` of a list leads, once its jumps with a value go to `final` and the others to `dt`. */
  function Landing(p: Prims, code: Code, final: nat, reg: nat, dt: nat, j: nat, r: Regs): Outcome {
    Exec(p, code, PatchTarget(code, final, dt, j), PatchRegs(code, Some(reg), j, r))
  }

  ghost predicate LandsAtEnd(p: Prims, code: Code, f: set<nat>, reg: nat, pf: nat) {
    forall j, r :: j in f ==> Landing(p, code, |code|, reg, pf, j, r).Fall?
  }

  ghost predicate TwoLists(code: Code, last: int, f: set<nat>, t: set<nat>, pf: nat, pt: nat) {
    && Formed(code, last) && f !! t && AllPending(code, f) && AllPending(code, t)
    && After(code, f, |code|) && After(code, t, |code|)
    && After(code, f, pf) && After(code, t, pf) && After(code, f, pt) && After(code, t, pt)
  }

  lemma EntryPatched(code: Code, last: int, f: set<nat>, reg: Option<nat>, pf: nat, pc: nat)
    requires Formed(code, last) && AllPending(code, f) && IsEntry(code, pc)
    ensures IsEntry(Patched(code, f, |code|, reg, pf), pc)
  {
    if pc > 0 {
      assert Patched(code, f, |code|, reg, pf)[pc - 1] == PatchedAt(code, f, |code|, reg, pf, pc - 1);
    }
  }

  /** After the false list is patched, the true list is as before. */
  lemma FirstPatch(code: Code, last: int, f: set<nat>, t: set<nat>, reg: nat, pf: nat, pt: nat)
    requires TwoLists(code, last, f, t, pf, pt)
    ensures var c1 := Patched(code, f, |code|, Some(reg), pf);
            && Formed(c1, |code|) && AllPending(c1, t) && After(c1, t, |code|) && After(c1, t, pt)
            && forall j :: j in t ==> Valued(c1, j) == Valued(code, j)
                                      && (Valued(code, j) ==> c1[j - 1].b == code[j - 1].b)
  {
    var c1 := Patched(code, f, |code|, Some(reg), pf);
    PatchedFormed(code, last, f, |code|, Some(reg), pf, |code|);
    EntryPatched(code, last, f, Some(reg), pf, |code|);
    EntryPatched(code, last, f, Some(reg), pf, pt);
    forall j | j in t
      ensures IsPending(c1, j) && Valued(c1, j) == Valued(code, j) && (Valued(code, j) ==> c1[j - 1].b == code[j - 1].b)
    {
      assert IsPending(code, j);
      assert c1[j] == PatchedAt(code, f, |code|, Some(reg), pf, j);
      if j > 0 {
        assert c1[j - 1] == PatchedAt(code, f, |code|, Some(reg), pf, j - 1);
      }
    }
  }

  lemma PatchBoth(p: Prims, code: Code, last: int, f: set<nat>, t: set<nat>, reg: nat, pf: nat, pt: nat, r0: Regs)
    requires TwoLists(code, last, f, t, pf, pt)
    requires LandsAtEnd(p, code, f, reg, pf)
    ensures var c2 := Patched(Patched(code, f, |code|, Some(reg), pf), t, |code|, Some(reg), pt);
            var o := Exec(p, code, 0, r0);
            Exec(p, c2, 0, r0) ==
            if o.Exit? && o.j in f then Landing(p, code, |code|, reg, pf, o.j, o.r)
            else if o.Exit? && o.j in t then Landing(p, code, |code|, reg, pt, o.j, o.r)
            else o
    ensures Formed(Patched(Patched(code, f, |code|, Some(reg), pf), t, |code|, Some(reg), pt), |code|)
  {
    var n := |code|;
    var c1 := Patched(code, f, n, Some(reg), pf);
    var o := Exec(p, code, 0, r0);
    FirstPatch(code, last, f, t, reg, pf, pt);
    ExecPatched(p, code, last, f, n, Some(reg), pf, 0, r0);
    ExecPatched(p, c1, n, t, n, Some(reg), pt, 0, r0);
    PatchedFormed(c1, n, t, n, Some(reg), pt, n);
    if o.Exit? && o.j in t && o.j !in f {
      ExecSuffix(p, code, last, f, n, Some(reg), pf, PatchTarget(code, n, pt, o.j),
        PatchRegs(code, Some(reg), o.j, o.r));
    }
    hide Formed, Patched, IsEntry;
  }

  lemma PatchBothFrame(code: Code, f: set<nat>, t: set<nat>, reg: nat, pf: nat, pt: nat, own: set<nat>)
    requires f <= own && t <= own && AllPending(code, f) && AllPending(code, t)
    ensures Frame(code, Patched(Patched(code, f, |code|, Some(reg), pf), t, |code|, Some(reg), pt), own)
  {
    var c1 := Patched(code, f, |code|, Some(reg), pf);
    var c2 := Patched(c1, t, |code|, Some(reg), pt);
    forall j: nat | IsPending(code, j) && j !in own
      ensures SameExit(code, c2, j)
    {
      assert c1[j] == PatchedAt(code, f, |code|, Some(reg), pf, j)
        && c2[j] == PatchedAt(c1, t, |code|, Some(reg), pt, j);
      if j > 0 {
        assert c1[j - 1] == PatchedAt(code, f, |code|, Some(reg), pf, j - 1);
        assert c2[j - 1] == PatchedAt(c1, t, |code|, Some(reg), pt, j - 1);
      }
    }
  }

  // ---------------------------------------------------------------- when every exit has its value

  /** The value is in `reg`, or is that of a jump still to be resolved. */
  ghost predicate Ready(fs: FS, e: Exp, reg: nat, n: nat) {
    FsOk(fs) && ExpOk(fs, e) && CanHold(fs, reg, n) && (e.k == VNonReloc(reg) || e.k.VJmp?)
  }

  lemma CodeEnd(fs: FS)
    requires FsOk(fs)
    ensures IsEntry(fs.code, |fs.code|)
  {
    if |fs.code| > 0 {
      assert FormedAt(fs.code, fs.last, |fs.code| - 1);
    }
  }

  ghost predicate AllValued(code: Code, l: set<nat>) {
    forall j :: j in l ==> Valued(code, j)
  }

  function ValuedOutcome(code: Code, l: set<nat>, reg: nat, o: Outcome): Outcome {
    if o.Exit? && o.j in l then Fall(PatchRegs(code, Some(reg), o.j, o.r)) else o
  }

  lemma ValuedRun(p: Prims, code: Code, last: int, f: set<nat>, t: set<nat>, reg: nat, r0: Regs)
    requires TwoLists(code, last, f, t, |code|, |code|) && AllValued(code, f) && AllValued(code, t)
    ensures var m := |code|;
            var c2 := Patched(Patched(code, f, m, Some(reg), m), t, m, Some(reg), m);
            Exec(p, c2, 0, r0) == ValuedOutcome(code, f + t, reg, Exec(p, code, 0, r0)) && Formed(c2, m)
  {
    PatchBoth(p, code, last, f, t, reg, |code|, |code|, r0);
    hide Formed, Patched, PatchRegs;
  }

  lemma ValuedCarries(p: Prims, n: nat, fs: FS, e: Exp, reg: nat, o: Outcome, fs': FS)
    requires Ready(fs, e, reg, n) && e.k == VNonReloc(reg) && AllValued(fs.code, e.f) && AllValued(fs.code, e.t)
    requires fs'.here == fs.here
    ensures CarriesTo(p, n, fs, e, o, fs', Fixed(reg), ValuedOutcome(fs.code, e.f + e.t, reg, o))
  {
    hide Formed, FsOk;
  }

  lemma ValuedMoves(fs: FS, e: Exp, reg: nat, n: nat, fs': FS)
    requires Ready(fs, e, reg, n) && Formed(fs'.code, |fs'.code|) && Frame(fs.code, fs'.code, Exits(e))
      && |fs'.code| == |fs.code|
    requires fs' == fs.(code := fs'.code, last := |fs.code|) && e.k == VNonReloc(reg)
    ensures Moves(fs, e, fs', Fixed(reg))
  {
    hide Formed;
    forall j | j in fs.here
      ensures IsPending(fs'.code, j)
    {
      assert SameExit(fs.code, fs'.code, j);
    }
  }

  lemma CloseValued(p: Prims, n: nat, fs: FS, e: Exp, reg: nat, r0: Regs)
    requires Ready(fs, e, reg, n) && !NeedValue(fs.code, e.t) && !NeedValue(fs.code, e.f) && !e.k.VJmp?
    ensures var fs' := PatchValues(fs, e.t, e.f, reg, |fs.code|, |fs.code|);
            Moves(fs, e, fs', Fixed(reg)) && Carries(p, n, fs, e, fs', Fixed(reg), r0)
  {
    hide CarriesTo, Moves, Exec, Patched, Formed, ValuedOutcome;
    var c := fs.code;
    var m := |c|;
    CodeEnd(fs);
    assert AllPending(c, e.t) && AllPending(c, e.f);
    assert TwoLists(c, fs.last, e.f, e.t, m, m);
    assert AllValued(c, e.f) && AllValued(c, e.t);
    hide FsOk, ExpOk, NeedValue, TwoLists, AllValued;
    ValuedRun(p, c, fs.last, e.f, e.t, reg, r0);
    PatchBothFrame(c, e.f, e.t, reg, m, m, Exits(e));
    hide Frame;
    var fs' := PatchValues(fs, e.t, e.f, reg, m, m);
    ValuedMoves(fs, e, reg, n, fs');
    ValuedCarries(p, n, fs, e, reg, Exec(p, c, 0, r0), fs');
  }

  // ---------------------------------------------------------------- when some exit has to load its value

  /** `c` is the code `c0`, a jump over what follows if there is a value already, and the loads of false and true. */
  function WithLoads(c0: Code, jump: bool, reg: nat): Code {
    c0 + (if jump then [Jmp(Pending)] else []) + [LoadSkip(reg, false), Set(reg, Load(Bool(true)))]
  }

  lemma LoadBoolsCode(fs: FS, jump: bool, reg: nat)
    requires jump || fs.here == {}
    ensures var fs' := LoadBools(fs, jump, reg);
            && fs'.code == WithLoads(fs.code, jump, reg)
            && fs'.here == (if jump then JumpList(fs) else {}) && fs'.last == |fs'.code|
            && fs' == fs.(code := fs'.code, here := fs'.here, last := fs'.last)
  {
    var fs1 := if jump then EmitJump(fs) else fs;
    NothingPatched(fs1.code, |fs1.code|, None, |fs1.code|);
    var fs2 := Emit(Label(fs1), LoadSkip(reg, false));
    NothingPatched(fs2.code, |fs2.code|, None, |fs2.code|);
  }

  lemma WithLoadsFormed(c0: Code, last: int, jump: bool, reg: nat)
    requires Formed(c0, last) && (jump || (|c0| > 0 && c0[|c0| - 1].Jmp?))
    ensures var c := WithLoads(c0, jump, reg);
            Formed(c, |c|) && IsEntry(c, |c|) && IsEntry(c, |c| - 1) && IsEntry(c, |c| - 2)
  {
    var c := WithLoads(c0, jump, reg);
    forall i | 0 <= i < |c|
      ensures FormedAt(c, |c|, i)
    {
      if i < |c0| {
        assert FormedAt(c0, last, i);
        assert c[i] == c0[i];
        assert IsTest(c0[i]) ==> c[i + 1] == c0[i + 1];
      }
    }
    if |c0| > 0 {
      assert FormedAt(c0, last, |c0| - 1);
    }
  }

  lemma WithLoadsRun(p: Prims, c0: Code, last: int, jump: bool, reg: nat, r0: Regs)
    requires Formed(c0, last)
    ensures var c := WithLoads(c0, jump, reg);
            var o := Exec(p, c0, 0, r0);
            Exec(p, c, 0, r0) == if !o.Fall? then o else if jump then Exit(|c0|, o.r) else Fall(o.r[reg := Bool(false)])
  {
    var s := (if jump then [Jmp(Pending)] else []) + [LoadSkip(reg, false), Set(reg, Load(Bool(true)))];
    var c := WithLoads(c0, jump, reg);
    assert c == c0 + s;
    ExecAppend(p, c0, last, s, 0, r0);
    var o := Exec(p, c0, 0, r0);
    if o.Fall? {
      assert c[|c0|] == if jump then Jmp(Pending) else LoadSkip(reg, false);
    }
  }

  lemma LoadLanding(p: Prims, c0: Code, jump: bool, reg: nat, r: Regs)
    ensures var c := WithLoads(c0, jump, reg);
            && Exec(p, c, |c|, r) == Fall(r)
            && Exec(p, c, |c| - 1, r) == Fall(r[reg := Bool(true)])
            && Exec(p, c, |c| - 2, r) == Fall(r[reg := Bool(false)])
  {
    var c := WithLoads(c0, jump, reg);
    assert c[|c| - 1] == Set(reg, Load(Bool(true))) && c[|c| - 2] == LoadSkip(reg, false);
  }

  /** The lists of an expression, in code that has not been given its loads yet. */
  ghost predicate ListsIn(c0: Code, last: int, jump: bool, f: set<nat>, t: set<nat>) {
    && Formed(c0, last) && f !! t && AllPending(c0, f) && AllPending(c0, t)
    && (jump || (|c0| > 0 && c0[|c0| - 1].Jmp?))
  }

  /** The code of case "some exit has no value", before its jumps are patched. */
  lemma LoadsReady(c0: Code, last: int, jump: bool, reg: nat, f: set<nat>, t: set<nat>)
    requires ListsIn(c0, last, jump, f, t)
    ensures var c := WithLoads(c0, jump, reg);
            && TwoLists(c, |c|, f, t, |c| - 2, |c| - 1)
            && forall j :: j in f + t ==> j < |c0| && Valued(c, j) == Valued(c0, j)
                                          && (Valued(c, j) ==> c[j - 1].b == c0[j - 1].b)
  {
    var c := WithLoads(c0, jump, reg);
    WithLoadsFormed(c0, last, jump, reg);
    hide Formed;
    forall j | j in f + t
      ensures IsPending(c, j) && j < |c0|
    {
      assert IsPending(c0, j) && c[j] == c0[j];
    }
  }

  /** How a run ends once every exit loads its value. */
  function LoadedOutcome(c0: Code, jump: bool, f: set<nat>, t: set<nat>, reg: nat, o: Outcome): Outcome {
    match o
    case Err => Err
    case Fall(r) => if jump then Exit(|c0|, r) else Fall(r[reg := Bool(false)])
    case Exit(j, r) =>
      if j in f then Fall(if Valued(c0, j) then PatchRegs(c0, Some(reg), j, r) else r[reg := Bool(false)])
      else if j in t then Fall(if Valued(c0, j) then PatchRegs(c0, Some(reg), j, r) else r[reg := Bool(true)])
      else o
  }

  lemma LandingLoads(p: Prims, c0: Code, jump: bool, reg: nat, j: nat, r: Regs)
    requires var c := WithLoads(c0, jump, reg); Valued(c, j) == Valued(c0, j)
                                                && (Valued(c, j) ==> c[j - 1].b == c0[j - 1].b)
    ensures var c := WithLoads(c0, jump, reg);
            && Landing(p, c, |c|, reg, |c| - 2, j, r)
              == Fall(if Valued(c0, j) then PatchRegs(c0, Some(reg), j, r) else r[reg := Bool(false)])
            && Landing(p, c, |c|, reg, |c| - 1, j, r)
              == Fall(if Valued(c0, j) then PatchRegs(c0, Some(reg), j, r) else r[reg := Bool(true)])
  {
    var c := WithLoads(c0, jump, reg);
    LoadLanding(p, c0, jump, reg, PatchRegs(c, Some(reg), j, r));
    hide Exec, WithLoads;
  }

  lemma LoadsLand(p: Prims, c0: Code, jump: bool, reg: nat, f: set<nat>)
    requires var c := WithLoads(c0, jump, reg);
             forall j :: j in f ==> Valued(c, j) == Valued(c0, j) && (Valued(c, j) ==> c[j - 1].b == c0[j - 1].b)
    ensures var c := WithLoads(c0, jump, reg); LandsAtEnd(p, c, f, reg, |c| - 2)
  {
    var c := WithLoads(c0, jump, reg);
    var pf: nat := |c| - 2;
    forall j: nat, r: Regs
      ensures j in f ==> Landing(p, c, |c|, reg, pf, j, r).Fall?
    {
      if j in f {
        LandingLoads(p, c0, jump, reg, j, r);
      }
    }
  }

  lemma LoadsRun(p: Prims, c0: Code, last: int, jump: bool, reg: nat, f: set<nat>, t: set<nat>, r0: Regs)
    requires ListsIn(c0, last, jump, f, t)
    ensures var c := WithLoads(c0, jump, reg);
            Exec(p, Patched(Patched(c, f, |c|, Some(reg), |c| - 2), t, |c|, Some(reg), |c| - 1), 0, r0) ==
            LoadedOutcome(c0, jump, f, t, reg, Exec(p, c0, 0, r0))
  {
    var c := WithLoads(c0, jump, reg);
    var m := |c|;
    LoadsReady(c0, last, jump, reg, f, t);
    WithLoadsRun(p, c0, last, jump, reg, r0);
    LoadsLand(p, c0, jump, reg, f);
    var o := Exec(p, c0, 0, r0);
    if o.Exit? && o.j in f + t {
      LandingLoads(p, c0, jump, reg, o.j, o.r);
    }
    hide WithLoads, Exec, Patched, Landing, PatchRegs, Valued, Formed, LandsAtEnd, TwoLists;
    PatchBoth(p, c, m, f, t, reg, m - 2, m - 1, r0);
  }

  lemma ReadyLists(fs: FS, e: Exp, reg: nat, n: nat)
    requires Ready(fs, e, reg, n)
    ensures ListsIn(fs.code, fs.last, !e.k.VJmp?, e.f, TrueList(e))
  {
    hide Formed;
    assert AllPending(fs.code, Exits(e));
  }

  lemma LoadedCarries(p: Prims, n: nat, fs: FS, e: Exp, reg: nat, o: Outcome, fs': FS)
    requires Ready(fs, e, reg, n) && (o.Exit? ==> o.j < |fs.code|)
    requires fs'.here == if e.k.VJmp? then {} else JumpList(fs)
    ensures CarriesTo(p, n, fs, e, o, fs', Fixed(reg), LoadedOutcome(fs.code, !e.k.VJmp?, e.f, TrueList(e), reg, o))
  {
    assert e.k.VJmp? ==> !Valued(fs.code, e.k.pc);
    hide FsOk, Formed;
  }

  lemma CloseLoads(p: Prims, n: nat, fs: FS, e: Exp, reg: nat, r0: Regs)
    requires Ready(fs, e, reg, n)
    ensures var fs1 := LoadBools(fs, !e.k.VJmp?, reg);
            var m := |fs1.code|;
            m >= 2 && Carries(p, n, fs, e, PatchValues(fs1, TrueList(e), e.f, reg, m - 2, m - 1), Fixed(reg), r0)
  {
    hide Exec, Patched, ListsIn, CarriesTo, LoadedOutcome;
    ReadyLists(fs, e, reg, n);
    LoadsRun(p, fs.code, fs.last, !e.k.VJmp?, reg, e.f, TrueList(e), r0);
    LoadBoolsCode(fs, !e.k.VJmp?, reg);
    ExecExits(p, fs.code, 0, r0);
    var fs1 := LoadBools(fs, !e.k.VJmp?, reg);
    var m := |fs1.code|;
    LoadedCarries(p, n, fs, e, reg, Exec(p, fs.code, 0, r0), PatchValues(fs1, TrueList(e), e.f, reg, m - 2, m - 1));
  }

  /** The patched code is formed, and the jumps of other lists stay pending. */
  lemma LoadsDone(c0: Code, c: Code, f: set<nat>, t: set<nat>, reg: nat, here: set<nat>)
    requires |c| >= 2 && TwoLists(c, |c|, f, t, |c| - 2, |c| - 1) && AllPending(c, here) && here !! f && here !! t
    requires Frame(c0, c, {})
    ensures var c' := Patched(Patched(c, f, |c|, Some(reg), |c| - 2), t, |c|, Some(reg), |c| - 1);
            Formed(c', |c|) && AllPending(c', here) && Frame(c0, c', f + t)
  {
    var m := |c|;
    FirstPatch(c, m, f, t, reg, m - 2, m - 1);
    PatchedFormed(Patched(c, f, m, Some(reg), m - 2), m, t, m, Some(reg), m - 1, m);
    PatchBothFrame(c, f, t, reg, m - 2, m - 1, f + t);
    hide Patched, Formed, TwoLists;
    var c' := Patched(Patched(c, f, |c|, Some(reg), |c| - 2), t, |c|, Some(reg), |c| - 1);
    FrameTrans(c0, c, c', f + t, f + t);
    forall j | j in here
      ensures IsPending(c', j)
    {
      assert SameExit(c, c', j);
    }
  }

  lemma LoadsMoved(fs: FS, e: Exp, reg: nat, n: nat)
    requires Ready(fs, e, reg, n)
    ensures var fs1 := LoadBools(fs, !e.k.VJmp?, reg);
            var m := |fs1.code|;
            m >= 2 && Moves(fs, e, PatchValues(fs1, TrueList(e), e.f, reg, m - 2, m - 1), Fixed(reg))
  {
    var jump := !e.k.VJmp?;
    LoadBoolsCode(fs, jump, reg);
    var fs1 := LoadBools(fs, jump, reg);
    var c := WithLoads(fs.code, jump, reg);
    ReadyLists(fs, e, reg, n);
    LoadsReady(fs.code, fs.last, jump, reg, e.f, TrueList(e));
    LoadsFrame(fs.code, jump, reg, fs.here);
    assert |fs.code| !in Exits(e);
    hide WithLoads, Formed, LoadBools, TwoLists, AllPending, Frame;
    LoadsDone(fs.code, c, e.f, TrueList(e), reg, fs1.here);
    PatchedMoves(fs, e, reg, PatchValues(fs1, TrueList(e), e.f, reg, |c| - 2, |c| - 1));
  }

  lemma PatchedMoves(fs: FS, e: Exp, reg: nat, fs': FS)
    requires FsOk(fs) && CanHold(fs, reg, 0) && |fs.code| <= |fs'.code| == fs'.last
    requires Formed(fs'.code, fs'.last) && AllPending(fs'.code, fs'.here) && Frame(fs.code, fs'.code, e.f + TrueList(e))
    requires fs'.here <= fs.here + {|fs.code|} && fs'.free == fs.free && fs'.nact == fs.nact && fs'.k == fs.k
    ensures Moves(fs, e, fs', Fixed(reg))
  {
    hide Formed;
  }

  lemma LoadsFrame(c0: Code, jump: bool, reg: nat, here: set<nat>)
    requires AllPending(c0, here)
    ensures var c := WithLoads(c0, jump, reg);
            Frame(c0, c, {}) && AllPending(c, here) && (jump ==> AllPending(c, here + {|c0|}))
  {
    var c := WithLoads(c0, jump, reg);
    assert forall i :: 0 <= i < |c0| ==> c[i] == c0[i];
  }
}

/** What the loops over jump lists have done after some of their steps. */
module CgPatch {
  import opened Wrappers
  import opened CgSyntax
  import opened CgCode
  import opened CgGen
  import opened CgClose
  import opened CgLinks

  /** The first `i` jumps of a list have been patched. */
  ghost predicate Half(code0: seq<Inst>, ac0: Code, code: seq<Inst>, ac: Code, l: seq<nat>, i: nat, vt: nat,
      reg: Option<nat>, dt: nat) {
    && i <= |l| && Linked(code, l[i..]) && NoDup(l) && AllPending(ac0, SetOf(l))
    && ac == Patched(ac0, SetOf(l[..i]), vt, reg, dt)
    && |code| == |code0| == |ac0| && forall x :: 0 <= x < |code| && code0[x].JMP? && x !in l ==> code[x] == code0[x]
  }

  lemma HalfStart(k: seq<Val>, code: seq<Inst>, ac: Code, list: int, l: seq<nat>, vt: nat, reg: Option<nat>, dt: nat)
    requires IsList(code, ac, list, l)
    ensures Half(code, ac, code, ac, l, 0, vt, reg, dt) && list == Head(l[0..])
  {
    assert l[..0] == [] && l[0..] == l && SetOf(l[..0]) == {};
    NothingPatched(ac, vt, reg, dt);
  }

  lemma HalfNext(code0: seq<Inst>, ac0: Code, code: seq<Inst>, ac: Code, l: seq<nat>, i: nat, vt: nat, reg: Option<nat>,
      dt: nat)
    requires Half(code0, ac0, code, ac, l, i, vt, reg, dt) && i < |l|
    ensures Head(l[i..]) == l[i] && l[i] < |code| && code[l[i]].JMP? && GetJump(code, l[i]) == Head(l[i + 1..])
    ensures IsPending(ac, l[i]) && Valued(ac, l[i]) == Valued(ac0, l[i])
  {
    LinkedTail(code, l[i..]);
    assert l[i..][1..] == l[i + 1..];
    PatchStep(ac0, l, i, vt, reg, dt);
  }

  lemma HalfStep(code0: seq<Inst>, ac0: Code, code: seq<Inst>, ac: Code, code': seq<Inst>, ac': Code, l: seq<nat>,
      i: nat, vt: nat, reg: Option<nat>, dt: nat)
    requires Half(code0, ac0, code, ac, l, i, vt, reg, dt) && i < |l| && IsPending(ac, l[i])
    requires Valued(ac, l[i]) ==> ac' == ac[l[i] - 1 := Retested(ac[l[i] - 1], reg)][l[i] := Jmp(To(vt))]
    requires !Valued(ac, l[i]) ==> ac' == ac[l[i] := Jmp(To(dt))]
    requires |code'| == |code| && forall x :: 0 <= x < |code| && code[x].JMP? && x != l[i] ==> code'[x] == code[x]
    ensures Half(code0, ac0, code', ac', l, i + 1, vt, reg, dt)
  {
    PatchStep(ac0, l, i, vt, reg, dt);
    LinkedTail(code, l[i..]);
    assert l[i..][1..] == l[i + 1..];
    forall j | j in l[i + 1..]
      ensures j < |code'| && j < |code| && code'[j] == code[j]
    {
      assert Linked(code, l[i + 1..]);
    }
    LinkedKept(code, code', l[i + 1..]);
    assert l[i] in l;
    hide Patched, Linked;
  }

  lemma HalfEnd(code0: seq<Inst>, ac0: Code, code: seq<Inst>, ac: Code, l: seq<nat>, i: nat, vt: nat, reg: Option<nat>,
      dt: nat)
    requires Half(code0, ac0, code, ac, l, i, vt, reg, dt) && Head(l[i..]) == NO_JUMP
    ensures ac == Patched(ac0, SetOf(l), vt, reg, dt)
    ensures |code| == |code0| && forall x :: 0 <= x < |code| && code0[x].JMP? && x !in l ==> code[x] == code0[x]
  {
    assert l[..i] == l;
  }

  lemma NeedFor(ac: Code, l: seq<nat>, i: nat)
    requires i < |l|
    ensures l[i] in l && (!Valued(ac, l[i]) ==> NeedValue(ac, SetOf(l)))
  {
    assert l[i] in SetOf(l);
  }

  lemma PatchStep(ac0: Code, l: seq<nat>, i: nat, vt: nat, reg: Option<nat>, dt: nat)
    requires i < |l| && NoDup(l) && AllPending(ac0, SetOf(l))
    ensures var c := Patched(ac0, SetOf(l[..i]), vt, reg, dt);
            var c' := Patched(ac0, SetOf(l[..i + 1]), vt, reg, dt);
            var j := l[i];
            && Valued(c, j) == Valued(ac0, j) && IsPending(c, j)
            && (Valued(ac0, j) ==> c[j - 1] == ac0[j - 1] && c'
                                   == c[j - 1 := Retested(ac0[j - 1], reg)][j := Jmp(To(vt))])
            && (!Valued(ac0, j) ==> c' == c[j := Jmp(To(dt))])
            && AllPending(c', SetOf(l[i + 1..]))
  {
    var j := l[i];
    assert l[..i + 1] == l[..i] + [j];
    assert SetOf(l[..i + 1]) == SetOf(l[..i]) + {j};
    assert j !in SetOf(l[..i]) && j in SetOf(l);
    PatchOne(ac0, SetOf(l[..i]), j, vt, reg, dt);
    var c' := Patched(ac0, SetOf(l[..i + 1]), vt, reg, dt);
    forall x | x in SetOf(l[i + 1..])
      ensures IsPending(c', x)
    {
      assert x in SetOf(l);
      assert c'[x] == PatchedAt(ac0, SetOf(l[..i + 1]), vt, reg, dt, x);
    }
  }

  // ---------------------------------------------------------------- removevalues

  ghost predicate HalfWithout(ac0: Code, ac: Code, l: seq<nat>, i: nat) {
    i <= |l| && NoDup(l) && AllPending(ac0, SetOf(l)) && ac == WithoutValues(ac0, SetOf(l[..i]))
  }

  lemma WithoutStart(ac: Code, l: seq<nat>)
    requires NoDup(l) && AllPending(ac, SetOf(l))
    ensures HalfWithout(ac, ac, l, 0)
  {
    assert l[..0] == [] && SetOf(l[..0]) == {};
  }

  lemma WithoutStep(ac0: Code, ac: Code, l: seq<nat>, i: nat)
    requires HalfWithout(ac0, ac, l, i) && i < |l|
    ensures IsPending(ac, l[i]) && l[i] in l
    ensures HalfWithout(ac0, if Valued(ac, l[i]) then ac[l[i] - 1 := Retested(ac[l[i] - 1], None)] else ac, l, i + 1)
  {
    var j := l[i];
    assert l[..i + 1] == l[..i] + [j];
    assert SetOf(l[..i + 1]) == SetOf(l[..i]) + {j};
    assert j !in SetOf(l[..i]) && j in SetOf(l);
    WithoutOne(ac0, SetOf(l[..i]), j);
  }

  lemma WithoutEnd(ac0: Code, ac: Code, l: seq<nat>, i: nat)
    requires HalfWithout(ac0, ac, l, i) && i == |l|
    ensures ac == WithoutValues(ac0, SetOf(l))
  {
    assert l[..i] == l;
  }
}

/** `%bxy`: what the counting of matchbalance finds. */
module PatBalance {
  import opened PatSyntax
  import opened PatReading

  /** How often a character occurs from `i` up to `j`. */
  function Occurs(src: string, c: char, i: nat, j: nat): nat
    requires i <= j <= |src|
    decreases j
  {
    if i == j then 0 else Occurs(src, c, i, j - 1) + if src[j - 1] == c then 1 else 0
  }

  lemma OccursOne(src: string, c: char, s: nat)
    requires s < |src|
    ensures Occurs(src, c, s, s + 1) == if src[s] == c then 1 else 0
  {
    assert Occurs(src, c, s, s) == 0;
  }

  /** Between `s` and `j` more is opened than closed. */
  ghost predicate StaysOpen(src: string, b: char, e: char, s: nat, j: nat)
    requires s <= |src|
  {
    forall k :: s < k < j && k <= |src| ==> Occurs(src, b, s, k) > Occurs(src, e, s, k)
  }

  lemma {:induction false} EndIs(src: string, b: char, e: char, s0: nat, s: nat, cont: nat)
    requires b != e && s0 < s <= |src| && cont >= 1 && Occurs(src, b, s0, s) == Occurs(src, e, s0, s) + cont
    requires StaysOpen(src, b, e, s0, s + 1)
    ensures var r := BalanceEnd(src, b, e, s, cont);
            if r == -1 then StaysOpen(src, b, e, s0, |src| + 1)
            else r <= |src| && Occurs(src, b, s0, r) == Occurs(src, e, s0, r) && StaysOpen(src, b, e, s0, r)
    decreases |src| - s
  {
    if s < |src| && !(src[s] == e && cont <= 1) {
      var cont' := if src[s] == e then cont - 1 else if src[s] == b then cont + 1 else cont;
      EndIs(src, b, e, s0, s + 1, cont');
    }
  }

  /**
    The text found starts with the opening character and is the shortest one in which as many are
    closed as opened; nothing is found only if the text never gets balanced.
   */
  lemma BalanceIs(src: string, b: char, e: char, s: nat)
    requires b != e && s <= |src|
    ensures var r := BalanceAt(src, b, e, s);
            && (r >= 0 ==> s < r <= |src| && src[s] == b && Occurs(src, b, s, r) == Occurs(src, e, s, r)
                           && StaysOpen(src, b, e, s, r))
            && (r < 0 ==> s == |src| || src[s] != b || StaysOpen(src, b, e, s, |src| + 1))
  {
    if s < |src| && src[s] == b {
      OccursOne(src, b, s);
      OccursOne(src, e, s);
      EndIs(src, b, e, s, s + 1, 1);
    }
  }

  /** With one character for both ends the text runs to its next occurrence. */
  lemma {:induction false} SameEnds(src: string, c: char, s: nat)
    requires s <= |src|
    ensures var r := BalanceEnd(src, c, c, s, 1);
            if r == -1 then forall k :: s <= k < |src| ==> src[k] != c
            else s < r <= |src| && src[r - 1] == c && forall k :: s <= k < r - 1 ==> src[k] != c
    decreases |src| - s
  {
    if s < |src| && src[s] != c {
      SameEnds(src, c, s + 1);
    }
  }
}

/** Orders, sorted ranges and permutations, for table.sort (ltablib.c). */
module SortOrder {

  /** What table.sort asks of its comparison: a strict weak order. */
  ghost predicate StrictWeak<T(!new)>(lt: (T, T) -> bool) {
    && (forall x, y :: lt(x, y) ==> !lt(y, x))
    && (forall x, y, z :: lt(x, z) ==> lt(x, y) || lt(y, z))
  }

  /** `x` may stand before `y`. */
  predicate Le<T>(lt: (T, T) -> bool, x: T, y: T) {
    !lt(y, x)
  }

  lemma LeRefl<T(!new)>(lt: (T, T) -> bool, x: T)
    requires StrictWeak(lt)
    ensures Le(lt, x, x)
  {
  }

  lemma LtLe<T(!new)>(lt: (T, T) -> bool, x: T, y: T)
    requires StrictWeak(lt) && lt(x, y)
    ensures Le(lt, x, y)
  {
  }

  lemma LeTrans<T(!new)>(lt: (T, T) -> bool, x: T, y: T, z: T)
    requires StrictWeak(lt) && Le(lt, x, y) && Le(lt, y, z)
    ensures Le(lt, x, z)
  {
  }

  ghost predicate Sorted<T>(lt: (T, T) -> bool, s: seq<T>, l: int, u: int) {
    forall p, q :: 0 <= l <= p < q <= u < |s| ==> Le(lt, s[p], s[q])
  }

  /** Only the range from `l` to `u` is rearranged. */
  ghost predicate Permuted<T>(s: seq<T>, s': seq<T>, l: int, u: int) {
    && |s'| == |s| && 0 <= l <= u + 1 <= |s|
    && multiset(s'[l..u + 1]) == multiset(s[l..u + 1])
    && (forall k :: 0 <= k < |s| && !(l <= k <= u) ==> s'[k] == s[k])
  }

  lemma PermutedRefl<T>(s: seq<T>, l: int, u: int)
    requires 0 <= l <= u + 1 <= |s|
    ensures Permuted(s, s, l, u)
  {
  }

  lemma PermutedTrans<T>(s: seq<T>, s': seq<T>, s'': seq<T>, l: int, u: int)
    requires Permuted(s, s', l, u) && Permuted(s', s'', l, u)
    ensures Permuted(s, s'', l, u)
  {
  }

  lemma PermutedSwap<T>(s: seq<T>, i: int, j: int, l: int, u: int)
    requires 0 <= l <= i <= u < |s| && l <= j <= u
    ensures Permuted(s, s[i := s[j]][j := s[i]], l, u)
  {
    var s' := s[i := s[j]][j := s[i]];
    var r := s[l..u + 1];
    assert s'[l..u + 1] == r[i - l := r[j - l]][j - l := r[i - l]];
  }

  /** A smaller range is rearranged. */
  lemma PermutedWider<T>(s: seq<T>, s': seq<T>, l: int, u: int, l0: int, u0: int)
    requires Permuted(s, s', l, u) && 0 <= l0 <= l && u <= u0 < |s|
    ensures Permuted(s, s', l0, u0)
  {
    var a, b := s[l0..l], s[u + 1..u0 + 1];
    assert s'[l0..l] == a && s'[u + 1..u0 + 1] == b;
    assert s[l0..u0 + 1] == a + s[l..u + 1] + b;
    assert s'[l0..u0 + 1] == a + s'[l..u + 1] + b;
  }

  /** An element of the range was in it before. */
  lemma PermutedFrom<T>(s: seq<T>, s': seq<T>, l: int, u: int, k: int) returns (k': int)
    requires Permuted(s, s', l, u) && l <= k <= u
    ensures l <= k' <= u < |s| && s[k'] == s'[k]
  {
    assert s'[l..u + 1][k - l] in multiset(s'[l..u + 1]);
    assert s'[k] in s[l..u + 1];
    var i :| 0 <= i < u + 1 - l && s[l..u + 1][i] == s'[k];
    k' := l + i;
  }

  /** All of a range is at most `x`. */
  ghost predicate AllLe<T>(lt: (T, T) -> bool, s: seq<T>, l: int, u: int, x: T) {
    forall k :: 0 <= l <= k <= u < |s| ==> Le(lt, s[k], x)
  }

  ghost predicate AllGe<T>(lt: (T, T) -> bool, s: seq<T>, l: int, u: int, x: T) {
    forall k :: 0 <= l <= k <= u < |s| ==> Le(lt, x, s[k])
  }

  lemma PermutedLe<T>(lt: (T, T) -> bool, s: seq<T>, s': seq<T>, l: int, u: int, x: T)
    requires Permuted(s, s', l, u)
    ensures AllLe(lt, s, l, u, x) ==> AllLe(lt, s', l, u, x)
    ensures AllGe(lt, s, l, u, x) ==> AllGe(lt, s', l, u, x)
  {
    forall k | l <= k <= u
      ensures AllLe(lt, s, l, u, x) ==> Le(lt, s'[k], x)
      ensures AllGe(lt, s, l, u, x) ==> Le(lt, x, s'[k])
    {
      var k' := PermutedFrom(s, s', l, u, k);
    }
  }

  /** In the range from `l0` to `u0`, two elements are in order unless both are in the window. */
  ghost predicate SortedBut<T>(lt: (T, T) -> bool, s: seq<T>, l0: int, u0: int, l: int, u: int) {
    forall p, q :: 0 <= l0 <= p < q <= u0 < |s| && !(l <= p && q <= u) ==> Le(lt, s[p], s[q])
  }

  lemma SortedButPermuted<T>(lt: (T, T) -> bool, s: seq<T>, s': seq<T>, l0: int, u0: int, l: int, u: int)
    requires SortedBut(lt, s, l0, u0, l, u) && Permuted(s, s', l, u) && 0 <= l0 <= l && u <= u0 < |s|
    ensures SortedBut(lt, s', l0, u0, l, u)
  {
    forall p, q | l0 <= p < q <= u0 && !(l <= p && q <= u)
      ensures Le(lt, s'[p], s'[q])
    {
      var p', q' := p, q;
      if l <= p <= u {
        p' := PermutedFrom(s, s', l, u, p);
      }
      if l <= q <= u {
        q' := PermutedFrom(s, s', l, u, q);
      }
      assert p' < q' && !(l <= p' && q' <= u);
    }
  }

  /** With the pivot in place and one side sorted, only the other side is left. */
  lemma SortedButSide<T(!new)>(lt: (T, T) -> bool, s: seq<T>, l0: int, u0: int, l: int, u: int, i: int)
    requires StrictWeak(lt) && SortedBut(lt, s, l0, u0, l, u) && 0 <= l0 <= l <= i <= u <= u0 < |s|
    requires AllLe(lt, s, l, i - 1, s[i]) && AllGe(lt, s, i + 1, u, s[i])
    ensures Sorted(lt, s, l, i - 1) ==> SortedBut(lt, s, l0, u0, i + 1, u)
    ensures Sorted(lt, s, i + 1, u) ==> SortedBut(lt, s, l0, u0, l, i - 1)
  {
    hide StrictWeak, Le;
    forall p, q | l <= p < q <= u && p <= i <= q
      ensures Le(lt, s[p], s[q])
    {
      if p < i < q {
        LeTrans(lt, s[p], s[i], s[q]);
      }
    }
  }

  lemma SortedButDone<T>(lt: (T, T) -> bool, s: seq<T>, l0: int, u0: int, l: int, u: int)
    requires SortedBut(lt, s, l0, u0, l, u) && Sorted(lt, s, l, u)
    ensures 0 <= l0 <= l && u <= u0 < |s| ==> Sorted(lt, s, l0, u0)
  {
  }
}

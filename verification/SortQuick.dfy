/** Quicksort as it runs (ltablib.c: auxsort), in place between two positions. */
module SortQuick {
  import opened SortOrder
  import opened TblSizes

  method Swap<T>(a: array<T>, i: int, j: int)
    requires 0 <= i < a.Length && 0 <= j < a.Length
    modifies a
    ensures a[..] == old(a[..])[i := old(a[j])][j := old(a[i])]
  {
    a[i], a[j] := a[j], a[i];
  }

  /** The first and the last element are put in order. */
  method OrderEnds<T(!new)>(a: array<T>, l: int, u: int, lt: (T, T) -> bool)
    requires 0 <= l < u < a.Length && StrictWeak(lt)
    modifies a
    ensures Permuted(old(a[..]), a[..], l, u) && Le(lt, a[l], a[u])
  {
    hide Permuted, StrictWeak;
    PermutedRefl(a[..], l, u);
    if lt(a[u], a[l]) {
      LtLe(lt, a[u], a[l]);
      PermutedSwap(a[..], l, u, l, u);
      Swap(a, l, u);
    }
  }

  /** The element in the middle is put in order with them. */
  method OrderMiddle<T(!new)>(a: array<T>, l: int, u: int, lt: (T, T) -> bool) returns (i: int)
    requires 0 <= l && l + 2 <= u < a.Length && StrictWeak(lt) && Le(lt, a[l], a[u])
    modifies a
    ensures l < i < u && i == (l + u) / 2
    ensures Permuted(old(a[..]), a[..], l, u) && Le(lt, a[l], a[i]) && Le(lt, a[i], a[u])
  {
    hide Permuted, StrictWeak;
    i := (l + u) / 2;
    PermutedRefl(a[..], l, u);
    if lt(a[i], a[l]) {
      LtLe(lt, a[i], a[l]);
      PermutedSwap(a[..], i, l, l, u);
      Swap(a, i, l);
    } else if lt(a[u], a[i]) {
      LtLe(lt, a[u], a[i]);
      PermutedSwap(a[..], i, u, l, u);
      Swap(a, i, u);
    }
  }

  /** What the two scans keep: the pivot stands at `u - 1`, and nothing outside `l..u` is looked at. */
  ghost predicate Scanning<T>(lt: (T, T) -> bool, s: seq<T>, l: int, u: int, i: int, j: int, pivot: T) {
    && 0 <= l < u - 1 < u < |s| && s[u - 1] == pivot && Le(lt, s[l], pivot)
    && ((i == l && j == u - 1) || l < i <= j < u - 1)
    && AllLe(lt, s, l, i, pivot) && AllGe(lt, s, j, u, pivot)
  }

  /** `++i` until the pivot is reached, or an element that is not below it. */
  method ScanUp<T(!new)>(a: array<T>, l: int, u: int, i0: int, lt: (T, T) -> bool, pivot: T) returns (i: int)
    requires 0 <= l <= i0 < u - 1 && u < a.Length && a[u - 1] == pivot && StrictWeak(lt)
      && AllLe(lt, a[..], l, i0, pivot)
    ensures i0 < i <= u - 1 && AllLe(lt, a[..], l, i - 1, pivot) && Le(lt, pivot, a[i])
  {
    i := i0 + 1;
    while lt(a[i], pivot)
      invariant i0 < i <= u - 1 && AllLe(lt, a[..], l, i - 1, pivot)
      decreases u - i
    {
      if i > u {
        assert false;
      }
      i := i + 1;
    }
  }

  /** `--j` until an element that is not above the pivot. */
  method ScanDown<T(!new)>(a: array<T>, l: int, u: int, j0: int, lt: (T, T) -> bool, pivot: T) returns (j: int)
    requires 0 <= l < j0 <= u - 1 && u < a.Length && Le(lt, a[l], pivot) && StrictWeak(lt)
      && AllGe(lt, a[..], j0, u, pivot)
    ensures l <= j < j0 && AllGe(lt, a[..], j + 1, u, pivot) && Le(lt, a[j], pivot)
  {
    j := j0 - 1;
    while lt(pivot, a[j])
      invariant l <= j < j0 && AllGe(lt, a[..], j + 1, u, pivot)
      decreases j
    {
      if j < l {
        assert false;
      }
      j := j - 1;
    }
  }

  lemma SwapScans<T>(lt: (T, T) -> bool, s: seq<T>, l: int, u: int, i: int, j: int, pivot: T)
    requires 0 <= l < u - 1 < u < |s| && s[u - 1] == pivot && Le(lt, s[l], pivot)
    requires l < i <= j < u - 1 && AllLe(lt, s, l, i - 1, pivot) && AllGe(lt, s, j + 1, u, pivot)
    requires Le(lt, pivot, s[i]) && Le(lt, s[j], pivot)
    ensures Scanning(lt, s[i := s[j]][j := s[i]], l, u, i, j, pivot)
  {
  }

  /** The scans; they end when they have crossed. */
  method Scan<T(!new)>(a: array<T>, l: int, u: int, lt: (T, T) -> bool, pivot: T) returns (i: int)
    requires StrictWeak(lt) && u - l >= 3 && Scanning(lt, a[..], l, u, l, u - 1, pivot)
    modifies a
    ensures Permuted(old(a[..]), a[..], l, u) && l < i < u < a.Length && a[u - 1] == pivot
    ensures AllLe(lt, a[..], l, i - 1, pivot) && AllGe(lt, a[..], i, u, pivot)
  {
    hide Permuted, StrictWeak, AllLe, AllGe;
    i := l;
    var j := u - 1;
    PermutedRefl(a[..], l, u);
    while true
      invariant Scanning(lt, a[..], l, u, i, j, pivot) && Permuted(old(a[..]), a[..], l, u)
      decreases j - i
    {
      i := ScanUp(a, l, u, i, lt, pivot);
      j := ScanDown(a, l, u, j, lt, pivot);
      if j < i {
        Crossed(lt, a[..], l, u, i, j, pivot);
        return;
      }
      ghost var before := a[..];
      SwapScans(lt, before, l, u, i, j, pivot);
      PermutedSwap(before, i, j, l, u);
      Swap(a, i, j);
      PermutedTrans(old(a[..]), before, a[..], l, u);
    }
  }

  lemma Crossed<T>(lt: (T, T) -> bool, s: seq<T>, l: int, u: int, i: int, j: int, pivot: T)
    requires 0 <= l <= j < i && AllGe(lt, s, j + 1, u, pivot)
    ensures AllGe(lt, s, i, u, pivot)
  {
  }

  /** Take the element at `m` as pivot and bring it to its place. */
  method Partition<T(!new)>(a: array<T>, l: int, u: int, m: int, lt: (T, T) -> bool) returns (i: int)
    requires StrictWeak(lt) && 0 <= l && u - l >= 3 && u < a.Length && l < m < u && Le(lt, a[l], a[m])
      && Le(lt, a[m], a[u])
    modifies a
    ensures Permuted(old(a[..]), a[..], l, u) && l < i < u
    ensures AllLe(lt, a[..], l, i - 1, a[i]) && AllGe(lt, a[..], i + 1, u, a[i])
  {
    hide *;
    ghost var s0 := a[..];
    var pivot := a[m];
    ScanStart(lt, s0, l, u, m);
    Swap(a, m, u - 1);
    ghost var s1 := a[..];
    i := Scan(a, l, u, lt, pivot);
    ghost var s2 := a[..];
    PermutedTrans(s0, s1, s2, l, u);
    PivotPlaced(lt, s2, l, u, i, pivot);
    Swap(a, u - 1, i);
    PermutedTrans(s0, s2, a[..], l, u);
  }

  lemma ScanStart<T(!new)>(lt: (T, T) -> bool, s: seq<T>, l: int, u: int, m: int)
    requires StrictWeak(lt) && 0 <= l && u - l >= 3 && u < |s| && l < m < u && Le(lt, s[l], s[m]) && Le(lt, s[m], s[u])
    ensures var s' := s[m := s[u - 1]][u - 1 := s[m]]; Scanning(lt, s', l, u, l, u - 1, s[m]) && Permuted(s, s', l, u)
  {
    hide StrictWeak, Permuted, Le;
    LeRefl(lt, s[m]);
    PermutedSwap(s, m, u - 1, l, u);
  }

  lemma PivotPlaced<T>(lt: (T, T) -> bool, s: seq<T>, l: int, u: int, i: int, pivot: T)
    requires 0 <= l < i < u < |s| && s[u - 1] == pivot && AllLe(lt, s, l, i - 1, pivot) && AllGe(lt, s, i, u, pivot)
    ensures var s' := s[u - 1 := s[i]][i := s[u - 1]]; Permuted(s, s', l, u) && s'[i] == pivot
                                                       && AllLe(lt, s', l, i - 1, pivot)
                                                       && AllGe(lt, s', i + 1, u, pivot)
  {
    PermutedSwap(s, u - 1, i, l, u);
    hide Permuted;
  }

  /** What is true before each turn of the loop in auxsort. */
  ghost predicate Turn<T>(lt: (T, T) -> bool, s0: seq<T>, s: seq<T>, l0: int, u0: int, l: int, u: int) {
    && 0 <= l0 && u0 < |s| && l0 <= u0 + 1 && Permuted(s0, s, l0, u0)
    && (l0 <= u0 ==> l0 <= l <= u + 1 && u <= u0 && SortedBut(lt, s, l0, u0, l, u))
    && (l0 > u0 ==> l == l0 && u == u0)
  }

  /** A turn that sorts all that was left. */
  lemma TurnLast<T>(lt: (T, T) -> bool, s0: seq<T>, s: seq<T>, s': seq<T>, l0: int, u0: int, l: int, u: int)
    requires Turn(lt, s0, s, l0, u0, l, u) && l < u && Permuted(s, s', l, u) && Sorted(lt, s', l, u)
    ensures Permuted(s0, s', l0, u0) && Sorted(lt, s', l0, u0)
  {
    PermutedWider(s, s', l, u, l0, u0);
    PermutedTrans(s0, s, s', l0, u0);
    SortedButPermuted(lt, s, s', l0, u0, l, u);
    SortedButDone(lt, s', l0, u0, l, u);
    hide Permuted, Sorted, SortedBut;
  }

  lemma TurnDone<T>(lt: (T, T) -> bool, s0: seq<T>, s: seq<T>, l0: int, u0: int, l: int, u: int)
    requires Turn(lt, s0, s, l0, u0, l, u) && l >= u
    ensures Permuted(s0, s, l0, u0) && Sorted(lt, s, l0, u0)
  {
  }

  /** A turn that sorts one side of the pivot, from `j` to `k`. */
  lemma TurnMore<T(!new)>(lt: (T, T) -> bool, s0: seq<T>, s: seq<T>, s': seq<T>, s'': seq<T>, l0: int, u0: int, l: int,
      u: int, i: int, low: bool)
    requires StrictWeak(lt) && Turn(lt, s0, s, l0, u0, l, u) && l < i < u && Permuted(s, s', l, u)
    requires AllLe(lt, s', l, i - 1, s'[i]) && AllGe(lt, s', i + 1, u, s'[i])
    requires low ==> Permuted(s', s'', l, i - 1) && Sorted(lt, s'', l, i - 1)
    requires !low ==> Permuted(s', s'', i + 1, u) && Sorted(lt, s'', i + 1, u)
    ensures if low then Turn(lt, s0, s'', l0, u0, i + 1, u) else Turn(lt, s0, s'', l0, u0, l, i - 1)
  {
    hide StrictWeak, AllLe, AllGe, Sorted, Le, SortedBut;
    var x := s'[i];
    assert s''[i] == x;
    if low {
      PermutedLe(lt, s', s'', l, i - 1, x);
      KeptGe(lt, s', s'', l, i - 1, i + 1, u, x);
      PermutedWider(s', s'', l, i - 1, l, u);
    } else {
      PermutedLe(lt, s', s'', i + 1, u, x);
      KeptLe(lt, s', s'', i + 1, u, l, i - 1, x);
      PermutedWider(s', s'', i + 1, u, l, u);
    }
    PermutedTrans(s, s', s'', l, u);
    PermutedWider(s, s'', l, u, l0, u0);
    PermutedTrans(s0, s, s'', l0, u0);
    SortedButPermuted(lt, s, s'', l0, u0, l, u);
    SortedButSide(lt, s'', l0, u0, l, u, i);
  }

  lemma KeptGe<T>(lt: (T, T) -> bool, s: seq<T>, s': seq<T>, l: int, u: int, lo: int, hi: int, x: T)
    requires Permuted(s, s', l, u) && AllGe(lt, s, lo, hi, x) && u < lo
    ensures AllGe(lt, s', lo, hi, x)
  {
  }

  lemma KeptLe<T>(lt: (T, T) -> bool, s: seq<T>, s': seq<T>, l: int, u: int, lo: int, hi: int, x: T)
    requires Permuted(s, s', l, u) && AllLe(lt, s, lo, hi, x) && hi < l
    ensures AllLe(lt, s', lo, hi, x)
  {
  }

  lemma SortedTwo<T>(lt: (T, T) -> bool, s: seq<T>, l: int, u: int)
    requires 0 <= l && u == l + 1 < |s| && Le(lt, s[l], s[u])
    ensures Sorted(lt, s, l, u)
  {
  }

  lemma SortedThree<T(!new)>(lt: (T, T) -> bool, s: seq<T>, l: int, u: int)
    requires StrictWeak(lt) && 0 <= l && u == l + 2 < |s| && Le(lt, s[l], s[l + 1]) && Le(lt, s[l + 1], s[u])
    ensures Sorted(lt, s, l, u)
  {
    LeTrans(lt, s[l], s[l + 1], s[u]);
  }

  function Size(l: int, u: int): nat {
    if l <= u then u - l + 1 else 0
  }

  lemma DepthGrows(d: nat, m: nat, n: nat)
    requires Pow2(d) <= (if m == 0 then 1 else m) && 2 * m <= n && n >= 2
    ensures Pow2(d + 1) <= n
  {
  }

  /**
    auxsort: the range is sorted and permuted, nothing else is touched, and calls are nested at most
    as deep as the binary logarithm of its size.
   */
  method AuxSort<T(!new)>(a: array<T>, l0: int, u0: int, lt: (T, T) -> bool) returns (ghost depth: nat)
    requires StrictWeak(lt) && 0 <= l0 <= u0 + 1 <= a.Length
    modifies a
    ensures Permuted(old(a[..]), a[..], l0, u0) && Sorted(lt, a[..], l0, u0)
    ensures Pow2(depth) <= if Size(l0, u0) == 0 then 1 else Size(l0, u0)
    decreases Size(l0, u0)
  {
    hide *;
    var l, u := l0, u0;
    depth := 0;
    ghost var s0 := a[..];
    TurnStart(lt, s0, l0, u0);
    while l < u
      invariant l0 <= l && u <= u0 && Turn(lt, s0, a[..], l0, u0, l, u)
      invariant Pow2(depth) <= if Size(l0, u0) == 0 then 1 else Size(l0, u0)
      decreases u - l
    {
      ghost var s := a[..];
      OrderEnds(a, l, u, lt);
      if u - l == 1 {
        SortedTwo(lt, a[..], l, u);
        TurnLast(lt, s0, s, a[..], l0, u0, l, u);
        return;
      }
      ghost var s1 := a[..];
      var i := OrderMiddle(a, l, u, lt);
      PermutedTrans(s, s1, a[..], l, u);
      if u - l == 2 {
        SortedThree(lt, a[..], l, u);
        TurnLast(lt, s0, s, a[..], l0, u0, l, u);
        return;
      }
      ghost var s2 := a[..];
      i := Partition(a, l, u, i, lt);
      PermutedTrans(s, s2, a[..], l, u);
      ghost var s' := a[..];
      ghost var d;
      SizeIs(l0, u0, l, u, i);
      if i - l < u - i {
        d := AuxSort(a, l, i - 1, lt);
        TurnMore(lt, s0, s, s', a[..], l0, u0, l, u, i, true);
        DepthGrows(d, Size(l, i - 1), Size(l0, u0));
        l := i + 1;
      } else {
        d := AuxSort(a, i + 1, u, lt);
        TurnMore(lt, s0, s, s', a[..], l0, u0, l, u, i, false);
        DepthGrows(d, Size(i + 1, u), Size(l0, u0));
        u := i - 1;
      }
      if d + 1 > depth {
        depth := d + 1;
      }
    }
    TurnDone(lt, s0, a[..], l0, u0, l, u);
  }

  lemma TurnStart<T>(lt: (T, T) -> bool, s: seq<T>, l0: int, u0: int)
    requires 0 <= l0 <= u0 + 1 <= |s|
    ensures Turn(lt, s, s, l0, u0, l0, u0) && Pow2(0) == 1 && Size(l0, u0) >= 0 && (Size(l0, u0) > 0 <==> l0 <= u0)
  {
    PermutedRefl(s, l0, u0);
  }

  /** The side that is sorted by a nested call is at most half as large. */
  lemma SizeIs(l0: int, u0: int, l: int, u: int, i: int)
    requires l0 <= l < i < u <= u0 && u - l >= 3
    ensures i - l < u - i ==> 2 * Size(l, i - 1) <= Size(l0, u0)
    ensures i - l >= u - i ==> 2 * Size(i + 1, u) <= Size(l0, u0)
    ensures Size(l, i - 1) < Size(l0, u0) && Size(i + 1, u) < Size(l0, u0) && Size(l0, u0) >= 4
  {
  }

  /** sort: the elements 1 to `n`, which `a` holds at these positions */
  method Sort<T(!new)>(a: array<T>, n: nat, lt: (T, T) -> bool)
    requires StrictWeak(lt) && n < a.Length
    modifies a
    ensures forall p, q :: 1 <= p < q <= n ==> !lt(a[q], a[p])
    ensures multiset(a[1..n + 1]) == multiset(old(a[1..n + 1]))
    ensures forall k :: 0 <= k < a.Length && !(1 <= k <= n) ==> a[k] == old(a[k])
  {
    ghost var s0 := a[..];
    ghost var depth := AuxSort(a, 1, n, lt);
    ghost var s := a[..];
    assert s[1..n + 1] == a[1..n + 1] && s0[1..n + 1] == old(a[1..n + 1]);
    forall p, q | 1 <= p < q <= n
      ensures !lt(a[q], a[p])
    {
      assert Le(lt, s[p], s[q]);
    }
    forall k | 0 <= k < a.Length && !(1 <= k <= n)
      ensures a[k] == old(a[k])
    {
      assert s[k] == s0[k];
    }
  }
}

/** The size of the array part (ltable.c: computesizes; lobject.c: luaO_log2). */
module TblSizes {

  import opened Wrappers

  const MAXBITS: nat := 26

  function Pow2(n: nat): (r: nat)
    ensures r > 0
  {
    if n == 0 then 1 else 2 * Pow2(n - 1)
  }

  lemma {:induction false} Pow2Grows(a: nat, b: nat)
    requires a <= b
    ensures Pow2(a) <= Pow2(b) && (a < b ==> 2 * Pow2(a) <= Pow2(b))
  {
    if a < b {
      Pow2Grows(a, b - 1);
    }
  }

  // ---------------------------------------------------------------- logarithms

  /** The entries of the table `log_2`: the position after the highest bit of a byte. */
  function Log2Table(x: nat): nat {
    if x == 0 then 0 else if x < 2 then 1 else if x < 4 then 2 else if x < 8 then 3 else if x < 16 then 4
    else if x < 32 then 5 else if x < 64 then 6 else if x < 128 then 7 else 8
  }

  /** `l` is the whole part of the binary logarithm of `x`. */
  ghost predicate IsLog2(x: nat, l: int) {
    if x == 0 then l == -1 else l >= 0 && Pow2(l) <= x < Pow2(l + 1)
  }

  lemma Pow2Values()
    ensures Pow2(1) == 2 && Pow2(2) == 4 && Pow2(3) == 8 && Pow2(4) == 16 && Pow2(5) == 32 && Pow2(6) == 64
      && Pow2(7) == 128 && Pow2(8) == 256
  {
    assert Pow2(0) == 1;
  }

  lemma {:induction false} Pow2Add(a: nat, b: nat)
    ensures Pow2(a + b) == Pow2(a) * Pow2(b)
  {
    if a > 0 {
      Pow2Add(a - 1, b);
      assert Pow2(a + b) == 2 * Pow2(a - 1 + b);
      assert 2 * (Pow2(a - 1) * Pow2(b)) == (2 * Pow2(a - 1)) * Pow2(b);
    }
  }

  lemma MulLe(a: nat, b: nat, c: nat)
    requires a <= b
    ensures a * c <= b * c
  {
  }

  lemma IsLog2Shifts(x: nat, y: nat, shift: nat, l: nat)
    requires y > 0 && y * Pow2(shift) <= x < (y + 1) * Pow2(shift) && IsLog2(y, l)
    ensures IsLog2(x, l + shift)
  {
    Pow2Add(l, shift);
    Pow2Add(l + 1, shift);
    var p := Pow2(shift);
    MulLe(1, y, p);
    MulLe(Pow2(l), y, p);
    MulLe(y + 1, Pow2(l + 1), p);
    hide Pow2;
  }

  lemma Shift8(q: nat, p: nat, x: nat)
    requires 256 * q <= x < 256 * q + 256
    ensures q * (256 * p) <= x * p && (x + 1) * p <= (q + 1) * (256 * p)
  {
    MulLe(256 * q, x, p);
    MulLe(x + 1, 256 * q + 256, p);
    assert q * (256 * p) == (256 * q) * p;
    assert (q + 1) * (256 * p) == (256 * q + 256) * p;
  }

  lemma ShiftStep(x0: nat, x: nat, shift: nat)
    requires x >= 256 && x * Pow2(shift) <= x0 < (x + 1) * Pow2(shift)
    ensures x / 256 * Pow2(shift + 8) <= x0 < (x / 256 + 1) * Pow2(shift + 8)
  {
    Pow2Values();
    Pow2Add(8, shift);
    hide Pow2;
    Shift8(x / 256, Pow2(shift), x);
  }

  lemma Log2Byte(x: nat)
    requires 0 < x < 256
    ensures Log2Table(x) > 0 && IsLog2(x, Log2Table(x) - 1)
  {
    Pow2Values();
    assert Pow2(0) == 1;
  }

  /** luaO_log2 */
  method Log2(x0: nat) returns (l: int)
    ensures IsLog2(x0, l)
  {
    hide Pow2, Log2Table;
    var x := x0;
    l := -1;
    ghost var shift := 0;
    PowZero();
    while x >= 256
      invariant l == shift - 1 && (x0 > 0 ==> x > 0) && (x0 == 0 ==> x == 0 && shift == 0)
      invariant x * Pow2(shift) <= x0 < (x + 1) * Pow2(shift)
    {
      ShiftStep(x0, x, shift);
      l := l + 8;
      x := x / 256;
      shift := shift + 8;
    }
    if x > 0 {
      Log2Byte(x);
      IsLog2Shifts(x0, x, shift, Log2Table(x) - 1);
    }
    l := l + Log2Table(x);
    LogZero();
  }

  lemma PowZero()
    ensures Pow2(0) == 1
  {
  }

  lemma LogZero()
    ensures Log2Table(0) == 0
  {
  }

  /** `ceillog2` */
  method CeilLog2(x: nat) returns (l: nat)
    requires x > 0
    ensures x <= Pow2(l) && (l > 0 ==> Pow2(l - 1) < x)
  {
    var k := Log2(x - 1);
    l := k + 1;
  }

  /** The slice an integer key is counted in: the first power of two that is not below it. */
  ghost predicate InSlice(k: int, lg: nat) {
    0 < k <= Pow2(lg) && (lg > 0 ==> Pow2(lg - 1) < k)
  }

  lemma SliceUnique(k: int, a: nat, b: nat)
    requires InSlice(k, a) && InSlice(k, b)
    ensures a == b
  {
    if a < b {
      Pow2Grows(a, b - 1);
    } else if b < a {
      Pow2Grows(b, a - 1);
    }
  }

  // ---------------------------------------------------------------- counting keys

  /** How many of the integer keys are at most `n`. */
  ghost function Below(s: set<int>, n: nat): nat {
    |set k | k in s && k <= n|
  }

  ghost function Slice(s: set<int>, lg: nat): set<int> {
    set k | k in s && InSlice(k, lg)
  }

  /** `nums` counts the keys of `s`, which all lie in the slices, slice by slice. */
  ghost predicate Counts(nums: seq<nat>, s: set<int>) {
    && |nums| == MAXBITS + 1
    && (forall k :: k in s ==> 0 < k <= Pow2(MAXBITS))
    && forall lg :: 0 <= lg < |nums| ==> nums[lg] == |Slice(s, lg)|
  }

  lemma SliceAdd(s: set<int>, k: int, lg: nat, j: nat)
    requires k !in s && InSlice(k, lg)
    ensures |Slice(s + {k}, j)| == |Slice(s, j)| + (if j == lg then 1 else 0)
  {
    if InSlice(k, j) {
      SliceUnique(k, lg, j);
      assert Slice(s + {k}, j) == Slice(s, j) + {k};
    } else {
      assert Slice(s + {k}, j) == Slice(s, j);
    }
  }

  lemma CountOne(nums: seq<nat>, s: set<int>, k: int, lg: nat)
    requires Counts(nums, s) && k !in s && InSlice(k, lg) && lg <= MAXBITS
    ensures Counts(nums[lg := nums[lg] + 1], s + {k})
  {
    Pow2Grows(lg, MAXBITS);
    forall j | 0 <= j < |nums|
      ensures nums[lg := nums[lg] + 1][j] == |Slice(s + {k}, j)|
    {
      SliceAdd(s, k, lg, j);
    }
    hide Slice;
  }

  lemma BelowStep(s: set<int>, lg: nat)
    requires forall k :: k in s ==> 0 < k
    ensures Below(s, Pow2(lg)) == (if lg == 0 then 0 else Below(s, Pow2(lg - 1))) + |Slice(s, lg)|
  {
    var all := set k | k in s && k <= Pow2(lg);
    if lg == 0 {
      assert all == Slice(s, 0);
    } else {
      var low := set k | k in s && k <= Pow2(lg - 1);
      assert low !! Slice(s, lg);
      assert all == low + Slice(s, lg);
    }
  }

  lemma {:induction false} BelowBound(s: set<int>, n: nat)
    requires forall k :: k in s ==> 0 < k
    ensures Below(s, n) <= n
  {
    var all := set k | k in s && k <= n;
    if n == 0 {
      assert all == {};
    } else {
      BelowBound(s, n - 1);
      var low := set k | k in s && k <= n - 1;
      assert all <= low + {n};
      SubsetSize(all, low + {n});
      assert |low + {n}| <= |low| + 1;
    }
  }

  /** A member of a set. */
  lemma Member<T>(s: set<T>) returns (x: T)
    requires s != {}
    ensures x in s
  {
    x :| x in s;
  }

  lemma SubsetSize(a: set<int>, b: set<int>)
    requires a <= b
    ensures |a| <= |b|
  {
    assert b == a + (b - a);
  }

  lemma BelowAll(s: set<int>, n: nat)
    ensures Below(s, n) <= |s| && ((forall k :: k in s ==> k <= n) ==> Below(s, n) == |s|)
    ensures Below(s, n) == |s| ==> forall k :: k in s ==> k <= n
  {
    var all := set k | k in s && k <= n;
    SubsetSize(all, s);
    if forall k :: k in s ==> k <= n {
      assert all == s;
    } else {
      var k :| k in s && k > n;
      SubsetSize(all, s - {k});
    }
  }

  // ---------------------------------------------------------------- the best size

  /** More than half of the slots 1..n are in use. */
  ghost predicate Dense(s: set<int>, n: nat) {
    Below(s, n) > n / 2
  }

  /** The largest power of two, within the limit, that more than half fills the slots; 0 if there is none. */
  ghost predicate Best(s: set<int>, n: nat) {
    && (n == 0 || exists i: nat :: i <= MAXBITS && n == Pow2(i) && Dense(s, n))
    && forall i: nat :: i <= MAXBITS && Dense(s, Pow2(i)) ==> Pow2(i) <= n
  }

  /** At least half of the slots 1..n are in use. */
  ghost predicate HalfFull(s: set<int>, n: nat) {
    2 * Below(s, n) >= n
  }

  /** The size that the header of ltable.c describes: the largest, within the limit, that is at least half full. */
  ghost predicate BestHalf(s: set<int>, n: nat) {
    && (n == 0 || exists i: nat :: i <= MAXBITS && n == Pow2(i) && HalfFull(s, n))
    && forall i: nat :: i <= MAXBITS && HalfFull(s, Pow2(i)) ==> Pow2(i) <= n
  }

  /** Slots 1..2^i are exactly half full. */
  ghost predicate JustHalf(s: set<int>, i: nat) {
    2 * Below(s, Pow2(i)) == Pow2(i)
  }

  lemma DenseOrHalf(s: set<int>, i: nat)
    ensures HalfFull(s, Pow2(i)) <==> Dense(s, Pow2(i)) || JustHalf(s, i)
  {
    hide Below;
  }

  /** The size chosen is the one the header describes exactly if no larger size is just half full. */
  lemma HeaderSize(s: set<int>, n: nat)
    requires Best(s, n)
    ensures BestHalf(s, n) <==> forall i: nat :: i <= MAXBITS && Pow2(i) > n ==> !JustHalf(s, i)
  {
    hide Dense, HalfFull, JustHalf;
    forall i: nat | i <= MAXBITS
      ensures HalfFull(s, Pow2(i)) <==> Dense(s, Pow2(i)) || JustHalf(s, i)
    {
      DenseOrHalf(s, i);
    }
  }

  /** One key, 1: size 2 is half full, and size 1 is chosen. */
  lemma HeaderDiffers()
    ensures Best({1}, 1) && !BestHalf({1}, 1)
  {
    forall n: nat | n >= 1
      ensures Below({1}, n) == 1
    {
      BelowAll({1}, n);
    }
    assert Pow2(0) == 1 && Pow2(1) == 2;
    forall i: nat | i <= MAXBITS && Dense({1}, Pow2(i))
      ensures Pow2(i) <= 1
    {
      if i > 0 {
        Pow2Grows(1, i);
      }
    }
    assert Dense({1}, 1) && HalfFull({1}, Pow2(1));
  }

  /** What the loop of computesizes knows after the slices below `i`. */
  ghost predicate BestBelow(s: set<int>, n: nat, i: nat) {
    && (n == 0 || exists j: nat :: j < i && j <= MAXBITS && n == Pow2(j) && Dense(s, n))
    && forall j: nat :: j < i && j <= MAXBITS && Dense(s, Pow2(j)) ==> Pow2(j) <= n
  }

  /** A slice with no key does not make a larger size dense. */
  lemma EmptySlice(s: set<int>, i: nat)
    requires (forall k :: k in s ==> 0 < k) && |Slice(s, i)| == 0
    ensures !Dense(s, Pow2(i))
  {
    BelowStep(s, i);
    if i > 0 {
      BelowBound(s, Pow2(i - 1));
    }
  }

  lemma BestStep(s: set<int>, n: nat, i: nat)
    requires BestBelow(s, n, i) && i <= MAXBITS
    ensures Dense(s, Pow2(i)) ==> BestBelow(s, Pow2(i), i + 1)
    ensures !Dense(s, Pow2(i)) ==> BestBelow(s, n, i + 1)
  {
    forall j: nat | j < i + 1
      ensures Pow2(j) <= Pow2(i)
    {
      Pow2Grows(j, i);
    }
  }

  /** Beyond the point where the loop stops nothing is dense. */
  lemma NoneBeyond(s: set<int>, n: nat, i: nat)
    requires (forall k :: k in s ==> 0 < k) && BestBelow(s, n, i)
    requires i <= MAXBITS ==> Pow2(i) / 2 >= |s|
    ensures Best(s, n)
  {
    forall j: nat | i <= j <= MAXBITS
      ensures !Dense(s, Pow2(j))
    {
      BelowAll(s, Pow2(j));
      Pow2Grows(i, j);
    }
  }

  /** The state of the loop before slice `i`. */
  ghost predicate Counting(s: set<int>, narray: nat, i: nat, twotoi: nat, a: nat, na: nat, n: nat) {
    && i <= MAXBITS && twotoi == Pow2(i) && (i > 0 ==> a < narray)
    && a == (if i == 0 then 0 else Below(s, Pow2(i - 1)))
    && BestBelow(s, n, i) && na == Below(s, n) && n / 2 <= na
  }

  lemma CountingStep(s: set<int>, narray: nat, i: nat, twotoi: nat, a: nat, na: nat, n: nat, c: nat)
    requires Counting(s, narray, i, twotoi, a, na, n) && c == |Slice(s, i)| && narray == |s|
    requires forall k :: k in s ==> 0 < k <= Pow2(MAXBITS)
    ensures var n' := if c > 0 && a + c > twotoi / 2 then twotoi else n;
            var na' := if c > 0 && a + c > twotoi / 2 then a + c else na;
            && a + c == Below(s, Pow2(i)) && a + c <= narray
            && BestBelow(s, n', i + 1) && na' == Below(s, n') && n' / 2 <= na'
            && (a + c != narray ==> Counting(s, narray, i + 1, twotoi * 2, a + c, na', n'))
  {
    hide BestBelow, Below, Slice;
    BelowStep(s, i);
    BestStep(s, n, i);
    BelowAll(s, Pow2(i));
    if c == 0 {
      EmptySlice(s, i);
    }
  }

  method ComputeSizes(nums: seq<nat>, narray: nat, ghost s: set<int>) returns (na: nat, n: nat)
    requires Counts(nums, s) && narray == |s|
    ensures Best(s, n) && na == Below(s, n) && na <= narray && n / 2 <= na
  {
    hide Pow2, Below, BestBelow, Best, Slice;
    var i: nat, twotoi: nat, a: nat := 0, 1, 0;
    na, n := 0, 0;
    CountingStart(s, narray);
    while twotoi / 2 < narray
      invariant Counting(s, narray, i, twotoi, a, na, n)
      decreases MAXBITS - i
    {
      CountingStep(s, narray, i, twotoi, a, na, n, nums[i]);
      if nums[i] > 0 {
        a := a + nums[i];
        if a > twotoi / 2 {
          n := twotoi;
          na := a;
        }
      }
      if a == narray {
        AllBelow(s, i);
        NoneBeyond(s, n, i + 1);
        BelowAll(s, n);
        return;
      }
      i, twotoi := i + 1, twotoi * 2;
    }
    NoneBeyond(s, n, i);
    BelowAll(s, n);
  }

  /** All keys counted: twice as many slots would be half empty. */
  lemma AllBelow(s: set<int>, i: nat)
    requires (forall k :: k in s ==> 0 < k) && Below(s, Pow2(i)) == |s|
    ensures Pow2(i + 1) / 2 >= |s|
  {
    BelowBound(s, Pow2(i));
  }

  lemma CountingStart(s: set<int>, narray: nat)
    requires forall k :: k in s ==> 0 < k
    ensures Counting(s, narray, 0, 1, 0, 0, 0)
  {
    BelowBound(s, 0);
  }
}

/**
  What a pattern matches.  `First` is the match found by trying the choices in order; a reading
  fixes how often each item is repeated, and the match found is that of the best reading.
 */
module PatReading {
  import opened PatSyntax

  const MAXCAPTURES := 32

  const UNFINISHED: int := -1

  const POSITION: int := -2

  datatype Capture = Capture(init: int, len: int)

  datatype Outcome = NoMatch | Found(e: nat, caps: seq<Capture>) | Raise(error: Error)

  /** The last capture that is still open, or -1. */
  function ToClose(caps: seq<Capture>): (l: int)
    ensures -1 <= l < |caps| && (l >= 0 ==> caps[l].len == UNFINISHED)
    ensures forall k :: l < k < |caps| ==> caps[k].len != UNFINISHED
  {
    if caps == [] then -1
    else if caps[|caps| - 1].len == UNFINISHED then |caps| - 1
    else ToClose(caps[..|caps| - 1])
  }

  /** The capture that `%1` to `%9` stands for. */
  function BackIndex(caps: seq<Capture>, digit: char): (l: int)
    ensures -1 <= l < |caps|
  {
    var l := digit as int - '1' as int;
    if l < 0 || l >= |caps| || caps[l].len == UNFINISHED then -1 else l
  }

  /** The text of a capture stands at `s`; a position capture has no text. */
  predicate TextAt(src: string, cap: Capture, s: nat) {
    && 0 <= cap.len && 0 <= cap.init && cap.init + cap.len <= |src| && s + cap.len <= |src|
    && src[cap.init..cap.init + cap.len] == src[s..s + cap.len]
  }

  /** The text of length `len` at `init` stands at `s` again, character by character. */
  ghost predicate Repeats(src: string, init: nat, len: nat, s: nat) {
    s + len <= |src| && init + len <= |src| && forall i :: init <= i < init + len ==> src[i] == src[s + (i - init)]
  }

  lemma TextRepeats(src: string, cap: Capture, s: nat)
    requires 0 <= cap.init && 0 <= cap.len
    ensures TextAt(src, cap, s) <==> Repeats(src, cap.init, cap.len, s)
  {
    if TextAt(src, cap, s) {
      var a, b := src[cap.init..cap.init + cap.len], src[s..s + cap.len];
      forall i | cap.init <= i < cap.init + cap.len
        ensures src[i] == src[s + (i - cap.init)]
      {
        assert a[i - cap.init] == b[i - cap.init];
      }
    }
  }

  /** Where a balanced text that is open `cont` times is closed, or -1. */
  function BalanceEnd(src: string, b: char, e: char, s: nat, cont: nat): (r: int)
    ensures r == -1 || s < r <= |src|
    decreases |src| - s
  {
    if s >= |src| then -1
    else if src[s] == e then if cont <= 1 then s + 1 else BalanceEnd(src, b, e, s + 1, cont - 1)
    else BalanceEnd(src, b, e, s + 1, if src[s] == b then cont + 1 else cont)
  }

  function BalanceAt(src: string, b: char, e: char, s: nat): (r: int)
    ensures r == -1 || s < r <= |src|
  {
    if s < |src| && src[s] == b then BalanceEnd(src, b, e, s + 1, 1) else -1
  }

  predicate FrontierAt(src: string, cls: Class, s: nat) {
    !InClass(CharAt(src, s - 1), cls) && InClass(CharAt(src, s), cls)
  }

  predicate MatchesAt(src: string, cls: Class, s: nat) {
    s < |src| && InClass(src[s], cls)
  }

  /** How many characters from `s` on are in the class. */
  function Span(src: string, cls: Class, s: nat): (n: nat)
    requires s <= |src|
    ensures s + n <= |src|
    decreases |src| - s
  {
    if MatchesAt(src, cls, s) then 1 + Span(src, cls, s + 1) else 0
  }

  function Else(first: Outcome, second: Outcome): Outcome {
    if first.NoMatch? then second else first
  }

  /** What an item other than a repeated class does: it leads to one state, or fails, or raises an error. */
  function StepItem(item: Item, src: string, s: nat, caps: seq<Capture>): (r: Outcome)
    requires !item.Single? && s <= |src|
    ensures r.Found? ==> s <= r.e <= |src|
  {
    match item
    case Open => if |caps| >= MAXCAPTURES then Raise(TooManyCaptures) else Found(s, caps + [Capture(s, UNFINISHED)])
    case OpenPosition => if |caps| >= MAXCAPTURES then Raise(TooManyCaptures)
                         else Found(s, caps + [Capture(s, POSITION)])
    case Close =>
      var l := ToClose(caps);
      if l < 0 then Raise(InvalidPatternCapture) else Found(s, caps[l := Capture(caps[l].init, s - caps[l].init)])
    case Balance(b, e) =>
      var r := BalanceAt(src, b, e, s);
      if r < 0 then NoMatch else Found(r, caps)
    case Frontier(cls) => if FrontierAt(src, cls, s) then Found(s, caps) else NoMatch
    case Back(digit) =>
      var l := BackIndex(caps, digit);
      if l < 0 then Raise(InvalidCaptureIndex)
      else if TextAt(src, caps[l], s) then Found(s + caps[l].len, caps) else NoMatch
    case AtEnd => if s == |src| then Found(s, caps) else NoMatch
    case Malformed(error) => Raise(error)
  }

  /** The match that is found when the choices are tried in order. */
  function First(items: seq<Item>, src: string, s: nat, caps: seq<Capture>): (r: Outcome)
    requires s <= |src|
    decreases |items|, 1, 0
  {
    if items == [] then Found(s, caps)
    else if items[0].Single? then
      var cls := items[0].cls;
      var m := MatchesAt(src, cls, s);
      match items[0].rep
      case Once => if m then First(items[1..], src, s + 1, caps) else NoMatch
      case Optional =>
        Else(if m then First(items[1..], src, s + 1, caps) else NoMatch, First(items[1..], src, s, caps))
      case Greedy => FirstDown(items, src, s, caps, Span(src, cls, s))
      case GreedyPlus => if m then FirstDown(items, src, s + 1, caps, Span(src, cls, s + 1)) else NoMatch
      case Lazy => FirstUp(items, src, s, caps)
    else
      var r := StepItem(items[0], src, s, caps);
      if r.Found? then First(items[1..], src, r.e, r.caps) else r
  }

  /** At most `i` repetitions, the most first. */
  function FirstDown(items: seq<Item>, src: string, s: nat, caps: seq<Capture>, i: nat): Outcome
    requires items != [] && s + i <= |src|
    decreases |items|, 0, i
  {
    var r := First(items[1..], src, s + i, caps);
    if r.NoMatch? && i > 0 then FirstDown(items, src, s, caps, i - 1) else r
  }

  /** The fewest repetitions first. */
  function FirstUp(items: seq<Item>, src: string, s: nat, caps: seq<Capture>): Outcome
    requires items != [] && items[0].Single? && s <= |src|
    decreases |items|, 0, |src| - s
  {
    var r := First(items[1..], src, s, caps);
    if r.NoMatch? && MatchesAt(src, items[0].cls, s) then FirstUp(items, src, s + 1, caps) else r
  }

  // ---------------------------------------------------------------- readings

  /** How often a repetition sign lets its class occur. */
  predicate Allowed(rep: Repeat, k: nat) {
    match rep
    case Once => k == 1
    case Optional => k <= 1
    case Greedy => true
    case GreedyPlus => k >= 1
    case Lazy => true
  }

  predicate AllIn(src: string, cls: Class, s: nat, k: nat) {
    s + k <= |src| && forall i :: s <= i < s + k ==> InClass(src[i], cls)
  }

  /**
    Follow a reading, which says for each item in turn how often it occurs (0 for an item that is
    not a class).  It ends where the pattern ends, or where an error is raised.
   */
  function Follow(items: seq<Item>, src: string, s: nat, caps: seq<Capture>, reading: seq<nat>): Outcome
    requires s <= |src|
    decreases |items|
  {
    if items == [] then if reading == [] then Found(s, caps) else NoMatch
    else if items[0].Single? then
      if reading != [] && Allowed(items[0].rep, reading[0]) && AllIn(src, items[0].cls, s, reading[0])
      then Follow(items[1..], src, s + reading[0], caps, reading[1..])
      else NoMatch
    else
      var r := StepItem(items[0], src, s, caps);
      if r.Raise? then if reading == [] then r else NoMatch
      else if r.Found? && reading != [] && reading[0] == 0 then Follow(items[1..], src, r.e, r.caps, reading[1..])
      else NoMatch
  }

  /** A lazy item prefers fewer occurrences, the others more. */
  predicate Prefers(item: Item, k: nat, k': nat) {
    if item.Single? && item.rep == Lazy then k < k' else k > k'
  }

  /** The order of readings: by the first item on which they differ. */
  predicate Better(items: seq<Item>, r: seq<nat>, r': seq<nat>)
    decreases |items|
  {
    items != [] && r != [] && r' != [] &&
    (Prefers(items[0], r[0], r'[0]) || (r[0] == r'[0] && Better(items[1..], r[1..], r'[1..])))
  }

  /** `reading` gives `o`, and is better than any other reading that does not fail. */
  ghost predicate Best(items: seq<Item>, src: string, s: nat, caps: seq<Capture>, reading: seq<nat>, o: Outcome)
    requires s <= |src|
  {
    && Follow(items, src, s, caps, reading) == o
    && forall r :: !Follow(items, src, s, caps, r).NoMatch? ==> r == reading || Better(items, reading, r)
  }

  ghost predicate NoReading(items: seq<Item>, src: string, s: nat, caps: seq<Capture>)
    requires s <= |src|
  {
    forall r :: Follow(items, src, s, caps, r).NoMatch?
  }

  /** The first match is that of the best reading, and there is none only if every reading fails. */
  ghost predicate Chosen(items: seq<Item>, src: string, s: nat, caps: seq<Capture>, o: Outcome)
    requires s <= |src|
  {
    if o.NoMatch? then NoReading(items, src, s, caps) else exists r :: Best(items, src, s, caps, r, o)
  }

  // ---------------------------------------------------------------- the first match is the best reading

  lemma SpanIs(src: string, cls: Class, s: nat)
    requires s <= |src|
    ensures AllIn(src, cls, s, Span(src, cls, s)) && !MatchesAt(src, cls, s + Span(src, cls, s))
    ensures forall k: nat :: AllIn(src, cls, s, k) ==> k <= Span(src, cls, s)
    decreases |src| - s
  {
    var n := Span(src, cls, s);
    if MatchesAt(src, cls, s) {
      SpanIs(src, cls, s + 1);
      assert n == 1 + Span(src, cls, s + 1);
    }
    forall k: nat | k > n
      ensures !AllIn(src, cls, s, k)
    {
      if s + k <= |src| {
        assert !InClass(src[s + n], cls);
      }
    }
  }

  predicate CountIn(r: seq<nat>, lo: nat, hi: nat) {
    r != [] && lo <= r[0] <= hi
  }

  /** `best` is the best of the readings that start with `lo` to `hi` occurrences. */
  ghost predicate BestIn(items: seq<Item>, src: string, s: nat, caps: seq<Capture>, best: seq<nat>, o: Outcome, lo: nat,
      hi: nat)
    requires s <= |src|
  {
    && Follow(items, src, s, caps, best) == o && CountIn(best, lo, hi)
    && forall r :: CountIn(r, lo, hi) && !Follow(items, src, s, caps, r).NoMatch? ==> r == best
                                                                                      || Better(items, best, r)
  }

  /** What the search over the counts `lo` to `hi` of the first item finds. */
  ghost predicate ChosenIn(items: seq<Item>, src: string, s: nat, caps: seq<Capture>, o: Outcome, lo: nat, hi: nat)
    requires s <= |src|
  {
    if o.NoMatch? then forall r :: CountIn(r, lo, hi) ==> Follow(items, src, s, caps, r).NoMatch?
    else exists best :: BestIn(items, src, s, caps, best, o, lo, hi)
  }

  predicate Possible(items: seq<Item>, src: string, s: nat, k: nat) {
    items != [] && items[0].Single? && Allowed(items[0].rep, k) && AllIn(src, items[0].cls, s, k)
  }

  lemma ChoiceOne(items: seq<Item>, src: string, s: nat, caps: seq<Capture>, k: nat, o: Outcome)
    requires s + k <= |src| && Possible(items, src, s, k) && Chosen(items[1..], src, s + k, caps, o)
    ensures ChosenIn(items, src, s, caps, o, k, k)
  {
    if !o.NoMatch? {
      var rest :| Best(items[1..], src, s + k, caps, rest, o);
      var best := [k] + rest;
      assert best[1..] == rest;
      forall r | CountIn(r, k, k) && !Follow(items, src, s, caps, r).NoMatch?
        ensures r == best || Better(items, best, r)
      {
        assert r == [k] + r[1..];
        assert !Follow(items[1..], src, s + k, caps, r[1..]).NoMatch?;
      }
      assert BestIn(items, src, s, caps, best, o, k, k);
    }
  }

  lemma ChoiceNone(items: seq<Item>, src: string, s: nat, caps: seq<Capture>, lo: nat, hi: nat)
    requires s <= |src| && items != [] && items[0].Single? && forall k: nat :: lo <= k <= hi
                                                                               ==> !Possible(items, src, s, k)
    ensures ChosenIn(items, src, s, caps, NoMatch, lo, hi)
  {
    forall r | CountIn(r, lo, hi)
      ensures Follow(items, src, s, caps, r).NoMatch?
    {
      assert !Possible(items, src, s, r[0]);
    }
  }

  /** First the counts of one range, then those of the other. */
  lemma ChoiceElse(items: seq<Item>, src: string, s: nat, caps: seq<Capture>, o1: Outcome, l1: nat, h1: nat,
      o2: Outcome, l2: nat, h2: nat, lo: nat, hi: nat)
    requires s <= |src| && items != [] && ChosenIn(items, src, s, caps, o1, l1, h1)
    requires !o1.NoMatch? || ChosenIn(items, src, s, caps, o2, l2, h2)
    requires if items[0].Single? && items[0].rep == Lazy then h1 + 1 == l2 && lo == l1 && hi == h2
                                                              && h1 <= h2 else h2 + 1 == l1 && l2 <= l1 && lo == l2
                                                                               && hi == h1
    requires l1 <= h1
    ensures ChosenIn(items, src, s, caps, Else(o1, o2), lo, hi)
  {
    hide Follow;
    if !o1.NoMatch? {
      var best :| BestIn(items, src, s, caps, best, o1, l1, h1);
      forall r | CountIn(r, lo, hi) && !Follow(items, src, s, caps, r).NoMatch?
        ensures r == best || Better(items, best, r)
      {
        if !CountIn(r, l1, h1) {
          assert Prefers(items[0], best[0], r[0]);
        }
      }
      assert BestIn(items, src, s, caps, best, o1, lo, hi);
    } else if !o2.NoMatch? {
      var best :| BestIn(items, src, s, caps, best, o2, l2, h2);
      assert BestIn(items, src, s, caps, best, o2, lo, hi);
    }
  }

  lemma ChoiceAll(items: seq<Item>, src: string, s: nat, caps: seq<Capture>, o: Outcome, lo: nat, hi: nat)
    requires s <= |src| && items != [] && items[0].Single? && ChosenIn(items, src, s, caps, o, lo, hi)
    requires forall k: nat :: Possible(items, src, s, k) ==> lo <= k <= hi
    ensures Chosen(items, src, s, caps, o)
  {
    forall r | !Follow(items, src, s, caps, r).NoMatch?
      ensures CountIn(r, lo, hi)
    {
      assert Possible(items, src, s, r[0]);
    }
    if !o.NoMatch? {
      var best :| BestIn(items, src, s, caps, best, o, lo, hi);
      assert Best(items, src, s, caps, best, o);
    }
  }

  lemma MoreIn(src: string, cls: Class, s: nat, k: nat, j: nat)
    requires j <= k && AllIn(src, cls, s, k)
    ensures AllIn(src, cls, s, j)
  {
  }

  /** Greedy: `base` occurrences are fixed, and at most `i` more are tried. */
  lemma {:induction false} DownChosen(items: seq<Item>, src: string, s: nat, caps: seq<Capture>, base: nat, i: nat)
    requires items != [] && items[0].Single? && AllIn(src, items[0].cls, s, base + i) && s + base + i <= |src|
    requires (items[0].rep == Greedy && base == 0) || (items[0].rep == GreedyPlus && base == 1)
    ensures ChosenIn(items, src, s, caps, FirstDown(items, src, s + base, caps, i), base, base + i)
    decreases |items|, 0, i
  {
    hide ChosenIn, Chosen;
    FirstChosen(items[1..], src, s + base + i, caps);
    var o := First(items[1..], src, s + base + i, caps);
    ChoiceOne(items, src, s, caps, base + i, o);
    if i > 0 && o.NoMatch? {
      MoreIn(src, items[0].cls, s, base + i, base + (i - 1));
      DownChosen(items, src, s, caps, base, i - 1);
      ChoiceElse(items, src, s, caps, o, base + i, base + i, FirstDown(items, src, s + base, caps, i - 1), base,
        base + (i - 1), base, base + i);
    } else if i > 0 {
      ChoiceElse(items, src, s, caps, o, base + i, base + i, NoMatch, base, base + (i - 1), base, base + i);
    }
  }

  /** Lazy: `k` occurrences and more are tried. */
  lemma {:induction false} UpChosen(items: seq<Item>, src: string, s: nat, caps: seq<Capture>, k: nat)
    requires items != [] && items[0].Single? && items[0].rep == Lazy && AllIn(src, items[0].cls, s, k) && s + k <= |src|
    ensures ChosenIn(items, src, s, caps, FirstUp(items, src, s + k, caps), k, |src|)
    decreases |items|, 0, |src| - s - k
  {
    hide ChosenIn, Chosen;
    FirstChosen(items[1..], src, s + k, caps);
    var o := First(items[1..], src, s + k, caps);
    ChoiceOne(items, src, s, caps, k, o);
    var more := NoMatch;
    if !o.NoMatch? {
    } else if MatchesAt(src, items[0].cls, s + k) {
      UpChosen(items, src, s, caps, k + 1);
      more := FirstUp(items, src, s + (k + 1), caps);
    } else {
      forall j: nat | k + 1 <= j <= |src|
        ensures !Possible(items, src, s, j)
      {
        if s + j <= |src| {
          assert !InClass(src[s + k], items[0].cls);
        }
      }
      ChoiceNone(items, src, s, caps, k + 1, |src|);
    }
    ChoiceElse(items, src, s, caps, o, k, k, more, k + 1, |src|, k, |src|);
  }

  /** A class that occurs once, or at most once. */
  lemma OnceChosen(items: seq<Item>, src: string, s: nat, caps: seq<Capture>)
    requires items != [] && items[0].Single? && (items[0].rep == Once || items[0].rep == Optional) && s <= |src|
    ensures Chosen(items, src, s, caps, First(items, src, s, caps))
    decreases |items|, 0, 0
  {
    hide ChosenIn, Chosen;
    var m := MatchesAt(src, items[0].cls, s);
    var o := if m then First(items[1..], src, s + 1, caps) else NoMatch;
    if m {
      FirstChosen(items[1..], src, s + 1, caps);
      ChoiceOne(items, src, s, caps, 1, o);
    } else {
      ChoiceNone(items, src, s, caps, 1, 1);
    }
    if items[0].rep == Once {
      ChoiceAll(items, src, s, caps, o, 1, 1);
    } else {
      FirstChosen(items[1..], src, s, caps);
      var z := First(items[1..], src, s, caps);
      ChoiceOne(items, src, s, caps, 0, z);
      ChoiceElse(items, src, s, caps, o, 1, 1, z, 0, 0, 0, 1);
      ChoiceAll(items, src, s, caps, Else(o, z), 0, 1);
    }
  }

  /** The match that is found is that of the best reading; there is none only if every reading fails. */
  lemma {:induction false} FirstChosen(items: seq<Item>, src: string, s: nat, caps: seq<Capture>)
    requires s <= |src|
    ensures Chosen(items, src, s, caps, First(items, src, s, caps))
    decreases |items|, 1, 0
  {
    if items == [] {
      assert Best(items, src, s, caps, [], Found(s, caps));
    } else if !items[0].Single? {
      StepChosen(items, src, s, caps);
    } else {
      var cls := items[0].cls;
      SpanIs(src, cls, s);
      if items[0].rep == Greedy {
        DownChosen(items, src, s, caps, 0, Span(src, cls, s));
        ChoiceAll(items, src, s, caps, First(items, src, s, caps), 0, Span(src, cls, s));
      } else if items[0].rep == GreedyPlus {
        PlusChosen(items, src, s, caps);
      } else if items[0].rep == Lazy {
        UpChosen(items, src, s, caps, 0);
        ChoiceAll(items, src, s, caps, First(items, src, s, caps), 0, |src|);
      } else {
        OnceChosen(items, src, s, caps);
      }
    }
  }

  lemma PlusChosen(items: seq<Item>, src: string, s: nat, caps: seq<Capture>)
    requires items != [] && items[0].Single? && items[0].rep == GreedyPlus && s <= |src|
    ensures Chosen(items, src, s, caps, First(items, src, s, caps))
    decreases |items|, 0, |src| + 1
  {
    hide ChosenIn, Chosen;
    var cls := items[0].cls;
    if MatchesAt(src, cls, s) {
      SpanIs(src, cls, s);
      var n := Span(src, cls, s + 1);
      assert Span(src, cls, s) == 1 + n;
      DownChosen(items, src, s, caps, 1, n);
      ChoiceAll(items, src, s, caps, First(items, src, s, caps), 1, 1 + n);
    } else {
      forall k: nat
        ensures !Possible(items, src, s, k)
      {
        if s < |src| {
          assert !InClass(src[s], cls);
        }
      }
      ChoiceNone(items, src, s, caps, 0, 0);
      ChoiceAll(items, src, s, caps, NoMatch, 0, 0);
    }
  }

  /** An item that leaves no choice. */
  lemma StepChosen(items: seq<Item>, src: string, s: nat, caps: seq<Capture>)
    requires items != [] && !items[0].Single? && s <= |src|
    ensures Chosen(items, src, s, caps, First(items, src, s, caps))
    decreases |items|, 0, 0
  {
    var r := StepItem(items[0], src, s, caps);
    hide StepItem;
    var o := First(items, src, s, caps);
    if r.Raise? {
      assert Best(items, src, s, caps, [], o);
    } else if r.Found? {
      FirstChosen(items[1..], src, r.e, r.caps);
      if !o.NoMatch? {
        var rest :| Best(items[1..], src, r.e, r.caps, rest, o);
        var best := [0] + rest;
        assert best[1..] == rest;
        forall r' | !Follow(items, src, s, caps, r').NoMatch?
          ensures r' == best || Better(items, best, r')
        {
          assert r' == [0] + r'[1..];
          assert !Follow(items[1..], src, r.e, r.caps, r'[1..]).NoMatch?;
        }
        assert Best(items, src, s, caps, best, o);
      } else {
        forall r'
          ensures Follow(items, src, s, caps, r').NoMatch?
        {
          if r' != [] {
            assert Follow(items[1..], src, r.e, r.caps, r'[1..]).NoMatch?;
          }
        }
      }
    }
  }
}

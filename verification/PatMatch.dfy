/** The matcher as it runs (lstrlib.c): captures are kept in one array, and undone when a try fails. */
module PatMatch {
  import opened Wrappers
  import opened PatSyntax
  import opened PatReading

  const NULL: int := -1

  /** What a pattern does from position `p` on. */
  function FirstAt(pat: string, p: nat, src: string, s: nat, caps: seq<Capture>): Outcome
    requires p <= |pat| && s <= |src|
  {
    First(Items(pat, p), src, s, caps)
  }

  class MatchState {
    const src: string
    const pat: string
    var level: nat
    const capture: array<Capture>

    ghost predicate Valid()
      reads this
    {
      CString(pat) && capture.Length == MAXCAPTURES && level <= MAXCAPTURES
    }

    function Caps(): seq<Capture>
      requires level <= capture.Length
      reads this, capture
    {
      capture[..level]
    }

    constructor (src: string, pat: string)
      requires CString(pat)
      ensures Valid() && this.src == src && this.pat == pat && fresh(capture) && Caps() == []
    {
      this.src := src;
      this.pat := pat;
      level := 0;
      capture := new Capture[MAXCAPTURES](_ => Capture(0, 0));
    }

    /** The result and the captures are those of an outcome; without a match the captures are as before. */
    ghost predicate Gives(r: Result<int, Error>, o: Outcome, caps: seq<Capture>)
      reads this, capture
    {
      && Valid()
      && match o
         case NoMatch => r == Ok(NULL) && Caps() == caps
         case Found(e, caps') => r == Ok(e) && Caps() == caps'
         case Raise(error) => r == Fail(error)
    }

    // -------------------------------------------------------------- single characters

    /** classend */
    method ScanClass(p0: nat) returns (r: Result<nat, Error>)
      requires p0 < |pat| && CString(pat)
      ensures r == ClassEnd(pat, p0)
    {
      var p := p0;
      var c := pat[p];
      p := p + 1;
      if c == ESC {
        if CharAt(pat, p) == '\0' {
          return Fail(EndsWithPercent);
        }
        return Ok(p + 1);
      }
      if c == '[' {
        if CharAt(pat, p) == '^' {
          p := p + 1;
        }
        while true
          invariant p <= |pat| && SetEnd(pat, SetStart(pat, p0)) == SetEnd(pat, p)
          decreases |pat| - p
        {
          if CharAt(pat, p) == '\0' {
            return Fail(MissingBracket);
          }
          var d := pat[p];
          p := p + 1;
          if d == ESC && CharAt(pat, p) != '\0' {
            p := p + 1;
          }
          if CharAt(pat, p) == ']' {
            break;
          }
        }
        return Ok(p + 1);
      }
      return Ok(p);
    }

    /** matchbracketclass */
    method BracketClass(c: char, p0: nat, ec: nat) returns (r: bool)
      requires p0 < ec < |pat|
      ensures r == InClass(c, SetAt(pat, p0, ec))
    {
      hide Elems, InElems, MatchClass;
      var sig, p := true, p0;
      if CharAt(pat, p + 1) == '^' {
        sig := false;
        p := p + 1;
      }
      p := p + 1;
      while p < ec
        invariant InElems(c, Elems(pat, SetStart(pat, p0), ec)) == InElems(c, Elems(pat, p, ec))
        decreases ec - p
      {
        ElemsStep(c, pat, p, ec);
        if CharAt(pat, p) == ESC {
          p := p + 1;
          if MatchClass(c, CharAt(pat, p)) {
            return sig;
          }
        } else if CharAt(pat, p + 1) == '-' && p + 2 < ec {
          p := p + 2;
          if CharAt(pat, p - 2) <= c <= CharAt(pat, p) {
            return sig;
          }
        } else if CharAt(pat, p) == c {
          return sig;
        }
        p := p + 1;
      }
      ElemsNone(c, pat, p, ec);
      return !sig;
    }

    /** singlematch */
    method SingleMatch(c: char, p: nat, ep: nat) returns (r: bool)
      requires p < |pat| && ClassEnd(pat, p) == Ok(ep)
      ensures r == InClass(c, ClassAt(pat, p, ep))
    {
      if pat[p] == '.' {
        return true;
      }
      if pat[p] == ESC {
        return MatchClass(c, CharAt(pat, p + 1));
      }
      if pat[p] == '[' {
        r := BracketClass(c, p, ep - 1);
        return;
      }
      return pat[p] == c;
    }

    // -------------------------------------------------------------- items

    /** matchbalance */
    method MatchBalance(s0: nat, p: nat) returns (r: Result<int, Error>)
      requires s0 <= |src| && p <= |pat| && CString(pat)
      ensures p + 1 >= |pat| ==> r == Fail(Unbalanced)
      ensures p + 1 < |pat| ==> r == Ok(BalanceAt(src, pat[p], pat[p + 1], s0))
    {
      if CharAt(pat, p) == '\0' || CharAt(pat, p + 1) == '\0' {
        return Fail(Unbalanced);
      }
      if CharAt(src, s0) != pat[p] {
        return Ok(NULL);
      }
      var b, e, cont, s := pat[p], pat[p + 1], 1, s0 + 1;
      while s < |src|
        invariant s <= |src| && cont >= 1
        invariant BalanceAt(src, b, e, s0) == BalanceEnd(src, b, e, s, cont)
      {
        if src[s] == e {
          cont := cont - 1;
          if cont == 0 {
            return Ok(s + 1);
          }
        } else if src[s] == b {
          cont := cont + 1;
        }
        s := s + 1;
      }
      return Ok(NULL);
    }

    /** capture_to_close */
    method CaptureToClose() returns (r: Result<int, Error>)
      requires Valid()
      ensures var l := ToClose(Caps()); r == if l < 0 then Fail(InvalidPatternCapture) else Ok(l)
    {
      var l := level - 1;
      while l >= 0
        invariant -1 <= l < level && ToClose(Caps()) == ToClose(capture[..l + 1])
      {
        assert capture[..l + 1][..l] == capture[..l];
        if capture[l].len == UNFINISHED {
          return Ok(l);
        }
        l := l - 1;
      }
      return Fail(InvalidPatternCapture);
    }

    /** match_capture, with check_capture */
    method MatchCapture(s: nat, digit: char) returns (r: Result<int, Error>)
      requires Valid() && s <= |src|
      ensures var l := BackIndex(Caps(), digit);
              r == if l < 0 then Fail(InvalidCaptureIndex)
                   else if TextAt(src, Caps()[l], s) then Ok(s + Caps()[l].len) else Ok(NULL)
      ensures var l := digit as int - '1' as int;
              0 <= l < |Caps()| && 0 <= Caps()[l].init && 0 <= Caps()[l].len ==>
                r == Ok(if Repeats(src, Caps()[l].init, Caps()[l].len, s) then s + Caps()[l].len else NULL)
    {
      var l := digit as int - '1' as int;
      if l < 0 || l >= level || capture[l].len == UNFINISHED {
        return Fail(InvalidCaptureIndex);
      }
      if capture[l].init >= 0 && capture[l].len >= 0 {
        TextRepeats(src, capture[l], s);
      }
      if TextAt(src, capture[l], s) {
        return Ok(s + capture[l].len);
      }
      return Ok(NULL);
    }

    /** start_capture */
    method StartCapture(s: nat, p: nat, what: int) returns (r: Result<int, Error>)
      requires Valid() && s <= |src| && p <= |pat|
      modifies this`level, capture
      ensures Gives(r, if |old(Caps())| >= MAXCAPTURES then Raise(TooManyCaptures)
        else FirstAt(pat, p, src, s, old(Caps()) + [Capture(s, what)]), old(Caps()))
      decreases |pat| - p, 4
    {
      hide First, Items;
      if level >= MAXCAPTURES {
        return Fail(TooManyCaptures);
      }
      ghost var caps := Caps();
      capture[level] := Capture(s, what);
      level := level + 1;
      assert Caps() == caps + [Capture(s, what)];
      r := Match(s, p);
      if r == Ok(NULL) {
        NullIsNoMatch(FirstAt(pat, p, src, s, caps + [Capture(s, what)]), r, caps + [Capture(s, what)]);
        level := level - 1;
        assert Caps() == caps;
      }
    }

    /** end_capture */
    method EndCapture(s: nat, p: nat) returns (r: Result<int, Error>)
      requires Valid() && s <= |src| && p <= |pat|
      modifies this`level, capture
      ensures var l := ToClose(old(Caps()));
              Gives(r, if l < 0 then Raise(InvalidPatternCapture)
                       else FirstAt(pat, p, src, s,
                            old(Caps())[l := Capture(old(Caps())[l].init, s - old(Caps())[l].init)]), old(Caps()))
      decreases |pat| - p, 4
    {
      hide First, Items;
      var lr := CaptureToClose();
      if lr.Fail? {
        return Fail(lr.error);
      }
      var l := lr.value;
      ghost var caps := Caps();
      capture[l] := Capture(capture[l].init, s - capture[l].init);
      ghost var caps' := Caps();
      assert caps' == caps[l := Capture(caps[l].init, s - caps[l].init)];
      r := Match(s, p);
      if r == Ok(NULL) {
        NullIsNoMatch(FirstAt(pat, p, src, s, caps'), r, caps');
        capture[l] := capture[l].(len := UNFINISHED);
        assert Caps() == caps;
      }
    }

    /** max_expand */
    method MaxExpand(s: nat, p: nat, ep: nat) returns (r: Result<int, Error>)
      requires Valid() && s <= |src| && p < ep < |pat| && ClassEnd(pat, p) == Ok(ep)
      requires Items(pat, p) != [] && Items(pat, p)[1..] == Items(pat, ep + 1)
      modifies this`level, capture
      ensures Gives(r, FirstDown(Items(pat, p), src, s, old(Caps()), Span(src, ClassAt(pat, p, ep), s)), old(Caps()))
      decreases |pat| - p, 1
    {
      hide First, Items, ClassAt, ClassEnd;
      ghost var caps, cls := Caps(), ClassAt(pat, p, ep);
      var i: int := 0;
      while s + i < |src|
        invariant 0 <= i && s + i <= |src| && Valid() && Caps() == caps
        invariant Span(src, cls, s) == i + Span(src, cls, s + i)
      {
        var m := SingleMatch(src[s + i], p, ep);
        if !m {
          break;
        }
        i := i + 1;
      }
      while i >= 0
        invariant -1 <= i && s + i <= |src| && Valid() && Caps() == caps
        invariant i >= 0 ==> FirstDown(Items(pat, p), src, s, caps, Span(src, cls, s))
                             == FirstDown(Items(pat, p), src, s, caps, i)
        invariant i < 0 ==> FirstDown(Items(pat, p), src, s, caps, Span(src, cls, s)) == NoMatch
      {
        r := Match(s + i, ep + 1);
        if r != Ok(NULL) {
          return;
        }
        NullIsNoMatch(FirstAt(pat, ep + 1, src, s + i, caps), r, caps);
        i := i - 1;
      }
      return Ok(NULL);
    }

    /** min_expand */
    method MinExpand(s0: nat, p: nat, ep: nat) returns (r: Result<int, Error>)
      requires Valid() && s0 <= |src| && p < ep < |pat| && ClassEnd(pat, p) == Ok(ep)
      requires Items(pat, p) != [] && Items(pat, p)[1..] == Items(pat, ep + 1) && Items(pat, p)[0].Single?
        && Items(pat, p)[0].cls == ClassAt(pat, p, ep)
      modifies this`level, capture
      ensures Gives(r, FirstUp(Items(pat, p), src, s0, old(Caps())), old(Caps()))
      decreases |pat| - p, 1
    {
      hide First, Items, ClassAt, ClassEnd;
      ghost var caps := Caps();
      var s := s0;
      while true
        invariant s0 <= s <= |src| && Valid() && Caps() == caps
        invariant FirstUp(Items(pat, p), src, s0, caps) == FirstUp(Items(pat, p), src, s, caps)
        decreases |src| - s
      {
        r := Match(s, ep + 1);
        if r != Ok(NULL) {
          return;
        }
        NullIsNoMatch(FirstAt(pat, ep + 1, src, s, caps), r, caps);
        if s < |src| {
          var m := SingleMatch(src[s], p, ep);
          if !m {
            return Ok(NULL);
          }
          s := s + 1;
        } else {
          return Ok(NULL);
        }
      }
    }

    /** The part of match for a single character class. */
    method MatchDefault(s: nat, p: nat) returns (r: Result<int, Error>)
      requires Valid() && s <= |src| && p < |pat|
      requires var e := ClassEnd(pat, p); ItemAt(pat, p).0 == if e.Fail? then Malformed(e.error)
                                          else Single(ClassAt(pat, p, e.value), RepeatAt(pat, e.value))
      modifies this`level, capture
      ensures Gives(r, FirstAt(pat, p, src, s, old(Caps())), old(Caps()))
      decreases |pat| - p, 2
    {
      hide Items, First, FirstAt, InClass, ItemAt, ClassAt, ClassEnd, FirstUp, FirstDown, CString;
      var e := ScanClass(p);
      ghost var caps := Caps();
      ItemStep(pat, p, src, s, caps);
      if e.Fail? {
        return Fail(e.error);
      }
      var ep := e.value;
      var m := false;
      if s < |src| {
        m := SingleMatch(src[s], p, ep);
      }
      ClassEndBounds(pat, p);
      SingleStep(pat, p, src, s, caps, ep);
      var c := CharAt(pat, ep);
      if c == '?' {
        if m {
          r := Match(s + 1, ep + 1);
          if r != Ok(NULL) {
            return;
          }
        }
        r := Match(s, ep + 1);
      } else if c == '*' {
        r := MaxExpand(s, p, ep);
      } else if c == '+' {
        if !m {
          return Ok(NULL);
        }
        r := MaxExpand(s + 1, p, ep);
      } else if c == '-' {
        r := MinExpand(s, p, ep);
      } else {
        if !m {
          return Ok(NULL);
        }
        r := Match(s + 1, ep);
      }
    }

    /** match */
    method Match(s: nat, p: nat) returns (r: Result<int, Error>)
      requires Valid() && s <= |src| && p <= |pat|
      modifies this`level, capture
      ensures Gives(r, FirstAt(pat, p, src, s, old(Caps())), old(Caps()))
      decreases |pat| - p, 3
    {
      hide Items, First, FirstAt, InClass;
      var c := CharAt(pat, p);
      AtPatternEnd(pat, src, s, Caps());
      if c == '\0' {
        return Ok(s);
      }
      ItemStep(pat, p, src, s, Caps());
      if c == '(' {
        if CharAt(pat, p + 1) == ')' {
          r := StartCapture(s, p + 2, POSITION);
        } else {
          r := StartCapture(s, p + 1, UNFINISHED);
        }
      } else if c == ')' {
        r := EndCapture(s, p + 1);
      } else if c == ESC && CharAt(pat, p + 1) == 'b' {
        r := MatchBalance(s, p + 2);
        if r.Fail? || r.value == NULL {
          return;
        }
        r := Match(r.value, p + 4);
      } else if c == ESC && CharAt(pat, p + 1) == 'f' {
        r := MatchFrontier(s, p);
      } else if c == ESC && IsDigit(CharAt(pat, p + 1)) {
        r := MatchCapture(s, pat[p + 1]);
        if r.Fail? || r.value == NULL {
          return;
        }
        r := Match(r.value, p + 2);
      } else if c == '$' && CharAt(pat, p + 1) == '\0' {
        return Ok(if s == |src| then s else NULL);
      } else {
        r := MatchDefault(s, p);
      }
    }

    /** The part of match for `%f`. */
    method MatchFrontier(s: nat, p0: nat) returns (r: Result<int, Error>)
      requires Valid() && s <= |src| && p0 < |pat| && pat[p0] == ESC && CharAt(pat, p0 + 1) == 'f'
      modifies this`level, capture
      ensures Gives(r, FirstAt(pat, p0, src, s, old(Caps())), old(Caps()))
      decreases |pat| - p0, 2
    {
      hide Items, First, FirstAt, InClass;
      ItemStep(pat, p0, src, s, Caps());
      var p := p0 + 2;
      if CharAt(pat, p) != '[' {
        return Fail(MissingAfterF);
      }
      var e := ScanClass(p);
      if e.Fail? {
        return Fail(e.error);
      }
      var ep := e.value;
      var previous := if s == 0 then '\0' else src[s - 1];
      var inPrevious := BracketClass(previous, p, ep - 1);
      var inNext := BracketClass(CharAt(src, s), p, ep - 1);
      if inPrevious || !inNext {
        return Ok(NULL);
      }
      r := Match(s, ep);
    }

    lemma NullIsNoMatch(o: Outcome, r: Result<int, Error>, caps: seq<Capture>)
      requires Gives(r, o, caps) && r == Ok(NULL)
      requires o.Found? ==> o.e >= 0
      ensures o.NoMatch?
    {
    }
  }

  lemma ElemsNone(c: char, pat: string, p: nat, ec: nat)
    requires p >= ec
    ensures !InElems(c, Elems(pat, p, ec))
  {
  }

  /** The first member of a set, and the others. */
  lemma ElemsStep(c: char, pat: string, p: nat, ec: nat)
    requires p < ec
    ensures InElems(c, Elems(pat, p, ec)) <==>
            if CharAt(pat, p) == ESC then MatchClass(c, CharAt(pat, p + 1)) || InElems(c, Elems(pat, p + 2, ec))
            else if CharAt(pat, p + 1) == '-' && p + 2 < ec then CharAt(pat, p) <= c <= CharAt(pat, p + 2)
                                                                 || InElems(c, Elems(pat, p + 3, ec))
            else CharAt(pat, p) == c || InElems(c, Elems(pat, p + 1, ec))
  {
    hide MatchClass, InElems;
    var els := Elems(pat, p, ec);
    InElemsFirst(c, els);
    if CharAt(pat, p) == ESC {
      assert els[1..] == Elems(pat, p + 2, ec);
    } else if CharAt(pat, p + 1) == '-' && p + 2 < ec {
      assert els[1..] == Elems(pat, p + 3, ec);
    } else {
      assert els[1..] == Elems(pat, p + 1, ec);
    }
  }

  lemma InElemsFirst(c: char, els: seq<Elem>)
    requires els != []
    ensures InElems(c, els) <==> InElem(c, els[0]) || InElems(c, els[1..])
  {
    if InElem(c, els[0]) {
      assert InElems(c, els);
    } else if InElems(c, els) {
      var i :| 0 <= i < |els| && InElem(c, els[i]);
      assert els[1..][i - 1] == els[i];
    } else {
      assert forall i :: 0 <= i < |els| - 1 ==> els[1..][i] == els[i + 1];
    }
  }

  lemma ItemsStep(pat: string, p: nat)
    requires p < |pat|
    ensures var (item, next) := ItemAt(pat, p);
            if item.Malformed? then Items(pat, p) == [item] else Items(pat, p) == [item] + Items(pat, next)
    ensures var (item, next) := ItemAt(pat, p);
            Items(pat, p) != [] && Items(pat, p)[0] == item
              && (!item.Malformed? ==> Items(pat, p)[1..] == Items(pat, next))
  {
  }

  lemma AtPatternEnd(pat: string, src: string, s: nat, caps: seq<Capture>)
    requires s <= |src|
    ensures FirstAt(pat, |pat|, src, s, caps) == Found(s, caps)
  {
  }

  lemma ClassEndBounds(pat: string, p: nat)
    requires p < |pat|
    ensures ClassEnd(pat, p).Ok? ==> p < ClassEnd(pat, p).value <= |pat|
  {
  }

  /** What an item other than a class does. */
  lemma ItemStep(pat: string, p: nat, src: string, s: nat, caps: seq<Capture>)
    requires p < |pat| && s <= |src|
    ensures var (item, next) := ItemAt(pat, p);
            !item.Single? ==>
              var o := StepItem(item, src, s, caps);
              FirstAt(pat, p, src, s, caps) == if o.Found? then FirstAt(pat, next, src, o.e, o.caps) else o
  {
    ItemsStep(pat, p);
    hide Items, ItemAt;
  }

  /** What a class with its repetition sign does. */
  lemma SingleStep(pat: string, p: nat, src: string, s: nat, caps: seq<Capture>, ep: nat)
    requires p < |pat| && s <= |src| && ClassEnd(pat, p) == Ok(ep)
    requires ItemAt(pat, p).0 == Single(ClassAt(pat, p, ep), RepeatAt(pat, ep))
    ensures var cls, c := ClassAt(pat, p, ep), CharAt(pat, ep);
            var m := MatchesAt(src, cls, s);
            var o := FirstAt(pat, p, src, s, caps);
            && Items(pat, p) != [] && (c in "?*+-" ==> ep < |pat| && Items(pat, p)[1..] == Items(pat, ep + 1))
            && Items(pat, p)[0] == Single(cls, RepeatAt(pat, ep))
            && (c == '?' ==>
              o == Else(if m then FirstAt(pat, ep + 1, src, s + 1, caps) else NoMatch,
                                                                              FirstAt(pat, ep + 1, src, s, caps)))
            && (c == '*' ==> o == FirstDown(Items(pat, p), src, s, caps, Span(src, cls, s)))
            && (c == '+' ==> o == if m then FirstDown(Items(pat, p), src, s + 1, caps, Span(src, cls, s + 1))
                             else NoMatch)
            && (c == '-' ==> o == FirstUp(Items(pat, p), src, s, caps))
            && (c !in "?*+-" ==> o == if m then FirstAt(pat, ep, src, s + 1, caps) else NoMatch)
  {
    ItemsStep(pat, p);
    hide Items, ClassAt, ClassEnd, FirstUp, FirstDown;
  }
}

/**
  What the parts of a pattern and of a replacement string mean, each said on its own: the letters
  of the character classes, the captures and what refers back to them, and `%0` to `%9`.
 */
module PatLaws {
  import opened Wrappers
  import opened PatSyntax
  import opened PatReading
  import opened PatMatch
  import opened PatGsub

  // ---------------------------------------------------------------- classes

  const DIGITS := "0123456789"
  const LOWER := "abcdefghijklmnopqrstuvwxyz"
  const UPPER := "ABCDEFGHIJKLMNOPQRSTUVWXYZ"
  const BEFORE_DIGITS := "!\"#$%&'()*+,-./"
  const BEFORE_CAPITALS := ":;<=>?@"
  const BEFORE_LETTERS := "[\\]^_`"
  const AFTER_LETTERS := "{|}~"
  const PUNCTUATION := BEFORE_DIGITS + BEFORE_CAPITALS + BEFORE_LETTERS + AFTER_LETTERS
  const SPACES := " \t\n\U{0B}\U{0C}\r"
  const HEX_LETTERS := "abcdefABCDEF"

  /** The characters that a lower-case letter stands for after `%`, in the C locale. */
  predicate Named(c: char, letter: char) {
    match letter
    case 'a' => c in LOWER || c in UPPER
    case 'c' => c < ' ' || c == '\U{7F}'
    case 'd' => c in DIGITS
    case 'l' => c in LOWER
    case 'p' => c in PUNCTUATION
    case 's' => c in SPACES
    case 'u' => c in UPPER
    case 'w' => c in LOWER || c in UPPER || c in DIGITS
    case 'x' => c in DIGITS || c in HEX_LETTERS
    case 'z' => c == '\0'
    case _ => false
  }

  lemma SmallIs(c: char)
    ensures IsLower(c) <==> c in LOWER
  {
  }

  lemma CapitalIs(c: char)
    ensures IsUpper(c) <==> c in UPPER
  {
  }

  lemma DigitIs(c: char)
    ensures IsDigit(c) <==> c in DIGITS
  {
  }

  lemma Letters(c: char)
    ensures IsDigit(c) <==> c in DIGITS
    ensures IsLower(c) <==> c in LOWER
    ensures IsUpper(c) <==> c in UPPER
  {
    hide LOWER, UPPER, DIGITS;
    SmallIs(c);
    CapitalIs(c);
    DigitIs(c);
  }

  lemma LowPunctuation(c: char)
    ensures '!' <= c <= '/' <==> c in BEFORE_DIGITS
  {
  }

  lemma HighPunctuation(c: char)
    ensures ':' <= c <= '@' <==> c in BEFORE_CAPITALS
    ensures '[' <= c <= '`' <==> c in BEFORE_LETTERS
    ensures '{' <= c <= '~' <==> c in AFTER_LETTERS
  {
  }

  lemma Punctuation(c: char)
    ensures IsPunct(c) <==> c in PUNCTUATION
  {
    hide BEFORE_DIGITS, BEFORE_CAPITALS, BEFORE_LETTERS, AFTER_LETTERS;
    LowPunctuation(c);
    HighPunctuation(c);
  }

  lemma SpacesAndHex(c: char)
    ensures IsSpace(c) <==> c in SPACES
    ensures 'a' <= c <= 'f' || 'A' <= c <= 'F' <==> c in HEX_LETTERS
  {
  }

  lemma SmallLetters(c: char, cl: char)
    requires cl in "acdlpsuwxz"
    ensures MatchClass(c, cl) <==> Named(c, cl)
  {
    assert IsLower(cl);
    Letters(c);
    Punctuation(c);
    SpacesAndHex(c);
    hide IsDigit, IsPunct, IsSpace, LOWER, UPPER, DIGITS, PUNCTUATION, SPACES, HEX_LETTERS;
  }

  lemma CapitalLetters(c: char, i: nat)
    requires i < 10
    ensures MatchClass(c, "ACDLPSUWXZ"[i]) <==> !MatchClass(c, "acdlpsuwxz"[i])
  {
    var cl := "ACDLPSUWXZ"[i];
    assert ToLower(cl) == "acdlpsuwxz"[i] && IsUpper(cl) && !IsLower(cl);
    hide IsDigit, IsPunct, IsSpace, IsAlpha, IsXDigit, IsCntrl;
  }

  /**
    A class letter stands for its characters, its capital for all the others, and any other
    character after `%` for itself.
   */
  lemma ClassMeans(c: char, cl: char)
    ensures cl in "acdlpsuwxz" ==> (MatchClass(c, cl) <==> Named(c, cl))
    ensures forall i :: 0 <= i < 10 && cl == "ACDLPSUWXZ"[i] ==> (MatchClass(c, cl) <==> !Named(c, "acdlpsuwxz"[i]))
    ensures cl !in "acdlpsuwxz" && cl !in "ACDLPSUWXZ" ==> (MatchClass(c, cl) <==> c == cl)
  {
    if cl in "acdlpsuwxz" {
      SmallLetters(c, cl);
    } else if cl in "ACDLPSUWXZ" {
      hide MatchClass, Named;
      var i :| 0 <= i < 10 && cl == "ACDLPSUWXZ"[i];
      CapitalLetters(c, i);
      SmallLetters(c, "acdlpsuwxz"[i]);
    } else {
      OtherCharacter(c, cl);
    }
  }

  lemma OtherCharacter(c: char, cl: char)
    requires cl !in "acdlpsuwxz" && cl !in "ACDLPSUWXZ"
    ensures MatchClass(c, cl) <==> c == cl
  {
    hide IsDigit, IsPunct, IsSpace, IsAlpha, IsXDigit, IsCntrl;
  }

  // ---------------------------------------------------------------- captures and back references

  lemma FirstStep(item: Item, rest: seq<Item>, src: string, s: nat, caps: seq<Capture>)
    requires !item.Single? && s <= |src|
    ensures var r := StepItem(item, src, s, caps);
            First([item] + rest, src, s, caps) == if r.Found? then First(rest, src, r.e, r.caps) else r
  {
    assert ([item] + rest)[1..] == rest;
    hide StepItem;
  }

  /**
    `%1` to `%9`: after a closed capture the match goes on behind a repetition of its text,
    character by character, and fails where there is none; a position capture is repeated nowhere;
    a capture that is open or missing is an error.
   */
  lemma BackReference(n: nat, rest: seq<Item>, src: string, s: nat, caps: seq<Capture>)
    requires 1 <= n <= 9 && s <= |src| && CapsOk(caps, s)
    ensures var o := First([Back(DIGITS[n])] + rest, src, s, caps);
            && (n > |caps| ==> o == Raise(InvalidCaptureIndex))
            && (n <= |caps| ==>
                  var cap := caps[n - 1];
                  && (cap.len == UNFINISHED ==> o == Raise(InvalidCaptureIndex))
                  && (cap.len == POSITION ==> o == NoMatch)
                  && (cap.len >= 0 && Repeats(src, cap.init, cap.len, s) ==> o == First(rest, src, s + cap.len, caps))
                  && (cap.len >= 0 && !Repeats(src, cap.init, cap.len, s) ==> o == NoMatch))
  {
    hide First;
    FirstStep(Back(DIGITS[n]), rest, src, s, caps);
    assert DIGITS[n] as int == '0' as int + n;
    if n <= |caps| {
      assert CapOk(caps[n - 1], s);
      if caps[n - 1].len >= 0 {
        TextRepeats(src, caps[n - 1], s);
      }
    }
    hide Repeats;
  }

  /** `(` opens a capture here, `()` captures the position; there are at most 32. */
  lemma OpenCapture(rest: seq<Item>, src: string, s: nat, caps: seq<Capture>)
    requires s <= |src|
    ensures First([Open] + rest, src, s, caps) ==
            if |caps| < 32 then First(rest, src, s, caps + [Capture(s, UNFINISHED)]) else Raise(TooManyCaptures)
    ensures First([OpenPosition] + rest, src, s, caps) ==
            if |caps| < 32 then First(rest, src, s, caps + [Capture(s, POSITION)]) else Raise(TooManyCaptures)
  {
    hide First;
    FirstStep(Open, rest, src, s, caps);
    FirstStep(OpenPosition, rest, src, s, caps);
  }

  /** `)` closes the last capture that is open: it ends here. */
  lemma CloseCapture(rest: seq<Item>, src: string, s: nat, caps: seq<Capture>, l: nat)
    requires s <= |src| && l < |caps| && caps[l].len == UNFINISHED
    requires forall k :: l < k < |caps| ==> caps[k].len != UNFINISHED
    ensures First([Close] + rest, src, s, caps)
      == First(rest, src, s, caps[l := Capture(caps[l].init, s - caps[l].init)])
  {
    hide First;
    FirstStep(Close, rest, src, s, caps);
  }

  lemma CloseNothing(rest: seq<Item>, src: string, s: nat, caps: seq<Capture>)
    requires s <= |src| && forall k :: 0 <= k < |caps| ==> caps[k].len != UNFINISHED
    ensures First([Close] + rest, src, s, caps) == Raise(InvalidPatternCapture)
  {
    hide First;
    FirstStep(Close, rest, src, s, caps);
  }

  /**
      `%f[set]` matches the empty text between a character outside the set and one in it; zero bytes
      stand at the ends.
   */
  lemma FrontierMeans(cls: Class, rest: seq<Item>, src: string, s: nat, caps: seq<Capture>)
    requires s <= |src|
    ensures var before := if s == 0 then '\0' else src[s - 1];
            var after := if s == |src| then '\0' else src[s];
            First([Frontier(cls)] + rest, src, s, caps) ==
            if !InClass(before, cls) && InClass(after, cls) then First(rest, src, s, caps) else NoMatch
  {
    hide First, InClass;
    FirstStep(Frontier(cls), rest, src, s, caps);
  }

  // ---------------------------------------------------------------- replacement strings

  /** The digits of `n`, most significant first. */
  predicate IsNumeral(t: string, n: nat)
    decreases |t|
  {
    && t != []
    && t[|t| - 1] == DIGITS[n % 10]
    && if |t| == 1 then n < 10 else n >= 10 && IsNumeral(t[..|t| - 1], n / 10)
  }

  lemma {:induction false} DecimalIs(n: nat)
    ensures IsNumeral(Decimal(n), n)
  {
    var last := (n % 10 + '0' as int) as char;
    assert last == DIGITS[n % 10];
    if n >= 10 {
      DecimalIs(n / 10);
      assert (Decimal(n / 10) + [last])[..|Decimal(n)| - 1] == Decimal(n / 10);
    }
  }

  /** A piece of a replacement string: a character, an escaped one, `%0`, or `%1` to `%9`. */
  datatype Part = Plain(c: char) | Quoted(c: char) | Whole | Nth(n: nat)

  predicate PartOk(part: Part) {
    match part
    case Plain(c) => c != '%'
    case Quoted(c) => c !in DIGITS
    case Whole => true
    case Nth(n) => 1 <= n <= 9
  }

  function Written(part: Part): string
    requires PartOk(part)
  {
    match part
    case Plain(c) => [c]
    case Quoted(c) => ['%', c]
    case Whole => "%0"
    case Nth(n) => ['%', DIGITS[n]]
  }

  ghost predicate Copies(t: string, src: string, init: nat, len: nat) {
    |t| == len && init + len <= |src| && forall k :: 0 <= k < len ==> t[k] == src[init + k]
  }

  /** What a part is replaced by, for the match from `s` to `e`. */
  ghost predicate StandsFor(part: Part, src: string, caps: seq<Capture>, s: nat, e: nat, r: Result<string, Error>)
    requires s <= e <= |src| && CapsOk(caps, e)
  {
    match part
    case Plain(c) => r == Ok([c])
    case Quoted(c) => r == Ok([c])
    case Whole => r.Ok? && Copies(r.value, src, s, e - s)
    case Nth(n) =>
      if 1 <= n <= |caps| then
        var cap := caps[n - 1];
        assert CapOk(cap, e);
        if cap.len == UNFINISHED then r == Fail(UnfinishedCapture)
        else if cap.len == POSITION then r.Ok? && IsNumeral(r.value, cap.init + 1)
        else r.Ok? && Copies(r.value, src, cap.init, cap.len)
      else if n == 1 then r.Ok? && Copies(r.value, src, s, e - s)
      else r == Fail(InvalidCaptureIndex)
  }

  lemma {:induction false} ReplacementShift(pre: string, x: string, j: nat, src: string, caps: seq<Capture>, s: nat,
      e: nat)
    requires s <= e <= |src| && CapsOk(caps, e)
    ensures Replacement(pre + x, |pre| + j, src, caps, s, e) == Replacement(x, j, src, caps, s, e)
    decreases |x| - j
  {
    hide CapsOk, CaptureText;
    if j < |x| {
      assert (pre + x)[|pre| + j] == x[j] && CharAt(pre + x, |pre| + j + 1) == CharAt(x, j + 1);
      ReplacementShift(pre, x, j + 1, src, caps, s, e);
      ReplacementShift(pre, x, j + 2, src, caps, s, e);
    }
  }

  /** The text a part is replaced by. */
  function PartText(part: Part, src: string, caps: seq<Capture>, s: nat, e: nat): Result<string, Error>
    requires PartOk(part) && s <= e <= |src| && CapsOk(caps, e)
  {
    match part
    case Plain(c) => Ok([c])
    case Quoted(c) => Ok([c])
    case Whole => Ok(src[s..e])
    case Nth(n) => CaptureText(src, caps, n - 1, s, e)
  }

  lemma PartStands(part: Part, src: string, caps: seq<Capture>, s: nat, e: nat)
    requires PartOk(part) && s <= e <= |src| && CapsOk(caps, e)
    ensures StandsFor(part, src, caps, s, e, PartText(part, src, caps, s, e))
  {
    if part.Nth? && part.n <= |caps| {
      assert CapOk(caps[part.n - 1], e);
      DecimalIs(if caps[part.n - 1].init >= 0 then caps[part.n - 1].init + 1 else 0);
    }
    hide Decimal, IsNumeral;
  }

  lemma PlainPart(c: char, rest: string, src: string, caps: seq<Capture>, s: nat, e: nat)
    requires c != '%' && s <= e <= |src| && CapsOk(caps, e)
    ensures Replacement([c] + rest, 0, src, caps, s, e) == Prepend([c], Replacement(rest, 0, src, caps, s, e))
  {
    hide CapsOk, CaptureText, Prepend;
    ReplacementShift([c], rest, 0, src, caps, s, e);
  }

  lemma EscapedPart(c: char, rest: string, src: string, caps: seq<Capture>, s: nat, e: nat)
    requires s <= e <= |src| && CapsOk(caps, e)
    ensures var more := Replacement(rest, 0, src, caps, s, e);
            Replacement(['%', c] + rest, 0, src, caps, s, e) ==
            if !IsDigit(c) then Prepend([c], more)
            else if c == '0' then Prepend(src[s..e], more)
            else
              var t := CaptureText(src, caps, c as int - '1' as int, s, e);
              if t.Fail? then t else Prepend(t.value, more)
  {
    hide CapsOk, CaptureText, Prepend;
    var news := ['%', c] + rest;
    ReplacementShift(['%', c], rest, 0, src, caps, s, e);
    assert news[0] == '%' && CharAt(news, 1) == c;
  }

  lemma FirstPart(part: Part, rest: string, src: string, caps: seq<Capture>, s: nat, e: nat)
    requires PartOk(part) && s <= e <= |src| && CapsOk(caps, e)
    ensures var t := PartText(part, src, caps, s, e);
            Replacement(Written(part) + rest, 0, src, caps, s, e) ==
            if t.Fail? then t else Prepend(t.value, Replacement(rest, 0, src, caps, s, e))
  {
    hide CapsOk, CaptureText, Replacement, Prepend;
    match part
    case Plain(c) =>
      PlainPart(c, rest, src, caps, s, e);
    case Quoted(c) =>
      Letters(c);
      EscapedPart(c, rest, src, caps, s, e);
    case Whole =>
      EscapedPart('0', rest, src, caps, s, e);
      assert "%0" == ['%', '0'];
    case Nth(n) =>
      assert DIGITS[n] as int == '0' as int + n;
      EscapedPart(DIGITS[n], rest, src, caps, s, e);
  }

  function WrittenAll(parts: seq<Part>): string
    requires forall i :: 0 <= i < |parts| ==> PartOk(parts[i])
  {
    if parts == [] then [] else Written(parts[0]) + WrittenAll(parts[1..])
  }

  /** The texts one after another, or the first error. */
  function Glued(texts: seq<Result<string, Error>>): Result<string, Error> {
    if texts == [] then Ok([]) else if texts[0].Fail? then texts[0] else Prepend(texts[0].value, Glued(texts[1..]))
  }

  /** A replacement string gives the texts its parts stand for, one after another, or the first error among them. */
  lemma {:induction false} ReplacementMeans(parts: seq<Part>, src: string, caps: seq<Capture>, s: nat, e: nat)
      returns (texts: seq<Result<string, Error>>)
    requires s <= e <= |src| && CapsOk(caps, e) && forall i :: 0 <= i < |parts| ==> PartOk(parts[i])
    ensures |texts| == |parts| && Replacement(WrittenAll(parts), 0, src, caps, s, e) == Glued(texts)
    ensures forall i :: 0 <= i < |parts| ==> StandsFor(parts[i], src, caps, s, e, texts[i])
    decreases |parts|
  {
    hide CapsOk, StandsFor, PartText, PartOk;
    texts := [];
    if parts != [] {
      var more := ReplacementMeans(parts[1..], src, caps, s, e);
      FirstPart(parts[0], WrittenAll(parts[1..]), src, caps, s, e);
      PartStands(parts[0], src, caps, s, e);
      texts := [PartText(parts[0], src, caps, s, e)] + more;
      assert texts[1..] == more;
    }
  }

  /** Without captures `%1` is the whole match, and replacing every match by it changes nothing. */
  lemma FirstIsWhole(src: string, s: nat, e: nat)
    requires s <= e <= |src|
    ensures Replacement("%1", 0, src, [], s, e) == Replacement("%0", 0, src, [], s, e) == Ok(src[s..e])
  {
    ZeroIs(src, [], s, e);
    FirstPart(Nth(1), [], src, [], s, e);
    assert Written(Nth(1)) + [] == "%1";
    assert src[s..e] + [] == src[s..e];
  }

  // ---------------------------------------------------------------- how often gsub replaces

  /** `^` in front anchors the pattern behind it, and no other pattern is anchored. */
  lemma AnchorMeans(p: string)
    ensures Anchored("^" + p) && Unanchored("^" + p) == p
    ensures p == [] || p[0] != '^' ==> !Anchored(p) && Unanchored(p) == p
  {
    assert ("^" + p)[1..] == p;
  }

  /** An anchored pattern is tried once, at the start. */
  lemma AnchoredOnce(pat: string, news: string, src: string, left: nat)
    requires left > 0
    ensures var o := MatchAt(pat, src, 0);
            var r := Rest(pat, true, news, src, 0, left, true);
            && (o.Raise? ==> r == Fail(o.error))
            && (o.NoMatch? ==> r == Ok((src, 0)))
            && (o.Found? ==>
                  var t := Replacement(news, 0, src, o.caps, 0, o.e);
                  r == if t.Fail? then Fail(t.error) else Ok((t.value + src[o.e..], 1)))
  {
    var o := MatchAt(pat, src, 0);
    RestStep(pat, true, news, src, 0, left);
    hide MatchAt, Replacement, Rest;
    if !o.Raise? {
      StoppedRest(pat, news, src, if o.Found? then o.e else 0, left);
      if src != [] {
        StoppedRest(pat, news, src, 1, left);
        assert src == [src[0]] + src[1..];
      }
    }
  }

  lemma StoppedRest(pat: string, news: string, src: string, s: nat, left: nat)
    requires s <= |src|
    ensures forall k: nat :: Rest(pat, true, news, src, s, k, false) == Ok((src[s..], 0))
  {
    KeepAllOk(news, src, src[s..]);
    hide Output, KeepAll;
  }

  predicate AllKept(pieces: seq<Piece>) {
    forall i :: 0 <= i < |pieces| ==> pieces[i].Kept?
  }

  lemma {:induction false} KeepAllKept(text: string)
    ensures AllKept(KeepAll(text)) && Matches(KeepAll(text)) == 0
  {
    if text != [] {
      KeepAllKept(text[1..]);
    }
  }

  /** `ps` is `qs` up to the match that is the last allowed, and from there on nothing is replaced. */
  ghost predicate CutShort(ps: seq<Piece>, qs: seq<Piece>, left: nat) {
    exists i :: 0 <= i <= |ps| && i <= |qs| && ps[..i] == qs[..i] && Matches(ps[..i]) == left && AllKept(ps[i..])
  }

  /** The first piece of a scan that may still replace. */
  lemma NextPiece(pat: string, src: string, s: nat, left: nat)
    requires s <= |src| && left > 0
    ensures var o := MatchAt(pat, src, s);
            var ps := Pieces(pat, false, src, s, left, true);
            && (o.Raise? ==> ps == [Stopped(o.error)])
            && (o.NoMatch? ==>
                  ps == if s < |src| then [Kept(src[s])] + Pieces(pat, false, src, s + 1, left, true) else [])
            && (o.Found? && o.e > s ==>
                  ps == [Matched(s, o.e, o.caps)] + Pieces(pat, false, src, o.e, left - 1, true))
            && (o.Found? && o.e == s < |src| ==>
                  ps == [Matched(s, o.e, o.caps)]
                        + ([Kept(src[s])] + Pieces(pat, false, src, s + 1, left - 1, true)))
            && (o.Found? && o.e == s == |src| ==> ps == [Matched(s, o.e, o.caps)])
  {
    hide MatchAt;
  }

  lemma OneMatch(piece: Piece)
    ensures Matches([piece]) <= 1 && (!piece.Matched? ==> Matches([piece]) == 0) && Matches([]) == 0
  {
  }

  lemma NoPieces(pat: string, src: string, s: nat)
    requires s <= |src|
    ensures Pieces(pat, false, src, s, 0, true) == KeepAll(src[s..])
  {
  }

  /** A limit on the replacements makes no difference, or cuts them short after exactly so many. */
  lemma {:induction false} LimitCuts(pat: string, src: string, s: nat, left: nat, more: nat)
    requires s <= |src| && left <= more
    ensures var ps, qs := Pieces(pat, false, src, s, left, true), Pieces(pat, false, src, s, more, true);
            Matches(ps) <= left && (ps == qs || CutShort(ps, qs, left))
    decreases |src| - s
  {
    hide MatchAt, KeepAll, CutShort, Pieces, Matches;
    if left == 0 {
      NoPieces(pat, src, s);
      NoneLeft(KeepAll(src[s..]), Pieces(pat, false, src, s, more, true));
      KeepAllKept(src[s..]);
    } else {
      var o := MatchAt(pat, src, s);
      NextPiece(pat, src, s, left);
      NextPiece(pat, src, s, more);
      if o.NoMatch? && s < |src| {
        LimitCuts(pat, src, s + 1, left, more);
        OneMore(Kept(src[s]), Pieces(pat, false, src, s + 1, left, true), Pieces(pat, false, src, s + 1, more, true),
          left);
      } else if o.Found? && o.e > s {
        LimitCuts(pat, src, o.e, left - 1, more - 1);
        OneMore(Matched(s, o.e, o.caps), Pieces(pat, false, src, o.e, left - 1, true),
          Pieces(pat, false, src, o.e, more - 1, true), left - 1);
      } else if o.Found? && s < |src| {
        LimitCuts(pat, src, s + 1, left - 1, more - 1);
        TwoMore(Matched(s, o.e, o.caps), Kept(src[s]), Pieces(pat, false, src, s + 1, left - 1, true),
          Pieces(pat, false, src, s + 1, more - 1, true), left - 1);
      } else {
        OneMatch(if o.Found? then Matched(s, o.e, o.caps) else if o.Raise? then Stopped(o.error) else Kept(' '));
      }
    }
  }

  lemma TwoMore(first: Piece, second: Piece, ps: seq<Piece>, qs: seq<Piece>, left: nat)
    requires first.Matched? && second.Kept? && Matches(ps) <= left && (ps == qs || CutShort(ps, qs, left))
    ensures var ps', qs' := [first] + ([second] + ps), [first] + ([second] + qs);
            Matches(ps') <= left + 1 && (ps' == qs' || CutShort(ps', qs', left + 1))
  {
    hide Matches, CutShort;
    OneMore(second, ps, qs, left);
    OneMore(first, [second] + ps, [second] + qs, left);
  }

  lemma NoneLeft(ps: seq<Piece>, qs: seq<Piece>)
    ensures AllKept(ps) ==> CutShort(ps, qs, 0)
  {
    assert ps[..0] == qs[..0] && ps[0..] == ps;
  }

  lemma OneMore(first: Piece, ps: seq<Piece>, qs: seq<Piece>, left: nat)
    requires Matches(ps) <= left && (ps == qs || CutShort(ps, qs, left))
    ensures var n := if first.Matched? then left + 1 else left;
            Matches([first] + ps) <= n && ([first] + ps == [first] + qs || CutShort([first] + ps, [first] + qs, n))
  {
    assert ([first] + ps)[1..] == ps;
    if ps != qs {
      var i :| 0 <= i <= |ps| && i <= |qs| && ps[..i] == qs[..i] && Matches(ps[..i]) == left && AllKept(ps[i..]);
      var ps', qs' := [first] + ps, [first] + qs;
      assert ps'[..i + 1] == [first] + ps[..i] && qs'[..i + 1] == [first] + qs[..i] && ps'[i + 1..] == ps[i..];
      assert ([first] + ps[..i])[1..] == ps[..i];
    }
  }
}

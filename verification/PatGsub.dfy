/** Searching and replacing with patterns (lstrlib.c: str_find_aux, str_gsub, add_s). */
module PatGsub {
  import opened Wrappers
  import opened PatSyntax
  import opened PatReading
  import opened PatMatch

  // ---------------------------------------------------------------- captures lie inside the subject

  predicate CapOk(cap: Capture, s: nat) {
    0 <= cap.init <= s && (cap.len == UNFINISHED || cap.len == POSITION || (cap.len >= 0 && cap.init + cap.len <= s))
  }

  ghost predicate CapsOk(caps: seq<Capture>, s: nat) {
    forall i :: 0 <= i < |caps| ==> CapOk(caps[i], s)
  }

  lemma StepCapsOk(item: Item, src: string, s: nat, caps: seq<Capture>)
    requires !item.Single? && s <= |src| && CapsOk(caps, s)
    ensures var o := StepItem(item, src, s, caps); o.Found? ==> s <= o.e <= |src| && CapsOk(o.caps, o.e)
  {
  }

  lemma {:induction false} FirstCapsOk(items: seq<Item>, src: string, s: nat, caps: seq<Capture>)
    requires s <= |src| && CapsOk(caps, s)
    ensures var o := First(items, src, s, caps); o.Found? ==> s <= o.e <= |src| && CapsOk(o.caps, o.e)
    decreases |items|, 1, 0
  {
    if items == [] {
    } else if items[0].Single? {
      var cls := items[0].cls;
      FirstCapsOk(items[1..], src, s, caps);
      if s < |src| {
        FirstCapsOk(items[1..], src, s + 1, caps);
        DownCapsOk(items, src, s + 1, caps, Span(src, cls, s + 1));
      }
      DownCapsOk(items, src, s, caps, Span(src, cls, s));
      UpCapsOk(items, src, s, caps);
    } else {
      StepCapsOk(items[0], src, s, caps);
      var o := StepItem(items[0], src, s, caps);
      if o.Found? {
        FirstCapsOk(items[1..], src, o.e, o.caps);
      }
    }
  }

  lemma {:induction false} DownCapsOk(items: seq<Item>, src: string, s: nat, caps: seq<Capture>, i: nat)
    requires items != [] && s + i <= |src| && CapsOk(caps, s)
    ensures var o := FirstDown(items, src, s, caps, i); o.Found? ==> s <= o.e <= |src| && CapsOk(o.caps, o.e)
    decreases |items|, 0, i
  {
    assert CapsOk(caps, s + i);
    FirstCapsOk(items[1..], src, s + i, caps);
    if i > 0 {
      DownCapsOk(items, src, s, caps, i - 1);
    }
  }

  lemma {:induction false} UpCapsOk(items: seq<Item>, src: string, s: nat, caps: seq<Capture>)
    requires items != [] && items[0].Single? && s <= |src| && CapsOk(caps, s)
    ensures var o := FirstUp(items, src, s, caps); o.Found? ==> s <= o.e <= |src| && CapsOk(o.caps, o.e)
    decreases |items|, 0, |src| - s
  {
    FirstCapsOk(items[1..], src, s, caps);
    if s < |src| {
      UpCapsOk(items, src, s + 1, caps);
    }
  }

  /** The match of a pattern at a position, with fresh captures. */
  function MatchAt(pat: string, src: string, s: nat): (o: Outcome)
    requires s <= |src|
    ensures o.Found? ==> s <= o.e <= |src| && CapsOk(o.caps, o.e)
  {
    FirstCapsOk(Items(pat, 0), src, s, []);
    FirstAt(pat, 0, src, s, [])
  }

  // ---------------------------------------------------------------- find and match

  datatype Search = NotFound | FoundAt(start: nat, e: nat, caps: seq<Capture>) | Failed(error: Error)

  predicate Anchored(p: string) {
    CharAt(p, 0) == '^'
  }

  function Unanchored(p: string): string {
    if Anchored(p) then p[1..] else p
  }

  /** str_find_aux with a pattern: the leftmost match from `init` on */
  method Find(src: string, p: string, init: nat) returns (r: Search)
    requires CString(p) && init <= |src|
    ensures r.NotFound? ==> forall s :: init <= s <= (if Anchored(p) then init else |src|)
                                        ==> MatchAt(Unanchored(p), src, s).NoMatch?
    ensures r.FoundAt? ==> init <= r.start <= |src| && MatchAt(Unanchored(p), src, r.start) == Found(r.e, r.caps)
                           && (forall s :: init <= s < r.start ==> MatchAt(Unanchored(p), src, s).NoMatch?)
                             && (Anchored(p) ==> r.start == init)
    ensures r.Failed? ==> exists s :: init <= s <= |src| && MatchAt(Unanchored(p), src, s) == Raise(r.error)
                                      && forall s' :: init <= s' < s ==> MatchAt(Unanchored(p), src, s').NoMatch?
  {
    hide First, Items, FirstAt;
    var pat := Unanchored(p);
    var ms := new MatchState(src, pat);
    var s1 := init;
    while true
      invariant init <= s1 <= |src| && ms.Valid() && fresh(ms) && fresh(ms.capture) && (Anchored(p) ==> s1 == init)
      invariant forall s :: init <= s < s1 ==> MatchAt(pat, src, s).NoMatch?
      decreases |src| - s1
    {
      ms.level := 0;
      AtIs(pat, src, s1);
      var res := ms.Match(s1, 0);
      if res.Fail? {
        return Failed(res.error);
      }
      if res.value != NULL {
        return FoundAt(s1, res.value, ms.Caps());
      }
      if s1 == |src| || Anchored(p) {
        break;
      }
      s1 := s1 + 1;
    }
    return NotFound;
  }

  lemma AtIs(pat: string, src: string, s: nat)
    requires s <= |src|
    ensures MatchAt(pat, src, s) == FirstAt(pat, 0, src, s, [])
  {
  }

  // ---------------------------------------------------------------- replacing

  /** The subject is cut into pieces: characters that are kept, and matches. */
  datatype Piece = Kept(c: char) | Matched(s: nat, e: nat, caps: seq<Capture>) | Stopped(error: Error)

  ghost predicate PieceOk(src: string, piece: Piece) {
    piece.Matched? ==> piece.s <= piece.e <= |src| && CapsOk(piece.caps, piece.e)
  }

  ghost predicate PiecesOk(src: string, pieces: seq<Piece>) {
    forall i :: 0 <= i < |pieces| ==> PieceOk(src, pieces[i])
  }

  function KeepAll(text: string): seq<Piece> {
    if text == [] then [] else [Kept(text[0])] + KeepAll(text[1..])
  }

  /**
    At most `left` matches are taken, each at the first place where there is one after the last;
    an anchored pattern is tried once (`going` says whether it still is).
   */
  function Pieces(pat: string, anchor: bool, src: string, s: nat, left: nat, going: bool): seq<Piece>
    requires s <= |src|
    decreases |src| - s
  {
    if left == 0 || !going then KeepAll(src[s..])
    else
      match MatchAt(pat, src, s)
      case Raise(error) => [Stopped(error)]
      case NoMatch => if s < |src| then [Kept(src[s])] + Pieces(pat, anchor, src, s + 1, left, !anchor) else []
      case Found(e, caps) =>
        if e > s then [Matched(s, e, caps)] + Pieces(pat, anchor, src, e, left - 1, !anchor)
        else if s < |src| then [Matched(s, e, caps)]
                               + ([Kept(src[s])] + Pieces(pat, anchor, src, s + 1, left - 1, !anchor))
        else [Matched(s, e, caps)]
  }

  /** The text of the subject that the pieces stand for. */
  function Source(src: string, pieces: seq<Piece>): string {
    if pieces == [] then [] else Text(src, pieces[0]) + Source(src, pieces[1..])
  }

  function Text(src: string, piece: Piece): string {
    match piece
    case Kept(c) => [c]
    case Matched(s, e, caps) => if s <= e <= |src| then src[s..e] else []
    case Stopped(_) => []
  }

  predicate Stops(pieces: seq<Piece>) {
    exists i :: 0 <= i < |pieces| && pieces[i].Stopped?
  }

  function Decimal(n: nat): string {
    (if n < 10 then [] else Decimal(n / 10)) + [(n % 10 + '0' as int) as char]
  }

  /** push_onecapture, as text: captures lie before `e` */
  function CaptureText(src: string, caps: seq<Capture>, i: nat, s: nat, e: nat): Result<string, Error>
    requires s <= e <= |src| && CapsOk(caps, e)
  {
    if i >= |caps| then if i == 0 then Ok(src[s..e]) else Fail(InvalidCaptureIndex)
    else
      assert CapOk(caps[i], e);
      if caps[i].len == UNFINISHED then Fail(UnfinishedCapture)
      else if caps[i].len == POSITION then Ok(Decimal(caps[i].init + 1))
      else Ok(src[caps[i].init..caps[i].init + caps[i].len])
  }

  /** The text that the replacement string gives, from its character `i` on. */
  function Replacement(news: string, i: nat, src: string, caps: seq<Capture>, s: nat, e: nat): Result<string, Error>
    requires s <= e <= |src| && CapsOk(caps, e)
    decreases |news| - i
  {
    if i >= |news| then Ok([])
    else if news[i] != ESC then Prepend([news[i]], Replacement(news, i + 1, src, caps, s, e))
    else
      var c := CharAt(news, i + 1);
      if !IsDigit(c) then Prepend([c], Replacement(news, i + 2, src, caps, s, e))
      else if c == '0' then Prepend(src[s..e], Replacement(news, i + 2, src, caps, s, e))
      else
        var t := CaptureText(src, caps, c as int - '1' as int, s, e);
        if t.Fail? then t else Prepend(t.value, Replacement(news, i + 2, src, caps, s, e))
  }

  function Prepend(text: string, r: Result<string, Error>): Result<string, Error> {
    if r.Fail? then r else Ok(text + r.value)
  }

  method AddS(news: string, src: string, caps: seq<Capture>, s: nat, e: nat, b0: string)
      returns (r: Result<string, Error>)
    requires s <= e <= |src| && CapsOk(caps, e)
    ensures r == Prepend(b0, Replacement(news, 0, src, caps, s, e))
  {
    var b, i := b0, 0;
    while i < |news|
      invariant Prepend(b0, Replacement(news, 0, src, caps, s, e)) == Prepend(b, Replacement(news, i, src, caps, s, e))
      decreases |news| - i
    {
      if news[i] != ESC {
        PrependTwo(b, [news[i]], Replacement(news, i + 1, src, caps, s, e));
        b := b + [news[i]];
      } else {
        i := i + 1;
        var c := CharAt(news, i);
        if !IsDigit(c) {
          PrependTwo(b, [c], Replacement(news, i + 1, src, caps, s, e));
          b := b + [c];
        } else if c == '0' {
          PrependTwo(b, src[s..e], Replacement(news, i + 1, src, caps, s, e));
          b := b + src[s..e];
        } else {
          var t := CaptureText(src, caps, c as int - '1' as int, s, e);
          if t.Fail? {
            return t;
          }
          PrependTwo(b, t.value, Replacement(news, i + 1, src, caps, s, e));
          b := b + t.value;
        }
      }
      i := i + 1;
    }
    assert b + [] == b;
    return Ok(b);
  }

  lemma PrependTwo(a: string, b: string, r: Result<string, Error>)
    ensures Prepend(a, Prepend(b, r)) == Prepend(a + b, r)
  {
    if r.Ok? {
      assert a + (b + r.value) == (a + b) + r.value;
    }
  }

  /** The text and the number of replacements that the pieces give. */
  function Output(news: string, src: string, pieces: seq<Piece>): Result<(string, nat), Error>
    requires PiecesOk(src, pieces)
  {
    if pieces == [] then Ok(([], 0))
    else
      assert PieceOk(src, pieces[0]);
      match pieces[0]
      case Kept(c) => Join([c], 0, Output(news, src, pieces[1..]))
      case Stopped(error) => Fail(error)
      case Matched(s, e, caps) =>
        var t := Replacement(news, 0, src, caps, s, e);
        if t.Fail? then Fail(t.error) else Join(t.value, 1, Output(news, src, pieces[1..]))
  }

  function Join(b: string, n: nat, r: Result<(string, nat), Error>): Result<(string, nat), Error> {
    if r.Fail? then r else Ok((b + r.value.0, n + r.value.1))
  }

  lemma JoinNone(r: Result<(string, nat), Error>)
    ensures Join([], 0, r) == r
  {
    if r.Ok? {
      assert [] + r.value.0 == r.value.0;
    }
  }

  lemma JoinTwo(a: string, n: nat, b: string, k: nat, r: Result<(string, nat), Error>)
    ensures Join(a, n, Join(b, k, r)) == Join(a + b, n + k, r)
  {
    if r.Ok? {
      assert a + (b + r.value.0) == (a + b) + r.value.0;
    }
  }

  lemma {:induction false} KeepAllOk(news: string, src: string, text: string)
    ensures PiecesOk(src, KeepAll(text)) && Output(news, src, KeepAll(text)) == Ok((text, 0))
    ensures Source(src, KeepAll(text)) == text && !Stops(KeepAll(text)) && Matches(KeepAll(text)) == 0
  {
    if text != [] {
      KeepAllOk(news, src, text[1..]);
      assert text == [text[0]] + text[1..];
    }
  }

  lemma {:induction false} PiecesFit(pat: string, anchor: bool, src: string, s: nat, left: nat, going: bool)
    requires s <= |src|
    ensures PiecesOk(src, Pieces(pat, anchor, src, s, left, going))
    decreases |src| - s
  {
    KeepAllOk([], src, src[s..]);
    var o := MatchAt(pat, src, s);
    hide MatchAt, CapsOk;
    if left > 0 && going {
      if o.Found? && o.e > s {
        PiecesFit(pat, anchor, src, o.e, left - 1, !anchor);
      } else if s < |src| && !o.Raise? {
        PiecesFit(pat, anchor, src, s + 1, if o.Found? then left - 1 else left, !anchor);
      }
    }
  }

  /** What comes of the pieces from `s` on. */
  function Rest(pat: string, anchor: bool, news: string, src: string, s: nat, left: nat, going: bool): Result<(string,
      nat), Error>
    requires s <= |src|
  {
    PiecesFit(pat, anchor, src, s, left, going);
    Output(news, src, Pieces(pat, anchor, src, s, left, going))
  }

  lemma FirstPiece(news: string, src: string, first: Piece, rest: seq<Piece>)
    requires PieceOk(src, first) && PiecesOk(src, rest)
    ensures PiecesOk(src, [first] + rest)
    ensures first.Kept? ==> Output(news, src, [first] + rest) == Join([first.c], 0, Output(news, src, rest))
    ensures first.Stopped? ==> Output(news, src, [first] + rest) == Fail(first.error)
    ensures first.Matched? ==>
              var t := Replacement(news, 0, src, first.caps, first.s, first.e);
              Output(news, src, [first] + rest) == if t.Fail? then Fail(t.error)
                else Join(t.value, 1, Output(news, src, rest))
  {
    assert ([first] + rest)[1..] == rest;
    hide Replacement;
  }

  /** One turn of the loop. */
  lemma RestStep(pat: string, anchor: bool, news: string, src: string, s: nat, left: nat)
    requires s <= |src| && left > 0
    ensures var o := MatchAt(pat, src, s);
            var rest := Rest(pat, anchor, news, src, s, left, true);
            && (o.Raise? ==> rest == Fail(o.error))
            && (o.NoMatch? ==> rest == if s < |src|
                               then Join([src[s]], 0, Rest(pat, anchor, news, src, s + 1, left, !anchor))
                               else Ok(([], 0)))
            && (o.Found? ==>
                  var t := Replacement(news, 0, src, o.caps, s, o.e);
                  rest == if t.Fail? then Fail(t.error)
                          else if o.e > s then Join(t.value, 1, Rest(pat, anchor, news, src, o.e, left - 1, !anchor))
                          else if s < |src| then Join(t.value, 1,
                                                 Join([src[s]], 0, Rest(pat, anchor, news, src, s + 1, left - 1,
                                                 !anchor)))
                          else Join(t.value, 1, Ok(([], 0))))
  {
    var o := MatchAt(pat, src, s);
    hide MatchAt, Output, Replacement, Join, KeepAll, PiecesOk;
    PiecesOkNone(news, src);
    match o {
      case Raise(error) =>
        FirstPiece(news, src, Stopped(error), []);
        assert [Stopped(error)] + [] == [Stopped(error)];
      case NoMatch =>
        if s < |src| {
          PiecesFit(pat, anchor, src, s + 1, left, !anchor);
          FirstPiece(news, src, Kept(src[s]), Pieces(pat, anchor, src, s + 1, left, !anchor));
        }
      case Found(e, caps) =>
        var first := Matched(s, e, caps);
        if e > s {
          PiecesFit(pat, anchor, src, e, left - 1, !anchor);
          FirstPiece(news, src, first, Pieces(pat, anchor, src, e, left - 1, !anchor));
        } else if s < |src| {
          PiecesFit(pat, anchor, src, s + 1, left - 1, !anchor);
          FirstPiece(news, src, Kept(src[s]), Pieces(pat, anchor, src, s + 1, left - 1, !anchor));
          FirstPiece(news, src, first, [Kept(src[s])] + Pieces(pat, anchor, src, s + 1, left - 1, !anchor));
        } else {
          FirstPiece(news, src, first, []);
          assert [first] + [] == [first];
        }
    }
  }

  lemma PiecesOkNone(news: string, src: string)
    ensures PiecesOk(src, []) && Output(news, src, []) == Ok(([], 0))
  {
  }

  lemma RestDone(pat: string, anchor: bool, news: string, src: string, s: nat, left: nat, going: bool)
    requires s <= |src| && (left == 0 || !going)
    ensures Rest(pat, anchor, news, src, s, left, going) == Ok((src[s..], 0))
  {
    KeepAllOk(news, src, src[s..]);
  }

  /** str_gsub with a replacement string; `max` is the most replacements to make */
  method Gsub(src0: string, p: string, news: string, max: int) returns (r: Result<(string, nat), Error>)
    requires CString(p)
    ensures r == Rest(Unanchored(p), Anchored(p), news, src0, 0, if max < 0 then 0 else max, true)
  {
    hide First, Items, FirstAt, Rest, Replacement, MatchAt;
    var anchor, pat := Anchored(p), Unanchored(p);
    var n, src, b := 0, 0, [];
    var ms := new MatchState(src0, pat);
    ghost var left0: nat := if max < 0 then 0 else max;
    ghost var all := Rest(pat, anchor, news, src0, 0, left0, true);
    JoinNone(all);
    while n < max
      invariant 0 <= n <= left0 && src <= |src0| && ms.Valid() && fresh(ms) && fresh(ms.capture)
      invariant all == Join(b, n, Rest(pat, anchor, news, src0, src, left0 - n, true))
      decreases |src0| - src
    {
      ms.level := 0;
      AtIs(pat, src0, src);
      RestStep(pat, anchor, news, src0, src, left0 - n);
      ghost var o := MatchAt(pat, src0, src);
      FoundFits(pat, src0, src);
      ghost var b0, n0 := b, n;
      var e := ms.Match(src, 0);
      if e.Fail? {
        return Fail(e.error);
      }
      if e.value != NULL {
        assert o == Found(e.value, ms.Caps());
        var t := AddS(news, src0, ms.Caps(), src, e.value, b);
        if t.Fail? {
          return Fail(t.error);
        }
        b, n := t.value, n + 1;
      }
      TurnDone(pat, anchor, news, src0, src, left0 - n0, b0, n0);
      if e.value != NULL && e.value > src {
        src := e.value;
      } else if src < |src0| {
        b := b + [src0[src]];
        src := src + 1;
      } else {
        assert src0[src..] == [] && b + [] == b;
        break;
      }
      if anchor {
        RestDone(pat, anchor, news, src0, src, left0 - n, false);
        break;
      }
    }
    if n >= max {
      RestDone(pat, anchor, news, src0, src, left0 - n, true);
    }
    return Ok((b + src0[src..], n));
  }

  /** What is in the buffer after a turn of the loop, and what is still to come. */
  lemma TurnDone(pat: string, anchor: bool, news: string, src: string, s: nat, left: nat, b: string, n: nat)
    requires s <= |src| && left > 0
    ensures var o := MatchAt(pat, src, s);
            var all := Join(b, n, Rest(pat, anchor, news, src, s, left, true));
            && (o.NoMatch? && s < |src|
              ==> all == Join(b + [src[s]], n, Rest(pat, anchor, news, src, s + 1, left, !anchor)))
            && (o.NoMatch? && s == |src| ==> all == Ok((b, n)))
            && (o.Found? ==>
                  var t := Replacement(news, 0, src, o.caps, s, o.e);
                  t.Ok? ==>
                    && (o.e > s ==>
                      all == Join(b + t.value, n + 1, Rest(pat, anchor, news, src, o.e, left - 1, !anchor)))
                    && (o.e == s < |src| ==>
                      all == Join(b + t.value + [src[s]], n + 1,
                      Rest(pat, anchor, news, src, s + 1, left - 1, !anchor)))
                    && (o.e == s == |src| ==> all == Ok((b + t.value, n + 1))))
  {
    var o := MatchAt(pat, src, s);
    RestStep(pat, anchor, news, src, s, left);
    hide MatchAt, Rest, Replacement;
    assert b + [] == b;
    if s < |src| {
      JoinTwo(b, n, [src[s]], 0, Rest(pat, anchor, news, src, s + 1, left, !anchor));
    }
    if o.Found? {
      var t := Replacement(news, 0, src, o.caps, s, o.e);
      if t.Ok? {
        assert b + t.value + [] == b + t.value;
        JoinTwo(b, n, t.value, 1, Ok(([], 0)));
        JoinTwo(b, n, t.value, 1, Rest(pat, anchor, news, src, o.e, left - 1, !anchor));
        if s < |src| {
          var next := Rest(pat, anchor, news, src, s + 1, left - 1, !anchor);
          JoinTwo(b, n, t.value, 1, Join([src[s]], 0, next));
          JoinTwo(b + t.value, n + 1, [src[s]], 0, next);
        }
      }
    }
  }

  lemma FoundFits(pat: string, src: string, s: nat)
    requires s <= |src|
    ensures var o := MatchAt(pat, src, s); o.Found? ==> s <= o.e <= |src| && CapsOk(o.caps, o.e)
  {
  }

  function Matches(pieces: seq<Piece>): nat {
    if pieces == [] then 0 else (if pieces[0].Matched? then 1 else 0) + Matches(pieces[1..])
  }

  // ---------------------------------------------------------------- what the pieces are

  /** Every match is taken at the place the scan has got to, and a character is kept only if nothing matches there. */
  ghost predicate Scanned(pat: string, src: string, s: nat, pieces: seq<Piece>, afterEmpty: bool)
    requires s <= |src|
    decreases |pieces|
  {
    if pieces == [] then s == |src|
    else
      match pieces[0]
      case Kept(c) => s < |src| && c == src[s] && (afterEmpty || MatchAt(pat, src, s).NoMatch?)
                      && Scanned(pat, src, s + 1, pieces[1..], false)
      case Matched(s', e, caps) => s' == s && !afterEmpty && MatchAt(pat, src, s) == Found(e, caps)
                                   && Scanned(pat, src, e, pieces[1..], e == s)
      case Stopped(error) => !afterEmpty && MatchAt(pat, src, s) == Raise(error) && pieces[1..] == []
  }

  /** If the limit was not reached, the whole subject was scanned. */
  lemma {:induction false} PiecesScanned(pat: string, src: string, s: nat, left: nat)
    requires s <= |src| && Matches(Pieces(pat, false, src, s, left, true)) < left
    ensures Scanned(pat, src, s, Pieces(pat, false, src, s, left, true), false)
    decreases |src| - s
  {
    hide MatchAt, KeepAll;
    var pieces := Pieces(pat, false, src, s, left, true);
    var o := MatchAt(pat, src, s);
    if o.NoMatch? && s < |src| {
      PiecesScanned(pat, src, s + 1, left);
      assert pieces[1..] == Pieces(pat, false, src, s + 1, left, true);
    } else if o.Found? && o.e > s {
      assert pieces[1..] == Pieces(pat, false, src, o.e, left - 1, true);
      PiecesScanned(pat, src, o.e, left - 1);
    } else if o.Found? && s < |src| {
      var rest := Pieces(pat, false, src, s + 1, left - 1, true);
      assert pieces[1..] == [Kept(src[s])] + rest && pieces[1..][1..] == rest;
      PiecesScanned(pat, src, s + 1, left - 1);
    }
  }

  lemma SourceFirst(src: string, first: Piece, rest: seq<Piece>)
    ensures Source(src, [first] + rest) == Text(src, first) + Source(src, rest)
    ensures Stops([first] + rest) <==> first.Stopped? || Stops(rest)
  {
    hide Text;
    var all := [first] + rest;
    assert all[0] == first && all[1..] == rest;
    hide Source;
    if Stops(rest) {
      var i :| 0 <= i < |rest| && rest[i].Stopped?;
      assert all[i + 1].Stopped?;
    }
    if Stops(all) {
      var i :| 0 <= i < |all| && all[i].Stopped?;
      assert i == 0 || rest[i - 1].Stopped?;
    }
  }

  lemma SourceOne(src: string, first: Piece)
    ensures Source(src, [first]) == Text(src, first) && (Stops([first]) <==> first.Stopped?)
  {
    SourceFirst(src, first, []);
    assert [first] + [] == [first];
    assert Text(src, first) + [] == Text(src, first);
  }

  /** The pieces stand for the subject, without gap or overlap. */
  lemma {:induction false} PiecesTile(pat: string, anchor: bool, src: string, s: nat, left: nat, going: bool)
    requires s <= |src| && !Stops(Pieces(pat, anchor, src, s, left, going))
    ensures Source(src, Pieces(pat, anchor, src, s, left, going)) == src[s..]
    decreases |src| - s
  {
    hide MatchAt, Source, Stops, KeepAll;
    var pieces := Pieces(pat, anchor, src, s, left, going);
    if left == 0 || !going {
      KeepAllOk([], src, src[s..]);
    } else {
      var o := MatchAt(pat, src, s);
      if o.Raise? {
        SourceOne(src, Stopped(o.error));
      } else if o.Found? && o.e > s {
        TileFrom(pat, anchor, src, s, o.e, left - 1, Matched(s, o.e, o.caps));
      } else if s == |src| {
        SourceNone(src);
        if o.Found? {
          SourceOne(src, Matched(s, s, o.caps));
        }
      } else if o.Found? {
        var rest := Pieces(pat, anchor, src, s + 1, left - 1, !anchor);
        SourceFirst(src, Matched(s, s, o.caps), [Kept(src[s])] + rest);
        TileFrom(pat, anchor, src, s, s + 1, left - 1, Kept(src[s]));
      } else {
        TileFrom(pat, anchor, src, s, s + 1, left, Kept(src[s]));
      }
    }
  }

  /** One piece that takes the subject from `s` to `next`, and the rest. */
  lemma TileFrom(pat: string, anchor: bool, src: string, s: nat, next: nat, left: nat, first: Piece)
    requires s < next <= |src| && Text(src, first) == src[s..next]
    ensures var pieces := [first] + Pieces(pat, anchor, src, next, left, !anchor);
            !Stops(pieces) ==> Source(src, pieces) == src[s..]
    decreases |src| - s, 0
  {
    hide Pieces, Source, Stops;
    var rest := Pieces(pat, anchor, src, next, left, !anchor);
    SourceFirst(src, first, rest);
    if !Stops(rest) {
      PiecesTile(pat, anchor, src, next, left, !anchor);
      assert src[s..next] + src[next..] == src[s..];
    }
  }

  lemma SourceNone(src: string)
    ensures Source(src, []) == [] && !Stops([])
  {
  }

  // ---------------------------------------------------------------- "%0" gives the subject back

  lemma ZeroIs(src: string, caps: seq<Capture>, s: nat, e: nat)
    requires s <= e <= |src| && CapsOk(caps, e)
    ensures Replacement("%0", 0, src, caps, s, e) == Ok(src[s..e])
  {
    assert Replacement("%0", 2, src, caps, s, e) == Ok([]);
    assert src[s..e] + [] == src[s..e];
  }

  lemma {:induction false} OutputZero(src: string, pieces: seq<Piece>)
    requires PiecesOk(src, pieces)
    ensures Output("%0", src, pieces).Fail? <==> Stops(pieces)
    ensures !Stops(pieces) ==> Output("%0", src, pieces) == Ok((Source(src, pieces), Matches(pieces)))
  {
    if pieces != [] {
      assert PieceOk(src, pieces[0]);
      assert pieces == [pieces[0]] + pieces[1..];
      SourceFirst(src, pieces[0], pieces[1..]);
      OutputZero(src, pieces[1..]);
      if pieces[0].Matched? {
        ZeroIs(src, pieces[0].caps, pieces[0].s, pieces[0].e);
      }
      hide Replacement, CapsOk;
    }
  }

  /** Replacing every match by itself changes nothing, unless the pattern raises an error. */
  lemma GsubIdentity(pat: string, anchor: bool, src: string, left: nat)
    ensures var r := Rest(pat, anchor, "%0", src, 0, left, true);
            && (r.Fail? <==> Stops(Pieces(pat, anchor, src, 0, left, true)))
            && (r.Ok? ==> r.value.0 == src)
  {
    PiecesFit(pat, anchor, src, 0, left, true);
    OutputZero(src, Pieces(pat, anchor, src, 0, left, true));
    if !Stops(Pieces(pat, anchor, src, 0, left, true)) {
      PiecesTile(pat, anchor, src, 0, left, true);
      assert src[0..] == src;
    }
    hide Pieces, Output;
  }
}

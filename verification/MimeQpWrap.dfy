/** Breaking quoted-printable text into lines (mime.c: mime_global_qpwrp). */
module MimeQpWrap {
  import opened ByteStrings
  import opened MimeQp

  /** What one byte gives, and how many bytes are left in the line then. */
  function WrapByte(c: Byte, left: int, length: int): (Bytes, int) {
    if c == CR then ([], left)
    else if c == LF then (CRLF, length)
    else if c == EQ then if left <= 3 then (EQCRLF + [c], length - 1) else ([c], left - 1)
    else if left <= 1 then (EQCRLF + [c], length - 1) else ([c], left - 1)
  }

  function Wrap(b: Bytes, left: int, length: int): (Bytes, int)
    decreases |b|
  {
    if b == [] then ([], left)
    else
      var (out, left') := WrapByte(b[0], left, length);
      var (rest, left'') := Wrap(b[1..], left', length);
      (out + rest, left'')
  }

  method GlobalQpwrp(left0: int, input: Bytes, length: int) returns (out: Bytes, left: int)
    ensures (out, left) == Wrap(input, left0, length)
  {
    hide Wrap;
    out, left := [], left0;
    var i := 0;
    assert input[0..] == input && [] + Wrap(input, left, length).0 == Wrap(input, left, length).0;
    while i < |input|
      invariant 0 <= i <= |input|
      invariant Wrap(input, left0, length).0 == out + Wrap(input[i..], left, length).0
      invariant Wrap(input, left0, length).1 == Wrap(input[i..], left, length).1
    {
      var c := input[i];
      ghost var out0 := out;
      ghost var (piece, next) := WrapByte(c, left, length);
      WrapStep(out, input, i, left, length);
      if c == CR {
        assert out0 + [] == out0;
      } else if c == LF {
        left := length;
        out := out + CRLF;
      } else if c == EQ {
        if left <= 3 {
          left := length;
          out := out + EQCRLF;
        }
        out := out + [c];
        left := left - 1;
      } else {
        if left <= 1 {
          left := length;
          out := out + EQCRLF;
        }
        out := out + [c];
        left := left - 1;
      }
      assert out == out0 + piece;
      i := i + 1;
    }
    assert input[|input|..] == [] && out + [] == out;
    WrapNone(left, length);
  }

  lemma WrapStep(out: Bytes, input: Bytes, i: nat, left: int, length: int)
    requires i < |input|
    ensures var (piece, next) := WrapByte(input[i], left, length);
            && out + Wrap(input[i..], left, length).0 == (out + piece) + Wrap(input[i + 1..], next, length).0
            && Wrap(input[i..], left, length).1 == Wrap(input[i + 1..], next, length).1
  {
    hide WrapByte;
    var (piece, next) := WrapByte(input[i], left, length);
    assert input[i..][1..] == input[i + 1..];
    var rest := Wrap(input[i + 1..], next, length).0;
    assert out + (piece + rest) == (out + piece) + rest;
  }

  // ---------------------------------------------------------------- lines

  /** The number of bytes in the last line, if there were `col` in it before. */
  function Column(b: Bytes, col: nat): nat
    decreases |b|
  {
    if b == [] then col else Column(b[1..], if b[0] == LF then 0 else if b[0] == CR then col else col + 1)
  }

  /** No line, without its CRLF, is longer than `length`. */
  predicate Fits(b: Bytes, col: nat, length: int)
    decreases |b|
  {
    b == [] ||
    if b[0] == LF then Fits(b[1..], 0, length)
    else if b[0] == CR then Fits(b[1..], col, length)
    else col + 1 <= length && Fits(b[1..], col + 1, length)
  }

  lemma {:induction false} FitsAppend(a: Bytes, b: Bytes, col: nat, length: int)
    ensures Column(a + b, col) == Column(b, Column(a, col))
    ensures Fits(a + b, col, length) <==> Fits(a, col, length) && Fits(b, Column(a, col), length)
    decreases |a|
  {
    if a == [] {
      assert a + b == b;
    } else {
      FitsAppend(a[1..], b, if a[0] == LF then 0 else if a[0] == CR then col else col + 1, length);
      assert (a + b)[1..] == a[1..] + b;
    }
  }

  lemma FitsByte(c: Byte, left: int, length: int)
    requires 1 <= left <= length && length >= 2
    ensures var (out, left') := WrapByte(c, left, length);
            1 <= left' <= length && Fits(out, length - left, length) && Column(out, length - left) == length - left'
  {
    var col: nat := length - left;
    if c != CR && c != LF {
      FitsOne(c, col, length);
      FitsOne(c, 0, length);
      FitsAppend(EQCRLF, [c], col, length);
      FitsSoftBreak(col, length);
    } else {
      FitsCrlf(col, length);
    }
  }

  lemma FitsOne(c: Byte, col: nat, length: int)
    requires c != CR && c != LF
    ensures Column([c], col) == col + 1 && (Fits([c], col, length) <==> col + 1 <= length)
  {
    assert [c][1..] == [];
  }

  lemma FitsCrlf(col: nat, length: int)
    ensures Column(CRLF, col) == 0 && Fits(CRLF, col, length)
  {
    var lf: Bytes := [LF];
    assert CRLF[1..] == lf && lf[1..] == [];
    FitsNone(0, length);
    assert Column(lf, col) == 0 && Fits(lf, col, length);
  }

  lemma FitsSoftBreak(col: nat, length: int)
    ensures Column(EQCRLF, col) == 0 && (Fits(EQCRLF, col, length) <==> col + 1 <= length)
  {
    assert EQCRLF == [EQ] + CRLF;
    FitsOne(EQ, col, length);
    FitsCrlf(col + 1, length);
    FitsAppend([EQ], CRLF, col, length);
  }

  /** With room for at least two bytes in a line, no line gets longer than `length`. */
  lemma {:induction false} WrapFits(b: Bytes, left: int, length: int)
    requires 1 <= left <= length && length >= 2
    ensures var (out, left') := Wrap(b, left, length);
            1 <= left' <= length && Fits(out, length - left, length) && Column(out, length - left) == length - left'
    decreases |b|
  {
    hide Fits, Column, WrapByte;
    if b == [] {
      FitsNone(length - left, length);
    } else {
      var (out, next) := WrapByte(b[0], left, length);
      FitsByte(b[0], left, length);
      WrapFits(b[1..], next, length);
      FitsAppend(out, Wrap(b[1..], next, length).0, length - left, length);
    }
  }

  lemma FitsNone(col: nat, length: int)
    ensures Fits([], col, length) && Column([], col) == col
  {
  }

  /** With room for one byte only, the mark of a soft line break is one too many. */
  lemma WrapTooLong()
    ensures !Fits(Wrap([65, 66], 1, 1).0, 0, 1)
  {
    WrapAppend([65], [66], 1, 1);
    WrapOne(65, 1, 1);
    WrapOne(66, 0, 1);
    assert [65] + [66] == [65, 66];
    FitsAppend(EQCRLF + [65], EQCRLF + [66], 0, 1);
    FitsAppend(EQCRLF, [65], 0, 1);
    FitsAppend(EQCRLF, [66], 1, 1);
    FitsSoftBreak(0, 1);
    FitsSoftBreak(1, 1);
    FitsOne(65, 0, 1);
  }

  // ---------------------------------------------------------------- the text is kept

  /** Wrapping puts soft line breaks between tokens. */
  function WrapToken(t: Token, left: int, length: int): (seq<Token>, int) {
    match t
    case Literal(_) => if left <= 1 then ([SoftBreak, t], length - 1) else ([t], left - 1)
    case Hex(_) => if left <= 3 then ([SoftBreak, t], length - 3) else ([t], left - 3)
    case HardBreak => ([t], length)
    case SoftBreak => (if left <= 3 then [SoftBreak, SoftBreak] else [SoftBreak], length)
  }

  function WrapTokens(ts: seq<Token>, left: int, length: int): (seq<Token>, int)
    decreases |ts|
  {
    if ts == [] then ([], left)
    else
      var (us, left') := WrapToken(ts[0], left, length);
      var (rest, left'') := WrapTokens(ts[1..], left', length);
      (us + rest, left'')
  }

  lemma {:induction false} WrapAppend(a: Bytes, b: Bytes, left: int, length: int)
    ensures var (out, left') := Wrap(a, left, length);
            Wrap(a + b, left, length) == (out + Wrap(b, left', length).0, Wrap(b, left', length).1)
    decreases |a|
  {
    hide WrapByte;
    if a == [] {
      assert a + b == b;
      assert [] + Wrap(b, left, length).0 == Wrap(b, left, length).0;
    } else {
      var (out, next) := WrapByte(a[0], left, length);
      WrapAppend(a[1..], b, next, length);
      assert (a + b)[1..] == a[1..] + b;
      var (u, n) := Wrap(a[1..], next, length);
      var v := Wrap(b, n, length).0;
      assert out + (u + v) == (out + u) + v;
    }
  }

  lemma WrapOne(c: Byte, left: int, length: int)
    ensures Wrap([c], left, length) == WrapByte(c, left, length)
  {
    var out := WrapByte(c, left, length).0;
    assert [c][1..] == [] && out + [] == out;
  }

  lemma WrapThree(a: Byte, b: Byte, c: Byte, left: int, length: int)
    ensures var (u, l1) := WrapByte(a, left, length);
            var (v, l2) := WrapByte(b, l1, length);
            var (w, l3) := WrapByte(c, l2, length);
            Wrap([a, b, c], left, length) == (u + (v + w), l3)
  {
    hide WrapByte, Wrap;
    assert [a, b, c] == [a] + [b, c] && [b, c] == [b] + [c];
    WrapAppend([a], [b, c], left, length);
    WrapOne(a, left, length);
    var l1 := WrapByte(a, left, length).1;
    WrapAppend([b], [c], l1, length);
    WrapOne(b, l1, length);
    WrapOne(c, WrapByte(b, l1, length).1, length);
  }

  lemma FlatTwo(t: Token, u: Token)
    ensures Flat([t, u], CRLF) == TokenBytes(t, CRLF) + TokenBytes(u, CRLF)
      && Values([t, u]) == TokenValue(t) + TokenValue(u)
  {
    assert [t, u] == [t] + [u];
    FlatAppend([t], [u], CRLF);
    ValuesAppend([t], [u]);
    FlatOne(t, CRLF);
    FlatOne(u, CRLF);
    ValuesOne(t);
    ValuesOne(u);
  }

  /** A token is never broken, if the line has room for `=XX` and a mark. */
  lemma WrapTokenBytes(t: Token, left: int, length: int)
    requires TokenOk(t) && (length >= 4 || left > 3 || !t.Hex?)
    ensures var (us, left') := WrapToken(t, left, length);
            Wrap(TokenBytes(t, CRLF), left, length) == (Flat(us, CRLF), left') && Values(us) == TokenValue(t)
              && TokensOk(us)
  {
    hide Wrap, Flat, Values;
    FlatOne(t, CRLF);
    ValuesOne(t);
    FlatTwo(SoftBreak, t);
    match t {
      case Literal(c) =>
        WrapOne(c, left, length);
      case Hex(c) =>
        var a, b := HexDigit(c / 16), HexDigit(c % 16);
        WrapThree(EQ, a, b, left, length);
        assert a != EQ && b != EQ;
        assert [EQ] + ([a] + [b]) == HexBytes(c) && EQCRLF + [EQ] + ([a] + [b]) == EQCRLF + HexBytes(c);
      case HardBreak =>
        assert CRLF == [CR] + [LF] && [] + CRLF == CRLF;
        WrapAppend([CR], [LF], left, length);
        WrapOne(CR, left, length);
        WrapOne(LF, left, length);
      case SoftBreak =>
        WrapThree(EQ, CR, LF, left, length);
        assert [EQ] + ([] + CRLF) == EQCRLF && EQCRLF + [EQ] + ([] + CRLF) == EQCRLF + EQCRLF;
    }
  }

  /** Wrapped, encoded text is encoded text of the same text. */
  lemma {:induction false} WrapKeeps(ts: seq<Token>, left: int, length: int)
    requires TokensOk(ts) && length >= 4
    ensures var (us, left') := WrapTokens(ts, left, length);
            Wrap(Flat(ts, CRLF), left, length) == (Flat(us, CRLF), left') && Values(us) == Values(ts) && TokensOk(us)
    decreases |ts|
  {
    hide TokenBytes, WrapToken, Wrap, TokenValue;
    if ts == [] {
      WrapNone(left, length);
    } else {
      var (us, next) := WrapToken(ts[0], left, length);
      WrapTokenBytes(ts[0], left, length);
      WrapKeeps(ts[1..], next, length);
      var rest := WrapTokens(ts[1..], next, length).0;
      WrapAppend(TokenBytes(ts[0], CRLF), Flat(ts[1..], CRLF), left, length);
      FlatAppend(us, rest, CRLF);
      ValuesAppend(us, rest);
    }
  }

  lemma WrapNone(left: int, length: int)
    ensures Wrap([], left, length) == ([], left)
  {
  }

  /** Encoding, wrapping and decoding gives the text back, and every line fits. */
  lemma WrapRoundTrip(s: Bytes, length: int)
    requires length >= 4
    ensures var out := Wrap(Flat(Encoded(s), CRLF), length, length).0;
            Decode([], out) == (s, []) && Fits(out, 0, length)
  {
    hide Encoded, Flat, Wrap, Decode, Fits;
    EncodedOk(s);
    WrapKeeps(Encoded(s), length, length);
    TokensDecode(WrapTokens(Encoded(s), length, length).0);
    WrapFits(Flat(Encoded(s), CRLF), length, length);
  }

  // ---------------------------------------------------------------- narrow lines

  predicate HasHex(ts: seq<Token>) {
    exists i :: 0 <= i < |ts| && ts[i].Hex?
  }

  /** No line break, hard or soft. */
  predicate OneLine(ts: seq<Token>) {
    forall i :: 0 <= i < |ts| ==> !ts[i].HardBreak? && !ts[i].SoftBreak?
  }

  /** Every `=XX` is in the first line, with room for it and a mark in the `left` bytes of that line. */
  predicate InRoom(ts: seq<Token>, left: int) {
    forall i :: 0 <= i < |ts| && ts[i].Hex? ==> OneLine(ts[..i]) && |Flat(ts[..i], CRLF)| + 3 < left
  }

  lemma DecodePair(a: Bytes, b: Bytes, out: Bytes, out': Bytes)
    requires Decode([], a) == (out, []) && Decode([], b) == (out', [])
    ensures Decode([], a + b) == (out + out', [])
  {
    DecodeAppend([], a, b);
  }

  /** A line break between the digits: `=X=`, CRLF and the other digit are decoded as they are. */
  lemma SplitDigits(x: Byte, y: Byte)
    requires ClassOf(x) == QpPlain && ClassOf(y) == QpPlain
    ensures Decode([], EQCRLF + ([EQ, x, EQ] + (CRLF + [y]))) == ([EQ, x, EQ] + (CRLF + [y]), [])
  {
    hide Decode;
    var bad := [EQ, x, EQ];
    TokenDecodes(SoftBreak);
    assert bad[..3] == bad;
    DecodeEscape(x, EQ, bad);
    TokenDecodes(HardBreak);
    TokenDecodes(Literal(y));
    DecodePair(CRLF, [y], CRLF, [y]);
    DecodePair(bad, CRLF + [y], bad, CRLF + [y]);
    DecodePair(EQCRLF, bad + (CRLF + [y]), [], bad + (CRLF + [y]));
    assert [] + (bad + (CRLF + [y])) == bad + (CRLF + [y]);
  }

  /** A line break after the `=` too: `==` and a CR are decoded as they are, and so are the digits. */
  lemma SplitAll(x: Byte, y: Byte)
    requires ClassOf(x) == QpPlain && ClassOf(y) == QpPlain
    ensures Decode([], EQCRLF + ([EQ, EQ, CR] + ([LF] + ([x] + (EQCRLF + [y]))))) == ([EQ, EQ, CR, x, y], [])
  {
    hide Decode;
    var bad := [EQ, EQ, CR];
    TokenDecodes(SoftBreak);
    assert bad[..3] == bad;
    DecodeEscape(EQ, CR, bad);
    assert [] + [LF] == [LF];
    DecodeLast([], LF, []);
    TokenDecodes(Literal(x));
    TokenDecodes(Literal(y));
    DecodePair(EQCRLF, [y], [], [y]);
    DecodePair([x], EQCRLF + [y], [x], [] + [y]);
    DecodePair([LF], [x] + (EQCRLF + [y]), [], [x] + ([] + [y]));
    DecodePair(bad, [LF] + ([x] + (EQCRLF + [y])), bad, [] + ([x] + ([] + [y])));
    DecodePair(EQCRLF, bad + ([LF] + ([x] + (EQCRLF + [y]))), [], bad + ([] + ([x] + ([] + [y]))));
    assert [] + (bad + ([] + ([x] + ([] + [y])))) == [EQ, EQ, CR, x, y];
  }

  lemma HexDigitPlain(n: int)
    requires 0 <= n < 16
    ensures ClassOf(HexDigit(n)) == QpPlain && HexDigit(n) != EQ
  {
  }

  /** In a narrow line every `=XX` is broken, and more than one byte is decoded. */
  lemma NarrowHex(c: Byte, left: int, length: int)
    requires left <= 3 && length < 4
    ensures var (out, left') := Wrap(HexBytes(c), left, length);
            left' == length - 1 && Decode([], out).1 == [] && |Decode([], out).0| > 1
  {
    hide Wrap, Decode;
    var x, y := HexDigit(c / 16), HexDigit(c % 16);
    HexDigitPlain(c / 16);
    HexDigitPlain(c % 16);
    WrapThree(EQ, x, y, left, length);
    if length == 3 {
      assert EQCRLF + [EQ] + ([x] + (EQCRLF + [y])) == EQCRLF + ([EQ, x, EQ] + (CRLF + [y]));
      SplitDigits(x, y);
    } else {
      assert EQCRLF + [EQ] + (EQCRLF + [x] + (EQCRLF + [y])) == EQCRLF
        + ([EQ, EQ, CR] + ([LF] + ([x] + (EQCRLF + [y]))));
      SplitAll(x, y);
    }
  }

  /** Every other token, and an `=XX` that has room, stands for the same text. */
  lemma NarrowToken(t: Token, left: int, length: int)
    requires TokenOk(t) && (left > 3 || !t.Hex?)
    ensures var (out, left') := Wrap(TokenBytes(t, CRLF), left, length);
            left' == WrapToken(t, left, length).1 && Decode([], out) == (TokenValue(t), [])
  {
    hide Wrap, Decode, TokenBytes, TokenValue;
    WrapTokenBytes(t, left, length);
    TokensDecode(WrapToken(t, left, length).0);
  }

  predicate IsBreak(t: Token) {
    t.HardBreak? || t.SoftBreak?
  }

  lemma FlatFirst(ts: seq<Token>, i: nat)
    requires 0 < i <= |ts|
    ensures |Flat(ts[..i], CRLF)| == |TokenBytes(ts[0], CRLF)| + |Flat(ts[1..][..i - 1], CRLF)|
    ensures OneLine(ts[..i]) <==> !IsBreak(ts[0]) && OneLine(ts[1..][..i - 1])
  {
    var rest := ts[1..][..i - 1];
    assert ts[..i] == [ts[0]] + rest;
    assert forall k :: 0 <= k < |rest| ==> ts[..i][k + 1] == rest[k];
  }

  /** The room for a token, and for those after it. */
  lemma RoomFirst(ts: seq<Token>, left: int)
    requires ts != []
    ensures InRoom(ts, left) <==>
            (ts[0].Hex? ==> left > 3)
            && if IsBreak(ts[0]) then !HasHex(ts[1..]) else InRoom(ts[1..], left - |TokenBytes(ts[0], CRLF)|)
  {
    hide Flat, OneLine, TokenBytes;
    var rest := ts[1..];
    forall i | 0 < i < |ts|
      ensures ts[i] == rest[i - 1]
      ensures |Flat(ts[..i], CRLF)| == |TokenBytes(ts[0], CRLF)| + |Flat(rest[..i - 1], CRLF)|
      ensures OneLine(ts[..i]) <==> !IsBreak(ts[0]) && OneLine(rest[..i - 1])
    {
      FlatFirst(ts, i);
    }
    assert forall k :: 0 <= k < |rest| ==> rest[k] == ts[k + 1];
    RoomNone(ts);
    if InRoom(ts, left) {
      forall k | 0 <= k < |rest| && rest[k].Hex?
        ensures !IsBreak(ts[0]) && OneLine(rest[..k])
        ensures |Flat(rest[..k], CRLF)| + 3 < left - |TokenBytes(ts[0], CRLF)|
      {
        assert ts[k + 1].Hex?;
      }
    }
  }

  lemma RoomNone(ts: seq<Token>)
    ensures OneLine(ts[..0]) && Flat(ts[..0], CRLF) == []
  {
  }

  /** Without room for an `=XX` there must be none. */
  lemma RoomSmall(ts: seq<Token>, left: int)
    requires left <= 3
    ensures InRoom(ts, left) <==> !HasHex(ts)
  {
    hide Flat;
  }

  /** What is left of the line after a token that is not broken is room enough exactly if it was before. */
  lemma RoomNext(ts: seq<Token>, left: int, length: int)
    requires ts != [] && length < 4 && (left > 3 || !ts[0].Hex?)
    ensures InRoom(ts, left) <==> InRoom(ts[1..], WrapToken(ts[0], left, length).1)
  {
    hide InRoom;
    RoomFirst(ts, left);
    RoomSmall(ts[1..], length);
    RoomSmall(ts[1..], length - 1);
    if left <= 1 {
      RoomSmall(ts[1..], left - 1);
    }
  }

  /**
    Wrapped in narrow lines, encoded text decodes to the same text, or to a longer one if some
    `=XX` has no room in the first line.
   */
  lemma {:induction false} WrapNarrow(ts: seq<Token>, left: int, length: int)
    requires TokensOk(ts) && length < 4
    ensures var d := Decode([], Wrap(Flat(ts, CRLF), left, length).0);
            d.1 == [] && if InRoom(ts, left) then d.0 == Values(ts) else |d.0| > |Values(ts)|
    decreases |ts|
  {
    hide TokenBytes, Wrap, Decode, InRoom, WrapToken;
    if ts == [] {
      WrapNone(left, length);
      DecodeNone();
      NoneInRoom(left);
    } else {
      var t, b := ts[0], Flat(ts[1..], CRLF);
      var (out, next) := Wrap(TokenBytes(t, CRLF), left, length);
      if t.Hex? && left <= 3 {
        HexIs(t);
        NarrowHex(t.c, left, length);
        RoomFirst(ts, left);
      } else {
        NarrowToken(t, left, length);
        RoomNext(ts, left, length);
      }
      WrapNarrow(ts[1..], next, length);
      WrapAppend(TokenBytes(t, CRLF), b, left, length);
      var d, d' := Decode([], out).0, Decode([], Wrap(b, next, length).0).0;
      DecodePair(out, Wrap(b, next, length).0, d, d');
    }
  }

  lemma NoneInRoom(left: int)
    ensures InRoom([], left)
  {
  }

  lemma HexIs(t: Token)
    requires t.Hex?
    ensures TokenBytes(t, CRLF) == HexBytes(t.c) && TokenValue(t) == [t.c]
  {
  }

  lemma DecodeNone()
    ensures Decode([], []) == ([], [])
  {
  }

  /**
    The text comes back exactly if a line has room for `=XX` and a mark, or the first line has
    room for every `=XX`.
   */
  lemma WrapExact(s: Bytes, left: int, length: int)
    ensures Decode([], Wrap(Flat(Encoded(s), CRLF), left, length).0) == (s, [])
            <==> length >= 4 || InRoom(Encoded(s), left)
  {
    hide Encoded, Flat, Wrap, Decode, InRoom;
    EncodedOk(s);
    if length >= 4 {
      WrapKeeps(Encoded(s), left, length);
      TokensDecode(WrapTokens(Encoded(s), left, length).0);
    } else {
      WrapNarrow(Encoded(s), left, length);
    }
  }

  /**
    When the first line is no longer than the others: exactly if nothing is written as `=XX`, or
    there is room for it.
   */
  lemma WrapExactWhole(s: Bytes, left: int, length: int)
    requires left <= length
    ensures Decode([], Wrap(Flat(Encoded(s), CRLF), left, length).0) == (s, []) <==> length >= 4 || !HasHex(Encoded(s))
  {
    hide Encoded, Flat, Wrap, Decode, InRoom, HasHex;
    WrapExact(s, left, length);
    if length < 4 {
      RoomSmall(Encoded(s), left);
    }
  }

  /** The input: one zero byte, in lines of three. */
  lemma WrapTooNarrow()
    ensures Encoded([0]) == [Hex(0)] && Decode([], Wrap(Flat(Encoded([0]), CRLF), 3, 3).0) != ([0], [])
  {
    WrapExactWhole([0], 3, 3);
    ZeroEncoded();
    assert HasHex([Hex(0)]) by {
      assert [Hex(0)][0].Hex?;
    }
  }

  lemma ZeroEncoded()
    ensures Encoded([0]) == [Hex(0)]
  {
    var zero: Bytes := [0];
    assert zero[1..] == [] && Drain([]) == ([], []) && [Hex(0)] + [] == [Hex(0)];
    assert Drain(zero) == ([Hex(0)], []);
    assert [] + zero == zero;
    assert Encode([], [0]) == ([Hex(0)], []);
  }
}

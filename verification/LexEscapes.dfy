/**
  Every way of writing a string literal between quotes, and what the lexer reads: the text that
  the pieces stand for, with one line more for each line break (llex.c: read_string).
 */
module LexEscapes {
  import opened Limits
  import opened ByteStrings
  import opened DmpProto
  import opened LexString

  const LETTERS := "abfnrtv"

  /** The codes of the control characters that the letters stand for: BEL, BS, FF, LF, CR, HT and VT. */
  const CODES: Bytes := [7, 8, 12, 10, 13, 9, 11]

  type Digit = d: nat | d < 10

  /**
    A byte as it is; after a backslash a letter, up to three decimal digits, or any other byte;
    and a backslash at the end of a line.
   */
  datatype Piece = Raw(c: Byte) | Letter(i: nat) | Decimal(ds: seq<Digit>) | Other(c: Byte) | Break(nl: Bytes)

  predicate Numeral(c: Byte) {
    '0' as int <= c <= '9' as int
  }

  predicate LineEnd(c: Byte) {
    c == '\n' as int || c == '\r' as int
  }

  function DigitValue(ds: seq<Digit>): int
    requires 1 <= |ds| <= 3
  {
    var d0: int := ds[0];
    if |ds| == 1 then d0
    else
      var d1: int := ds[1];
      if |ds| == 2 then 10 * d0 + d1
      else
        var d2: int := ds[2];
        100 * d0 + 10 * d1 + d2
  }

  predicate IsLetter(c: Byte) {
    exists i :: 0 <= i < 7 && LETTERS[i] as int == c
  }

  /** A piece that may be part of a literal with delimiter `del`. */
  predicate PieceOk(p: Piece, del: Byte) {
    match p
    case Raw(c) => c != del && c != '\\' as int && !LineEnd(c)
    case Letter(i) => i < 7
    case Decimal(ds) => 1 <= |ds| <= 3 && DigitValue(ds) < 256
    case Other(c) => !IsLetter(c) && !Numeral(c) && !LineEnd(c)
    case Break(nl) => (|nl| == 1 && LineEnd(nl[0])) || (|nl| == 2 && LineEnd(nl[0]) && LineEnd(nl[1]) && nl[0] != nl[1])
  }

  function Written(p: Piece, del: Byte): Bytes
    requires PieceOk(p, del)
  {
    match p
    case Raw(c) => [c]
    case Letter(i) => ['\\' as int, LETTERS[i] as int]
    case Decimal(ds) => ['\\' as int] + Digits(ds)
    case Other(c) => ['\\' as int, c]
    case Break(nl) => ['\\' as int] + nl
  }

  function Digits(ds: seq<Digit>): Bytes {
    if ds == [] then [] else [ds[0] as int + 48] + Digits(ds[1..])
  }

  /** The byte that a piece stands for. */
  function Meant(p: Piece, del: Byte): Byte
    requires PieceOk(p, del)
  {
    match p
    case Raw(c) => c
    case Letter(i) => CODES[i]
    case Decimal(ds) => DigitValue(ds)
    case Other(c) => c
    case Break(_) => '\n' as int
  }

  /** What comes next, if anything, does not belong to the piece. */
  predicate Ends(p: Piece, after: Bytes) {
    after == [] || match p
                   case Decimal(ds) => |ds| == 3 || !Numeral(after[0])
                   case Break(nl) => |nl| == 2 || !LineEnd(after[0])
                   case _ => true
  }

  /** The pieces one after another, and what comes after them. */
  function WrittenAll(ps: seq<Piece>, del: Byte, tail: Bytes): Bytes
    requires forall i :: 0 <= i < |ps| ==> PieceOk(ps[i], del)
  {
    if ps == [] then tail else Written(ps[0], del) + WrittenAll(ps[1..], del, tail)
  }

  function MeantAll(ps: seq<Piece>, del: Byte): Bytes
    requires forall i :: 0 <= i < |ps| ==> PieceOk(ps[i], del)
  {
    if ps == [] then [] else [Meant(ps[0], del)] + MeantAll(ps[1..], del)
  }

  function Lines(ps: seq<Piece>): nat {
    if ps == [] then 0 else (if ps[0].Break? then 1 else 0) + Lines(ps[1..])
  }

  /** Every piece is one of a literal, and ends where the next one, or the tail, begins. */
  predicate Literal(ps: seq<Piece>, del: Byte, tail: Bytes) {
    (forall i :: 0 <= i < |ps| ==> PieceOk(ps[i], del)) && Apart(ps, del, tail)
  }

  predicate Apart(ps: seq<Piece>, del: Byte, tail: Bytes)
    requires forall i :: 0 <= i < |ps| ==> PieceOk(ps[i], del)
  {
    ps != [] ==> Ends(ps[0], WrittenAll(ps[1..], del, tail)) && Apart(ps[1..], del, tail)
  }

  // ---------------------------------------------------------------- the tables

  lemma EscapeIs(c: Byte)
    ensures forall i :: 0 <= i < 7 && LETTERS[i] as int == c ==> Escape(c) == CODES[i]
    ensures !IsLetter(c) ==> Escape(c) == -1
  {
    if !IsLetter(c) {
      assert LETTERS[0] as int != c && LETTERS[1] as int != c && LETTERS[2] as int != c && LETTERS[3] as int != c
        && LETTERS[4] as int != c && LETTERS[5] as int != c && LETTERS[6] as int != c;
    }
  }

  lemma {:induction false} CountIs(ds: seq<Digit>, after: Bytes, n: nat)
    requires |ds| <= n
    requires |ds| == n || after == [] || !Numeral(after[0])
    ensures |Digits(ds)| == |ds| && DigitCount(Digits(ds) + after, n) == |ds|
    decreases |ds|
  {
    if ds == [] {
      assert Digits(ds) + after == after;
    } else {
      CountIs(ds[1..], after, n - 1);
      var b := Digits(ds) + after;
      assert b[1..] == Digits(ds[1..]) + after && Numeral(b[0]);
      hide Digits;
    }
  }

  /** Numerals are read as a decimal number. */
  lemma DecimalIs(c: int, x: Byte, rest: Bytes)
    ensures DecimalValue(c, [x] + rest) == DecimalValue(10 * c + (x as int - 48), rest)
    ensures DecimalValue(c, []) == c
  {
    assert ([x] + rest)[1..] == rest;
  }

  lemma DigitsFirst(d: Digit, ds: seq<Digit>)
    ensures Digits([d] + ds) == [d as int + 48] + Digits(ds)
  {
    assert ([d] + ds)[1..] == ds;
  }

  lemma ValueIs(ds: seq<Digit>)
    requires 1 <= |ds| <= 3
    ensures DecimalValue(0, Digits(ds)) == DigitValue(ds)
  {
    hide Digits, DecimalValue;
    var rest := ds[1..];
    var d0: int := ds[0];
    assert ds == [ds[0]] + rest;
    DigitsFirst(ds[0], rest);
    DecimalIs(0, d0 + 48, Digits(rest));
    if |ds| == 1 {
      assert rest == [];
      NoDigits();
      DecimalIs(d0, 0, []);
    } else {
      var d1: int := ds[1];
      var last := ds[2..];
      assert rest == [ds[1]] + last;
      DigitsFirst(ds[1], last);
      DecimalIs(d0, d1 + 48, Digits(last));
      NoDigits();
      if |ds| == 2 {
        assert last == [];
        DecimalIs(10 * d0 + d1, 0, []);
      } else {
        var d2: int := ds[2];
        assert last == [ds[2]] + [];
        DigitsFirst(ds[2], []);
        DecimalIs(10 * d0 + d1, d2 + 48, []);
        DecimalIs(100 * d0 + 10 * d1 + d2, 0, []);
      }
    }
  }

  lemma NoDigits()
    ensures Digits([]) == []
  {
  }

  // ---------------------------------------------------------------- one piece

  lemma DecimalScans(ds: seq<Digit>, del: Byte, after: Bytes, line: int)
    requires PieceOk(Decimal(ds), del) && Ends(Decimal(ds), after) && del != '\\' as int
      && !LineEnd(del)
    ensures Scan(Written(Decimal(ds), del) + after, del, line) == Keep([DigitValue(ds)], Scan(after, del, line))
  {
    var b := Written(Decimal(ds), del) + after;
    CountIs(ds, after, 3);
    ValueIs(ds);
    assert b[1..] == Digits(ds) + after;
    assert b[1..1 + |ds|] == Digits(ds) && b[1 + |ds|..] == after;
    assert b[1] == Digits(ds)[0];
    EscapeIs(b[1]);
    hide DigitCount, DecimalValue, Digits, DigitValue, Escape;
  }

  /** Three digits of a number over 255 are an error. */
  lemma TooLarge(ds: seq<Digit>, del: Byte, after: Bytes, line: int)
    requires |ds| == 3 && DigitValue(ds) > 255
    requires del != '\\' as int
    ensures Scan(['\\' as int] + Digits(ds) + after, del, line) == Bad(EscapeTooLarge)
  {
    var b := ['\\' as int] + Digits(ds) + after;
    CountIs(ds, after, 3);
    ValueIs(ds);
    assert b[1..] == Digits(ds) + after;
    assert b[1..4] == Digits(ds);
    assert b[1] == Digits(ds)[0];
    EscapeIs(b[1]);
    hide DigitCount, DecimalValue, Digits, DigitValue, Escape;
  }

  lemma BreakScans(nl: Bytes, del: Byte, after: Bytes, line: int)
    requires PieceOk(Break(nl), del) && Ends(Break(nl), after) && del != '\\' as int && !LineEnd(del)
    requires line + 1 < MAX_INT
    ensures Scan(Written(Break(nl), del) + after, del, line) == Keep(['\n' as int], Scan(after, del, line + 1))
  {
    var b := Written(Break(nl), del) + after;
    assert b[1..] == nl + after && b[1] == nl[0];
    assert SkipNewline(nl + after) == after by {
      if |nl| == 1 {
        assert (after != [] ==> (nl + after)[1] == after[0]) && (nl + after)[1..] == after;
      } else {
        assert (nl + after)[1] == nl[1] && (nl + after)[2..] == after;
      }
    }
    EscapeIs(b[1]);
    hide SkipNewline, Escape;
  }

  lemma PieceScans(p: Piece, del: Byte, after: Bytes, line: int)
    requires PieceOk(p, del) && Ends(p, after) && del != '\\' as int && !LineEnd(del)
    requires p.Break? ==> line + 1 < MAX_INT
    ensures Scan(Written(p, del) + after, del, line)
      == Keep([Meant(p, del)], Scan(after, del, if p.Break? then line + 1 else line))
  {
    var b := Written(p, del) + after;
    match p
    case Raw(c) => assert b[1..] == after;
    case Letter(i) =>
      EscapeIs(b[1]);
      assert b[2..] == after;
    case Decimal(ds) => DecimalScans(ds, del, after, line);
    case Other(c) =>
      EscapeIs(c);
      assert b[2..] == after;
    case Break(nl) => BreakScans(nl, del, after, line);
  }

  // ---------------------------------------------------------------- a whole literal

  /** Whatever comes after them, the pieces are read as what they stand for. */
  lemma {:induction false} PiecesScan(ps: seq<Piece>, del: Byte, tail: Bytes, line: int)
    requires Literal(ps, del, tail) && del != '\\' as int && !LineEnd(del) && line + Lines(ps) < MAX_INT
    ensures Scan(WrittenAll(ps, del, tail), del, line)
      == Keep(MeantAll(ps, del), Scan(tail, del, line + Lines(ps)))
    decreases |ps|
  {
    hide Scan, Written, Meant, Ends, PieceOk;
    var r := Scan(tail, del, line + Lines(ps));
    if ps == [] {
      assert r.Text? ==> [] + r.text == r.text;
    } else {
      var p, more := ps[0], ps[1..];
      PieceScans(p, del, WrittenAll(more, del, tail), line);
      PiecesScan(more, del, tail, if p.Break? then line + 1 else line);
      assert r.Text? ==> [Meant(p, del)] + (MeantAll(more, del) + r.text) == MeantAll(ps, del) + r.text;
    }
  }

  /** A literal, however its bytes are written, is read as the text it stands for. */
  lemma LiteralScans(ps: seq<Piece>, del: Byte, rest: Bytes, line: int)
    requires Literal(ps, del, [del] + rest) && del != '\\' as int && !LineEnd(del) && line + Lines(ps) < MAX_INT
    ensures Scan(WrittenAll(ps, del, [del] + rest), del, line) == Text(MeantAll(ps, del), rest, line + Lines(ps))
  {
    hide WrittenAll, MeantAll, Apart, Lines, PieceOk;
    PiecesScan(ps, del, [del] + rest, line);
    assert ([del] + rest)[1..] == rest;
    assert MeantAll(ps, del) + [] == MeantAll(ps, del);
  }

  /** A string that ends with the input, in a backslash or at the end of a line, without its delimiter is an error. */
  lemma Unfinished(ps: seq<Piece>, del: Byte, tail: Bytes, line: int)
    requires Literal(ps, del, tail) && del != '\\' as int && !LineEnd(del) && line + Lines(ps) < MAX_INT
    requires tail == [] || tail == ['\\' as int] || LineEnd(tail[0])
    ensures Scan(WrittenAll(ps, del, tail), del, line) == Bad(UnfinishedString)
  {
    hide WrittenAll, MeantAll, Literal, Lines;
    PiecesScan(ps, del, tail, line);
  }

  // ---------------------------------------------------------------- what %q writes

  /** Quotes, backslashes, line feeds, carriage returns and zero bytes are escaped, and nothing else. */
  function PieceOf(c: Byte): Piece {
    if c == '"' as int || c == '\\' as int then Other(c)
    else if c == '\n' as int then Break([c])
    else if c == '\r' as int then Letter(4)
    else if c == 0 then Decimal([0, 0, 0])
    else Raw(c)
  }

  function PiecesOf(s: Bytes): (r: seq<Piece>)
    ensures |r| == |s| && forall i :: 0 <= i < |s| ==> r[i] == PieceOf(s[i])
  {
    if s == [] then [] else [PieceOf(s[0])] + PiecesOf(s[1..])
  }

  lemma ByteWritten(c: Byte)
    ensures PieceOk(PieceOf(c), QUOTE) && Written(PieceOf(c), QUOTE) == QuotedByte(c) && Meant(PieceOf(c), QUOTE) == c
  {
    assert LETTERS[4] as int == 'r' as int && CODES[4] == 13;
    if c == '"' as int || c == '\\' as int {
      NoLetter(c);
    } else if c == 0 {
      DigitsFirst(0, [0, 0]);
      DigitsFirst(0, [0]);
      DigitsFirst(0, []);
      NoDigits();
      assert [0] + [0, 0] == [0, 0, 0] && [0] + [0] == [0, 0] && [0] + [] == [0];
    }
    hide Digits;
  }

  lemma NoLetter(c: Byte)
    requires c == '"' as int || c == '\\' as int
    ensures !IsLetter(c)
  {
  }

  lemma PiecesOk(s: Bytes)
    ensures forall i :: 0 <= i < |s| ==> PieceOk(PiecesOf(s)[i], QUOTE)
  {
    forall i | 0 <= i < |s|
      ensures PieceOk(PiecesOf(s)[i], QUOTE)
    {
      ByteWritten(s[i]);
    }
  }

  /** `%q` writes the literal of these pieces. */
  lemma QuotedPieces(s: Bytes)
    ensures forall i :: 0 <= i < |s| ==> PieceOk(PiecesOf(s)[i], QUOTE)
    ensures Quoted(s) == [QUOTE] + WrittenAll(PiecesOf(s), QUOTE, [QUOTE])
  {
    PiecesOk(s);
    PiecesWritten(s);
    assert [QUOTE] + QuotedBytes(s) + [QUOTE] == [QUOTE] + (QuotedBytes(s) + [QUOTE]);
  }

  lemma {:induction false} PiecesWritten(s: Bytes)
    requires forall i :: 0 <= i < |s| ==> PieceOk(PiecesOf(s)[i], QUOTE)
    ensures WrittenAll(PiecesOf(s), QUOTE, [QUOTE]) == QuotedBytes(s) + [QUOTE]
    decreases |s|
  {
    hide Written, PieceOk, QuotedByte, PieceOf;
    if s == [] {
      assert PiecesOf(s) == [] && QuotedBytes(s) + [QUOTE] == [QUOTE];
    } else {
      ByteWritten(s[0]);
      PiecesOk(s[1..]);
      PiecesWritten(s[1..]);
      assert PiecesOf(s)[0] == PieceOf(s[0]) && PiecesOf(s)[1..] == PiecesOf(s[1..]);
      assert QuotedByte(s[0]) + (QuotedBytes(s[1..]) + [QUOTE]) == (QuotedByte(s[0]) + QuotedBytes(s[1..])) + [QUOTE];
    }
  }
}

/** Quoted strings: what the format option `%q` writes (lstrlib.c) and how the lexer reads it (llex.c). */
module LexString {
  import opened Limits
  import opened ByteStrings
  import opened DmpProto
  import opened DmpZio

  const QUOTE: Byte := 34
  const BACKSLASH: Byte := 92
  const NEWLINE: Byte := 10
  const RETURN: Byte := 13
  const DIGIT0: Byte := 48
  const UCHAR_MAX: int := 255

  datatype LexError = UnfinishedString | EscapeTooLarge | TooManyLines

  datatype Scanned = Text(text: Bytes, rest: Bytes, line: int) | Bad(error: LexError)

  predicate IsDigit(c: int) { 48 <= c <= 57 }

  predicate IsNewline(c: int) { c == NEWLINE || c == RETURN }

  // ---------------------------------------------------------------- writing

  function QuotedByte(c: Byte): Bytes {
    if c == QUOTE || c == BACKSLASH || c == NEWLINE then [BACKSLASH, c]
    else if c == RETURN then [BACKSLASH, 'r' as int]
    else if c == 0 then [BACKSLASH, DIGIT0, DIGIT0, DIGIT0]
    else [c]
  }

  function QuotedBytes(s: Bytes): Bytes {
    if s == [] then [] else QuotedByte(s[0]) + QuotedBytes(s[1..])
  }

  function Quoted(s: Bytes): Bytes {
    [QUOTE] + QuotedBytes(s) + [QUOTE]
  }

  lemma {:induction false} QuotedMore(s: Bytes, c: Byte)
    ensures QuotedBytes(s + [c]) == QuotedBytes(s) + QuotedByte(c)
  {
    if s != [] {
      QuotedMore(s[1..], c);
      assert (s + [c])[1..] == s[1..] + [c];
    } else {
      assert QuotedBytes([c]) == QuotedByte(c) + QuotedBytes([c][1..]);
    }
  }

  /** addquoted */
  method AddQuoted(s: Bytes) returns (b: Bytes)
    ensures b == Quoted(s)
  {
    b := [QUOTE];
    var i := 0;
    while i < |s|
      invariant 0 <= i <= |s| && b == [QUOTE] + QuotedBytes(s[..i])
    {
      QuotedMore(s[..i], s[i]);
      assert s[..i + 1] == s[..i] + [s[i]];
      var c := s[i];
      if c == QUOTE || c == BACKSLASH || c == NEWLINE {
        b := b + [BACKSLASH];
        b := b + [c];
        assert [BACKSLASH] + [c] == [BACKSLASH, c];
      } else if c == RETURN {
        b := b + [BACKSLASH, 'r' as int];
      } else if c == 0 {
        b := b + [BACKSLASH, DIGIT0, DIGIT0, DIGIT0];
      } else {
        b := b + [c];
      }
      i := i + 1;
    }
    assert s[..|s|] == s;
    b := b + [QUOTE];
  }

  // ---------------------------------------------------------------- reading

  function First(b: Bytes): int {
    if b == [] then EOZ else b[0]
  }

  /** The byte that `\a` to `\v` stand for, or -1. */
  function Escape(c: int): (r: int)
    ensures -1 <= r < 256
  {
    if c == 'a' as int then 7 else if c == 'b' as int then 8
                                   else if c == 'f' as int then 12 else if c == 'n' as int then 10
    else if c == 'r' as int then 13 else if c == 't' as int then 9 else if c == 'v' as int then 11 else -1
  }

  /** A line break is one byte, or two different ones. */
  function SkipNewline(b: Bytes): (r: Bytes)
    requires b != []
    ensures |r| < |b|
  {
    if |b| > 1 && IsNewline(b[1]) && b[1] != b[0] then b[2..] else b[1..]
  }

  /** The number of digits of a `\ddd` escape, at most `n`. */
  function DigitCount(b: Bytes, n: nat): (k: nat)
    ensures k <= n && k <= |b|
  {
    if n > 0 && b != [] && IsDigit(b[0]) then 1 + DigitCount(b[1..], n - 1) else 0
  }

  function DecimalValue(c: int, b: Bytes): int
    decreases |b|
  {
    if b == [] then c else DecimalValue(10 * c + (b[0] - DIGIT0), b[1..])
  }

  function Keep(text: Bytes, r: Scanned): Scanned {
    if r.Bad? then r else Text(text + r.text, r.rest, r.line)
  }

  /** The text of a string, from the byte after its opening delimiter on. */
  function Scan(b: Bytes, del: Byte, line: int): Scanned
    decreases |b|
  {
    if b == [] then Bad(UnfinishedString)
    else if b[0] == del then Text([], b[1..], line)
    else if IsNewline(b[0]) then Bad(UnfinishedString)
    else if b[0] != BACKSLASH then Keep([b[0]], Scan(b[1..], del, line))
    else if |b| == 1 then Bad(UnfinishedString)
    else if Escape(b[1]) >= 0 then Keep([Escape(b[1])], Scan(b[2..], del, line))
    else if IsNewline(b[1]) then
      if line + 1 >= MAX_INT then Bad(TooManyLines) else Keep([NEWLINE], Scan(SkipNewline(b[1..]), del, line + 1))
    else if !IsDigit(b[1]) then Keep([b[1]], Scan(b[2..], del, line))
    else
      var k := DigitCount(b[1..], 3);
      var c := DecimalValue(0, b[1..1 + k]);
      if c < 0 || c > UCHAR_MAX then Bad(EscapeTooLarge) else Keep([c], Scan(b[1 + k..], del, line))
  }

  function Newlines(s: Bytes): nat {
    if s == [] then 0 else (if s[0] == NEWLINE then 1 else 0) + Newlines(s[1..])
  }

  lemma KeepOne(c: Byte, s: Bytes, rest: Bytes, line: int)
    requires s != [] && s[0] == c
    ensures Keep([c], Text(s[1..], rest, line)) == Text(s, rest, line)
  {
    assert [c] + s[1..] == s;
  }

  /** Reading what was written gives back every byte, and counts the lines. */
  lemma {:induction false} ScanQuoted(s: Bytes, rest: Bytes, line: int)
    requires line + Newlines(s) < MAX_INT
    ensures Scan(QuotedBytes(s) + ([QUOTE] + rest), QUOTE, line) == Text(s, rest, line + Newlines(s))
  {
    if s == [] {
      assert QuotedBytes(s) + ([QUOTE] + rest) == [QUOTE] + rest;
      assert ([QUOTE] + rest)[1..] == rest;
    } else {
      ScanQuoted(s[1..], rest, if s[0] == NEWLINE then line + 1 else line);
      var after := QuotedBytes(s[1..]) + ([QUOTE] + rest);
      assert QuotedBytes(s) + ([QUOTE] + rest) == QuotedByte(s[0]) + after;
      QuotedStart(s[1..], rest);
      ScanByte(s[0], after, line);
      KeepOne(s[0], s, rest, line + Newlines(s));
    }
  }

  /** No line break follows at once: it would be quoted. */
  lemma QuotedStart(s: Bytes, rest: Bytes)
    ensures var after := QuotedBytes(s) + ([QUOTE] + rest); after != [] && !IsNewline(after[0])
  {
  }

  /** One quoted byte is read as that byte, whatever comes after it. */
  lemma ScanByte(c: Byte, after: Bytes, line: int)
    requires after != [] && !IsNewline(after[0]) && (c == NEWLINE ==> line + 1 < MAX_INT)
    ensures Scan(QuotedByte(c) + after, QUOTE, line)
      == Keep([c], Scan(after, QUOTE, if c == NEWLINE then line + 1 else line))
  {
    var b := QuotedByte(c) + after;
    if c == QUOTE || c == BACKSLASH || c == RETURN {
      assert b[2..] == after;
    } else if c == NEWLINE {
      assert b[1..] == [c] + after;
      assert SkipNewline(b[1..]) == after;
    } else if c == 0 {
      assert b[1..4] == [DIGIT0, DIGIT0, DIGIT0] && b[4..] == after;
      ZeroDigits(b[1..]);
    } else {
      assert b[1..] == after;
    }
  }

  lemma ZeroDigits(b: Bytes)
    requires |b| >= 3 && b[..3] == [DIGIT0, DIGIT0, DIGIT0]
    ensures DigitCount(b, 3) == 3 && DecimalValue(0, b[..3]) == 0
  {
    assert b[0] == b[..3][0] && b[1] == b[..3][1] && b[2] == b[..3][2];
    assert DigitCount(b[1..][1..], 1) == 1;
    assert b[..3][1..][1..][1..] == [];
    assert DecimalValue(0, b[..3][1..][1..]) == 0;
  }

  // ---------------------------------------------------------------- the lexer

  class LexState {
    const z: Zio
    var current: int
    var buff: Bytes
    var linenumber: int

    ghost predicate Valid()
      reads `current, z
    {
      z.Valid() && EOZ <= current < 256 && (current == EOZ ==> z.Content() == [])
    }

    /** What is still to be read, with the current byte. */
    ghost function Rest(): Bytes
      requires Valid()
      reads `current, z
    {
      if current == EOZ then [] else [current] + z.Content()
    }

    constructor (z: Zio)
      requires z.Valid()
      modifies z
      ensures Valid() && Rest() == old(z.Content()) && this.z == z && linenumber == 1
    {
      this.z := z;
      buff := [];
      linenumber := 1;
      current := EOZ;
      new;
      current := z.GetC();
    }

    method Next()
      requires Valid()
      modifies this`current, z
      ensures Valid() && Rest() == if old(Rest()) == [] then [] else old(Rest())[1..]
    {
      current := z.GetC();
    }

    method SaveAndNext()
      requires Valid() && current != EOZ
      modifies this`current, this`buff, z
      ensures Valid() && Rest() == old(Rest())[1..] && buff == old(buff) + [old(current)]
    {
      buff := buff + [current];
      Next();
    }

    method IncLineNumber() returns (ok: bool)
      requires Valid() && IsNewline(current)
      modifies this`current, this`linenumber, z
      ensures Valid() && Rest() == SkipNewline(old(Rest())) && linenumber == old(linenumber) + 1
        && (ok <==> linenumber < MAX_INT)
    {
      var was := current;
      ghost var b := Rest();
      Next();
      if IsNewline(current) && current != was {
        Next();
        assert b[1..][1..] == b[2..];
      }
      linenumber := linenumber + 1;
      ok := linenumber < MAX_INT;
    }

    /** The digits of `\ddd` */
    method ReadDigits() returns (c: int)
      requires Valid() && IsDigit(current)
      modifies this`current, z
      ensures Valid() && var k := DigitCount(old(Rest()), 3); c == DecimalValue(0, old(Rest())[..k])
                                                              && Rest() == old(Rest())[k..]
      ensures c >= 0
    {
      c := 0;
      var i := 0;
      ghost var b := Rest();
      while i < 3 && IsDigit(current)
        invariant 0 <= i <= 3 && i <= |b| && c >= 0 && Valid() && Rest() == b[i..]
        invariant DigitCount(b, 3) == i + DigitCount(b[i..], 3 - i)
        invariant DecimalValue(0, b[..i + DigitCount(b[i..], 3 - i)])
          == DecimalValue(c, b[i..i + DigitCount(b[i..], 3 - i)])
      {
        ghost var k := i + DigitCount(b[i..], 3 - i);
        assert b[i..][1..] == b[i + 1..] && b[i] == current;
        assert b[i..k][0] == b[i] && b[i..k][1..] == b[i + 1..k];
        c := 10 * c + (current - DIGIT0);
        Next();
        i := i + 1;
      }
    }

    lemma CurrentIs()
      requires Valid()
      ensures current == First(Rest())
    {
    }

    /** An escape sequence; at the end of the input there is none to save, and the caller will notice. */
    method ReadEscape(del: Byte) returns (r: Escaped)
      requires Valid() && current == BACKSLASH && !IsNewline(del) && del != BACKSLASH
      modifies this, z
      ensures Valid() && |Rest()| < |old(Rest())|
      ensures r.Saved? ==> buff == old(buff) + [r.c] && Scan(old(Rest()), del, old(linenumber))
                           == Keep([r.c], Scan(Rest(), del, linenumber))
      ensures r.AtEnd? ==> buff == old(buff) && Rest() == []
                           && Scan(old(Rest()), del, old(linenumber)) == Bad(UnfinishedString)
      ensures r.Wrong? ==> Scan(old(Rest()), del, old(linenumber)) == Bad(r.error)
    {
      hide Scan, SkipNewline, DigitCount, DecimalValue, Valid, Rest, Keep, Zio.Valid;
      ghost var b := Rest();
      ScanStep(b, del, linenumber);
      CurrentIs();
      Next();
      CurrentIs();
      var c := Escape(current);
      if c >= 0 {
        buff := buff + [c];
        Next();
        return Saved(c);
      } else if IsNewline(current) {
        buff := buff + [NEWLINE];
        SkipShorter(b[1..]);
        var ok := IncLineNumber();
        return if ok then Saved(NEWLINE) else Wrong(TooManyLines);
      } else if current == EOZ {
        return AtEnd;
      } else if !IsDigit(current) {
        c := current;
        SaveAndNext();
        return Saved(c);
      } else {
        c := ReadDigits();
        if c > UCHAR_MAX {
          return Wrong(EscapeTooLarge);
        }
        buff := buff + [c];
        return Saved(c);
      }
    }

    /** read_string: the text of a string, whose opening delimiter is the current byte */
    method ReadString(del: Byte) returns (r: Token)
      requires Valid() && current == del && !IsNewline(del) && del != BACKSLASH
      modifies this, z
      ensures var spec := Scan(old(Rest())[1..], del, old(linenumber));
              && (spec.Text? ==> r == StringToken(spec.text) && Valid() && Rest() == spec.rest
                                 && linenumber == spec.line)
              && (spec.Bad? ==> r == LexFail(spec.error))
    {
      hide Scan, Keep, Valid, Rest, Zio.Valid;
      buff := [];
      CurrentIs();
      SaveAndNext();
      CurrentIs();
      ghost var spec := Scan(Rest(), del, linenumber);
      KeepNone(spec);
      assert buff[1..] == [];
      while current != del
        invariant Valid() && |buff| >= 1 && current == First(Rest())
          && spec == Keep(buff[1..], Scan(Rest(), del, linenumber))
        decreases |Rest()|
      {
        ghost var b, text := Rest(), buff[1..];
        ScanStep(b, del, linenumber);
        KeepBad(text, Scan(b, del, linenumber));
        if current == EOZ {
          return LexFail(UnfinishedString);
        }
        if IsNewline(current) {
          return LexFail(UnfinishedString);
        }
        if current != BACKSLASH {
          SaveAndNext();
          KeepTwo(text, [b[0]], Scan(Rest(), del, linenumber));
          assert buff[1..] == text + [b[0]];
        } else {
          var e := ReadEscape(del);
          if e.Wrong? {
            return LexFail(e.error);
          }
          if e.Saved? {
            KeepTwo(text, [e.c], Scan(Rest(), del, linenumber));
            assert buff[1..] == text + [e.c];
          } else {
            ScanStep(Rest(), del, linenumber);
          }
        }
        CurrentIs();
      }
      ScanStep(Rest(), del, linenumber);
      ghost var text := buff[1..];
      SaveAndNext();
      KeepEnd(text, Rest(), linenumber);
      assert buff[1..|buff| - 1] == text;
      return StringToken(buff[1..|buff| - 1]);
    }
  }

  datatype Escaped = Saved(c: Byte) | AtEnd | Wrong(error: LexError)

  lemma KeepBad(text: Bytes, r: Scanned)
    ensures r.Bad? ==> Keep(text, r) == r
  {
  }

  datatype Token = StringToken(text: Bytes) | LexFail(error: LexError)

  lemma KeepNone(r: Scanned)
    ensures Keep([], r) == r
  {
    if r.Text? {
      assert [] + r.text == r.text;
    }
  }

  lemma KeepEnd(text: Bytes, rest: Bytes, line: int)
    ensures Keep(text, Text([], rest, line)) == Text(text, rest, line)
  {
    assert text + [] == text;
  }

  lemma KeepTwo(a: Bytes, b: Bytes, r: Scanned)
    ensures Keep(a, Keep(b, r)) == Keep(a + b, r)
  {
    if r.Text? {
      assert a + (b + r.text) == (a + b) + r.text;
    }
  }

  lemma SkipShorter(b: Bytes)
    requires b != []
    ensures |SkipNewline(b)| < |b|
  {
  }

  /** What the next byte of a string does. */
  lemma ScanStep(b: Bytes, del: Byte, line: int)
    requires !IsNewline(del) && del != BACKSLASH
    ensures b == [] || (b[0] != del && IsNewline(b[0])) ==> Scan(b, del, line) == Bad(UnfinishedString)
    ensures b != [] && b[0] == del ==> Scan(b, del, line) == Text([], b[1..], line)
    ensures b != [] && b[0] != del && !IsNewline(b[0]) && b[0] != BACKSLASH
      ==> Scan(b, del, line) == Keep([b[0]], Scan(b[1..], del, line))
    ensures b == [BACKSLASH] ==> Scan(b, del, line) == Bad(UnfinishedString)
    ensures |b| > 1 && b[0] == BACKSLASH ==>
              Scan(b, del, line) ==
              if Escape(b[1]) >= 0 then Keep([Escape(b[1])], Scan(b[1..][1..], del, line))
              else if IsNewline(b[1]) then if line + 1 >= MAX_INT then Bad(TooManyLines)
                                           else Keep([NEWLINE], Scan(SkipNewline(b[1..]), del, line + 1))
              else if !IsDigit(b[1]) then Keep([b[1]], Scan(b[1..][1..], del, line))
              else
                var k := DigitCount(b[1..], 3);
                var c := DecimalValue(0, b[1..][..k]);
                if c < 0 || c > UCHAR_MAX then Bad(EscapeTooLarge) else Keep([c], Scan(b[1..][k..], del, line))
    ensures |b| > 1 ==> DigitCount(b[1..], 3) <= |b| - 1 && (IsDigit(b[1]) ==> DigitCount(b[1..], 3) > 0)
  {
    if |b| > 1 {
      assert b[1..][1..] == b[2..];
      var k := DigitCount(b[1..], 3);
      assert b[1..][..k] == b[1..1 + k] && b[1..][k..] == b[1 + k..];
    }
    hide DecimalValue, SkipNewline;
  }

  /** What `%q` writes is read back, byte for byte. */
  method ReadBack(s: Bytes, blocks: seq<Bytes>, ghost rest: Bytes) returns (r: Token, lex: LexState)
    requires (forall i :: 0 <= i < |blocks| ==> blocks[i] != []) && Flatten(blocks) == Quoted(s) + rest
    requires 1 + Newlines(s) < MAX_INT
    ensures r == StringToken(s) && lex.Valid() && lex.Rest() == rest && lex.linenumber == 1 + Newlines(s)
  {
    hide Scan, QuotedBytes;
    var z := new Zio(blocks);
    lex := new LexState(z);
    assert (Quoted(s) + rest)[1..] == QuotedBytes(s) + ([QUOTE] + rest);
    ScanQuoted(s, rest, 1);
    assert lex.Rest()[0] == QUOTE;
    r := lex.ReadString(QUOTE);
  }
}

/**
  Quoted-printable as section 6.7 of RFC 2045 asks for it, byte by byte with a look at the next
  two, and what the filter writes: the same, with a soft line break where a text ends in doubt.
 */
module MimeQpDirect {
  import opened ByteStrings
  import opened MimeText
  import opened MimeQp
  import opened MimeQpRun
  import opened MimeQpLaws

  const HEX := "0123456789ABCDEF"
  const SMALL_HEX := "abcdef"

  predicate Printable(c: Byte) {
    '!' as int <= c <= '~' as int && c != '=' as int
  }

  predicate Space(c: Byte) {
    c == ' ' as int || c == '\t' as int
  }

  predicate Breaks(s: Bytes) {
    |s| >= 2 && s[0] == '\r' as int && s[1] == '\n' as int
  }

  /**
    CR LF is a line break; a printable byte stands for itself, and so does a space or a tab that
    at least two bytes follow, unless they are a line break; every other byte is quoted.
   */
  function Direct(s: Bytes): seq<Token> {
    if s == [] then []
    else if Breaks(s) then [HardBreak] + Direct(s[2..])
    else if Printable(s[0]) || (Space(s[0]) && |s| >= 3 && !Breaks(s[1..])) then [Literal(s[0])] + Direct(s[1..])
    else [Hex(s[0])] + Direct(s[1..])
  }

  /** The end of a text is in doubt: a CR, or a space or tab with at most one byte behind it. */
  predicate InDoubt(s: Bytes) {
    || (|s| >= 1 && (Space(s[|s| - 1]) || s[|s| - 1] == '\r' as int))
    || (|s| >= 2 && Space(s[|s| - 2]))
  }

  function Ending(s: Bytes): seq<Token> {
    if InDoubt(s) then [SoftBreak] else []
  }

  // ---------------------------------------------------------------- the tables

  /** The class of a byte, and the digits of a quoted one. */
  lemma ClassIs(c: Byte)
    ensures ClassOf(c) == QpPlain <==> Printable(c)
    ensures ClassOf(c) == QpIfLast <==> Space(c)
    ensures ClassOf(c) == QpCr <==> c == '\r' as int
  {
  }

  /** A quoted byte is `=` and its two hexadecimal digits, in capitals. */
  lemma QuotedIs(c: Byte)
    ensures TokenBytes(Hex(c), []) == ['=' as int, HEX[c / 16] as int, HEX[c % 16] as int]
  {
    DigitIs(c / 16);
    DigitIs(c % 16);
    hide HexDigit;
  }

  lemma DigitIs(n: nat)
    requires n < 16
    ensures HEX[n] as int == HexDigit(n)
  {
  }

  /** Digits are read in capitals or in small letters, and nothing else is a digit. */
  lemma UnbaseIs(c: Byte)
    ensures forall n :: 0 <= n < 16 && HEX[n] as int == c ==> Unbase(c) == n
    ensures forall n :: 0 <= n < 6 && SMALL_HEX[n] as int == c ==> Unbase(c) == 10 + n
    ensures (forall n :: 0 <= n < 16 ==> HEX[n] as int != c) && (forall n :: 0 <= n < 6 ==> SMALL_HEX[n] as int != c)
            ==> Unbase(c) == 255
  {
    forall n | 0 <= n < 16
      ensures HEX[n] as int == HexDigit(n)
    {
      DigitIs(n);
    }
    if Unbase(c) < 16 {
      assert HEX[Unbase(c)] as int == c || SMALL_HEX[Unbase(c) - 10] as int == c;
    }
  }

  // ---------------------------------------------------------------- the encoder

  /** A first byte that leaves no doubt, or has two behind it, does not change how the text ends. */
  lemma EndingFirst(x: Bytes)
    requires x != [] && !Breaks(x)
    requires |x| >= 3 || (!Space(x[0]) && (x[0] == '\r' as int ==> |x| >= 2))
    ensures Ending(x[1..]) == Ending(x)
  {
    assert |x| > 1 ==> x[1..][|x| - 2] == x[|x| - 1];
    assert |x| > 2 ==> x[1..][|x| - 3] == x[|x| - 2];
  }

  lemma EndingBreak(x: Bytes, n: nat)
    requires n <= |x| && Breaks(x[n..]) && (n == 0 || n == 1)
    ensures Ending(x[n + 2..]) == Ending(x)
  {
    var y := x[n + 2..];
    assert x[n..][0] == x[n] && x[n..][1] == x[n + 1];
    assert |y| > 0 ==> y[|y| - 1] == x[|x| - 1];
    assert |y| > 1 ==> y[|y| - 2] == x[|x| - 2];
  }

  ghost predicate Drains(q: Bytes, rest: Bytes) {
    var (ts, p) := Drain(q);
    ts + Direct(p + rest) == Direct(q + rest) && Ending(p + rest) == Ending(q + rest)
  }

  lemma DirectFirst(x: Bytes)
    requires x != [] && !Breaks(x)
    ensures Direct(x) ==
            [if Printable(x[0]) || (Space(x[0]) && |x| >= 3 && !Breaks(x[1..])) then Literal(x[0]) else Hex(x[0])]
            + Direct(x[1..])
  {
  }

  /** The first byte of `q` is written as `t`, and the rest as if it were not there. */
  lemma FirstOf(q: Bytes, rest: Bytes, t: Token)
    requires q != [] && !Breaks(q + rest)
    requires |q| >= 3 || (!Space(q[0]) && (q[0] == '\r' as int ==> |q| >= 2))
    requires t == if Printable(q[0]) || (Space(q[0]) && !Breaks(q[1..] + rest)) then Literal(q[0]) else Hex(q[0])
    ensures Direct(q + rest) == [t] + Direct(q[1..] + rest) && Ending(q + rest) == Ending(q[1..] + rest)
  {
    hide Ending, Direct, Breaks, Printable, Space;
    var x := q + rest;
    assert x[1..] == q[1..] + rest && x[0] == q[0];
    EndingFirst(x);
    DirectFirst(x);
  }

  lemma DrainsFirst(q: Bytes, rest: Bytes, t: Token)
    requires q != [] && Drain(q) == Then([t], Drain(q[1..])) && Drains(q[1..], rest)
    requires Direct(q + rest) == [t] + Direct(q[1..] + rest) && Ending(q + rest) == Ending(q[1..] + rest)
    ensures Drains(q, rest)
  {
    hide Drain, Ending, Direct;
    var (ts, p) := Drain(q[1..]);
    assert ([t] + ts) + Direct(p + rest) == [t] + (ts + Direct(p + rest));
  }

  lemma DrainsBreak(q: Bytes, rest: Bytes)
    requires Breaks(q) && |q| == 2
    ensures Drains(q, rest)
  {
    hide Ending;
    var x := q + rest;
    assert x[0..] == x && x[2..] == rest && [] + rest == rest;
    EndingBreak(x, 0);
  }

  lemma DrainsSpaceBreak(q: Bytes, rest: Bytes)
    requires |q| == 3 && Space(q[0]) && Breaks(q[1..])
    ensures Drains(q, rest)
  {
    hide Ending;
    var x := q + rest;
    assert Breaks(x[1..]) && x[1..][2..] == rest && x[3..] == rest && [] + rest == rest;
    EndingBreak(x, 1);
    assert Drain(q) == ([Hex(q[0]), HardBreak], []);
    assert Direct(x[1..]) == [HardBreak] + Direct(rest);
    assert [Hex(q[0])] + ([HardBreak] + Direct(rest)) == [Hex(q[0]), HardBreak] + Direct(rest);
  }

  lemma DrainsWait(q: Bytes, rest: Bytes)
    requires Drain(q) == ([], q)
    ensures Drains(q, rest)
  {
    assert [] + Direct(q + rest) == Direct(q + rest);
  }

  /** What is drained, and what waits, come to the same as the bytes drained. */
  lemma {:induction false} DrainDirect(q: Bytes, rest: Bytes)
    requires |q| <= 3 && (|q| == 3 ==> Space(q[0]))
    ensures Drains(q, rest)
    decreases |q|
  {
    hide Drains;
    if q == [] {
      DrainsWait(q, rest);
    } else {
      ClassIs(q[0]);
      DrainDirect(q[1..], rest);
      hide Direct;
      if Printable(q[0]) {
        FirstOf(q, rest, Literal(q[0]));
        DrainsFirst(q, rest, Literal(q[0]));
      } else if Space(q[0]) {
        if |q| < 3 {
          DrainsWait(q, rest);
        } else if Breaks(q[1..]) {
          DrainsSpaceBreak(q, rest);
        } else {
          FirstOf(q, rest, Literal(q[0]));
          DrainsFirst(q, rest, Literal(q[0]));
        }
      } else if q[0] == '\r' as int && |q| < 2 {
        DrainsWait(q, rest);
      } else if Breaks(q) {
        DrainsBreak(q, rest);
      } else {
        FirstOf(q, rest, Hex(q[0]));
        DrainsFirst(q, rest, Hex(q[0]));
      }
    }
  }

  lemma PadDirect(p: Bytes)
    requires Pending(p)
    ensures Pad(p) == Direct(p) + Ending(p)
  {
    if p != [] {
      ClassIs(p[0]);
      DirectFirst(p);
      if |p| == 2 {
        ClassIs(p[1]);
        DirectFirst(p[1..]);
        assert p[1..][1..] == [];
      } else {
        assert p[1..] == [];
      }
      DirectNone();
      hide Direct;
      assert PadBytes(p) == Direct(p);
    }
  }

  lemma DirectNone()
    ensures Direct([]) == []
  {
  }

  lemma {:induction false} EncodeDirect(p: Bytes, input: Bytes)
    requires Pending(p)
    ensures var (ts, q) := Encode(p, input); ts + Pad(q) == Direct(p + input) + Ending(p + input)
    decreases |input|
  {
    hide Drain, Direct, Ending, Pad, Space;
    if input == [] {
      assert p + input == p && [] + Pad(p) == Pad(p);
      PadDirect(p);
    } else {
      var (ts, q) := Drain(p + [input[0]]);
      DrainOk(p, input[0]);
      PendingFits(p, input[0]);
      DrainDirect(p + [input[0]], input[1..]);
      EncodeDirect(q, input[1..]);
      assert (p + [input[0]]) + input[1..] == p + input;
      var (us, r) := Encode(q, input[1..]);
      assert (ts + us) + Pad(r) == ts + (us + Pad(r));
      assert ts + (Direct(q + input[1..]) + Ending(q + input[1..])) == (ts + Direct(q + input[1..]))
        + Ending(q + input[1..]);
    }
  }

  lemma PendingFits(p: Bytes, c: Byte)
    requires Pending(p)
    ensures |p + [c]| <= 3 && (|p + [c]| == 3 ==> Space((p + [c])[0]))
  {
    if p != [] {
      ClassIs(p[0]);
    }
  }

  /** What is written of a whole text is its direct encoding, and a soft line break if the text ends in doubt. */
  lemma EncodedDirect(s: Bytes)
    ensures Encoded(s) == Direct(s) + Ending(s)
  {
    hide Encode, Direct, Ending, Pad;
    EncodeDirect([], s);
    assert [] + s == s;
  }

  /** So it is when the text is fed to the filter in chunks. */
  lemma FilterDirect(chunks: seq<Bytes>, marker: Bytes)
    requires NoNul(marker)
    ensures QpStream([], chunks, marker) == Flat(Direct(Concat(chunks)) + Ending(Concat(chunks)), marker)
  {
    hide Encode, Direct, Ending, Pad, Flat;
    QpStreamWhole([], chunks, marker);
    EncodedDirect(Concat(chunks));
  }
}

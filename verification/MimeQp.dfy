/** The quoted-printable transfer encoding (mime.c; section 6.7 of RFC 2045), fed byte by byte. */
module MimeQp {
  import opened ByteStrings

  const CR: Byte := 13
  const LF: Byte := 10
  const EQ: Byte := 61
  const CRLF: Bytes := [CR, LF]
  const EQCRLF: Bytes := [EQ, CR, LF]

  datatype Class = QpPlain | QpQuoted | QpCr | QpIfLast

  /** The table `qpclass`. */
  function ClassOf(c: Byte): Class {
    if 33 <= c <= 60 || 62 <= c <= 126 then QpPlain
    else if c == 9 || c == 32 then QpIfLast
    else if c == CR then QpCr
    else QpQuoted
  }

  /** The table `qpbase`. */
  function HexDigit(n: int): Byte
    requires 0 <= n < 16
  {
    if n < 10 then 48 + n else 55 + n
  }

  /** The table `qpunbase`. */
  function Unbase(c: Byte): int {
    if 48 <= c <= 57 then c as int - 48 else if 65 <= c <= 70 then c as int - 55
                                             else if 97 <= c <= 102 then c as int - 87 else 255
  }

  // ---------------------------------------------------------------- encoded text as tokens

  /** A byte as it is, a byte as `=XX`, a line break of the text, and one that only wraps the encoded text. */
  datatype Token = Literal(c: Byte) | Hex(c: Byte) | HardBreak | SoftBreak

  function HexBytes(c: Byte): Bytes {
    [EQ, HexDigit(c / 16), HexDigit(c % 16)]
  }

  function TokenBytes(t: Token, marker: Bytes): Bytes {
    match t
    case Literal(c) => [c]
    case Hex(c) => HexBytes(c)
    case HardBreak => marker
    case SoftBreak => EQCRLF
  }

  function Flat(ts: seq<Token>, marker: Bytes): Bytes {
    if ts == [] then [] else TokenBytes(ts[0], marker) + Flat(ts[1..], marker)
  }

  /** The text that the tokens stand for. */
  function TokenValue(t: Token): Bytes {
    match t
    case Literal(c) => [c]
    case Hex(c) => [c]
    case HardBreak => CRLF
    case SoftBreak => []
  }

  function Values(ts: seq<Token>): Bytes {
    if ts == [] then [] else TokenValue(ts[0]) + Values(ts[1..])
  }

  predicate TokenOk(t: Token) {
    t.Literal? ==> ClassOf(t.c) == QpPlain || ClassOf(t.c) == QpIfLast
  }

  predicate TokensOk(ts: seq<Token>) {
    forall i :: 0 <= i < |ts| ==> TokenOk(ts[i])
  }

  lemma {:induction false} FlatAppend(a: seq<Token>, b: seq<Token>, marker: Bytes)
    ensures Flat(a + b, marker) == Flat(a, marker) + Flat(b, marker)
  {
    hide TokenBytes;
    if a == [] {
      assert a + b == b;
      assert [] + Flat(b, marker) == Flat(b, marker);
    } else {
      FlatAppend(a[1..], b, marker);
      assert (a + b)[1..] == a[1..] + b;
      var t, u, v := TokenBytes(a[0], marker), Flat(a[1..], marker), Flat(b, marker);
      assert t + (u + v) == (t + u) + v;
    }
  }

  lemma {:induction false} ValuesAppend(a: seq<Token>, b: seq<Token>)
    ensures Values(a + b) == Values(a) + Values(b)
  {
    hide TokenValue;
    if a == [] {
      assert a + b == b;
      assert [] + Values(b) == Values(b);
    } else {
      ValuesAppend(a[1..], b);
      assert (a + b)[1..] == a[1..] + b;
      var t, u, v := TokenValue(a[0]), Values(a[1..]), Values(b);
      assert t + (u + v) == (t + u) + v;
    }
  }

  /** The text of a token before others. */
  lemma ValuesFirst(t: Token, ts: seq<Token>)
    ensures Values([t] + ts) == TokenValue(t) + Values(ts)
    ensures TokenOk(t) && TokensOk(ts) ==> TokensOk([t] + ts)
  {
    assert ([t] + ts)[1..] == ts;
  }

  lemma ValuesOne(t: Token)
    ensures Values([t]) == TokenValue(t) && (TokenOk(t) ==> TokensOk([t]))
  {
    assert [t][1..] == [];
    assert TokenValue(t) + [] == TokenValue(t);
  }

  lemma FlatOne(t: Token, marker: Bytes)
    ensures Flat([t], marker) == TokenBytes(t, marker)
  {
    assert [t][1..] == [];
    assert TokenBytes(t, marker) + [] == TokenBytes(t, marker);
  }

  // ---------------------------------------------------------------- encoding

  /** The loop of qpencode: what can be written of the waiting bytes, and what has to wait. */
  function Drain(p: Bytes): (r: (seq<Token>, Bytes))
    ensures |r.1| <= |p|
  {
    if p == [] then ([], [])
    else
      match ClassOf(p[0])
      case QpCr =>
        if |p| < 2 then ([], p) else if p[1] == LF then ([HardBreak], []) else Then([Hex(p[0])], Drain(p[1..]))
      case QpIfLast =>
        if |p| < 3 then ([], p)
        else if p[1] == CR && p[2] == LF then ([Hex(p[0]), HardBreak], [])
        else Then([Literal(p[0])], Drain(p[1..]))
      case QpQuoted => Then([Hex(p[0])], Drain(p[1..]))
      case QpPlain => Then([Literal(p[0])], Drain(p[1..]))
  }

  function Then(ts: seq<Token>, r: (seq<Token>, Bytes)): (seq<Token>, Bytes) {
    (ts + r.0, r.1)
  }

  /** The bytes that can be waiting: a CR, or a space or tab and at most one byte after it. */
  predicate Pending(p: Bytes) {
    p == [] || p == [CR] || (|p| <= 2 && ClassOf(p[0]) == QpIfLast)
  }

  predicate Drained(q: Bytes) {
    var (ts, p) := Drain(q);
    Pending(p) && TokensOk(ts) && Values(ts) + p == q
  }

  lemma DrainNone()
    ensures Drained([])
  {
  }

  /** A byte that is written at once, and what is drained after it. */
  lemma DrainFirst(q: Bytes, t: Token)
    requires q != [] && Drained(q[1..]) && TokenOk(t) && TokenValue(t) == [q[0]] && Drain(q) == Then([t], Drain(q[1..]))
    ensures Drained(q)
  {
    hide Drain, Pending;
    var (ts, p) := Drain(q[1..]);
    ValuesFirst(t, ts);
    assert [q[0]] + (Values(ts) + p) == ([q[0]] + Values(ts)) + p;
    assert [q[0]] + q[1..] == q;
  }

  lemma DrainOne(q: Bytes)
    requires |q| == 1
    ensures Drained(q)
  {
    hide Drained;
    assert q[1..] == [];
    DrainNone();
    if ClassOf(q[0]) == QpPlain {
      DrainFirst(q, Literal(q[0]));
    } else if ClassOf(q[0]) == QpQuoted {
      DrainFirst(q, Hex(q[0]));
    } else {
      DrainWaits(q);
    }
  }

  lemma DrainWaits(q: Bytes)
    requires Pending(q) && Drain(q) == ([], q)
    ensures Drained(q)
  {
    assert [] + q == q;
  }

  lemma DrainTwo(q: Bytes)
    requires |q| == 2
    ensures Drained(q)
  {
    hide Drained;
    DrainOne(q[1..]);
    if ClassOf(q[0]) == QpPlain {
      DrainFirst(q, Literal(q[0]));
    } else if ClassOf(q[0]) == QpIfLast {
      DrainWaits(q);
    } else if q[0] == CR && q[1] == LF {
      DrainBreak(q);
    } else {
      DrainFirst(q, Hex(q[0]));
    }
  }

  lemma DrainBreak(q: Bytes)
    requires |q| == 2 && q[0] == CR && q[1] == LF
    ensures Drained(q)
  {
    ValuesOne(HardBreak);
    assert q == CRLF && CRLF + [] == CRLF;
  }

  lemma DrainSpaceBreak(q: Bytes)
    requires |q| == 3 && ClassOf(q[0]) == QpIfLast && q[1] == CR && q[2] == LF
    ensures Drained(q)
  {
    ValuesOne(HardBreak);
    ValuesFirst(Hex(q[0]), [HardBreak]);
    assert [Hex(q[0])] + [HardBreak] == [Hex(q[0]), HardBreak];
    assert [q[0]] + CRLF + [] == q;
  }

  /** Nothing is lost: the text of what is written and what waits are the bytes that came in. */
  lemma DrainOk(p: Bytes, c: Byte)
    requires Pending(p)
    ensures Drained(p + [c])
  {
    hide Drained;
    var q := p + [c];
    if |q| == 3 {
      if q[1] == CR && q[2] == LF {
        DrainSpaceBreak(q);
      } else {
        DrainTwo(q[1..]);
        DrainFirst(q, Literal(q[0]));
      }
    } else if |q| == 2 {
      DrainTwo(q);
    } else {
      DrainOne(q);
    }
  }

  function Encode(p: Bytes, input: Bytes): (seq<Token>, Bytes)
    decreases |input|
  {
    if input == [] then ([], p)
    else
      var (ts, p') := Drain(p + [input[0]]);
      Then(ts, Encode(p', input[1..]))
  }

  lemma {:induction false} EncodeOk(p: Bytes, input: Bytes)
    requires Pending(p)
    ensures var (ts, p') := Encode(p, input); Pending(p') && TokensOk(ts) && Values(ts) + p' == p + input
    decreases |input|
  {
    hide Drain, Pending, Values;
    if input != [] {
      var (ts, q) := Drain(p + [input[0]]);
      DrainOk(p, input[0]);
      EncodeOk(q, input[1..]);
      var (us, p') := Encode(q, input[1..]);
      ValuesAppend(ts, us);
      assert (Values(ts) + Values(us)) + p' == Values(ts) + (Values(us) + p');
      assert Values(ts) + (q + input[1..]) == (Values(ts) + q) + input[1..];
      assert p + input == (p + [input[0]]) + input[1..];
    } else {
      assert p + input == p;
      ValuesNone();
      assert [] + p == p;
    }
  }

  lemma ValuesNone()
    ensures Values([]) == []
  {
  }

  lemma {:induction false} EncodeAppend(p: Bytes, a: Bytes, b: Bytes)
    ensures var (ts, q) := Encode(p, a); Encode(p, a + b) == Then(ts, Encode(q, b))
    decreases |a|
  {
    hide Drain;
    if a == [] {
      assert a + b == b;
      assert [] + Encode(p, b).0 == Encode(p, b).0;
    } else {
      var (ts, q) := Drain(p + [a[0]]);
      EncodeAppend(q, a[1..], b);
      assert (a + b)[1..] == a[1..] + b;
      var (us, q') := Encode(q, a[1..]);
      var vs := Encode(q', b).0;
      assert ts + (us + vs) == (ts + us) + vs;
    }
  }

  /** A remainder that is fed in again waits as it did. */
  lemma EncodeFixed(p: Bytes)
    requires Pending(p)
    ensures Encode([], p) == ([], p)
  {
    if |p| > 0 {
      var one := [p[0]];
      assert [] + one == one;
      assert Drain(one) == ([], one);
      WaitsOne([], p);
      if |p| == 2 {
        assert one + [p[1]] == p && p[1..][0] == p[1] && p[1..][1..] == [];
        assert Drain(p) == ([], p);
        WaitsOne(one, p[1..]);
      } else {
        assert p == one && p[1..] == [];
      }
    }
  }

  lemma WaitsOne(p: Bytes, input: Bytes)
    requires input != [] && Drain(p + [input[0]]) == ([], p + [input[0]])
    ensures Encode(p, input) == Encode(p + [input[0]], input[1..])
  {
    var r := Encode(p + [input[0]], input[1..]);
    assert [] + r.0 == r.0;
  }

  /** qppad: the last bytes */
  function Pad(p: Bytes): seq<Token> {
    PadBytes(p) + if p == [] then [] else [SoftBreak]
  }

  function PadBytes(p: Bytes): seq<Token> {
    if p == [] then [] else [if ClassOf(p[0]) == QpPlain then Literal(p[0]) else Hex(p[0])] + PadBytes(p[1..])
  }

  lemma {:induction false} PadBytesOk(p: Bytes)
    ensures TokensOk(PadBytes(p)) && Values(PadBytes(p)) == p
  {
    if p != [] {
      PadBytesOk(p[1..]);
      assert p == [p[0]] + p[1..];
    }
  }

  /** The encoding of a whole text. */
  function Encoded(s: Bytes): seq<Token> {
    var (ts, p) := Encode([], s);
    ts + Pad(p)
  }

  lemma EncodedOk(s: Bytes)
    ensures TokensOk(Encoded(s)) && Values(Encoded(s)) == s
  {
    hide Encode, Drain, Values, PadBytes;
    var (ts, p) := Encode([], s);
    EncodeOk([], s);
    PadOk(p);
    ValuesAppend(ts, Pad(p));
    assert [] + s == s;
  }

  lemma PadOk(p: Bytes)
    ensures TokensOk(Pad(p)) && Values(Pad(p)) == p
  {
    PadBytesOk(p);
    if p == [] {
      assert Pad(p) == [];
    } else {
      ValuesAppend(PadBytes(p), [SoftBreak]);
      ValuesOne(SoftBreak);
      assert p + [] == p;
    }
    hide PadBytes, Values;
  }

  // ---------------------------------------------------------------- decoding

  /** qpdecode: what one more byte gives, and what waits then */
  function DecodeByte(p: Bytes, c: Byte): (r: (Bytes, Bytes))
  {
    DecodeReady(p + [c])
  }

  function DecodeReady(q: Bytes): (Bytes, Bytes)
    requires q != []
  {
    if q[0] == EQ then
      if |q| < 3 then ([], q)
      else if q[1] == CR && q[2] == LF then ([], [])
      else
        var a, b := Unbase(q[1]), Unbase(q[2]);
        if a > 15 || b > 15 then (q[..3], []) else ([16 * a + b], [])
    else if q[0] == CR then
      if |q| < 2 then ([], q) else if q[1] == LF then (q[..2], []) else ([], [])
    else if q[0] == 9 || 31 < q[0] < 127 then ([q[0]], []) else ([], [])
  }

  function Decode(p: Bytes, input: Bytes): (Bytes, Bytes)
    decreases |input|
  {
    if input == [] then ([], p)
    else
      var (out, q) := DecodeByte(p, input[0]);
      var (rest, q') := Decode(q, input[1..]);
      (out + rest, q')
  }

  lemma {:induction false} DecodeAppend(p: Bytes, a: Bytes, b: Bytes)
    ensures var (out, q) := Decode(p, a); Decode(p, a + b) == (out + Decode(q, b).0, Decode(q, b).1)
    decreases |a|
  {
    hide DecodeByte;
    if a == [] {
      assert a + b == b;
      assert [] + Decode(p, b).0 == Decode(p, b).0;
    } else {
      var (out, q) := DecodeByte(p, a[0]);
      DecodeAppend(q, a[1..], b);
      assert (a + b)[1..] == a[1..] + b;
      var (rest, q') := Decode(q, a[1..]);
      assert out + (rest + Decode(q', b).0) == (out + rest) + Decode(q', b).0;
    }
  }

  lemma DecodeOne(p: Bytes, c: Byte, rest: Bytes)
    ensures var (out, q) := DecodeReady(p + [c]); Decode(p, [c] + rest) == (out + Decode(q, rest).0, Decode(q, rest).1)
  {
    assert ([c] + rest)[1..] == rest;
  }

  /** One byte that is enough. */
  lemma DecodeLast(p: Bytes, c: Byte, out: Bytes)
    requires DecodeReady(p + [c]) == (out, [])
    ensures Decode(p, [c]) == (out, [])
  {
    DecodeOne(p, c, []);
    assert [c] + [] == [c] && out + [] == out;
  }

  /** One byte that waits for more. */
  lemma DecodeWaits(p: Bytes, c: Byte, rest: Bytes)
    requires DecodeReady(p + [c]) == ([], p + [c])
    ensures Decode(p, [c] + rest) == Decode(p + [c], rest)
  {
    DecodeOne(p, c, rest);
    var r := Decode(p + [c], rest);
    assert [] + r.0 == r.0;
  }

  /** An escape: three bytes. */
  lemma DecodeEscape(b: Byte, c: Byte, out: Bytes)
    requires DecodeReady([EQ, b, c]) == (out, [])
    ensures Decode([], [EQ, b, c]) == (out, [])
  {
    assert [] + [EQ] == [EQ] && [EQ] + [b] == [EQ, b] && [EQ, b] + [c] == [EQ, b, c];
    assert [EQ] + [b, c] == [EQ, b, c] && [b] + [c] == [b, c];
    DecodeWaits([], EQ, [b, c]);
    DecodeWaits([EQ], b, [c]);
    DecodeLast([EQ, b], c, out);
  }

  lemma TokenDecodes(t: Token)
    requires TokenOk(t)
    ensures Decode([], TokenBytes(t, CRLF)) == (TokenValue(t), [])
  {
    hide Decode;
    match t {
      case Literal(c) =>
        assert [] + [c] == [c];
        DecodeLast([], c, [c]);
      case Hex(c) =>
        var a, b := HexDigit(c / 16), HexDigit(c % 16);
        assert Unbase(a) == c / 16 && Unbase(b) == c % 16 && a != CR;
        DecodeEscape(a, b, [c]);
      case HardBreak =>
        assert [] + [CR] == [CR] && [CR] + [LF] == CRLF && CRLF[..2] == CRLF;
        DecodeWaits([], CR, [LF]);
        DecodeLast([CR], LF, CRLF);
      case SoftBreak =>
        DecodeEscape(CR, LF, []);
    }
  }

  /** Tokens decode to the text they stand for, and nothing is left waiting. */
  lemma {:induction false} TokensDecode(ts: seq<Token>)
    requires TokensOk(ts)
    ensures Decode([], Flat(ts, CRLF)) == (Values(ts), [])
  {
    hide TokenBytes, TokenValue;
    if ts != [] {
      TokenDecodes(ts[0]);
      TokensDecode(ts[1..]);
      DecodeAppend([], TokenBytes(ts[0], CRLF), Flat(ts[1..], CRLF));
    }
  }

  /** Decoding undoes encoding. */
  lemma DecodeEncode(s: Bytes)
    ensures Decode([], Flat(Encoded(s), CRLF)) == (s, [])
  {
    EncodedOk(s);
    TokensDecode(Encoded(s));
  }
}

/**
  What the quoted-printable filters promise: any way of cutting the input gives the same text, and
  decoding undoes encoding.
 */
module MimeQpLaws {
  import opened ByteStrings
  import opened MimeQp
  import opened MimeQpRun
  import opened MimeText

  /** What comes out when chunks are fed one by one, the remainder of each call going into the next, and then nil. */
  function QpStream(c: Bytes, chunks: seq<Bytes>, marker: Bytes): Bytes
    decreases |chunks|
  {
    if chunks == [] then TextOf(QpCall(Str(c), Nil, marker).0)
    else
      var (a, b) := QpCall(Str(c), Str(chunks[0]), marker);
      TextOf(a) + QpStream(TextOf(b), chunks[1..], marker)
  }

  function UnqpStream(c: Bytes, chunks: seq<Bytes>): Bytes
    decreases |chunks|
  {
    if chunks == [] then TextOf(UnqpCall(Str(c), Nil).0)
    else
      var (a, b) := UnqpCall(Str(c), Str(chunks[0]));
      TextOf(a) + UnqpStream(TextOf(b), chunks[1..])
  }

  predicate NoNul(marker: Bytes) {
    forall i :: 0 <= i < |marker| ==> marker[i] != 0
  }

  lemma {:induction false} FlatStart(ts: seq<Token>, marker: Bytes)
    requires TokensOk(ts) && NoNul(marker)
    ensures !StartsWithNul(Flat(ts, marker))
  {
    if ts != [] {
      assert TokenOk(ts[0]);
      FlatStart(ts[1..], marker);
    }
  }

  /** All that is written for a text of which `p` is waiting. */
  function Whole(p: Bytes, s: Bytes, marker: Bytes): Bytes {
    var (ts, q) := Encode(p, s);
    Flat(ts + Pad(q), marker)
  }

  lemma WholeMore(p: Bytes, a: Bytes, b: Bytes, marker: Bytes)
    ensures var (ts, q) := Encode(p, a); Whole(p, a + b, marker) == Flat(ts, marker) + Whole(q, b, marker)
  {
    hide Encode, Flat, Pad;
    var (ts, q) := Encode(p, a);
    EncodeAppend(p, a, b);
    var (us, q') := Encode(q, b);
    assert (ts + us) + Pad(q') == ts + (us + Pad(q'));
    FlatAppend(ts, us + Pad(q'), marker);
  }

  /** However the text is cut into chunks, the encoder writes the encoding of the whole. */
  lemma {:induction false} QpStreamWhole(c: Bytes, chunks: seq<Bytes>, marker: Bytes)
    requires Pending(c) && NoNul(marker)
    ensures QpStream(c, chunks, marker) == Whole(c, Concat(chunks), marker)
    decreases |chunks|
  {
    hide Encode, Flat, Pad, Pending;
    EncodeFixed(c);
    if chunks == [] {
      EncodeNone(c);
      PadOk(c);
      assert [] + Pad(c) == Pad(c);
      FlatStart(Pad(c), marker);
    } else {
      var (ts, q) := Encode(c, chunks[0]);
      EncodeOk(c, chunks[0]);
      QpStreamWhole(q, chunks[1..], marker);
      WholeMore(c, chunks[0], Concat(chunks[1..]), marker);
      assert [] + ts == ts;
    }
  }

  lemma EncodeNone(p: Bytes)
    ensures Encode(p, []) == ([], p)
  {
  }

  lemma DecodeNone(p: Bytes)
    ensures Decode(p, []) == ([], p)
  {
  }

  /** A remainder that is decoded again waits as it did. */
  lemma DecodeFixed(p: Bytes)
    requires Waiting(p)
    ensures Decode([], p) == ([], p)
  {
    if |p| > 0 {
      hide Decode;
      assert [] + [p[0]] == [p[0]] && p == [p[0]] + p[1..];
      DecodeWaits([], p[0], p[1..]);
      DecodeNone(p);
      if |p| == 2 {
        assert p[1..] == [p[1]] + [] && [p[0]] + [p[1]] == p;
        DecodeWaits([p[0]], p[1], []);
      } else {
        assert p[1..] == [] && p == [p[0]];
      }
    }
  }

  /** However the encoded text is cut into chunks, the decoder gives the decoding of the whole. */
  lemma {:induction false} UnqpStreamWhole(c: Bytes, chunks: seq<Bytes>)
    requires Waiting(c)
    ensures UnqpStream(c, chunks) == Decode(c, Concat(chunks)).0
    decreases |chunks|
  {
    hide Decode, Waiting;
    DecodeFixed(c);
    DecodeNone(c);
    if chunks != [] {
      var (out, q) := Decode(c, chunks[0]);
      DecodeWaiting(c, chunks[0]);
      UnqpStreamWhole(q, chunks[1..]);
      DecodeAppend(c, chunks[0], Concat(chunks[1..]));
      assert [] + out == out;
    }
  }

  /** Encoding chunk by chunk, cutting the result in any other way and decoding that gives the text back. */
  lemma StreamsRoundTrip(chunks: seq<Bytes>, pieces: seq<Bytes>)
    requires Concat(pieces) == QpStream([], chunks, CRLF)
    ensures UnqpStream([], pieces) == Concat(chunks)
  {
    QpStreamWhole([], chunks, CRLF);
    UnqpStreamWhole([], pieces);
    DecodeEncode(Concat(chunks));
    hide Decode, Flat, Encode, Pad;
  }

  /** Decoding in one call that is also the last loses a text that starts with a zero byte, and only such a text. */
  lemma UnqpOnce(s: Bytes)
    ensures UnqpCall(Str(Flat(Encoded(s), CRLF)), Nil).0 == OrNil(s)
    ensures TextOf(UnqpCall(Str(Flat(Encoded(s), CRLF)), Nil).0) == s <==> !StartsWithNul(s)
  {
    DecodeEncode(s);
    hide Decode, Flat, Encoded;
  }

  /** For example, of the text that is one zero byte nothing is left. */
  lemma UnqpOnceLoses()
    ensures TextOf(UnqpCall(Str(Flat(Encoded([0]), CRLF)), Nil).0) != [0]
  {
    UnqpOnce([0]);
  }

  // ---------------------------------------------------------------- the form of the encoded text

  predicate IsSpace(t: Token) {
    t.Literal? && ClassOf(t.c) == QpIfLast
  }

  /** No line of the text ends in a space or tab as it is; `space` says whether one came before. */
  predicate Clean(space: bool, ts: seq<Token>)
    decreases |ts|
  {
    ts == [] || ((ts[0].HardBreak? ==> !space) && Clean(IsSpace(ts[0]), ts[1..]))
  }

  predicate EndsInSpace(space: bool, ts: seq<Token>) {
    if ts == [] then space else IsSpace(ts[|ts| - 1])
  }

  lemma {:induction false} CleanAppend(space: bool, a: seq<Token>, b: seq<Token>)
    requires Clean(space, a) && Clean(EndsInSpace(space, a), b)
    decreases |a|
    ensures Clean(space, a + b) && EndsInSpace(space, a + b) == EndsInSpace(EndsInSpace(space, a), b)
  {
    if a == [] {
      assert a + b == b;
    } else {
      CleanAppend(IsSpace(a[0]), a[1..], b);
      assert (a + b)[1..] == a[1..] + b;
    }
  }

  /** After a space that was just written, another space and a byte after it wait. */
  predicate CleanState(space: bool, p: Bytes) {
    space ==> |p| == 2
  }

  predicate DrainsClean(space: bool, q: Bytes) {
    var (ts, p) := Drain(q);
    Clean(space, ts) && CleanState(EndsInSpace(space, ts), p)
  }

  lemma DrainCleanFirst(space: bool, q: Bytes, t: Token)
    requires q != [] && !t.HardBreak? && !t.SoftBreak? && DrainsClean(IsSpace(t), q[1..])
      && Drain(q) == Then([t], Drain(q[1..]))
    ensures DrainsClean(space, q)
  {
    hide Drain;
    var (ts, p) := Drain(q[1..]);
    assert [t][1..] == [];
    CleanAppend(space, [t], ts);
  }

  lemma DrainCleanOne(q: Bytes)
    requires |q| == 1
    ensures DrainsClean(false, q)
  {
    hide DrainsClean;
    assert q[1..] == [];
    DrainCleanNone();
    if ClassOf(q[0]) == QpPlain {
      DrainCleanFirst(false, q, Literal(q[0]));
    } else if ClassOf(q[0]) == QpQuoted {
      DrainCleanFirst(false, q, Hex(q[0]));
    } else {
      DrainCleanWaits(false, q);
    }
  }

  lemma DrainCleanNone()
    ensures DrainsClean(false, [])
  {
  }

  lemma DrainCleanWaits(space: bool, q: Bytes)
    requires Drain(q) == ([], q) && CleanState(space, q)
    ensures DrainsClean(space, q)
  {
  }

  lemma DrainCleanTwo(space: bool, q: Bytes)
    requires |q| == 2 && (q == CRLF ==> !space)
    ensures DrainsClean(space, q)
  {
    hide DrainsClean;
    if ClassOf(q[0]) == QpIfLast {
      DrainCleanWaits(space, q);
    } else if q[0] == CR && q[1] == LF {
      assert q == CRLF;
      DrainCleanBreak(q);
    } else {
      DrainCleanOne(q[1..]);
      if ClassOf(q[0]) == QpPlain {
        DrainCleanFirst(space, q, Literal(q[0]));
      } else {
        DrainCleanFirst(space, q, Hex(q[0]));
      }
    }
  }

  lemma DrainCleanBreak(q: Bytes)
    requires q == CRLF
    ensures DrainsClean(false, q)
  {
    assert [HardBreak][1..] == [];
  }

  lemma DrainClean(space: bool, p: Bytes, c: Byte)
    requires Pending(p) && CleanState(space, p)
    ensures DrainsClean(space, p + [c])
  {
    var q := p + [c];
    hide DrainsClean;
    if |q| == 3 {
      if q[1] == CR && q[2] == LF {
        DrainCleanSpaceBreak(space, q);
      } else {
        DrainCleanTwo(true, q[1..]);
        DrainCleanFirst(space, q, Literal(q[0]));
      }
    } else if |q| == 2 {
      DrainCleanTwo(space, q);
    } else {
      DrainCleanOne(q);
    }
  }

  lemma DrainCleanSpaceBreak(space: bool, q: Bytes)
    requires |q| == 3 && ClassOf(q[0]) == QpIfLast && q[1] == CR && q[2] == LF
    ensures DrainsClean(space, q)
  {
    assert [Hex(q[0]), HardBreak][1..] == [HardBreak] && [HardBreak][1..] == [];
  }

  lemma {:induction false} EncodeClean(space: bool, p: Bytes, s: Bytes)
    requires Pending(p) && CleanState(space, p)
    ensures var (ts, q) := Encode(p, s); Clean(space, ts) && CleanState(EndsInSpace(space, ts), q)
    decreases |s|
  {
    hide Drain, Clean, EndsInSpace, Pending;
    if s == [] {
      NoneClean(space);
    } else {
      var (ts, q) := Drain(p + [s[0]]);
      DrainOk(p, s[0]);
      DrainClean(space, p, s[0]);
      EncodeClean(EndsInSpace(space, ts), q, s[1..]);
      CleanAppend(space, ts, Encode(q, s[1..]).0);
    }
  }

  lemma NoneClean(space: bool)
    ensures Clean(space, []) && EndsInSpace(space, []) == space
  {
  }

  lemma {:induction false} PadClean(space: bool, p: Bytes)
    ensures Clean(space, PadBytes(p)) && Clean(space, PadBytes(p) + [SoftBreak])
  {
    if p == [] {
      assert [] + [SoftBreak] == [SoftBreak] && [SoftBreak][1..] == [];
    } else {
      var t := PadBytes(p)[0];
      PadClean(IsSpace(t), p[1..]);
      assert PadBytes(p) == [t] + PadBytes(p[1..]);
      assert PadBytes(p)[1..] == PadBytes(p[1..]);
      assert (PadBytes(p) + [SoftBreak])[1..] == PadBytes(p[1..]) + [SoftBreak];
    }
  }

  /** A space or tab at the end of a line of the text is written as `=XX` (rule 3 of section 6.7 of RFC 2045). */
  lemma EncodedClean(s: Bytes)
    ensures Clean(false, Encoded(s))
  {
    hide Encode, Clean, EndsInSpace, Drain, PadBytes;
    var (ts, p) := Encode([], s);
    EncodeClean(false, [], s);
    PadClean(EndsInSpace(false, ts), p);
    if p == [] {
      PadNone();
    }
    CleanAppend(false, ts, Pad(p));
  }

  lemma PadNone()
    ensures Pad([]) == PadBytes([])
  {
  }

  /** Encoded text has only CR, LF, tab and printable characters. */
  predicate Printable(b: Byte) {
    b == CR || b == LF || b == 9 || 32 <= b <= 126
  }

  lemma {:induction false} FlatPrintable(ts: seq<Token>)
    requires TokensOk(ts)
    ensures forall i :: 0 <= i < |Flat(ts, CRLF)| ==> Printable(Flat(ts, CRLF)[i])
  {
    if ts != [] {
      assert TokenOk(ts[0]);
      FlatPrintable(ts[1..]);
      TokenPrintable(ts[0]);
    }
  }

  lemma TokenPrintable(t: Token)
    requires TokenOk(t)
    ensures forall i :: 0 <= i < |TokenBytes(t, CRLF)| ==> Printable(TokenBytes(t, CRLF)[i])
  {
  }
}

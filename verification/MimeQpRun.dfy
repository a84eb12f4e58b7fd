/** Quoted-printable as it runs (mime.c): a small array holds the waiting bytes between calls. */
module MimeQpRun {
  import opened ByteStrings
  import opened MimeQp
  import opened MimeText

  /** Output so far, and then what the tokens give. */
  function Written(b: Bytes, r: (seq<Token>, Bytes), marker: Bytes): (Bytes, Bytes) {
    (b + Flat(r.0, marker), r.1)
  }

  lemma WrittenThen(b: Bytes, t: Token, r: (seq<Token>, Bytes), marker: Bytes)
    ensures Written(b, Then([t], r), marker) == Written(b + TokenBytes(t, marker), r, marker)
  {
    FlatAppend([t], r.0, marker);
    FlatOne(t, marker);
    assert b + (TokenBytes(t, marker) + Flat(r.0, marker)) == (b + TokenBytes(t, marker)) + Flat(r.0, marker);
  }

  lemma WrittenNone(b: Bytes, p: Bytes, marker: Bytes)
    ensures Written(b, ([], p), marker) == (b, p)
  {
    assert b + [] == b;
  }

  lemma WrittenTwo(b: Bytes, t: Token, u: Token, marker: Bytes)
    ensures Written(b, ([t, u], []), marker) == (b + TokenBytes(t, marker) + TokenBytes(u, marker), [])
  {
    assert [t] + [u] == [t, u];
    FlatAppend([t], [u], marker);
    FlatOne(t, marker);
    FlatOne(u, marker);
    assert b + (TokenBytes(t, marker) + TokenBytes(u, marker)) == b + TokenBytes(t, marker) + TokenBytes(u, marker);
  }

  /** qpquote */
  function Quote(c: Byte, buffer: Bytes): Bytes {
    buffer + [EQ, HexDigit(c / 16), HexDigit(c % 16)]
  }

  /** qpencode */
  method QpEncode(c: Byte, input: array<Byte>, size0: nat, marker: Bytes, buffer: Bytes) returns (size: nat, b: Bytes)
    requires input.Length == 3 && size0 < 3
    modifies input
    ensures size <= size0 + 1 && (b, input[..size]) == Written(buffer, Drain(old(input[..size0]) + [c]), marker)
  {
    hide Drain, Flat, Written;
    size, b := size0, buffer;
    ghost var q := input[..size] + [c];
    input[size] := c;
    size := size + 1;
    assert input[..size] == q;
    while size > 0
      invariant size <= size0 + 1 && Written(buffer, Drain(q), marker) == Written(b, Drain(input[..size]), marker)
    {
      ghost var p := input[..size];
      DrainIs(p);
      var c0 := input[0];
      if ClassOf(c0) == QpCr {
        if size < 2 {
          WrittenNone(b, p, marker);
          return;
        }
        if input[1] == LF {
          WrittenThen(b, HardBreak, ([], []), marker);
          WrittenNone(b + marker, [], marker);
          return 0, b + marker;
        }
        WrittenThen(b, Hex(c0), Drain(p[1..]), marker);
        b := Quote(c0, b);
      } else if ClassOf(c0) == QpIfLast {
        if size < 3 {
          WrittenNone(b, p, marker);
          return;
        }
        if input[1] == CR && input[2] == LF {
          WrittenTwo(b, Hex(c0), HardBreak, marker);
          return 0, Quote(c0, b) + marker;
        }
        WrittenThen(b, Literal(c0), Drain(p[1..]), marker);
        b := b + [c0];
      } else if ClassOf(c0) == QpQuoted {
        WrittenThen(b, Hex(c0), Drain(p[1..]), marker);
        b := Quote(c0, b);
      } else {
        WrittenThen(b, Literal(c0), Drain(p[1..]), marker);
        b := b + [c0];
      }
      input[0], input[1] := input[1], input[2];
      size := size - 1;
      assert input[..size] == p[1..];
    }
    DrainIs([]);
    WrittenNone(b, [], marker);
    assert input[..0] == [];
  }

  lemma DrainIs(p: Bytes)
    ensures p == [] ==> Drain(p) == ([], [])
    ensures p != [] && ClassOf(p[0]) == QpCr ==>
              Drain(p) == if |p| < 2 then ([], p) else if p[1] == LF then Then([HardBreak], ([], []))
                                                       else Then([Hex(p[0])], Drain(p[1..]))
    ensures p != [] && ClassOf(p[0]) == QpIfLast ==>
              Drain(p) == if |p| < 3 then ([], p) else if p[1] == CR
                                                       && p[2] == LF then ([Hex(p[0]), HardBreak], [])
                                                       else Then([Literal(p[0])], Drain(p[1..]))
    ensures p != [] && ClassOf(p[0]) == QpQuoted ==> Drain(p) == Then([Hex(p[0])], Drain(p[1..]))
    ensures p != [] && ClassOf(p[0]) == QpPlain ==> Drain(p) == Then([Literal(p[0])], Drain(p[1..]))
  {
    assert [HardBreak] + [] == [HardBreak];
  }

  /** qppad */
  method QpPad(input: array<Byte>, size: nat, buffer: Bytes, ghost marker: Bytes) returns (b: Bytes)
    requires size <= input.Length
    ensures b == buffer + Flat(Pad(input[..size]), marker)
  {
    b := buffer;
    var i := 0;
    ghost var p := input[..size];
    assert buffer + [] == buffer;
    while i < size
      invariant 0 <= i <= size && buffer + Flat(PadBytes(p), marker) == b + Flat(PadBytes(p[i..]), marker)
    {
      var c := input[i];
      ghost var t := if ClassOf(c) == QpPlain then Literal(c) else Hex(c);
      assert p[i] == c && p[i..][1..] == p[i + 1..];
      assert PadBytes(p[i..]) == [t] + PadBytes(p[i + 1..]);
      WrittenThen(b, t, (PadBytes(p[i + 1..]), []), marker);
      if ClassOf(c) == QpPlain {
        b := b + [c];
      } else {
        b := Quote(c, b);
      }
      i := i + 1;
    }
    assert p[size..] == [] && b + [] == b;
    FlatAppend(PadBytes(p), if p == [] then [] else [SoftBreak], marker);
    FlatOne(SoftBreak, marker);
    if size > 0 {
      ghost var pads := Flat(PadBytes(p), marker);
      assert buffer + (pads + EQCRLF) == (buffer + pads) + EQCRLF;
      b := b + EQCRLF;
    } else {
      assert Flat(PadBytes(p), marker) + [] == Flat(PadBytes(p), marker);
    }
  }

  /** Feed a string to the encoder. */
  method QpFeed(s: Bytes, input: array<Byte>, size0: nat, marker: Bytes, buffer: Bytes) returns (size: nat, b: Bytes)
    requires input.Length == 3 && size0 <= 2 && Pending(input[..size0])
    modifies input
    ensures size <= 2 && Pending(input[..size]) && (b, input[..size])
      == Written(buffer, Encode(old(input[..size0]), s), marker)
  {
    hide Drain, Flat, Pending;
    size, b := size0, buffer;
    var i := 0;
    ghost var p0 := input[..size0];
    assert s[0..] == s;
    while i < |s|
      invariant 0 <= i <= |s| && size <= 2 && Pending(input[..size])
      invariant Written(buffer, Encode(p0, s), marker) == Written(b, Encode(input[..size], s[i..]), marker)
    {
      ghost var p, b0 := input[..size], b;
      DrainOk(p, s[i]);
      size, b := QpEncode(s[i], input, size, marker, b);
      PendingSize(input[..size]);
      assert s[i..][0] == s[i] && s[i..][1..] == s[i + 1..];
      FeedStep(b0, Drain(p + [s[i]]), Encode(input[..size], s[i + 1..]), marker, b, input[..size]);
      i := i + 1;
    }
    assert s[|s|..] == [];
    WrittenNone(b, input[..size], marker);
  }

  lemma PendingSize(p: Bytes)
    requires Pending(p)
    ensures |p| <= 2
  {
  }

  lemma FeedStep(b0: Bytes, d: (seq<Token>, Bytes), r: (seq<Token>, Bytes), marker: Bytes, b: Bytes, p: Bytes)
    requires (b, p) == Written(b0, d, marker)
    ensures Written(b0, Then(d.0, r), marker) == Written(b, r, marker)
  {
    FlatAppend(d.0, r.0, marker);
    assert b0 + (Flat(d.0, marker) + Flat(r.0, marker)) == (b0 + Flat(d.0, marker)) + Flat(r.0, marker);
  }

  predicate StartsWithNul(s: Bytes) {
    s != [] && s[0] == 0
  }

  /** A result that is tested as a C string: it counts as empty if its first byte is zero. */
  function OrNil(s: Bytes): Text {
    if s == [] || s[0] == 0 then Nil else Str(s)
  }

  /** mime_global_qp */
  function QpCall(c: Text, d: Text, marker: Bytes): (Text, Text) {
    if c.Nil? then (Nil, Nil)
    else
      var (ts, p) := Encode([], c.s);
      if d.Nil? then (OrNil(Flat(ts + Pad(p), marker)), Nil)
      else
        var (us, q) := Encode(p, d.s);
        (Str(Flat(ts + us, marker)), Str(q))
  }

  method GlobalQp(c: Text, d: Text, marker: Bytes) returns (a: Text, rest: Text)
    ensures (a, rest) == QpCall(c, d, marker)
  {
    hide Drain, Encode, Flat, Pad;
    if c.Nil? {
      return Nil, Nil;
    }
    var atom := new Byte[3](_ => 0);
    assert atom[..0] == [];
    var asize, buffer := QpFeed(c.s, atom, 0, marker, []);
    ghost var (ts, p) := Encode([], c.s);
    assert buffer == Flat(ts, marker);
    if d.Nil? {
      buffer := QpPad(atom, asize, buffer, marker);
      FlatAppend(ts, Pad(p), marker);
      return if buffer == [] || buffer[0] == 0 then Nil else Str(buffer), Nil;
    }
    asize, buffer := QpFeed(d.s, atom, asize, marker, buffer);
    FlatAppend(ts, Encode(p, d.s).0, marker);
    return Str(buffer), Str(atom[..asize]);
  }

  /** qpdecode */
  method QpDecode(c: Byte, input: array<Byte>, size0: nat, buffer: Bytes) returns (size: nat, b: Bytes)
    requires input.Length == 3 && size0 < 3
    modifies input
    ensures var (out, p) := DecodeByte(old(input[..size0]), c); size <= size0 + 1 && b == buffer + out
                                                                && input[..size] == p
  {
    ghost var q := input[..size0] + [c];
    input[size0] := c;
    size := size0 + 1;
    assert input[..size] == q && buffer + [] == buffer;
    assert input[..0] == [];
    if input[0] == EQ {
      if size < 3 {
        return size, buffer;
      }
      if input[1] == CR && input[2] == LF {
        return 0, buffer;
      }
      var x, y := Unbase(input[1]), Unbase(input[2]);
      if x > 15 || y > 15 {
        return 0, buffer + input[..3];
      }
      return 0, buffer + [16 * x + y];
    } else if input[0] == CR {
      if size < 2 {
        return size, buffer;
      }
      if input[1] == LF {
        assert q[..2] == input[..2];
        return 0, buffer + input[..2];
      }
      return 0, buffer;
    } else {
      if input[0] == 9 || 31 < input[0] < 127 {
        return 0, buffer + [input[0]];
      }
      return 0, buffer;
    }
  }

  /** The bytes that can be waiting to be decoded. */
  predicate Waiting(p: Bytes) {
    |p| <= 2 && (p != [] ==> p[0] == EQ || (p[0] == CR && |p| == 1))
  }

  lemma DecodeByteWaits(p: Bytes, c: Byte)
    requires Waiting(p)
    ensures Waiting(DecodeByte(p, c).1)
  {
  }

  lemma {:induction false} DecodeWaiting(p: Bytes, s: Bytes)
    requires Waiting(p)
    ensures Waiting(Decode(p, s).1)
    decreases |s|
  {
    if s != [] {
      DecodeByteWaits(p, s[0]);
      DecodeWaiting(DecodeByte(p, s[0]).1, s[1..]);
    }
  }

  method UnqpFeed(s: Bytes, input: array<Byte>, size0: nat, buffer: Bytes) returns (size: nat, b: Bytes)
    requires input.Length == 3 && size0 <= 2 && Waiting(input[..size0])
    modifies input
    ensures var (out, p) := Decode(old(input[..size0]), s); size <= 2 && b == buffer + out && input[..size] == p
  {
    hide DecodeByte;
    size, b := size0, buffer;
    var i := 0;
    ghost var p0 := input[..size0];
    assert s[0..] == s;
    while i < |s|
      invariant 0 <= i <= |s| && size <= 2 && Waiting(input[..size])
      invariant Decode(p0, s).1 == Decode(input[..size], s[i..]).1
        && buffer + Decode(p0, s).0 == b + Decode(input[..size], s[i..]).0
    {
      ghost var p, b0 := input[..size], b;
      DecodeByteWaits(p, s[i]);
      size, b := QpDecode(s[i], input, size, b);
      assert s[i..][0] == s[i] && s[i..][1..] == s[i + 1..];
      ghost var r := Decode(input[..size], s[i + 1..]).0;
      assert b0 + (DecodeByte(p, s[i]).0 + r) == (b0 + DecodeByte(p, s[i]).0) + r;
      i := i + 1;
    }
    assert s[|s|..] == [] && b + [] == b;
  }

  /** mime_global_unqp */
  function UnqpCall(c: Text, d: Text): (Text, Text) {
    if c.Nil? then (Nil, Nil)
    else
      var (out, p) := Decode([], c.s);
      if d.Nil? then (OrNil(out), Nil)
      else
        var (out', q) := Decode(p, d.s);
        (Str(out + out'), Str(q))
  }

  method GlobalUnqp(c: Text, d: Text) returns (a: Text, rest: Text)
    ensures (a, rest) == UnqpCall(c, d)
  {
    hide Decode;
    if c.Nil? {
      return Nil, Nil;
    }
    var atom := new Byte[3](_ => 0);
    assert atom[..0] == [];
    DecodeWaiting([], c.s);
    var asize, buffer := UnqpFeed(c.s, atom, 0, []);
    assert [] + Decode([], c.s).0 == Decode([], c.s).0;
    if d.Nil? {
      return if buffer == [] || buffer[0] == 0 then Nil else Str(buffer), Nil;
    }
    asize, buffer := UnqpFeed(d.s, atom, asize, buffer);
    return Str(buffer), Str(atom[..asize]);
  }
}

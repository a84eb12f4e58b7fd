/** The Base64 transfer encoding (mime.c; section 6.8 of RFC 2045), fed byte by byte. */
module MimeB64 {
  import opened ByteStrings
  import opened MimeText

  const PAD: Byte := 61

  /** The table `b64base`: A-Z, a-z, 0-9, + and /. */
  function Base(n: int): Byte
    requires 0 <= n < 64
  {
    if n < 26 then 65 + n else if n < 52 then 71 + n else if n < 62 then n - 4 else if n == 62 then 43 else 47
  }

  /** The table `b64unbase`: 255 for a byte that is not part of the encoding. */
  function Unbase(c: Byte): (n: int)
    ensures 0 <= n < 64 || n == 255
  {
    if 65 <= c <= 90 then c as int - 65
    else if 97 <= c <= 122 then c as int - 71
    else if 48 <= c <= 57 then c as int + 4
    else if c == 43 then 62 else if c == 47 then 63 else if c == PAD then 0 else 255
  }

  lemma UnbaseBase(n: int)
    requires 0 <= n < 64
    ensures Unbase(Base(n)) == n && Base(n) != PAD
  {
  }

  // ---------------------------------------------------------------- atoms

  /** Three bytes as four digits of six bits. */
  function Digits(a: Byte, b: Byte, c: Byte): (int, int, int, int) {
    var v := (a * 256 + b) * 256 + c;
    (v / 0x4_0000, v / 0x1000 % 64, v / 64 % 64, v % 64)
  }

  lemma DigitsFit(a: Byte, b: Byte, c: Byte)
    ensures var (w, x, y, z) := Digits(a, b, c);
            0 <= w < 64 && 0 <= x < 64 && 0 <= y < 64 && 0 <= z < 64
              && ((w * 64 + x) * 64 + y) * 64 + z == (a * 256 + b) * 256 + c
  {
    var v := (a * 256 + b) * 256 + c;
    Parts(v);
  }

  lemma Parts(v: int)
    requires 0 <= v < 0x100_0000
    ensures v / 0x1000 % 64 + 64 * (v / 0x4_0000) == v / 0x1000 && v / 64 % 64 + 64 * (v / 0x1000) == v / 64
      && v % 64 + 64 * (v / 64) == v
    ensures 0 <= v / 0x4_0000 < 64
  {
    assert v / 64 / 64 == v / 0x1000;
    assert v / 0x1000 / 64 == v / 0x4_0000;
  }

  function EncodeAtom(a: Byte, b: Byte, c: Byte): (r: Bytes)
    ensures |r| == 4
  {
    DigitsFit(a, b, c);
    var (w, x, y, z) := Digits(a, b, c);
    [Base(w), Base(x), Base(y), Base(z)]
  }

  /** The bytes of four digits, the last ones left out if they are padding. */
  function DecodeAtom(q: Bytes): Bytes
    requires |q| == 4 && forall i :: 0 <= i < 4 ==> Unbase(q[i]) < 64
  {
    var v := ((Unbase(q[0]) * 64 + Unbase(q[1])) * 64 + Unbase(q[2])) * 64 + Unbase(q[3]);
    var all: Bytes := [v / 0x1_0000 % 256, v / 256 % 256, v % 256];
    if q[2] == PAD then all[..1] else if q[3] == PAD then all[..2] else all
  }

  lemma AtomBack(a: Byte, b: Byte, c: Byte)
    ensures forall i :: 0 <= i < 4 ==> Unbase(EncodeAtom(a, b, c)[i]) < 64
    ensures DecodeAtom(EncodeAtom(a, b, c)) == [a, b, c]
  {
    DigitsFit(a, b, c);
    var (w, x, y, z) := Digits(a, b, c);
    UnbaseBase(w);
    UnbaseBase(x);
    UnbaseBase(y);
    UnbaseBase(z);
    Bytes3(a, b, c);
    hide Base, Unbase, Digits;
  }

  lemma Bytes3(a: Byte, b: Byte, c: Byte)
    ensures var v := (a * 256 + b) * 256 + c; v / 0x1_0000 % 256 == a && v / 256 % 256 == b && v % 256 == c
  {
    var v := (a * 256 + b) * 256 + c;
    assert v / 256 == a * 256 + b;
    assert v / 0x1_0000 == v / 256 / 256;
  }

  // ---------------------------------------------------------------- encoding

  /** b64encode: what one more byte gives, and what waits then */
  function EncodeByte(p: Bytes, c: Byte): (r: (Bytes, Bytes))
    requires |p| <= 2
    ensures |r.1| <= 2
  {
    if |p| == 2 then (EncodeAtom(p[0], p[1], c), []) else ([], p + [c])
  }

  /** b64pad */
  function Pad(p: Bytes): Bytes
    requires |p| <= 2
  {
    if |p| == 1 then
      var v := p[0] as int * 16;
      [Base(v / 64), Base(v % 64), PAD, PAD]
    else if |p| == 2 then
      var v := (p[0] as int * 256 + p[1]) * 4;
      assert v / 0x1000 < 64;
      [Base(v / 0x1000), Base(v / 64 % 64), Base(v % 64), PAD]
    else []
  }

  function Encode(p: Bytes, s: Bytes): (r: (Bytes, Bytes))
    requires |p| <= 2
    ensures |r.1| <= 2
    decreases |s|
  {
    if s == [] then ([], p)
    else
      var (out, q) := EncodeByte(p, s[0]);
      var (rest, q') := Encode(q, s[1..]);
      (out + rest, q')
  }

  function Encoded(s: Bytes): Bytes {
    var (out, p) := Encode([], s);
    out + Pad(p)
  }

  // ---------------------------------------------------------------- decoding

  predicate InAlphabet(c: Byte) {
    Unbase(c) <= 64
  }

  /** The bytes that can be waiting to be decoded. */
  predicate Waiting(p: Bytes) {
    |p| <= 3 && forall i :: 0 <= i < |p| ==> InAlphabet(p[i])
  }

  /** b64decode: a byte that is not part of the encoding is ignored */
  function DecodeByte(p: Bytes, c: Byte): (r: (Bytes, Bytes))
    requires Waiting(p)
    ensures Waiting(r.1)
  {
    if !InAlphabet(c) then ([], p) else if |p| == 3 then (DecodeAtom(p + [c]), []) else ([], p + [c])
  }

  function Decode(p: Bytes, s: Bytes): (r: (Bytes, Bytes))
    requires Waiting(p)
    ensures Waiting(r.1)
    decreases |s|
  {
    if s == [] then ([], p)
    else
      var (out, q) := DecodeByte(p, s[0]);
      var (rest, q') := Decode(q, s[1..]);
      (out + rest, q')
  }

  lemma {:induction false} EncodeAppend(p: Bytes, a: Bytes, b: Bytes)
    requires |p| <= 2
    ensures var (out, q) := Encode(p, a); Encode(p, a + b) == (out + Encode(q, b).0, Encode(q, b).1)
    decreases |a|
  {
    if a == [] {
      assert a + b == b;
      assert [] + Encode(p, b).0 == Encode(p, b).0;
    } else {
      var (out, q) := EncodeByte(p, a[0]);
      EncodeAppend(q, a[1..], b);
      assert (a + b)[1..] == a[1..] + b;
      var (rest, q') := Encode(q, a[1..]);
      assert out + (rest + Encode(q', b).0) == (out + rest) + Encode(q', b).0;
    }
  }

  lemma {:induction false} DecodeAppend(p: Bytes, a: Bytes, b: Bytes)
    requires Waiting(p)
    ensures var (out, q) := Decode(p, a); Decode(p, a + b) == (out + Decode(q, b).0, Decode(q, b).1)
    decreases |a|
  {
    hide DecodeAtom, Waiting;
    if a == [] {
      assert a + b == b;
      assert [] + Decode(p, b).0 == Decode(p, b).0;
    } else {
      var (out, q) := DecodeByte(p, a[0]);
      DecodeAppend(q, a[1..], b);
      assert (a + b)[1..] == a[1..] + b;
      var (rest, q') := Decode(q, a[1..]);
      assert out + (rest + Decode(q', b).0) == (out + rest) + Decode(q', b).0;
    }
  }

  /** Four bytes of the encoding. */
  lemma DecodeFour(q: Bytes)
    requires |q| == 4 && forall i :: 0 <= i < 4 ==> Unbase(q[i]) < 64
    ensures Decode([], q) == (DecodeAtom(q), [])
  {
    hide DecodeAtom, Unbase;
    var a, b, c, d := q[0], q[1], q[2], q[3];
    assert [] + [a] == [a] && [a] + [b] == [a, b] && [a, b] + [c] == [a, b, c] && [a, b, c] + [d] == q;
    assert q[1..] == [b, c, d] && [b, c, d][1..] == [c, d] && [c, d][1..] == [d] && [d][1..] == [];
    var out := DecodeAtom(q);
    assert out + [] == out && [] + out == out;
    assert Decode([], []) == ([], []);
    assert Decode([a, b, c], [d]) == (out, []);
    assert Decode([a, b], [c, d]) == ([] + out, []);
    assert Decode([a], [b, c, d]) == ([] + out, []);
  }

  lemma PadOne(a: Byte)
    ensures var v := a as int * 16;
            0 <= v / 64 < 64 && ((v / 64 * 64 + v % 64) * 64 + 0) * 64 + 0 == (a as int * 256 + 0) * 256 + 0
  {
  }

  lemma PadTwo(a: Byte, b: Byte)
    ensures var v := (a as int * 256 + b) * 4;
            0 <= v / 0x1000 < 64 && ((v / 0x1000 * 64 + v / 64 % 64) * 64 + v % 64) * 64
              + 0 == (a as int * 256 + b) * 256 + 0
  {
    var v := (a as int * 256 + b) * 4;
    assert v / 64 / 64 == v / 0x1000;
  }

  lemma PadBack(p: Bytes)
    requires |p| <= 2
    ensures Decode([], Pad(p)) == (p, [])
  {
    hide Decode;
    if |p| == 1 {
      var v := p[0] as int * 16;
      PadOne(p[0]);
      PadDecodes(v / 64, v % 64, 0, Pad(p), p[0], 0);
      assert [p[0]] == p;
    } else if |p| == 2 {
      var v := (p[0] as int * 256 + p[1]) * 4;
      PadTwo(p[0], p[1]);
      PadDecodes(v / 0x1000, v / 64 % 64, v % 64, Pad(p), p[0], p[1]);
      assert [p[0], p[1]] == p;
    } else {
      DecodeNone();
      assert p == [];
    }
  }

  /** A padded atom: three digits at most, and one or two bytes. */
  lemma PadDecodes(w: int, x: int, y: int, q: Bytes, a: Byte, b: Byte)
    requires 0 <= w < 64 && 0 <= x < 64 && 0 <= y < 64 && |q| == 4 && q[0] == Base(w) && q[1] == Base(x) && q[3] == PAD
    requires (q[2] == PAD && y == 0 && b == 0) || q[2] == Base(y)
    requires ((w * 64 + x) * 64 + y) * 64 + 0 == (a as int * 256 + b) * 256 + 0
    ensures Decode([], q) == (if q[2] == PAD then [a] else [a, b], [])
  {
    UnbaseBase(w);
    UnbaseBase(x);
    UnbaseBase(y);
    Bytes3(a, b, 0);
    hide Base;
    assert Unbase(PAD) == 0;
    DecodeFour(q);
    hide Unbase, Decode;
    var v: int := ((w * 64 + x) * 64 + y) * 64 + 0;
    var all: Bytes := [v / 0x1_0000 % 256, v / 256 % 256, v % 256];
    assert all[..1] == [a] && all[..2] == [a, b];
  }

  predicate Lossless(p: Bytes, s: Bytes)
    requires |p| <= 2
  {
    var (out, q) := Encode(p, s);
    Decode([], out).1 == [] && Decode([], out).0 + q == p + s
  }

  /** One byte more, of which `out` was written and `q` waits. */
  lemma LosslessStep(p: Bytes, s: Bytes)
    requires |p| <= 2 && s != [] && Lossless(EncodeByte(p, s[0]).1, s[1..])
    ensures Lossless(p, s)
  {
    hide EncodeAtom, Decode;
    var (out, q) := EncodeByte(p, s[0]);
    var (rest, q') := Encode(q, s[1..]);
    var t := Decode([], rest).0;
    DecodeAppend([], out, rest);
    assert p + s == (p + [s[0]]) + s[1..];
    if |p| == 2 {
      AtomIn(p[0], p[1], s[0]);
      Joined(p + [s[0]], t, q', s[1..]);
      assert p + [s[0]] == [p[0], p[1], s[0]] && [] + s[1..] == s[1..];
    } else {
      DecodeNone();
      assert [] + t == t;
    }
  }

  lemma Joined(u: Bytes, t: Bytes, q: Bytes, s: Bytes)
    requires t + q == s
    ensures (u + t) + q == u + s
  {
    assert (u + t) + q == u + (t + q);
  }

  /** Nothing is lost: what is written and what waits are the bytes that came in. */
  lemma {:induction false} EncodeOk(p: Bytes, s: Bytes)
    requires |p| <= 2
    ensures Lossless(p, s)
    decreases |s|
  {
    if s == [] {
      DecodeNone();
      assert [] + p == p + [];
    } else {
      hide Lossless, EncodeByte;
      EncodeOk(EncodeByte(p, s[0]).1, s[1..]);
      LosslessStep(p, s);
    }
  }

  lemma AtomIn(a: Byte, b: Byte, c: Byte)
    ensures Decode([], EncodeAtom(a, b, c)) == ([a, b, c], [])
  {
    AtomBack(a, b, c);
    DecodeFour(EncodeAtom(a, b, c));
  }

  lemma DecodeNone()
    ensures Decode([], []) == ([], [])
  {
  }

  /** Decoding undoes encoding. */
  lemma DecodeEncode(s: Bytes)
    ensures Decode([], Encoded(s)) == (s, [])
  {
    hide Encode, Decode, Pad;
    var (out, p) := Encode([], s);
    EncodeOk([], s);
    PadBack(p);
    DecodeAppend([], out, Pad(p));
    assert [] + s == s;
  }

  /** The bytes of a text that are part of the encoding. */
  function Alphabetic(s: Bytes): Bytes {
    if s == [] then [] else if InAlphabet(s[0]) then [s[0]] + Alphabetic(s[1..]) else Alphabetic(s[1..])
  }

  /** Line breaks, and any other byte outside the alphabet, make no difference. */
  lemma {:induction false} DecodeIgnores(p: Bytes, s: Bytes)
    requires Waiting(p)
    ensures Decode(p, s) == Decode(p, Alphabetic(s))
    decreases |s|
  {
    hide DecodeAtom, Waiting, InAlphabet;
    if s != [] {
      var (out, q) := DecodeByte(p, s[0]);
      DecodeIgnores(q, s[1..]);
      if InAlphabet(s[0]) {
        assert ([s[0]] + Alphabetic(s[1..]))[1..] == Alphabetic(s[1..]);
      } else {
        var r := Decode(p, s[1..]);
        assert [] + r.0 == r.0;
      }
    }
  }

  /** The encoding as a mail carries it, broken into lines in any way. */
  lemma DecodeBroken(s: Bytes, text: Bytes)
    requires Alphabetic(text) == Encoded(s)
    ensures Decode([], text) == (s, [])
  {
    DecodeIgnores([], text);
    DecodeEncode(s);
  }

  /** Four bytes for each three, and four for what is left. */
  lemma {:induction false} EncodeLength(p: Bytes, s: Bytes)
    requires |p| <= 2
    ensures var (out, q) := Encode(p, s); |out| == 4 * ((|p| + |s|) / 3) && |q| == (|p| + |s|) % 3
    decreases |s|
  {
    if s != [] {
      var (out, q) := EncodeByte(p, s[0]);
      EncodeLength(q, s[1..]);
      assert |Encode(p, s).0| == |out| + |Encode(q, s[1..]).0|;
    }
    hide EncodeAtom;
  }

  // ---------------------------------------------------------------- calls

  function OrNil(s: Bytes): Text {
    if s == [] then Nil else Str(s)
  }

  /** mime_global_b64 */
  function B64Call(c: Text, d: Text): (Text, Text) {
    if c.Nil? then (Nil, Nil)
    else
      var (out, p) := Encode([], c.s);
      if d.Nil? then (OrNil(out + Pad(p)), Nil)
      else
        var (out', q) := Encode(p, d.s);
        (Str(out + out'), Str(q))
  }

  /** mime_global_unb64 */
  function Unb64Call(c: Text, d: Text): (Text, Text) {
    if c.Nil? then (Nil, Nil)
    else
      var (out, p) := Decode([], c.s);
      if d.Nil? then (OrNil(out), Nil)
      else
        var (out', q) := Decode(p, d.s);
        (Str(out + out'), Str(q))
  }

  function B64Stream(c: Bytes, chunks: seq<Bytes>): Bytes
    decreases |chunks|
  {
    if chunks == [] then TextOf(B64Call(Str(c), Nil).0)
    else
      var (a, b) := B64Call(Str(c), Str(chunks[0]));
      TextOf(a) + B64Stream(TextOf(b), chunks[1..])
  }

  function Unb64Stream(c: Bytes, chunks: seq<Bytes>): Bytes
    decreases |chunks|
  {
    if chunks == [] then TextOf(Unb64Call(Str(c), Nil).0)
    else
      var (a, b) := Unb64Call(Str(c), Str(chunks[0]));
      TextOf(a) + Unb64Stream(TextOf(b), chunks[1..])
  }

  /** A remainder that is fed in again waits as it did. */
  lemma EncodeFixed(p: Bytes)
    requires |p| <= 2
    ensures Encode([], p) == ([], p)
  {
    EncodeNone(p);
    if |p| > 0 {
      EncodeWaits([], p[0], p[1..]);
      assert [p[0]] + p[1..] == p && [] + [p[0]] == [p[0]];
      if |p| == 2 {
        EncodeWaits([p[0]], p[1], []);
        assert [p[1]] + [] == p[1..] && [p[0]] + [p[1]] == p;
      } else {
        assert p[1..] == [] && [p[0]] == p;
      }
    }
  }

  lemma EncodeWaits(p: Bytes, c: Byte, rest: Bytes)
    requires |p| < 2
    ensures Encode(p, [c] + rest) == Encode(p + [c], rest)
  {
    assert ([c] + rest)[1..] == rest;
    var r := Encode(p + [c], rest);
    assert [] + r.0 == r.0;
  }

  lemma {:induction false} DecodeFixed(p: Bytes, n: nat)
    requires Waiting(p) && n <= |p|
    ensures Decode(p[..n], p[n..]) == ([], p)
    decreases |p| - n
  {
    hide DecodeAtom, InAlphabet;
    if n < |p| {
      DecodeFixed(p, n + 1);
      assert p[..n] + [p[n]] == p[..n + 1] && p[n..][0] == p[n] && p[n..][1..] == p[n + 1..];
      var none: Bytes := [];
      assert none + none == none;
    } else {
      assert p[..n] == p && p[n..] == [];
    }
  }

  /** However the text is cut into chunks, the encoder writes the encoding of the whole. */
  lemma {:induction false} B64StreamWhole(c: Bytes, chunks: seq<Bytes>)
    requires |c| <= 2
    ensures var (out, p) := Encode(c, Concat(chunks)); B64Stream(c, chunks) == out + Pad(p)
    decreases |chunks|
  {
    hide Encode, Pad;
    EncodeFixed(c);
    if chunks == [] {
      EncodeAppend([], c, []);
      EncodeNone(c);
    } else {
      var (out, q) := Encode(c, chunks[0]);
      B64StreamWhole(q, chunks[1..]);
      EncodeAppend(c, chunks[0], Concat(chunks[1..]));
      var (rest, p) := Encode(q, Concat(chunks[1..]));
      assert [] + out == out;
      assert out + (rest + Pad(p)) == (out + rest) + Pad(p);
    }
  }

  lemma EncodeNone(c: Bytes)
    requires |c| <= 2
    ensures Encode(c, []) == ([], c)
  {
  }

  /** However the encoded text is cut into chunks, the decoder gives the decoding of the whole. */
  lemma {:induction false} Unb64StreamWhole(c: Bytes, chunks: seq<Bytes>)
    requires Waiting(c)
    ensures Unb64Stream(c, chunks) == Decode(c, Concat(chunks)).0
    decreases |chunks|
  {
    hide Decode, Waiting;
    assert c[..0] == [] && c[0..] == c && c[..|c|] == c && c[|c|..] == [];
    DecodeFixed(c, 0);
    DecodeFixed(c, |c|);
    if chunks != [] {
      var (out, q) := Decode(c, chunks[0]);
      Unb64StreamWhole(q, chunks[1..]);
      DecodeAppend(c, chunks[0], Concat(chunks[1..]));
      assert [] + out == out;
    }
  }

  /**
    Encoding chunk by chunk, cutting and breaking the result in any other way and decoding that
    gives the text back.
   */
  lemma StreamsRoundTrip(chunks: seq<Bytes>, pieces: seq<Bytes>)
    requires Alphabetic(Concat(pieces)) == B64Stream([], chunks)
    ensures Unb64Stream([], pieces) == Concat(chunks)
  {
    hide Decode, Encode, Pad, Alphabetic;
    B64StreamWhole([], chunks);
    Unb64StreamWhole([], pieces);
    DecodeBroken(Concat(chunks), Concat(pieces));
  }

  // ---------------------------------------------------------------- the filters as they run

  method B64Encode(c: Byte, input: array<Byte>, size0: nat, buffer: Bytes) returns (size: nat, b: Bytes)
    requires input.Length == 3 && size0 <= 2
    modifies input
    ensures size <= 2
    ensures var (out, p) := EncodeByte(old(input[..size0]), c); b == buffer + out && input[..size] == p
  {
    hide Digits;
    ghost var p := input[..size0];
    input[size0] := c;
    size, b := size0 + 1, buffer;
    assert input[..size] == p + [c] && buffer + [] == buffer;
    if size == 3 {
      DigitsFit(input[0], input[1], input[2]);
      ShiftsAre(input[0], input[1], input[2]);
      var value: int := input[0];
      value := value * 256 + input[1];
      value := value * 256 + input[2];
      var code := new Byte[4](_ => 0);
      code[3] := Base(value % 64);
      value := value / 64;
      code[2] := Base(value % 64);
      value := value / 64;
      code[1] := Base(value % 64);
      value := value / 64;
      code[0] := Base(value);
      assert code[..] == EncodeAtom(p[0], p[1], c);
      b := b + code[..];
      size := 0;
      assert input[..0] == [];
    }
  }

  lemma ShiftsAre(a: Byte, b: Byte, c: Byte)
    ensures var v := (a as int * 256 + b) * 256 + c;
            Digits(a, b, c) == (v / 64 / 64 / 64, v / 64 / 64 % 64, v / 64 % 64, v % 64)
  {
    var v := (a as int * 256 + b) * 256 + c;
    Quotients(v);
  }

  lemma Quotients(v: nat)
    ensures v / 64 / 64 == v / 0x1000 && v / 64 / 64 / 64 == v / 0x4_0000
  {
  }

  method B64Pad(input: array<Byte>, size: nat, buffer: Bytes) returns (b: Bytes)
    requires input.Length == 3 && size <= 2
    ensures b == buffer + Pad(input[..size])
  {
    b := buffer;
    assert buffer + [] == buffer;
    var code := new Byte[4](_ => PAD);
    if size == 1 {
      var value := input[0] as int * 16;
      PadOne(input[0]);
      code[1] := Base(value % 64);
      value := value / 64;
      code[0] := Base(value);
      assert code[..] == Pad(input[..1]);
      b := b + code[..];
    } else if size == 2 {
      var value: int := input[0];
      value := value * 256;
      value := (value + input[1]) * 4;
      PadTwo(input[0], input[1]);
      assert value / 64 / 64 == value / 0x1000;
      code[2] := Base(value % 64);
      value := value / 64;
      code[1] := Base(value % 64);
      value := value / 64;
      code[0] := Base(value);
      assert code[..] == Pad(input[..2]);
      b := b + code[..];
    }
  }

  method B64Decode(c: Byte, input: array<Byte>, size0: nat, buffer: Bytes) returns (size: nat, b: Bytes)
    requires input.Length == 4 && size0 <= 3 && Waiting(input[..size0])
    modifies input
    ensures size <= 3
    ensures var (out, p) := DecodeByte(old(input[..size0]), c); b == buffer + out && input[..size] == p
  {
    ghost var p := input[..size0];
    assert buffer + [] == buffer;
    if Unbase(c) > 64 {
      return size0, buffer;
    }
    ghost var q := p + [c];
    assert forall i :: 0 <= i < |q| ==> InAlphabet(q[i]);
    input[size0] := c;
    size, b := size0 + 1, buffer;
    assert input[..size] == q;
    if size == 4 {
      assert forall i :: 0 <= i < 4 ==> q[i] == input[i];
      hide Unbase;
      var value: int := Unbase(input[0]);
      value := value * 64 + Unbase(input[1]);
      value := value * 64 + Unbase(input[2]);
      value := value * 64 + Unbase(input[3]);
      var decoded := new Byte[3](_ => 0);
      decoded[2] := value % 256;
      assert value / 256 / 256 == value / 0x1_0000;
      value := value / 256;
      decoded[1] := value % 256;
      value := value / 256;
      decoded[0] := value % 256;
      var valid := if input[2] == PAD then 1 else if input[3] == PAD then 2 else 3;
      assert decoded[..valid] == DecodeAtom(q);
      assert input[..0] == [];
      return 0, b + decoded[..valid];
    }
  }

  method B64Feed(s: Bytes, input: array<Byte>, size0: nat, buffer: Bytes) returns (size: nat, b: Bytes)
    requires input.Length == 3 && size0 <= 2
    modifies input
    ensures size <= 2
    ensures var (out, p) := Encode(old(input[..size0]), s); b == buffer + out && input[..size] == p
  {
    hide EncodeAtom;
    size, b := size0, buffer;
    var i := 0;
    ghost var p0 := input[..size0];
    assert s[0..] == s;
    while i < |s|
      invariant 0 <= i <= |s| && size <= 2
      invariant Encode(p0, s).1 == Encode(input[..size], s[i..]).1
        && buffer + Encode(p0, s).0 == b + Encode(input[..size], s[i..]).0
    {
      ghost var p, b0 := input[..size], b;
      size, b := B64Encode(s[i], input, size, b);
      assert s[i..][0] == s[i] && s[i..][1..] == s[i + 1..];
      ghost var r := Encode(input[..size], s[i + 1..]).0;
      assert b0 + (EncodeByte(p, s[i]).0 + r) == (b0 + EncodeByte(p, s[i]).0) + r;
      i := i + 1;
    }
    assert s[|s|..] == [] && b + [] == b;
  }

  method Unb64Feed(s: Bytes, input: array<Byte>, size0: nat, buffer: Bytes) returns (size: nat, b: Bytes)
    requires input.Length == 4 && size0 <= 3 && Waiting(input[..size0])
    modifies input
    ensures size <= 3
    ensures var (out, p) := Decode(old(input[..size0]), s); b == buffer + out && input[..size] == p
  {
    hide DecodeAtom;
    size, b := size0, buffer;
    var i := 0;
    ghost var p0 := input[..size0];
    assert s[0..] == s;
    while i < |s|
      invariant 0 <= i <= |s| && size <= 3 && Waiting(input[..size])
      invariant Decode(p0, s).1 == Decode(input[..size], s[i..]).1
        && buffer + Decode(p0, s).0 == b + Decode(input[..size], s[i..]).0
    {
      ghost var p, b0 := input[..size], b;
      size, b := B64Decode(s[i], input, size, b);
      assert s[i..][0] == s[i] && s[i..][1..] == s[i + 1..];
      ghost var r := Decode(input[..size], s[i + 1..]).0;
      assert b0 + (DecodeByte(p, s[i]).0 + r) == (b0 + DecodeByte(p, s[i]).0) + r;
      i := i + 1;
    }
    assert s[|s|..] == [] && b + [] == b;
  }

  method GlobalB64(c: Text, d: Text) returns (a: Text, rest: Text)
    ensures (a, rest) == B64Call(c, d)
  {
    hide Encode, Pad;
    if c.Nil? {
      return Nil, Nil;
    }
    var atom := new Byte[3](_ => 0);
    assert atom[..0] == [];
    var asize, buffer := B64Feed(c.s, atom, 0, []);
    assert [] + Encode([], c.s).0 == Encode([], c.s).0;
    if d.Nil? {
      buffer := B64Pad(atom, asize, buffer);
      return if |buffer| == 0 then Nil else Str(buffer), Nil;
    }
    asize, buffer := B64Feed(d.s, atom, asize, buffer);
    return Str(buffer), Str(atom[..asize]);
  }

  method GlobalUnb64(c: Text, d: Text) returns (a: Text, rest: Text)
    ensures (a, rest) == Unb64Call(c, d)
  {
    hide Decode;
    if c.Nil? {
      return Nil, Nil;
    }
    var atom := new Byte[4](_ => 0);
    assert atom[..0] == [];
    var asize, buffer := Unb64Feed(c.s, atom, 0, []);
    assert [] + Decode([], c.s).0 == Decode([], c.s).0;
    if d.Nil? {
      return if |buffer| == 0 then Nil else Str(buffer), Nil;
    }
    asize, buffer := Unb64Feed(d.s, atom, asize, buffer);
    return Str(buffer), Str(atom[..asize]);
  }
}

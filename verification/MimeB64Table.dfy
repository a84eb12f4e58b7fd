/**
  Base64 as section 6.8 of RFC 2045 gives it, by the printed table of its alphabet: what is
  written is, digit by digit, the character for each group of six bits of the text.
 */
module MimeB64Table {
  import opened ByteStrings
  import opened MimeText
  import opened MimeB64

  const CAPITALS := "ABCDEFGHIJKLMNOPQRSTUVWXYZ"
  const SMALL := "abcdefghijklmnopqrstuvwxyz"
  const NUMERALS := "0123456789"

  /** The 64 characters of the alphabet, in the order of their values. */
  const ALPHABET := CAPITALS + SMALL + NUMERALS + "+/"

  /** The character for a digit. */
  ghost predicate Prints(c: Byte, n: int) {
    0 <= n < |ALPHABET| && ALPHABET[n] as int == c
  }

  predicate IsPad(c: Byte) {
    c == '=' as int
  }

  lemma LettersAre(n: nat)
    requires n < 26
    ensures |CAPITALS| == 26 && CAPITALS[n] as int == 65 + n && |SMALL| == 26 && SMALL[n] as int == 97 + n
  {
  }

  lemma NumeralsAre(n: nat)
    requires n < 10
    ensures |NUMERALS| == 10 && NUMERALS[n] as int == 48 + n
  {
  }

  lemma BasePrints(n: nat)
    requires n < 64
    ensures |ALPHABET| == 64 && Prints(Base(n), n)
  {
    hide CAPITALS, SMALL, NUMERALS;
    LettersAre(if n < 26 then n else if n < 52 then n - 26 else 0);
    NumeralsAre(if 52 <= n < 62 then n - 52 else 0);
    assert n < 26 ==> ALPHABET[n] == CAPITALS[n];
    assert 26 <= n < 52 ==> ALPHABET[n] == SMALL[n - 26];
    assert 52 <= n < 62 ==> ALPHABET[n] == NUMERALS[n - 52];
  }

  lemma UnbasePrints(c: Byte, n: int)
    ensures Prints(c, n) ==> Unbase(c) == n && !IsPad(c)
    ensures 0 <= Unbase(c) < 64 && !IsPad(c) ==> Prints(c, Unbase(c))
    ensures IsPad(c) ==> Unbase(c) == 0
  {
    if Prints(c, n) {
      BasePrints(n);
      UnbaseBase(n);
    }
    if 0 <= Unbase(c) < 64 && !IsPad(c) {
      assert c == Base(Unbase(c));
      BasePrints(Unbase(c));
    }
  }

  // ---------------------------------------------------------------- encoding

  /** The byte at `i`, or zero past the end. */
  function OrZero(s: Bytes, i: nat): int {
    if i < |s| then s[i] else 0
  }

  /** The six bits at place `j`: of each three bytes the most significant bits come first. */
  function Group(s: Bytes, j: nat): int {
    var t := 3 * (j / 4);
    var v := (OrZero(s, t) * 256 + OrZero(s, t + 1)) * 256 + OrZero(s, t + 2);
    match j % 4
    case 0 => v / 0x4_0000
    case 1 => v / 0x1000 % 64
    case 2 => v / 64 % 64
    case _ => v % 64
  }

  /**
    `out` is the encoding of `s`: four characters for each three bytes begun; the first ones, as
    many as there are groups with bits of the text, are printed digits, and the others padding.
   */
  ghost predicate IsEncoding(s: Bytes, out: Bytes) {
    && |out| == 4 * ((|s| + 2) / 3)
    && forall j :: 0 <= j < |out| ==> if 6 * j < 8 * |s| then Prints(out[j], Group(s, j)) else IsPad(out[j])
  }

  lemma GroupFits(s: Bytes, j: nat)
    ensures 0 <= Group(s, j) < 64
  {
    var t := 3 * (j / 4);
    var v := (OrZero(s, t) * 256 + OrZero(s, t + 1)) * 256 + OrZero(s, t + 2);
    Parts(v);
  }

  lemma AtomPrints(a: Byte, b: Byte, c: Byte, j: nat)
    requires j < 4
    ensures Prints(EncodeAtom(a, b, c)[j], Group([a, b, c], j))
  {
    DigitsFit(a, b, c);
    GroupFits([a, b, c], j);
    BasePrints(Group([a, b, c], j));
    hide Base, Prints;
  }

  lemma OneByte(a: Byte)
    ensures var v, w := a as int * 16, (a as int * 256 + 0) * 256 + 0;
            w / 0x4_0000 == v / 64 && w / 0x1000 % 64 == v % 64 && 0 <= v / 64 < 64
  {
  }

  lemma TwoBytes(a: Byte, b: Byte)
    ensures var v, w := (a as int * 256 + b) * 4, (a as int * 256 + b) * 256 + 0;
            w / 0x4_0000 == v / 0x1000 && w / 0x1000 == v / 64 && w / 64 == v && 0 <= v / 0x1000 < 64
  {
  }

  lemma PadPrints(s: Bytes)
    requires |s| <= 2
    ensures IsEncoding(s, Pad(s))
  {
    hide Base, Prints, Pad;
    if |s| == 1 {
      OnePrints(s);
      FirstPads(s);
    } else if |s| == 2 {
      TwoPrints(s);
      FirstPads(s);
    } else {
      NoPad();
    }
  }

  lemma NoPad()
    ensures Pad([]) == []
  {
  }

  lemma OnePrints(s: Bytes)
    requires |s| == 1
    ensures |Pad(s)| == 4 && Prints(Pad(s)[0], Group(s, 0)) && Prints(Pad(s)[1], Group(s, 1)) && IsPad(Pad(s)[2])
      && IsPad(Pad(s)[3])
  {
    hide Base, Prints;
    OneByte(s[0]);
    GroupFits(s, 1);
    BasePrints(Group(s, 0));
    BasePrints(Group(s, 1));
  }

  lemma TwoGroups(s: Bytes)
    requires |s| == 2
    ensures var v := (s[0] as int * 256 + s[1]) * 4;
            Group(s, 0) == v / 0x1000 && Group(s, 1) == v / 64 % 64 && Group(s, 2) == v % 64
    ensures forall j: nat :: j < 3 ==> 0 <= Group(s, j) < 64
  {
    TwoBytes(s[0], s[1]);
  }

  lemma TwoPrints(s: Bytes)
    requires |s| == 2
    ensures |Pad(s)| == 4 && Prints(Pad(s)[0], Group(s, 0)) && Prints(Pad(s)[1], Group(s, 1))
      && Prints(Pad(s)[2], Group(s, 2)) && IsPad(Pad(s)[3])
  {
    hide Base, Prints, Group;
    TwoGroups(s);
    BasePrints(Group(s, 0));
    BasePrints(Group(s, 1));
    BasePrints(Group(s, 2));
  }

  lemma FirstPads(s: Bytes)
    requires 1 <= |s| <= 2 && |Pad(s)| == 4 && Prints(Pad(s)[0], Group(s, 0)) && Prints(Pad(s)[1], Group(s, 1))
    requires if |s| == 1 then IsPad(Pad(s)[2]) else Prints(Pad(s)[2], Group(s, 2))
    requires IsPad(Pad(s)[3])
    ensures IsEncoding(s, Pad(s))
  {
    hide Base, Prints, Group;
    forall j | 0 <= j < 4
      ensures if 6 * j < 8 * |s| then Prints(Pad(s)[j], Group(s, j)) else IsPad(Pad(s)[j])
    {
      assert j == 0 || j == 1 || j == 2 || j == 3;
    }
  }

  lemma EncodedThree(s: Bytes)
    requires |s| >= 3
    ensures Encoded(s) == EncodeAtom(s[0], s[1], s[2]) + Encoded(s[3..])
  {
    hide EncodeAtom, Pad;
    var atom := EncodeAtom(s[0], s[1], s[2]);
    assert s == [s[0], s[1], s[2]] + s[3..];
    EncodeAppend([], [s[0], s[1], s[2]], s[3..]);
    AtomEncoded(s[0], s[1], s[2]);
    hide Encode;
  }

  lemma AtomEncoded(a: Byte, b: Byte, c: Byte)
    ensures Encode([], [a, b, c]) == (EncodeAtom(a, b, c), [])
  {
    hide EncodeAtom;
    var atom := EncodeAtom(a, b, c);
    EncodeWaits([], a, [b, c]);
    EncodeWaits([a], b, [c]);
    assert [a] + [b, c] == [a, b, c] && [b] + [c] == [b, c] && [] + [a] == [a] && [a] + [b] == [a, b];
    EncodeNone([]);
    assert [c][1..] == [] && atom + [] == atom;
    assert Encode([a, b], [c]) == (atom, []);
  }

  lemma GroupNext(s: Bytes, j: nat)
    requires |s| >= 3
    ensures j < 4 ==> Group(s, j) == Group([s[0], s[1], s[2]], j)
    ensures j >= 4 ==> Group(s, j) == Group(s[3..], j - 4)
  {
  }

  /** What is written is the encoding of RFC 2045, for every text. */
  lemma {:induction false} EncodedPrints(s: Bytes)
    ensures IsEncoding(s, Encoded(s))
    decreases |s|
  {
    if |s| <= 2 {
      EncodeFixed(s);
      PadPrints(s);
      assert [] + Pad(s) == Pad(s);
    } else {
      EncodedThree(s);
      EncodedPrints(s[3..]);
      hide Encoded, Group, Prints;
      forall j | 0 <= j < |Encoded(s)|
        ensures if 6 * j < 8 * |s| then Prints(Encoded(s)[j], Group(s, j)) else IsPad(Encoded(s)[j])
      {
        GroupNext(s, j);
        if j < 4 {
          AtomPrints(s[0], s[1], s[2], j);
        } else {
          assert Encoded(s)[j] == Encoded(s[3..])[j - 4];
        }
      }
    }
  }

  // ---------------------------------------------------------------- decoding

  /** What a character stands for: its place in the alphabet, and nothing if it is padding. */
  ghost predicate Stands(c: Byte, n: int) {
    Prints(c, n) || (IsPad(c) && n == 0)
  }

  ghost predicate Known(c: Byte) {
    exists n :: Stands(c, n)
  }

  /** The characters of the alphabet and the padding; all others are passed over. */
  ghost function Kept(s: Bytes): Bytes {
    if s == [] then [] else (if Known(s[0]) then [s[0]] else []) + Kept(s[1..])
  }

  lemma StandsAlphabet(c: Byte, n: int)
    ensures Stands(c, n) ==> Unbase(c) == n && 0 <= n < 64
    ensures InAlphabet(c) ==> Stands(c, Unbase(c))
  {
    UnbasePrints(c, n);
    UnbasePrints(c, Unbase(c));
    if Prints(c, n) {
      BasePrints(0);
    }
    hide Unbase, Prints;
  }

  /** A byte that is neither in the alphabet nor padding is passed over. */
  lemma {:induction false} KeptIs(s: Bytes)
    ensures Alphabetic(s) == Kept(s)
  {
    hide Unbase, Stands;
    if s != [] {
      KeptIs(s[1..]);
      forall n
        ensures Stands(s[0], n) ==> Unbase(s[0]) == n && 0 <= n < 64
      {
        StandsAlphabet(s[0], n);
      }
      StandsAlphabet(s[0], 0);
    }
  }

  /** The bytes of four digits, most significant bits first; padding in place 2 or 3 leaves one or two bytes. */
  ghost predicate IsDecoding(q: Bytes, n: seq<int>, out: Bytes)
    requires |q| == |n| == 4
  {
    var v := ((n[0] * 64 + n[1]) * 64 + n[2]) * 64 + n[3];
    && |out| == (if IsPad(q[2]) then 1 else if IsPad(q[3]) then 2 else 3)
    && out[0] == v / 0x1_0000 % 256
    && (|out| > 1 ==> out[1] == v / 256 % 256)
    && (|out| > 2 ==> out[2] == v % 256)
  }

  /** Four characters that stand for digits are decoded to their bytes, and decoding goes on behind them. */
  lemma DecodeGroup(q: Bytes, n: seq<int>, rest: Bytes) returns (out: Bytes)
    requires |q| == |n| == 4 && forall i :: 0 <= i < 4 ==> Stands(q[i], n[i])
    ensures IsDecoding(q, n, out)
    ensures Decode([], q + rest) == (out + Decode([], rest).0, Decode([], rest).1)
  {
    hide Stands, Unbase, Decode;
    forall i | 0 <= i < 4
      ensures Unbase(q[i]) == n[i] && 0 <= n[i] < 64
    {
      StandsAlphabet(q[i], n[i]);
    }
    out := DecodeAtom(q);
    DecodeFour(q);
    DecodeAppend([], q, rest);
  }

  /** Four characters are decoded to `out`. */
  ghost predicate IsAtom(q: Bytes, out: Bytes) {
    |q| == 4 && exists n: seq<int> :: |n| == 4 && (forall i :: 0 <= i < 4 ==> Stands(q[i], n[i]))
                                      && IsDecoding(q, n, out)
  }

  /** The characters `k`, four at a time, are decoded to `out`, and `rest` waits. */
  ghost predicate Decoding(k: Bytes, out: Bytes, rest: Bytes)
    decreases |k|
  {
    if |k| < 4 then out == [] && rest == k
    else exists m :: 0 <= m <= |out| && IsAtom(k[..4], out[..m]) && Decoding(k[4..], out[m..], rest)
  }

  ghost predicate AllStand(k: Bytes) {
    forall i :: 0 <= i < |k| ==> Known(k[i])
  }

  lemma {:induction false} KeptStand(s: Bytes)
    ensures AllStand(Kept(s))
  {
    hide Known;
    if s != [] {
      KeptStand(s[1..]);
    }
  }

  lemma FourStand(q: Bytes) returns (n: seq<int>)
    requires |q| == 4 && AllStand(q)
    ensures |n| == 4 && forall i :: 0 <= i < 4 ==> Stands(q[i], n[i])
  {
    hide Stands;
    assert Known(q[0]) && Known(q[1]) && Known(q[2]) && Known(q[3]);
    var n0 :| Stands(q[0], n0);
    var n1 :| Stands(q[1], n1);
    var n2 :| Stands(q[2], n2);
    var n3 :| Stands(q[3], n3);
    n := [n0, n1, n2, n3];
  }

  lemma {:induction false} KeptDecodes(k: Bytes)
    requires AllStand(k)
    ensures Decoding(k, Decode([], k).0, Decode([], k).1)
    decreases |k|
  {
    hide Stands, Decode, IsDecoding;
    if |k| < 4 {
      forall i | 0 <= i < |k|
        ensures InAlphabet(k[i])
      {
        assert Known(k[i]);
        var n :| Stands(k[i], n);
        StandsAlphabet(k[i], n);
      }
      DecodeFixed(k, 0);
      assert k[..0] == [] && k[0..] == k;
    } else {
      assert forall i :: 0 <= i < 4 ==> k[..4][i] == k[i];
      assert forall i :: 0 <= i < |k| - 4 ==> k[4..][i] == k[i + 4];
      var n := FourStand(k[..4]);
      var o := DecodeGroup(k[..4], n, k[4..]);
      assert k == k[..4] + k[4..];
      KeptDecodes(k[4..]);
      var out := Decode([], k).0;
      assert out[..|o|] == o && out[|o|..] == Decode([], k[4..]).0;
      assert IsAtom(k[..4], out[..|o|]);
    }
  }

  /** Every text is decoded so: what is no part of the encoding is passed over, the rest is taken four by four. */
  lemma DecodedIs(s: Bytes)
    ensures Decoding(Kept(s), Decode([], s).0, Decode([], s).1)
  {
    hide Decode, Decoding, AllStand, Kept;
    KeptIs(s);
    DecodeIgnores([], s);
    KeptStand(s);
    KeptDecodes(Kept(s));
  }

  // ---------------------------------------------------------------- the filters

  /** Fed a text in chunks, the filter `b64` writes its encoding, and the filter `unb64` its decoding. */
  lemma FiltersPrint(chunks: seq<Bytes>)
    ensures IsEncoding(Concat(chunks), B64Stream([], chunks))
    ensures exists rest :: Decoding(Kept(Concat(chunks)), Unb64Stream([], chunks), rest)
  {
    hide Encode, Pad, Decode, Decoding, Kept, IsEncoding;
    B64StreamWhole([], chunks);
    EncodedPrints(Concat(chunks));
    Unb64StreamWhole([], chunks);
    DecodedIs(Concat(chunks));
  }
}

/**
 * UTF-8 as StreamWriter and StreamReader use it (the encoding of section 3.9 of
 * the Unicode Standard). Encoding is exact. Decoding is exact on well-formed input;
 * an ill-formed sequence is replaced by one U+FFFD for each maximal subpart, the
 * practice section 3.9 of the Unicode Standard recommends (the longest start of a well-formed sequence that is there,
 * or a single byte when no well-formed sequence starts with it).
 */
module Utf8Codec {
  import opened Basics

  const ReplacementChar: char := '\U{FFFD}'
  const ByteOrderMark: char := '\U{FEFF}'
  /** The UTF-8 form of U+FEFF, which StreamReader strips from the start of its input. */
  const Preamble: seq<byte> := [0xEF, 0xBB, 0xBF]

  predicate IsContinuation(b: byte) { 0x80 <= b <= 0xBF }

  /** The bytes of one scalar value. */
  function EncodeChar(c: char): (r: seq<byte>)
    ensures 1 <= |r| <= 4
    ensures |r| == 1 <==> c as int < 0x80
  {
    var cp := c as int;
    if cp < 0x80 then [cp]
    else if cp < 0x800 then [0xC0 + cp / 64, 0x80 + cp % 64]
    else if cp < 0x1_0000 then [0xE0 + cp / 4096, 0x80 + (cp / 64) % 64, 0x80 + cp % 64]
    else [0xF0 + cp / 262144, 0x80 + (cp / 4096) % 64, 0x80 + (cp / 64) % 64, 0x80 + cp % 64]
  }

  /** Encoding.UTF8.GetBytes, without a preamble. */
  function Encode(s: string): (r: seq<byte>)
    ensures |r| >= |s|
  {
    if s == [] then [] else EncodeChar(s[0]) + Encode(s[1..])
  }

  /** The number of bytes of the well-formed sequence that the lead byte b0 starts; 0 when none does. */
  function SequenceLength(b0: byte): nat
  {
    if b0 < 0x80 then 1
    else if 0xC2 <= b0 <= 0xDF then 2
    else if 0xE0 <= b0 <= 0xEF then 3
    else if 0xF0 <= b0 <= 0xF4 then 4
    else 0
  }

  /** The range of the second byte after the lead byte b0 (table 3-7 of the Unicode Standard). */
  predicate SecondByteFits(b0: byte, b1: byte)
  {
    IsContinuation(b1)
    && (b0 != 0xE0 || b1 >= 0xA0) && (b0 != 0xED || b1 <= 0x9F)
    && (b0 != 0xF0 || b1 >= 0x90) && (b0 != 0xF4 || b1 <= 0x8F)
  }

  /**
   * The length of the maximal subpart at the front of b: how many bytes of a
   * well-formed sequence are present before the first byte that cannot continue it.
   */
  function SubpartLength(b: seq<byte>): (n: nat)
    requires |b| > 0
    ensures 1 <= n <= |b|
    ensures n <= SequenceLength(b[0]) || n == 1
    ensures n >= 2 ==> SecondByteFits(b[0], b[1])
    ensures forall i :: 2 <= i < n ==> IsContinuation(b[i])
    ensures n < SequenceLength(b[0]) && n < |b| ==>
      if n == 1 then !SecondByteFits(b[0], b[1]) else !IsContinuation(b[n])
  {
    var need := SequenceLength(b[0]);
    if need <= 1 || |b| < 2 || !SecondByteFits(b[0], b[1]) then 1
    else if need == 2 || |b| < 3 || !IsContinuation(b[2]) then 2
    else if need == 3 || |b| < 4 || !IsContinuation(b[3]) then 3
    else 4
  }

  /** The scalar value at the front of b and the number of bytes it takes. */
  function DecodeChar(b: seq<byte>): (r: (char, nat))
    requires |b| > 0
    ensures 1 <= r.1 <= |b|
  {
    var b0: int := b[0];
    if b0 < 0x80 then (b0 as char, 1)
    else if 0xC2 <= b0 <= 0xDF && |b| >= 2 && IsContinuation(b[1]) then
      (((b0 - 0xC0) * 64 + (b[1] as int - 0x80)) as char, 2)
    else if 0xE0 <= b0 <= 0xEF && |b| >= 3 && IsContinuation(b[1]) && IsContinuation(b[2])
      && (b0 != 0xE0 || b[1] >= 0xA0) && (b0 != 0xED || b[1] <= 0x9F) then
      (((b0 - 0xE0) * 4096 + (b[1] as int - 0x80) * 64 + (b[2] as int - 0x80)) as char, 3)
    else if 0xF0 <= b0 <= 0xF4 && |b| >= 4 && IsContinuation(b[1]) && IsContinuation(b[2]) && IsContinuation(b[3])
      && (b0 != 0xF0 || b[1] >= 0x90) && (b0 != 0xF4 || b[1] <= 0x8F) then
      (((b0 - 0xF0) * 262144 + (b[1] as int - 0x80) * 4096 + (b[2] as int - 0x80) * 64 + (b[3] as int - 0x80)) as char, 4)
    else (ReplacementChar, SubpartLength(b))
  }

  /**
   * A well-formed sequence at the front is decoded whole; otherwise one U+FFFD
   * stands for the maximal subpart, which never swallows a byte that could begin
   * a new character.
   */
  lemma DecodeCharConsumes(b: seq<byte>)
    requires |b| > 0
    ensures DecodeChar(b).1 == SubpartLength(b)
    ensures SubpartLength(b) < SequenceLength(b[0]) || SequenceLength(b[0]) == 0 ==> DecodeChar(b).0 == ReplacementChar
    ensures forall i :: 1 <= i < DecodeChar(b).1 ==> IsContinuation(b[i])
  {
  }

  /** A truncated three-byte sequence becomes a single U+FFFD, and the ASCII byte after it survives. */
  lemma TruncatedSequenceIsOneReplacement()
    ensures Decode([0xE2, 0x82, 0x41]) == [ReplacementChar, 'A']
  {
    var b: seq<byte> := [0xE2, 0x82, 0x41];
    assert SubpartLength(b) == 2;
    assert DecodeChar(b) == (ReplacementChar, 2);
    assert b[2..] == [0x41];
    assert DecodeChar([0x41]) == ('A', 1);
    assert Decode([0x41]) == "A";
  }

  /** Encoding.UTF8.GetString. */
  function Decode(b: seq<byte>): string
    decreases |b|
  {
    if b == [] then "" else var (c, n) := DecodeChar(b); [c] + Decode(b[n..])
  }

  /** StreamReader.ReadToEnd over UTF-8: a leading preamble is not part of the text. */
  function ReadText(b: seq<byte>): string
  {
    if |b| >= 3 && b[..3] == Preamble then Decode(b[3..]) else Decode(b)
  }

  /** The decoder reads back exactly the character the encoder wrote, whatever follows it. */
  lemma DecodeEncodeChar(c: char, rest: seq<byte>)
    ensures DecodeChar(EncodeChar(c) + rest) == (c, |EncodeChar(c)|)
  {
    var cp := c as int;
    if cp < 0x80 {
    } else if cp < 0x800 {
      DecodeEncodeTwo(c, rest);
    } else if cp < 0x1_0000 {
      DecodeEncodeThree(c, rest);
    } else {
      DecodeEncodeFour(c, rest);
    }
  }

  lemma DecodeEncodeTwo(c: char, rest: seq<byte>)
    requires 0x80 <= c as int < 0x800
    ensures DecodeChar(EncodeChar(c) + rest) == (c, 2)
  {
    var cp := c as int;
    var b := EncodeChar(c) + rest;
    assert b[0] == 0xC0 + cp / 64 && b[1] == 0x80 + cp % 64;
  }

  lemma DecodeEncodeThree(c: char, rest: seq<byte>)
    requires 0x800 <= c as int < 0x1_0000
    ensures DecodeChar(EncodeChar(c) + rest) == (c, 3)
  {
    var cp := c as int;
    var b := EncodeChar(c) + rest;
    assert cp / 4096 == (cp / 64) / 64;
    assert b[0] == 0xE0 + cp / 4096 && b[1] == 0x80 + (cp / 64) % 64 && b[2] == 0x80 + cp % 64;
  }

  lemma DecodeEncodeFour(c: char, rest: seq<byte>)
    requires 0x1_0000 <= c as int
    ensures DecodeChar(EncodeChar(c) + rest) == (c, 4)
  {
    var cp := c as int;
    var b := EncodeChar(c) + rest;
    assert cp / 4096 == (cp / 64) / 64;
    assert cp / 262144 == (cp / 4096) / 64;
    assert b[0] == 0xF0 + cp / 262144 && b[1] == 0x80 + (cp / 4096) % 64;
    assert b[2] == 0x80 + (cp / 64) % 64 && b[3] == 0x80 + cp % 64;
  }

  /** Encoding distributes over concatenation. */
  lemma {:induction false} EncodeConcat(s: string, t: string)
    ensures Encode(s + t) == Encode(s) + Encode(t)
    decreases |s|
  {
    if s == [] {
      assert s + t == t;
    } else {
      var e := EncodeChar(s[0]);
      assert (s + t)[0] == s[0];
      assert (s + t)[1..] == s[1..] + t;
      assert Encode(s + t) == e + Encode(s[1..] + t);
      EncodeConcat(s[1..], t);
      assert e + (Encode(s[1..]) + Encode(t)) == (e + Encode(s[1..])) + Encode(t);
    }
  }

  /** Every string survives UTF-8 encoding and decoding unchanged. */
  lemma {:induction false} DecodeEncode(s: string)
    ensures Decode(Encode(s)) == s
    decreases |s|
  {
    if s != [] {
      var e := EncodeChar(s[0]);
      var rest := Encode(s[1..]);
      DecodeEncodeChar(s[0], rest);
      assert (e + rest)[|e|..] == rest;
      DecodeEncode(s[1..]);
    }
  }

  /** The only character whose encoding begins with the preamble is U+FEFF. */
  lemma {:induction false} PreambleOnlyFromByteOrderMark(s: string)
    requires s != []
    requires |Encode(s)| >= 3 && Encode(s)[..3] == Preamble
    ensures s[0] == ByteOrderMark
  {
    var e := EncodeChar(s[0]);
    var b := Encode(s);
    assert b == e + Encode(s[1..]);
    var cp := s[0] as int;
    assert b[0] == e[0] == 0xEF;
    assert 0x800 <= cp < 0x1_0000;
    assert b[1] == e[1] && b[2] == e[2];
    assert cp / 4096 == (cp / 64) / 64;
  }

  /**
   * Text written by StreamWriter (UTF-8 without a preamble) and read back by StreamReader
   * comes back unchanged, unless it starts with U+FEFF, which the reader takes for a preamble.
   */
  lemma TextRoundTrip(s: string)
    requires s == [] || s[0] != ByteOrderMark
    ensures ReadText(Encode(s)) == s
  {
    DecodeEncode(s);
    if s != [] && |Encode(s)| >= 3 && Encode(s)[..3] == Preamble {
      PreambleOnlyFromByteOrderMark(s);
    }
  }

  /** The exception to TextRoundTrip: a leading U+FEFF is lost. */
  lemma ByteOrderMarkLost(s: string)
    requires s != [] && s[0] == ByteOrderMark
    ensures ReadText(Encode(s)) == s[1..]
  {
    var b := Encode(s);
    assert EncodeChar(ByteOrderMark) == Preamble;
    assert b == Preamble + Encode(s[1..]);
    assert b[..3] == Preamble;
    assert b[3..] == Encode(s[1..]);
    DecodeEncode(s[1..]);
  }
}

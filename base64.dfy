/**
 * Base64 as section 4 of RFC 4648 defines it, the form Convert.ToBase64String
 * produces and Convert.FromBase64String accepts (white space inside the input,
 * which the decoder skips, is not modelled).
 */
module Base64Codec {
  import opened Wrappers
  import opened Basics

  const Padding: char := '='

  /** A character of the base64 alphabet (table 1 of RFC 4648). */
  predicate IsAlphabetChar(c: char)
  {
    ('A' <= c <= 'Z') || ('a' <= c <= 'z') || ('0' <= c <= '9') || c == '+' || c == '/'
  }

  /** The value a character of the alphabet encodes. */
  function ValueOf(c: char): (v: int)
    requires IsAlphabetChar(c)
    ensures 0 <= v < 64
  {
    if 'A' <= c <= 'Z' then c as int - 'A' as int
    else if 'a' <= c <= 'z' then c as int - 'a' as int + 26
    else if '0' <= c <= '9' then c as int - '0' as int + 52
    else if c == '+' then 62
    else 63
  }

  /** The character encoding a 6-bit value; the inverse of ValueOf. */
  function CharOf(v: int): (c: char)
    requires 0 <= v < 64
    ensures IsAlphabetChar(c) && ValueOf(c) == v
  {
    if v < 26 then ('A' as int + v) as char
    else if v < 52 then ('a' as int + v - 26) as char
    else if v < 62 then ('0' as int + v - 52) as char
    else if v == 62 then '+'
    else '/'
  }

  /** One full quantum: three bytes as four characters. */
  function EncodeTriple(x: byte, y: byte, z: byte): string
  {
    [CharOf(x / 4), CharOf((x % 4) * 16 + y / 16), CharOf((y % 16) * 4 + z / 64), CharOf(z % 64)]
  }

  /** Convert.ToBase64String: full quanta, then a final quantum padded with '='. */
  function Encode(b: seq<byte>): (s: string)
    ensures |s| == 4 * ((|b| + 2) / 3)
    decreases |b|
  {
    if |b| == 0 then ""
    else if |b| == 1 then [CharOf(b[0] / 4), CharOf((b[0] % 4) * 16), Padding, Padding]
    else if |b| == 2 then [CharOf(b[0] / 4), CharOf((b[0] % 4) * 16 + b[1] / 16), CharOf((b[1] % 16) * 4), Padding]
    else EncodeTriple(b[0], b[1], b[2]) + Encode(b[3..])
  }

  /** Four alphabet characters as three bytes. */
  function DecodeQuad(c0: char, c1: char, c2: char, c3: char): seq<byte>
    requires IsAlphabetChar(c0) && IsAlphabetChar(c1) && IsAlphabetChar(c2) && IsAlphabetChar(c3)
  {
    var v0, v1, v2, v3 := ValueOf(c0), ValueOf(c1), ValueOf(c2), ValueOf(c3);
    [v0 * 4 + v1 / 16, (v1 % 16) * 16 + v2 / 4, (v2 % 4) * 64 + v3]
  }

  /**
   * The last quantum of the input: four alphabet characters, or two or three
   * followed by '=' padding to four. Bits the padding leaves unused are ignored.
   */
  function DecodeFinal(q: string): (r: Option<seq<byte>>)
    requires |q| == 4
    ensures r.Some? ==> 1 <= |r.value| <= 3
  {
    if !IsAlphabetChar(q[0]) || !IsAlphabetChar(q[1]) then None
    else if q[2] == Padding && q[3] == Padding then
      Some([ValueOf(q[0]) * 4 + ValueOf(q[1]) / 16])
    else if IsAlphabetChar(q[2]) && q[3] == Padding then
      Some([ValueOf(q[0]) * 4 + ValueOf(q[1]) / 16, (ValueOf(q[1]) % 16) * 16 + ValueOf(q[2]) / 4])
    else if IsAlphabetChar(q[2]) && IsAlphabetChar(q[3]) then
      Some(DecodeQuad(q[0], q[1], q[2], q[3]))
    else None
  }

  /**
   * Convert.FromBase64String: None stands for the FormatException raised when the
   * length is not a multiple of four, a character is outside the alphabet, or
   * padding appears anywhere but at the end.
   */
  function Decode(s: string): (r: Option<seq<byte>>)
    ensures r.Some? ==> |s| % 4 == 0
    decreases |s|
  {
    if |s| == 0 then Some([])
    else if |s| < 4 then None
    else if |s| == 4 then DecodeFinal(s)
    else if IsAlphabetChar(s[0]) && IsAlphabetChar(s[1]) && IsAlphabetChar(s[2]) && IsAlphabetChar(s[3]) then
      match Decode(s[4..])
      case None => None
      case Some(rest) => Some(DecodeQuad(s[0], s[1], s[2], s[3]) + rest)
    else None
  }

  lemma DecodeEncodeTriple(x: byte, y: byte, z: byte)
    ensures var q := EncodeTriple(x, y, z); DecodeQuad(q[0], q[1], q[2], q[3]) == [x, y, z]
  {
    var v1 := (x % 4) * 16 + y / 16;
    var v2 := (y % 16) * 4 + z / 64;
    assert v1 / 16 == x % 4 && v1 % 16 == y / 16;
    assert v2 / 4 == y % 16 && v2 % 4 == z / 64;
  }

  lemma DecodeEncodeSingle(x: byte)
    ensures Decode(Encode([x])) == Some([x])
  {
    var v1 := (x % 4) * 16;
    assert v1 / 16 == x % 4;
  }

  lemma DecodeEncodePair(x: byte, y: byte)
    ensures Decode(Encode([x, y])) == Some([x, y])
  {
    var v1 := (x % 4) * 16 + y / 16;
    var v2 := (y % 16) * 4;
    assert v1 / 16 == x % 4 && v1 % 16 == y / 16;
    assert v2 / 4 == y % 16;
  }

  /** Decoding a full quantum followed by more input peels that quantum off. */
  lemma DecodeQuantumThenRest(q: string, rest: string)
    requires |q| == 4 && IsAlphabetChar(q[0]) && IsAlphabetChar(q[1]) && IsAlphabetChar(q[2]) && IsAlphabetChar(q[3])
    requires |rest| > 0
    ensures Decode(q + rest) == match Decode(rest)
      case None => None
      case Some(r) => Some(DecodeQuad(q[0], q[1], q[2], q[3]) + r)
  {
    var s := q + rest;
    assert s[4..] == rest;
    assert s[0] == q[0] && s[1] == q[1] && s[2] == q[2] && s[3] == q[3];
  }

  /** Every byte sequence survives encoding and decoding unchanged. */
  lemma {:induction false} DecodeEncode(b: seq<byte>)
    ensures Decode(Encode(b)) == Some(b)
    decreases |b|
  {
    if |b| == 0 {
    } else if |b| == 1 {
      assert b == [b[0]];
      DecodeEncodeSingle(b[0]);
    } else if |b| == 2 {
      assert b == [b[0], b[1]];
      DecodeEncodePair(b[0], b[1]);
    } else {
      var q := EncodeTriple(b[0], b[1], b[2]);
      DecodeEncodeTriple(b[0], b[1], b[2]);
      if |b| == 3 {
        assert Encode(b) == q + "";
        assert q + "" == q;
        assert b == [b[0], b[1], b[2]];
      } else {
        DecodeEncode(b[3..]);
        DecodeQuantumThenRest(q, Encode(b[3..]));
        assert b == [b[0], b[1], b[2]] + b[3..];
      }
    }
  }

  /** What the encoder produces is always accepted by the decoder. */
  lemma EncodedIsValid(b: seq<byte>)
    ensures Decode(Encode(b)).Some?
  {
    DecodeEncode(b);
  }
}

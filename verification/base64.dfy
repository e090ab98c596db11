/** The base 64 encoding of section 4 of RFC 4648 (the alphabet `btoa`
    uses), with `=` padding, and its decoding. */
module Base64 {
  import opened Wrappers

  type Byte = b: int | 0 <= b < 256

  const Pad: char := '='

  /** Table 1 of RFC 4648: the character that encodes the 6-bit value `v`. */
  function CharOf(v: int): (c: char)
    requires 0 <= v < 64
    ensures c != Pad
  {
    if v < 26 then ('A' as int + v) as char
    else if v < 52 then ('a' as int + (v - 26)) as char
    else if v < 62 then ('0' as int + (v - 52)) as char
    else if v == 62 then '+'
    else '/'
  }

  /** The 6-bit value a character of the alphabet encodes, -1 for any other. */
  function ValueOf(c: char): (v: int)
    ensures -1 <= v < 64
    ensures v >= 0 ==> CharOf(v) == c
  {
    if 'A' <= c <= 'Z' then c as int - 'A' as int
    else if 'a' <= c <= 'z' then c as int - 'a' as int + 26
    else if '0' <= c <= '9' then c as int - '0' as int + 52
    else if c == '+' then 62
    else if c == '/' then 63
    else -1
  }

  lemma ValueOfCharOf(v: int)
    requires 0 <= v < 64
    ensures ValueOf(CharOf(v)) == v
  {
  }

  predicate InAlphabet(c: char) {
    ValueOf(c) >= 0
  }

  /** Every character is of the alphabet or the pad. */
  predicate Padded(r: string) {
    forall i :: 0 <= i < |r| ==> InAlphabet(r[i]) || r[i] == Pad
  }

  /** The four 6-bit pieces of a byte triple are in range and their
      characters are in the alphabet. */
  lemma Pieces(a: Byte, b: Byte, c: Byte)
    ensures 0 <= a / 4 < 64 && InAlphabet(CharOf(a / 4))
    ensures 0 <= (a % 4) * 16 + b / 16 < 64 && InAlphabet(CharOf((a % 4) * 16 + b / 16))
    ensures 0 <= (b % 16) * 4 + c / 64 < 64 && InAlphabet(CharOf((b % 16) * 4 + c / 64))
    ensures 0 <= c % 64 < 64 && InAlphabet(CharOf(c % 64))
  {
    ValueOfCharOf(a / 4);
    ValueOfCharOf((a % 4) * 16 + b / 16);
    ValueOfCharOf((b % 16) * 4 + c / 64);
    ValueOfCharOf(c % 64);
  }

  lemma PaddedOne(x: Byte)
    ensures Padded([CharOf(x / 4), CharOf((x % 4) * 16), Pad, Pad])
  {
    Pieces(x, 0, 0);
  }

  lemma PaddedTwo(x: Byte, y: Byte)
    ensures Padded([CharOf(x / 4), CharOf((x % 4) * 16 + y / 16), CharOf((y % 16) * 4), Pad])
  {
    Pieces(x, y, 0);
  }

  lemma PaddedThree(x: Byte, y: Byte, z: Byte, rest: string)
    requires Padded(rest)
    ensures Padded([CharOf(x / 4), CharOf((x % 4) * 16 + y / 16),
                    CharOf((y % 16) * 4 + z / 64), CharOf(z % 64)] + rest)
  {
    Pieces(x, y, z);
  }

  /** Every group of three bytes becomes four characters; a final group of
      one or two bytes is padded with `=` to four. */
  function Encode(b: seq<Byte>): (r: string)
    ensures |r| == 4 * ((|b| + 2) / 3)
    ensures Padded(r)
    ensures |b| > 0 ==> r[0] == CharOf(b[0] / 4)
  {
    if |b| == 0 then ""
    else if |b| == 1 then
      PaddedOne(b[0]);
      [CharOf(b[0] / 4), CharOf((b[0] % 4) * 16), Pad, Pad]
    else if |b| == 2 then
      PaddedTwo(b[0], b[1]);
      [CharOf(b[0] / 4), CharOf((b[0] % 4) * 16 + b[1] / 16), CharOf((b[1] % 16) * 4), Pad]
    else
      var rest := Encode(b[3..]);
      GroupCount(|b|);
      PaddedThree(b[0], b[1], b[2], rest);
      [CharOf(b[0] / 4), CharOf((b[0] % 4) * 16 + b[1] / 16),
       CharOf((b[1] % 16) * 4 + b[2] / 64), CharOf(b[2] % 64)] + rest
  }

  /** A leading triple is one more group of four characters. */
  lemma GroupCount(n: nat)
    requires n >= 3
    ensures (n + 2) / 3 == (n - 3 + 2) / 3 + 1
  {
  }

  /** The bytes a padded encoding stands for; `None` for text that is not one. */
  function Decode(s: string): Option<seq<Byte>>
  {
    if |s| == 0 then Some([])
    else if |s| < 4 then None
    else
      var v0, v1, v2, v3 := ValueOf(s[0]), ValueOf(s[1]), ValueOf(s[2]), ValueOf(s[3]);
      if v0 < 0 || v1 < 0 then None
      else if |s| == 4 && s[2] == Pad && s[3] == Pad then Some([v0 * 4 + v1 / 16])
      else if v2 < 0 then None
      else if |s| == 4 && s[3] == Pad then Some([v0 * 4 + v1 / 16, (v1 % 16) * 16 + v2 / 4])
      else if v3 < 0 then None
      else
        match Decode(s[4..])
        case None => None
        case Some(rest) =>
          Some([v0 * 4 + v1 / 16, (v1 % 16) * 16 + v2 / 4, (v2 % 4) * 64 + v3] + rest)
  }

  /** The 6-bit pieces of a byte triple reassemble into the triple. */
  lemma TripleRoundTrip(a: Byte, b: Byte, c: Byte)
    ensures (a / 4) * 4 + ((a % 4) * 16 + b / 16) / 16 == a
    ensures (((a % 4) * 16 + b / 16) % 16) * 16 + ((b % 16) * 4 + c / 64) / 4 == b
    ensures (((b % 16) * 4 + c / 64) % 4) * 64 + c % 64 == c
  {
  }

  lemma DecodeOne(a: Byte)
    ensures Decode([CharOf(a / 4), CharOf((a % 4) * 16), Pad, Pad]) == Some([a])
  {
    TripleRoundTrip(a, 0, 0);
    ValueOfCharOf(a / 4);
    ValueOfCharOf((a % 4) * 16);
  }

  lemma DecodeTwo(a: Byte, b: Byte)
    ensures Decode([CharOf(a / 4), CharOf((a % 4) * 16 + b / 16), CharOf((b % 16) * 4), Pad])
         == Some([a, b])
  {
    TripleRoundTrip(a, b, 0);
    ValueOfCharOf(a / 4);
    ValueOfCharOf((a % 4) * 16 + b / 16);
    ValueOfCharOf((b % 16) * 4);
  }

  lemma DecodeThree(a: Byte, b: Byte, c: Byte, rest: string)
    requires Decode(rest).Some?
    ensures Decode([CharOf(a / 4), CharOf((a % 4) * 16 + b / 16),
                    CharOf((b % 16) * 4 + c / 64), CharOf(c % 64)] + rest)
         == Some([a, b, c] + Decode(rest).value)
  {
    var s := [CharOf(a / 4), CharOf((a % 4) * 16 + b / 16),
              CharOf((b % 16) * 4 + c / 64), CharOf(c % 64)] + rest;
    TripleRoundTrip(a, b, c);
    ValueOfCharOf(a / 4);
    ValueOfCharOf((a % 4) * 16 + b / 16);
    ValueOfCharOf((b % 16) * 4 + c / 64);
    ValueOfCharOf(c % 64);
    assert s[4..] == rest;
  }

  /** Decoding inverts encoding, so distinct byte strings encode differently. */
  lemma {:induction false} DecodeEncode(b: seq<Byte>)
    ensures Decode(Encode(b)) == Some(b)
  {
    if |b| == 1 {
      DecodeEncodeOne(b);
    } else if |b| == 2 {
      DecodeEncodeTwo(b);
    } else if |b| >= 3 {
      DecodeEncode(b[3..]);
      DecodeEncodeStep(b[0], b[1], b[2], b[3..]);
      HeadTriple(b);
    }
  }

  /** Three bytes or more are the first three in front of the rest. */
  lemma HeadTriple(b: seq<Byte>)
    requires |b| >= 3
    ensures [b[0], b[1], b[2]] + b[3..] == b
  {
  }

  /** A final group of one byte decodes back. */
  lemma DecodeEncodeOne(b: seq<Byte>)
    requires |b| == 1
    ensures Decode(Encode(b)) == Some(b)
  {
    var x := b[0];
    assert Encode(b) == [CharOf(x / 4), CharOf((x % 4) * 16), Pad, Pad];
    DecodeOne(x);
    assert b == [x];
  }

  /** A final group of two bytes decodes back. */
  lemma DecodeEncodeTwo(b: seq<Byte>)
    requires |b| == 2
    ensures Decode(Encode(b)) == Some(b)
  {
    var x, y := b[0], b[1];
    assert Encode(b) == [CharOf(x / 4), CharOf((x % 4) * 16 + y / 16), CharOf((y % 16) * 4), Pad];
    DecodeTwo(x, y);
    assert b == [x, y];
  }

  /** A leading triple decodes back in front of the rest. */
  lemma DecodeEncodeStep(x: Byte, y: Byte, z: Byte, rest: seq<Byte>)
    requires Decode(Encode(rest)) == Some(rest)
    ensures Decode(Encode([x, y, z] + rest)) == Some([x, y, z] + rest)
  {
    EncodeStep(x, y, z, rest);
    DecodeThree(x, y, z, Encode(rest));
  }

  /** A leading triple encodes as one group in front of the rest. */
  lemma EncodeStep(x: Byte, y: Byte, z: Byte, rest: seq<Byte>)
    ensures Encode([x, y, z] + rest)
         == [CharOf(x / 4), CharOf((x % 4) * 16 + y / 16),
             CharOf((y % 16) * 4 + z / 64), CharOf(z % 64)] + Encode(rest)
  {
    var b := [x, y, z] + rest;
    assert b[3..] == rest;
  }
}

/** The "base64" encoding of section 4 of RFC 4648, as produced by
    `Buffer.toString("base64")`: every 3 octets become 4 characters of the
    64-character alphabet; a final group of 1 or 2 octets is padded with
    `=` to 4 characters. The decoder is the one a consumer of an inline
    image applies; decoding an encoding gives back the octets. */
module Base64 {
  import opened Common

  const Pad: char := '='

  /** The character for a 6-bit value (Table 1 of RFC 4648). */
  function Sextet(v: nat): (c: char)
    requires v < 64
    ensures SextetValue(c) == Some(v)
    ensures c != Pad
  {
    if v < 26 then ('A' as int + v) as char
    else if v < 52 then ('a' as int + (v - 26)) as char
    else if v < 62 then ('0' as int + (v - 52)) as char
    else if v == 62 then '+'
    else '/'
  }

  /** The 6-bit value of an alphabet character; `None` for any other
      character, the pad included. */
  function SextetValue(c: char): (r: Option<nat>)
    ensures r.Some? ==> r.value < 64
    ensures c == Pad ==> r.None?
  {
    if 'A' <= c <= 'Z' then Some(c as int - 'A' as int)
    else if 'a' <= c <= 'z' then Some(c as int - 'a' as int + 26)
    else if '0' <= c <= '9' then Some(c as int - '0' as int + 52)
    else if c == '+' then Some(62)
    else if c == '/' then Some(63)
    else None
  }

  predicate IsBase64Char(c: char) {
    SextetValue(c).Some? || c == Pad
  }

  /** Three octets as four characters: the 24-bit group split into four
      6-bit values, most significant first. */
  function EncodeGroup(b0: byte, b1: byte, b2: byte): string {
    [Sextet(b0 / 4), Sextet(b0 % 4 * 16 + b1 / 16), Sextet(b1 % 16 * 4 + b2 / 64), Sextet(b2 % 64)]
  }

  /** The base64 text of `data`. */
  function Encode(data: seq<byte>): (s: string)
    ensures |s| == (|data| + 2) / 3 * 4
    ensures forall i :: 0 <= i < |s| ==> IsBase64Char(s[i])
    decreases |data|
  {
    if |data| == 0 then ""
    else if |data| == 1 then
      [Sextet(data[0] / 4), Sextet(data[0] % 4 * 16), Pad, Pad]
    else if |data| == 2 then
      [Sextet(data[0] / 4), Sextet(data[0] % 4 * 16 + data[1] / 16), Sextet(data[1] % 16 * 4), Pad]
    else
      EncodeGroup(data[0], data[1], data[2]) + Encode(data[3..])
  }

  /** The octets a base64 text stands for; `None` when the text is not a
      sequence of 4-character groups of alphabet characters, padding
      allowed only in the last group. */
  function Decode(s: string): (r: Option<seq<byte>>)
    decreases |s|
  {
    if s == [] then Some([])
    else if |s| < 4 then None
    else
      var a, b, c, d := SextetValue(s[0]), SextetValue(s[1]), SextetValue(s[2]), SextetValue(s[3]);
      if a.None? || b.None? then None
      else if |s| == 4 && s[2] == Pad && s[3] == Pad then
        Some([a.value * 4 + b.value / 16])
      else if c.None? then None
      else if |s| == 4 && s[3] == Pad then
        Some([a.value * 4 + b.value / 16, b.value % 16 * 16 + c.value / 4])
      else if d.None? then None
      else
        match Decode(s[4..])
        case None => None
        case Some(rest) =>
          Some([a.value * 4 + b.value / 16, b.value % 16 * 16 + c.value / 4, c.value % 4 * 64 + d.value] + rest)
  }

  /** The decoder's formulas undo the encoder's split of three octets
      into four sextets. */
  lemma GroupArithmetic(b0: byte, b1: byte, b2: byte)
    ensures b0 / 4 * 4 + (b0 % 4 * 16 + b1 / 16) / 16 == b0
    ensures (b0 % 4 * 16 + b1 / 16) % 16 * 16 + (b1 % 16 * 4 + b2 / 64) / 4 == b1
    ensures (b1 % 16 * 4 + b2 / 64) % 4 * 64 + b2 % 64 == b2
  {
    assert (b0 % 4 * 16 + b1 / 16) / 16 == b0 % 4;
    assert (b0 % 4 * 16 + b1 / 16) % 16 == b1 / 16;
    assert (b1 % 16 * 4 + b2 / 64) / 4 == b1 % 16;
    assert (b1 % 16 * 4 + b2 / 64) % 4 == b2 / 64;
  }

  lemma DecodeOne(b0: byte)
    ensures Decode(Encode([b0])) == Some([b0])
  {
    var s := Encode([b0]);
    GroupArithmetic(b0, 0, 0);
    assert SextetValue(s[0]) == Some(b0 / 4);
    assert SextetValue(s[1]) == Some(b0 % 4 * 16);
  }

  lemma DecodeTwo(b0: byte, b1: byte)
    ensures Decode(Encode([b0, b1])) == Some([b0, b1])
  {
    var s := Encode([b0, b1]);
    GroupArithmetic(b0, b1, 0);
    assert SextetValue(s[0]) == Some(b0 / 4);
    assert SextetValue(s[1]) == Some(b0 % 4 * 16 + b1 / 16);
    assert SextetValue(s[2]) == Some(b1 % 16 * 4);
  }

  /** Four alphabet characters in front of a decodable text decode to the
      three octets their sextets spell, in front of that text's octets. */
  lemma DecodeFullGroup(c0: char, c1: char, c2: char, c3: char, t: string, rest: seq<byte>)
    requires SextetValue(c0).Some? && SextetValue(c1).Some?
    requires SextetValue(c2).Some? && SextetValue(c3).Some?
    requires Decode(t) == Some(rest)
    ensures var v0, v1, v2, v3 := SextetValue(c0).value, SextetValue(c1).value,
                                  SextetValue(c2).value, SextetValue(c3).value;
            Decode([c0, c1, c2, c3] + t) ==
              Some([v0 * 4 + v1 / 16, v1 % 16 * 16 + v2 / 4, v2 % 4 * 64 + v3] + rest)
  {
    var s := [c0, c1, c2, c3] + t;
    assert s[0] == c0 && s[1] == c1 && s[2] == c2 && s[3] == c3;
    assert s[4..] == t;
  }

  /** A full group in front of a decodable text decodes to its three octets
      in front of that text's octets. */
  lemma DecodeGroup(b0: byte, b1: byte, b2: byte, t: string, rest: seq<byte>)
    requires Decode(t) == Some(rest)
    ensures Decode(EncodeGroup(b0, b1, b2) + t) == Some([b0, b1, b2] + rest)
  {
    var v0, v1, v2, v3 := b0 / 4, b0 % 4 * 16 + b1 / 16, b1 % 16 * 4 + b2 / 64, b2 % 64;
    GroupArithmetic(b0, b1, b2);
    DecodeFullGroup(Sextet(v0), Sextet(v1), Sextet(v2), Sextet(v3), t, rest);
    assert [v0 * 4 + v1 / 16, v1 % 16 * 16 + v2 / 4, v2 % 4 * 64 + v3] == [b0, b1, b2];
  }

  lemma SplitThree<T>(s: seq<T>)
    requires |s| >= 3
    ensures s == [s[0], s[1], s[2]] + s[3..]
  {
  }

  /** One step of the round trip: three octets in front of a tail that
      round-trips round-trip with it. */
  lemma DecodeEncodeStep(b0: byte, b1: byte, b2: byte, tail: seq<byte>)
    requires Decode(Encode(tail)) == Some(tail)
    ensures Decode(Encode([b0, b1, b2] + tail)) == Some([b0, b1, b2] + tail)
  {
    var data := [b0, b1, b2] + tail;
    assert data[0] == b0 && data[1] == b1 && data[2] == b2 && data[3..] == tail;
    assert Encode(data) == EncodeGroup(b0, b1, b2) + Encode(tail);
    DecodeGroup(b0, b1, b2, Encode(tail), tail);
  }

  /** Decoding an encoding gives back the octets. */
  lemma {:induction false} DecodeEncode(data: seq<byte>)
    ensures Decode(Encode(data)) == Some(data)
    decreases |data|
  {
    if |data| >= 3 {
      DecodeEncode(data[3..]);
      DecodeEncodeStep(data[0], data[1], data[2], data[3..]);
      SplitThree(data);
    } else if |data| == 2 {
      DecodeTwo(data[0], data[1]);
      assert [data[0], data[1]] == data;
    } else if |data| == 1 {
      DecodeOne(data[0]);
      assert [data[0]] == data;
    }
  }
}

/**
 * `data.decode('utf-8', errors='ignore')`: well-formed UTF-8 sequences
 * (Unicode Table 3-7) become characters and every ill-formed byte is dropped.
 * Dropping one byte at a time gives the same text as Python's dropping of
 * maximal ill-formed subparts, because every byte after the first in such a
 * subpart is a continuation byte, which can never start a character.
 */
module Utf8 {
  import opened Base

  predicate IsContinuation(b: Byte)
  {
    0x80 <= b <= 0xBF
  }

  /** The length of the well-formed sequence that starts `b`, or 0 when `b` starts ill-formed. */
  function SequenceLength(b: seq<Byte>): (n: nat)
    ensures n <= |b| && n <= 4
    ensures b != [] && b[0] < 0x80 ==> n == 1
  {
    if |b| == 0 then 0
    else if b[0] <= 0x7F then 1
    else if 0xC2 <= b[0] <= 0xDF then
      if |b| >= 2 && IsContinuation(b[1]) then 2 else 0
    else if 0xE0 <= b[0] <= 0xEF then
      var lo := if b[0] == 0xE0 then 0xA0 else 0x80;
      var hi := if b[0] == 0xED then 0x9F else 0xBF;
      if |b| >= 3 && lo <= b[1] <= hi && IsContinuation(b[2]) then 3 else 0
    else if 0xF0 <= b[0] <= 0xF4 then
      var lo := if b[0] == 0xF0 then 0x90 else 0x80;
      var hi := if b[0] == 0xF4 then 0x8F else 0xBF;
      if |b| >= 4 && lo <= b[1] <= hi && IsContinuation(b[2]) && IsContinuation(b[3]) then 4 else 0
    else 0
  }

  /** The scalar value encoded by the well-formed sequence that starts `b`. */
  function CodePoint(b: seq<Byte>): (c: int)
    requires SequenceLength(b) > 0
    ensures 0 <= c < 0xD800 || 0xE000 <= c < 0x11_0000
  {
    var n := SequenceLength(b);
    var b0: int := b[0];
    if n == 1 then b0
    else
      var b1: int := b[1];
      if n == 2 then (b0 - 0xC0) * 0x40 + (b1 - 0x80)
      else
        var b2: int := b[2];
        if n == 3 then (b0 - 0xE0) * 0x1000 + (b1 - 0x80) * 0x40 + (b2 - 0x80)
        else
          var b3: int := b[3];
          (b0 - 0xF0) * 0x4_0000 + (b1 - 0x80) * 0x1000 + (b2 - 0x80) * 0x40 + (b3 - 0x80)
  }

  /** `b.decode('utf-8', errors='ignore')`. */
  function Decode(b: seq<Byte>): string
    decreases |b|
  {
    if b == [] then []
    else
      var n := SequenceLength(b);
      if n == 0 then Decode(b[1..]) else [CodePoint(b) as char] + Decode(b[n..])
  }

  /** `c.encode('utf-8')`, the reference the decoder is checked against. */
  function EncodeChar(c: char): (r: seq<Byte>)
    ensures 1 <= |r| <= 4
  {
    var x := c as int;
    if x < 0x80 then [x]
    else if x < 0x800 then [0xC0 + x / 0x40, 0x80 + x % 0x40]
    else if x < 0x1_0000 then [0xE0 + x / 0x1000, 0x80 + (x / 0x40) % 0x40, 0x80 + x % 0x40]
    else [0xF0 + x / 0x4_0000, 0x80 + (x / 0x1000) % 0x40, 0x80 + (x / 0x40) % 0x40, 0x80 + x % 0x40]
  }

  /** `s.encode('utf-8')`. */
  function Encode(s: string): seq<Byte>
  {
    if s == [] then [] else EncodeChar(s[0]) + Encode(s[1..])
  }

  /** The encoding of one character is read back as exactly that character, whatever follows. */
  lemma EncodeCharDecodes(c: char, rest: seq<Byte>)
    ensures SequenceLength(EncodeChar(c) + rest) == |EncodeChar(c)|
    ensures CodePoint(EncodeChar(c) + rest) == c as int
  {
    var x := c as int;
    if x < 0x80 {
    } else if x < 0x800 {
      TwoByteDecodes(c, rest);
    } else if x < 0x1_0000 {
      ThreeByteDecodes(c, rest);
    } else {
      FourByteDecodes(c, rest);
    }
  }

  lemma TwoByteDecodes(c: char, rest: seq<Byte>)
    requires 0x80 <= c as int < 0x800
    ensures SequenceLength(EncodeChar(c) + rest) == 2
    ensures CodePoint(EncodeChar(c) + rest) == c as int
  {
    var x := c as int;
    var b := EncodeChar(c) + rest;
    assert b[0] == 0xC0 + x / 0x40 && b[1] == 0x80 + x % 0x40;
  }

  lemma ThreeByteDecodes(c: char, rest: seq<Byte>)
    requires 0x800 <= c as int < 0x1_0000
    ensures SequenceLength(EncodeChar(c) + rest) == 3
    ensures CodePoint(EncodeChar(c) + rest) == c as int
  {
    var x := c as int;
    var b := EncodeChar(c) + rest;
    Split3(x);
    assert b[0] == 0xE0 + x / 0x1000 && b[1] == 0x80 + (x / 0x40) % 0x40 && b[2] == 0x80 + x % 0x40;
  }

  lemma FourByteDecodes(c: char, rest: seq<Byte>)
    requires 0x1_0000 <= c as int
    ensures SequenceLength(EncodeChar(c) + rest) == 4
    ensures CodePoint(EncodeChar(c) + rest) == c as int
  {
    var x := c as int;
    var b := EncodeChar(c) + rest;
    Split4(x);
    assert b[0] == 0xF0 + x / 0x4_0000 && b[1] == 0x80 + (x / 0x1000) % 0x40;
    assert b[2] == 0x80 + (x / 0x40) % 0x40 && b[3] == 0x80 + x % 0x40;
  }

  /** The arithmetic behind the three-byte form, including the surrogate gap. */
  lemma Split3(x: int)
    requires 0x800 <= x < 0x1_0000 && !(0xD800 <= x < 0xE000)
    ensures x == (x / 0x1000) * 0x1000 + ((x / 0x40) % 0x40) * 0x40 + x % 0x40
    ensures x / 0x1000 == 0 ==> (x / 0x40) % 0x40 >= 0x20
    ensures x / 0x1000 == 0xD ==> (x / 0x40) % 0x40 <= 0x1F
  {
    var q := x / 0x40;
    assert x == q * 0x40 + x % 0x40;
    assert q == (q / 0x40) * 0x40 + q % 0x40;
    assert q / 0x40 == x / 0x1000;
  }

  /** The arithmetic behind the four-byte form. */
  lemma Split4(x: int)
    requires 0x1_0000 <= x < 0x11_0000
    ensures x == (x / 0x4_0000) * 0x4_0000 + ((x / 0x1000) % 0x40) * 0x1000 + ((x / 0x40) % 0x40) * 0x40 + x % 0x40
    ensures x / 0x4_0000 == 0 ==> (x / 0x1000) % 0x40 >= 0x10
    ensures x / 0x4_0000 == 4 ==> (x / 0x1000) % 0x40 <= 0x0F
  {
    var q := x / 0x40;
    var p := q / 0x40;
    assert x == q * 0x40 + x % 0x40;
    assert q == p * 0x40 + q % 0x40;
    assert p == (p / 0x40) * 0x40 + p % 0x40;
    assert p == x / 0x1000;
    assert p / 0x40 == x / 0x4_0000;
  }

  /** Decoding undoes encoding: well-formed text survives the `errors='ignore'` decode intact. */
  lemma {:induction false} DecodeEncode(s: string)
    ensures Decode(Encode(s)) == s
  {
    if s != [] {
      var e := EncodeChar(s[0]);
      var rest := Encode(s[1..]);
      EncodeCharDecodes(s[0], rest);
      assert (e + rest)[|e|..] == rest;
      DecodeEncode(s[1..]);
    }
  }

  /** Bytes below 0x80 decode one-to-one into the characters with the same codes. */
  lemma {:induction false} DecodeAscii(b: seq<Byte>)
    requires forall i :: 0 <= i < |b| ==> b[i] < 0x80
    ensures |Decode(b)| == |b|
    ensures forall i :: 0 <= i < |b| ==> Decode(b)[i] as int == b[i]
  {
    if b != [] {
      DecodeAscii(b[1..]);
    }
  }
}

/** The byte-wise UTF-8 check accepts exactly the encodings of Unicode scalar values (RFC 3629, section 3). */
module Utf8 {
  import opened Wrappers
  import opened Bytes

  type Scalar = c: int | 0 <= c <= 0xD7FF || 0xE000 <= c <= 0x10FFFF

  /** One to four bytes, the fewest that hold the value. */
  function Encode(c: Scalar): Bytes {
    if c < 0x80 then [c]
    else if c < 0x800 then [0xC0 + c / 64, 0x80 + c % 64]
    else if c < 0x1_0000 then [0xE0 + c / 4_096, 0x80 + c / 64 % 64, 0x80 + c % 64]
    else [0xF0 + c / 262_144, 0x80 + c / 4_096 % 64, 0x80 + c / 64 % 64, 0x80 + c % 64]
  }

  function EncodeAll(cs: seq<Scalar>): Bytes {
    if cs == [] then [] else Encode(cs[0]) + EncodeAll(cs[1..])
  }

  // ---- Every encoding is accepted ----

  lemma EncodedIsOneChar(c: Scalar, rest: Bytes)
    ensures CharLength(Encode(c) + rest) == |Encode(c)|
  {
    var b, e := Encode(c) + rest, Encode(c);
    assert forall i | 0 <= i < |e| :: b[i] == e[i];
    if c < 0x80 {
    } else if c < 0x800 {
    } else if c < 0x1_0000 {
      ThreeBytes(c);
    } else {
      FourBytes(c);
    }
  }

  lemma ThreeBytes(c: Scalar)
    requires 0x800 <= c < 0x1_0000
    ensures var lead, second := c / 4_096, c / 64 % 64;
            0 <= lead <= 15 && (lead == 0 ==> second >= 0x20) && (lead == 13 ==> second < 0x20)
  {
    var q := c / 64;
    assert q / 64 == c / 4_096 && q == 64 * (q / 64) + q % 64;
  }

  lemma FourBytes(c: Scalar)
    requires c >= 0x1_0000
    ensures var lead, second := c / 262_144, c / 4_096 % 64;
            0 <= lead <= 4 && (lead == 0 ==> second >= 0x10) && (lead == 4 ==> second < 0x10)
  {
    var q := c / 4_096;
    assert q / 64 == c / 262_144 && q == 64 * (q / 64) + q % 64;
  }

  lemma {:induction false} EncodingsAreUtf8(cs: seq<Scalar>)
    ensures IsUtf8(EncodeAll(cs))
  {
    if cs != [] {
      var rest := EncodeAll(cs[1..]);
      EncodedIsOneChar(cs[0], rest);
      EncodingsAreUtf8(cs[1..]);
      assert (Encode(cs[0]) + rest)[|Encode(cs[0])|..] == rest;
    }
  }

  // ---- Nothing else is ----

  lemma Join2(x: int, y: int)
    requires 0 <= y < 64
    ensures (64 * x + y) / 64 == x && (64 * x + y) % 64 == y
  {
  }

  lemma Join3(x: int, y: int, z: int)
    requires 0 <= y < 64 && 0 <= z < 64
    ensures var c := 4_096 * x + 64 * y + z; c / 4_096 == x && c / 64 % 64 == y && c % 64 == z
  {
    Join2(64 * x + y, z);
    Join2(x, y);
  }

  lemma Join4(w: int, x: int, y: int, z: int)
    requires 0 <= x < 64 && 0 <= y < 64 && 0 <= z < 64
    ensures var c := 262_144 * w + 4_096 * x + 64 * y + z;
            c / 262_144 == w && c / 4_096 % 64 == x && c / 64 % 64 == y && c % 64 == z
  {
    Join3(64 * w + x, y, z);
    Join2(w, x);
  }

  /** The scalar value of the character at the front. */
  lemma FirstChar(b: Bytes) returns (c: Scalar)
    requires CharLength(b) > 0
    ensures b[..CharLength(b)] == Encode(c)
  {
    var n := CharLength(b);
    var b0: int := b[0];
    if n == 1 {
      c := b0;
    } else if n == 2 {
      var b1: int := b[1];
      Join2(b0 - 0xC0, b1 - 0x80);
      c := 64 * (b0 - 0xC0) + (b1 - 0x80);
    } else if n == 3 {
      var b1: int, b2: int := b[1], b[2];
      Join3(b0 - 0xE0, b1 - 0x80, b2 - 0x80);
      c := 4_096 * (b0 - 0xE0) + 64 * (b1 - 0x80) + (b2 - 0x80);
    } else {
      var b1: int, b2: int, b3: int := b[1], b[2], b[3];
      Join4(b0 - 0xF0, b1 - 0x80, b2 - 0x80, b3 - 0x80);
      c := 262_144 * (b0 - 0xF0) + 4_096 * (b1 - 0x80) + 64 * (b2 - 0x80) + (b3 - 0x80);
    }
  }

  lemma {:induction false} Utf8IsEncoded(b: Bytes) returns (cs: seq<Scalar>)
    requires IsUtf8(b)
    ensures EncodeAll(cs) == b
    decreases |b|
  {
    if b == [] {
      cs := [];
    } else {
      var n := CharLength(b);
      var c := FirstChar(b);
      var rest := Utf8IsEncoded(b[n..]);
      cs := [c] + rest;
      assert cs[1..] == rest && b == b[..n] + b[n..];
    }
  }

  /** `String::from_utf8` succeeds exactly on the encodings of sequences of scalar values. */
  lemma Utf8Iff(b: Bytes)
    ensures IsUtf8(b) <==> exists cs :: EncodeAll(cs) == b
  {
    if IsUtf8(b) {
      var cs := Utf8IsEncoded(b);
    }
    if cs :| EncodeAll(cs) == b {
      EncodingsAreUtf8(cs);
    }
  }
}

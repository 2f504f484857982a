/** Lowercase hex (hex.rs) and the decimal and ASCII text used beside it in signed text. */
module Hex {
  import opened Wrappers
  import opened Bytes

  function Digit(n: int): (c: char)
    requires 0 <= n < 16
    ensures Nibble(c) == Some(n) && IsLower(c)
  {
    if n < 10 then (n + 48) as char else (n + 87) as char
  }

  predicate IsLower(c: char) {
    '0' <= c <= '9' || 'a' <= c <= 'f'
  }

  function Nibble(c: char): Option<int> {
    if '0' <= c <= '9' then Some(c as int - 48)
    else if 'a' <= c <= 'f' then Some(c as int - 97 + 10)
    else if 'A' <= c <= 'F' then Some(c as int - 65 + 10)
    else None
  }

  /** The specification of `encode`: two lowercase digits a byte, high nibble first. */
  function HexOf(b: Bytes): (s: string)
    ensures |s| == 2 * |b| && forall c | c in s :: IsLower(c)
  {
    if b == [] then "" else [Digit(b[0] / 16), Digit(b[0] % 16)] + HexOf(b[1..])
  }

  method Encode(b: Bytes) returns (out: string)
    ensures out == HexOf(b)
  {
    out := "";
    for i := 0 to |b|
      invariant out + HexOf(b[i..]) == HexOf(b)
    {
      ghost var rest := HexOf(b[i + 1..]);
      assert b[i..][1..] == b[i + 1..];
      assert out + ([Digit(b[i] / 16), Digit(b[i] % 16)] + rest) == out + [Digit(b[i] / 16)] + [Digit(b[i] % 16)] + rest;
      out := out + [Digit(b[i] / 16)] + [Digit(b[i] % 16)];
    }
    assert b[|b|..] == [];
  }

  function Decode(s: string): (r: Option<Bytes>)
    ensures r.Some? ==> |s| == 2 * |r.value|
  {
    if s == "" then Some([])
    else if |s| == 1 || Nibble(s[0]).None? || Nibble(s[1]).None? then None
    else match Decode(s[2..])
      case None => None
      case Some(rest) => Some([Nibble(s[0]).value * 16 + Nibble(s[1]).value] + rest)
  }

  function DecodeArray(n: nat, s: string): (r: Option<Bytes>)
    ensures r.Some? ==> |r.value| == n
  {
    if |s| != 2 * n then None else Decode(s)
  }

  function LowerChar(c: char): char {
    if 'A' <= c <= 'F' then (c as int + 32) as char else c
  }

  function Lower(s: string): (r: string)
    ensures |r| == |s|
  {
    seq(|s|, i requires 0 <= i < |s| => LowerChar(s[i]))
  }

  /** Decoding undoes encoding. */
  lemma {:induction false} DecodeOfHex(b: Bytes)
    ensures Decode(HexOf(b)) == Some(b)
  {
    if b != [] {
      DecodeOfHex(b[1..]);
      assert HexOf(b)[2..] == HexOf(b[1..]);
      assert b == [b[0]] + b[1..];
    }
  }

  lemma OneByte(c: char, d: char, rest: Bytes)
    requires Nibble(c).Some? && Nibble(d).Some?
    ensures HexOf([Nibble(c).value * 16 + Nibble(d).value] + rest) == [LowerChar(c), LowerChar(d)] + HexOf(rest)
  {
    var hi, lo := Nibble(c).value, Nibble(d).value;
    var b: Bytes := [hi * 16 + lo] + rest;
    assert b[0] / 16 == hi && b[0] % 16 == lo && b[1..] == rest;
    assert Digit(hi) == LowerChar(c) && Digit(lo) == LowerChar(d);
  }

  /** Hex digits in either case. */
  predicate AllHex(s: string) {
    forall i | 0 <= i < |s| :: '0' <= s[i] <= '9' || 'a' <= s[i] <= 'f' || 'A' <= s[i] <= 'F'
  }

  lemma AllHexSplit(s: string)
    requires |s| >= 2
    ensures AllHex(s) <==> Nibble(s[0]).Some? && Nibble(s[1]).Some? && AllHex(s[2..])
  {
    var rest := s[2..];
    assert forall i | 0 <= i < |rest| :: rest[i] == s[i + 2];
    assert forall i | 2 <= i < |s| :: s[i] == rest[i - 2];
  }

  lemma LowerSplit(s: string)
    requires |s| >= 2
    ensures Lower(s) == [LowerChar(s[0]), LowerChar(s[1])] + Lower(s[2..])
  {
  }

  lemma DecodeSplit(s: string)
    requires |s| >= 2
    ensures Decode(s).Some? <==> Nibble(s[0]).Some? && Nibble(s[1]).Some? && Decode(s[2..]).Some?
    ensures Decode(s).Some? ==>
              Decode(s).value == [Nibble(s[0]).value * 16 + Nibble(s[1]).value] + Decode(s[2..]).value
  {
  }

  lemma {:induction false} DecodeAccepts(s: string)
    ensures Decode(s).Some? <==> |s| % 2 == 0 && AllHex(s)
  {
    if |s| >= 2 {
      DecodeSplit(s);
      AllHexSplit(s);
      DecodeAccepts(s[2..]);
    }
  }

  lemma {:induction false} DecodeLowers(s: string)
    requires Decode(s).Some?
    ensures HexOf(Decode(s).value) == Lower(s)
  {
    if |s| >= 2 {
      DecodeSplit(s);
      DecodeLowers(s[2..]);
      OneByte(s[0], s[1], Decode(s[2..]).value);
      LowerSplit(s);
    }
  }

  /** Decoding accepts exactly the even-length strings of hex digits, in either case, and
      encoding gives back the lowercase form of what was decoded. */
  lemma DecodeIsStrict(s: string)
    ensures Decode(s).Some? <==> |s| % 2 == 0 && AllHex(s)
    ensures Decode(s).Some? ==> HexOf(Decode(s).value) == Lower(s)
  {
    DecodeAccepts(s);
    if Decode(s).Some? {
      DecodeLowers(s);
    }
  }

  lemma HexIsInjective(a: Bytes, b: Bytes)
    requires HexOf(a) == HexOf(b)
    ensures a == b
  {
    DecodeOfHex(a);
    DecodeOfHex(b);
  }

  // ---- Decimal numbers and ASCII ----

  function Decimal(n: nat): (s: string)
    ensures |s| > 0 && forall c | c in s :: '0' <= c <= '9'
  {
    (if n < 10 then "" else Decimal(n / 10)) + [(n % 10 + 48) as char]
  }

  function DecimalValue(s: string): int {
    if s == "" then 0 else 10 * DecimalValue(s[..|s| - 1]) + (s[|s| - 1] as int - 48)
  }

  lemma {:induction false} DecimalRoundTrip(n: nat)
    ensures DecimalValue(Decimal(n)) == n
  {
    var head := if n < 10 then "" else Decimal(n / 10);
    assert Decimal(n)[..|Decimal(n)| - 1] == head;
    if n >= 10 {
      DecimalRoundTrip(n / 10);
    }
  }

  predicate IsAscii(s: string) {
    forall c | c in s :: c < 128 as char
  }

  /** The bytes of an ASCII string. */
  function Ascii(s: string): (b: Bytes)
    ensures |b| == |s|
  {
    seq(|s|, i requires 0 <= i < |s| => s[i] as int % 256)
  }

  lemma AsciiIsInjective(s: string, t: string)
    requires IsAscii(s) && IsAscii(t) && Ascii(s) == Ascii(t)
    ensures s == t
  {
    forall i | 0 <= i < |s|
      ensures s[i] == t[i]
    {
      assert Ascii(s)[i] == Ascii(t)[i] && s[i] in s && t[i] in t;
    }
  }
}

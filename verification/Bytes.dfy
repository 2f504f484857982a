/** Bytes, fixed-width integers, UTF-8, and the two length-prefixed field shapes. */
module Bytes {
  type byte = x: int | 0 <= x < 256
  type Bytes = seq<byte>

  const U32_LIMIT := 0x1_0000_0000
  const U64_LIMIT := 0x1_0000_0000_0000_0000

  type u64 = x: int | 0 <= x < U64_LIMIT

  /** A field that a 32-bit length prefix can describe. */
  type Field = b: Bytes | |b| < U32_LIMIT

  type Key = b: Bytes | |b| == 32 witness seq(32, _ => 0)
  type Signature = b: Bytes | |b| == 64 witness seq(64, _ => 0)

  function Flat(parts: seq<Bytes>): Bytes {
    if parts == [] then [] else parts[0] + Flat(parts[1..])
  }

  // ---- Integers as bytes ----

  function Power256(width: nat): nat {
    if width == 0 then 1 else 256 * Power256(width - 1)
  }

  /** The low `width` bytes of `n`, little-endian: what a cast and `to_le_bytes` leave. */
  function Le(n: nat, width: nat): (b: Bytes)
    ensures |b| == width
  {
    if width == 0 then [] else [n % 256] + Le(n / 256, width - 1)
  }

  function FromLe(b: Bytes): nat {
    if b == [] then 0 else b[0] + 256 * FromLe(b[1..])
  }

  function Be16(n: nat): (b: Bytes)
    ensures |b| == 2
  {
    [n / 256 % 256, n % 256]
  }

  lemma {:induction false} FromLeOfLe(n: nat, width: nat)
    requires n < Power256(width)
    ensures FromLe(Le(n, width)) == n
  {
    if width > 0 {
      FromLeOfLe(n / 256, width - 1);
      assert Le(n, width)[1..] == Le(n / 256, width - 1);
    }
  }

  lemma {:induction false} LeOfFromLe(b: Bytes)
    ensures Le(FromLe(b), |b|) == b && FromLe(b) < Power256(|b|)
  {
    if b != [] {
      LeOfFromLe(b[1..]);
      assert FromLe(b) % 256 == b[0] && FromLe(b) / 256 == FromLe(b[1..]);
      assert b == [b[0]] + b[1..];
    }
  }

  lemma PowersOf256()
    ensures Power256(4) == U32_LIMIT && Power256(8) == U64_LIMIT
  {
    assert Power256(4) == 256 * (256 * (256 * (256 * Power256(0))));
    assert Power256(8) == 256 * (256 * (256 * (256 * Power256(4))));
  }

  lemma LeIsInjective(m: nat, n: nat, width: nat)
    requires m < Power256(width) && n < Power256(width) && Le(m, width) == Le(n, width)
    ensures m == n
  {
    FromLeOfLe(m, width);
    FromLeOfLe(n, width);
  }

  // ---- UTF-8 (RFC 3629, section 4): what `String::from_utf8` accepts ----

  predicate Tail(b: byte) {
    0x80 <= b <= 0xBF
  }

  /** Length of the well-formed character at the front of `b`, or 0. */
  function CharLength(b: Bytes): (n: nat)
    ensures n <= |b|
  {
    if |b| == 0 then 0
    else if b[0] < 0x80 then 1
    else if |b| >= 2 && 0xC2 <= b[0] <= 0xDF && Tail(b[1]) then 2
    else if |b| >= 3 && 0xE0 <= b[0] <= 0xEF && Tail(b[1]) && Tail(b[2])
         && (b[0] == 0xE0 ==> b[1] >= 0xA0) && (b[0] == 0xED ==> b[1] < 0xA0) then 3
    else if |b| >= 4 && 0xF0 <= b[0] <= 0xF4 && Tail(b[1]) && Tail(b[2]) && Tail(b[3])
         && (b[0] == 0xF0 ==> b[1] >= 0x90) && (b[0] == 0xF4 ==> b[1] < 0x90) then 4
    else 0
  }

  predicate IsUtf8(b: Bytes)
    decreases |b|
  {
    b == [] || (CharLength(b) > 0 && IsUtf8(b[CharLength(b)..]))
  }

  /** A Rust `String`, as its UTF-8 bytes, short enough for a 32-bit length prefix. */
  type Text = b: Field | IsUtf8(b)

  // ---- Fields in front of a tail ----

  function Fix(b: Bytes, tail: Bytes): Bytes {
    b + tail
  }

  function Tag(t: byte, tail: Bytes): Bytes {
    [t] + tail
  }

  function U32(n: nat, tail: Bytes): Bytes {
    Le(n, 4) + tail
  }

  function U64(n: nat, tail: Bytes): Bytes {
    Le(n, 8) + tail
  }

  /** `var_bytes`: a u32 little-endian length, then the bytes. */
  function Var(b: Bytes, tail: Bytes): Bytes {
    U32(|b|, b + tail)
  }

  lemma SplitEqual(a: Bytes, s: Bytes, b: Bytes, t: Bytes)
    requires |a| == |b| && a + s == b + t
    ensures a == b && s == t
  {
    assert a == (a + s)[..|a|] && b == (b + t)[..|b|];
    assert s == (a + s)[|a|..] && t == (b + t)[|b|..];
  }

  lemma FixIsReadable(a: Bytes, s: Bytes, b: Bytes, t: Bytes)
    requires |a| == |b| && Fix(a, s) == Fix(b, t)
    ensures a == b && s == t
  {
    SplitEqual(a, s, b, t);
  }

  lemma TagIsReadable(a: byte, s: Bytes, b: byte, t: Bytes)
    requires Tag(a, s) == Tag(b, t)
    ensures a == b && s == t
  {
    SplitEqual([a], s, [b], t);
  }

  lemma U32IsReadable(m: nat, s: Bytes, n: nat, t: Bytes)
    requires m < U32_LIMIT && n < U32_LIMIT && U32(m, s) == U32(n, t)
    ensures m == n && s == t
  {
    SplitEqual(Le(m, 4), s, Le(n, 4), t);
    PowersOf256();
    LeIsInjective(m, n, 4);
  }

  lemma U64IsReadable(m: u64, s: Bytes, n: u64, t: Bytes)
    requires U64(m, s) == U64(n, t)
    ensures m == n && s == t
  {
    SplitEqual(Le(m, 8), s, Le(n, 8), t);
    PowersOf256();
    LeIsInjective(m, n, 8);
  }

  lemma VarIsReadable(a: Field, s: Bytes, b: Field, t: Bytes)
    requires Var(a, s) == Var(b, t)
    ensures a == b && s == t
  {
    U32IsReadable(|a|, a + s, |b|, b + t);
    SplitEqual(a, s, b, t);
  }

  /** All the readability facts at once, for the solver to chain through nested fields. */
  lemma FieldsAreReadable()
    ensures forall a, s, b, t {:trigger Fix(a, s), Fix(b, t)} :: |a| == |b| && Fix(a, s) == Fix(b, t) ==> a == b && s == t
    ensures forall a, s, b, t {:trigger Tag(a, s), Tag(b, t)} :: Tag(a, s) == Tag(b, t) ==> a == b && s == t
    ensures forall m: u64, s, n: u64, t {:trigger U64(m, s), U64(n, t)} :: U64(m, s) == U64(n, t) ==> m == n && s == t
    ensures forall a: Field, s, b: Field, t {:trigger Var(a, s), Var(b, t)} :: Var(a, s) == Var(b, t) ==> a == b && s == t
  {
    forall a, s, b, t | |a| == |b| && Fix(a, s) == Fix(b, t)
      ensures a == b && s == t
    {
      FixIsReadable(a, s, b, t);
    }
    forall a: byte, s, b: byte, t | Tag(a, s) == Tag(b, t)
      ensures a == b && s == t
    {
      TagIsReadable(a, s, b, t);
    }
    forall m: u64, s, n: u64, t | U64(m, s) == U64(n, t)
      ensures m == n && s == t
    {
      U64IsReadable(m, s, n, t);
    }
    forall a: Field, s, b: Field, t | Var(a, s) == Var(b, t)
      ensures a == b && s == t
    {
      VarIsReadable(a, s, b, t);
    }
  }
}

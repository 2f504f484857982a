/** WebSocket framing as ws-byte-stream.js reads and writes it (RFC 6455, sections 5.2 and 5.3):
    unfragmented frames, with the three payload-length forms and client masking. */
module WebSocketFrames {
  import opened Wrappers
  import opened Bytes

  type MaskKey = k: Bytes | |k| == 4 witness [0, 0, 0, 0]

  /** A payload whose length is exact as a JavaScript number. */
  type Payload = b: Bytes | |b| < 0x20_0000_0000_0000

  /** `flags` are FIN and the reserved bits; the reader does not look at them. */
  datatype Frame = Frame(flags: int, opcode: int, mask: Option<MaskKey>, payload: Payload) {
    predicate WellFormed() {
      0 <= flags < 16 && 0 <= opcode < 16
    }
  }

  // ---- Big-endian lengths ----

  function Be(n: nat, width: nat): (b: Bytes)
    ensures |b| == width
  {
    if width == 0 then [] else Be(n / 256, width - 1) + [n % 256]
  }

  function FromBe(b: Bytes): nat {
    if b == [] then 0 else 256 * FromBe(b[..|b| - 1]) + b[|b| - 1]
  }

  lemma {:induction false} FromBeOfBe(n: nat, width: nat)
    requires n < Power256(width)
    ensures FromBe(Be(n, width)) == n
  {
    if width > 0 {
      FromBeOfBe(n / 256, width - 1);
      assert Be(n, width)[..width - 1] == Be(n / 256, width - 1);
    }
  }

  // ---- Masking ----

  /** Exclusive or of the low `width` bits. */
  function XorBits(a: nat, b: nat, width: nat): nat {
    if width == 0 then 0 else (if a % 2 == b % 2 then 0 else 1) + 2 * XorBits(a / 2, b / 2, width - 1)
  }

  function Power2(width: nat): nat {
    if width == 0 then 1 else 2 * Power2(width - 1)
  }

  lemma LowBit(bit: nat, high: nat)
    requires bit < 2
    ensures (bit + 2 * high) % 2 == bit && (bit + 2 * high) / 2 == high
  {
  }

  lemma {:induction false} XorBitsTwice(a: nat, b: nat, width: nat)
    requires a < Power2(width)
    ensures XorBits(a, b, width) < Power2(width) && XorBits(XorBits(a, b, width), b, width) == a
  {
    if width > 0 {
      XorBitsTwice(a / 2, b / 2, width - 1);
      LowBit(if a % 2 == b % 2 then 0 else 1, XorBits(a / 2, b / 2, width - 1));
    }
  }

  lemma EightBits()
    ensures Power2(8) == 256
  {
    assert Power2(4) == 16 && Power2(8) == 2 * (2 * (2 * (2 * Power2(4))));
  }

  function Xor(a: byte, b: byte): byte {
    EightBits();
    XorBitsTwice(a, b, 8);
    XorBits(a, b, 8)
  }

  lemma XorTwice(a: byte, b: byte)
    ensures Xor(Xor(a, b), b) == a
  {
    EightBits();
    XorBitsTwice(a, b, 8);
  }

  /** Bit `k` of a number, from the lowest. */
  function Bit(n: nat, k: nat): nat {
    if k == 0 then n % 2 else Bit(n / 2, k - 1)
  }

  lemma {:induction false} XorBitsAt(a: nat, b: nat, width: nat, k: nat)
    requires k < width
    ensures Bit(XorBits(a, b, width), k) == if Bit(a, k) == Bit(b, k) then 0 else 1
  {
    LowBit(if a % 2 == b % 2 then 0 else 1, XorBits(a / 2, b / 2, width - 1));
    if k > 0 {
      XorBitsAt(a / 2, b / 2, width - 1, k - 1);
    }
  }

  lemma BitsAre(n: nat)
    ensures Bit(n, 0) == n % 2 && Bit(n, 1) == n / 2 % 2 && Bit(n, 2) == n / 4 % 2 && Bit(n, 3) == n / 8 % 2
    ensures Bit(n, 4) == n / 16 % 2 && Bit(n, 5) == n / 32 % 2 && Bit(n, 6) == n / 64 % 2 && Bit(n, 7) == n / 128 % 2
  {
    var a := n / 2;
    var b := a / 2;
    var c := b / 2;
    var d := c / 2;
    var e := d / 2;
    var f := e / 2;
    var g := f / 2;
    assert b == n / 4 && c == n / 8 && d == n / 16 && e == n / 32 && f == n / 64 && g == n / 128;
    assert Bit(n, 1) == Bit(a, 0) && Bit(n, 2) == Bit(a, 1) == Bit(b, 0);
    assert Bit(n, 3) == Bit(a, 2) == Bit(b, 1) == Bit(c, 0);
    assert Bit(n, 4) == Bit(a, 3) == Bit(b, 2) == Bit(c, 1) == Bit(d, 0);
    assert Bit(n, 5) == Bit(a, 4) == Bit(b, 3) == Bit(c, 2) == Bit(d, 1) == Bit(e, 0);
    assert Bit(n, 6) == Bit(a, 5) == Bit(b, 4) == Bit(c, 3) == Bit(d, 2) == Bit(e, 1) == Bit(f, 0);
    assert Bit(n, 7) == Bit(a, 6) == Bit(b, 5) == Bit(c, 4) == Bit(d, 3) == Bit(e, 2) == Bit(f, 1) == Bit(g, 0);
  }

  predicate Differ(a: nat, b: nat, unit: nat)
    requires unit > 0
  {
    a / unit % 2 != b / unit % 2
  }

  /** Each of the eight bits of `x` is set exactly when those of `a` and `b` differ. */
  predicate IsXor(x: byte, a: byte, b: byte) {
    && (x % 2 == 1 <==> Differ(a, b, 1)) && (x / 2 % 2 == 1 <==> Differ(a, b, 2))
    && (x / 4 % 2 == 1 <==> Differ(a, b, 4)) && (x / 8 % 2 == 1 <==> Differ(a, b, 8))
    && (x / 16 % 2 == 1 <==> Differ(a, b, 16)) && (x / 32 % 2 == 1 <==> Differ(a, b, 32))
    && (x / 64 % 2 == 1 <==> Differ(a, b, 64)) && (x / 128 % 2 == 1 <==> Differ(a, b, 128))
  }

  /** `Xor` is exclusive or, bit by bit. */
  lemma XorIsBitwise(a: byte, b: byte)
    ensures IsXor(Xor(a, b), a, b)
  {
    var x := Xor(a, b);
    forall k: nat | k < 8
      ensures Bit(x, k) == if Bit(a, k) == Bit(b, k) then 0 else 1
    {
      XorBitsAt(a, b, 8, k);
    }
    BitsAre(x);
    BitsAre(a);
    BitsAre(b);
  }

  /** `masked` is `data`, each byte under its byte of the key in turn. */
  predicate IsMasked(masked: Bytes, key: MaskKey, data: Bytes) {
    |masked| == |data| && forall i | 0 <= i < |data| :: IsXor(masked[i], data[i], key[i % 4])
  }

  lemma MaskedIsBitwise(key: MaskKey, data: Bytes)
    ensures IsMasked(Masked(key, data), key, data)
  {
    forall i | 0 <= i < |data|
      ensures IsXor(Masked(key, data)[i], data[i], key[i % 4])
    {
      XorIsBitwise(data[i], key[i % 4]);
    }
  }

  function Masked(key: MaskKey, data: Bytes): (r: Bytes)
    ensures |r| == |data|
  {
    seq(|data|, i requires 0 <= i < |data| => Xor(data[i], key[i % 4]))
  }

  /** Masking and unmasking are one operation, its own inverse. */
  lemma MaskedTwice(key: MaskKey, data: Bytes)
    ensures Masked(key, Masked(key, data)) == data
  {
    forall i | 0 <= i < |data|
      ensures Masked(key, Masked(key, data))[i] == data[i]
    {
      XorTwice(data[i], key[i % 4]);
    }
  }

  // ---- Writing ----

  function LengthBytes(masked: bool, n: nat): Bytes {
    var bit := if masked then 128 else 0;
    if n < 126 then [bit + n]
    else if n < 65536 then [bit + 126] + Be(n, 2)
    else [bit + 127] + Be(n, 8)
  }

  function FrameBytes(f: Frame): Bytes
    requires f.WellFormed()
  {
    [f.flags * 16 + f.opcode] + LengthBytes(f.mask.Some?, |f.payload|)
    + (match f.mask case Some(key) => key + Masked(key, f.payload) case None => f.payload)
  }

  /** The frame `sendBinary` writes. */
  function BinaryFrame(payload: Payload, key: MaskKey): (f: Frame)
    ensures f.WellFormed()
  {
    Frame(8, 2, Some(key), payload)
  }

  /** The three header forms a client writes. */
  lemma LengthForms(len: nat)
    requires len < 0x20_0000_0000_0000
    ensures [130] + LengthBytes(true, len)
            == if len < 126 then [130, 128 + len]
               else if len < 65536 then [130, 254] + Be(len, 2)
               else [130, 255] + Be(len, 8)
  {
  }

  lemma Behind(header: Bytes, key: MaskKey, masked: Bytes)
    ensures var written := header + key + masked;
            && |written| == |header| + 4 + |masked|
            && written[|header|..|header| + 4] == key && written[|header| + 4..] == masked
  {
  }

  lemma BinaryFrameIs(header: Bytes, key: MaskKey, payload: Payload)
    requires header == [130] + LengthBytes(true, |payload|)
    ensures header + key + Masked(key, payload) == FrameBytes(BinaryFrame(payload, key))
  {
    Assoc(header, key, Masked(key, payload));
  }

  method MaskPayload(payload: Payload, maskKey: MaskKey) returns (masked: Bytes)
    ensures masked == Masked(maskKey, payload) && IsMasked(masked, maskKey, payload)
  {
    MaskedIsBitwise(maskKey, payload);
    masked := [];
    ghost var goal := Masked(maskKey, payload);
    for i := 0 to |payload|
      invariant masked == goal[..i]
    {
      masked := masked + [Xor(payload[i], maskKey[i % 4])];
    }
    assert masked == goal;
  }

  method SendBinary(payload: Payload, maskKey: MaskKey) returns (written: Bytes)
    ensures written == FrameBytes(BinaryFrame(payload, maskKey))
    ensures var start := |written| - |payload|;
            start >= 6 && written[start - 4..start] == maskKey && IsMasked(written[start..], maskKey, payload)
  {
    var len := |payload|;
    var header: Bytes;
    if len < 126 {
      header := [130, 128 + len];
    } else if len < 65536 {
      header := [130, 254] + Be(len, 2);
    } else {
      header := [130, 255] + Be(len, 8);
    }
    LengthForms(len);
    assert header == [130] + LengthBytes(true, len) && |header| >= 2;
    var masked := MaskPayload(payload, maskKey);
    written := header + maskKey + masked;
    BinaryFrameIs(header, maskKey, payload);
    Behind(header, maskKey, masked);
  }

  // ---- Reading ----

  /** A parsed frame and how many bytes of the buffer it took. */
  datatype Parsed = Parsed(opcode: int, payload: Bytes, used: nat)

  /** Payload length and offset after the length bytes, if they have all arrived. */
  function ReadLength(buf: Bytes): Option<(nat, nat)>
    requires |buf| >= 2
  {
    var len := buf[1] % 128;
    if len == 126 then (if |buf| < 4 then None else Some((FromBe(buf[2..4]), 4)))
    else if len == 127 then (if |buf| < 10 then None else Some((FromBe(buf[2..10]), 10)))
    else Some((len, 2))
  }

  function Parse(buf: Bytes): (r: Option<Parsed>)
    ensures r.Some? ==> 0 < r.value.used <= |buf|
  {
    if |buf| < 2 then None
    else
      match ReadLength(buf)
      case None => None
      case Some((len, offset)) =>
        if buf[1] >= 128 then ParseMasked(buf, len, offset) else ParseBare(buf, len, offset)
  }

  /** A mask key and a masked payload of `len` bytes from `offset` on. */
  function ParseMasked(buf: Bytes, len: nat, offset: nat): (r: Option<Parsed>)
    requires |buf| > 0
    ensures r.Some? ==> r.value.used == offset + 4 + len <= |buf|
  {
    if |buf| < offset + 4 + len then None
    else
      Some(Parsed(buf[0] % 16, Masked(buf[offset..offset + 4], buf[offset + 4..offset + 4 + len]), offset + 4 + len))
  }

  function ParseBare(buf: Bytes, len: nat, offset: nat): (r: Option<Parsed>)
    requires |buf| > 0
    ensures r.Some? ==> r.value.used == offset + len <= |buf|
  {
    if |buf| < offset + len then None else Some(Parsed(buf[0] % 16, buf[offset..offset + len], offset + len))
  }

  lemma ExtendedLength(first: byte, marker: byte, n: nat, width: nat, rest: Bytes)
    requires n < Power256(width)
    ensures var buf := [first] + ([marker] + Be(n, width)) + rest;
            |buf| >= 2 + width && buf[1] == marker && FromBe(buf[2..2 + width]) == n
  {
    var buf := [first] + ([marker] + Be(n, width)) + rest;
    assert buf[2..2 + width] == Be(n, width);
    FromBeOfBe(n, width);
  }

  lemma ReadLengthOf(first: byte, masked: bool, n: nat, rest: Bytes)
    requires n < 0x20_0000_0000_0000
    ensures var buf := [first] + LengthBytes(masked, n) + rest;
            && |buf| >= 2 && buf[0] == first && (buf[1] >= 128 <==> masked)
            && ReadLength(buf) == Some((n, 1 + |LengthBytes(masked, n)|))
  {
    var bit := if masked then 128 else 0;
    if n < 126 {
      assert ([first] + [bit + n] + rest)[1] == bit + n;
    } else if n < 65536 {
      assert Power256(2) == 65536;
      ExtendedLength(first, bit + 126, n, 2, rest);
    } else {
      PowersOf256();
      ExtendedLength(first, bit + 127, n, 8, rest);
    }
  }

  lemma Slices(head: Bytes, a: Bytes, b: Bytes, c: Bytes)
    ensures var buf := head + a + b + c;
            && |buf| >= |head| + |a| + |b| && buf[..|head|] == head
            && buf[|head|..|head| + |a|] == a && buf[|head| + |a|..|head| + |a| + |b|] == b
  {
  }

  /** The payload of a masked frame is the bytes on the wire, each exclusive-ored with its mask byte. */
  lemma PayloadIsUnmasked(buf: Bytes, len: nat, offset: nat)
    requires |buf| > 0 && ParseMasked(buf, len, offset).Some?
    ensures IsMasked(ParseMasked(buf, len, offset).value.payload, buf[offset..offset + 4], buf[offset + 4..offset + 4 + len])
  {
    MaskedIsBitwise(buf[offset..offset + 4], buf[offset + 4..offset + 4 + len]);
  }

  lemma ParseTakesMasked(first: byte, key: MaskKey, payload: Payload, rest: Bytes)
    ensures var head := [first] + LengthBytes(true, |payload|);
            Parse(head + key + Masked(key, payload) + rest)
            == Some(Parsed(first % 16, payload, |head| + 4 + |payload|))
  {
    var head := [first] + LengthBytes(true, |payload|);
    var data := Masked(key, payload);
    var buf := head + key + data + rest;
    ReadLengthOf(first, true, |payload|, key + data + rest);
    ThreeParts(head, key, data, rest);
    Slices(head, key, data, rest);
    assert Parse(buf) == ParseMasked(buf, |payload|, |head|);
    MaskedTwice(key, payload);
  }

  lemma ParseTakesBare(first: byte, payload: Payload, rest: Bytes)
    ensures var head := [first] + LengthBytes(false, |payload|);
            Parse(head + payload + rest) == Some(Parsed(first % 16, payload, |head| + |payload|))
  {
    var head := [first] + LengthBytes(false, |payload|);
    var buf := head + payload + rest;
    ReadLengthOf(first, false, |payload|, payload + rest);
    Assoc(head, payload, rest);
    Slices(head, payload, rest, []);
    assert buf + [] == buf;
    assert Parse(buf) == ParseBare(buf, |payload|, |head|);
  }

  lemma ThreeParts(head: Bytes, a: Bytes, b: Bytes, rest: Bytes)
    ensures head + (a + b + rest) == head + a + b + rest == head + (a + b) + rest
  {
  }

  lemma MaskedFrameLayout(f: Frame, rest: Bytes)
    requires f.WellFormed() && f.mask.Some?
    ensures var head := [f.flags * 16 + f.opcode] + LengthBytes(true, |f.payload|);
            && FrameBytes(f) + rest == head + f.mask.value + Masked(f.mask.value, f.payload) + rest
            && |FrameBytes(f)| == |head| + 4 + |f.payload|
  {
    var head := [f.flags * 16 + f.opcode] + LengthBytes(true, |f.payload|);
    ThreeParts(head, f.mask.value, Masked(f.mask.value, f.payload), rest);
  }

  lemma BareFrameLayout(f: Frame, rest: Bytes)
    requires f.WellFormed() && f.mask.None?
    ensures var head := [f.flags * 16 + f.opcode] + LengthBytes(false, |f.payload|);
            FrameBytes(f) + rest == head + f.payload + rest && |FrameBytes(f)| == |head| + |f.payload|
  {
  }

  /** Parsing takes exactly the frame off the front of the buffer, payload unmasked. */
  lemma ParseTakesTheFrame(f: Frame, rest: Bytes)
    requires f.WellFormed()
    ensures Parse(FrameBytes(f) + rest) == Some(Parsed(f.opcode, f.payload, |FrameBytes(f)|))
  {
    var first := f.flags * 16 + f.opcode;
    assert first % 16 == f.opcode;
    match f.mask
    case Some(key) =>
      MaskedFrameLayout(f, rest);
      ParseTakesMasked(first, key, f.payload, rest);
    case None =>
      BareFrameLayout(f, rest);
      ParseTakesBare(first, f.payload, rest);
  }

  /** What has been parsed does not depend on what arrives later. */
  lemma ParseIsStable(buf: Bytes, more: Bytes)
    requires Parse(buf).Some?
    ensures Parse(buf + more) == Parse(buf)
  {
    var whole := buf + more;
    assert forall i, j | 0 <= i <= j <= |buf| :: whole[i..j] == buf[i..j];
  }

  // ---- Draining a buffer ----

  /** A reader makes progress, and what it has read does not depend on what arrives later. */
  ghost predicate Incremental(reader: Bytes -> Option<Parsed>) {
    && (forall buf :: reader(buf).Some? ==> 0 < reader(buf).value.used <= |buf|)
    && (forall buf, more {:trigger reader(buf + more)} :: reader(buf).Some? ==> reader(buf + more) == reader(buf))
  }

  /** A reader that takes a frame off the front of a buffer once it has all arrived. */
  type Reader = r: Bytes -> Option<Parsed> | Incremental(r) witness (buf: Bytes) => None

  lemma ParseIsIncremental()
    ensures Incremental(Parse)
  {
    forall buf, more | Parse(buf).Some?
      ensures Parse(buf + more) == Parse(buf)
    {
      ParseIsStable(buf, more);
    }
  }

  function FrameReader(): Reader {
    ParseIsIncremental();
    Parse
  }

  /** Messages, what is left of the buffer, and whether a close frame stopped the draining. */
  datatype Drained = Drained(messages: seq<Bytes>, rest: Bytes, sawClose: bool)

  function Drain(reader: Reader, buf: Bytes): Drained
    decreases |buf|
  {
    match reader(buf)
    case None => Drained([], buf, false)
    case Some(p) =>
      var rest := buf[p.used..];
      if p.opcode == 8 then Drained([], rest, true)
      else
        var d := Drain(reader, rest);
        d.(messages := Message(p) + d.messages)
  }

  /** Text and binary frames carry messages; all other opcodes are dropped. */
  function Message(p: Parsed): seq<Bytes> {
    if p.opcode == 1 || p.opcode == 2 then [p.payload] else []
  }

  function Prepend(messages: seq<Bytes>, d: Drained): Drained {
    d.(messages := messages + d.messages)
  }

  lemma DrainTakes(reader: Reader, buf: Bytes, p: Parsed)
    requires reader(buf) == Some(p) && p.opcode != 8
    ensures Drain(reader, buf) == Prepend(Message(p), Drain(reader, buf[p.used..]))
  {
  }

  lemma PrependTwice(x: seq<Bytes>, y: seq<Bytes>, d: Drained)
    ensures Prepend(x, Prepend(y, d)) == Prepend(x + y, d)
  {
    assert x + (y + d.messages) == (x + y) + d.messages;
  }

  /** Draining in two instalments is draining once. */
  lemma {:induction false} DrainInInstalments(reader: Reader, a: Bytes, b: Bytes)
    requires !Drain(reader, a).sawClose
    ensures Drain(reader, a + b) == Prepend(Drain(reader, a).messages, Drain(reader, Drain(reader, a).rest + b))
    decreases |a|
  {
    if reader(a).Some? {
      var p := reader(a).value;
      var rest := a[p.used..];
      assert reader(a + b) == reader(a);
      assert (a + b)[p.used..] == rest + b;
      DrainTakes(reader, a, p);
      DrainTakes(reader, a + b, p);
      DrainInInstalments(reader, rest, b);
      PrependTwice(Message(p), Drain(reader, rest).messages, Drain(reader, Drain(reader, rest).rest + b));
    } else {
      var z := Drain(reader, a + b).messages;
      assert [] + z == z;
    }
  }

  // ---- A wire full of frames ----

  function Wire(frames: seq<Frame>): Bytes
    requires forall i | 0 <= i < |frames| :: frames[i].WellFormed()
  {
    if frames == [] then [] else FrameBytes(frames[0]) + Wire(frames[1..])
  }

  function Payloads(frames: seq<Frame>): seq<Bytes> {
    if frames == [] then []
    else (if frames[0].opcode == 1 || frames[0].opcode == 2 then [frames[0].payload] else []) + Payloads(frames[1..])
  }

  /** Draining the wire of any frames but close frames yields their payloads, and all of them. */
  lemma {:induction false} DrainReadsTheWire(frames: seq<Frame>)
    requires forall i | 0 <= i < |frames| :: frames[i].WellFormed() && frames[i].opcode != 8
    ensures Drain(FrameReader(), Wire(frames)) == Drained(Payloads(frames), [], false)
  {
    if frames != [] {
      var f, rest := frames[0], Wire(frames[1..]);
      ParseTakesTheFrame(f, rest);
      DrainReadsTheWire(frames[1..]);
      assert (FrameBytes(f) + rest)[|FrameBytes(f)|..] == rest;
      DrainTakes(FrameReader(), FrameBytes(f) + rest, Parsed(f.opcode, f.payload, |FrameBytes(f)|));
    }
  }

  /** A close frame stops the draining: the payloads before it are there, and what follows stays unread. */
  lemma {:induction false} DrainStopsAtClose(frames: seq<Frame>, close: Frame, rest: Bytes)
    requires forall i | 0 <= i < |frames| :: frames[i].WellFormed() && frames[i].opcode != 8
    requires close.WellFormed() && close.opcode == 8
    ensures Drain(FrameReader(), Wire(frames) + (FrameBytes(close) + rest)) == Drained(Payloads(frames), rest, true)
  {
    if frames == [] {
      ParseTakesTheFrame(close, rest);
      assert Wire(frames) + (FrameBytes(close) + rest) == FrameBytes(close) + rest;
      assert (FrameBytes(close) + rest)[|FrameBytes(close)|..] == rest;
    } else {
      var f, later := frames[0], Wire(frames[1..]) + (FrameBytes(close) + rest);
      DrainStopsAtClose(frames[1..], close, rest);
      Assoc(FrameBytes(f), Wire(frames[1..]), FrameBytes(close) + rest);
      ParseTakesTheFrame(f, later);
      assert (FrameBytes(f) + later)[|FrameBytes(f)|..] == later;
      DrainTakes(FrameReader(), FrameBytes(f) + later, Parsed(f.opcode, f.payload, |FrameBytes(f)|));
    }
  }
}

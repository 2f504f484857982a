/** The wire forms written out field by field in the order of the source: the codecs' records, the bytes
    under a match reference, the two-byte frames and the WebSocket frames. */
module WireLayouts {
  import opened Wrappers
  import opened Bytes
  import opened SignedObjects
  import opened Layouts
  import opened Codecs
  import Hex
  import Marketplace
  import AppFrames
  import WebSocketFrames

  // ---- The codecs' records ----

  function DirectionCode(d: Direction): Bytes {
    match d case Initiate => [1] case Accept => [2] case Both => [3]
  }

  function RightsCode(r: Rights): Bytes {
    match r case Read => [1] case Write => [2] case ReadWrite => [3]
  }

  lemma ClaimsRecord(x: SignedClaims)
    ensures ClaimsWire(x)
            == x.signature + (x.claims.channel + (x.claims.party + (DirectionCode(x.claims.direction)
               + (RightsCode(x.claims.rights) + ((if x.claims.delegable then [1] else [0]) + Le64(x.claims.expiresAt))))))
  {
    Primitives();
  }

  lemma StapleRecord(x: SignedStaple)
    ensures StapleWire(x)
            == x.signature + (x.staple.channel + (x.staple.holder + (Le64(x.staple.stapledAt) + Le64(x.staple.expiresAt))))
  {
    Primitives();
  }

  lemma CredentialRecord(x: SignedCredential)
    ensures CredentialWire(x)
            == x.signature + Str(x.credential.tenant, Str(x.credential.agent, Le64(x.credential.expiresAt)))
  {
    Primitives();
  }

  lemma BindingRecord(x: SignedBinding)
    ensures BindingWire(x)
            == x.signature + Str(x.binding.tunnelId, x.binding.tokenHash + (x.binding.agentKey
               + (Le64(x.binding.issuedAt) + Le64(x.binding.expiresAt))))
  {
    Primitives();
  }

  /** The longest tunnel id is 128 bytes. */
  lemma TunnelIdCap()
    ensures MAX_TUNNEL_ID_LEN == 128 && MAX_ENCODED_LEN == 512
  {
  }

  lemma ReceiptRecord(x: CoSignedReceipt)
    ensures ReceiptWire(x)
            == x.receipt.provider + (x.receipt.consumer + (Kind(x.receipt.kind) + Str(x.receipt.model,
               Le64(x.receipt.unitsConsumed) + (x.receipt.matchRef + (Le64(x.receipt.issuedAt)
               + (x.receipt.requestHash + (x.receipt.responseHash + (x.providerSig + x.consumerSig))))))))
  {
    Primitives();
    assert x.consumerSig + [] == x.consumerSig;
  }

  // ---- The match reference ----

  lemma MatchRecord(o: Offer, b: Bid)
    ensures Marketplace.MatchPreimage(o, b)
            == Chars("ct-capacity-match-v1") + (o.holder + (b.bidder + (Kind(b.kind) + Str(b.model,
               Le64(b.units) + (Le64(b.totalPrice) + (Le64(b.issuedAt) + Le64(o.issuedAt)))))))
  {
    Primitives();
    AsciiIsChars("ct-capacity-match-v1");
  }

  // ---- Frames ----

  /** Two length bytes, high byte first, cut to 16 bits, and the body. */
  lemma FrameRecord(msg: Bytes)
    ensures AppFrames.Frame(msg) == [|msg| / 256 % 256, |msg| % 256] + msg
  {
  }

  lemma {:induction false} BeDigit(n: nat, width: nat, i: nat)
    requires i < width
    ensures WebSocketFrames.Be(n, width)[i] == Shifted(n, width - 1 - i) % 256
  {
    if i < width - 1 {
      BeDigit(n / 256, width - 1, i);
    }
  }

  /** `n` without its last `k` base-256 digits. */
  function Shifted(n: nat, k: nat): nat {
    if k == 0 then n else Shifted(n / 256, k - 1)
  }

  function Be64(n: nat): Bytes {
    [n / 72_057_594_037_927_936 % 256, n / 281_474_976_710_656 % 256, n / 1_099_511_627_776 % 256, n / 4_294_967_296 % 256,
     n / 16_777_216 % 256, n / 65_536 % 256, n / 256 % 256, n % 256]
  }

  lemma ShiftsAre(n: nat)
    ensures Shifted(n, 1) == n / 256 && Shifted(n, 2) == n / 65_536 && Shifted(n, 3) == n / 16_777_216
    ensures Shifted(n, 4) == n / 4_294_967_296 && Shifted(n, 5) == n / 1_099_511_627_776
    ensures Shifted(n, 6) == n / 281_474_976_710_656 && Shifted(n, 7) == n / 72_057_594_037_927_936
  {
    var a := n / 256;
    var b := a / 256;
    var c := b / 256;
    var d := c / 256;
    var e := d / 256;
    var f := e / 256;
    var g := f / 256;
    assert b == n / 65_536 && c == n / 16_777_216 && d == n / 4_294_967_296;
    assert e == n / 1_099_511_627_776 && f == n / 281_474_976_710_656 && g == n / 72_057_594_037_927_936;
    assert Shifted(n, 1) == Shifted(a, 0) && Shifted(n, 2) == Shifted(a, 1) == Shifted(b, 0);
    assert Shifted(n, 3) == Shifted(a, 2) == Shifted(b, 1) == Shifted(c, 0);
    assert Shifted(n, 4) == Shifted(a, 3) == Shifted(b, 2) == Shifted(c, 1) == Shifted(d, 0);
    assert Shifted(n, 5) == Shifted(a, 4) == Shifted(b, 3) == Shifted(c, 2) == Shifted(d, 1) == Shifted(e, 0);
    assert Shifted(n, 6) == Shifted(a, 5) == Shifted(b, 4) == Shifted(c, 3) == Shifted(d, 2) == Shifted(e, 1) == Shifted(f, 0);
    assert Shifted(n, 7) == Shifted(a, 6) == Shifted(b, 5) == Shifted(c, 4) == Shifted(d, 3) == Shifted(e, 2) == Shifted(f, 1)
           == Shifted(g, 0);
  }

  lemma BeIsBe64(n: nat)
    ensures WebSocketFrames.Be(n, 8) == Be64(n) && WebSocketFrames.Be(n, 2) == [n / 256 % 256, n % 256]
  {
    ShiftsAre(n);
    forall i: nat | i < 8
      ensures WebSocketFrames.Be(n, 8)[i] == Be64(n)[i]
    {
      BeDigit(n, 8, i);
    }
    BeDigit(n, 2, 0);
    BeDigit(n, 2, 1);
  }

  /** The length in one of three forms. */
  function LengthForm(bit: nat, n: nat): Bytes
    requires bit == 0 || bit == 128
  {
    if n <= 125 then [bit + n]
    else if n <= 65_535 then [bit + 126] + [n / 256 % 256, n % 256]
    else [bit + 127] + Be64(n)
  }

  lemma LengthRecord(masked: bool, n: nat)
    ensures WebSocketFrames.LengthBytes(masked, n) == LengthForm(if masked then 128 else 0, n)
  {
    BeIsBe64(n);
  }

  /** A WebSocket frame: flags and opcode, the mask bit with the length, the mask key, the payload under the
      mask. */
  lemma WebSocketRecord(f: WebSocketFrames.Frame)
    requires f.WellFormed()
    ensures WebSocketFrames.FrameBytes(f)
            == [16 * f.flags + f.opcode] + LengthForm(if f.mask.Some? then 128 else 0, |f.payload|)
               + (match f.mask case None => f.payload case Some(key) => key + WebSocketFrames.Masked(key, f.payload))
  {
    LengthRecord(f.mask.Some?, |f.payload|);
  }

  /** What `sendBinary` writes: a final binary frame, 0x82, masked. */
  lemma BinaryRecord(payload: WebSocketFrames.Payload, key: WebSocketFrames.MaskKey)
    ensures WebSocketFrames.FrameBytes(WebSocketFrames.BinaryFrame(payload, key))
            == [0x82] + LengthForm(0x80, |payload|) + (key + WebSocketFrames.Masked(key, payload))
  {
    WebSocketRecord(WebSocketFrames.BinaryFrame(payload, key));
  }
}

/** The strict binary codecs: each decoder accepts exactly the bytes its encoder writes. */
module Codecs {
  import opened Wrappers
  import opened Bytes
  import opened SignedObjects

  // ---- Reading one field off the front of a cursor ----

  method TakeFix(cur: Bytes, n: nat) returns (r: Option<(Bytes, Bytes)>)
    ensures match r
            case Some((b, rest)) => |b| == n && cur == Fix(b, rest)
            case None => |cur| < n && forall b, rest | |b| == n :: Fix(b, rest) != cur
  {
    if |cur| < n {
      return None;
    }
    return Some((cur[..n], cur[n..]));
  }

  method TakeTag(cur: Bytes) returns (r: Option<(byte, Bytes)>)
    ensures match r
            case Some((t, rest)) => cur == Tag(t, rest)
            case None => forall t, rest :: Tag(t, rest) != cur
  {
    if |cur| < 1 {
      return None;
    }
    return Some((cur[0], cur[1..]));
  }

  method TakeU64(cur: Bytes) returns (r: Option<(u64, Bytes)>)
    ensures match r
            case Some((n, rest)) => cur == U64(n, rest)
            case None => forall n: u64, rest :: U64(n, rest) != cur
  {
    if |cur| < 8 {
      return None;
    }
    LeOfFromLe(cur[..8]);
    PowersOf256();
    return Some((FromLe(cur[..8]), cur[8..]));
  }

  /** A u32 length, bounded by what is left of the cursor, then that many bytes. */
  method TakeVar(cur: Bytes) returns (r: Option<(Field, Bytes)>)
    ensures match r
            case Some((b, rest)) => cur == Var(b, rest)
            case None => forall b: Field, rest :: Var(b, rest) != cur
  {
    if |cur| < 4 {
      return None;
    }
    var n := FromLe(cur[..4]);
    LeOfFromLe(cur[..4]);
    PowersOf256();
    var tail := cur[4..];
    if |tail| < n {
      forall b: Field, rest
        ensures Var(b, rest) != cur
      {
        if Var(b, rest) == cur {
          SplitEqual(Le(|b|, 4), b + rest, cur[..4], tail);
          FromLeOfLe(|b|, 4);
        }
      }
      return None;
    }
    assert tail == tail[..n] + tail[n..];
    return Some((tail[..n], tail[n..]));
  }

  // ---- Enumerations ----

  function DirectionByte(d: Direction): byte {
    match d case Initiate => 1 case Accept => 2 case Both => 3
  }

  function DirectionFrom(b: byte): (r: Option<Direction>)
    ensures forall d :: r == Some(d) <==> DirectionByte(d) == b
  {
    match b case 1 => Some(Initiate) case 2 => Some(Accept) case 3 => Some(Both) case _ => None
  }

  function RightsByte(r: Rights): byte {
    match r case Read => 1 case Write => 2 case ReadWrite => 3
  }

  function RightsFrom(b: byte): (r: Option<Rights>)
    ensures forall x :: r == Some(x) <==> RightsByte(x) == b
  {
    match b case 1 => Some(Read) case 2 => Some(Write) case 3 => Some(ReadWrite) case _ => None
  }

  function BoolByte(b: bool): byte {
    if b then 1 else 0
  }

  function BoolFrom(b: byte): (r: Option<bool>)
    ensures forall x :: r == Some(x) <==> BoolByte(x) == b
  {
    if b == 0 then Some(false) else if b == 1 then Some(true) else None
  }

  function KindFrom(b: byte): (r: Option<CapacityKind>)
    ensures forall k :: r == Some(k) <==> KindTag(k) == b
  {
    match b case 0 => Some(CloudApiQuota) case 1 => Some(LocalHardware) case _ => None
  }

  datatype Malformed = Malformed

  // ---- SignedChannelGrant and SignedChannelInvitation: one layout ----

  datatype SignedClaims = SignedClaims(claims: Claims, signature: Signature)

  function ClaimsWire(x: SignedClaims): Bytes {
    var c := x.claims;
    Fix(x.signature, Fix(c.channel, Fix(c.party, Tag(DirectionByte(c.direction), Tag(RightsByte(c.rights),
    Tag(BoolByte(c.delegable), U64(c.expiresAt, [])))))))
  }

  method EncodeClaims(x: SignedClaims) returns (out: Bytes)
    ensures out == ClaimsWire(x) && |out| == 139
  {
    var c := x.claims;
    out := x.signature;
    out := out + c.channel;
    out := out + c.party;
    out := out + [DirectionByte(c.direction)];
    out := out + [RightsByte(c.rights)];
    out := out + [BoolByte(c.delegable)];
    out := out + Le(c.expiresAt, 8);
  }

  method DecodeClaims(bytes: Bytes) returns (r: Result<SignedClaims, Malformed>)
    ensures forall x :: r == Ok(x) <==> ClaimsWire(x) == bytes
  {
    FieldsAreReadable();
    r := Err(Malformed);
    var signature := TakeFix(bytes, 64);
    if signature.None? { return; }
    var channel := TakeFix(signature.value.1, 32);
    if channel.None? { return; }
    var party := TakeFix(channel.value.1, 32);
    if party.None? { return; }
    var direction := TakeTag(party.value.1);
    if direction.None? || DirectionFrom(direction.value.0).None? { return; }
    var rights := TakeTag(direction.value.1);
    if rights.None? || RightsFrom(rights.value.0).None? { return; }
    var delegable := TakeTag(rights.value.1);
    if delegable.None? || BoolFrom(delegable.value.0).None? { return; }
    var expiresAt := TakeU64(delegable.value.1);
    if expiresAt.None? || expiresAt.value.1 != [] { return; }
    r := Ok(SignedClaims(
      Claims(channel.value.0, party.value.0, DirectionFrom(direction.value.0).value, RightsFrom(rights.value.0).value,
             BoolFrom(delegable.value.0).value, expiresAt.value.0),
      signature.value.0));
  }

  // ---- ChannelJoinRequest: a grant, and the endpoint up to the end ----

  type Utf8 = b: Bytes | IsUtf8(b)

  datatype JoinRequest = JoinRequest(grant: SignedClaims, endpoint: Utf8)

  function JoinWire(x: JoinRequest): Bytes {
    ClaimsWire(x.grant) + x.endpoint
  }

  method EncodeJoin(x: JoinRequest) returns (out: Bytes)
    ensures out == JoinWire(x) && |out| == 139 + |x.endpoint|
  {
    out := EncodeClaims(x.grant);
    out := out + x.endpoint;
  }

  lemma JoinSplits(x: JoinRequest, bytes: Bytes)
    requires |bytes| >= 139
    ensures JoinWire(x) == bytes <==> ClaimsWire(x.grant) == bytes[..139] && x.endpoint == bytes[139..]
  {
    assert |ClaimsWire(x.grant)| == 139;
    assert JoinWire(x)[..139] == ClaimsWire(x.grant) && JoinWire(x)[139..] == x.endpoint;
    assert bytes == bytes[..139] + bytes[139..];
  }

  /** Accepts exactly the encodings with a non-empty endpoint. */
  method DecodeJoin(bytes: Bytes) returns (r: Result<JoinRequest, Malformed>)
    ensures forall x :: r == Ok(x) <==> JoinWire(x) == bytes && x.endpoint != []
  {
    if |bytes| <= 139 {
      forall x: JoinRequest
        ensures !(JoinWire(x) == bytes && x.endpoint != [])
      {
        assert |ClaimsWire(x.grant)| == 139;
      }
      return Err(Malformed);
    }
    forall x: JoinRequest
      ensures JoinWire(x) == bytes <==> ClaimsWire(x.grant) == bytes[..139] && x.endpoint == bytes[139..]
    {
      JoinSplits(x, bytes);
    }
    var grant := DecodeClaims(bytes[..139]);
    if grant.Err? || !IsUtf8(bytes[139..]) {
      return Err(Malformed);
    }
    r := Ok(JoinRequest(grant.value, bytes[139..]));
  }

  // ---- MembershipStaple ----

  datatype SignedStaple = SignedStaple(staple: Staple, signature: Signature)

  function StapleWire(x: SignedStaple): Bytes {
    var s := x.staple;
    Fix(x.signature, Fix(s.channel, Fix(s.holder, U64(s.stapledAt, U64(s.expiresAt, [])))))
  }

  method EncodeStaple(x: SignedStaple) returns (out: Bytes)
    ensures out == StapleWire(x) && |out| == 144
  {
    var s := x.staple;
    out := x.signature;
    out := out + s.channel;
    out := out + s.holder;
    out := out + Le(s.stapledAt, 8);
    out := out + Le(s.expiresAt, 8);
  }

  method DecodeStaple(bytes: Bytes) returns (r: Result<SignedStaple, Malformed>)
    ensures forall x :: r == Ok(x) <==> StapleWire(x) == bytes
  {
    FieldsAreReadable();
    r := Err(Malformed);
    var signature := TakeFix(bytes, 64);
    if signature.None? { return; }
    var channel := TakeFix(signature.value.1, 32);
    if channel.None? { return; }
    var holder := TakeFix(channel.value.1, 32);
    if holder.None? { return; }
    var stapledAt := TakeU64(holder.value.1);
    if stapledAt.None? { return; }
    var expiresAt := TakeU64(stapledAt.value.1);
    if expiresAt.None? || expiresAt.value.1 != [] { return; }
    r := Ok(SignedStaple(Staple(channel.value.0, holder.value.0, stapledAt.value.0, expiresAt.value.0), signature.value.0));
  }

  // ---- SignedCredential ----

  datatype SignedCredential = SignedCredential(credential: Credential, signature: Signature)

  function CredentialWire(x: SignedCredential): Bytes {
    var c := x.credential;
    Fix(x.signature, Var(c.tenant, Var(c.agent, U64(c.expiresAt, []))))
  }

  method EncodeCredential(x: SignedCredential) returns (out: Bytes)
    ensures out == CredentialWire(x)
  {
    var c := x.credential;
    ghost var expiry := U64(c.expiresAt, []);
    out := AppendFix([], x.signature, Var(c.tenant, Var(c.agent, expiry)));
    out := AppendVar(out, c.tenant, Var(c.agent, expiry));
    out := AppendVar(out, c.agent, expiry);
    out := AppendU64(out, c.expiresAt, []);
    assert out + [] == out;
  }

  method DecodeCredential(bytes: Bytes) returns (r: Result<SignedCredential, Malformed>)
    ensures forall x :: r == Ok(x) <==> CredentialWire(x) == bytes
  {
    FieldsAreReadable();
    r := Err(Malformed);
    var signature := TakeFix(bytes, 64);
    if signature.None? { return; }
    var tenant := TakeVar(signature.value.1);
    if tenant.None? || !IsUtf8(tenant.value.0) { return; }
    var agent := TakeVar(tenant.value.1);
    if agent.None? || !IsUtf8(agent.value.0) { return; }
    var expiresAt := TakeU64(agent.value.1);
    if expiresAt.None? || expiresAt.value.1 != [] { return; }
    r := Ok(SignedCredential(Credential(tenant.value.0, agent.value.0, expiresAt.value.0), signature.value.0));
  }

  // ---- SignedAgentBinding ----

  const MAX_ENCODED_LEN := 512
  const MAX_TUNNEL_ID_LEN := 128

  datatype BindingError = BadBinding | TunnelIdTooLong

  datatype SignedBinding = SignedBinding(binding: Binding, signature: Signature)

  function BindingWire(x: SignedBinding): Bytes {
    var b := x.binding;
    Fix(x.signature, Var(b.tunnelId, Fix(b.tokenHash, Fix(b.agentKey, U64(b.issuedAt, U64(b.expiresAt, []))))))
  }

  method EncodeBinding(x: SignedBinding) returns (out: Bytes)
    ensures out == BindingWire(x) && |out| == 148 + |x.binding.tunnelId|
  {
    var b := x.binding;
    out := x.signature;
    out := out + Le(|b.tunnelId|, 4);
    out := out + b.tunnelId;
    out := out + b.tokenHash;
    out := out + b.agentKey;
    out := out + Le(b.issuedAt, 8);
    out := out + Le(b.expiresAt, 8);
  }

  /** Accepts exactly the encodings whose `tunnel_id` is at most 128 bytes; none of those is long
      enough for the 512-byte cap to matter. */
  method DecodeBinding(bytes: Bytes) returns (r: Result<SignedBinding, BindingError>)
    ensures forall x :: r == Ok(x) <==> BindingWire(x) == bytes && |x.binding.tunnelId| <= MAX_TUNNEL_ID_LEN
    ensures r == Err(TunnelIdTooLong) <==> 68 <= |bytes| <= MAX_ENCODED_LEN && FromLe(bytes[64..68]) > MAX_TUNNEL_ID_LEN
  {
    FieldsAreReadable();
    r := Err(BadBinding);
    if |bytes| > MAX_ENCODED_LEN { return; }
    var signature := TakeFix(bytes, 64);
    if signature.None? { return; }
    var cur := signature.value.1;
    if |cur| < 4 { return; }
    assert cur[..4] == bytes[64..68];
    if FromLe(cur[..4]) > MAX_TUNNEL_ID_LEN {
      forall x: SignedBinding
        ensures !(BindingWire(x) == bytes && |x.binding.tunnelId| <= MAX_TUNNEL_ID_LEN)
      {
        LengthIsRead(x, bytes);
      }
      return Err(TunnelIdTooLong);
    }
    var tunnelId := TakeVar(cur);
    if tunnelId.None? || !IsUtf8(tunnelId.value.0) { return; }
    var tokenHash := TakeFix(tunnelId.value.1, 32);
    if tokenHash.None? { return; }
    var agentKey := TakeFix(tokenHash.value.1, 32);
    if agentKey.None? { return; }
    var issuedAt := TakeU64(agentKey.value.1);
    if issuedAt.None? { return; }
    var expiresAt := TakeU64(issuedAt.value.1);
    if expiresAt.None? || expiresAt.value.1 != [] { return; }
    var b := Binding(tunnelId.value.0, tokenHash.value.0, agentKey.value.0, issuedAt.value.0, expiresAt.value.0);
    r := Ok(SignedBinding(b, signature.value.0));
    LengthIsRead(r.value, bytes);
  }

  lemma LengthIsRead(x: SignedBinding, bytes: Bytes)
    ensures BindingWire(x) == bytes ==> |bytes| >= 68 && FromLe(bytes[64..68]) == |x.binding.tunnelId|
  {
    if BindingWire(x) == bytes {
      var id := x.binding.tunnelId;
      assert bytes[64..68] == Le(|id|, 4);
      PowersOf256();
      FromLeOfLe(|id|, 4);
    }
  }

  // ---- UsageReceipt ----

  datatype CoSignedReceipt = CoSignedReceipt(receipt: Receipt, providerSig: Signature, consumerSig: Signature)

  function ReceiptWire(x: CoSignedReceipt): Bytes {
    var r := x.receipt;
    Fix(r.provider, Fix(r.consumer, Tag(KindTag(r.kind), Var(r.model, U64(r.unitsConsumed, Fix(r.matchRef, U64(r.issuedAt,
    Fix(r.requestHash, Fix(r.responseHash, Fix(x.providerSig, Fix(x.consumerSig, [])))))))))))
  }

  method EncodeReceipt(x: CoSignedReceipt) returns (out: Bytes)
    ensures out == ReceiptWire(x)
  {
    var r := x.receipt;
    ghost var t6 := Fix(x.providerSig, Fix(x.consumerSig, []));
    ghost var t5 := Fix(r.requestHash, Fix(r.responseHash, t6));
    ghost var t4 := Fix(r.matchRef, U64(r.issuedAt, t5));
    ghost var t3 := Var(r.model, U64(r.unitsConsumed, t4));
    out := AppendFix([], r.provider, Fix(r.consumer, Tag(KindTag(r.kind), t3)));
    out := AppendFix(out, r.consumer, Tag(KindTag(r.kind), t3));
    out := AppendTag(out, KindTag(r.kind), t3);
    out := AppendVar(out, r.model, U64(r.unitsConsumed, t4));
    out := AppendU64(out, r.unitsConsumed, t4);
    out := AppendFix(out, r.matchRef, U64(r.issuedAt, t5));
    out := AppendU64(out, r.issuedAt, t5);
    out := AppendFix(out, r.requestHash, Fix(r.responseHash, t6));
    out := AppendFix(out, r.responseHash, t6);
    out := AppendFix(out, x.providerSig, Fix(x.consumerSig, []));
    out := AppendFix(out, x.consumerSig, []);
    assert out + [] == out;
  }

  method DecodeReceipt(bytes: Bytes) returns (r: Option<CoSignedReceipt>)
    ensures forall x :: r == Some(x) <==> ReceiptWire(x) == bytes
  {
    FieldsAreReadable();
    r := None;
    var provider := TakeFix(bytes, 32);
    if provider.None? { return; }
    var consumer := TakeFix(provider.value.1, 32);
    if consumer.None? { return; }
    var kind := TakeTag(consumer.value.1);
    if kind.None? || KindFrom(kind.value.0).None? { return; }
    var model := TakeVar(kind.value.1);
    if model.None? || !IsUtf8(model.value.0) { return; }
    var units := TakeU64(model.value.1);
    if units.None? { return; }
    var matchRef := TakeFix(units.value.1, 32);
    if matchRef.None? { return; }
    var issuedAt := TakeU64(matchRef.value.1);
    if issuedAt.None? { return; }
    var requestHash := TakeFix(issuedAt.value.1, 32);
    if requestHash.None? { return; }
    var responseHash := TakeFix(requestHash.value.1, 32);
    if responseHash.None? { return; }
    var providerSig := TakeFix(responseHash.value.1, 64);
    if providerSig.None? { return; }
    var consumerSig := TakeFix(providerSig.value.1, 64);
    if consumerSig.None? || consumerSig.value.1 != [] { return; }
    var receipt := Receipt(provider.value.0, consumer.value.0, KindFrom(kind.value.0).value, model.value.0, units.value.0,
                           matchRef.value.0, issuedAt.value.0, requestHash.value.0, responseHash.value.0);
    r := Some(CoSignedReceipt(receipt, providerSig.value.0, consumerSig.value.0));
  }
}

/** Every object the channel plane signs, the bytes that are signed, and the proof that those
    bytes determine the kind of the object and all of its fields. */
module SignedObjects {
  import opened Wrappers
  import opened Bytes
  import Hex

  /** A list whose length a 32-bit count can describe. */
  type Counted<T> = xs: seq<T> | |xs| < U32_LIMIT

  /** ed25519 verification, key decoding included: any predicate on key, message, signature. */
  type Verifier = (Key, Bytes, Signature) -> bool

  // ---- The objects ----

  datatype Direction = Initiate | Accept | Both
  datatype Rights = Read | Write | ReadWrite

  /** The claims of a channel grant (`party` is the holder key) and of a channel invitation
      (`party` is the invitee identity): the same six fields under different domains. */
  datatype Claims = Claims(channel: Key, party: Key, direction: Direction, rights: Rights, delegable: bool, expiresAt: u64)

  datatype Staple = Staple(channel: Key, holder: Key, stapledAt: u64, expiresAt: u64)

  datatype Skill = Skill(id: Text, description: Text, examples: Counted<Text>)

  datatype Card = Card(holder: Key, roleTags: Counted<Text>, skills: Counted<Skill>, cells: Counted<Key>,
                       channels: Counted<Key>, issuedAt: u64, expiresAt: u64)

  datatype CapacityKind = CloudApiQuota | LocalHardware

  datatype Service = CodeGeneration | SecurityReview | SafetyCheck | TextGeneration | Custom(name: Text)

  datatype Offer = Offer(holder: Key, kind: CapacityKind, models: Counted<Text>, unitsAvailable: u64, minPrice: u64,
                         currency: Text, issuedAt: u64, expiresAt: u64, services: Counted<Service>)

  datatype Bid = Bid(bidder: Key, kind: CapacityKind, model: Text, units: u64, totalPrice: u64,
                     issuedAt: u64, expiresAt: u64, termsAck: Key, service: Option<Service>)

  datatype Receipt = Receipt(provider: Key, consumer: Key, kind: CapacityKind, model: Text, unitsConsumed: u64,
                             matchRef: Key, issuedAt: u64, requestHash: Key, responseHash: Key)

  datatype Decision = Accepted | Rejected | Countered

  datatype Credential = Credential(tenant: Text, agent: Text, expiresAt: u64)

  datatype Binding = Binding(tunnelId: Text, tokenHash: Key, agentKey: Key, issuedAt: u64, expiresAt: u64)

  datatype SignedObject =
    | TopologyOperator(topologyId: Text, operator: Key)
    | NoiseAttestation(channel: Key, holder: Key, noiseKey: Key)
    | MembershipStaple(staple: Staple)
    | BillingCommitment(channel: Key, holder: Key, payee: Key, termsHash: Key, maxAmount: u64, expiresAt: u64)
    | SettleReceipt(channel: Key, receiver: Key, termsHash: Key, nonce: Key, delivered: u64, digest: Key)
    | AgentCard(card: Card)
    | CapacityOffer(offer: Offer)
    | UsageReceipt(receipt: Receipt)
    | ProposalAcceptance(accepter: Key, proposer: Key, decision: Decision, proposalHash: Key, respondBy: u64)
    | CapacityBid(bid: Bid)
    | IssuedCredential(credential: Credential)
    | AgentBinding(binding: Binding)
    | Registration(nonce: Key, token: Field)
    | ChannelGrant(claims: Claims)
    | ChannelInvitation(claims: Claims)
    | InviteRedeem(channel: Key, invitee: Key, holder: Key)
    | InviteRedeemChallenge(channel: Key, invitee: Key, holder: Key, challenge: Key)
    | GrantRevoke(channel: Key, grantDigest: Key, expiresAt: u64)
    | ChannelLeave(channel: Key, holder: Key, ts: u64)
    | GrantStatus(channel: Key, peer: Key, grantDigest: Key, ts: u64)

  // ---- Enumerations on the wire ----

  function KindTag(k: CapacityKind): byte {
    match k case CloudApiQuota => 0 case LocalHardware => 1
  }

  function DecisionTag(d: Decision): byte {
    match d case Accepted => 0 case Rejected => 1 case Countered => 2
  }

  function ServiceTag(s: Service): byte {
    match s
    case CodeGeneration => 0
    case SecurityReview => 1
    case SafetyCheck => 2
    case TextGeneration => 3
    case Custom(_) => 4
  }

  /** Labels hold no bar. */
  predicate IsLabel(s: string) {
    124 as char !in s && Hex.IsAscii(s)
  }

  function DirectionLabel(d: Direction): (s: string)
    ensures IsLabel(s)
  {
    match d case Initiate => "initiate" case Accept => "accept" case Both => "both"
  }

  function RightsLabel(r: Rights): (s: string)
    ensures IsLabel(s)
  {
    match r case Read => "r" case Write => "w" case ReadWrite => "rw"
  }

  // ---- Lists of fields ----

  /** The elements of a list, each written by `put`, in front of a tail. */
  function Each<T>(put: (T, Bytes) -> Bytes, xs: seq<T>, tail: Bytes): Bytes {
    if xs == [] then tail else put(xs[0], Each(put, xs[1..], tail))
  }

  /** A u32 count, then the elements. */
  function List<T>(put: (T, Bytes) -> Bytes, xs: seq<T>, tail: Bytes): Bytes {
    U32(|xs|, Each(put, xs, tail))
  }

  function PutText(t: Text, tail: Bytes): Bytes {
    Var(t, tail)
  }

  function PutKey(k: Key, tail: Bytes): Bytes {
    Fix(k, tail)
  }

  function PutSkill(s: Skill, tail: Bytes): Bytes {
    Var(s.id, Var(s.description, List(PutText, s.examples, tail)))
  }

  function PutService(s: Service, tail: Bytes): Bytes {
    Tag(ServiceTag(s), if s.Custom? then Var(s.name, tail) else tail)
  }

  /** Writing with `put` can be read back: the element and the tail are both determined. */
  ghost predicate Readable<T(!new)>(put: (T, Bytes) -> Bytes) {
    forall x, s, y, t :: put(x, s) == put(y, t) ==> x == y && s == t
  }

  lemma {:induction false} EachIsReadable<T(!new)>(put: (T, Bytes) -> Bytes, xs: seq<T>, s: Bytes, ys: seq<T>, t: Bytes)
    requires Readable(put) && |xs| == |ys| && Each(put, xs, s) == Each(put, ys, t)
    ensures xs == ys && s == t
  {
    if xs != [] {
      assert put(xs[0], Each(put, xs[1..], s)) == put(ys[0], Each(put, ys[1..], t));
      EachIsReadable(put, xs[1..], s, ys[1..], t);
      assert xs == [xs[0]] + xs[1..] && ys == [ys[0]] + ys[1..];
    }
  }

  lemma ListIsReadable<T(!new)>(put: (T, Bytes) -> Bytes, xs: Counted<T>, s: Bytes, ys: Counted<T>, t: Bytes)
    requires Readable(put) && List(put, xs, s) == List(put, ys, t)
    ensures xs == ys && s == t
  {
    U32IsReadable(|xs|, Each(put, xs, s), |ys|, Each(put, ys, t));
    EachIsReadable(put, xs, s, ys, t);
  }

  lemma ElementsAreReadable()
    ensures Readable(PutText) && Readable(PutKey) && Readable(PutSkill) && Readable(PutService)
  {
    forall x: Text, s, y: Text, t | PutText(x, s) == PutText(y, t)
      ensures x == y && s == t
    {
      VarIsReadable(x, s, y, t);
    }
    forall x: Key, s, y: Key, t | PutKey(x, s) == PutKey(y, t)
      ensures x == y && s == t
    {
      FixIsReadable(x, s, y, t);
    }
    assert Readable(PutText);
    forall x, s, y, t | PutSkill(x, s) == PutSkill(y, t)
      ensures x == y && s == t
    {
      SkillIsReadable(x, s, y, t);
    }
    forall x, s, y, t | PutService(x, s) == PutService(y, t)
      ensures x == y && s == t
    {
      ServiceIsReadable(x, s, y, t);
    }
  }

  lemma SkillIsReadable(x: Skill, s: Bytes, y: Skill, t: Bytes)
    requires Readable(PutText) && PutSkill(x, s) == PutSkill(y, t)
    ensures x == y && s == t
  {
    var xs, ys := List(PutText, x.examples, s), List(PutText, y.examples, t);
    VarIsReadable(x.id, Var(x.description, xs), y.id, Var(y.description, ys));
    VarIsReadable(x.description, xs, y.description, ys);
    ListIsReadable(PutText, x.examples, s, y.examples, t);
  }

  lemma ServiceIsReadable(x: Service, s: Bytes, y: Service, t: Bytes)
    requires PutService(x, s) == PutService(y, t)
    ensures x == y && s == t
  {
    TagIsReadable(ServiceTag(x), if x.Custom? then Var(x.name, s) else s, ServiceTag(y), if y.Custom? then Var(y.name, t) else t);
    if x.Custom? {
      VarIsReadable(x.name, s, y.name, t);
    }
  }

  // ---- The signed bytes ----

  function KindIndex(o: SignedObject): (k: nat)
    ensures k < 20
  {
    match o
    case TopologyOperator(_, _) => 0
    case NoiseAttestation(_, _, _) => 1
    case MembershipStaple(_) => 2
    case BillingCommitment(_, _, _, _, _, _) => 3
    case SettleReceipt(_, _, _, _, _, _) => 4
    case AgentCard(_) => 5
    case CapacityOffer(_) => 6
    case UsageReceipt(_) => 7
    case ProposalAcceptance(_, _, _, _, _) => 8
    case CapacityBid(_) => 9
    case IssuedCredential(_) => 10
    case AgentBinding(_) => 11
    case Registration(_, _) => 12
    case ChannelGrant(_) => 13
    case ChannelInvitation(_) => 14
    case InviteRedeem(_, _, _) => 15
    case InviteRedeemChallenge(_, _, _, _) => 16
    case GrantRevoke(_, _, _) => 17
    case ChannelLeave(_, _, _) => 18
    case GrantStatus(_, _, _, _) => 19
  }

  function Domain(kind: nat): string {
    match kind
    case 0 => "ct-topology-operator-v1"
    case 1 => "ct-a2a-noise-attest-v1"
    case 2 => "ct-membership-staple-v1"
    case 3 => "ct-billing-commitment-v1"
    case 4 => "ct-settle-receipt-v1"
    case 5 => "ct-agent-card-v1"
    case 6 => "ct-capacity-offer-v1"
    case 7 => "ct-usage-receipt-v1"
    case 8 => "ct-proposal-acceptance-v1"
    case 9 => "ct-capacity-bid-v1"
    case 10 => "ct-cred:v1"
    case 11 => "ct-agent-binding:v1"
    case 12 => "ct-agent-reg:v1"
    case 13 => "ct-grant:v1|"
    case 14 => "ct-chan-invite:v1|"
    case 15 => "ct-chan-invite-redeem-v1"
    case 16 => "ct-chan-invite-redeem-v2-chal"
    case 17 => "ct-grant-revoke:v1|"
    case 18 => "ct-channel-leave:v1|"
    case _ => "ct-grant-status:v1|"
  }

  /** The length-prefixed style (`Preimage::new`) puts a u32 length in front of the domain; the
      `ct-...|` text style and the raw style put the domain in front bare. */
  predicate Prefixed(kind: nat) {
    kind <= 12
  }

  const BAR: byte := 124

  function PutKeys(keys: seq<Key>, tail: Bytes): Bytes {
    Each(PutKey, keys, tail)
  }

  /** `{0 or 1}|{decimal}`, the end of the claims' text, and before it the rights and the direction. */
  function ClaimsTail(c: Claims): Bytes {
    Tag(if c.delegable then 49 else 48, Tag(BAR, Hex.Ascii(Hex.Decimal(c.expiresAt))))
  }

  function RightsTail(c: Claims): Bytes {
    Fix(Hex.Ascii(RightsLabel(c.rights)), Tag(BAR, ClaimsTail(c)))
  }

  function DirectionTail(c: Claims): Bytes {
    Fix(Hex.Ascii(DirectionLabel(c.direction)), Tag(BAR, RightsTail(c)))
  }

  function PutHex(key: Key, tail: Bytes): Bytes {
    Fix(Hex.Ascii(Hex.HexOf(key)), Tag(BAR, tail))
  }

  /** `{hex}|{hex}|{label}|{label}|{0 or 1}|{decimal}` */
  function ClaimsText(c: Claims): Bytes {
    PutHex(c.channel, PutHex(c.party, DirectionTail(c)))
  }

  function CardRest(c: Card): Bytes {
    List(PutText, c.roleTags, List(PutSkill, c.skills, List(PutKey, c.cells, List(PutKey, c.channels,
    U64(c.issuedAt, U64(c.expiresAt, []))))))
  }

  /** The part of an offer after its models. */
  function OfferTerms(o: Offer): Bytes {
    U64(o.unitsAvailable, U64(o.minPrice, Var(o.currency,
    U64(o.issuedAt, U64(o.expiresAt, List(PutService, o.services, []))))))
  }

  function BidRest(b: Bid): Bytes {
    Tag(KindTag(b.kind), Var(b.model, U64(b.units, U64(b.totalPrice, U64(b.issuedAt, U64(b.expiresAt,
    Fix(b.termsAck, match b.service case Some(s) => Tag(1, PutService(s, [])) case None => Tag(0, []))))))))
  }

  function ReceiptRest(r: Receipt): Bytes {
    Tag(KindTag(r.kind), Var(r.model, U64(r.unitsConsumed, Fix(r.matchRef,
    U64(r.issuedAt, PutKeys([r.requestHash, r.responseHash], []))))))
  }

  function KeyCount(kind: nat): nat {
    match kind
    case 0 | 10 | 11 | 13 | 14 => 0
    case 5 | 6 | 9 | 12 | 17 | 18 | 19 => 1
    case 2 | 7 | 8 => 2
    case 1 | 15 => 3
    case _ => 4
  }

  /** The keys (or other 32-byte values) the signed fields open with. */
  function LeadingKeys(o: SignedObject): (keys: seq<Key>)
    ensures |keys| == KeyCount(KindIndex(o))
  {
    match o
    case NoiseAttestation(channel, holder, noise) => [channel, holder, noise]
    case MembershipStaple(s) => [s.channel, s.holder]
    case BillingCommitment(channel, holder, payee, terms, _, _) => [channel, holder, payee, terms]
    case SettleReceipt(channel, receiver, terms, nonce, _, _) => [channel, receiver, terms, nonce]
    case AgentCard(c) => [c.holder]
    case CapacityOffer(offer) => [offer.holder]
    case UsageReceipt(r) => [r.provider, r.consumer]
    case ProposalAcceptance(accepter, proposer, _, _, _) => [accepter, proposer]
    case CapacityBid(b) => [b.bidder]
    case Registration(nonce, _) => [nonce]
    case InviteRedeem(channel, invitee, holder) => [channel, invitee, holder]
    case InviteRedeemChallenge(channel, invitee, holder, challenge) => [channel, invitee, holder, challenge]
    case GrantRevoke(channel, _, _) => [channel]
    case ChannelLeave(channel, _, _) => [channel]
    case GrantStatus(channel, _, _, _) => [channel]
    case _ => []
  }

  /** The fields after the leading keys. */
  function Rest(o: SignedObject): Bytes {
    match o
    case TopologyOperator(id, operator) => U64(|id|, Fix(id, Fix(operator, [])))
    case MembershipStaple(s) => U64(s.stapledAt, U64(s.expiresAt, []))
    case BillingCommitment(_, _, _, _, amount, expires) => U64(amount, U64(expires, []))
    case SettleReceipt(_, _, _, _, delivered, digest) => U64(delivered, Fix(digest, []))
    case AgentCard(c) => CardRest(c)
    case CapacityOffer(o) => Tag(KindTag(o.kind), List(PutText, o.models, OfferTerms(o)))
    case UsageReceipt(r) => ReceiptRest(r)
    case ProposalAcceptance(_, _, decision, hash, due) => Tag(DecisionTag(decision), Fix(hash, U64(due, [])))
    case CapacityBid(b) => BidRest(b)
    case IssuedCredential(c) => Var(c.tenant, Var(c.agent, U64(c.expiresAt, [])))
    case AgentBinding(b) => Var(b.tunnelId, PutKeys([b.tokenHash, b.agentKey], U64(b.issuedAt, U64(b.expiresAt, []))))
    case Registration(_, token) => Var(token, [])
    case ChannelGrant(c) => ClaimsText(c)
    case ChannelInvitation(c) => ClaimsText(c)
    case GrantRevoke(_, digest, expires) => Tag(BAR, Fix(digest, Tag(BAR, U64(expires, []))))
    case ChannelLeave(_, holder, ts) => Tag(BAR, Fix(holder, Tag(BAR, U64(ts, []))))
    case GrantStatus(_, peer, digest, ts) => Tag(BAR, Fix(peer, Tag(BAR, Fix(digest, Tag(BAR, U64(ts, []))))))
    case _ => []
  }

  function Body(o: SignedObject): Bytes {
    PutKeys(LeadingKeys(o), Rest(o))
  }

  function Sealed(kind: nat, body: Bytes): Bytes {
    var domain := Hex.Ascii(Domain(kind));
    if Prefixed(kind) then Var(domain, body) else Fix(domain, body)
  }

  function SigningBytes(o: SignedObject): Bytes {
    Sealed(KindIndex(o), Body(o))
  }

  // ---- Each body determines its fields ----

  lemma KeysAreReadable(xs: seq<Key>, s: Bytes, ys: seq<Key>, t: Bytes)
    requires |xs| == |ys| && PutKeys(xs, s) == PutKeys(ys, t)
    ensures xs == ys && s == t
  {
    ElementsAreReadable();
    EachIsReadable(PutKey, xs, s, ys, t);
  }

  lemma CardIsReadable(a: Card, b: Card)
    requires CardRest(a) == CardRest(b)
    ensures a == b.(holder := a.holder)
  {
    ElementsAreReadable();
    var at, bt := U64(a.issuedAt, U64(a.expiresAt, [])), U64(b.issuedAt, U64(b.expiresAt, []));
    var ac, bc := List(PutKey, a.channels, at), List(PutKey, b.channels, bt);
    var al, bl := List(PutKey, a.cells, ac), List(PutKey, b.cells, bc);
    var ak, bk := List(PutSkill, a.skills, al), List(PutSkill, b.skills, bl);
    ListIsReadable(PutText, a.roleTags, ak, b.roleTags, bk);
    ListIsReadable(PutSkill, a.skills, al, b.skills, bl);
    ListIsReadable(PutKey, a.cells, ac, b.cells, bc);
    ListIsReadable(PutKey, a.channels, at, b.channels, bt);
    U64IsReadable(a.issuedAt, U64(a.expiresAt, []), b.issuedAt, U64(b.expiresAt, []));
    U64IsReadable(a.expiresAt, [], b.expiresAt, []);
  }

  lemma BidIsReadable(a: Bid, b: Bid)
    requires BidRest(a) == BidRest(b)
    ensures a == b.(bidder := a.bidder)
  {
    FieldsAreReadable();
    if a.service.Some? && b.service.Some? {
      ServiceIsReadable(a.service.value, [], b.service.value, []);
    }
  }

  lemma OfferIsReadable(a: Offer, b: Offer)
    requires Rest(CapacityOffer(a)) == Rest(CapacityOffer(b))
    ensures a == b.(holder := a.holder)
  {
    ElementsAreReadable();
    FieldsAreReadable();
    ListIsReadable(PutText, a.models, OfferTerms(a), b.models, OfferTerms(b));
    assert List(PutService, a.services, []) == List(PutService, b.services, []);
    ListIsReadable(PutService, a.services, [], b.services, []);
  }

  lemma ReceiptIsReadable(a: Receipt, b: Receipt)
    requires ReceiptRest(a) == ReceiptRest(b)
    ensures a == b.(provider := a.provider, consumer := a.consumer)
  {
    FieldsAreReadable();
    KeysAreReadable([a.requestHash, a.responseHash], [], [b.requestHash, b.responseHash], []);
  }

  lemma BindingIsReadable(a: Binding, b: Binding)
    requires Rest(AgentBinding(a)) == Rest(AgentBinding(b))
    ensures a == b
  {
    FieldsAreReadable();
    KeysAreReadable([a.tokenHash, a.agentKey], U64(a.issuedAt, U64(a.expiresAt, [])),
                    [b.tokenHash, b.agentKey], U64(b.issuedAt, U64(b.expiresAt, [])));
  }

  /** A label without a bar ends at the first bar of the text. */
  lemma LabelEndsAtTheBar(x: string, s: Bytes)
    requires IsLabel(x)
    ensures var text := Fix(Hex.Ascii(x), Tag(BAR, s));
            |x| < |text| && text[|x|] == BAR && forall i | 0 <= i < |x| :: text[i] != BAR
  {
    forall i | 0 <= i < |x|
      ensures Fix(Hex.Ascii(x), Tag(BAR, s))[i] != BAR
    {
      assert x[i] in x;
    }
  }

  lemma LabelIsReadable(x: string, s: Bytes, y: string, t: Bytes)
    requires IsLabel(x) && IsLabel(y)
    requires Fix(Hex.Ascii(x), Tag(BAR, s)) == Fix(Hex.Ascii(y), Tag(BAR, t))
    ensures x == y && s == t
  {
    LabelEndsAtTheBar(x, s);
    LabelEndsAtTheBar(y, t);
    FixIsReadable(Hex.Ascii(x), Tag(BAR, s), Hex.Ascii(y), Tag(BAR, t));
    TagIsReadable(BAR, s, BAR, t);
    Hex.AsciiIsInjective(x, y);
  }

  lemma ExpiryIsReadable(a: Claims, b: Claims)
    requires ClaimsTail(a) == ClaimsTail(b)
    ensures a.delegable == b.delegable && a.expiresAt == b.expiresAt
  {
    var ad, bd := Hex.Decimal(a.expiresAt), Hex.Decimal(b.expiresAt);
    TagIsReadable(if a.delegable then 49 else 48, Tag(BAR, Hex.Ascii(ad)), if b.delegable then 49 else 48, Tag(BAR, Hex.Ascii(bd)));
    TagIsReadable(BAR, Hex.Ascii(ad), BAR, Hex.Ascii(bd));
    Hex.AsciiIsInjective(ad, bd);
    Hex.DecimalRoundTrip(a.expiresAt);
    Hex.DecimalRoundTrip(b.expiresAt);
  }

  lemma DirectionLabelsDiffer(a: Direction, b: Direction)
    requires DirectionLabel(a) == DirectionLabel(b)
    ensures a == b
  {
    assert |DirectionLabel(Initiate)| == 8 && |DirectionLabel(Accept)| == 6 && |DirectionLabel(Both)| == 4;
  }

  lemma ScopeIsReadable(a: Claims, b: Claims)
    requires DirectionTail(a) == DirectionTail(b)
    ensures a.direction == b.direction && a.rights == b.rights && ClaimsTail(a) == ClaimsTail(b)
  {
    LabelIsReadable(DirectionLabel(a.direction), RightsTail(a), DirectionLabel(b.direction), RightsTail(b));
    DirectionLabelsDiffer(a.direction, b.direction);
    RightsAreReadable(a, b);
  }

  lemma RightsAreReadable(a: Claims, b: Claims)
    requires RightsTail(a) == RightsTail(b)
    ensures a.rights == b.rights && ClaimsTail(a) == ClaimsTail(b)
  {
    LabelIsReadable(RightsLabel(a.rights), ClaimsTail(a), RightsLabel(b.rights), ClaimsTail(b));
  }

  lemma HexIsReadable(x: Key, s: Bytes, y: Key, t: Bytes)
    requires PutHex(x, s) == PutHex(y, t)
    ensures x == y && s == t
  {
    LabelIsReadable(Hex.HexOf(x), s, Hex.HexOf(y), t);
    Hex.HexIsInjective(x, y);
  }

  /** The text form is unambiguous: labels end at their bar, and the last number ends the text. */
  lemma ClaimsAreReadable(a: Claims, b: Claims)
    requires ClaimsText(a) == ClaimsText(b)
    ensures a == b
  {
    HexIsReadable(a.channel, PutHex(a.party, DirectionTail(a)), b.channel, PutHex(b.party, DirectionTail(b)));
    HexIsReadable(a.party, DirectionTail(a), b.party, DirectionTail(b));
    ScopeIsReadable(a, b);
    ExpiryIsReadable(a, b);
  }

  // ---- Main results ----

  /** Two objects of one kind whose leading keys and rests agree. */
  ghost predicate Agree(a: SignedObject, b: SignedObject) {
    KindIndex(a) == KindIndex(b) && LeadingKeys(a) == LeadingKeys(b) && Rest(a) == Rest(b)
  }

  lemma LeadingKeysAgree(a: SignedObject, b: SignedObject)
    requires LeadingKeys(a) == LeadingKeys(b)
    ensures forall i | 0 <= i < |LeadingKeys(a)| :: LeadingKeys(a)[i] == LeadingKeys(b)[i]
  {
  }

  // The kinds whose fields after the leading keys are plain numbers, tags, texts and 32-byte values.

  lemma MembershipIsReadable(a: SignedObject, b: SignedObject)
    requires Agree(a, b) && KindIndex(a) in {0, 2}
    ensures a == b
  {
    FieldsAreReadable();
    LeadingKeysAgree(a, b);
  }

  lemma SettlementIsReadable(a: SignedObject, b: SignedObject)
    requires Agree(a, b) && KindIndex(a) in {3, 4, 8}
    ensures a == b
  {
    FieldsAreReadable();
    LeadingKeysAgree(a, b);
  }

  lemma IssuedIsReadable(a: SignedObject, b: SignedObject)
    requires Agree(a, b) && KindIndex(a) in {10, 12}
    ensures a == b
  {
    FieldsAreReadable();
    LeadingKeysAgree(a, b);
  }

  lemma RequestIsReadable(a: SignedObject, b: SignedObject)
    requires Agree(a, b) && KindIndex(a) in {17, 18, 19}
    ensures a == b
  {
    FieldsAreReadable();
    LeadingKeysAgree(a, b);
  }

  lemma KeysAloneAreReadable(a: SignedObject, b: SignedObject)
    requires Agree(a, b) && KindIndex(a) in {1, 15, 16}
    ensures a == b
  {
    LeadingKeysAgree(a, b);
  }

  // The kinds with lists, services and text.

  lemma MarketIsReadable(a: SignedObject, b: SignedObject)
    requires Agree(a, b) && KindIndex(a) in {5, 6}
    ensures a == b
  {
    LeadingKeysAgree(a, b);
    if a.AgentCard? {
      CardIsReadable(a.card, b.card);
    } else {
      OfferIsReadable(a.offer, b.offer);
    }
  }

  lemma TradeIsReadable(a: SignedObject, b: SignedObject)
    requires Agree(a, b) && KindIndex(a) in {7, 9}
    ensures a == b
  {
    LeadingKeysAgree(a, b);
    if a.CapacityBid? {
      BidIsReadable(a.bid, b.bid);
    } else {
      ReceiptIsReadable(a.receipt, b.receipt);
    }
  }

  lemma TokensAreReadable(a: SignedObject, b: SignedObject)
    requires Agree(a, b) && KindIndex(a) in {11, 13, 14}
    ensures a == b
  {
    if a.AgentBinding? {
      BindingIsReadable(a.binding, b.binding);
    } else {
      ClaimsAreReadable(a.claims, b.claims);
    }
  }

  /** Objects of one kind with equal leading keys: equal rests mean equal objects. */
  lemma RestIsReadable(a: SignedObject, b: SignedObject)
    requires Agree(a, b)
    ensures a == b
  {
    var kind := KindIndex(a);
    if kind in {0, 2} {
      MembershipIsReadable(a, b);
    } else if kind in {3, 4, 8} {
      SettlementIsReadable(a, b);
    } else if kind in {10, 12} {
      IssuedIsReadable(a, b);
    } else if kind in {17, 18, 19} {
      RequestIsReadable(a, b);
    } else if kind in {1, 15, 16} {
      KeysAloneAreReadable(a, b);
    } else if kind in {5, 6} {
      MarketIsReadable(a, b);
    } else if kind in {7, 9} {
      TradeIsReadable(a, b);
    } else {
      TokensAreReadable(a, b);
    }
  }

  lemma BodyIsReadable(a: SignedObject, b: SignedObject)
    requires KindIndex(a) == KindIndex(b) && Body(a) == Body(b)
    ensures a == b
  {
    KeysAreReadable(LeadingKeys(a), Rest(a), LeadingKeys(b), Rest(b));
    RestIsReadable(a, b);
  }

  lemma PrefixedDomainsDiffer(i: nat, j: nat)
    requires i < 13 && j < 13 && i != j
    ensures |Domain(i)| != |Domain(j)| || Domain(i)[3] != Domain(j)[3]
    ensures 10 <= |Domain(i)| < 99 && Domain(i)[3] < 128 as char
  {
  }

  /** Where two bare domains part; no bare domain is a prefix of another. */
  function Fork(i: nat, j: nat): nat {
    var grants := {13, 17, 19};
    if (i in grants) != (j in grants) then 3
    else if i in grants then (if i == 13 || j == 13 then 8 else 9)
    else if i == 18 || j == 18 then 7
    else if i == 14 || j == 14 then 14
    else 23
  }

  ghost predicate Part(i: nat, j: nat, k: nat) {
    && k < |Domain(i)| && k < |Domain(j)| && Domain(i)[k] != Domain(j)[k]
    && Domain(i)[k] < 128 as char && Domain(j)[k] < 128 as char
  }

  lemma GrantDomainsDiffer(i: nat, j: nat)
    requires i in {13, 17, 19} && j in {13, 17, 19} && i != j
    ensures Part(i, j, Fork(i, j))
  {
  }

  lemma ChannelDomainsDiffer(i: nat, j: nat)
    requires i in {14, 15, 16, 18} && j in {14, 15, 16, 18} && i != j
    ensures Part(i, j, Fork(i, j))
  {
  }

  lemma GrantsAndChannelsDiffer(i: nat, j: nat)
    requires i in {13, 17, 19} && j in {14, 15, 16, 18}
    ensures Part(i, j, 3)
  {
  }

  lemma BareDomainsDiffer(i: nat, j: nat)
    requires 13 <= i < 20 && 13 <= j < 20 && i != j
    ensures Part(i, j, Fork(i, j))
  {
    var grants := {13, 17, 19};
    if i in grants && j in grants {
      GrantDomainsDiffer(i, j);
    } else if i in grants {
      GrantsAndChannelsDiffer(i, j);
    } else if j in grants {
      GrantsAndChannelsDiffer(j, i);
    } else {
      ChannelDomainsDiffer(i, j);
    }
  }

  lemma DomainsStartAlike(kind: nat)
    requires kind < 20
    ensures 10 <= |Domain(kind)| < 99 && Domain(kind)[0] == 'c'
  {
  }

  /** A length-prefixed preimage starts with its domain's length, a bare one with `c`. */
  lemma FirstByteTellsTheStyle(kind: nat, body: Bytes)
    requires kind < 20
    ensures var bytes := Sealed(kind, body); |bytes| > 0 && (bytes[0] < 99 <==> Prefixed(kind))
  {
    DomainsStartAlike(kind);
    var d := Hex.Ascii(Domain(kind));
    if Prefixed(kind) {
      assert Var(d, body)[0] == Le(|d|, 4)[0] == |d| % 256;
    } else {
      assert Fix(d, body)[0] == d[0] == 99;
    }
  }

  lemma DomainsAreSeparated(i: nat, x: Bytes, j: nat, y: Bytes)
    requires i < 20 && j < 20 && i != j && Prefixed(i) == Prefixed(j)
    ensures Sealed(i, x) != Sealed(j, y)
  {
    var d, e := Domain(i), Domain(j);
    if Prefixed(i) {
      PrefixedDomainsDiffer(i, j);
      PrefixedDomainsDiffer(j, i);
      PrefixedTextsDiffer(d, x, e, y);
    } else {
      BareDomainsDiffer(i, j);
      BareTextsDiffer(d, x, e, y, Fork(i, j));
    }
  }

  lemma PrefixedTextsDiffer(d: string, x: Bytes, e: string, y: Bytes)
    requires 4 <= |d| < 99 && 4 <= |e| < 99 && (|d| != |e| || (d[3] != e[3] && d[3] < 128 as char && e[3] < 128 as char))
    ensures Var(Hex.Ascii(d), x) != Var(Hex.Ascii(e), y)
  {
    assert |d| == |e| ==> Hex.Ascii(d)[3] != Hex.Ascii(e)[3];
    if Var(Hex.Ascii(d), x) == Var(Hex.Ascii(e), y) {
      VarIsReadable(Hex.Ascii(d), x, Hex.Ascii(e), y);
    }
  }

  lemma BareTextsDiffer(d: string, x: Bytes, e: string, y: Bytes, k: nat)
    requires k < |d| && k < |e| && d[k] != e[k] && d[k] < 128 as char && e[k] < 128 as char
    ensures Fix(Hex.Ascii(d), x) != Fix(Hex.Ascii(e), y)
  {
    assert Fix(Hex.Ascii(d), x)[k] == Hex.Ascii(d)[k];
    assert Fix(Hex.Ascii(e), y)[k] == Hex.Ascii(e)[k];
  }

  /** A preimage determines the kind of the object that was signed, across all three styles. */
  lemma KindsAreSeparated(i: nat, x: Bytes, j: nat, y: Bytes)
    requires i < 20 && j < 20 && Sealed(i, x) == Sealed(j, y)
    ensures i == j && x == y
  {
    FirstByteTellsTheStyle(i, x);
    FirstByteTellsTheStyle(j, y);
    if i != j {
      DomainsAreSeparated(i, x, j, y);
    }
    var d := Hex.Ascii(Domain(i));
    DomainsStartAlike(i);
    if Prefixed(i) {
      VarIsReadable(d, x, d, y);
    } else {
      FixIsReadable(d, x, d, y);
    }
  }

  /** A preimage determines the signed object: its kind and every field of its contents. */
  lemma SigningBytesAreInjective(a: SignedObject, b: SignedObject)
    requires SigningBytes(a) == SigningBytes(b)
    ensures a == b
  {
    KindsAreSeparated(KindIndex(a), Body(a), KindIndex(b), Body(b));
    BodyIsReadable(a, b);
  }

  // ---- The raw possession challenge ----

  lemma {:induction false} KeysLength(keys: seq<Key>, rest: Bytes)
    ensures |PutKeys(keys, rest)| == 32 * |keys| + |rest|
  {
    if keys != [] {
      KeysLength(keys[1..], rest);
    }
  }

  lemma SealedLength(kind: nat, body: Bytes)
    ensures |Sealed(kind, body)| == |Domain(kind)| + |body| + if Prefixed(kind) then 4 else 0
  {
  }

  /** The kinds without leading keys, but for credentials, have more than 22 bytes after their domain. */
  lemma KeylessBodiesAreLong(o: SignedObject)
    requires KeyCount(KindIndex(o)) == 0 && !o.IssuedCredential?
    ensures |Rest(o)| > 22
  {
    match o
    case ChannelGrant(c) => assert |Hex.HexOf(c.channel)| == 64;
    case ChannelInvitation(c) => assert |Hex.HexOf(c.channel)| == 64;
    case AgentBinding(b) => KeysLength([b.tokenHash, b.agentKey], U64(b.issuedAt, U64(b.expiresAt, [])));
    case _ =>
  }

  lemma CredentialLength(c: Credential)
    ensures |Rest(IssuedCredential(c))| == 16 + |c.tenant| + |c.agent| && |Domain(10)| == 10
  {
  }

  /** The edge's possession challenge is signed as it is, 32 bytes without a domain. The only preimages of
      that length are those of credentials whose tenant and agent have two bytes together, so a signed
      challenge can be mistaken for no other kind of object. */
  lemma OnlyCredentialsAreChallengeSized(o: SignedObject)
    ensures |SigningBytes(o)| == 32
            <==> o.IssuedCredential? && |o.credential.tenant| + |o.credential.agent| == 2
  {
    var kind := KindIndex(o);
    DomainsStartAlike(kind);
    SealedLength(kind, Body(o));
    KeysLength(LeadingKeys(o), Rest(o));
    if o.IssuedCredential? {
      CredentialLength(o.credential);
    } else if KeyCount(kind) == 0 {
      KeylessBodiesAreLong(o);
    }
  }

  // ---- The builder loops ----

  // Each method appends to the buffer `p0`; `tail` is what the caller appends after it.

  /** `Preimage::tag` */
  method AppendTag(p0: Bytes, t: byte, ghost tail: Bytes) returns (p: Bytes)
    ensures p + tail == p0 + Tag(t, tail)
  {
    p := p0 + [t];
    Assoc(p0, [t], tail);
  }

  /** `Preimage::u64` */
  method AppendU64(p0: Bytes, n: u64, ghost tail: Bytes) returns (p: Bytes)
    ensures p + tail == p0 + U64(n, tail)
  {
    p := p0 + Le(n, 8);
    Assoc(p0, Le(n, 8), tail);
  }

  /** `Preimage::u32` */
  method AppendU32(p0: Bytes, n: nat, ghost tail: Bytes) returns (p: Bytes)
    ensures p + tail == p0 + U32(n, tail)
  {
    p := p0 + Le(n, 4);
    Assoc(p0, Le(n, 4), tail);
  }

  /** `Preimage::fixed` */
  method AppendFix(p0: Bytes, b: Bytes, ghost tail: Bytes) returns (p: Bytes)
    ensures p + tail == p0 + Fix(b, tail)
  {
    p := p0 + b;
    Assoc(p0, b, tail);
  }

  /** `Preimage::var_bytes` */
  method AppendVar(p0: Bytes, b: Field, ghost tail: Bytes) returns (p: Bytes)
    ensures p + tail == p0 + Var(b, tail)
  {
    p := AppendU32(p0, |b|, b + tail);
    p := AppendFix(p, b, tail);
  }

  method AppendTexts(p0: Bytes, xs: seq<Text>, ghost tail: Bytes) returns (p: Bytes)
    ensures p + tail == p0 + List(PutText, xs, tail)
  {
    p := AppendU32(p0, |xs|, Each(PutText, xs, tail));
    assert xs[0..] == xs;
    for i := 0 to |xs|
      invariant p + Each(PutText, xs[i..], tail) == p0 + List(PutText, xs, tail)
    {
      assert xs[i..][1..] == xs[i + 1..];
      p := AppendVar(p, xs[i], Each(PutText, xs[i + 1..], tail));
    }
  }

  method AppendKeys(p0: Bytes, xs: seq<Key>, ghost tail: Bytes) returns (p: Bytes)
    ensures p + tail == p0 + List(PutKey, xs, tail)
  {
    p := AppendU32(p0, |xs|, Each(PutKey, xs, tail));
    assert xs[0..] == xs;
    for i := 0 to |xs|
      invariant p + Each(PutKey, xs[i..], tail) == p0 + List(PutKey, xs, tail)
    {
      assert xs[i..][1..] == xs[i + 1..];
      p := AppendFix(p, xs[i], Each(PutKey, xs[i + 1..], tail));
    }
  }

  method AppendSkill(p0: Bytes, s: Skill, ghost tail: Bytes) returns (p: Bytes)
    ensures p + tail == p0 + PutSkill(s, tail)
  {
    ghost var examples := List(PutText, s.examples, tail);
    p := AppendVar(p0, s.id, Var(s.description, examples));
    p := AppendVar(p, s.description, examples);
    p := AppendTexts(p, s.examples, tail);
  }

  method AppendSkills(p0: Bytes, xs: seq<Skill>, ghost tail: Bytes) returns (p: Bytes)
    ensures p + tail == p0 + List(PutSkill, xs, tail)
  {
    p := AppendU32(p0, |xs|, Each(PutSkill, xs, tail));
    assert xs[0..] == xs;
    for i := 0 to |xs|
      invariant p + Each(PutSkill, xs[i..], tail) == p0 + List(PutSkill, xs, tail)
    {
      assert xs[i..][1..] == xs[i + 1..];
      p := AppendSkill(p, xs[i], Each(PutSkill, xs[i + 1..], tail));
    }
  }

  method AppendService(p0: Bytes, s: Service, ghost tail: Bytes) returns (p: Bytes)
    ensures p + tail == p0 + PutService(s, tail)
  {
    if s.Custom? {
      p := AppendTag(p0, ServiceTag(s), Var(s.name, tail));
      p := AppendVar(p, s.name, tail);
    } else {
      p := AppendTag(p0, ServiceTag(s), tail);
    }
  }

  method AppendServices(p0: Bytes, xs: seq<Service>, ghost tail: Bytes) returns (p: Bytes)
    ensures p + tail == p0 + List(PutService, xs, tail)
  {
    p := AppendU32(p0, |xs|, Each(PutService, xs, tail));
    assert xs[0..] == xs;
    for i := 0 to |xs|
      invariant p + Each(PutService, xs[i..], tail) == p0 + List(PutService, xs, tail)
    {
      assert xs[i..][1..] == xs[i + 1..];
      p := AppendService(p, xs[i], Each(PutService, xs[i + 1..], tail));
    }
  }

  method AppendCard(p0: Bytes, c: Card) returns (p: Bytes)
    ensures p == p0 + CardRest(c)
  {
    ghost var t5 := U64(c.expiresAt, []);
    ghost var t4 := U64(c.issuedAt, t5);
    ghost var t3 := List(PutKey, c.channels, t4);
    ghost var t2 := List(PutKey, c.cells, t3);
    p := AppendTexts(p0, c.roleTags, List(PutSkill, c.skills, t2));
    p := AppendSkills(p, c.skills, t2);
    p := AppendKeys(p, c.cells, t3);
    p := AppendKeys(p, c.channels, t4);
    p := AppendU64(p, c.issuedAt, t5);
    p := AppendU64(p, c.expiresAt, []);
    assert p + [] == p;
  }

  method AppendTerms(p0: Bytes, o: Offer) returns (p: Bytes)
    ensures p == p0 + OfferTerms(o)
  {
    ghost var t5 := List(PutService, o.services, []);
    ghost var t4 := U64(o.expiresAt, t5);
    ghost var t3 := U64(o.issuedAt, t4);
    ghost var t2 := Var(o.currency, t3);
    p := AppendU64(p0, o.unitsAvailable, U64(o.minPrice, t2));
    p := AppendU64(p, o.minPrice, t2);
    p := AppendVar(p, o.currency, t3);
    p := AppendU64(p, o.issuedAt, t4);
    p := AppendU64(p, o.expiresAt, t5);
    p := AppendServices(p, o.services, []);
    assert p + [] == p;
  }

  method AppendOffer(p0: Bytes, o: Offer) returns (p: Bytes)
    ensures p == p0 + Rest(CapacityOffer(o))
  {
    p := AppendTag(p0, KindTag(o.kind), List(PutText, o.models, OfferTerms(o)));
    p := AppendTexts(p, o.models, OfferTerms(o));
    p := AppendTerms(p, o);
  }

  /** `Preimage::new`, then the first fixed key. */
  method Begin(kind: nat, key: Key, ghost rest: Bytes) returns (p: Bytes)
    requires Prefixed(kind)
    ensures p + rest == Sealed(kind, PutKeys([key], rest))
  {
    var domain := Hex.Ascii(Domain(kind));
    DomainsStartAlike(kind);
    OneKey(key, rest);
    p := AppendVar([], domain, Fix(key, rest));
    p := AppendFix(p, key, rest);
  }

  /** `AgentCard::signing_bytes`: the builder, field by field and list by list. */
  method CardSigningBytes(c: Card) returns (p: Bytes)
    ensures p == SigningBytes(AgentCard(c))
  {
    p := Begin(5, c.holder, CardRest(c));
    p := AppendCard(p, c);
  }

  /** `CapacityOffer::signing_bytes` */
  method OfferSigningBytes(o: Offer) returns (p: Bytes)
    ensures p == SigningBytes(CapacityOffer(o))
  {
    p := Begin(6, o.holder, Rest(CapacityOffer(o)));
    p := AppendOffer(p, o);
  }

  lemma OneKey(key: Key, rest: Bytes)
    ensures PutKeys([key], rest) == key + rest
  {
    assert [key][1..] == [];
    assert Each(PutKey, [key], rest) == PutKey(key, Each(PutKey, [], rest));
  }
}

/** The bytes themselves: every signing preimage and every wire form written out field by field in the
    order of the source, with literal domains, tags, labels and integer bytes, as golden vectors would. */
module Layouts {
  import opened Wrappers
  import opened Bytes
  import opened SignedObjects
  import Hex

  // ---- Integers and text, digit by digit ----

  function Le32(n: nat): Bytes {
    [n % 256, n / 256 % 256, n / 65_536 % 256, n / 16_777_216 % 256]
  }

  function Le64(n: nat): Bytes {
    Le32(n) + Le32(n / 4_294_967_296)
  }

  lemma FourDigits(n: nat, width: nat)
    requires width >= 4
    ensures Le(n, width) == Le32(n) + Le(n / 4_294_967_296, width - 4)
  {
    var a, b, c := n / 256, n / 65_536, n / 16_777_216;
    assert a / 256 == b && b / 256 == c && c / 256 == n / 4_294_967_296;
    var rest := Le(c / 256, width - 4);
    assert Le(c, width - 3) == [c % 256] + rest;
    assert Le(b, width - 2) == [b % 256] + Le(c, width - 3);
    assert Le(a, width - 1) == [a % 256] + Le(b, width - 2);
    assert Le(n, width) == [n % 256] + Le(a, width - 1);
  }

  lemma LeIsLe32(n: nat)
    ensures Le(n, 4) == Le32(n)
  {
    FourDigits(n, 4);
  }

  lemma LeIsLe64(n: nat)
    ensures Le(n, 8) == Le64(n)
  {
    FourDigits(n, 8);
    LeIsLe32(n / 4_294_967_296);
  }

  /** The bytes of an ASCII text, by code. */
  function Chars(s: string): (b: Bytes)
    ensures |b| == |s|
  {
    seq(|s|, i requires 0 <= i < |s| => s[i] as int % 256)
  }

  /** The i-th half byte, high half first. */
  function Half(b: Bytes, i: nat): (h: int)
    requires i < 2 * |b|
    ensures 0 <= h < 16
  {
    if i % 2 == 0 then b[i / 2] / 16 else b[i / 2] % 16
  }

  /** Two characters a byte, digits from 48 (`0`) and letters from 97 (`a`). */
  function HexChars(b: Bytes): (t: Bytes)
    ensures |t| == 2 * |b|
  {
    seq(2 * |b|, i requires 0 <= i < 2 * |b| => HexCode(Half(b, i)))
  }

  function HexCode(digit: int): byte
    requires 0 <= digit < 16
  {
    if digit < 10 then 48 + digit else 97 + (digit - 10)
  }

  lemma DigitIsHexCode(digit: int)
    requires 0 <= digit < 16
    ensures Hex.Digit(digit) as int == HexCode(digit) < 128
  {
  }

  lemma {:induction false} HexDigitAt(b: Bytes, i: nat)
    requires i < 2 * |b|
    ensures Hex.HexOf(b)[i] == Hex.Digit(Half(b, i))
  {
    if i >= 2 {
      HexDigitAt(b[1..], i - 2);
      assert (i - 2) / 2 == i / 2 - 1 && (i - 2) % 2 == i % 2 && b[1..][i / 2 - 1] == b[i / 2];
    }
  }

  lemma CharIs(s: string, i: nat, digit: int)
    requires i < |s| && 0 <= digit < 16 && s[i] == Hex.Digit(digit)
    ensures Hex.Ascii(s)[i] == HexCode(digit)
  {
    DigitIsHexCode(digit);
  }

  lemma HalfIs(b: Bytes, i: nat)
    requires i < 2 * |b|
    ensures HexChars(b)[i] == HexCode(Half(b, i))
  {
  }

  lemma HexCharAt(b: Bytes, i: nat)
    requires i < 2 * |b|
    ensures Hex.Ascii(Hex.HexOf(b))[i] == HexChars(b)[i]
  {
    HexDigitAt(b, i);
    CharIs(Hex.HexOf(b), i, Half(b, i));
    HalfIs(b, i);
  }

  lemma SameBytes(a: Bytes, b: Bytes)
    requires |a| == |b| && forall i | 0 <= i < |a| :: a[i] == b[i]
    ensures a == b
  {
  }

  lemma HexIsHexChars(b: Bytes)
    ensures Hex.Ascii(Hex.HexOf(b)) == HexChars(b)
  {
    var t, u := Hex.Ascii(Hex.HexOf(b)), HexChars(b);
    forall i | 0 <= i < |t|
      ensures t[i] == u[i]
    {
      HexCharAt(b, i);
    }
    SameBytes(t, u);
  }

  /** Decimal digits, without a leading zero: with `Hex.DecimalRoundTrip` there is one such text. */
  lemma {:induction false} DecimalHasNoLeadingZero(n: nat)
    ensures |Hex.Decimal(n)| > 1 ==> Hex.Decimal(n)[0] != '0'
  {
    if n >= 10 {
      DecimalHasNoLeadingZero(n / 10);
      assert Hex.Decimal(n)[0] == Hex.Decimal(n / 10)[0];
      assert n / 10 < 10 ==> Hex.Decimal(n / 10) == "" + [(n / 10 % 10 + 48) as char];
    }
  }

  // ---- The signing preimages ----

  /** A u32 length, the bytes, and what follows. */
  function Str(b: Bytes, tail: Bytes): Bytes {
    Le32(|b|) + (b + tail)
  }

  function Texts(xs: seq<Text>, tail: Bytes): Bytes {
    if xs == [] then tail else Str(xs[0], Texts(xs[1..], tail))
  }

  function Keys(xs: seq<Key>, tail: Bytes): Bytes {
    if xs == [] then tail else xs[0] + Keys(xs[1..], tail)
  }

  function Skills(xs: seq<Skill>, tail: Bytes): Bytes {
    if xs == [] then tail
    else Str(xs[0].id, Str(xs[0].description, Le32(|xs[0].examples|) + Texts(xs[0].examples, Skills(xs[1..], tail))))
  }

  function OneService(s: Service, tail: Bytes): Bytes {
    match s
    case CodeGeneration => [0] + tail
    case SecurityReview => [1] + tail
    case SafetyCheck => [2] + tail
    case TextGeneration => [3] + tail
    case Custom(name) => [4] + Str(name, tail)
  }

  function Services(xs: seq<Service>, tail: Bytes): Bytes {
    if xs == [] then tail else OneService(xs[0], Services(xs[1..], tail))
  }

  function Kind(k: CapacityKind): Bytes {
    match k case CloudApiQuota => [0] case LocalHardware => [1]
  }

  /** `{channel}|{party}|{direction}|{rights}|{delegable}|{expires_at}` */
  function ClaimsLayout(c: Claims): Bytes {
    HexChars(c.channel) + ([124] + (HexChars(c.party) + ([124]
    + (Chars(match c.direction case Initiate => "initiate" case Accept => "accept" case Both => "both") + ([124]
    + (Chars(match c.rights case Read => "r" case Write => "w" case ReadWrite => "rw") + ([124]
    + ((if c.delegable then Chars("1") else Chars("0")) + ([124]
    + Chars(Hex.Decimal(c.expiresAt)))))))))))
  }

  function CardLayout(c: Card): Bytes {
    c.holder + (Le32(|c.roleTags|) + Texts(c.roleTags, Le32(|c.skills|) + Skills(c.skills,
    Le32(|c.cells|) + Keys(c.cells, Le32(|c.channels|) + Keys(c.channels, Le64(c.issuedAt) + Le64(c.expiresAt))))))
  }

  function OfferLayout(o: Offer): Bytes {
    o.holder + (Kind(o.kind) + (Le32(|o.models|) + Texts(o.models, Le64(o.unitsAvailable) + (Le64(o.minPrice)
    + Str(o.currency, Le64(o.issuedAt) + (Le64(o.expiresAt) + (Le32(|o.services|) + Services(o.services, []))))))))
  }

  /** The service a bid asks for, if any. */
  function Asked(b: Bid): Bytes {
    match b.service case Some(s) => [1] + OneService(s, []) case None => [0]
  }

  function BidLayout(b: Bid): Bytes {
    b.bidder + (Kind(b.kind) + Str(b.model, Le64(b.units) + (Le64(b.totalPrice) + (Le64(b.issuedAt)
    + (Le64(b.expiresAt) + (b.termsAck + Asked(b)))))))
  }

  function ReceiptLayout(r: Receipt): Bytes {
    r.provider + (r.consumer + (Kind(r.kind) + Str(r.model, Le64(r.unitsConsumed) + (r.matchRef
    + (Le64(r.issuedAt) + (r.requestHash + r.responseHash))))))
  }

  /** What is signed, for every kind of object. */
  function Layout(o: SignedObject): Bytes {
    match o
    case TopologyOperator(id, operator) => Str(Chars("ct-topology-operator-v1"), Le64(|id|) + (id + operator))
    case NoiseAttestation(channel, holder, noise) => Str(Chars("ct-a2a-noise-attest-v1"), channel + (holder + noise))
    case MembershipStaple(s) =>
      Str(Chars("ct-membership-staple-v1"), s.channel + (s.holder + (Le64(s.stapledAt) + Le64(s.expiresAt))))
    case BillingCommitment(channel, holder, payee, terms, amount, expires) =>
      Str(Chars("ct-billing-commitment-v1"), channel + (holder + (payee + (terms + (Le64(amount) + Le64(expires))))))
    case SettleReceipt(channel, receiver, terms, nonce, delivered, digest) =>
      Str(Chars("ct-settle-receipt-v1"), channel + (receiver + (terms + (nonce + (Le64(delivered) + digest)))))
    case AgentCard(c) => Str(Chars("ct-agent-card-v1"), CardLayout(c))
    case CapacityOffer(o) => Str(Chars("ct-capacity-offer-v1"), OfferLayout(o))
    case UsageReceipt(r) => Str(Chars("ct-usage-receipt-v1"), ReceiptLayout(r))
    case ProposalAcceptance(accepter, proposer, decision, hash, due) =>
      Str(Chars("ct-proposal-acceptance-v1"), accepter + (proposer
      + ((match decision case Accepted => [0] case Rejected => [1] case Countered => [2]) + (hash + Le64(due)))))
    case CapacityBid(b) => Str(Chars("ct-capacity-bid-v1"), BidLayout(b))
    case IssuedCredential(c) => Str(Chars("ct-cred:v1"), Str(c.tenant, Str(c.agent, Le64(c.expiresAt))))
    case AgentBinding(b) =>
      Str(Chars("ct-agent-binding:v1"), Str(b.tunnelId, b.tokenHash + (b.agentKey + (Le64(b.issuedAt) + Le64(b.expiresAt)))))
    case Registration(nonce, token) => Str(Chars("ct-agent-reg:v1"), nonce + Str(token, []))
    case ChannelGrant(c) => Chars("ct-grant:v1|") + ClaimsLayout(c)
    case ChannelInvitation(c) => Chars("ct-chan-invite:v1|") + ClaimsLayout(c)
    case InviteRedeem(channel, invitee, holder) => Chars("ct-chan-invite-redeem-v1") + (channel + (invitee + holder))
    case InviteRedeemChallenge(channel, invitee, holder, challenge) =>
      Chars("ct-chan-invite-redeem-v2-chal") + (channel + (invitee + (holder + challenge)))
    case GrantRevoke(channel, digest, expires) =>
      Chars("ct-grant-revoke:v1|") + (channel + ([124] + (digest + ([124] + Le64(expires)))))
    case ChannelLeave(channel, holder, ts) =>
      Chars("ct-channel-leave:v1|") + (channel + ([124] + (holder + ([124] + Le64(ts)))))
    case GrantStatus(channel, peer, digest, ts) =>
      Chars("ct-grant-status:v1|") + (channel + ([124] + (peer + ([124] + (digest + ([124] + Le64(ts)))))))
  }

  // ---- The model's preimages are these ----

  lemma Primitives()
    ensures forall n: nat, t: Bytes {:trigger U64(n, t)} :: U64(n, t) == Le64(n) + t
    ensures forall n: nat, t: Bytes {:trigger U32(n, t)} :: U32(n, t) == Le32(n) + t
    ensures forall b: Bytes, t: Bytes {:trigger Var(b, t)} :: Var(b, t) == Str(b, t)
    ensures forall n: nat {:trigger Le64(n)} :: Le64(n) + [] == Le64(n)
  {
    forall n: nat
      ensures Le(n, 8) == Le64(n) && Le(n, 4) == Le32(n)
    {
      LeIsLe64(n);
      LeIsLe32(n);
    }
  }

  lemma AsciiIsChars(s: string)
    ensures Hex.Ascii(s) == Chars(s)
  {
  }

  /** The body of a kind behind its literal domain. */
  function Headed(kind: nat, domain: string, body: Bytes): Bytes {
    if kind <= 12 then Str(Chars(domain), body) else Chars(domain) + body
  }

  lemma SealedIsHeaded(kind: nat, domain: string, body: Bytes)
    requires Domain(kind) == domain
    ensures Sealed(kind, body) == Headed(kind, domain, body)
  {
    AsciiIsChars(domain);
    Primitives();
  }

  lemma KeysInFront(a: Key, b: Key, c: Key, d: Key, rest: Bytes)
    ensures PutKeys([], rest) == rest
    ensures PutKeys([a], rest) == a + rest
    ensures PutKeys([a, b], rest) == a + (b + rest)
    ensures PutKeys([a, b, c], rest) == a + (b + (c + rest))
    ensures PutKeys([a, b, c, d], rest) == a + (b + (c + (d + rest)))
  {
    PutFirst([d], rest);
    PutFirst([c, d], rest);
    PutFirst([b, c, d], rest);
    PutFirst([a, b, c, d], rest);
    PutFirst([a], rest);
    PutFirst([b], rest);
    PutFirst([c], rest);
    PutFirst([a, b], rest);
    PutFirst([b, c], rest);
    PutFirst([a, b, c], rest);
    assert [a, b, c, d][1..] == [b, c, d] && [b, c, d][1..] == [c, d] && [c, d][1..] == [d] && [d][1..] == [];
    assert [a, b, c][1..] == [b, c] && [b, c][1..] == [c] && [c][1..] == [] && [a, b][1..] == [b] && [b][1..] == [] && [a][1..] == [];
  }

  lemma PutFirst(keys: seq<Key>, rest: Bytes)
    requires keys != []
    ensures PutKeys(keys, rest) == keys[0] + PutKeys(keys[1..], rest)
  {
  }

  lemma Bodied(o: SignedObject, domain: string)
    requires Domain(KindIndex(o)) == domain
    ensures SigningBytes(o) == Headed(KindIndex(o), domain, PutKeys(LeadingKeys(o), Rest(o)))
  {
    SealedIsHeaded(KindIndex(o), domain, Body(o));
  }

  // Membership and settlement.

  lemma TopologyLayout(id: Text, operator: Key)
    ensures SigningBytes(TopologyOperator(id, operator)) == Layout(TopologyOperator(id, operator))
  {
    Bodied(TopologyOperator(id, operator), "ct-topology-operator-v1");
    Primitives();
    assert operator + [] == operator;
  }

  lemma AttestationLayout(channel: Key, holder: Key, noise: Key)
    ensures SigningBytes(NoiseAttestation(channel, holder, noise)) == Layout(NoiseAttestation(channel, holder, noise))
  {
    Bodied(NoiseAttestation(channel, holder, noise), "ct-a2a-noise-attest-v1");
    KeysInFront(channel, holder, noise, noise, []);
    assert noise + [] == noise;
  }

  lemma StapleLayout(s: Staple)
    ensures SigningBytes(MembershipStaple(s)) == Layout(MembershipStaple(s))
  {
    Bodied(MembershipStaple(s), "ct-membership-staple-v1");
    Primitives();
    KeysInFront(s.channel, s.holder, s.holder, s.holder, Rest(MembershipStaple(s)));
  }

  lemma CommitmentLayout(channel: Key, holder: Key, payee: Key, terms: Key, amount: u64, expires: u64)
    ensures var o := BillingCommitment(channel, holder, payee, terms, amount, expires); SigningBytes(o) == Layout(o)
  {
    var o := BillingCommitment(channel, holder, payee, terms, amount, expires);
    Bodied(o, "ct-billing-commitment-v1");
    Primitives();
    KeysInFront(channel, holder, payee, terms, Rest(o));
  }

  lemma SettleLayout(channel: Key, receiver: Key, terms: Key, nonce: Key, delivered: u64, digest: Key)
    ensures var o := SettleReceipt(channel, receiver, terms, nonce, delivered, digest); SigningBytes(o) == Layout(o)
  {
    var o := SettleReceipt(channel, receiver, terms, nonce, delivered, digest);
    Bodied(o, "ct-settle-receipt-v1");
    Primitives();
    KeysInFront(channel, receiver, terms, nonce, Rest(o));
    assert digest + [] == digest;
  }

  lemma AcceptanceLayout(accepter: Key, proposer: Key, decision: Decision, hash: Key, due: u64)
    ensures var o := ProposalAcceptance(accepter, proposer, decision, hash, due); SigningBytes(o) == Layout(o)
  {
    var o := ProposalAcceptance(accepter, proposer, decision, hash, due);
    Bodied(o, "ct-proposal-acceptance-v1");
    LeIsLe64(due);
    assert Le64(due) + [] == Le64(due);
    assert Rest(o) == (match decision case Accepted => [0] case Rejected => [1] case Countered => [2]) + (hash + Le64(due));
    KeysInFront(accepter, proposer, proposer, proposer, Rest(o));
  }

  // Cards and the market.

  lemma {:induction false} TextsAre(xs: seq<Text>, tail: Bytes)
    ensures Each(PutText, xs, tail) == Texts(xs, tail)
  {
    Primitives();
    if xs != [] {
      TextsAre(xs[1..], tail);
    }
  }

  lemma {:induction false} KeysAre(xs: seq<Key>, tail: Bytes)
    ensures Each(PutKey, xs, tail) == Keys(xs, tail)
  {
    if xs != [] {
      KeysAre(xs[1..], tail);
    }
  }

  lemma {:induction false} SkillsAre(xs: seq<Skill>, tail: Bytes)
    ensures Each(PutSkill, xs, tail) == Skills(xs, tail)
  {
    Primitives();
    if xs != [] {
      SkillsAre(xs[1..], tail);
      TextsAre(xs[0].examples, Skills(xs[1..], tail));
    }
  }

  lemma ServiceIs(s: Service, tail: Bytes)
    ensures PutService(s, tail) == OneService(s, tail)
  {
    Primitives();
  }

  lemma {:induction false} ServicesAre(xs: seq<Service>, tail: Bytes)
    ensures Each(PutService, xs, tail) == Services(xs, tail)
  {
    if xs != [] {
      ServicesAre(xs[1..], tail);
      ServiceIs(xs[0], Services(xs[1..], tail));
    }
  }

  lemma CardBody(c: Card)
    ensures c.holder + CardRest(c) == CardLayout(c)
  {
    Primitives();
    var times := Le64(c.issuedAt) + Le64(c.expiresAt);
    var channels := Le32(|c.channels|) + Keys(c.channels, times);
    var cells := Le32(|c.cells|) + Keys(c.cells, channels);
    var skills := Le32(|c.skills|) + Skills(c.skills, cells);
    KeysAre(c.channels, times);
    KeysAre(c.cells, channels);
    SkillsAre(c.skills, cells);
    TextsAre(c.roleTags, skills);
  }

  lemma AgentCardLayout(c: Card)
    ensures SigningBytes(AgentCard(c)) == Layout(AgentCard(c))
  {
    Bodied(AgentCard(c), "ct-agent-card-v1");
    KeysInFront(c.holder, c.holder, c.holder, c.holder, CardRest(c));
    CardBody(c);
  }

  lemma TermsAre(o: Offer)
    ensures OfferTerms(o) == Le64(o.unitsAvailable) + (Le64(o.minPrice) + Str(o.currency, Le64(o.issuedAt)
                             + (Le64(o.expiresAt) + (Le32(|o.services|) + Services(o.services, [])))))
  {
    Primitives();
    ServicesAre(o.services, []);
  }

  lemma OfferBody(o: Offer)
    ensures o.holder + Rest(CapacityOffer(o)) == OfferLayout(o)
  {
    var terms, models := OfferTerms(o), Texts(o.models, OfferTerms(o));
    TermsAre(o);
    TextsAre(o.models, terms);
    LeIsLe32(|o.models|);
    assert Rest(CapacityOffer(o)) == Kind(o.kind) + (Le32(|o.models|) + models);
  }

  lemma CapacityOfferLayout(o: Offer)
    ensures SigningBytes(CapacityOffer(o)) == Layout(CapacityOffer(o))
  {
    Bodied(CapacityOffer(o), "ct-capacity-offer-v1");
    KeysInFront(o.holder, o.holder, o.holder, o.holder, Rest(CapacityOffer(o)));
    OfferBody(o);
  }

  lemma AskedIs(b: Bid)
    ensures Asked(b) == match b.service case Some(s) => Tag(1, PutService(s, [])) case None => Tag(0, [])
  {
    if b.service.Some? {
      ServiceIs(b.service.value, []);
    }
  }

  lemma BidBody(b: Bid)
    ensures b.bidder + BidRest(b) == BidLayout(b)
  {
    AskedIs(b);
    var t4 := b.termsAck + Asked(b);
    var t3 := Le64(b.issuedAt) + (Le64(b.expiresAt) + t4);
    var t2 := Le64(b.units) + (Le64(b.totalPrice) + t3);
    LeIsLe64(b.issuedAt);
    LeIsLe64(b.expiresAt);
    assert U64(b.issuedAt, U64(b.expiresAt, t4)) == t3;
    LeIsLe64(b.units);
    LeIsLe64(b.totalPrice);
    assert U64(b.units, U64(b.totalPrice, t3)) == t2;
    LeIsLe32(|b.model|);
    assert BidRest(b) == Kind(b.kind) + Str(b.model, t2);
  }

  lemma CapacityBidLayout(b: Bid)
    ensures SigningBytes(CapacityBid(b)) == Layout(CapacityBid(b))
  {
    Bodied(CapacityBid(b), "ct-capacity-bid-v1");
    KeysInFront(b.bidder, b.bidder, b.bidder, b.bidder, BidRest(b));
    BidBody(b);
  }

  lemma ReceiptBody(r: Receipt)
    ensures r.provider + (r.consumer + ReceiptRest(r)) == ReceiptLayout(r)
  {
    Primitives();
    KeysInFront(r.requestHash, r.responseHash, r.responseHash, r.responseHash, []);
    assert r.responseHash + [] == r.responseHash;
  }

  lemma UsageReceiptLayout(r: Receipt)
    ensures SigningBytes(UsageReceipt(r)) == Layout(UsageReceipt(r))
  {
    Bodied(UsageReceipt(r), "ct-usage-receipt-v1");
    KeysInFront(r.provider, r.consumer, r.consumer, r.consumer, ReceiptRest(r));
    ReceiptBody(r);
  }

  // Credentials, bindings and registrations.

  lemma CredentialLayout(c: Credential)
    ensures SigningBytes(IssuedCredential(c)) == Layout(IssuedCredential(c))
  {
    var o := IssuedCredential(c);
    Primitives();
    assert Rest(o) == Str(c.tenant, Str(c.agent, Le64(c.expiresAt)));
    assert Body(o) == Rest(o);
    SealedIsHeaded(10, "ct-cred:v1", Rest(o));
  }

  lemma BindingLayout(b: Binding)
    ensures SigningBytes(AgentBinding(b)) == Layout(AgentBinding(b))
  {
    Bodied(AgentBinding(b), "ct-agent-binding:v1");
    Primitives();
    var times := U64(b.issuedAt, U64(b.expiresAt, []));
    KeysInFront(b.tokenHash, b.agentKey, b.agentKey, b.agentKey, times);
    KeysInFront(b.tokenHash, b.agentKey, b.agentKey, b.agentKey, Rest(AgentBinding(b)));
  }

  lemma RegistrationLayout(nonce: Key, token: Field)
    ensures SigningBytes(Registration(nonce, token)) == Layout(Registration(nonce, token))
  {
    Bodied(Registration(nonce, token), "ct-agent-reg:v1");
    Primitives();
    KeysInFront(nonce, nonce, nonce, nonce, Rest(Registration(nonce, token)));
  }

  // Text and raw domains.

  lemma ClaimsBody(c: Claims)
    ensures ClaimsText(c) == ClaimsLayout(c)
  {
    HexIsHexChars(c.channel);
    HexIsHexChars(c.party);
    AsciiIsChars(DirectionLabel(c.direction));
    AsciiIsChars(RightsLabel(c.rights));
    AsciiIsChars(Hex.Decimal(c.expiresAt));
    assert Chars("1") == [49] && Chars("0") == [48];
  }

  lemma ClaimsBehind(kind: nat, domain: string, c: Claims)
    requires Domain(kind) == domain && kind > 12
    ensures Sealed(kind, PutKeys([], ClaimsText(c))) == Chars(domain) + ClaimsLayout(c)
  {
    SealedIsHeaded(kind, domain, ClaimsText(c));
    ClaimsBody(c);
  }

  lemma GrantLayout(c: Claims)
    ensures SigningBytes(ChannelGrant(c)) == Layout(ChannelGrant(c))
  {
    ClaimsBehind(13, "ct-grant:v1|", c);
  }

  lemma InvitationLayout(c: Claims)
    ensures SigningBytes(ChannelInvitation(c)) == Layout(ChannelInvitation(c))
  {
    ClaimsBehind(14, "ct-chan-invite:v1|", c);
  }

  lemma RedeemLayout(channel: Key, invitee: Key, holder: Key, challenge: Key)
    ensures SigningBytes(InviteRedeem(channel, invitee, holder)) == Layout(InviteRedeem(channel, invitee, holder))
    ensures var o := InviteRedeemChallenge(channel, invitee, holder, challenge); SigningBytes(o) == Layout(o)
  {
    Bodied(InviteRedeem(channel, invitee, holder), "ct-chan-invite-redeem-v1");
    Bodied(InviteRedeemChallenge(channel, invitee, holder, challenge), "ct-chan-invite-redeem-v2-chal");
    KeysInFront(channel, invitee, holder, challenge, []);
    assert holder + [] == holder && challenge + [] == challenge;
  }

  lemma RevokeLayout(channel: Key, digest: Key, expires: u64)
    ensures SigningBytes(GrantRevoke(channel, digest, expires)) == Layout(GrantRevoke(channel, digest, expires))
  {
    Bodied(GrantRevoke(channel, digest, expires), "ct-grant-revoke:v1|");
    Primitives();
    KeysInFront(channel, channel, channel, channel, Rest(GrantRevoke(channel, digest, expires)));
  }

  lemma LeaveLayout(channel: Key, holder: Key, ts: u64)
    ensures SigningBytes(ChannelLeave(channel, holder, ts)) == Layout(ChannelLeave(channel, holder, ts))
  {
    Bodied(ChannelLeave(channel, holder, ts), "ct-channel-leave:v1|");
    Primitives();
    KeysInFront(channel, channel, channel, channel, Rest(ChannelLeave(channel, holder, ts)));
  }

  lemma StatusLayout(channel: Key, peer: Key, digest: Key, ts: u64)
    ensures SigningBytes(GrantStatus(channel, peer, digest, ts)) == Layout(GrantStatus(channel, peer, digest, ts))
  {
    Bodied(GrantStatus(channel, peer, digest, ts), "ct-grant-status:v1|");
    Primitives();
    KeysInFront(channel, channel, channel, channel, Rest(GrantStatus(channel, peer, digest, ts)));
  }

  /** Every preimage is laid out as written above. */
  lemma SigningBytesAreLaidOut(o: SignedObject)
    ensures SigningBytes(o) == Layout(o)
  {
    match o
    case TopologyOperator(id, operator) => TopologyLayout(id, operator);
    case NoiseAttestation(channel, holder, noise) => AttestationLayout(channel, holder, noise);
    case MembershipStaple(s) => StapleLayout(s);
    case BillingCommitment(channel, holder, payee, terms, amount, expires) =>
      CommitmentLayout(channel, holder, payee, terms, amount, expires);
    case SettleReceipt(channel, receiver, terms, nonce, delivered, digest) =>
      SettleLayout(channel, receiver, terms, nonce, delivered, digest);
    case AgentCard(c) => AgentCardLayout(c);
    case CapacityOffer(o) => CapacityOfferLayout(o);
    case UsageReceipt(r) => UsageReceiptLayout(r);
    case ProposalAcceptance(accepter, proposer, decision, hash, due) =>
      AcceptanceLayout(accepter, proposer, decision, hash, due);
    case CapacityBid(b) => CapacityBidLayout(b);
    case IssuedCredential(c) => CredentialLayout(c);
    case AgentBinding(b) => BindingLayout(b);
    case Registration(nonce, token) => RegistrationLayout(nonce, token);
    case ChannelGrant(c) => GrantLayout(c);
    case ChannelInvitation(c) => InvitationLayout(c);
    case InviteRedeem(channel, invitee, holder) => RedeemLayout(channel, invitee, holder, holder);
    case InviteRedeemChallenge(channel, invitee, holder, challenge) => RedeemLayout(channel, invitee, holder, challenge);
    case GrantRevoke(channel, digest, expires) => RevokeLayout(channel, digest, expires);
    case ChannelLeave(channel, holder, ts) => LeaveLayout(channel, holder, ts);
    case GrantStatus(channel, peer, digest, ts) => StatusLayout(channel, peer, digest, ts);
  }
}

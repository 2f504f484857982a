/** The dial as it is configured for a grant: what the trust gate checks, what is presented, what each
    failure is reported as, and how long each stage may take, in plain terms. */
module ConfiguredDial {
  import opened Wrappers
  import opened Bytes
  import opened ChannelWire
  import opened AckReader
  import opened SignedObjects
  import opened Codecs
  import opened Dial
  import opened DialOutcomes
  import Hex

  // ---- The trust gate ----

  /** An admission whose full triple carries the holder's signature over its attestation of the Noise key for
      the grant's channel. */
  predicate Attests(verify: Verifier, grant: SignedClaims, o: Outcome<Addr>) {
    && o.Admitted? && o.peerNoiseKey.Some? && o.peerHolder.Some? && o.peerAttestation.Some?
    && verify(o.peerHolder.value,
              SigningBytes(NoiseAttestation(grant.claims.channel, o.peerHolder.value, o.peerNoiseKey.value)),
              o.peerAttestation.value)
  }

  lemma VerifiedIsAttests(broker: Addr, relay: Addr, grant: SignedClaims, verify: Verifier,
                          text: Bytes -> string, parseAddr: string -> Option<Addr>, o: Outcome<Addr>)
    ensures Verified(Configure(broker, relay, grant, verify, text, parseAddr), o) <==> Attests(verify, grant, o)
  {
  }

  /** Before action i the first hop admitted with such a triple; a handshake uses its very key. */
  ghost predicate AttestedBefore(verify: Verifier, grant: SignedClaims, log: seq<Action>, i: nat)
    requires i < |log|
  {
    exists j :: 0 <= j < i && log[j].Heard? && log[j].hop.Rendezvous? && Attests(verify, grant, log[j].outcome)
                && (log[i].StartedNoise? ==> log[j].outcome.peerNoiseKey == Some(log[i].peerKey))
  }

  predicate NeedsAttestation(a: Action) {
    (a.Dialed? && a.conn != 0) || a.StartedNoise? || a.SentCall?
  }

  lemma AfterVerificationIsAttested(cfg: Config, verify: Verifier, grant: SignedClaims, log: seq<Action>, i: nat, key: Option<Key>)
    requires i < |log| && AfterVerification(cfg, log, i, key)
    requires log[i].StartedNoise? ==> key == Some(log[i].peerKey)
    requires forall o :: Verified(cfg, o) <==> Attests(verify, grant, o)
    ensures AttestedBefore(verify, grant, log, i)
  {
    var j :| 0 <= j < i && j < |log| && log[j].Heard? && log[j].hop.Rendezvous? && Verified(cfg, log[j].outcome)
             && (key.Some? ==> log[j].outcome.peerNoiseKey == key);
    assert Attests(verify, grant, log[j].outcome);
  }

  /** In every run for a grant: nothing but the broker is dialed, no handshake is started and no call sent
      before the first hop admitted with a triple whose attestation verifies, and dials go to the two
      addresses of the call. */
  lemma EveryConfiguredRunIsGated(broker: Addr, relay: Addr, grant: SignedClaims, verify: Verifier,
                                  text: Bytes -> string, parseAddr: string -> Option<Addr>, steps: seq<Step>)
    requires Run(Configure(broker, relay, grant, verify, text, parseAddr), steps).Some?
    ensures var log := Run(Configure(broker, relay, grant, verify, text, parseAddr), steps).value.log;
            forall i | 0 <= i < |log| ::
              && (NeedsAttestation(log[i]) ==> AttestedBefore(verify, grant, log, i))
              && (log[i].Dialed? ==> log[i] == Dialed(0, broker) || log[i] == Dialed(1, relay))
  {
    var cfg := Configure(broker, relay, grant, verify, text, parseAddr);
    var log := Run(cfg, steps).value.log;
    EveryRunIsSafe(cfg, steps);
    forall o: Outcome<Addr>
      ensures Verified(cfg, o) <==> Attests(verify, grant, o)
    {
      VerifiedIsAttests(broker, relay, grant, verify, text, parseAddr, o);
    }
    forall i: nat | i < |log| && NeedsAttestation(log[i])
      ensures AttestedBefore(verify, grant, log, i)
    {
      assert Allowed(cfg, log, i);
      AfterVerificationIsAttested(cfg, verify, grant, log, i, if log[i].StartedNoise? then Some(log[i].peerKey) else None);
    }
    forall i: nat | i < |log| && log[i].Dialed?
      ensures log[i] == Dialed(0, broker) || log[i] == Dialed(1, relay)
    {
      assert Allowed(cfg, log, i);
    }
  }

  /** An `OK` line at the first hop leads on to the relay exactly when the holder it names signed the
      attestation of the Noise key it names for the grant's channel: a forged or missing attestation ends
      the call. */
  lemma FirstAdmissionNeedsTheSignature(broker: Addr, relay: Addr, grant: SignedClaims, verify: Verifier,
                                        text: Bytes -> string, parseAddr: string -> Option<Addr>, s: State, ticks: nat,
                                        line: Bytes, after: Option<Bytes>, words: seq<string>, endpoint: string,
                                        triple: Option<Triple>)
    requires s.phase == AwaitingAck(Rendezvous, []) && IsAckLine(line) && !(NO <= line)
    requires IsOkLine(text(line), words, endpoint, triple)
    ensures var cfg := Configure(broker, relay, grant, verify, text, parseAddr);
            var t := ReadToEnd(cfg, s, Zeros(ticks) + (line + Ended(after)), false);
            if triple.Some? && verify(triple.value.holder,
                                      SigningBytes(NoiseAttestation(grant.claims.channel, triple.value.holder, triple.value.noise)),
                                      triple.value.attestation)
            then t.phase == Connecting(Relay) && t.peerKey == triple.value.noise
            else t.phase == Done(Err(NoVerifiedPeer)) && t.log == s.log
  {
    var cfg := Configure(broker, relay, grant, verify, text, parseAddr);
    FirstAdmissionIsChecked(cfg, s, ticks, line, after, text(line), words, endpoint, triple);
  }

  // ---- What is presented ----

  /** `relay-only` */
  const RELAY_ONLY: Bytes := [114, 101, 108, 97, 121, 45, 111, 110, 108, 121]

  lemma RelayOnlyIsText()
    ensures IsUtf8(RELAY_ONLY)
  {
    var b := RELAY_ONLY;
    assert IsUtf8(b[10..]) && b[10..] == [];
    assert b[9..][1..] == b[10..] && b[8..][1..] == b[9..] && b[7..][1..] == b[8..] && b[6..][1..] == b[7..];
    assert b[5..][1..] == b[6..] && b[4..][1..] == b[5..] && b[3..][1..] == b[4..] && b[2..][1..] == b[3..];
    assert b[1..][1..] == b[2..] && b[0..] == b;
    assert IsUtf8(b[9..]);
    assert IsUtf8(b[8..]);
    assert IsUtf8(b[7..]);
    assert IsUtf8(b[6..]);
    assert IsUtf8(b[5..]);
    assert IsUtf8(b[4..]);
    assert IsUtf8(b[3..]);
    assert IsUtf8(b[2..]);
    assert IsUtf8(b[1..]);
  }

  lemma RelayOnlyIsAscii()
    ensures Hex.Ascii(CHANNEL_ENDPOINT_RELAY_ONLY) == RELAY_ONLY
  {
  }

  /** The request is the grant and the relay-only endpoint, 149 bytes, and decodes as that join. */
  lemma TheRequestIsAJoin(broker: Addr, relay: Addr, grant: SignedClaims, verify: Verifier,
                          text: Bytes -> string, parseAddr: string -> Option<Addr>)
    ensures IsUtf8(RELAY_ONLY)
    ensures var cfg := Configure(broker, relay, grant, verify, text, parseAddr);
            cfg.request == JoinWire(JoinRequest(grant, RELAY_ONLY)) && |cfg.request| == 149
  {
    RelayOnlyIsText();
    RelayOnlyIsAscii();
    HopsPresentTheSameRequest(broker, relay, grant, verify, text, parseAddr);
  }

  /** Each hop sends it behind 0xFF, the hop's marker and its length, high byte first. */
  lemma JoinsAre(cfg: Config)
    requires |cfg.request| == 149
    ensures JoinBytes(cfg, Rendezvous) == [0xFF, 1, 0, 149] + cfg.request
    ensures JoinBytes(cfg, Relay) == [0xFF, 2, 0, 149] + cfg.request
  {
  }

  // ---- What a failure is reported as ----

  lemma {:induction false} MentionsInside(before: string, marker: string, after: string)
    ensures Mentions(before + (marker + after), marker)
  {
    if before == "" {
      assert before + (marker + after) == marker + after;
      assert marker <= marker + after;
    } else {
      assert (before + (marker + after))[1..] == before[1..] + (marker + after);
      MentionsInside(before[1..], marker, after);
    }
  }

  lemma {:induction false} MentionIsInside(text: string, marker: string) returns (before: string, after: string)
    requires Mentions(text, marker)
    ensures text == before + (marker + after)
  {
    if marker <= text {
      before, after := "", text[|marker|..];
    } else {
      var earlier: string;
      earlier, after := MentionIsInside(text[1..], marker);
      before := [text[0]] + earlier;
    }
  }

  /** An error somewhere in whose chain a text holds `park-expired` means that there is no peer. */
  lemma ParkExpiryIsNoPeer(texts: seq<string>, i: nat, before: string, after: string, leg: Hop)
    requires i < |texts| && texts[i] == before + ("park-expired" + after)
    ensures MapJoinError(Chain(texts), leg) == NoPeer
  {
    MentionsInside(before, "park-expired", after);
    assert texts[i] in texts && Mentions(texts[i], PARK_EXPIRED_MARKER);
  }

  /** Any other error of the exchange is a session error, and the two typed ones keep their meaning. */
  lemma OtherErrors(texts: seq<string>, leg: Hop)
    ensures (forall i, before, after | 0 <= i < |texts| :: texts[i] != before + ("park-expired" + after)) ==>
              MapJoinError(Chain(texts), leg) == SessionFailed
    ensures MapJoinError(DroppedBeforeAck, leg) == DroppedLegOn(leg) && MapJoinError(Stalled, leg) == CallTimedOut
  {
    if NamesParkExpiry(texts) {
      var t :| t in texts && Mentions(t, PARK_EXPIRED_MARKER);
      var before, after := MentionIsInside(t, "park-expired");
      var i :| 0 <= i < |texts| && texts[i] == t;
    }
  }

  /** What a failed wait ends in: a dial error while connecting or opening the admission stream, the mapped
      error before the challenge, a refusal without category in a tail, and a session error later. */
  lemma FailuresAreReported(cfg: Config, s: State, failure: Failure)
    requires Fits(s.phase, Failed(failure))
    ensures React(cfg, s, Failed(failure)).phase
            == Done(Err(match s.phase
                        case Connecting(_) => DialFailed
                        case OpeningStream(_) => DialFailed
                        case AwaitingChallenge(hop) => MapJoinError(failure, hop)
                        case AwaitingTail(_) => RefusedBy(None)
                        case _ => SessionFailed))
  {
  }

  /** The edge's park-expiry close, and its `EX`, mean that there is no peer; too long a line, or an answer
      that is neither challenge nor refusal, is a session error; an empty answer is a refusal. */
  lemma AnswersAreReported(cfg: Config, s: State, hop: Hop, bytes: Bytes, ack: Bytes)
    ensures OnAck(cfg, s, hop, Expired).phase == Done(Err(NoPeer))
    ensures IsExpiry(cfg.text(ack)) && ack != [] && !(NO <= ack) ==> OnAck(cfg, s, hop, Line(ack, None)).phase == Done(Err(NoPeer))
    ensures OnAck(cfg, s, hop, Overlong).phase == Done(Err(SessionFailed))
    ensures 0 < |bytes| < 32 && !(|bytes| >= 2 && bytes[0] == 78 && bytes[1] == 79) ==>
              OnOpening(cfg, s, hop, bytes).phase == Done(Err(SessionFailed))
    ensures OnOpening(cfg, s, hop, []).phase == Done(Err(RefusedBy(None)))
  {
    ExpiryIff(cfg.text(ack));
    assert NO <= bytes <==> |bytes| >= 2 && bytes[0] == 78 && bytes[1] == 79;
  }

  /** What is signed are the first 32 bytes of the answer, on the stream of the join. */
  lemma ChallengeIsSigned(cfg: Config, s: State, hop: Hop, bytes: Bytes)
    requires |bytes| >= 32 && s.streams > 0
    ensures OnOpening(cfg, s, hop, bytes)
            == s.(phase := AwaitingAck(hop, []),
                  log := s.log + [Signed(s.streams - 1, bytes[..32]), Finished(s.streams - 1)])
  {
    ChallengesAre(bytes);
  }

  // ---- How long a stage may take ----

  /** In milliseconds: 45 s a hop, 2 s the rest of a refusal, 15 s the session stream, 10 s the handshake,
      20 s the call. */
  function Allowance(stage: nat): nat
    requires stage < 7
  {
    [45_000, 2_000, 45_000, 2_000, 15_000, 10_000, 20_000][stage]
  }

  lemma AllowancesAddUp()
    ensures Allowance(0) + Allowance(2) + Allowance(4) + Allowance(5) + Allowance(6) == 135_000 == TOTAL_BUDGET
  {
  }

  lemma HearAllows(cfg: Config, s: State, hop: Hop, o: Outcome<Addr>)
    ensures var t := Hear(cfg, s, hop, o); t.phase.Done? || t.deadline == t.clock + Allowance(Stage(t.phase))
  {
  }

  lemma OnAckAllows(cfg: Config, s: State, hop: Hop, ack: Ack)
    ensures var t := OnAck(cfg, s, hop, ack); t.phase.Done? || t.deadline == t.clock + Allowance(Stage(t.phase))
  {
    match ack
    case Line(line, rest) => HearAllows(cfg, s, hop, Meaning(cfg.text(line), cfg.parseAddr));
    case _ =>
  }

  /** Each stage starts with its own full allowance. */
  lemma EachStageHasItsAllowance(cfg: Config, s: State, step: Step)
    requires Enabled(s, step)
    ensures Initial(cfg).deadline == Allowance(0) && Initial(cfg).clock == 0
    ensures var t := Apply(cfg, s, step);
            Stage(t.phase) == Stage(s.phase) || t.phase.Done? || t.deadline == t.clock + Allowance(Stage(t.phase))
  {
    match step
    case Respond(r) => ReactAllows(cfg, s, r);
    case Read(b, time) =>
      OnAckAllows(cfg, Spend(s, time), s.phase.hop, Line(s.phase.ack, Some([])));
      OnAckAllows(cfg, Spend(s, time), s.phase.hop, Overlong);
    case _ =>
  }

  lemma ReactAllows(cfg: Config, s: State, r: Response)
    requires Fits(s.phase, r)
    ensures var t := React(cfg, s, r);
            Stage(t.phase) == Stage(s.phase) || t.phase.Done? || t.deadline == t.clock + Allowance(Stage(t.phase))
  {
    match s.phase
    case AwaitingChallenge(hop) =>
      if r.Data? && ReadOpening(r.bytes).Answer? {
        HearAllows(cfg, s, hop, Refused(ReadOpening(r.bytes).category));
      }
    case AwaitingAck(hop, ack) => OnAckAllows(cfg, s, hop, if r.parkClosed then Expired else Line(ack, None));
    case AwaitingTail(hop) => HearAllows(cfg, s, hop, Refused(if r.Failed? then None else TailToken(r.bytes)));
    case _ =>
  }
}

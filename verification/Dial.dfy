/** The two-hop dial of a bridge caller as a step machine: the client's code against brokers that
    answer anything, or nothing, at any time. Times are milliseconds from the call's start. The runtime
    is prompt (timers fire on time and what has arrived is taken up at once), but the two loops that
    read as long as something is ready, the ack's bytes and the reply's records, may take any time for
    each turn, also past the deadline. */
module Dial {
  import opened Wrappers
  import opened Bytes
  import opened ChannelWire
  import opened AckReader
  import Hex
  import SignedObjects
  import Codecs
  import AppFrames

  const ADMISSION_EXCHANGE_TIMEOUT: nat := 45_000
  const REFUSAL_TAIL_BOUND: nat := 2_000
  const SESSION_STREAM_TIMEOUT: nat := 15_000
  const HANDSHAKE_TIMEOUT: nat := 10_000
  const CALL_TIMEOUT: nat := 20_000
  const TOTAL_BUDGET: nat := 135_000

  const PHASE_PREAMBLE_MAGIC: byte := 0xFF
  const CHANNEL_ENDPOINT_RELAY_ONLY: string := "relay-only"

  type Addr = string

  datatype Hop = Rendezvous | Relay

  datatype DialError =
    | RefusedBy(category: Option<Bytes>)
    | NoPeer
    | DialFailed
    | NoVerifiedPeer
    | DroppedLegOn(leg: Hop)
    | SessionFailed
    | CallTimedOut

  // ---- Errors of the admission exchange ----

  /** The exchange's own typed and timed errors, which name no park expiry, and any other error: its
      text first, then those of its sources. */
  datatype Failure = DroppedBeforeAck | Stalled | Chain(texts: seq<string>)

  const PARK_EXPIRED_MARKER: string := "park-expired"

  predicate Mentions(text: string, marker: string) {
    marker <= text || (text != "" && Mentions(text[1..], marker))
  }

  predicate NamesParkExpiry(texts: seq<string>) {
    exists t :: t in texts && Mentions(t, PARK_EXPIRED_MARKER)
  }

  method ErrorNamesParkExpiry(texts: seq<string>) returns (r: bool)
    ensures r <==> NamesParkExpiry(texts)
  {
    for i := 0 to |texts|
      invariant forall t | t in texts[..i] :: !Mentions(t, PARK_EXPIRED_MARKER)
    {
      if Mentions(texts[i], PARK_EXPIRED_MARKER) {
        return true;
      }
      assert texts[..i + 1] == texts[..i] + [texts[i]];
    }
    assert texts[..|texts|] == texts;
    r := false;
  }

  function MapJoinError(e: Failure, leg: Hop): DialError {
    match e
    case DroppedBeforeAck => DroppedLegOn(leg)
    case Stalled => CallTimedOut
    case Chain(texts) => if NamesParkExpiry(texts) then NoPeer else SessionFailed
  }

  // ---- The machine ----

  /** `request` is the encoded join request; `attested(channel, holder, noise key, signature)` is the
      attestation check, and `text` and `parseAddr` are the library conversions of the ack parser. */
  datatype Config = Config(broker: Addr, relay: Addr, channel: Key, request: Bytes,
                           attested: (Key, Key, Key, Signature) -> bool,
                           text: Bytes -> string, parseAddr: string -> Option<Addr>)

  /** The configuration of one call: the grant fixes the channel and, with the relay-only endpoint, the
      request; the attestation check is the signature check of the signed attestation object. */
  function Configure(broker: Addr, relay: Addr, grant: Codecs.SignedClaims, verify: SignedObjects.Verifier,
                     text: Bytes -> string, parseAddr: string -> Option<Addr>): Config
  {
    Config(broker, relay, grant.claims.channel, Codecs.ClaimsWire(grant) + Hex.Ascii(CHANNEL_ENDPOINT_RELAY_ONLY),
           (channel: Key, holder: Key, noise: Key, signature: Signature) =>
             verify(holder, SignedObjects.SigningBytes(SignedObjects.NoiseAttestation(channel, holder, noise)), signature),
           text, parseAddr)
  }

  /** What the client is waiting for: `ack` are the bytes of the ack so far, `buf` those of the reply. */
  datatype Phase =
    | Connecting(hop: Hop)
    | OpeningStream(hop: Hop)
    | AwaitingChallenge(hop: Hop)
    | AwaitingAck(hop: Hop, ack: Bytes)
    | AwaitingTail(hop: Hop)
    | OpeningSession
    | Handshaking
    | Calling(buf: Bytes)
    | Done(result: Result<Bytes, DialError>)

  /** What the client does, and the admissions it hears, in order. Connections and streams are numbered
      as they are opened. */
  datatype Action =
    | Dialed(conn: nat, addr: Addr)
    | Opened(conn: nat, stream: nat)
    | Joined(stream: nat, bytes: Bytes)
    | Signed(stream: nat, challenge: Bytes)
    | Finished(stream: nat)
    | Heard(hop: Hop, outcome: Outcome<Addr>)
    | StartedNoise(stream: nat, peerKey: Key)
    | SentCall(stream: nat)

  /** `since` is the start of the hop and `deadline` that of the phase; `late` is the time that reads
      have taken past deadlines in all, and `lateBefore` what it was when this deadline was set. */
  datatype State = State(phase: Phase, clock: nat, since: nat, deadline: nat, late: nat, lateBefore: nat,
                         conns: nat, streams: nat, peerKey: Key, log: seq<Action>)

  datatype Response =
    | Connected
    | StreamOpened
    | Data(bytes: Bytes)
    | Closed(parkClosed: bool)
    | HandshakeDone
    | Failed(failure: Failure)

  /** `Wait`: nothing is ready. `Read` and `Record`: a byte of the ack or a record of the reply is ready,
      and the turn of the loop takes `time`. `Expire`: nothing is ready at the deadline or after it. */
  datatype Step =
    | Wait(time: nat)
    | Respond(response: Response)
    | Read(b: byte, time: nat)
    | Record(plaintext: Bytes, time: nat)
    | Expire

  function Marker(hop: Hop): byte {
    match hop case Rendezvous => 1 case Relay => 2
  }

  /** The phase preamble, then the length-framed request. */
  function JoinBytes(cfg: Config, hop: Hop): Bytes {
    [PHASE_PREAMBLE_MAGIC, Marker(hop)] + Be16(|cfg.request|) + cfg.request
  }

  predicate Verified(cfg: Config, o: Outcome<Addr>) {
    && o.Admitted? && o.peerNoiseKey.Some? && o.peerHolder.Some? && o.peerAttestation.Some?
    && cfg.attested(cfg.channel, o.peerHolder.value, o.peerNoiseKey.value, o.peerAttestation.value)
  }

  function Initial(cfg: Config): State {
    State(Connecting(Rendezvous), 0, 0, ADMISSION_EXCHANGE_TIMEOUT, 0, 0, 1, 0, seq(32, _ => 0), [Dialed(0, cfg.broker)])
  }

  function End(s: State, result: Result<Bytes, DialError>): State {
    Enter(s, Done(result), 0)
  }

  /** On to the next phase, with a budget of its own. */
  function Enter(s: State, phase: Phase, budget: nat): State {
    s.(phase := phase, deadline := s.clock + budget, lateBefore := s.late)
  }

  /** The admission outcome of a hop. Only the first hop's names the peer, and only if it verifies is the
      relay dialed. */
  function Hear(cfg: Config, s: State, hop: Hop, o: Outcome<Addr>): (t: State)
    ensures t.phase.Done? ==> t.phase.result.Err?
  {
    match o
    case Refused(category) => End(s, Err(RefusedBy(category)))
    case ParkExpired => End(s, Err(NoPeer))
    case Admitted(_, _, _, _, _) =>
      match hop
      case Relay => Enter(s, OpeningSession, SESSION_STREAM_TIMEOUT).(log := s.log + [Heard(Relay, o)])
      case Rendezvous =>
        if !Verified(cfg, o) then End(s, Err(NoVerifiedPeer))
        else
          Enter(s, Connecting(Relay), ADMISSION_EXCHANGE_TIMEOUT).(
            since := s.clock, conns := s.conns + 1, peerKey := o.peerNoiseKey.value,
            log := s.log + [Heard(Rendezvous, o), Dialed(s.conns, cfg.relay)])
  }

  /** Reading the answer before the challenge; after a challenge, the signature and the stream's end. */
  function OnOpening(cfg: Config, s: State, hop: Hop, bytes: Bytes): (t: State)
    ensures t.phase.Done? ==> t.phase.result.Err?
  {
    match ReadOpening(bytes)
    case Answer(category) => Hear(cfg, s, hop, Refused(category))
    case Broken => End(s, Err(SessionFailed))
    case Challenge(challenge) =>
      var stream := if s.streams > 0 then s.streams - 1 else 0;
      s.(phase := AwaitingAck(hop, []), log := s.log + [Signed(stream, challenge), Finished(stream)])
  }

  /** What the ack, once read, leads to. */
  function OnAck(cfg: Config, s: State, hop: Hop, ack: Ack): (t: State)
    ensures t.phase.Done? ==> t.phase.result.Err?
  {
    match ack
    case Overlong => End(s, Err(SessionFailed))
    case Expired => Hear(cfg, s, hop, ParkExpired)
    case Line(line, rest) =>
      if line == [] then End(s, Err(MapJoinError(DroppedBeforeAck, hop)))
      else if !(NO <= line) then Hear(cfg, s, hop, Meaning(cfg.text(line), cfg.parseAddr))
      else if line != NO then Hear(cfg, s, hop, Refused(DecodeCategory(line[2..])))
      else if rest.None? then Hear(cfg, s, hop, Refused(None))
      else Enter(s, AwaitingTail(hop), REFUSAL_TAIL_BOUND)
  }

  /** One turn of the ack's loop, apart from the time it takes. Leading zeros are skipped uncounted. */
  function OnByte(cfg: Config, s: State, hop: Hop, ack: Bytes, b: byte): (t: State)
    ensures t.phase.Done? && !s.phase.Done? ==> t.phase.result.Err?
  {
    if b == NEWLINE then OnAck(cfg, s, hop, Line(ack, Some([])))
    else if b == 0 && ack == [] then s
    else if |ack| + 1 >= CHANNEL_ACK_MAX_BYTES then OnAck(cfg, s, hop, Overlong)
    else s.(phase := AwaitingAck(hop, ack + [b]))
  }

  /** One turn of the reply's loop. */
  function OnRecord(s: State, buf: Bytes, plaintext: Bytes): State {
    match AppFrames.TakeFrame(buf + plaintext)
    case None => s.(phase := Calling(buf + plaintext))
    case Some((body, _)) => End(s, Ok(body))
  }

  /** The clock after a turn of a loop, and how much of the turn lay past the deadline. */
  function Spend(s: State, time: nat): State {
    var start := if s.clock < s.deadline then s.deadline else s.clock;
    var end := s.clock + time;
    s.(clock := end, late := s.late + if end > start then end - start else 0)
  }

  predicate Fits(phase: Phase, r: Response) {
    match phase
    case Connecting(_) => r.Connected? || r.Failed?
    case OpeningStream(_) => r.StreamOpened? || r.Failed?
    case AwaitingChallenge(_) => r.Data? || r.Failed?
    case AwaitingAck(_, _) => r.Closed?
    case AwaitingTail(_) => r.Data? || r.Failed?
    case OpeningSession => r.StreamOpened? || r.Failed?
    case Handshaking => r.HandshakeDone? || r.Failed?
    case Calling(_) => r.Failed?
    case Done(_) => false
  }

  function React(cfg: Config, s: State, r: Response): State
    requires Fits(s.phase, r)
  {
    var conn := if s.conns > 0 then s.conns - 1 else 0;
    match s.phase
    case Connecting(hop) => if r.Failed? then End(s, Err(DialFailed)) else s.(phase := OpeningStream(hop))
    case OpeningStream(hop) =>
      if r.Failed? then End(s, Err(DialFailed))
      else s.(phase := AwaitingChallenge(hop), streams := s.streams + 1,
              log := s.log + [Opened(conn, s.streams), Joined(s.streams, JoinBytes(cfg, hop))])
    case AwaitingChallenge(hop) =>
      if r.Failed? then End(s, Err(MapJoinError(r.failure, hop))) else OnOpening(cfg, s, hop, r.bytes)
    case AwaitingAck(hop, ack) => OnAck(cfg, s, hop, if r.parkClosed then Expired else Line(ack, None))
    case AwaitingTail(hop) => Hear(cfg, s, hop, Refused(if r.Failed? then None else TailToken(r.bytes)))
    case OpeningSession =>
      if r.Failed? then End(s, Err(SessionFailed))
      else Enter(s, Handshaking, HANDSHAKE_TIMEOUT).(streams := s.streams + 1,
             log := s.log + [Opened(conn, s.streams), StartedNoise(s.streams, s.peerKey)])
    case Handshaking =>
      if r.Failed? || s.streams == 0 then End(s, Err(SessionFailed))
      else Enter(s, Calling([]), CALL_TIMEOUT).(log := s.log + [SentCall(s.streams - 1)])
    case Calling(_) => End(s, Err(SessionFailed))
    case Done(_) => s
  }

  /** What running out of time means in each phase. */
  function Lapse(s: State): State {
    match s.phase
    case AwaitingChallenge(hop) => End(s, Err(MapJoinError(Stalled, hop)))
    case AwaitingAck(hop, _) => End(s, Err(MapJoinError(Stalled, hop)))
    case AwaitingTail(_) => End(s, Err(RefusedBy(None)))
    case _ => End(s, Err(CallTimedOut))
  }

  predicate Enabled(s: State, step: Step) {
    && !s.phase.Done?
    && match step
       case Wait(time) => s.clock + time <= s.deadline
       case Respond(r) => Fits(s.phase, r)
       case Read(_, _) => s.phase.AwaitingAck?
       case Record(_, _) => s.phase.Calling?
       case Expire => s.clock >= s.deadline
  }

  function Apply(cfg: Config, s: State, step: Step): State
    requires Enabled(s, step)
  {
    match step
    case Wait(time) => s.(clock := s.clock + time)
    case Respond(r) => React(cfg, s, r)
    case Read(b, time) => OnByte(cfg, Spend(s, time), s.phase.hop, s.phase.ack, b)
    case Record(plaintext, time) => OnRecord(Spend(s, time), s.phase.buf, plaintext)
    case Expire => Lapse(s)
  }

  /** The state after `steps`, if each of them was possible. */
  function Run(cfg: Config, steps: seq<Step>): Option<State> {
    if steps == [] then Some(Initial(cfg))
    else
      match Run(cfg, steps[..|steps| - 1])
      case None => None
      case Some(s) => if Enabled(s, steps[|steps| - 1]) then Some(Apply(cfg, s, steps[|steps| - 1])) else None
  }

  // ---- The script every run follows ----

  /** What a run has heard so far: the two challenges and the two acks. */
  datatype Notes = Notes(challenge1: Bytes, ack1: Outcome<Addr>, challenge2: Bytes, ack2: Outcome<Addr>)

  function Script(cfg: Config, n: Notes, key: Key): seq<Action> {
    [ Dialed(0, cfg.broker), Opened(0, 0), Joined(0, JoinBytes(cfg, Rendezvous)), Signed(0, n.challenge1),
      Finished(0), Heard(Rendezvous, n.ack1),
      Dialed(1, cfg.relay), Opened(1, 1), Joined(1, JoinBytes(cfg, Relay)), Signed(1, n.challenge2),
      Finished(1), Heard(Relay, n.ack2),
      Opened(1, 2), StartedNoise(2, key), SentCall(2) ]
  }

  /** How far along the script a phase is. */
  function Written(phase: Phase): nat {
    match phase
    case Connecting(hop) => if hop.Rendezvous? then 1 else 7
    case OpeningStream(hop) => if hop.Rendezvous? then 1 else 7
    case AwaitingChallenge(hop) => if hop.Rendezvous? then 3 else 9
    case AwaitingAck(hop, _) => if hop.Rendezvous? then 5 else 11
    case AwaitingTail(hop) => if hop.Rendezvous? then 5 else 11
    case OpeningSession => 12
    case Handshaking => 14
    case Calling(_) => 15
    case Done(_) => 0
  }

  /** When a phase must be over, if no read runs late. */
  function Budget(phase: Phase): nat {
    match phase
    case Connecting(hop) => if hop.Rendezvous? then 45_000 else 90_000
    case OpeningStream(hop) => if hop.Rendezvous? then 45_000 else 90_000
    case AwaitingChallenge(hop) => if hop.Rendezvous? then 45_000 else 90_000
    case AwaitingAck(hop, _) => if hop.Rendezvous? then 45_000 else 90_000
    case AwaitingTail(hop) => if hop.Rendezvous? then 47_000 else 92_000
    case OpeningSession => 105_000
    case Handshaking => 115_000
    case Calling(_) => 135_000
    case Done(_) => 135_000
  }

  /** Inside a hop's own 45 s, unlike the tail of its refusal. */
  predicate InHop(phase: Phase) {
    phase.Connecting? || phase.OpeningStream? || phase.AwaitingChallenge? || phase.AwaitingAck?
  }

  /** The clock is past the deadline exactly by what reads took past it. */
  ghost predicate OnTime(s: State) {
    && s.since <= s.clock && s.lateBefore <= s.late
    && (if s.late == s.lateBefore then s.clock <= s.deadline else s.clock == s.deadline + (s.late - s.lateBefore))
    && s.deadline <= Budget(s.phase) + s.lateBefore
    && (InHop(s.phase) ==> s.deadline == s.since + ADMISSION_EXCHANGE_TIMEOUT)
    && (!s.phase.AwaitingAck? && !s.phase.Calling? ==> s.late == s.lateBefore)
  }

  /** The log is the script up to the phase; past the first hop its ack verifies and fixes the key. */
  ghost predicate Follows(cfg: Config, s: State, n: Notes) {
    && s.log <= Script(cfg, n, s.peerKey)
    && (|s.log| >= 6 ==> Verified(cfg, n.ack1) && s.peerKey == n.ack1.peerNoiseKey.value)
    && (|s.log| >= 12 ==> n.ack2.Admitted?)
    && (!s.phase.Done? ==>
          && |s.log| == Written(s.phase)
          && s.conns == (if |s.log| < 7 then 1 else 2)
          && s.streams == (if |s.log| < 2 then 0 else if |s.log| < 8 then 1 else if |s.log| < 13 then 2 else 3))
  }

  /** Neither loop has had enough to end. */
  predicate Unfinished(phase: Phase) {
    match phase
    case AwaitingAck(_, ack) => |ack| < CHANNEL_ACK_MAX_BYTES
    case Calling(buf) => |buf| <= 1 + AppFrames.MAX_MESSAGE_BYTES && AppFrames.TakeFrame(buf).None?
    case _ => true
  }

  ghost predicate Inv(cfg: Config, s: State, n: Notes) {
    OnTime(s) && Follows(cfg, s, n) && Unfinished(s.phase)
  }

  predicate Hearing(phase: Phase, hop: Hop) {
    (phase.AwaitingChallenge? || phase.AwaitingAck? || phase.AwaitingTail?) && phase.hop == hop
  }

  lemma SpendKeepsInv(cfg: Config, s: State, time: nat, n: Notes)
    requires Inv(cfg, s, n) && (s.phase.AwaitingAck? || s.phase.Calling?)
    ensures Inv(cfg, Spend(s, time), n)
  {
  }

  lemma HearKeepsInv(cfg: Config, s: State, hop: Hop, o: Outcome<Addr>, n: Notes) returns (n': Notes)
    requires Inv(cfg, s, n) && Hearing(s.phase, hop) && (o.Admitted? ==> s.phase.AwaitingAck?)
    ensures Inv(cfg, Hear(cfg, s, hop, o), n')
  {
    n' := n;
    if o.Admitted? {
      n' := if hop.Relay? then n.(ack2 := o) else n.(ack1 := o);
    }
  }

  lemma OnOpeningKeepsInv(cfg: Config, s: State, hop: Hop, bytes: Bytes, n: Notes) returns (n': Notes)
    requires Inv(cfg, s, n) && s.phase == AwaitingChallenge(hop)
    ensures Inv(cfg, OnOpening(cfg, s, hop, bytes), n')
  {
    n' := n;
    match ReadOpening(bytes)
    case Answer(category) => n' := HearKeepsInv(cfg, s, hop, Refused(category), n);
    case Broken =>
    case Challenge(challenge) => n' := if hop.Relay? then n.(challenge2 := challenge) else n.(challenge1 := challenge);
  }

  lemma OnAckKeepsInv(cfg: Config, s: State, hop: Hop, ack: Ack, n: Notes) returns (n': Notes)
    requires Inv(cfg, s, n) && s.phase.AwaitingAck? && s.phase.hop == hop
    ensures Inv(cfg, OnAck(cfg, s, hop, ack), n')
  {
    n' := n;
    match ack
    case Overlong =>
    case Expired => n' := HearKeepsInv(cfg, s, hop, ParkExpired, n);
    case Line(line, rest) =>
      if line != [] && !(NO <= line) {
        n' := HearKeepsInv(cfg, s, hop, Meaning(cfg.text(line), cfg.parseAddr), n);
      } else if line != [] && line != NO {
        n' := HearKeepsInv(cfg, s, hop, Refused(DecodeCategory(line[2..])), n);
      } else if line != [] && rest.None? {
        n' := HearKeepsInv(cfg, s, hop, Refused(None), n);
      }
  }

  lemma OnByteKeepsInv(cfg: Config, s: State, hop: Hop, ack: Bytes, b: byte, n: Notes) returns (n': Notes)
    requires Inv(cfg, s, n) && s.phase == AwaitingAck(hop, ack)
    ensures Inv(cfg, OnByte(cfg, s, hop, ack, b), n')
  {
    n' := n;
    if b == NEWLINE {
      n' := OnAckKeepsInv(cfg, s, hop, Line(ack, Some([])), n);
    } else if !(b == 0 && ack == []) && |ack| + 1 >= CHANNEL_ACK_MAX_BYTES {
      n' := OnAckKeepsInv(cfg, s, hop, Overlong, n);
    }
  }

  lemma OnRecordKeepsInv(cfg: Config, s: State, buf: Bytes, plaintext: Bytes, n: Notes)
    requires Inv(cfg, s, n) && s.phase == Calling(buf)
    ensures Inv(cfg, OnRecord(s, buf, plaintext), n)
  {
  }

  lemma ConnectingKeepsInv(cfg: Config, s: State, r: Response, n: Notes)
    requires Inv(cfg, s, n) && Fits(s.phase, r) && (s.phase.Connecting? || s.phase.OpeningStream?)
    ensures Inv(cfg, React(cfg, s, r), n)
  {
  }

  lemma SessionKeepsInv(cfg: Config, s: State, r: Response, n: Notes)
    requires Inv(cfg, s, n) && Fits(s.phase, r) && (s.phase.OpeningSession? || s.phase.Handshaking? || s.phase.Calling?)
    ensures Inv(cfg, React(cfg, s, r), n)
  {
  }

  lemma ReactKeepsInv(cfg: Config, s: State, r: Response, n: Notes) returns (n': Notes)
    requires Inv(cfg, s, n) && Fits(s.phase, r)
    ensures Inv(cfg, React(cfg, s, r), n')
  {
    n' := n;
    match s.phase
    case Connecting(_) => ConnectingKeepsInv(cfg, s, r, n);
    case OpeningStream(_) => ConnectingKeepsInv(cfg, s, r, n);
    case AwaitingChallenge(hop) =>
      if !r.Failed? {
        n' := OnOpeningKeepsInv(cfg, s, hop, r.bytes, n);
      }
    case AwaitingAck(hop, ack) => n' := OnAckKeepsInv(cfg, s, hop, if r.parkClosed then Expired else Line(ack, None), n);
    case AwaitingTail(hop) => n' := HearKeepsInv(cfg, s, hop, Refused(if r.Failed? then None else TailToken(r.bytes)), n);
    case _ => SessionKeepsInv(cfg, s, r, n);
  }

  lemma LapseKeepsInv(cfg: Config, s: State, n: Notes)
    requires Inv(cfg, s, n) && Enabled(s, Expire)
    ensures Inv(cfg, Lapse(s), n)
  {
  }

  lemma WaitKeepsInv(cfg: Config, s: State, time: nat, n: Notes)
    requires Inv(cfg, s, n) && Enabled(s, Wait(time))
    ensures Inv(cfg, s.(clock := s.clock + time), n)
  {
  }

  lemma StepKeepsInv(cfg: Config, s: State, step: Step, n: Notes) returns (n': Notes)
    requires Inv(cfg, s, n) && Enabled(s, step)
    ensures Inv(cfg, Apply(cfg, s, step), n')
  {
    n' := n;
    match step
    case Respond(r) => n' := ReactKeepsInv(cfg, s, r, n);
    case Read(b, time) =>
      SpendKeepsInv(cfg, s, time, n);
      n' := OnByteKeepsInv(cfg, Spend(s, time), s.phase.hop, s.phase.ack, b, n);
    case Record(plaintext, time) =>
      SpendKeepsInv(cfg, s, time, n);
      OnRecordKeepsInv(cfg, Spend(s, time), s.phase.buf, plaintext, n);
    case Expire => LapseKeepsInv(cfg, s, n);
    case Wait(time) => WaitKeepsInv(cfg, s, time, n);
  }

  lemma {:induction false} RunKeepsInv(cfg: Config, steps: seq<Step>) returns (n: Notes)
    requires Run(cfg, steps).Some?
    ensures Inv(cfg, Run(cfg, steps).value, n)
  {
    if steps == [] {
      n := Notes([], ParkExpired, [], ParkExpired);
    } else {
      n := RunKeepsInv(cfg, steps[..|steps| - 1]);
      n := StepKeepsInv(cfg, Run(cfg, steps[..|steps| - 1]).value, steps[|steps| - 1], n);
    }
  }

  // ---- What every run guarantees ----

  /** Action i comes after the first hop's admission with a triple that verifies for the channel. */
  ghost predicate AfterVerification(cfg: Config, log: seq<Action>, i: nat, key: Option<Key>) {
    exists j :: 0 <= j < i && j < |log| && log[j].Heard? && log[j].hop.Rendezvous? && Verified(cfg, log[j].outcome)
                && (key.Some? ==> log[j].outcome.peerNoiseKey == key)
  }

  /** The stream was opened on the relay connection and never carried a join, a signature or a FIN. */
  ghost predicate IsSessionStream(log: seq<Action>, stream: nat) {
    && Opened(1, stream) in log
    && forall a | a in log && (a.Joined? || a.Signed? || a.Finished?) :: a.stream != stream
  }

  ghost predicate Allowed(cfg: Config, log: seq<Action>, i: nat)
    requires i < |log|
  {
    match log[i]
    case Dialed(conn, addr) =>
      (conn == 0 && addr == cfg.broker) || (conn == 1 && addr == cfg.relay && AfterVerification(cfg, log, i, None))
    case Opened(conn, _) => conn == 0 || (conn == 1 && Dialed(1, cfg.relay) in log)
    case Joined(stream, bytes) =>
      || (Opened(0, stream) in log && bytes == JoinBytes(cfg, Rendezvous))
      || (Opened(1, stream) in log && bytes == JoinBytes(cfg, Relay))
    case Signed(stream, _) => Joined(stream, JoinBytes(cfg, Rendezvous)) in log || Joined(stream, JoinBytes(cfg, Relay)) in log
    case Finished(_) => true
    case Heard(_, outcome) => outcome.Admitted?
    case StartedNoise(stream, key) => IsSessionStream(log, stream) && AfterVerification(cfg, log, i, Some(key))
    case SentCall(stream) => IsSessionStream(log, stream) && AfterVerification(cfg, log, i, None)
  }

  /** A prefix of the script whose acks are what the client checked. */
  ghost predicate IsScripted(cfg: Config, n: Notes, key: Key, log: seq<Action>) {
    && log <= Script(cfg, n, key)
    && (|log| >= 6 ==> Verified(cfg, n.ack1) && key == n.ack1.peerNoiseKey.value)
    && (|log| >= 12 ==> n.ack2.Admitted?)
  }

  lemma ScriptVerifiesFirst(cfg: Config, n: Notes, key: Key, log: seq<Action>, i: nat)
    requires IsScripted(cfg, n, key, log) && 6 <= i < |log|
    ensures AfterVerification(cfg, log, i, Some(key)) && AfterVerification(cfg, log, i, None)
  {
    assert log[5] == Heard(Rendezvous, n.ack1);
  }

  lemma ScriptSeparatesStreams(cfg: Config, n: Notes, key: Key, log: seq<Action>)
    requires IsScripted(cfg, n, key, log) && |log| >= 14
    ensures IsSessionStream(log, 2)
  {
    assert log[12] == Opened(1, 2);
    forall a | a in log && (a.Joined? || a.Signed? || a.Finished?)
      ensures a.stream != 2
    {
      var i :| 0 <= i < |log| && log[i] == a;
      assert log[i] == Script(cfg, n, key)[i];
    }
  }

  /** The first seven actions: only the broker is dialed before the verification. */
  lemma FirstHopIsAllowed(cfg: Config, n: Notes, key: Key, log: seq<Action>, i: nat)
    requires IsScripted(cfg, n, key, log) && i < |log| && i <= 6
    ensures Allowed(cfg, log, i)
  {
    assert log[i] == Script(cfg, n, key)[i];
    assert i > 1 ==> log[1] == Opened(0, 0);
    assert i > 2 ==> log[2] == Joined(0, JoinBytes(cfg, Rendezvous));
    if i == 6 {
      ScriptVerifiesFirst(cfg, n, key, log, i);
    }
  }

  lemma SecondHopIsAllowed(cfg: Config, n: Notes, key: Key, log: seq<Action>, i: nat)
    requires IsScripted(cfg, n, key, log) && 7 <= i < |log|
    ensures Allowed(cfg, log, i)
  {
    assert log[i] == Script(cfg, n, key)[i];
    assert log[6] == Dialed(1, cfg.relay);
    assert log[7] == Opened(1, 1);
    assert i > 8 ==> log[8] == Joined(1, JoinBytes(cfg, Relay));
    if i >= 13 {
      ScriptVerifiesFirst(cfg, n, key, log, i);
      ScriptSeparatesStreams(cfg, n, key, log);
    }
  }

  /** In every run against every broker: the relay is dialed only after the first hop admitted with a
      full triple that verifies for the grant's channel; both hops present the same request under their
      own markers; the Noise key is the first hop's, whatever the second ack says; session bytes go
      only on a fresh stream of the relay connection; and the clock passes the sum of budgets at most by
      the time that reads took past their deadlines. */
  lemma EveryRunIsSafe(cfg: Config, steps: seq<Step>)
    requires Run(cfg, steps).Some?
    ensures var s := Run(cfg, steps).value;
            s.clock <= TOTAL_BUDGET + s.late && forall i | 0 <= i < |s.log| :: Allowed(cfg, s.log, i)
  {
    var n := RunKeepsInv(cfg, steps);
    var s := Run(cfg, steps).value;
    forall i | 0 <= i < |s.log|
      ensures Allowed(cfg, s.log, i)
    {
      if i <= 6 {
        FirstHopIsAllowed(cfg, n, s.peerKey, s.log, i);
      } else {
        SecondHopIsAllowed(cfg, n, s.peerKey, s.log, i);
      }
    }
  }

  // ---- When a deadline is passed ----

  /** The waits of a call in their order, one deadline each. */
  function Stage(phase: Phase): nat {
    match phase
    case AwaitingTail(hop) => if hop.Rendezvous? then 1 else 3
    case OpeningSession => 4
    case Handshaking => 5
    case Calling(_) => 6
    case Done(_) => 7
    case _ => if phase.hop.Rendezvous? then 0 else 2
  }

  /** What a step does to the clock and to the time spent late. */
  lemma StepKeepsTime(cfg: Config, s: State, step: Step)
    requires Enabled(s, step)
    ensures var t := Apply(cfg, s, step);
            && (step.Wait? ==> t.clock == s.clock + step.time <= s.deadline && t.late == s.late)
            && (step.Respond? || step.Expire? ==> t.clock == s.clock && t.late == s.late)
            && (step.Read? || step.Record? ==> t.clock == Spend(s, step.time).clock && t.late == Spend(s, step.time).late)
  {
  }

  lemma HearAdvances(cfg: Config, s: State, hop: Hop, o: Outcome<Addr>)
    ensures var t := Hear(cfg, s, hop, o);
            t.lateBefore == t.late && Stage(t.phase) > if hop.Rendezvous? then 1 else 3
  {
  }

  lemma OnAckAdvances(cfg: Config, s: State, hop: Hop, ack: Ack)
    ensures var t := OnAck(cfg, s, hop, ack);
            t.lateBefore == t.late && Stage(t.phase) > if hop.Rendezvous? then 0 else 2
  {
    match ack
    case Line(line, rest) =>
      HearAdvances(cfg, s, hop, Meaning(cfg.text(line), cfg.parseAddr));
    case _ =>
  }

  /** In the same stage, with the same deadline, or in a later one, where nothing is late yet. */
  ghost predicate Advances(s: State, t: State) {
    if Stage(t.phase) == Stage(s.phase) then t.deadline == s.deadline && t.lateBefore == s.lateBefore
    else Stage(t.phase) > Stage(s.phase) && t.lateBefore == t.late
  }

  lemma ReactAdvances(cfg: Config, s: State, r: Response)
    requires Fits(s.phase, r)
    ensures Advances(s, React(cfg, s, r))
  {
    match s.phase
    case AwaitingChallenge(hop) =>
      if r.Data? && ReadOpening(r.bytes).Answer? {
        HearAdvances(cfg, s, hop, Refused(ReadOpening(r.bytes).category));
      }
    case AwaitingAck(hop, ack) => OnAckAdvances(cfg, s, hop, if r.parkClosed then Expired else Line(ack, None));
    case AwaitingTail(hop) => HearAdvances(cfg, s, hop, Refused(if r.Failed? then None else TailToken(r.bytes)));
    case _ =>
  }

  lemma StepAdvances(cfg: Config, s: State, step: Step)
    requires Enabled(s, step)
    ensures Advances(s, Apply(cfg, s, step))
  {
    match step
    case Respond(r) => ReactAdvances(cfg, s, r);
    case Read(b, time) =>
      OnAckAdvances(cfg, Spend(s, time), s.phase.hop, Line(s.phase.ack, Some([])));
      OnAckAdvances(cfg, Spend(s, time), s.phase.hop, Overlong);
    case _ =>
  }

  lemma {:induction false} StagesAscend(cfg: Config, steps: seq<Step>, i: nat)
    requires i <= |steps| && Run(cfg, steps).Some?
    ensures Run(cfg, steps[..i]).Some?
    ensures Stage(Run(cfg, steps[..i]).value.phase) <= Stage(Run(cfg, steps).value.phase)
  {
    if i == |steps| {
      assert steps[..i] == steps;
    } else {
      var before := steps[..|steps| - 1];
      assert before[..i] == steps[..i];
      StagesAscend(cfg, before, i);
      StepAdvances(cfg, Run(cfg, before).value, steps[|steps| - 1]);
    }
  }

  /** In stage `stage` the i-th step is a turn of a loop, taken because its byte or record is ready, that
      ends after the deadline. */
  ghost predicate TurnRunsLate(cfg: Config, steps: seq<Step>, i: nat, stage: nat) {
    && i < |steps| && (steps[i].Read? || steps[i].Record?) && Run(cfg, steps[..i]).Some?
    && var s := Run(cfg, steps[..i]).value;
       Stage(s.phase) == stage && s.clock + steps[i].time > s.deadline
  }

  /** The first `n` steps hold such a turn. */
  ghost predicate SomeTurnRunsLate(cfg: Config, steps: seq<Step>, n: nat, stage: nat) {
    exists i :: 0 <= i < n && TurnRunsLate(cfg, steps, i, stage)
  }

  lemma TurnsOfPrefix(cfg: Config, steps: seq<Step>, n: nat, stage: nat)
    requires n <= |steps|
    ensures SomeTurnRunsLate(cfg, steps[..n], n, stage) <==> SomeTurnRunsLate(cfg, steps, n, stage)
  {
    forall i: nat | i < n
      ensures TurnRunsLate(cfg, steps[..n], i, stage) <==> TurnRunsLate(cfg, steps, i, stage)
    {
      assert steps[..n][..i] == steps[..i];
    }
  }

  /** The counter of the time spent late tells whether a turn of this stage ran late. */
  lemma {:induction false} LateIff(cfg: Config, steps: seq<Step>)
    requires Run(cfg, steps).Some? && !Run(cfg, steps).value.phase.Done?
    ensures var s := Run(cfg, steps).value;
            s.late > s.lateBefore <==> SomeTurnRunsLate(cfg, steps, |steps|, Stage(s.phase))
  {
    if steps != [] {
      var n := |steps| - 1;
      var before, last := steps[..n], steps[n];
      var s, t := Run(cfg, before).value, Run(cfg, steps).value;
      LateIff(cfg, before);
      TurnsOfPrefix(cfg, steps, n, Stage(t.phase));
      StepAdvances(cfg, s, last);
      StepKeepsTime(cfg, s, last);
      var _ := RunKeepsInv(cfg, before);
      if Stage(t.phase) == Stage(s.phase) {
        LastTurn(cfg, steps, Stage(t.phase));
      } else {
        NoTurnBefore(cfg, steps);
      }
    }
  }

  /** The last turn runs late or one before it did. */
  lemma LastTurn(cfg: Config, steps: seq<Step>, stage: nat)
    requires steps != []
    ensures SomeTurnRunsLate(cfg, steps, |steps|, stage)
            <==> SomeTurnRunsLate(cfg, steps, |steps| - 1, stage) || TurnRunsLate(cfg, steps, |steps| - 1, stage)
  {
  }

  /** A stage just entered has had no turn. */
  lemma NoTurnBefore(cfg: Config, steps: seq<Step>)
    requires steps != [] && Run(cfg, steps).Some?
    requires Stage(Run(cfg, steps[..|steps| - 1]).value.phase) < Stage(Run(cfg, steps).value.phase)
    ensures !SomeTurnRunsLate(cfg, steps, |steps|, Stage(Run(cfg, steps).value.phase))
  {
    var before := steps[..|steps| - 1];
    forall i: nat | i < |steps|
      ensures !TurnRunsLate(cfg, steps, i, Stage(Run(cfg, steps).value.phase))
    {
      assert before[..i] == steps[..i];
      StagesAscend(cfg, before, i);
    }
  }

  /** In every run, at every moment: the deadline is passed exactly when some turn of the present loop was
      taken that ended after it. So a call is over its budget in no other way. */
  lemma PastDeadlineIff(cfg: Config, steps: seq<Step>)
    requires Run(cfg, steps).Some? && !Run(cfg, steps).value.phase.Done?
    ensures var s := Run(cfg, steps).value;
            && (s.clock > s.deadline <==> SomeTurnRunsLate(cfg, steps, |steps|, Stage(s.phase)))
            && (InHop(s.phase) ==> s.deadline == s.since + ADMISSION_EXCHANGE_TIMEOUT)
  {
    var _ := RunKeepsInv(cfg, steps);
    LateIff(cfg, steps);
  }

  /** The same of the step that ends a stage, whatever that step is and wherever it leads. */
  lemma EndsPastDeadlineIff(cfg: Config, steps: seq<Step>, step: Step)
    requires Run(cfg, steps).Some? && Enabled(Run(cfg, steps).value, step)
    ensures var s := Run(cfg, steps).value;
            && (Apply(cfg, s, step).clock > s.deadline
                <==> SomeTurnRunsLate(cfg, steps + [step], |steps| + 1, Stage(s.phase)))
            && (InHop(s.phase) ==> s.deadline == s.since + ADMISSION_EXCHANGE_TIMEOUT)
  {
    var s, all := Run(cfg, steps).value, steps + [step];
    PastDeadlineIff(cfg, steps);
    assert all[..|steps|] == steps;
    TurnsOfPrefix(cfg, all, |steps|, Stage(s.phase));
    LastTurn(cfg, all, Stage(s.phase));
    StepKeepsTime(cfg, s, step);
  }

  /** Reading the rest of a refusal has 2 s of its own from the end of its line. */
  lemma {:induction false} TailIsBounded(cfg: Config, steps: seq<Step>, more: seq<Step>)
    requires Run(cfg, steps).Some? && Run(cfg, steps).value.phase.AwaitingTail? && Run(cfg, steps + more).Some?
    ensures var s, t := Run(cfg, steps).value, Run(cfg, steps + more).value;
            && t.clock <= s.deadline
            && (t.phase.Done? || (t.phase == s.phase && t.deadline == s.deadline))
    decreases |more|
  {
    var s := Run(cfg, steps).value;
    if more == [] {
      assert steps + more == steps;
      var _ := RunKeepsInv(cfg, steps);
    } else {
      var before := more[..|more| - 1];
      DropLast(steps, more);
      TailIsBounded(cfg, steps, before);
      TailStep(cfg, Run(cfg, steps + before).value, more[|more| - 1]);
    }
  }

  lemma DropLast<T>(xs: seq<T>, ys: seq<T>)
    requires ys != []
    ensures (xs + ys)[..|xs + ys| - 1] == xs + ys[..|ys| - 1] && (xs + ys)[|xs + ys| - 1] == ys[|ys| - 1]
  {
  }

  lemma TailStep(cfg: Config, s: State, step: Step)
    requires s.phase.AwaitingTail? && s.clock <= s.deadline && Enabled(s, step)
    ensures var t := Apply(cfg, s, step);
            t.clock <= s.deadline && (t.phase.Done? || (t.phase == s.phase && t.deadline == s.deadline))
  {
  }

  /** A refusal whose line ended at `deadline - 2 s` can hold the hop past its 45 s, answered late or not
      at all, exactly when the line ended later than 43 s into the hop. */
  lemma TailOutlastsTheHopIff(cfg: Config, steps: seq<Step>)
    requires Run(cfg, steps).Some? && Run(cfg, steps).value.phase.AwaitingTail?
    ensures var s := Run(cfg, steps).value;
            (exists more :: Run(cfg, steps + more).Some? && Run(cfg, steps + more).value.phase.Done?
                            && Run(cfg, steps + more).value.clock > s.since + ADMISSION_EXCHANGE_TIMEOUT)
            <==> s.deadline - REFUSAL_TAIL_BOUND > s.since + 43_000
  {
    var s := Run(cfg, steps).value;
    if s.deadline > s.since + ADMISSION_EXCHANGE_TIMEOUT {
      var _, more := SilenceEndsTheCall(cfg, steps);
    } else {
      forall more | Run(cfg, steps + more).Some?
        ensures Run(cfg, steps + more).value.clock <= s.deadline
      {
        TailIsBounded(cfg, steps, more);
      }
    }
  }

  // ---- Prompt reads, and reads that never end ----

  predicate IsPrompt(step: Step) {
    (step.Read? || step.Record?) ==> step.time == 0
  }

  /** If reading takes no time, every run keeps every budget. */
  lemma {:induction false} PromptRunsKeepTheBudget(cfg: Config, steps: seq<Step>)
    requires Run(cfg, steps).Some? && forall i | 0 <= i < |steps| :: IsPrompt(steps[i])
    ensures var s := Run(cfg, steps).value;
            s.late == 0 && s.clock <= TOTAL_BUDGET && (InHop(s.phase) ==> s.clock <= s.since + ADMISSION_EXCHANGE_TIMEOUT)
  {
    if steps != [] {
      PromptRunsKeepTheBudget(cfg, steps[..|steps| - 1]);
      StepKeepsTime(cfg, Run(cfg, steps[..|steps| - 1]).value, steps[|steps| - 1]);
    }
    var _ := RunKeepsInv(cfg, steps);
  }

  lemma RunStep(cfg: Config, steps: seq<Step>, step: Step, s: State)
    requires Run(cfg, steps) == Some(s) && Enabled(s, step)
    ensures Run(cfg, steps + [step]) == Some(Apply(cfg, s, step))
  {
    assert (steps + [step])[..|steps|] == steps;
  }

  function Repeated(step: Step, n: nat): seq<Step> {
    seq(n, _ => step)
  }

  /** A keepalive before the ack, or an empty record before the end of the reply, of a millisecond. */
  predicate Repeats(phase: Phase, step: Step) {
    match phase
    case AwaitingAck(_, ack) => step == Read(0, 1) && ack == []
    case Calling(buf) => step == Record([], 1) && AppFrames.TakeFrame(buf).None?
    case _ => false
  }

  /** Such a step can be repeated without end. */
  lemma {:induction false} RepeatedStep(cfg: Config, steps: seq<Step>, step: Step, n: nat)
    requires Run(cfg, steps).Some?
    requires Repeats(Run(cfg, steps).value.phase, step)
    ensures var s, r := Run(cfg, steps).value, Run(cfg, steps + Repeated(step, n));
            r.Some? && r.value.phase == s.phase && r.value.clock == s.clock + n && r.value.since == s.since
  {
    if n == 0 {
      assert steps + Repeated(step, 0) == steps;
    } else {
      RepeatedStep(cfg, steps, step, n - 1);
      assert Repeated(step, n) == Repeated(step, n - 1) + [step];
      Assoc(steps, Repeated(step, n - 1), [step]);
      var s := Run(cfg, steps + Repeated(step, n - 1)).value;
      assert s.phase.Calling? ==> s.phase.buf + [] == s.phase.buf;
      RunStep(cfg, steps + Repeated(step, n - 1), step, s);
    }
  }

  /** Up to the wait for the first ack, at the very end of the hop's 45 s. */
  lemma ReachAck(cfg: Config) returns (steps: seq<Step>)
    ensures Run(cfg, steps).Some?
    ensures var s := Run(cfg, steps).value;
            s.phase == AwaitingAck(Rendezvous, []) && s.since == 0 && s.clock == s.deadline == 45_000
    ensures forall i | 0 <= i < |steps| :: IsPrompt(steps[i])
  {
    var challenge: Bytes := seq(32, _ => 0);
    assert ReadOpening(challenge) == Challenge(challenge);
    var s0 := Initial(cfg);
    RunStep(cfg, [], Respond(Connected), s0);
    var s1 := Apply(cfg, s0, Respond(Connected));
    RunStep(cfg, [] + [Respond(Connected)], Respond(StreamOpened), s1);
    var s2 := Apply(cfg, s1, Respond(StreamOpened));
    steps := [] + [Respond(Connected)] + [Respond(StreamOpened)];
    RunStep(cfg, steps, Respond(Data(challenge)), s2);
    var s3 := Apply(cfg, s2, Respond(Data(challenge)));
    RunStep(cfg, steps + [Respond(Data(challenge))], Wait(45_000), s3);
    steps := steps + [Respond(Data(challenge))] + [Wait(45_000)];
  }

  /** A broker that keeps a zero byte ready before every read holds a hop, and with it the call, for any
      length of time: the bound of a read after the deadline is zero, but the byte is taken first. */
  lemma KeepalivesHoldTheHop(cfg: Config, extra: nat) returns (steps: seq<Step>)
    ensures Run(cfg, steps).Some?
    ensures var s := Run(cfg, steps).value;
            InHop(s.phase) && s.clock == s.since + ADMISSION_EXCHANGE_TIMEOUT + extra
  {
    var before := ReachAck(cfg);
    RepeatedStep(cfg, before, Read(0, 1), extra);
    steps := before + Repeated(Read(0, 1), extra);
  }

  /** So does, in the last phase, a peer that keeps an empty record ready. */
  lemma EmptyRecordsHoldTheCall(cfg: Config, steps: seq<Step>, extra: nat) returns (more: seq<Step>)
    requires Run(cfg, steps).Some? && Run(cfg, steps).value.phase.Calling?
    ensures Run(cfg, more).Some?
    ensures var s, t := Run(cfg, steps).value, Run(cfg, more).value;
            t.phase == s.phase && t.clock == s.clock + extra
  {
    var _ := RunKeepsInv(cfg, steps);
    RepeatedStep(cfg, steps, Record([], 1), extra);
    more := steps + Repeated(Record([], 1), extra);
  }

  /** The 45 s of a hop do not bound it even when reads are prompt: a broker that sends `NO` and a newline
      at the last moment and then falls silent holds the first hop for 47 s. */
  lemma RefusalTailOutlastsTheHop(cfg: Config) returns (steps: seq<Step>)
    ensures Run(cfg, steps).Some? && forall i | 0 <= i < |steps| :: IsPrompt(steps[i])
    ensures var s := Run(cfg, steps).value;
            s.phase == Done(Err(RefusedBy(None))) && s.clock == ADMISSION_EXCHANGE_TIMEOUT + REFUSAL_TAIL_BOUND
  {
    var before := ReachAck(cfg);
    ReadNo(cfg, before, Rendezvous, 45_000);
    steps := before + [Read(78, 0)] + [Read(79, 0)] + [Read(NEWLINE, 0)];
    var s := Run(cfg, steps).value;
    SilenceIsATimeout(s);
    WaitThenExpire(cfg, steps, s);
    steps := steps + [Wait(s.deadline - s.clock)] + [Expire];
  }

  /** A run that has come to state `phase` at `clock`. */
  ghost predicate Reaches(cfg: Config, steps: seq<Step>, phase: Phase, clock: nat) {
    Run(cfg, steps).Some? && Run(cfg, steps).value.phase == phase && Run(cfg, steps).value.clock == clock
  }

  /** A further byte of an ack, read in no time. */
  lemma ReadByte(cfg: Config, steps: seq<Step>, hop: Hop, ack: Bytes, b: byte, clock: nat)
    requires Reaches(cfg, steps, AwaitingAck(hop, ack), clock) && |ack| + 1 < CHANNEL_ACK_MAX_BYTES
    requires b != 0 && b != NEWLINE
    ensures Reaches(cfg, steps + [Read(b, 0)], AwaitingAck(hop, ack + [b]), clock)
  {
    RunStep(cfg, steps, Read(b, 0), Run(cfg, steps).value);
  }

  lemma BareNoHasATail(cfg: Config, s: State, hop: Hop, rest: Bytes)
    ensures OnAck(cfg, s, hop, Line(NO, Some(rest))) == Enter(s, AwaitingTail(hop), REFUSAL_TAIL_BOUND)
  {
    assert NO <= NO && NO != [];
  }

  lemma EndOfNo(cfg: Config, steps: seq<Step>, hop: Hop, clock: nat)
    requires Reaches(cfg, steps, AwaitingAck(hop, NO), clock)
    ensures Reaches(cfg, steps + [Read(NEWLINE, 0)], AwaitingTail(hop), clock)
    ensures Run(cfg, steps + [Read(NEWLINE, 0)]).value.deadline == clock + REFUSAL_TAIL_BOUND
  {
    var s := Run(cfg, steps).value;
    BareNoHasATail(cfg, Spend(s, 0), hop, []);
    RunStep(cfg, steps, Read(NEWLINE, 0), s);
  }

  /** The line `NO`, read in no time. */
  lemma ReadNo(cfg: Config, steps: seq<Step>, hop: Hop, clock: nat)
    requires Reaches(cfg, steps, AwaitingAck(hop, []), clock)
    ensures var more := steps + [Read(78, 0)] + [Read(79, 0)] + [Read(NEWLINE, 0)];
            Reaches(cfg, more, AwaitingTail(hop), clock) && Run(cfg, more).value.deadline == clock + REFUSAL_TAIL_BOUND
  {
    ReadByte(cfg, steps, hop, [], 78, clock);
    assert [] + [78] == [78] && [78] + [79] == NO;
    ReadByte(cfg, steps + [Read(78, 0)], hop, [78], 79, clock);
    EndOfNo(cfg, steps + [Read(78, 0)] + [Read(79, 0)], hop, clock);
  }

  // ---- Silence, and the length of a run ----

  /** How the call ends when nothing more is heard in state s. */
  function AfterSilence(s: State): State {
    Lapse(if s.clock < s.deadline then s.(clock := s.deadline) else s)
  }

  lemma SilenceIsATimeout(s: State)
    requires !s.phase.Done?
    ensures AfterSilence(s).phase == Done(Err(if s.phase.AwaitingTail? then RefusedBy(None) else CallTimedOut))
    ensures AfterSilence(s).clock == if s.clock < s.deadline then s.deadline else s.clock
  {
  }

  /** Silence always ends the call, at the phase's deadline or at once if that is past. */
  lemma SilenceEndsTheCall(cfg: Config, steps: seq<Step>) returns (s: State, more: seq<Step>)
    requires Run(cfg, steps).Some? && !Run(cfg, steps).value.phase.Done?
    ensures Run(cfg, steps) == Some(s) && Run(cfg, steps + more) == Some(AfterSilence(s))
    ensures AfterSilence(s).phase == Done(Err(if s.phase.AwaitingTail? then RefusedBy(None) else CallTimedOut))
    ensures AfterSilence(s).clock == if s.clock < s.deadline then s.deadline else s.clock
  {
    s := Run(cfg, steps).value;
    SilenceIsATimeout(s);
    if s.clock < s.deadline {
      var wait := Wait(s.deadline - s.clock);
      WaitThenExpire(cfg, steps, s);
      more := [wait] + [Expire];
      Assoc(steps, [wait], [Expire]);
    } else {
      more := [Expire];
      RunStep(cfg, steps, Expire, s);
    }
  }

  lemma WaitThenExpire(cfg: Config, steps: seq<Step>, s: State)
    requires Run(cfg, steps) == Some(s) && !s.phase.Done? && s.clock < s.deadline
    ensures Run(cfg, steps + [Wait(s.deadline - s.clock)] + [Expire]) == Some(AfterSilence(s))
  {
    var wait, t := Wait(s.deadline - s.clock), s.(clock := s.deadline);
    RunStep(cfg, steps, wait, s);
    assert Run(cfg, steps + [wait]) == Some(t);
    RunStep(cfg, steps + [wait], Expire, t);
  }

  /** Waiting, skipping a keepalive and reading an empty record change nothing but the time. */
  predicate Idle(s: State, step: Step) {
    match step
    case Wait(_) => true
    case Read(b, _) => b == 0 && s.phase.AwaitingAck? && s.phase.ack == []
    case Record(plaintext, _) => plaintext == []
    case _ => false
  }

  /** How many steps that are not idle can still follow. */
  function Left(phase: Phase): nat {
    match phase
    case Done(_) => 0
    case AwaitingTail(_) => 1
    case Calling(buf) => if |buf| <= 65_536 then 65_537 - |buf| else 1
    case Handshaking => 65_538
    case OpeningSession => 65_539
    case AwaitingAck(hop, ack) =>
      (if hop.Relay? then 65_540 else 66_055) + (if |ack| < 512 then 512 - |ack| else 0)
    case AwaitingChallenge(hop) => if hop.Relay? then 66_053 else 66_568
    case OpeningStream(hop) => if hop.Relay? then 66_054 else 66_569
    case Connecting(hop) => if hop.Relay? then 66_055 else 66_570
  }

  lemma HearLeavesLess(cfg: Config, s: State, hop: Hop, o: Outcome<Addr>)
    ensures Left(Hear(cfg, s, hop, o).phase) <= if hop.Relay? then 65_539 else 66_055
    ensures !o.Admitted? ==> Left(Hear(cfg, s, hop, o).phase) == 0
  {
  }

  lemma OnAckLeavesLess(cfg: Config, s: State, hop: Hop, ack: Ack)
    ensures Left(OnAck(cfg, s, hop, ack).phase) <= if hop.Relay? then 65_539 else 66_055
  {
    match ack
    case Overlong =>
    case Expired => HearLeavesLess(cfg, s, hop, ParkExpired);
    case Line(line, rest) =>
      if line != [] && !(NO <= line) {
        HearLeavesLess(cfg, s, hop, Meaning(cfg.text(line), cfg.parseAddr));
      } else if line != [] && line != NO {
        HearLeavesLess(cfg, s, hop, Refused(DecodeCategory(line[2..])));
      } else if line != [] && rest.None? {
        HearLeavesLess(cfg, s, hop, Refused(None));
      }
  }

  lemma ReactLeavesLess(cfg: Config, s: State, r: Response)
    requires Fits(s.phase, r) && Unfinished(s.phase)
    ensures Left(React(cfg, s, r).phase) < Left(s.phase)
  {
    match s.phase
    case AwaitingChallenge(hop) =>
      if r.Data? && ReadOpening(r.bytes).Answer? {
        HearLeavesLess(cfg, s, hop, Refused(ReadOpening(r.bytes).category));
      }
    case AwaitingAck(hop, ack) => OnAckLeavesLess(cfg, s, hop, if r.parkClosed then Expired else Line(ack, None));
    case AwaitingTail(hop) => HearLeavesLess(cfg, s, hop, Refused(if r.Failed? then None else TailToken(r.bytes)));
    case _ =>
  }

  lemma StepLeavesLess(cfg: Config, s: State, step: Step)
    requires Enabled(s, step) && Unfinished(s.phase)
    ensures Left(Apply(cfg, s, step).phase) + (if Idle(s, step) then 0 else 1) <= Left(s.phase)
  {
    match step
    case Respond(r) => ReactLeavesLess(cfg, s, r);
    case Read(b, time) =>
      OnAckLeavesLess(cfg, Spend(s, time), s.phase.hop, Line(s.phase.ack, Some([])));
      OnAckLeavesLess(cfg, Spend(s, time), s.phase.hop, Overlong);
    case Record(plaintext, time) => assert plaintext == [] ==> s.phase.buf + plaintext == s.phase.buf;
    case _ =>
  }

  /** The steps of a run that are not idle. */
  function Busy(cfg: Config, steps: seq<Step>): nat {
    if steps == [] then 0
    else
      var before, last := steps[..|steps| - 1], steps[|steps| - 1];
      Busy(cfg, before) + (if Run(cfg, before).Some? && Idle(Run(cfg, before).value, last) then 0 else 1)
  }

  /** Every call ends but for waiting, keepalives and empty records: no run has more than 66570 other
      steps, whatever the brokers and the peer send. */
  lemma {:induction false} RunsAreFinite(cfg: Config, steps: seq<Step>)
    requires Run(cfg, steps).Some?
    ensures Busy(cfg, steps) + Left(Run(cfg, steps).value.phase) <= 66_570
  {
    if steps != [] {
      var before := steps[..|steps| - 1];
      RunsAreFinite(cfg, before);
      var _ := RunKeepsInv(cfg, before);
      StepLeavesLess(cfg, Run(cfg, before).value, steps[|steps| - 1]);
    }
  }

  predicate IsTurn(step: Step) {
    step.Read? || step.Record?
  }

  predicate Within(delta: nat, steps: seq<Step>) {
    forall i | 0 <= i < |steps| && IsTurn(steps[i]) :: steps[i].time <= delta
  }

  /** A turn on a keepalive or an empty record that ends after the deadline. */
  predicate LateIdle(s: State, step: Step) {
    IsTurn(step) && Idle(s, step) && s.clock + step.time > s.deadline
  }

  function LateIdles(cfg: Config, steps: seq<Step>): nat {
    if steps == [] then 0
    else
      var before, last := steps[..|steps| - 1], steps[|steps| - 1];
      LateIdles(cfg, before) + (if Run(cfg, before).Some? && LateIdle(Run(cfg, before).value, last) then 1 else 0)
  }

  /** The time that `n` turns take. */
  function Turns(delta: nat, n: nat): nat {
    if n == 0 then 0 else Turns(delta, n - 1) + delta
  }

  lemma {:induction false} TurnsIsProduct(delta: nat, n: nat)
    ensures Turns(delta, n) == delta * n
  {
    if n > 0 {
      TurnsIsProduct(delta, n - 1);
    }
  }

  lemma {:induction false} MoreTurns(delta: nat, m: nat, n: nat)
    requires m <= n
    ensures Turns(delta, m) <= Turns(delta, n)
    decreases n
  {
    if m < n {
      MoreTurns(delta, m, n - 1);
    }
  }

  predicate Counted(s: State, step: Step) {
    !Idle(s, step) || LateIdle(s, step)
  }

  /** One step adds to the time spent late only by a turn, and that is busy or a late idle one. */
  lemma StepLateness(cfg: Config, s: State, step: Step, delta: nat)
    requires Enabled(s, step) && (IsTurn(step) ==> step.time <= delta)
    ensures Apply(cfg, s, step).late <= s.late + if Counted(s, step) then delta else 0
  {
    StepKeepsTime(cfg, s, step);
  }

  /** Busy steps and late idle turns of a run. */
  function Counts(cfg: Config, steps: seq<Step>): nat {
    Busy(cfg, steps) + LateIdles(cfg, steps)
  }

  lemma CountsStep(cfg: Config, steps: seq<Step>)
    requires steps != [] && Run(cfg, steps).Some?
    ensures var before, last := steps[..|steps| - 1], steps[|steps| - 1];
            Counts(cfg, steps) == Counts(cfg, before) + if Counted(Run(cfg, before).value, last) then 1 else 0
  {
  }

  lemma {:induction false} LatenessIsCounted(cfg: Config, steps: seq<Step>, delta: nat)
    requires Run(cfg, steps).Some? && Within(delta, steps)
    ensures Run(cfg, steps).value.late <= Turns(delta, Counts(cfg, steps))
  {
    if steps != [] {
      var before, last := steps[..|steps| - 1], steps[|steps| - 1];
      var s := Run(cfg, before).value;
      LatenessIsCounted(cfg, before, delta);
      StepLateness(cfg, s, last, delta);
      CountsStep(cfg, steps);
    }
  }

  lemma ClockIsBounded(cfg: Config, steps: seq<Step>)
    requires Run(cfg, steps).Some?
    ensures Run(cfg, steps).value.clock <= TOTAL_BUDGET + Run(cfg, steps).value.late
  {
    var _ := RunKeepsInv(cfg, steps);
  }

  lemma OverrunIsBounded(cfg: Config, steps: seq<Step>, s: State, delta: nat)
    requires Run(cfg, steps) == Some(s) && Within(delta, steps)
    ensures s.clock <= TOTAL_BUDGET + Turns(delta, 66_570 + LateIdles(cfg, steps))
  {
    LatenessIsCounted(cfg, steps, delta);
    RunsAreFinite(cfg, steps);
    MoreTurns(delta, Counts(cfg, steps), 66_570 + LateIdles(cfg, steps));
    ClockIsBounded(cfg, steps);
  }

  /** With turns of at most `delta`, a run is over the sum of budgets by at most 66570 turns, but for the
      keepalives and empty records that were ready after a deadline. */
  lemma OnlyIdleTurnsPassEveryBound(cfg: Config, steps: seq<Step>, s: State, delta: nat)
    requires Run(cfg, steps) == Some(s) && Within(delta, steps)
    ensures s.clock <= TOTAL_BUDGET + delta * (66_570 + LateIdles(cfg, steps))
  {
    OverrunIsBounded(cfg, steps, s, delta);
    TurnsIsProduct(delta, 66_570 + LateIdles(cfg, steps));
  }

  // ---- What a reply took ----

  /** A reply is returned only by a run that wrote the whole script: both hops admitted, the first hop's
      triple verified, the handshake under its key and the call on the session stream. */
  lemma AReplyTookEveryStep(cfg: Config, steps: seq<Step>, body: Bytes) returns (n: Notes)
    requires Run(cfg, steps).Some? && Run(cfg, steps).value.phase == Done(Ok(body))
    ensures var s := Run(cfg, steps).value;
            && s.log == Script(cfg, n, s.peerKey)
            && Verified(cfg, n.ack1) && n.ack1.peerNoiseKey == Some(s.peerKey) && n.ack2.Admitted?
  {
    var before, last := steps[..|steps| - 1], steps[|steps| - 1];
    n := RunKeepsInv(cfg, before);
    OnlyACallReplies(cfg, Run(cfg, before).value, last, body);
  }

  lemma OnlyACallReplies(cfg: Config, s: State, step: Step, body: Bytes)
    requires Enabled(s, step) && Apply(cfg, s, step).phase == Done(Ok(body))
    ensures s.phase.Calling? && Apply(cfg, s, step).log == s.log && Apply(cfg, s, step).peerKey == s.peerKey
  {
  }

  /** The two hops' joins differ in the marker alone, and the edge can tell the preamble from a length:
      no request this client sends is long enough for its length to start with the magic byte. */
  lemma HopsPresentTheSameRequest(broker: Addr, relay: Addr, grant: Codecs.SignedClaims, verify: SignedObjects.Verifier,
                                  text: Bytes -> string, parseAddr: string -> Option<Addr>)
    ensures var cfg := Configure(broker, relay, grant, verify, text, parseAddr);
            && |cfg.request| == 149 && cfg.channel == grant.claims.channel
            && JoinBytes(cfg, Rendezvous) == [0xFF, 1] + (Be16(149) + cfg.request)
            && JoinBytes(cfg, Relay) == [0xFF, 2] + (Be16(149) + cfg.request)
            && Be16(149)[0] != PHASE_PREAMBLE_MAGIC
  {
  }
}

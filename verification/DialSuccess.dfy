/** Runs of the dial that succeed: against an honest broker and peer the call goes through, whatever the
    ack's line, and however the reply is cut into records. */
module DialSuccess {
  import opened Wrappers
  import opened Bytes
  import opened ChannelWire
  import opened AckReader
  import opened Dial
  import opened DialOutcomes
  import AppFrames

  // ---- Reading a stream is a run ----

  /** The steps of reading a stream promptly, to the ack's end or the stream's. */
  function ReadSteps(cfg: Config, s: State, stream: Bytes, parkClosed: bool): seq<Step>
    requires s.phase.AwaitingAck?
    decreases |stream|
  {
    if stream == [] then [Respond(Closed(parkClosed))]
    else
      var t := Apply(cfg, s, Read(stream[0], 0));
      [Read(stream[0], 0)] + if t.phase.AwaitingAck? then ReadSteps(cfg, t, stream[1..], parkClosed) else []
  }

  lemma {:induction false} ReadingIsARun(cfg: Config, steps: seq<Step>, s: State, stream: Bytes, parkClosed: bool)
    requires Run(cfg, steps) == Some(s) && s.phase.AwaitingAck?
    ensures Run(cfg, steps + ReadSteps(cfg, s, stream, parkClosed)) == Some(ReadToEnd(cfg, s, stream, parkClosed))
    decreases |stream|
  {
    if stream == [] {
      RunStep(cfg, steps, Respond(Closed(parkClosed)), s);
    } else {
      var step := Read(stream[0], 0);
      var t := Apply(cfg, s, step);
      RunStep(cfg, steps, step, s);
      if t.phase.AwaitingAck? {
        ReadingIsARun(cfg, steps + [step], t, stream[1..], parkClosed);
        Assoc(steps, [step], ReadSteps(cfg, t, stream[1..], parkClosed));
      } else {
        assert [step] + [] == [step];
      }
    }
  }

  // ---- The records of a reply ----

  /** From a buffer without a whole frame, any records that complete one lead to its body. */
  lemma {:induction false} RecordsBringTheBody(cfg: Config, steps: seq<Step>, s: State, buf: Bytes, pieces: seq<Bytes>, body: Bytes, used: nat)
    returns (more: seq<Step>)
    requires Run(cfg, steps) == Some(s) && s.phase == Calling(buf) && AppFrames.TakeFrame(buf).None?
    requires AppFrames.TakeFrame(buf + Flat(pieces)) == Some((body, used))
    ensures Run(cfg, more).Some? && Run(cfg, more).value.phase == Done(Ok(body))
    decreases |pieces|
  {
    more := steps;
    assert pieces == [] ==> buf + Flat(pieces) == buf;
    if pieces != [] {
      var piece, rest := pieces[0], pieces[1..];
      var step := Record(piece, 0);
      RunStep(cfg, steps, step, s);
      Assoc(buf, piece, Flat(rest));
      if AppFrames.TakeFrame(buf + piece).Some? {
        AppFrames.TakeFrameIsStable(buf + piece, Flat(rest));
        more := steps + [step];
      } else {
        more := RecordsBringTheBody(cfg, steps + [step], Apply(cfg, s, step), buf + piece, rest, body, used);
      }
    }
  }

  // ---- An honest broker ----

  /** A line that the client reads as an `OK` line with a triple that verifies for the channel. */
  ghost predicate IsHonest(cfg: Config, line: Bytes, triple: Triple) {
    && cfg.attested(cfg.channel, triple.holder, triple.noise, triple.attestation)
    && exists ack, words, endpoint :: Reads(cfg, line, ack) && IsOkLine(ack, words, endpoint, Some(triple))
  }

  /** From the start of a hop to the wait for its ack. */
  lemma HopReachesAck(cfg: Config, steps: seq<Step>, s: State, hop: Hop) returns (more: seq<Step>, t: State)
    requires Run(cfg, steps) == Some(s) && s.phase == Connecting(hop)
    ensures Run(cfg, more) == Some(t) && t.phase == AwaitingAck(hop, []) && t.peerKey == s.peerKey && t.clock == s.clock
  {
    var challenge: Bytes := seq(32, _ => 0);
    assert ReadOpening(challenge) == Challenge(challenge);
    RunStep(cfg, steps, Respond(Connected), s);
    var s1 := Apply(cfg, s, Respond(Connected));
    RunStep(cfg, steps + [Respond(Connected)], Respond(StreamOpened), s1);
    var s2 := Apply(cfg, s1, Respond(StreamOpened));
    more := steps + [Respond(Connected)] + [Respond(StreamOpened)];
    RunStep(cfg, more, Respond(Data(challenge)), s2);
    t := Apply(cfg, s2, Respond(Data(challenge)));
    more := more + [Respond(Data(challenge))];
  }

  /** The honest line, behind any keepalives, takes the first hop to the relay under the printed key. */
  lemma HonestFirstHop(cfg: Config, ticks: nat, line: Bytes, triple: Triple) returns (more: seq<Step>, t: State)
    requires IsHonest(cfg, line, triple)
    ensures Run(cfg, more) == Some(t) && t.phase == Connecting(Relay) && t.peerKey == triple.noise && t.clock == 0
  {
    var steps, s := HopReachesAck(cfg, [], Initial(cfg), Rendezvous);
    var stream := Zeros(ticks) + (line + Ended(None));
    var ack, words, endpoint :| Reads(cfg, line, ack) && IsOkLine(ack, words, endpoint, Some(triple));
    FirstAdmissionIsChecked(cfg, s, ticks, line, None, ack, words, endpoint, Some(triple));
    ReadingIsARun(cfg, steps, s, stream, false);
    ReadingTakesNoTime(cfg, s, stream, false);
    more, t := steps + ReadSteps(cfg, s, stream, false), ReadToEnd(cfg, s, stream, false);
  }

  lemma HonestSecondHop(cfg: Config, steps: seq<Step>, s: State, ticks: nat, line: Bytes, triple: Triple)
    returns (more: seq<Step>, t: State)
    requires Run(cfg, steps) == Some(s) && s.phase == Connecting(Relay) && IsHonest(cfg, line, triple)
    ensures Run(cfg, more) == Some(t) && t.phase == OpeningSession && t.peerKey == s.peerKey && t.clock == s.clock
  {
    var before, u := HopReachesAck(cfg, steps, s, Relay);
    var stream := Zeros(ticks) + (line + Ended(None));
    var ack, words, endpoint :| Reads(cfg, line, ack) && IsOkLine(ack, words, endpoint, Some(triple));
    SecondAdmissionKeepsTheKey(cfg, u, ticks, line, None, ack, words, endpoint, Some(triple));
    ReadingIsARun(cfg, before, u, stream, false);
    ReadingTakesNoTime(cfg, u, stream, false);
    more, t := before + ReadSteps(cfg, u, stream, false), ReadToEnd(cfg, u, stream, false);
  }

  lemma {:induction false} ReadingTakesNoTime(cfg: Config, s: State, stream: Bytes, parkClosed: bool)
    requires s.phase.AwaitingAck?
    ensures ReadToEnd(cfg, s, stream, parkClosed).clock == s.clock
    decreases |stream|
  {
    if stream == [] {
      StepKeepsTime(cfg, s, Respond(Closed(parkClosed)));
    } else {
      var t := Apply(cfg, s, Read(stream[0], 0));
      StepKeepsTime(cfg, s, Read(stream[0], 0));
      if t.phase.AwaitingAck? {
        ReadingTakesNoTime(cfg, t, stream[1..], parkClosed);
      }
    }
  }

  /** Up to the wait for the reply. The relay's triple need not be the first one. */
  lemma HonestCallIsSent(cfg: Config, ticks: nat, line: Bytes, triple: Triple, line2: Bytes, triple2: Triple)
    returns (steps: seq<Step>, s: State)
    requires IsHonest(cfg, line, triple) && IsHonest(cfg, line2, triple2)
    ensures Run(cfg, steps) == Some(s) && s.phase == Calling([]) && s.peerKey == triple.noise && s.clock == 0
  {
    var first, u := HonestFirstHop(cfg, ticks, line, triple);
    var second, v := HonestSecondHop(cfg, first, u, ticks, line2, triple2);
    RunStep(cfg, second, Respond(StreamOpened), v);
    var w := Apply(cfg, v, Respond(StreamOpened));
    var _ := RunKeepsInv(cfg, second + [Respond(StreamOpened)]);
    RunStep(cfg, second + [Respond(StreamOpened)], Respond(HandshakeDone), w);
    steps := second + [Respond(StreamOpened)] + [Respond(HandshakeDone)];
    s := Apply(cfg, w, Respond(HandshakeDone));
  }

  /** For every honest ack and every body up to 65535 bytes, its frame cut into any records, with any bytes
      after it, some run returns exactly that body. */
  lemma HonestCallSucceeds(cfg: Config, ticks: nat, line: Bytes, triple: Triple, line2: Bytes, triple2: Triple,
                           body: Bytes, pieces: seq<Bytes>, extra: Bytes) returns (steps: seq<Step>)
    requires IsHonest(cfg, line, triple) && IsHonest(cfg, line2, triple2)
    requires |body| <= AppFrames.MAX_MESSAGE_BYTES && Flat(pieces) == AppFrames.Frame(body) + extra
    ensures Run(cfg, steps).Some? && Run(cfg, steps).value.phase == Done(Ok(body))
  {
    var sent, s := HonestCallIsSent(cfg, ticks, line, triple, line2, triple2);
    AppFrames.TakeFrameOfFrame(body, extra);
    assert [] + Flat(pieces) == AppFrames.Frame(body) + extra;
    steps := RecordsBringTheBody(cfg, sent, s, [], pieces, body, 2 + |body|);
  }

  /** And a peer that keeps an empty record ready holds such a call for any length of time past 135 s. */
  lemma HonestCallCanBeHeld(cfg: Config, ticks: nat, line: Bytes, triple: Triple, line2: Bytes, triple2: Triple, extra: nat)
    returns (steps: seq<Step>)
    requires IsHonest(cfg, line, triple) && IsHonest(cfg, line2, triple2)
    ensures Run(cfg, steps).Some? && Run(cfg, steps).value.phase == Calling([])
    ensures Run(cfg, steps).value.clock == TOTAL_BUDGET + extra
  {
    var sent, s := HonestCallIsSent(cfg, ticks, line, triple, line2, triple2);
    steps := EmptyRecordsHoldTheCall(cfg, sent, TOTAL_BUDGET + extra);
  }
}

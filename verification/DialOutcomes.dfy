/** What a broker's answers do to the call: the wire formats and the dial machine together. */
module DialOutcomes {
  import opened Wrappers
  import opened Bytes
  import opened ChannelWire
  import opened AckReader
  import opened Dial

  // ---- The machine's loop is the byte-wise reader ----

  /** Reading a stream byte by byte, promptly, until the ack is complete or the stream ends. */
  function ReadToEnd(cfg: Config, s: State, stream: Bytes, parkClosed: bool): State
    requires s.phase.AwaitingAck?
    decreases |stream|
  {
    if stream == [] then React(cfg, s, Closed(parkClosed))
    else
      var t := Apply(cfg, s, Read(stream[0], 0));
      if t.phase.AwaitingAck? then ReadToEnd(cfg, t, stream[1..], parkClosed) else t
  }

  /** What an ack leads to does not depend on how much of it had been read. */
  lemma OnAckOverwrites(cfg: Config, s: State, phase: Phase, hop: Hop, ack: Ack)
    ensures OnAck(cfg, s.(phase := phase), hop, ack) == OnAck(cfg, s, hop, ack)
  {
  }

  lemma OnAckIgnoresTheRest(cfg: Config, s: State, hop: Hop, line: Bytes, rest: Bytes, more: Bytes)
    ensures OnAck(cfg, s, hop, Line(line, Some(rest))) == OnAck(cfg, s, hop, Line(line, Some(more)))
  {
  }

  /** An ack once read is never still awaited. */
  lemma OnAckEnds(cfg: Config, s: State, hop: Hop, ack: Ack)
    ensures !OnAck(cfg, s, hop, ack).phase.AwaitingAck?
  {
  }

  lemma {:induction false} ReadingIsReadOn(cfg: Config, s: State, hop: Hop, ack: Bytes, stream: Bytes, parkClosed: bool)
    requires s.phase == AwaitingAck(hop, ack)
    ensures ReadToEnd(cfg, s, stream, parkClosed) == OnAck(cfg, s, hop, ReadOn(ack, stream, parkClosed))
    decreases |stream|
  {
    if stream != [] {
      var b, rest := stream[0], stream[1..];
      assert Spend(s, 0) == s;
      if b == NEWLINE {
        OnAckIgnoresTheRest(cfg, s, hop, ack, [], rest);
        OnAckEnds(cfg, s, hop, Line(ack, Some([])));
      } else if b == 0 && ack == [] {
        ReadingIsReadOn(cfg, s, hop, ack, rest, parkClosed);
      } else if |ack| + 1 >= CHANNEL_ACK_MAX_BYTES {
        OnAckEnds(cfg, s, hop, Overlong);
      } else {
        var t := s.(phase := AwaitingAck(hop, ack + [b]));
        ReadingIsReadOn(cfg, t, hop, ack + [b], rest, parkClosed);
        OnAckOverwrites(cfg, s, t.phase, hop, ReadOn(ack + [b], rest, parkClosed));
      }
    }
  }

  /** So the machine takes from a stream what the reader makes of it: its first line. */
  lemma ReadingIsFirstLine(cfg: Config, s: State, hop: Hop, stream: Bytes, parkClosed: bool)
    requires s.phase == AwaitingAck(hop, [])
    ensures ReadToEnd(cfg, s, stream, parkClosed) == OnAck(cfg, s, hop, FirstLine(stream, parkClosed))
  {
    ReadingIsReadOn(cfg, s, hop, [], stream, parkClosed);
    ReadOnIsFirstLine(stream, parkClosed);
  }

  // ---- Refusals and admissions ----

  /** A refusal sent in place of the challenge ends the call with its category. */
  lemma RefusalAtTheDoor(cfg: Config, s: State, hop: Hop, category: Bytes)
    requires s.phase == AwaitingChallenge(hop) && IsToken(category)
    ensures React(cfg, s, Data(EncodeRefusal(category))).phase == Done(Err(RefusedBy(Some(category))))
  {
    RefusalBeforeChallenge(category);
  }

  /** A refusal after the signature, behind any number of keepalives, ends the call with its category:
      at once, or, when its length byte reads as a newline, after the rest of it is read. */
  lemma RefusalReachesTheCaller(cfg: Config, s: State, hop: Hop, ticks: nat, category: Bytes)
    requires s.phase == AwaitingAck(hop, []) && IsToken(category)
    ensures var t := ReadToEnd(cfg, s, Zeros(ticks) + EncodeRefusal(category), false);
            if |category| != 10 then t.phase == Done(Err(RefusedBy(Some(category))))
            else
              && t.phase == AwaitingTail(hop) && t.log == s.log
              && React(cfg, t, Data(category)).phase == Done(Err(RefusedBy(Some(category))))
  {
    ReadingIsFirstLine(cfg, s, hop, Zeros(ticks) + EncodeRefusal(category), false);
    RefusalFirstLine(ticks, category);
    RefusalRoundTrip(category);
  }

  /** The client reads `line` as the text `ack`. */
  predicate Reads(cfg: Config, line: Bytes, ack: string) {
    IsAckLine(line) && !(NO <= line) && cfg.text(line) == ack
  }

  lemma LineIsHeard(cfg: Config, s: State, hop: Hop, ticks: nat, line: Bytes, after: Option<Bytes>, ack: string)
    requires s.phase == AwaitingAck(hop, []) && Reads(cfg, line, ack)
    ensures ReadToEnd(cfg, s, Zeros(ticks) + (line + Ended(after)), false)
            == Hear(cfg, s, hop, Meaning(ack, cfg.parseAddr))
  {
    ReadingIsFirstLine(cfg, s, hop, Zeros(ticks) + (line + Ended(after)), false);
    LineIsFirst(ticks, line, after);
  }

  /** An `OK` line at the first hop leads on to the relay, pinned to the printed key, exactly when it
      carries a triple whose attestation verifies for the channel; otherwise the call ends. */
  lemma FirstAdmissionIsChecked(cfg: Config, s: State, ticks: nat, line: Bytes, after: Option<Bytes>, ack: string,
                                words: seq<string>, endpoint: string, triple: Option<Triple>)
    requires s.phase == AwaitingAck(Rendezvous, []) && Reads(cfg, line, ack) && IsOkLine(ack, words, endpoint, triple)
    ensures var t := ReadToEnd(cfg, s, Zeros(ticks) + (line + Ended(after)), false);
            if triple.Some? && cfg.attested(cfg.channel, triple.value.holder, triple.value.noise, triple.value.attestation)
            then t.phase == Connecting(Relay) && t.peerKey == triple.value.noise
            else t.phase == Done(Err(NoVerifiedPeer)) && t.log == s.log
  {
    LineIsHeard(cfg, s, Rendezvous, ticks, line, after, ack);
    OkLineIsRecovered(ack, words, endpoint, triple, cfg.parseAddr);
  }

  /** At the relay hop an `OK` line leads on to the session whatever triple it carries, or none, and
      leaves the pinned key alone. */
  lemma SecondAdmissionKeepsTheKey(cfg: Config, s: State, ticks: nat, line: Bytes, after: Option<Bytes>, ack: string,
                                   words: seq<string>, endpoint: string, triple: Option<Triple>)
    requires s.phase == AwaitingAck(Relay, []) && Reads(cfg, line, ack) && IsOkLine(ack, words, endpoint, triple)
    ensures var t := ReadToEnd(cfg, s, Zeros(ticks) + (line + Ended(after)), false);
            t.phase == OpeningSession && t.peerKey == s.peerKey
  {
    LineIsHeard(cfg, s, Relay, ticks, line, after, ack);
    OkLineIsRecovered(ack, words, endpoint, triple, cfg.parseAddr);
  }

  /** Silence after the signature is reported as a dropped leg, under the hop's own name. */
  lemma SilentLegIsDropped(cfg: Config, s: State, hop: Hop, ticks: nat)
    requires s.phase == AwaitingAck(hop, [])
    ensures ReadToEnd(cfg, s, Zeros(ticks), false).phase == Done(Err(DroppedLegOn(hop)))
  {
    ReadingIsFirstLine(cfg, s, hop, Zeros(ticks), false);
    OnlyZeros(ticks);
  }
}

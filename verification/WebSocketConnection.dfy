/** The receiving side of ws-byte-stream.js: `WsConn` turns socket chunks into messages and hands them
    to `nextMessage` callers. */
module WebSocketConnection {
  import opened Wrappers
  import opened Bytes
  import opened WebSocketFrames

  // ---- The connection as a state machine ----

  /** What the promise of the `ticket`-th `nextMessage` call was resolved to. */
  datatype Answer = Answer(ticket: nat, message: Option<Bytes>)

  /** `asked` counts the `nextMessage` calls; `waiters` holds the tickets of those still pending. */
  datatype Conn = Conn(recvBuf: Bytes, messages: seq<Bytes>, waiters: seq<nat>, closed: bool,
                       asked: nat, answers: seq<Answer>)

  datatype Event = Data(chunk: Bytes) | End | Next

  /** Pairs messages with waiters in order; once closed, the remaining waiters get null. */
  function Woken(s: Conn): Conn
    decreases |s.waiters|
  {
    if s.waiters == [] then s
    else if s.messages != [] then
      Woken(s.(messages := s.messages[1..], waiters := s.waiters[1..],
               answers := s.answers + [Answer(s.waiters[0], Some(s.messages[0]))]))
    else if s.closed then
      Woken(s.(waiters := s.waiters[1..], answers := s.answers + [Answer(s.waiters[0], None)]))
    else s
  }

  function Received(s: Conn, d: Drained): Conn {
    s.(recvBuf := d.rest, messages := s.messages + d.messages, closed := s.closed || d.sawClose)
  }

  /** The connection after draining its own buffer. */
  ghost function Drains(s: Conn): Conn {
    Received(s, Drain(FrameReader(), s.recvBuf))
  }

  function Step(reader: Reader, s: Conn, e: Event): Conn {
    match e
    case Data(chunk) => Woken(Received(s, Drain(reader, s.recvBuf + chunk)))
    case End => Woken(s.(closed := true))
    case Next =>
      var t := s.(asked := s.asked + 1);
      if s.messages != [] then
        t.(messages := s.messages[1..], answers := s.answers + [Answer(s.asked, Some(s.messages[0]))])
      else if s.closed then t.(answers := s.answers + [Answer(s.asked, None)])
      else t.(waiters := s.waiters + [s.asked])
  }

  function Run(reader: Reader, s: Conn, events: seq<Event>): Conn
    decreases |events|
  {
    if events == [] then s else Run(reader, Step(reader, s, events[0]), events[1..])
  }

  /** A connection opened with the bytes that followed the handshake. */
  function Opened(reader: Reader, initial: Bytes): Conn {
    Step(reader, Conn([], [], [], false, 0, []), Data(initial))
  }

  function Chunk(e: Event): Bytes {
    match e case Data(chunk) => chunk case _ => []
  }

  function Chunks(events: seq<Event>): Bytes {
    if events == [] then [] else Chunk(events[0]) + Chunks(events[1..])
  }

  lemma ChunksSplit(stream: Bytes, events: seq<Event>)
    requires events != []
    ensures stream + Chunks(events) == stream + Chunk(events[0]) + Chunks(events[1..])
  {
  }

  // ---- The class ----

  class WsConn {
    var recvBuf: Bytes
    var messages: seq<Bytes>
    var waiters: seq<nat>
    var closed: bool
    var asked: nat
    var answers: seq<Answer>

    function State(): Conn
      reads this
    {
      Conn(recvBuf, messages, waiters, closed, asked, answers)
    }

    constructor (initialBuf: Bytes)
      ensures State() == Opened(FrameReader(), initialBuf)
    {
      recvBuf, messages, waiters, closed, asked, answers := initialBuf, [], [], false, 0, [];
      new;
      assert [] + initialBuf == initialBuf;
      DrainFrames();
    }

    method OnData(chunk: Bytes)
      modifies this
      ensures State() == Step(FrameReader(), old(State()), Data(chunk))
    {
      recvBuf := recvBuf + chunk;
      DrainFrames();
    }

    /** The handler of both `close` and `error`. */
    method OnEnd()
      modifies this
      ensures State() == Step(FrameReader(), old(State()), End)
    {
      closed := true;
      Wake();
    }

    /** What the socket reports: a chunk, or its end. */
    method OnEvent(e: Event)
      requires !e.Next?
      modifies this
      ensures State() == Step(FrameReader(), old(State()), e)
    {
      match e {
        case Data(chunk) => OnData(chunk);
        case End => OnEnd();
      }
    }

    method DrainFrames()
      modifies this
      ensures State() == Woken(Drains(old(State())))
    {
      var more := true;
      while more
        invariant more ==> Drains(State()) == Drains(old(State()))
        invariant !more ==> State() == Drains(old(State()))
        decreases more, |recvBuf|
      {
        more := DrainFrame();
      }
      Wake();
    }

    /** One turn of the draining loop: false when the loop stops. */
    method DrainFrame() returns (more: bool)
      modifies this
      ensures more ==> Drains(State()) == Drains(old(State())) && |recvBuf| < |old(recvBuf)|
      ensures !more ==> State() == Drains(old(State()))
    {
      DrainTurn(FrameReader(), State());
      var frame := TryParseFrame();
      if frame.None? {
        return false;
      }
      if frame.value.opcode == 8 {
        closed := true;
        return false;
      }
      if frame.value.opcode == 2 || frame.value.opcode == 1 {
        messages := messages + [frame.value.payload];
      } else {
        assert messages + [] == messages;
      }
      more := true;
    }

    method Wake()
      modifies this`messages, this`waiters, this`answers
      ensures State() == Woken(old(State()))
    {
      while messages != [] && waiters != []
        invariant Woken(State()) == Woken(old(State()))
        decreases |waiters|
      {
        answers := answers + [Answer(waiters[0], Some(messages[0]))];
        messages, waiters := messages[1..], waiters[1..];
      }
      if closed {
        while waiters != []
          invariant waiters == [] || messages == []
          invariant Woken(State()) == Woken(old(State()))
          decreases |waiters|
        {
          answers := answers + [Answer(waiters[0], None)];
          waiters := waiters[1..];
        }
      }
    }

    method TryParseFrame() returns (frame: Option<Parsed>)
      modifies this`recvBuf
      ensures frame == Parse(old(recvBuf))
      ensures recvBuf == if frame.Some? then old(recvBuf)[frame.value.used..] else old(recvBuf)
    {
      var buf := recvBuf;
      if |buf| < 2 { return None; }
      var opcode, masked, len, offset := buf[0] % 16, buf[1] >= 128, buf[1] % 128, 2;
      if len == 126 {
        if |buf| < 4 { return None; }
        len, offset := FromBe(buf[2..4]), 4;
      } else if len == 127 {
        if |buf| < 10 { return None; }
        len, offset := FromBe(buf[2..10]), 10;
      }
      assert ReadLength(buf) == Some((len, offset));
      var maskKey: MaskKey := [0, 0, 0, 0];
      if masked {
        if |buf| < offset + 4 { return None; }
        maskKey := buf[offset..offset + 4];
        offset := offset + 4;
      }
      if |buf| < offset + len { return None; }
      var payload := buf[offset..offset + len];
      if masked {
        payload := Unmask(maskKey, payload);
      }
      recvBuf := buf[offset + len..];
      frame := Some(Parsed(opcode, payload, offset + len));
    }

    method NextMessage() returns (ticket: nat)
      modifies this
      ensures State() == Step(FrameReader(), old(State()), Next) && ticket == old(asked)
    {
      ticket := asked;
      asked := asked + 1;
      if messages != [] {
        answers := answers + [Answer(ticket, Some(messages[0]))];
        messages := messages[1..];
      } else if closed {
        answers := answers + [Answer(ticket, None)];
      } else {
        waiters := waiters + [ticket];
      }
    }
  }

  method Unmask(maskKey: MaskKey, data: Bytes) returns (payload: Bytes)
    ensures payload == Masked(maskKey, data) && IsMasked(payload, maskKey, data)
  {
    MaskedIsBitwise(maskKey, data);
    payload := data;
    for i := 0 to |data|
      invariant |payload| == |data|
      invariant payload[..i] == Masked(maskKey, data)[..i] && payload[i..] == data[i..]
    {
      assert payload[i] == payload[i..][0] == data[i];
      payload := payload[i := Xor(payload[i], maskKey[i % 4])];
    }
  }

  /** One turn of the draining loop leaves the outcome of the whole loop as it was. */
  lemma DrainTurn(reader: Reader, s: Conn)
    ensures var goal := Received(s, Drain(reader, s.recvBuf));
            match reader(s.recvBuf)
            case None => goal == s
            case Some(p) =>
              var rest := s.recvBuf[p.used..];
              if p.opcode == 8 then goal == s.(recvBuf := rest, closed := true)
              else goal == Received(s.(recvBuf := rest, messages := s.messages + Message(p)), Drain(reader, rest))
  {
    assert s.messages + [] == s.messages;
    if reader(s.recvBuf).Some? && reader(s.recvBuf).value.opcode != 8 {
      var p := reader(s.recvBuf).value;
      var later := Drain(reader, s.recvBuf[p.used..]).messages;
      assert (s.messages + Message(p)) + later == s.messages + (Message(p) + later);
    }
  }

  // ---- What every run keeps ----

  function Drop<T>(xs: seq<T>, k: nat): seq<T> {
    if k <= |xs| then xs[k..] else []
  }

  function Nth(xs: seq<Bytes>, i: nat): Option<Bytes> {
    if i < |xs| then Some(xs[i]) else None
  }

  /** `nextMessage` calls are answered in order, the i-th with the i-th message, or with null past the
      last one and only once closed; nothing is lost or duplicated. */
  ghost predicate Queue(s: Conn, sent: seq<Bytes>) {
    && |s.answers| + |s.waiters| == s.asked
    && (forall i | 0 <= i < |s.answers| :: s.answers[i] == Answer(i, Nth(sent, i)))
    && (forall j | 0 <= j < |s.waiters| :: s.waiters[j] == |s.answers| + j)
    && s.messages == Drop(sent, |s.answers|)
    && (|s.answers| > |sent| ==> s.closed)
  }

  ghost predicate Accounts(s: Conn, d: Drained) {
    s.recvBuf == d.rest && (d.sawClose ==> s.closed) && Queue(s, d.messages)
  }

  /** Between steps nobody waits while a message is there or the connection is closed. */
  ghost predicate Settled(s: Conn) {
    s.waiters != [] ==> s.messages == [] && !s.closed
  }

  lemma {:induction false} WakingSettles(s: Conn, sent: seq<Bytes>)
    requires Queue(s, sent)
    ensures Queue(Woken(s), sent) && Settled(Woken(s))
    ensures Woken(s).closed == s.closed && Woken(s).recvBuf == s.recvBuf
    decreases |s.waiters|
  {
    if s.waiters != [] {
      if s.messages != [] {
        var t := s.(messages := s.messages[1..], waiters := s.waiters[1..],
                    answers := s.answers + [Answer(s.waiters[0], Some(s.messages[0]))]);
        WakingSettles(t, sent);
      } else if s.closed {
        var t := s.(waiters := s.waiters[1..], answers := s.answers + [Answer(s.waiters[0], None)]);
        WakingSettles(t, sent);
      }
    }
  }

  lemma QueueExtends(s: Conn, sent: seq<Bytes>, d: Drained)
    requires Queue(s, sent) && !s.closed
    ensures Queue(Received(s, d), sent + d.messages)
  {
    assert Drop(sent + d.messages, |s.answers|) == s.messages + d.messages;
  }

  lemma DataAccounts(reader: Reader, s: Conn, stream: Bytes, chunk: Bytes)
    requires Accounts(s, Drain(reader, stream)) && !s.closed
    ensures Accounts(Received(s, Drain(reader, s.recvBuf + chunk)), Drain(reader, stream + chunk))
  {
    DrainInInstalments(reader, stream, chunk);
    QueueExtends(s, Drain(reader, stream).messages, Drain(reader, s.recvBuf + chunk));
  }

  /** A call answered at once. */
  lemma AnswerNext(s: Conn, sent: seq<Bytes>)
    requires Queue(s, sent) && s.waiters == [] && (s.messages == [] ==> s.closed)
    ensures Queue(s.(asked := s.asked + 1, messages := Drop(sent, |s.answers| + 1),
                     answers := s.answers + [Answer(s.asked, Nth(sent, |s.answers|))]), sent)
  {
  }

  /** A call that waits. */
  lemma WaitNext(s: Conn, sent: seq<Bytes>)
    requires Queue(s, sent) && !s.closed
    ensures Queue(s.(asked := s.asked + 1, waiters := s.waiters + [s.asked]), sent)
  {
  }

  lemma NextAccounts(s: Conn, sent: seq<Bytes>, reader: Reader)
    requires Queue(s, sent) && Settled(s)
    ensures Queue(Step(reader, s, Next), sent) && Settled(Step(reader, s, Next))
  {
    if s.messages != [] {
      assert s.messages[0] == sent[|s.answers|] && s.messages[1..] == Drop(sent, |s.answers| + 1);
      AnswerNext(s, sent);
    } else if s.closed {
      AnswerNext(s, sent);
      assert Drop(sent, |s.answers| + 1) == [];
    } else {
      WaitNext(s, sent);
    }
  }

  lemma StepAccounts(reader: Reader, s: Conn, e: Event, stream: Bytes)
    requires Accounts(s, Drain(reader, stream)) && Settled(s) && (e.Data? ==> !s.closed)
    ensures Accounts(Step(reader, s, e), Drain(reader, stream + Chunk(e))) && Settled(Step(reader, s, e))
  {
    match e
    case Data(chunk) =>
      DataAccounts(reader, s, stream, chunk);
      WakingSettles(Received(s, Drain(reader, s.recvBuf + chunk)), Drain(reader, stream + chunk).messages);
    case End =>
      assert stream + [] == stream;
      WakingSettles(s.(closed := true), Drain(reader, stream).messages);
    case Next =>
      assert stream + [] == stream;
      NextAccounts(s, Drain(reader, stream).messages, reader);
  }

  /** No data arrives on a connection that is closed. */
  predicate Orderly(reader: Reader, s: Conn, events: seq<Event>)
    decreases |events|
  {
    events != [] ==> (events[0].Data? ==> !s.closed) && Orderly(reader, Step(reader, s, events[0]), events[1..])
  }

  lemma {:induction false} RunAccounts(reader: Reader, s: Conn, events: seq<Event>, stream: Bytes)
    requires Accounts(s, Drain(reader, stream)) && Settled(s) && Orderly(reader, s, events)
    ensures Accounts(Run(reader, s, events), Drain(reader, stream + Chunks(events))) && Settled(Run(reader, s, events))
    decreases |events|
  {
    if events == [] {
      assert stream + [] == stream;
    } else {
      var e, rest := events[0], events[1..];
      ChunksSplit(stream, events);
      StepAccounts(reader, s, e, stream);
      RunAccounts(reader, Step(reader, s, e), rest, stream + Chunk(e));
    }
  }

  /** Whatever the chunks and however `nextMessage` calls fall between them, the connection behaves as
      if all bytes had arrived at once. */
  lemma ChunkingIsInvisible(reader: Reader, initial: Bytes, events: seq<Event>)
    requires Orderly(reader, Opened(reader, initial), events)
    ensures var s := Run(reader, Opened(reader, initial), events);
            Accounts(s, Drain(reader, initial + Chunks(events))) && Settled(s)
  {
    var s := Conn([], [], [], false, 0, []);
    StepAccounts(reader, s, Data(initial), []);
    assert [] + initial == initial;
    RunAccounts(reader, Opened(reader, initial), events, initial);
  }

  // ---- Delivery of a wire of frames ----

  lemma {:induction false} CloseIsSeenAgain(reader: Reader, a: Bytes, b: Bytes)
    requires Drain(reader, a).sawClose
    ensures Drain(reader, a + b).sawClose
    decreases |a|
  {
    var p := reader(a).value;
    assert reader(a + b) == reader(a);
    if p.opcode != 8 {
      assert (a + b)[p.used..] == a[p.used..] + b;
      DrainTakes(reader, a, p);
      DrainTakes(reader, a + b, p);
      CloseIsSeenAgain(reader, a[p.used..], b);
    }
  }

  /** A prefix of a stream without a close frame shows no close frame and no other messages. */
  lemma PrefixDelivers(reader: Reader, seen: Bytes, unread: Bytes)
    requires !Drain(reader, seen + unread).sawClose
    ensures !Drain(reader, seen).sawClose
    ensures Drain(reader, seen).messages <= Drain(reader, seen + unread).messages
  {
    if Drain(reader, seen).sawClose {
      CloseIsSeenAgain(reader, seen, unread);
    }
    DrainInInstalments(reader, seen, unread);
  }

  /** The socket reports its end after its last chunk. */
  predicate EndsLast(events: seq<Event>) {
    forall i, j | 0 <= i < j < |events| && events[i].End? :: !events[j].Data?
  }

  predicate NoData(events: seq<Event>) {
    forall i | 0 <= i < |events| :: !events[i].Data?
  }

  lemma EndsLastInRest(events: seq<Event>)
    requires events != [] && EndsLast(events)
    ensures EndsLast(events[1..]) && (NoData(events) || events[0].End? ==> NoData(events[1..]))
    ensures End in events <==> events[0] == End || End in events[1..]
  {
    var rest := events[1..];
    assert events == [events[0]] + rest;
    assert forall i | 0 <= i < |rest| :: rest[i] == events[i + 1];
  }

  lemma StepCloses(reader: Reader, s: Conn, e: Event, stream: Bytes)
    requires Accounts(s, Drain(reader, stream)) && Settled(s) && (e.Data? ==> !s.closed)
    requires !Drain(reader, stream + Chunk(e)).sawClose
    ensures Step(reader, s, e).closed <==> s.closed || e.End?
  {
    match e
    case Data(chunk) =>
      DataAccounts(reader, s, stream, chunk);
      DrainInInstalments(reader, stream, chunk);
      WakingSettles(Received(s, Drain(reader, s.recvBuf + chunk)), Drain(reader, stream + chunk).messages);
    case End => WakingSettles(s.(closed := true), Drain(reader, stream).messages);
    case Next =>
  }

  /** A run that sees no close frame and no data after the end, and what its first step leaves. */
  ghost predicate Undisturbed(reader: Reader, s: Conn, events: seq<Event>, stream: Bytes) {
    && Accounts(s, Drain(reader, stream)) && Settled(s)
    && !Drain(reader, stream + Chunks(events)).sawClose
    && EndsLast(events) && (s.closed ==> NoData(events))
  }

  lemma StepUndisturbed(reader: Reader, s: Conn, events: seq<Event>, stream: Bytes)
    requires Undisturbed(reader, s, events, stream) && events != []
    ensures var t := Step(reader, s, events[0]);
            && Undisturbed(reader, t, events[1..], stream + Chunk(events[0]))
            && (t.closed <==> s.closed || events[0].End?)
  {
    var e, rest := events[0], events[1..];
    StepAccounts(reader, s, e, stream);
    ChunksSplit(stream, events);
    PrefixDelivers(reader, stream + Chunk(e), Chunks(rest));
    StepCloses(reader, s, e, stream);
    EndsLastInRest(events);
  }

  /** Without a close frame the connection is closed exactly when the socket has reported its end. */
  lemma {:induction false} ClosedIffEnded(reader: Reader, s: Conn, events: seq<Event>, stream: Bytes)
    requires Undisturbed(reader, s, events, stream)
    ensures Orderly(reader, s, events)
    ensures Run(reader, s, events).closed <==> s.closed || End in events
    decreases |events|
  {
    if events != [] {
      StepUndisturbed(reader, s, events, stream);
      EndsLastInRest(events);
      ClosedIffEnded(reader, Step(reader, s, events[0]), events[1..], stream + Chunk(events[0]));
    }
  }

  /** Tickets are answered in order, the i-th with the i-th message sent, and with null only after the
      end; once all bytes are in, every ticket that has a message has it and the others are queued. */
  ghost predicate Delivers(s: Conn, sent: seq<Bytes>, allIn: bool) {
    && |s.answers| + |s.waiters| == s.asked && (s.closed ==> s.waiters == [])
    && (forall i | 0 <= i < |s.answers| ::
          && s.answers[i].ticket == i
          && (s.answers[i].message == Nth(sent, i) || (s.answers[i].message.None? && s.closed && !allIn)))
    && (forall i | 0 <= i < |s.answers| && s.answers[i].message.None? :: s.closed)
    && (allIn ==> s.messages == Drop(sent, |s.answers|))
    && (allIn && s.waiters != [] ==> |sent| <= |s.answers|)
  }

  lemma AccountsDelivers(s: Conn, d: Drained, sent: seq<Bytes>, allIn: bool)
    requires Accounts(s, d) && Settled(s) && d.messages <= sent && (allIn ==> d.messages == sent)
    ensures Delivers(s, sent, allIn)
  {
  }

  lemma MessagesArriveInOrder(reader: Reader, initial: Bytes, events: seq<Event>, unread: Bytes)
    requires EndsLast(events) && !Drain(reader, initial + Chunks(events) + unread).sawClose
    ensures var s, sent := Run(reader, Opened(reader, initial), events),
                           Drain(reader, initial + Chunks(events) + unread).messages;
            Settled(s) && (s.closed <==> End in events) && Delivers(s, sent, unread == [])
  {
    var s0, seen := Conn([], [], [], false, 0, []), initial + Chunks(events);
    assert [] + initial == initial;
    PrefixDelivers(reader, seen, unread);
    PrefixDelivers(reader, initial, Chunks(events));
    StepAccounts(reader, s0, Data(initial), []);
    StepCloses(reader, s0, Data(initial), []);
    ClosedIffEnded(reader, Opened(reader, initial), events, initial);
    ChunkingIsInvisible(reader, initial, events);
    assert unread == [] ==> seen + unread == seen;
    AccountsDelivers(Run(reader, Opened(reader, initial), events), Drain(reader, seen),
                     Drain(reader, seen + unread).messages, unread == []);
  }

  /** For every sequence of frames other than close frames, every cut of their wire bytes into chunks
      and every interleaving with `nextMessage` calls, the receiver delivers exactly the payloads. */
  lemma PayloadsArriveInOrder(frames: seq<Frame>, initial: Bytes, events: seq<Event>, unread: Bytes)
    requires forall i | 0 <= i < |frames| :: frames[i].WellFormed() && frames[i].opcode != 8
    requires EndsLast(events) && initial + Chunks(events) + unread == Wire(frames)
    ensures var s := Run(FrameReader(), Opened(FrameReader(), initial), events);
            Settled(s) && (s.closed <==> End in events) && Delivers(s, Payloads(frames), unread == [])
  {
    DrainReadsTheWire(frames);
    MessagesArriveInOrder(FrameReader(), initial, events, unread);
  }

  /** The frames of successive `sendBinary` calls. */
  function BinaryFrames(pieces: seq<Payload>, keys: seq<MaskKey>): (frames: seq<Frame>)
    requires |pieces| == |keys|
    ensures |frames| == |pieces|
    ensures forall i | 0 <= i < |frames| :: frames[i].WellFormed() && frames[i].opcode != 8
  {
    if pieces == [] then [] else [BinaryFrame(pieces[0], keys[0])] + BinaryFrames(pieces[1..], keys[1..])
  }

  lemma {:induction false} BinaryPayloads(pieces: seq<Payload>, keys: seq<MaskKey>)
    requires |pieces| == |keys|
    ensures Payloads(BinaryFrames(pieces, keys)) == pieces
  {
    if pieces != [] {
      BinaryPayloads(pieces[1..], keys[1..]);
      assert BinaryFrames(pieces, keys)[1..] == BinaryFrames(pieces[1..], keys[1..]);
    }
  }

  lemma AllDelivered(s: Conn, sent: seq<Bytes>)
    requires Delivers(s, sent, true) && s.closed
    ensures s.waiters == [] && s.messages == Drop(sent, s.asked)
    ensures s.answers == seq(s.asked, i requires i >= 0 => Answer(i, Nth(sent, i)))
  {
  }

  /** What `sendBinary` writes with any mask keys, cut in any way, is received piece by piece: after all
      of it and the end, any number of `nextMessage` calls have got the pieces in order and then null. */
  lemma SentIsReceived(pieces: seq<Payload>, keys: seq<MaskKey>, initial: Bytes, events: seq<Event>)
    requires |pieces| == |keys| && initial + Chunks(events) == Wire(BinaryFrames(pieces, keys))
    requires EndsLast(events) && End in events
    ensures var s := Run(FrameReader(), Opened(FrameReader(), initial), events);
            && s.waiters == [] && s.messages == Drop(pieces, s.asked)
            && s.answers == seq(s.asked, i requires i >= 0 => Answer(i, Nth(pieces, i)))
  {
    BinaryPayloads(pieces, keys);
    assert initial + Chunks(events) + [] == initial + Chunks(events);
    PayloadsArriveInOrder(BinaryFrames(pieces, keys), initial, events, []);
    AllDelivered(Run(FrameReader(), Opened(FrameReader(), initial), events), pieces);
  }

  /** A close frame closes the connection: whatever the chunks, once it has been read every call is answered,
      with the payloads before it in order and then with null. */
  lemma CloseFrameCloses(frames: seq<Frame>, close: Frame, initial: Bytes, events: seq<Event>)
    requires forall i | 0 <= i < |frames| :: frames[i].WellFormed() && frames[i].opcode != 8
    requires close.WellFormed() && close.opcode == 8
    requires Orderly(FrameReader(), Opened(FrameReader(), initial), events)
    requires initial + Chunks(events) == Wire(frames) + (FrameBytes(close) + [])
    ensures var s := Run(FrameReader(), Opened(FrameReader(), initial), events);
            && s.closed && s.waiters == []
            && s.answers == seq(s.asked, i requires i >= 0 => Answer(i, Nth(Payloads(frames), i)))
  {
    DrainStopsAtClose(frames, close, []);
    ChunkingIsInvisible(FrameReader(), initial, events);
    ClosedAnswers(Run(FrameReader(), Opened(FrameReader(), initial), events),
                  Drain(FrameReader(), initial + Chunks(events)));
  }

  lemma ClosedAnswers(s: Conn, d: Drained)
    requires Accounts(s, d) && Settled(s) && d.sawClose
    ensures s.closed && s.waiters == []
    ensures s.answers == seq(s.asked, i requires i >= 0 => Answer(i, Nth(d.messages, i)))
  {
  }
}

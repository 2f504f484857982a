/** The byte stream on top of a connection in ws-byte-stream.js: `WsByteStream` turns messages back into
    bytes, whatever the chunks they came in and whenever those arrive. */
module WebSocketStream {
  import opened Wrappers
  import opened Bytes
  import opened WebSocketFrames
  import opened WebSocketConnection

  // ---- What reads return ----

  datatype Request = Exact(n: nat) | Line

  /** Index just past the first newline. */
  function LineEnd(b: Bytes): (r: Option<nat>)
    ensures r.Some? ==> 0 < r.value <= |b| && b[r.value - 1] == 10 && 10 !in b[..r.value - 1]
    ensures r.None? <==> 10 !in b
  {
    if b == [] then None
    else if b[0] == 10 then Some(1)
    else
      assert b == [b[0]] + b[1..];
      match LineEnd(b[1..])
      case None => None
      case Some(k) =>
        assert b[..k] == [b[0]] + b[1..][..k - 1];
        Some(k + 1)
  }

  /** How many of the bytes to come a request takes, if there will be enough. */
  function Wanted(b: Bytes, request: Request): (r: Option<nat>)
    ensures r.Some? ==> r.value <= |b|
  {
    match request
    case Exact(n) => if n <= |b| then Some(n) else None
    case Line => LineEnd(b)
  }

  /** What a read returns and leaves: nothing and everything when there is not enough. */
  function Taken(b: Bytes, request: Request): (Option<Bytes>, Bytes) {
    match Wanted(b, request)
    case None => (None, b)
    case Some(k) => (Some(b[..k]), b[k..])
  }

  /** What a run of reads returns, up to the first that fails. */
  function Serve(b: Bytes, requests: seq<Request>): seq<Bytes> {
    if requests == [] then []
    else
      match Wanted(b, requests[0])
      case None => []
      case Some(k) => [b[..k]] + Serve(b[k..], requests[1..])
  }

  /** What was asked for and what was returned: n bytes, or up to the first newline. */
  predicate IsReply(request: Request, out: Bytes) {
    match request
    case Exact(n) => |out| == n
    case Line => LineEnd(out) == Some(|out|)
  }

  lemma WantedIsReply(b: Bytes, request: Request)
    requires Wanted(b, request).Some?
    ensures IsReply(request, b[..Wanted(b, request).value])
  {
    if request.Line? {
      LineEndIsFirst(b[..Wanted(b, request).value]);
    }
  }

  ghost predicate AreReplies(requests: seq<Request>, outs: seq<Bytes>) {
    |outs| <= |requests| && forall i | 0 <= i < |outs| :: IsReply(requests[i], outs[i])
  }

  lemma OneMoreReply(requests: seq<Request>, outs: seq<Bytes>)
    requires requests != [] && outs != [] && IsReply(requests[0], outs[0]) && AreReplies(requests[1..], outs[1..])
    ensures AreReplies(requests, outs)
  {
    forall i | 0 < i < |outs|
      ensures IsReply(requests[i], outs[i])
    {
      assert requests[i] == requests[1..][i - 1] && outs[i] == outs[1..][i - 1];
    }
  }

  lemma {:induction false} RepliesFit(b: Bytes, requests: seq<Request>)
    ensures AreReplies(requests, Serve(b, requests))
  {
    if requests != [] && Wanted(b, requests[0]).Some? {
      var k := Wanted(b, requests[0]).value;
      WantedIsReply(b, requests[0]);
      RepliesFit(b[k..], requests[1..]);
      assert Serve(b, requests)[1..] == Serve(b[k..], requests[1..]);
      OneMoreReply(requests, Serve(b, requests));
    }
  }

  lemma {:induction false} RepliesAreSlices(b: Bytes, requests: seq<Request>)
    ensures Flat(Serve(b, requests)) <= b
  {
    if requests != [] && Wanted(b, requests[0]).Some? {
      var k := Wanted(b, requests[0]).value;
      RepliesAreSlices(b[k..], requests[1..]);
      assert Serve(b, requests)[1..] == Serve(b[k..], requests[1..]);
      PrefixOfRest(b, k, Flat(Serve(b[k..], requests[1..])));
    }
  }

  lemma PrefixOfRest(b: Bytes, k: nat, p: Bytes)
    requires k <= |b| && p <= b[k..]
    ensures b[..k] + p <= b
  {
  }

  /** Successive reads return consecutive slices of the stream. */
  lemma ReadsAreConsecutive(b: Bytes, requests: seq<Request>)
    ensures Flat(Serve(b, requests)) <= b && AreReplies(requests, Serve(b, requests))
  {
    RepliesFit(b, requests);
    RepliesAreSlices(b, requests);
  }

  lemma {:induction false} LineEndIsFirst(b: Bytes)
    requires b != [] && b[|b| - 1] == 10 && 10 !in b[..|b| - 1]
    ensures LineEnd(b) == Some(|b|)
  {
    if |b| > 1 {
      assert b[..|b| - 1] == [b[0]] + b[1..][..|b| - 2];
      LineEndIsFirst(b[1..]);
    }
  }

  lemma {:induction false} LineEndExtends(a: Bytes, b: Bytes)
    requires LineEnd(a).Some?
    ensures LineEnd(a + b) == LineEnd(a)
  {
    if a[0] != 10 {
      assert (a + b)[1..] == a[1..] + b;
      LineEndExtends(a[1..], b);
    }
  }

  /** Taking from what has arrived is taking from the stream. */
  lemma SplitAt(have: Bytes, later: Bytes, k: nat)
    requires k <= |have|
    ensures (have + later)[..k] == have[..k] && (have + later)[k..] == have[k..] + later
  {
  }

  // ---- A connection and the arrivals still to come ----

  /** The connection has seen `stream`; `arrivals` are the chunks still to come and then the end. */
  ghost predicate Live(reader: Reader, s: Conn, arrivals: seq<Event>, stream: Bytes) {
    && Undisturbed(reader, s, arrivals, stream)
    && (s.closed || End in arrivals)
    && Next !in arrivals
  }

  /** All messages of the connection, received or not. */
  ghost function Sent(reader: Reader, arrivals: seq<Event>, stream: Bytes): seq<Bytes> {
    Drain(reader, stream + Chunks(arrivals)).messages
  }

  lemma ArrivalKeepsLive(reader: Reader, s: Conn, arrivals: seq<Event>, stream: Bytes)
    requires Live(reader, s, arrivals, stream) && arrivals != []
    ensures var e := arrivals[0];
            && Live(reader, Step(reader, s, e), arrivals[1..], stream + Chunk(e))
            && Sent(reader, arrivals[1..], stream + Chunk(e)) == Sent(reader, arrivals, stream)
            && Step(reader, s, e).asked == s.asked
  {
    StepUndisturbed(reader, s, arrivals, stream);
    EndsLastInRest(arrivals);
    ChunksSplit(stream, arrivals);
    StepKeepsAsked(reader, s, arrivals[0]);
  }

  lemma {:induction false} WakingKeepsAsked(s: Conn)
    ensures Woken(s).asked == s.asked
    decreases |s.waiters|
  {
    if s.waiters != [] {
      if s.messages != [] {
        WakingKeepsAsked(s.(messages := s.messages[1..], waiters := s.waiters[1..],
                            answers := s.answers + [Answer(s.waiters[0], Some(s.messages[0]))]));
      } else if s.closed {
        WakingKeepsAsked(s.(waiters := s.waiters[1..], answers := s.answers + [Answer(s.waiters[0], None)]));
      }
    }
  }

  lemma StepKeepsAsked(reader: Reader, s: Conn, e: Event)
    requires !e.Next?
    ensures Step(reader, s, e).asked == s.asked
  {
    match e
    case Data(chunk) => WakingKeepsAsked(Received(s, Drain(reader, s.recvBuf + chunk)));
    case End => WakingKeepsAsked(s.(closed := true));
  }

  lemma AskingKeepsLive(reader: Reader, s: Conn, arrivals: seq<Event>, stream: Bytes)
    requires Live(reader, s, arrivals, stream)
    ensures Live(reader, Step(reader, s, Next), arrivals, stream) && Step(reader, s, Next).asked == s.asked + 1
  {
    StepAccounts(reader, s, Next, stream);
    assert stream + [] == stream;
  }

  lemma {:induction false} NoDataNoChunks(events: seq<Event>)
    requires NoData(events)
    ensures Chunks(events) == []
  {
    if events != [] {
      NoDataNoChunks(events[1..]);
    }
  }

  /** An answered call has got its message out of all messages, and null only past the last. */
  lemma AnswerIsFinal(reader: Reader, s: Conn, arrivals: seq<Event>, stream: Bytes, k: nat)
    requires Live(reader, s, arrivals, stream) && k < |s.answers|
    ensures s.answers[k] == Answer(k, Nth(Sent(reader, arrivals, stream), k))
  {
    PrefixDelivers(reader, stream, Chunks(arrivals));
    if k >= |Drain(reader, stream).messages| {
      NoDataNoChunks(arrivals);
      assert stream + [] == stream;
    }
  }

  /** While somebody waits, something is still to arrive. */
  lemma WaitingExpects(reader: Reader, s: Conn, arrivals: seq<Event>, stream: Bytes)
    requires Live(reader, s, arrivals, stream) && |s.answers| < s.asked
    ensures arrivals != []
  {
  }

  /** Moving the next message from the list to the buffer leaves the bytes as they were. */
  lemma NextIncoming(buf: Bytes, sent: seq<Bytes>, k: nat)
    requires k < |sent|
    ensures buf + Flat(Drop(sent, k)) == buf + sent[k] + Flat(Drop(sent, k + 1))
  {
    assert Drop(sent, k)[1..] == Drop(sent, k + 1);
    Assoc(buf, sent[k], Flat(Drop(sent, k + 1)));
  }

  // ---- The byte stream ----

  /** `arrivals` is the environment: what the socket will still deliver, at any moment. The stream is the
      only reader of its connection, and `sent` are all messages it will ever get. */
  class WsByteStream {
    const ws: WsConn
    var byteBuf: Bytes
    var arrivals: seq<Event>
    ghost var stream: Bytes
    ghost const sent: seq<Bytes>

    ghost predicate Connected()
      reads this`arrivals, this`stream, ws
    {
      Live(FrameReader(), ws.State(), arrivals, stream) && sent == Sent(FrameReader(), arrivals, stream)
    }

    ghost predicate Valid()
      reads this`arrivals, this`stream, ws
    {
      Connected() && |ws.answers| == ws.asked
    }

    /** What the connection will still answer before null. */
    ghost function Incoming(): seq<Bytes>
      reads ws
    {
      Drop(sent, |ws.answers|)
    }

    /** All bytes still to be read. */
    ghost function Pending(): Bytes
      reads this, ws
    {
      byteBuf + Flat(Incoming())
    }

    constructor (ws: WsConn, arrivals: seq<Event>, ghost stream: Bytes)
      requires Live(FrameReader(), ws.State(), arrivals, stream) && ws.asked == 0
      ensures this.ws == ws && Valid() && Pending() == Flat(Sent(FrameReader(), arrivals, stream))
    {
      this.ws, byteBuf, this.arrivals, this.stream := ws, [], arrivals, stream;
      sent := Sent(FrameReader(), arrivals, stream);
    }

    /** The socket delivers its next chunk, or its end. */
    method Arrive()
      requires Connected() && arrivals != []
      modifies this`arrivals, this`stream, ws
      ensures Connected() && ws.asked == old(ws.asked) && |arrivals| < |old(arrivals)|
    {
      ArrivalKeepsLive(FrameReader(), ws.State(), arrivals, stream);
      ws.OnEvent(arrivals[0]);
      arrivals, stream := arrivals[1..], stream + Chunk(arrivals[0]);
    }

    /** `await this.ws.nextMessage()`: chunks may arrive before the call and while it waits. */
    method AwaitMessage() returns (msg: Option<Bytes>)
      requires Valid()
      modifies this`arrivals, this`stream, ws
      ensures Valid() && msg == Nth(sent, old(|ws.answers|)) && |ws.answers| == old(|ws.answers|) + 1
    {
      while *
        invariant Connected() && ws.asked == old(ws.asked)
        decreases |arrivals|
      {
        if arrivals == [] { break; }
        Arrive();
      }
      AskingKeepsLive(FrameReader(), ws.State(), arrivals, stream);
      var ticket := ws.NextMessage();
      while |ws.answers| <= ticket
        invariant Connected() && ws.asked == ticket + 1 == old(ws.asked) + 1
        decreases |arrivals|
      {
        WaitingExpects(FrameReader(), ws.State(), arrivals, stream);
        Arrive();
      }
      AnswerIsFinal(FrameReader(), ws.State(), arrivals, stream, ticket);
      msg := ws.answers[ticket].message;
    }

    /** Appends the next message to the buffer; false when there is none. */
    method Fill() returns (more: bool)
      requires Valid()
      modifies this`byteBuf, this`arrivals, this`stream, ws
      ensures Valid() && Pending() == old(Pending())
      ensures if more then |Incoming()| < |old(Incoming())| else Pending() == byteBuf && Incoming() == []
    {
      ghost var k := |ws.answers|;
      var msg := AwaitMessage();
      more := msg.Some?;
      if more {
        NextIncoming(byteBuf, sent, k);
        byteBuf := byteBuf + msg.value;
      } else {
        assert Flat(Incoming()) == [] && byteBuf + [] == byteBuf;
      }
    }

    /** Takes k bytes out of the buffer. */
    method Cut(k: nat) returns (out: Bytes)
      requires Valid() && k <= |byteBuf|
      modifies this`byteBuf
      ensures Valid() && out == old(Pending())[..k] && Pending() == old(Pending())[k..]
    {
      SplitAt(byteBuf, Flat(Incoming()), k);
      out := byteBuf[..k];
      byteBuf := byteBuf[k..];
    }

    method ReadExact(n: nat) returns (out: Option<Bytes>)
      requires Valid()
      modifies this`byteBuf, this`arrivals, this`stream, ws
      ensures Valid() && (out, Pending()) == Taken(old(Pending()), Exact(n))
    {
      ghost var all := Pending();
      var more := true;
      while |byteBuf| < n && more
        invariant Valid() && Pending() == all && (!more ==> byteBuf == all)
        decreases |Incoming()|, more
      {
        more := Fill();
      }
      if |byteBuf| < n {
        return None;
      }
      var slice := Cut(n);
      out := Some(slice);
    }

    /** The line with its newline, as bytes. */
    method ReadLine() returns (out: Option<Bytes>)
      requires Valid()
      modifies this`byteBuf, this`arrivals, this`stream, ws
      ensures Valid() && (out, Pending()) == Taken(old(Pending()), Line)
    {
      ghost var all := Pending();
      var more := true;
      var end := LineEnd(byteBuf);
      while end.None? && more
        invariant Valid() && Pending() == all && (!more ==> byteBuf == all) && end == LineEnd(byteBuf)
        decreases |Incoming()|, more
      {
        more := Fill();
        end := LineEnd(byteBuf);
      }
      if end.Some? {
        LineEndExtends(byteBuf, Flat(Incoming()));
      }
      assert Wanted(all, Line) == end;
      if end.None? {
        return None;
      }
      var line := Cut(end.value);
      out := Some(line);
    }

    method Read(request: Request) returns (out: Option<Bytes>)
      requires Valid()
      modifies this`byteBuf, this`arrivals, this`stream, ws
      ensures Valid() && (out, Pending()) == Taken(old(Pending()), request)
    {
      match request {
        case Exact(n) => out := ReadExact(n);
        case Line => out := ReadLine();
      }
    }

    /** Any list of reads, up to the first that fails. */
    method ReadAll(requests: seq<Request>) returns (outs: seq<Bytes>)
      requires Valid()
      modifies this`byteBuf, this`arrivals, this`stream, ws
      ensures Valid() && outs == Serve(old(Pending()), requests)
      decreases |requests|
    {
      if requests == [] {
        return [];
      }
      var out := Read(requests[0]);
      if out.None? {
        return [];
      }
      outs := ReadAll(requests[1..]);
      outs := [out.value] + outs;
    }
  }

  // ---- From the sender's writes to the reader's reads ----

  /** A connection that opened on `initial` and will get the rest of a wire of frames, then its end. */
  lemma OpenedIsLive(frames: seq<Frame>, initial: Bytes, arrivals: seq<Event>)
    requires forall i | 0 <= i < |frames| :: frames[i].WellFormed() && frames[i].opcode != 8
    requires EndsLast(arrivals) && End in arrivals && Next !in arrivals
    requires initial + Chunks(arrivals) == Wire(frames)
    ensures Live(FrameReader(), Opened(FrameReader(), initial), arrivals, initial)
    ensures Sent(FrameReader(), arrivals, initial) == Payloads(frames)
    ensures Opened(FrameReader(), initial).asked == 0
  {
    DrainReadsTheWire(frames);
    OpeningIsLive(FrameReader(), initial, arrivals);
  }

  lemma OpeningIsLive(reader: Reader, initial: Bytes, arrivals: seq<Event>)
    requires EndsLast(arrivals) && End in arrivals && Next !in arrivals
    requires !Drain(reader, initial + Chunks(arrivals)).sawClose
    ensures Live(reader, Opened(reader, initial), arrivals, initial) && Opened(reader, initial).asked == 0
  {
    var s := Conn([], [], [], false, 0, []);
    assert [] + initial == initial;
    PrefixDelivers(reader, initial, Chunks(arrivals));
    StepAccounts(reader, s, Data(initial), []);
    StepCloses(reader, s, Data(initial), []);
    StepKeepsAsked(reader, s, Data(initial));
  }

  /** End to end: whatever pieces are written, under whatever mask keys, however the wire is cut into
      chunks and whenever they arrive, any list of reads returns what the concatenation serves. */
  method WritesAreReadBack(pieces: seq<Payload>, ghost keys: seq<MaskKey>, initial: Bytes, arrivals: seq<Event>,
                           requests: seq<Request>) returns (outs: seq<Bytes>)
    requires |pieces| == |keys| && initial + Chunks(arrivals) == Wire(BinaryFrames(pieces, keys))
    requires EndsLast(arrivals) && End in arrivals && Next !in arrivals
    ensures outs == Serve(Flat(pieces), requests)
  {
    OpenedIsLive(BinaryFrames(pieces, keys), initial, arrivals);
    BinaryPayloads(pieces, keys);
    var ws := new WsConn(initial);
    var stream := new WsByteStream(ws, arrivals, initial);
    outs := stream.ReadAll(requests);
  }
}

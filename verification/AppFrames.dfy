/** Length-prefixed frames (noise.rs), encrypted records (a2a.rs) and the reassembly of one
    application frame from a stream of records (channel_dial.rs). Encryption is a pair of functions of
    the message number and the bytes. */
module AppFrames {
  import opened Wrappers
  import opened Bytes

  const A2A_MAX_MESSAGE: nat := 65519
  const MAX_MESSAGE_BYTES: nat := 65535
  const TAG_LEN: nat := 16

  // ---- Frames ----

  /** The bare envelope: the length is cut to 16 bits. */
  function Frame(msg: Bytes): (r: Bytes)
    ensures |r| == 2 + |msg|
  {
    Be16(|msg|) + msg
  }

  function LengthOf(hi: byte, lo: byte): nat {
    var high: int := hi;
    256 * high + lo
  }

  /** The body and the bytes consumed, once a whole frame is there. */
  function TakeFrame(buf: Bytes): (r: Option<(Bytes, nat)>)
    ensures r.Some? ==> 2 <= r.value.1 <= |buf|
  {
    if |buf| < 2 then None
    else
      var n := LengthOf(buf[0], buf[1]);
      if |buf| < 2 + n then None else Some((buf[2..2 + n], 2 + n))
  }

  /** A frame is taken back off any stream it starts exactly when its length fits the prefix. */
  lemma TakeFrameOfFrame(msg: Bytes, rest: Bytes)
    ensures TakeFrame(Frame(msg) + rest) == Some((msg, 2 + |msg|)) <==> |msg| <= MAX_MESSAGE_BYTES
  {
    var buf, n := Frame(msg) + rest, |msg|;
    assert buf[0] == n / 256 % 256 && buf[1] == n % 256;
    if n <= MAX_MESSAGE_BYTES {
      assert LengthOf(buf[0], buf[1]) == n;
      assert buf[2..2 + n] == msg;
    }
  }

  lemma TakeFrameIsStable(buf: Bytes, more: Bytes)
    requires TakeFrame(buf).Some?
    ensures TakeFrame(buf + more) == TakeFrame(buf)
  {
    var used := TakeFrame(buf).value.1;
    assert (buf + more)[2..used] == buf[2..used];
  }

  /** A strict prefix of a frame is never taken for a frame. */
  lemma PartialFrameIsNotTaken(msg: Bytes, have: Bytes)
    requires |msg| <= MAX_MESSAGE_BYTES && have <= Frame(msg) && |have| < |Frame(msg)|
    ensures TakeFrame(have).None?
  {
    if TakeFrame(have).Some? {
      var more := Frame(msg)[|have|..];
      assert Frame(msg) == have + more && Frame(msg) + [] == Frame(msg);
      TakeFrameIsStable(have, more);
      TakeFrameOfFrame(msg, []);
      assert false;
    }
  }

  /** The prefix says how many bytes follow. */
  predicate PrefixIsExact(written: Bytes) {
    |written| >= 2 && LengthOf(written[0], written[1]) == |written| - 2
  }

  datatype SendError = TooLarge

  method WriteMessage(msg: Bytes) returns (written: Result<Bytes, SendError>)
    ensures written.Ok? <==> |msg| <= MAX_MESSAGE_BYTES
    ensures written.Ok? ==> written.value == Frame(msg) && PrefixIsExact(written.value)
  {
    if |msg| > MAX_MESSAGE_BYTES {
      return Err(TooLarge);
    }
    written := Ok(Frame(msg));
  }

  // ---- Encrypted records ----

  /** `seal(k, p)` is the k-th record sent, 16 bytes longer than its plaintext; `unseal` is partial, and
      undoes `seal` at the same position. */
  ghost predicate IsCipher(seal: (nat, Bytes) -> Bytes, unseal: (nat, Bytes) -> Option<Bytes>) {
    && (forall k, p :: |seal(k, p)| == |p| + TAG_LEN)
    && (forall k, p :: unseal(k, seal(k, p)) == Some(p))
  }

  method A2aSend(seal: (nat, Bytes) -> Bytes, ghost unseal: (nat, Bytes) -> Option<Bytes>, k: nat, plaintext: Bytes)
    returns (written: Result<Bytes, SendError>)
    requires IsCipher(seal, unseal)
    ensures written.Ok? <==> |plaintext| <= A2A_MAX_MESSAGE
    ensures written.Ok? ==> written.value == Frame(seal(k, plaintext)) && PrefixIsExact(written.value)
  {
    if |plaintext| > A2A_MAX_MESSAGE {
      return Err(TooLarge);
    }
    var ct := seal(k, plaintext);
    written := Ok(Be16(|ct|) + ct);
  }

  /** A request is framed and then sealed as one record, so its own limit is 65517 bytes, below the one
      that `write_message` checks. */
  method SendRequest(seal: (nat, Bytes) -> Bytes, ghost unseal: (nat, Bytes) -> Option<Bytes>, k: nat, request: Bytes)
    returns (written: Result<Bytes, SendError>)
    requires IsCipher(seal, unseal)
    ensures written.Ok? <==> |request| <= 65517
    ensures written.Ok? ==> written.value == Frame(seal(k, Frame(request))) && PrefixIsExact(written.value)
  {
    var framed := WriteMessage(request);
    if framed.Err? {
      return framed;
    }
    written := A2aSend(seal, unseal, k, framed.value);
  }

  /** The plaintexts of the records on a wire, from message number k on, up to the first that is
      incomplete or does not decrypt. */
  function Records(unseal: (nat, Bytes) -> Option<Bytes>, k: nat, wire: Bytes): seq<Bytes>
    decreases |wire|
  {
    match TakeFrame(wire)
    case None => []
    case Some((ct, used)) =>
      match unseal(k, ct)
      case None => []
      case Some(p) => [p] + Records(unseal, k + 1, wire[used..])
  }

  /** Reads one record: `None` when the stream ends before it is whole or it does not decrypt. */
  method A2aRecv(unseal: (nat, Bytes) -> Option<Bytes>, k: nat, wire: Bytes)
    returns (record: Option<Bytes>, rest: Bytes)
    ensures match record
            case None => Records(unseal, k, wire) == []
            case Some(p) => |rest| < |wire| && Records(unseal, k, wire) == [p] + Records(unseal, k + 1, rest)
  {
    rest := wire;
    var frame := TakeFrame(wire);
    if frame.None? {
      return None, rest;
    }
    rest := wire[frame.value.1..];
    record := unseal(k, frame.value.0);
  }

  /** Reads records until they hold one frame: the answer depends on the plaintext bytes alone, not on
      how they are cut into records. */
  method RecvAppFrame(unseal: (nat, Bytes) -> Option<Bytes>, k0: nat, wire0: Bytes) returns (body: Option<Bytes>)
    ensures match TakeFrame(Flat(Records(unseal, k0, wire0)))
            case None => body.None?
            case Some((b, _)) => body == Some(b)
  {
    ghost var all := Flat(Records(unseal, k0, wire0));
    var buf: Bytes, k, wire := [], k0, wire0;
    assert buf + all == all;
    while true
      invariant buf + Flat(Records(unseal, k, wire)) == all
      decreases |wire|
    {
      var frame := TakeFrame(buf);
      if frame.Some? {
        TakeFrameIsStable(buf, Flat(Records(unseal, k, wire)));
        return Some(frame.value.0);
      }
      ghost var ahead := Records(unseal, k, wire);
      var record, rest := A2aRecv(unseal, k, wire);
      if record.None? {
        assert ahead == [] && buf + [] == buf;
        return None;
      }
      FlatCons(buf, record.value, ahead, Records(unseal, k + 1, rest));
      buf, k, wire := buf + record.value, k + 1, rest;
    }
  }

  lemma FlatCons(buf: Bytes, first: Bytes, all: seq<Bytes>, later: seq<Bytes>)
    requires all == [first] + later
    ensures buf + Flat(all) == (buf + first) + Flat(later)
  {
    assert all[1..] == later;
    Assoc(buf, first, Flat(later));
  }

  // ---- From sender to receiver ----

  /** What successive `a2a_send` calls put on the wire. */
  function SealedWire(seal: (nat, Bytes) -> Bytes, k: nat, pieces: seq<Bytes>): Bytes
    decreases |pieces|
  {
    if pieces == [] then [] else Frame(seal(k, pieces[0])) + SealedWire(seal, k + 1, pieces[1..])
  }

  lemma FirstRecord(unseal: (nat, Bytes) -> Option<Bytes>, k: nat, ct: Bytes, p: Bytes, more: Bytes)
    requires |ct| <= MAX_MESSAGE_BYTES && unseal(k, ct) == Some(p)
    ensures Records(unseal, k, Frame(ct) + more) == [p] + Records(unseal, k + 1, more)
  {
    TakeFrameOfFrame(ct, more);
    assert (Frame(ct) + more)[2 + |ct|..] == more;
  }

  /** A reader that takes one sealed record at a time off the front of a wire. */
  ghost predicate TakesRecords(seal: (nat, Bytes) -> Bytes, read: (nat, Bytes) -> seq<Bytes>) {
    forall k: nat, p: Bytes, more: Bytes {:trigger read(k, Frame(seal(k, p)) + more)} ::
      |p| <= A2A_MAX_MESSAGE ==> read(k, Frame(seal(k, p)) + more) == [p] + read(k + 1, more)
  }

  lemma {:induction false} AllAreTaken(seal: (nat, Bytes) -> Bytes, read: (nat, Bytes) -> seq<Bytes>,
                                        k: nat, pieces: seq<Bytes>, tail: Bytes)
    requires TakesRecords(seal, read) && forall p | p in pieces :: |p| <= A2A_MAX_MESSAGE
    ensures read(k, SealedWire(seal, k, pieces) + tail) == pieces + read(k + |pieces|, tail)
    decreases |pieces|
  {
    if pieces == [] {
      assert SealedWire(seal, k, pieces) + tail == tail;
    } else {
      var first, rest := pieces[0], pieces[1..];
      Assoc(Frame(seal(k, first)), SealedWire(seal, k + 1, rest), tail);
      AllAreTaken(seal, read, k + 1, rest, tail);
      assert pieces == [first] + rest;
      Assoc([first], rest, read(k + |pieces|, tail));
    }
  }

  function Reader(unseal: (nat, Bytes) -> Option<Bytes>): (nat, Bytes) -> seq<Bytes> {
    (k: nat, wire: Bytes) => Records(unseal, k, wire)
  }

  lemma ReaderTakesRecords(seal: (nat, Bytes) -> Bytes, unseal: (nat, Bytes) -> Option<Bytes>)
    requires IsCipher(seal, unseal)
    ensures TakesRecords(seal, Reader(unseal))
  {
    forall k: nat, p: Bytes, more: Bytes | |p| <= A2A_MAX_MESSAGE
      ensures Reader(unseal)(k, Frame(seal(k, p)) + more) == [p] + Reader(unseal)(k + 1, more)
    {
      FirstRecord(unseal, k, seal(k, p), p, more);
    }
  }

  /** Records arrive one for one, empty ones included, whatever follows them. */
  lemma RecordsOfSealedWire(seal: (nat, Bytes) -> Bytes, unseal: (nat, Bytes) -> Option<Bytes>,
                            k: nat, pieces: seq<Bytes>, tail: Bytes)
    requires IsCipher(seal, unseal) && forall p | p in pieces :: |p| <= A2A_MAX_MESSAGE
    ensures Records(unseal, k, SealedWire(seal, k, pieces) + tail) == pieces + Records(unseal, k + |pieces|, tail)
  {
    ReaderTakesRecords(seal, unseal);
    AllAreTaken(seal, Reader(unseal), k, pieces, tail);
  }

  lemma {:induction false} FlatConcat(a: seq<Bytes>, b: seq<Bytes>)
    ensures Flat(a + b) == Flat(a) + Flat(b)
  {
    if a == [] {
      assert a + b == b;
    } else {
      FlatConcat(a[1..], b);
      assert (a + b)[1..] == a[1..] + b;
      Assoc(a[0], Flat(a[1..]), Flat(b));
    }
  }

  /** For every reply body up to 65535 bytes, every split of its frame into records (empty ones and
      bytes after the frame included) and whatever follows on the wire, the reader gets the body. */
  lemma ReplyIsReassembled(seal: (nat, Bytes) -> Bytes, unseal: (nat, Bytes) -> Option<Bytes>,
                           k: nat, body: Bytes, pieces: seq<Bytes>, extra: Bytes, tail: Bytes)
    requires IsCipher(seal, unseal) && |body| <= MAX_MESSAGE_BYTES
    requires (forall p | p in pieces :: |p| <= A2A_MAX_MESSAGE) && Flat(pieces) == Frame(body) + extra
    ensures TakeFrame(Flat(Records(unseal, k, SealedWire(seal, k, pieces) + tail))) == Some((body, 2 + |body|))
  {
    RecordsOfSealedWire(seal, unseal, k, pieces, tail);
    var later := Records(unseal, k + |pieces|, tail);
    FlatConcat(pieces, later);
    Assoc(Frame(body), extra, Flat(later));
    TakeFrameOfFrame(body, extra + Flat(later));
  }

  /** A stream that ends before the frame is whole gives an error, never a shorter body. */
  lemma CutReplyIsRefused(seal: (nat, Bytes) -> Bytes, unseal: (nat, Bytes) -> Option<Bytes>,
                          k: nat, body: Bytes, pieces: seq<Bytes>)
    requires IsCipher(seal, unseal) && |body| <= MAX_MESSAGE_BYTES
    requires (forall p | p in pieces :: |p| <= A2A_MAX_MESSAGE) && Flat(pieces) <= Frame(body) && Flat(pieces) != Frame(body)
    ensures TakeFrame(Flat(Records(unseal, k, SealedWire(seal, k, pieces)))).None?
  {
    RecordsOfSealedWire(seal, unseal, k, pieces, []);
    assert SealedWire(seal, k, pieces) + [] == SealedWire(seal, k, pieces) && pieces + [] == pieces;
    PartialFrameIsNotTaken(body, Flat(pieces));
  }
}

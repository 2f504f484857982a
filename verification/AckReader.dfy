/** The refusal frame and the two places a client reads the edge's answer: before the possession
    challenge, and byte by byte after the possession signature. */
module AckReader {
  import opened Wrappers
  import opened Bytes
  import opened ChannelWire

  // ---- The refusal frame: NO, a length byte, a category token ----

  const NO: Bytes := [78, 79]
  const NEWLINE: byte := 10

  predicate IsTokenByte(b: byte) {
    97 <= b <= 122 || 48 <= b <= 57 || b == 45
  }

  predicate IsToken(token: Bytes) {
    0 < |token| <= REFUSAL_CATEGORY_MAX_LEN && forall b | b in token :: IsTokenByte(b)
  }

  /** A category that is not token-shaped degrades to the bare sentinel. */
  function EncodeRefusal(category: Bytes): Bytes {
    NO + if IsToken(category) then [|category|] + category else []
  }

  /** What follows the sentinel: the token, unless it is missing, cut short or malformed. */
  function DecodeCategory(rest: Bytes): Option<Bytes> {
    if rest == [] then None
    else
      var len: int := rest[0];
      if |rest| < 1 + len || !IsToken(rest[1..1 + len]) then None else Some(rest[1..1 + len])
  }

  /** Decoding yields exactly the tokens framed with their own length. */
  lemma DecodeCategoryIsExact(rest: Bytes, token: Bytes)
    ensures DecodeCategory(rest) == Some(token) <==> IsToken(token) && [|token|] + token <= rest
  {
    if IsToken(token) && [|token|] + token <= rest {
      var framed := [|token|] + token;
      assert rest[0] == framed[0] && rest[1..1 + |token|] == framed[1..];
    }
  }

  /** A refusal is always shorter than a possession challenge, and the category comes back exactly
      when it was token-shaped. */
  lemma RefusalRoundTrip(category: Bytes)
    ensures |EncodeRefusal(category)| < POSSESSION_CHALLENGE_LEN && NO <= EncodeRefusal(category)
    ensures DecodeCategory(EncodeRefusal(category)[2..]) == if IsToken(category) then Some(category) else None
  {
    var frame := EncodeRefusal(category);
    if IsToken(category) {
      assert frame[2..] == [|category|] + category;
      DecodeCategoryIsExact(frame[2..], category);
    } else {
      assert frame[2..] == [];
    }
  }

  // ---- Before the challenge ----

  datatype JoinError = DroppedLeg | TooLong

  datatype Opening = Challenge(bytes: Bytes) | Answer(category: Option<Bytes>) | Broken

  /** Reads at most 32 bytes, up to the end of the stream. */
  function ReadOpening(stream: Bytes): Opening {
    var resp := if |stream| <= POSSESSION_CHALLENGE_LEN then stream else stream[..POSSESSION_CHALLENGE_LEN];
    if |resp| == POSSESSION_CHALLENGE_LEN then Challenge(resp)
    else if resp == [] then Answer(None)
    else if NO <= resp then Answer(DecodeCategory(resp[2..]))
    else Broken
  }

  /** A refusal sent instead of a challenge is never taken for one, and its category is read. */
  lemma RefusalBeforeChallenge(category: Bytes)
    ensures ReadOpening(EncodeRefusal(category)) == Answer(if IsToken(category) then Some(category) else None)
  {
    RefusalRoundTrip(category);
  }

  // ---- After the signature ----

  function DropZeros(s: Bytes): (r: Bytes)
    ensures |r| <= |s| && (r != [] ==> r[0] != 0)
  {
    if s != [] && s[0] == 0 then DropZeros(s[1..]) else s
  }

  /** Index of the first newline, or the length. */
  function LineLength(s: Bytes): (n: nat)
    ensures n <= |s| && NEWLINE !in s[..n] && (n < |s| ==> s[n] == NEWLINE)
  {
    if s == [] || s[0] == NEWLINE then 0
    else
      var n := LineLength(s[1..]);
      assert s[..1 + n] == [s[0]] + s[1..][..n];
      1 + n
  }

  datatype Ack = Line(bytes: Bytes, rest: Option<Bytes>) | Overlong | Expired

  /** The first line after the keepalive zeros; `rest` is what follows its newline, if it has one. */
  function FirstLine(stream: Bytes, parkClosed: bool): Ack {
    var s := DropZeros(stream);
    var n := LineLength(s);
    if n >= CHANNEL_ACK_MAX_BYTES then Overlong
    else if n < |s| then Line(s[..n], Some(s[n + 1..]))
    else if parkClosed then Expired
    else Line(s, None)
  }

  /** What reading on makes of the bytes collected so far and those still to come. */
  function ReadOn(ack: Bytes, todo: Bytes, parkClosed: bool): Ack
    decreases |todo|
  {
    if todo == [] then (if parkClosed then Expired else Line(ack, None))
    else if todo[0] == NEWLINE then Line(ack, Some(todo[1..]))
    else if todo[0] == 0 && ack == [] then ReadOn(ack, todo[1..], parkClosed)
    else if |ack| + 1 >= CHANNEL_ACK_MAX_BYTES then Overlong
    else ReadOn(ack + [todo[0]], todo[1..], parkClosed)
  }

  /** The byte-wise reader. `parkClosed` says that the stream ends in the edge's park-expiry close. */
  method ReadAck(stream: Bytes, parkClosed: bool) returns (r: Ack)
    ensures r == FirstLine(stream, parkClosed)
  {
    ReadOnIsFirstLine(stream, parkClosed);
    var ack: Bytes, i := [], 0;
    assert stream[0..] == stream;
    while i < |stream|
      invariant i <= |stream| && ReadOn(ack, stream[i..], parkClosed) == FirstLine(stream, parkClosed)
    {
      var b := stream[i];
      assert stream[i..][1..] == stream[i + 1..];
      i := i + 1;
      if b == NEWLINE {
        return Line(ack, Some(stream[i..]));
      }
      if b == 0 && ack == [] {
        continue;
      }
      ack := ack + [b];
      if |ack| >= CHANNEL_ACK_MAX_BYTES {
        return Overlong;
      }
    }
    if parkClosed {
      return Expired;
    }
    r := Line(ack, None);
  }

  lemma {:induction false} ReadOnTakesTheLine(ack: Bytes, todo: Bytes, parkClosed: bool)
    requires |ack| < CHANNEL_ACK_MAX_BYTES && (ack == [] && todo != [] ==> todo[0] != 0)
    ensures var n := LineLength(todo);
            ReadOn(ack, todo, parkClosed)
            == if |ack| + n >= CHANNEL_ACK_MAX_BYTES then Overlong
               else if n < |todo| then Line(ack + todo[..n], Some(todo[n + 1..]))
               else if parkClosed then Expired
               else Line(ack + todo, None)
    decreases |todo|
  {
    if todo == [] || todo[0] == NEWLINE {
      assert ack + [] == ack;
    } else if |ack| + 1 < CHANNEL_ACK_MAX_BYTES {
      ReadOnTakesTheLine(ack + [todo[0]], todo[1..], parkClosed);
      ConsLine(ack, todo, LineLength(todo[1..]));
    }
  }

  lemma ConsLine(ack: Bytes, todo: Bytes, n: nat)
    requires todo != [] && n < |todo|
    ensures ack + [todo[0]] + todo[1..][..n] == ack + todo[..n + 1]
    ensures ack + [todo[0]] + todo[1..] == ack + todo
    ensures n + 1 < |todo| ==> todo[1..][n + 1..] == todo[n + 2..]
  {
  }

  lemma {:induction false} ReadOnIsFirstLine(stream: Bytes, parkClosed: bool)
    ensures ReadOn([], stream, parkClosed) == FirstLine(stream, parkClosed)
  {
    if stream != [] && stream[0] == 0 {
      ReadOnIsFirstLine(stream[1..], parkClosed);
    } else {
      ReadOnTakesTheLine([], stream, parkClosed);
      var n := LineLength(stream);
      assert [] + stream[..n] == stream[..n] && [] + stream == stream;
    }
  }

  /** The bounded read of the rest of a refusal whose length byte was taken for the line's end. */
  function TailToken(rest: Bytes): Option<Bytes> {
    var tail := if |rest| <= REFUSAL_CATEGORY_MAX_LEN + 1 then rest else rest[..REFUSAL_CATEGORY_MAX_LEN + 1];
    if |tail| == 10 && IsToken(tail) then Some(tail) else None
  }

  /** What the reader makes of the stream after the signature; `text` is the lossy UTF-8 conversion. */
  function Answered<A>(stream: Bytes, parkClosed: bool, text: Bytes -> string, parseAddr: string -> Option<A>)
    : Result<Outcome<A>, JoinError>
  {
    match FirstLine(stream, parkClosed)
    case Overlong => Err(TooLong)
    case Expired => Ok(ParkExpired)
    case Line(ack, rest) =>
      if ack == [] then Err(DroppedLeg)
      else if NO <= ack then
        Ok(Refused(if ack != NO then DecodeCategory(ack[2..])
                   else if rest.Some? then TailToken(rest.value)
                   else None))
      else Ok(Meaning(text(ack), parseAddr))
  }

  function Zeros(n: nat): Bytes {
    seq(n, _ => 0)
  }

  lemma {:induction false} ZerosAreDropped(n: nat, s: Bytes)
    requires s != [] && s[0] != 0
    ensures DropZeros(Zeros(n) + s) == s
  {
    if n == 0 {
      assert Zeros(n) + s == s;
    } else {
      assert (Zeros(n) + s)[1..] == Zeros(n - 1) + s;
      ZerosAreDropped(n - 1, s);
    }
  }

  lemma {:induction false} LineLengthWithout(line: Bytes, rest: Bytes)
    requires NEWLINE !in line && (rest == [] || rest[0] == NEWLINE)
    ensures LineLength(line + rest) == |line|
  {
    if line == [] {
      assert line + rest == rest;
    } else {
      assert line[0] in line && (line + rest)[1..] == line[1..] + rest;
      LineLengthWithout(line[1..], rest);
    }
  }

  lemma RefusalLine(category: Bytes)
    ensures var frame := EncodeRefusal(category);
            if IsToken(category) && |category| == 10 then LineLength(frame) == 2 && frame[3..] == category
            else LineLength(frame) == |frame|
  {
    var frame := EncodeRefusal(category);
    if IsToken(category) {
      var tail := [|category|] + category;
      if |category| == 10 {
        LineLengthWithout(NO, tail);
      } else {
        LineLengthWithout(frame, []);
        assert frame + [] == frame;
      }
    } else {
      LineLengthWithout(frame, []);
      assert frame + [] == frame;
    }
  }

  /** A refusal ends with the stream, but for a token of ten bytes: its length byte ends the line. */
  lemma RefusalFirstLine(ticks: nat, category: Bytes)
    ensures FirstLine(Zeros(ticks) + EncodeRefusal(category), false)
            == if IsToken(category) && |category| == 10 then Line(NO, Some(category)) else Line(EncodeRefusal(category), None)
  {
    var frame := EncodeRefusal(category);
    RefusalRoundTrip(category);
    RefusalLine(category);
    ZerosAreDropped(ticks, frame);
    assert frame[..2] == NO;
  }

  /** A refusal after any number of keepalives is read as that refusal with its category, also when the
      length byte is the very byte that ends a line. */
  lemma RefusalAfterSignature<A>(ticks: nat, category: Bytes, text: Bytes -> string, parseAddr: string -> Option<A>)
    ensures Answered(Zeros(ticks) + EncodeRefusal(category), false, text, parseAddr)
            == Ok(Refused(if IsToken(category) then Some(category) else None))
  {
    RefusalFirstLine(ticks, category);
    RefusalRoundTrip(category);
  }

  /** What ends a line: a newline and whatever follows, or the end of the stream. */
  function Ended(after: Option<Bytes>): Bytes {
    match after case None => [] case Some(b) => [NEWLINE] + b
  }

  predicate IsAckLine(line: Bytes) {
    0 < |line| < CHANNEL_ACK_MAX_BYTES && line[0] != 0 && NEWLINE !in line
  }

  lemma LineSlices(line: Bytes, after: Option<Bytes>)
    ensures var s := line + Ended(after);
            && s[..|line|] == line
            && match after
               case None => s == line
               case Some(b) => |s| > |line| && s[|line| + 1..] == b
  {
  }

  lemma LineIsFirst(ticks: nat, line: Bytes, after: Option<Bytes>)
    requires IsAckLine(line)
    ensures FirstLine(Zeros(ticks) + (line + Ended(after)), false) == Line(line, after)
  {
    var s := line + Ended(after);
    LineSlices(line, after);
    assert DropZeros(Zeros(ticks) + s) == s by {
      ZerosAreDropped(ticks, s);
    }
    assert LineLength(s) == |line| by {
      LineLengthWithout(line, Ended(after));
    }
  }

  /** Any other line below the cap, ended by a newline or by the stream, is parsed as it stands, and
      nothing after its newline is looked at. */
  lemma LineIsParsed<A>(ticks: nat, line: Bytes, after: Option<Bytes>, text: Bytes -> string, parseAddr: string -> Option<A>)
    requires IsAckLine(line) && !(NO <= line)
    ensures Answered(Zeros(ticks) + (line + Ended(after)), false, text, parseAddr) == Ok(Meaning(text(line), parseAddr))
  {
    LineIsFirst(ticks, line, after);
  }

  /** Silence after the signature is a dropped leg, never a refusal. */
  lemma SilenceIsADroppedLeg<A>(ticks: nat, text: Bytes -> string, parseAddr: string -> Option<A>)
    ensures Answered(Zeros(ticks), false, text, parseAddr) == Err(DroppedLeg)
  {
    OnlyZeros(ticks);
  }

  lemma {:induction false} OnlyZeros(n: nat)
    ensures DropZeros(Zeros(n)) == []
  {
    if n > 0 {
      assert Zeros(n)[1..] == Zeros(n - 1);
      OnlyZeros(n - 1);
    }
  }

  // ---- The limits in plain numbers ----

  /** A token is one to 24 lowercase letters, digits and hyphens, by code. */
  lemma TokensAre(token: Bytes)
    ensures IsToken(token) <==>
              1 <= |token| <= 24 && forall i | 0 <= i < |token| ::
                48 <= token[i] <= 57 || 97 <= token[i] <= 122 || token[i] == 45
  {
    assert forall i | 0 <= i < |token| :: token[i] in token;
  }

  /** A refusal on the wire: `NO`, the length, the token. */
  lemma RefusalBytes(category: Bytes)
    ensures EncodeRefusal(category) == if IsToken(category) then [78, 79, |category|] + category else [78, 79]
  {
  }

  /** 32 bytes, or the first 32 of more, are a challenge, and nothing shorter is. */
  lemma ChallengesAre(stream: Bytes)
    ensures ReadOpening(stream).Challenge? <==> |stream| >= 32
    ensures |stream| >= 32 ==> ReadOpening(stream) == Challenge(stream[..32])
  {
  }

  /** An ack line may have up to 511 bytes. */
  lemma LongestLine(stream: Bytes)
    ensures FirstLine(stream, false).Overlong? <==> LineLength(DropZeros(stream)) >= 512
  {
  }
}

# A verified model of the channel plane and its clients

This project models, in Dafny, the parts of the tunnel's code whose correctness rests on
arithmetic, byte layouts, interleavings or time, and proves what that code is for.
`dafny verify dfyconfig.toml` checks all of it.

| file | models |
|---|---|
| `CivilDate.dfy`, `AccessWindow.dfy` | the access-window calendar: date conversion in both directions, weekly schedules that wrap midnight and Sunday, the next instant the state flips |
| `Bytes.dfy`, `Hex.dfy`, `Utf8.dfy` | byte strings, integers and UTF-8 on the wire, length-prefixed fields, hex |
| `SignedObjects.dfy`, `Codecs.dfy` | the signing preimages of twenty kinds of object, and the strict binary codecs |
| `Layouts.dfy`, `WireLayouts.dfy`, `ClaimsReader.dfy` | those preimages and wire forms once more, byte by byte with literal domains, tags and labels, and a reader of the signed text of grants |
| `StapleCaching.dfy`, `Marketplace.dfy` | the soft-state membership cache and the capacity ledger |
| `WebSocketFrames.dfy`, `WebSocketConnection.dfy`, `WebSocketStream.dfy` | WebSocket framing (RFC 6455, sections 5.2 and 5.3), the receiver with its queue of waiting readers, and the byte stream on top |
| `AppFrames.dfy` | length-prefixed frames, encrypted records, and the reassembly of a reply |
| `ChannelWire.dfy`, `AckReader.dfy` | the grammar of the admission ack, the refusal frame and the byte-wise reader |
| `Dial.dfy`, `DialOutcomes.dfy`, `DialSuccess.dfy`, `ConfiguredDial.dfy` | the two-hop dial against brokers that answer anything at any time, what the wire formats make of their answers, the runs that succeed, and the dial configured for a grant |
| `Ladder.dfy`, `LadderRace.dfy` | the transport ladder: order of attempts, cache, staggered race |
| `ForwardConn.dfy`, `DirectOrRelay.dfy` | the shared connection behind its lock; the race of direct path and relay |
| `Survey.dfy` | the liveness fixpoint of the reachability survey |

## Conventions

- ed25519 verification is any predicate on key, bytes and signature; SHA-256 is any function; a Noise
  session is a pair of functions that undo each other at the same message number. Nothing is
  claimed about their strength.
- Protocols with time or concurrency are step machines over integer clocks; peers, dial outcomes,
  deaths and polling order are arbitrary. Their theorems quantify over every run.
- Where the code loops over a buffer or updates fields, the model has a loop or a class, proved
  against a function of the inputs; the theorems are about that function.

## Findings

- **Hop budget.** `present_join` says that one hop shares a single 45 s budget. Two things escape it.
  The read of a refusal's tail has 2 s of its own (`crates/common/src/channel_wire/io.rs:256-296`), so a
  broker that ends the line `NO` at the last moment holds a hop for 47 s
  (`Dial.RefusalTailOutlastsTheHop`), possible exactly when that line ends later than 43 s into the hop
  (`Dial.TailOutlastsTheHopIff`). And the ack is read byte by byte, each read under the time that is left
  (`crates/common/src/channel_wire/io.rs:196-240`): after the deadline that is zero, but a byte that is
  ready is taken first, and leading zeros are not counted, so a broker that keeps a zero ready before
  every read holds the hop, and the call, for any length of time (`Dial.KeepalivesHoldTheHop`). A
  deadline is passed exactly when a turn of the loop was taken that ended after it
  (`Dial.PastDeadlineIff`, `Dial.EndsPastDeadlineIff`).
- **Call budget.** The same holds for the reply, whose loop takes records as long as one is ready: a peer
  that keeps empty records ready holds the call (`DialSuccess.HonestCallCanBeHeld`). If no turn takes more
  than `delta`, a run is over 135 s by at most 66570 turns and one for each keepalive or empty record
  that ran past a deadline (`Dial.OnlyIdleTurnsPassEveryBound`); if reads take no time it keeps 135 s
  (`Dial.PromptRunsKeepTheBudget`).
- **Attempt order.** `attempt_order` is a permutation of the ladder exactly when the rung it puts first
  is on the ladder once (`Ladder.OrderPermutesIff`); a ladder that names it twice loses one mention
  (`Ladder.RepeatedRungIsDropped`). The ladders the code builds are duplicate-free.
- **Request size.** `write_message` admits bodies up to 65535 bytes, but a request is framed and
  then sealed as one record, so the dialer can send only up to 65517 (`AppFrames.SendRequest`).
- **Staple cache.** The exactness of `is_member` needs one operator key per channel and a clock that
  does not run back. Without them a question leaves the later answers right exactly when it does not
  refuse a staple that is good under the channel's key now (`StapleCaching.AskIsHarmlessIff`), and a
  refresh exactly when the cache holds a longer staple, or takes in one that is authentic or replaces
  nothing good, or refuses one that is not good now (`StapleCaching.RefreshIsHarmlessIff`). Inputs that
  fail: a good staple asked for or presented under another key or at a later clock
  (`StapleCaching.ForeignKeyOrLateClockLoses`), and an inauthentic staple taken in under a foreign key,
  which also makes later good ones be dropped (`StapleCaching.InauthenticStapleShadows`).
- **Possession challenge.** The challenge is signed without a domain. The only objects whose preimages
  have its length are credentials with a tenant and an agent of two bytes together
  (`SignedObjects.OnlyCredentialsAreChallengeSized`).

## Model

| member | source | states |
|---|---|---|
| `CivilDate.DateRoundTrip` | crates/common/src/access_window.rs:258-289 | formatting undoes `days_from_civil` on every valid Gregorian date of every year |
| `CivilDate.DayRoundTrip` | crates/common/src/access_window.rs:258-289 | every day count gives a valid date that maps back to it |
| `CivilDate.NextDateIsNextDay` | crates/common/src/access_window.rs:280-289 | consecutive calendar dates in any year differ by exactly one day |
| `CivilDate.CivilFromDaysIsTheCalendar` | crates/common/src/access_window.rs:258-277 | the closed form is the calendar itself, turned day by day from 1970-01-01 |
| `CivilDate.StampNamesItsMinute` | crates/common/src/access_window.rs:258-277 | the printed date, hour and minute name the minute that holds the instant; instants before the epoch print the epoch |
| `AccessWindow.Slot.Validate` | crates/common/src/access_window.rs:63-81 | a slot is accepted exactly when day, start and end are in range and start differs from end |
| `AccessWindow.ContainsIsCovers` | crates/common/src/access_window.rs:88-113 | `contains` is the half-open `week_offsets` interval modulo the week, wrap included |
| `AccessWindow.OpenInPlainNumbers` | crates/common/src/access_window.rs:129-147 | open exactly when some valid slot covers the local time in some week, counted in seconds from a Monday three days before the epoch, with the offset ahead of UTC |
| `AccessWindow.WeeksStartOnMonday` | crates/common/src/access_window.rs:134-140 | that Monday is 1969-12-29 of the calendar |
| `AccessWindow.OpenIsWeekly` | crates/common/src/access_window.rs:129-147 | the schedule's state depends only on the position in the week |
| `AccessWindow.QuietWeekIsForever` | crates/common/src/access_window.rs:142-181 | a state that holds for a week holds for ever, also where the clock saturates |
| `AccessWindow.FirstFlipIsACandidate` | crates/common/src/access_window.rs:150-181 | the first flip of the week is always among the slot boundaries that are considered |
| `AccessWindow.OccurrenceAfter` | crates/common/src/access_window.rs:150-181 | the two adjusting loops find the next recurrence of a boundary after now, without overflow |
| `AccessWindow.Candidates` | crates/common/src/access_window.rs:150-181 | the nested loops collect exactly the next recurrences of the boundaries of all valid slots |
| `AccessWindow.NextChange` | crates/common/src/access_window.rs:150-181 | returns the least later instant at which `is_open` differs from now, and `None` exactly when it never does |
| `AccessWindow.PolicyInPlainNumbers` | crates/common/src/access_window.rs:215-229 | a policy is open exactly before its expiry and while its schedule is |
| `AccessWindow.PolicyNextChange` | crates/common/src/access_window.rs:215-251 | the same for every combination of expiry and schedule |
| `AccessWindow.IterationListsEveryTransition` | crates/common/src/access_window.rs:235-251 | iterating it lists every transition once and in order, and all of them when it ends in `None` |
| `Hex.Encode` | crates/common/src/hex.rs:8-16 | the loop writes two lowercase digits a byte, high nibble first |
| `Hex.DecodeOfHex` | crates/common/src/hex.rs:8-26 | decoding undoes encoding |
| `Hex.DecodeIsStrict` | crates/common/src/hex.rs:19-47 | exactly the even-length strings of hex digits are accepted, and re-encoding gives their lowercase form |
| `Layouts.HexIsHexChars` | crates/common/src/hex.rs:8-16 | the digits by code: 48 to 57 and 97 to 102, high half first |
| `Layouts.DecimalHasNoLeadingZero` | crates/common/src/channel.rs:257-269 | numbers in signed text have no leading zero |
| `Utf8.Utf8Iff` | crates/common/src/channel.rs:2141-2181 | the UTF-8 check of the decoders accepts exactly the encodings of sequences of Unicode scalar values |
| `SignedObjects.ClaimsAreReadable` | crates/common/src/channel.rs:257-269 | the bar-separated hex and decimal text of a grant or invitation determines all six claims |
| `SignedObjects.BindingIsReadable` | crates/common/src/agent_binding.rs:93-101 | an agent binding's preimage determines the binding |
| `SignedObjects.KindsAreSeparated` | crates/common/src/preimage.rs:53-98 | equal preimages have the same kind, across the length-prefixed, text and raw-domain styles |
| `SignedObjects.SigningBytesAreInjective` | crates/common/src/channel.rs:848-964 | a preimage determines its kind and every field, for all twenty kinds: cards with lists inside lists, offers and bids with custom services, receipts, grants and the others |
| `Layouts.SigningBytesAreLaidOut` | crates/common/src/channel.rs:3105-3209 | every preimage of the twenty kinds is its literal domain, lengths, tags, labels and fields in the order of the source |
| `ClaimsReader.GrantIsReadBack` | crates/common/src/channel.rs:257-269 | a reader that splits a grant's signed text at the bars and matches the literal labels gets exactly its claims |
| `ClaimsReader.InvitationIsReadBack` | crates/common/src/channel.rs:2669-2681 | the same of invitations |
| `Layouts.LeIsLe64` | crates/common/src/preimage.rs:68-78 | integers go low byte first |
| `SignedObjects.OnlyCredentialsAreChallengeSized` | crates/common/src/channel_wire/io.rs:155-168 | the raw 32-byte possession challenge can be the preimage of no object but a credential whose tenant and agent have two bytes together |
| `SignedObjects.AppendCard` | crates/common/src/channel.rs:1546-1583 | the builder's nested loops write the card's fields in the layout the injectivity is proved of |
| `SignedObjects.CardSigningBytes` | crates/common/src/channel.rs:1546-1583 | the whole card preimage, built step by step, is the signed bytes of that object |
| `SignedObjects.AppendOffer` | crates/common/src/channel.rs:1793-1827 | the same for offers, with the tagged service list |
| `SignedObjects.OfferSigningBytes` | crates/common/src/channel.rs:1793-1827 | the whole offer preimage, built step by step, is the signed bytes of that object |
| `Codecs.EncodeClaims` | crates/common/src/channel.rs:312-331 | the grant encoding is its layout, 139 bytes |
| `Codecs.DecodeClaims` | crates/common/src/channel.rs:334-372 | decoding succeeds with x exactly when the bytes are the encoding of x; grants and invitations share the layout |
| `WireLayouts.ClaimsRecord` | crates/common/src/channel.rs:312-323 | the grant's bytes field by field: directions 1 to 3, rights 1 to 3, flag 0 or 1 |
| `Codecs.EncodeJoin` | crates/common/src/channel.rs:525-529 | the join request is the grant and the endpoint |
| `Codecs.DecodeJoin` | crates/common/src/channel.rs:533-547 | decoding succeeds with x exactly when the bytes are the encoding of x and its endpoint is not empty |
| `Codecs.EncodeStaple` | crates/common/src/channel.rs:997-1008 | the staple encoding is its layout |
| `Codecs.DecodeStaple` | crates/common/src/channel.rs:1011-1039 | decoding succeeds with x exactly when the bytes are the encoding of x |
| `WireLayouts.StapleRecord` | crates/common/src/channel.rs:997-1005 | the staple's bytes field by field |
| `Codecs.EncodeReceipt` | crates/common/src/channel.rs:2122-2138 | the receipt encoding is its layout |
| `Codecs.DecodeReceipt` | crates/common/src/channel.rs:2141-2181 | decoding succeeds with x exactly when the bytes are the encoding of x |
| `WireLayouts.ReceiptRecord` | crates/common/src/channel.rs:2122-2136 | the receipt's bytes field by field |
| `Codecs.EncodeCredential` | crates/common/src/credential.rs:81-93 | the credential encoding is its layout |
| `Codecs.DecodeCredential` | crates/common/src/credential.rs:96-129 | decoding succeeds with x exactly when the bytes are the encoding of x |
| `WireLayouts.CredentialRecord` | crates/common/src/credential.rs:81-92 | the credential's bytes field by field |
| `Codecs.EncodeBinding` | crates/common/src/agent_binding.rs:125-139 | the binding encoding is its layout, 148 bytes and the tunnel id |
| `Codecs.DecodeBinding` | crates/common/src/agent_binding.rs:142-189 | decoding succeeds with x exactly when the bytes are the encoding of x and its tunnel id has at most 128 bytes; exactly when the over-long error is returned |
| `WireLayouts.BindingRecord` | crates/common/src/agent_binding.rs:125-135 | the binding's bytes field by field |
| `WireLayouts.TunnelIdCap` | crates/common/src/agent_binding.rs:32-35 | the two caps are 512 and 128 bytes |
| `StapleCaching.StapleCache.Refresh` | crates/common/src/channel.rs:1079-1100 | accepts exactly authentic unexpired staples and keeps the one that lasts longer |
| `StapleCaching.StapleCache.IsMember` | crates/common/src/channel.rs:1105-1121 | answers by the cached staple and evicts it when it no longer holds |
| `StapleCaching.StepKeepsRefinement` | crates/common/src/channel.rs:1079-1121 | each call keeps the cache a refinement of the set of all staples presented |
| `StapleCaching.RunRefines` | crates/common/src/channel.rs:1079-1121 | so does every run with one key per channel and a clock that does not run back |
| `StapleCaching.MembershipIsExact` | crates/common/src/channel.rs:1105-1121 | `is_member` holds exactly when some authentic staple presented for the pair is unexpired |
| `StapleCaching.OnlySignedStaplesAdmit` | crates/common/src/channel.rs:1079-1121 | the same with the signature check and the strict expiry spelled out |
| `StapleCaching.GossipOrderIsIrrelevant` | crates/common/src/channel.rs:1065-1121 | two nodes that saw the same staples in any order give the same answers |
| `StapleCaching.RefinesIsExact` | crates/common/src/channel.rs:1105-1121 | a cache that refines the set of staples answers right from now on |
| `StapleCaching.AskIsHarmlessIff` | crates/common/src/channel.rs:1105-1121 | under any key and clock, a question keeps all later answers right exactly when it does not refuse a staple that is good under the channel's key now |
| `StapleCaching.RefreshRefinesIff` | crates/common/src/channel.rs:1079-1100 | under any key and clock, a refresh keeps the refinement exactly when what it takes is authentic and what it refuses is not good now, or a longer staple is held |
| `StapleCaching.RefreshIsHarmlessIff` | crates/common/src/channel.rs:1079-1100 | under any key and clock, a refresh keeps all later answers right exactly when a longer staple is held, or what it takes is authentic or replaces nothing good, or what it refuses is not good now |
| `StapleCaching.AcceptedRefreshIsHarmlessIff` | crates/common/src/channel.rs:1079-1100 | the same of a staple that is taken in |
| `StapleCaching.RefusedRefreshIsHarmlessIff` | crates/common/src/channel.rs:1079-1100 | the same of a staple that is refused |
| `StapleCaching.InauthenticStapleShadows` | crates/common/src/channel.rs:1079-1121 | an inauthentic staple taken in under a foreign key makes later good ones that do not outlast it be dropped and the member refused |
| `StapleCaching.ForeignKeyOrLateClockLoses` | crates/common/src/channel.rs:1079-1121 | a good staple is evicted by a question, and lost by a refresh, under any key and clock for which it is not good |
| `Marketplace.MatchOffer` | crates/common/src/channel.rs:2547-2591 | clears exactly the pairs that are both valid and compatible, for their parties on the bid's terms, under the hash of both |
| `Marketplace.MatchInPlainTerms` | crates/common/src/channel.rs:2547-2591 | the same with every check spelled out |
| `WireLayouts.MatchRecord` | crates/common/src/channel.rs:2516-2539 | the bytes under a match reference field by field |
| `Marketplace.MatchPreimageIsInjective` | crates/common/src/channel.rs:2547-2598 | the bytes hashed into `match_ref` determine parties, terms and both issue times |
| `Marketplace.OfferCommitments.Commit` | crates/common/src/channel.rs:2624-2634 | books exactly the requests that fit, and changes only this offer's tally |
| `Marketplace.LedgerIsExact` | crates/common/src/channel.rs:2601-2634 | over any mix of requests each tally is the first-come booking of that offer's requests alone, and committed plus remaining is conserved |
| `Marketplace.NeverOversold` | crates/common/src/channel.rs:2547-2634 | bids cleared and then committed never exceed the advertised units; what is sold is what the ledger gained |
| `WebSocketFrames.MaskedTwice` | scripts/e2e-video-call/ws-byte-stream.js:115-117 | masking and unmasking are one operation, its own inverse |
| `WebSocketFrames.XorIsBitwise` | scripts/e2e-video-call/ws-byte-stream.js:115-117 | each of the eight bits of a masked byte is set exactly when those of the payload and the key differ |
| `WebSocketFrames.SendBinary` | scripts/e2e-video-call/ws-byte-stream.js:127-149 | writes a final binary frame with the right length form, the mask key, and the payload exclusive-ored with it bit by bit |
| `WireLayouts.BinaryRecord` | scripts/e2e-video-call/ws-byte-stream.js:127-149 | that frame byte by byte: 0x82, the mask bit with the length in one of three forms, high byte first |
| `WireLayouts.WebSocketRecord` | scripts/e2e-video-call/ws-byte-stream.js:90-121 | every frame byte by byte |
| `WebSocketFrames.ParseTakesTheFrame` | scripts/e2e-video-call/ws-byte-stream.js:90-121 | whatever follows it, a frame is taken off the buffer whole and unmasked |
| `WebSocketFrames.PayloadIsUnmasked` | scripts/e2e-video-call/ws-byte-stream.js:107-117 | a parsed payload is the bytes on the wire exclusive-ored bit by bit with their mask bytes |
| `WebSocketFrames.ParseIsStable` | scripts/e2e-video-call/ws-byte-stream.js:90-121 | what has been parsed does not change when more bytes arrive |
| `WebSocketFrames.DrainInInstalments` | scripts/e2e-video-call/ws-byte-stream.js:68-81 | draining in two instalments is draining once |
| `WebSocketFrames.DrainReadsTheWire` | scripts/e2e-video-call/ws-byte-stream.js:68-121 | draining the bytes of any frames but close frames yields all their payloads in order and nothing left over |
| `WebSocketFrames.DrainStopsAtClose` | scripts/e2e-video-call/ws-byte-stream.js:68-81 | a close frame stops the draining behind the payloads before it |
| `WebSocketConnection.WsConn.constructor` | scripts/e2e-video-call/ws-byte-stream.js:50-67 | a new connection has drained the bytes after the handshake |
| `WebSocketConnection.WsConn.OnData` | scripts/e2e-video-call/ws-byte-stream.js:56-59 | a chunk is one step of the machine |
| `WebSocketConnection.WsConn.OnEnd` | scripts/e2e-video-call/ws-byte-stream.js:60-65 | so is the socket's end |
| `WebSocketConnection.WsConn.DrainFrames` | scripts/e2e-video-call/ws-byte-stream.js:68-81 | the loop queues the messages of all complete frames and stops at a close frame |
| `WebSocketConnection.WsConn.Wake` | scripts/e2e-video-call/ws-byte-stream.js:82-89 | messages go to waiters in order, and null to the rest once closed |
| `WebSocketConnection.WsConn.TryParseFrame` | scripts/e2e-video-call/ws-byte-stream.js:90-121 | parses one frame and drops exactly its bytes, or changes nothing |
| `WebSocketConnection.WsConn.NextMessage` | scripts/e2e-video-call/ws-byte-stream.js:122-126 | answers from the queue, with null when closed, or waits |
| `WebSocketConnection.WakingSettles` | scripts/e2e-video-call/ws-byte-stream.js:82-89 | after waking, nobody waits while a message is queued or the connection is closed, and the accounts still hold |
| `WebSocketConnection.ChunkingIsInvisible` | scripts/e2e-video-call/ws-byte-stream.js:49-126 | in every run with no data after the close, the connection is as if all bytes had come at once |
| `WebSocketConnection.ClosedIffEnded` | scripts/e2e-video-call/ws-byte-stream.js:60-81 | without a close frame the connection is closed exactly when the socket has ended |
| `WebSocketConnection.PayloadsArriveInOrder` | scripts/e2e-video-call/ws-byte-stream.js:49-126 | every cut into chunks, every interleaving: the i-th call gets the i-th payload, null only after the end, messages and waiters are never both there |
| `WebSocketConnection.SentIsReceived` | scripts/e2e-video-call/ws-byte-stream.js:49-149 | what `sendBinary` wrote with any keys is received piece by piece, then null |
| `WebSocketConnection.CloseFrameCloses` | scripts/e2e-video-call/ws-byte-stream.js:68-126 | once a close frame is read every call is answered, with the payloads before it and then null |
| `WebSocketStream.WsByteStream.constructor` | scripts/e2e-video-call/ws-byte-stream.js:155-159 | all messages the connection will deliver are still to be read |
| `WebSocketStream.WsByteStream.AwaitMessage` | scripts/e2e-video-call/ws-byte-stream.js:122-126 | the k-th `nextMessage` of the stream gets the k-th message of the connection, or null past the last, whenever the chunks arrive |
| `WebSocketStream.WsByteStream.ReadExact` | scripts/e2e-video-call/ws-byte-stream.js:160-169 | takes the next n of the bytes the connection will deliver, or fails exactly when there are fewer and loses nothing |
| `WebSocketStream.WsByteStream.ReadLine` | scripts/e2e-video-call/ws-byte-stream.js:170-182 | takes up to and with the first newline of those bytes, or fails exactly when there is none |
| `WebSocketStream.WsByteStream.ReadAll` | scripts/e2e-video-call/ws-byte-stream.js:160-182 | any list of reads returns what the bytes still to come serve, in order |
| `WebSocketStream.ReadsAreConsecutive` | scripts/e2e-video-call/ws-byte-stream.js:155-182 | what is served are consecutive slices, of the asked length or up to the first newline |
| `WebSocketStream.AnswerIsFinal` | scripts/e2e-video-call/ws-byte-stream.js:82-126 | a message handed out early is the one of the whole stream, and null comes only past its last |
| `WebSocketStream.WritesAreReadBack` | scripts/e2e-video-call/ws-byte-stream.js:49-186 | end to end: for all pieces, mask keys, chunks, arrival times and reads, the reads return what the concatenation of the pieces serves |
| `AppFrames.TakeFrameOfFrame` | crates/common/src/noise.rs:182-200 | a frame is taken back exactly when its body fits the 16-bit prefix |
| `WireLayouts.FrameRecord` | crates/common/src/noise.rs:182-187 | two length bytes, high byte first, and the body |
| `AppFrames.WriteMessage` | crates/common/src/a2a.rs:417-445 | refuses exactly the bodies over 65535 bytes; the prefix written is never truncated |
| `AppFrames.A2aSend` | crates/common/src/a2a.rs:302-323 | refuses exactly the plaintexts over 65519 bytes; the record's prefix is never truncated |
| `AppFrames.SendRequest` | crates/common/src/channel_dial.rs:400-407 | framing and sealing together admit exactly the requests up to 65517 bytes |
| `AppFrames.A2aRecv` | crates/common/src/a2a.rs:326-335 | takes the next record off the wire, or fails exactly when it is incomplete or does not decrypt |
| `AppFrames.RecvAppFrame` | crates/common/src/channel_dial.rs:451-463 | the body returned depends on the plaintext bytes alone, not on how they are cut into records |
| `AppFrames.RecordsOfSealedWire` | crates/common/src/a2a.rs:302-335 | records arrive one for one, empty ones included, whatever follows |
| `AppFrames.ReplyIsReassembled` | crates/common/src/channel_dial.rs:451-463 | for every body up to 65535 bytes, every split and any trailing bytes, the reader gets exactly the body |
| `AppFrames.CutReplyIsRefused` | crates/common/src/channel_dial.rs:451-463 | a stream that ends before the frame is whole gives an error, never a shorter body |
| `ChannelWire.ParseChannelAck` | crates/common/src/channel_wire.rs:284-334 | the token loop computes the meaning of an ack line |
| `ChannelWire.WordsOfSpread` | crates/common/src/channel_wire.rs:284-334 | splitting finds the words whatever white space lies between them |
| `ChannelWire.OkLineIsRecovered` | crates/common/src/channel_wire.rs:284-334 | for every `OK` line whose words without an equals sign are the endpoint and the printed triple, in line order, those and the last `r=` address come back exactly |
| `ChannelWire.UnknownTagIsIgnored` | crates/common/src/channel_wire.rs:284-334 | a tagged word other than `r=` can be added anywhere without effect |
| `ChannelWire.TheReflexiveWordIsFound` | crates/common/src/channel_wire.rs:284-334 | the address behind the last `r=` is the one parsed, wherever the word stands |
| `ChannelWire.NoReflexiveWord` | crates/common/src/channel_wire.rs:284-334 | without such a word there is no address |
| `ChannelWire.EveryLineIsClassified` | crates/common/src/channel_wire.rs:284-334 | a line is an expiry exactly when it is `EX` within white space, an admission exactly when it starts with `OK`, else a refusal without category |
| `ChannelWire.SpacesAre` | crates/common/src/channel_wire.rs:284-334 | the white space characters by code |
| `AckReader.DecodeCategoryIsExact` | crates/common/src/channel_wire.rs:263-281 | decoding yields exactly the tokens framed with their own length |
| `AckReader.RefusalRoundTrip` | crates/common/src/channel.rs:460-502 | a refusal is shorter than a challenge, and its category comes back exactly when it is token-shaped |
| `AckReader.TokensAre` | crates/common/src/channel.rs:460-464 | a token is one to 24 lowercase letters, digits and hyphens, by code |
| `AckReader.RefusalBytes` | crates/common/src/channel.rs:474-487 | a refusal byte by byte |
| `AckReader.ChallengesAre` | crates/common/src/channel_wire/io.rs:130-154 | 32 bytes are a challenge, nothing shorter is |
| `AckReader.LongestLine` | crates/common/src/channel_wire/io.rs:222-232 | exactly lines of 512 bytes and more are too long |
| `AckReader.RefusalBeforeChallenge` | crates/common/src/channel_wire/io.rs:130-158 | a refusal in place of the challenge is never taken for one |
| `AckReader.ReadAck` | crates/common/src/channel_wire/io.rs:190-248 | the byte loop reads the first line after the keepalive zeros, with the 512-byte cap and the park-expiry close |
| `AckReader.RefusalAfterSignature` | crates/common/src/channel_wire/io.rs:190-296 | after any number of keepalives a refusal is read with its category, also when the length byte is a newline |
| `AckReader.LineIsParsed` | crates/common/src/channel_wire/io.rs:190-268 | any other line below the cap is parsed as it stands, and nothing after its newline is looked at |
| `AckReader.SilenceIsADroppedLeg` | crates/common/src/channel_wire/io.rs:251-255 | keepalives and then nothing is a dropped leg, never a refusal |
| `Dial.ErrorNamesParkExpiry` | crates/common/src/channel_wire.rs:213-233 | true exactly when some text of the error chain names the park expiry |
| `Dial.StepKeepsInv` | crates/common/src/channel_dial.rs:277-417 | every step of the client against any broker keeps to the script, and past its deadline only by what its reads took |
| `Dial.EveryRunIsSafe` | crates/common/src/channel_dial.rs:311-417 | in every run: the relay is dialed only after hop 1 admitted with a triple that verifies for the grant's channel, the Noise key is hop 1's, session bytes go only on a fresh relay stream, and the clock stays within 135 s and what reads took past their deadlines |
| `ConfiguredDial.EveryConfiguredRunIsGated` | crates/common/src/channel_dial.rs:259-352 | in every run for a grant nothing but the broker is dialed, no handshake started and no call sent before the first hop named a holder whose signature over its attestation for the grant's channel verifies; the handshake uses the attested key |
| `ConfiguredDial.TheRequestIsAJoin` | crates/common/src/channel_dial.rs:320-327 | the request is the join of this grant with the endpoint `relay-only` |
| `ConfiguredDial.JoinsAre` | crates/common/src/channel_wire/io.rs:100-112 | each hop sends it behind 0xFF, its marker and the length, byte by byte |
| `ConfiguredDial.ChallengeIsSigned` | crates/common/src/channel_wire/io.rs:155-174 | the first 32 bytes of the answer are signed, on the stream of the join, which is then finished |
| `ConfiguredDial.EachStageHasItsAllowance` | crates/common/src/channel_dial.rs:157-173 | 45 s a hop, 2 s a refusal's tail, 15 s the session stream, 10 s the handshake, 20 s the call, each from its start |
| `ConfiguredDial.AllowancesAddUp` | crates/common/src/channel_dial.rs:157-173 | the sum of two hops, session stream, handshake and call is 135 s |
| `ConfiguredDial.ParkExpiryIsNoPeer` | crates/common/src/channel_dial.rs:240-251 | an error whose chain holds `park-expired` is reported as no peer |
| `ConfiguredDial.OtherErrors` | crates/common/src/channel_dial.rs:240-251 | any other error of the exchange is a session error, a dropped leg or a timeout |
| `ConfiguredDial.FailuresAreReported` | crates/common/src/channel_dial.rs:277-417 | what a failed wait in each phase ends in |
| `ConfiguredDial.AnswersAreReported` | crates/common/src/channel_wire/io.rs:130-268 | park expiry is no peer, an overlong line or a broken answer a session error, an empty answer a refusal |
| `Dial.HopsPresentTheSameRequest` | crates/common/src/channel_dial.rs:320-327 | both hops send the same relay-only request under markers 1 and 2, and the preamble cannot be a length |
| `Dial.PastDeadlineIff` | crates/common/src/channel_wire/io.rs:196-240 | in every run and every phase the deadline is passed exactly when some turn of the present loop was taken, its byte or record being ready, that ended after it |
| `Dial.EndsPastDeadlineIff` | crates/common/src/channel_dial.rs:220-298 | the same of the step that ends a hop or any other phase, wherever it leads |
| `Dial.OnlyIdleTurnsPassEveryBound` | crates/common/src/channel_dial.rs:157-173 | if no turn takes more than `delta`, the clock stays within 135 s, 66570 turns, and one turn for each keepalive or empty record that ran past a deadline |
| `Dial.PromptRunsKeepTheBudget` | crates/common/src/channel_dial.rs:157-173 | if reads take no time, every run keeps 135 s and every hop 45 s |
| `Dial.KeepalivesHoldTheHop` | crates/common/src/channel_wire/io.rs:196-240 | for every length of time, a run in which keepalive zeros hold the first hop that long past its 45 s |
| `Dial.EmptyRecordsHoldTheCall` | crates/common/src/channel_dial.rs:451-463 | from every wait for a reply, a run in which empty records prolong it by any length of time |
| `DialSuccess.HonestCallCanBeHeld` | crates/common/src/channel_dial.rs:451-463 | such a wait exists: after two honest admissions empty records hold the call any length of time past 135 s |
| `DialSuccess.HonestCallSucceeds` | crates/common/src/channel_dial.rs:311-417 | for every honest ack and every body up to 65535 bytes, in any records, some run returns that body |
| `DialSuccess.ReadingIsARun` | crates/common/src/channel_wire/io.rs:190-268 | reading a stream to the ack's end is a sequence of possible steps |
| `Dial.RefusalTailOutlastsTheHop` | crates/common/src/channel_wire/io.rs:276-296 | a run with prompt reads in which the first hop lasts 47 s |
| `Dial.TailIsBounded` | crates/common/src/channel_wire/io.rs:276-296 | in every run a refusal's tail is over within 2 s of its line, answered or not |
| `Dial.TailOutlastsTheHopIff` | crates/common/src/channel_wire/io.rs:256-296 | some continuation ends such a hop after its 45 s exactly when the line ended later than 43 s into it |
| `Dial.SilenceEndsTheCall` | crates/common/src/channel_dial.rs:157-173 | from any point silence ends the call at the phase's deadline, or at once past it, with a timeout or a refusal |
| `Dial.RunsAreFinite` | crates/common/src/channel_dial.rs:311-417 | whatever is sent, no run has more than 66570 steps besides waiting, keepalives and empty records |
| `Dial.AReplyTookEveryStep` | crates/common/src/channel_dial.rs:311-417 | a reply is returned only by a run whose actions are the whole script: both hops admitted, the first triple verified, handshake under its key, call on the session stream |
| `DialOutcomes.ReadingIsFirstLine` | crates/common/src/channel_wire/io.rs:190-268 | the machine's byte-wise steps take from any stream its first line after the keepalives, and act on that |
| `DialOutcomes.RefusalAtTheDoor` | crates/common/src/channel_wire/io.rs:130-147 | a refusal in place of the challenge ends the call with its category, on either hop |
| `DialOutcomes.RefusalReachesTheCaller` | crates/common/src/channel_dial.rs:332-364 | a refusal after the signature ends the call with its category, at once or after its tail |
| `DialOutcomes.FirstAdmissionIsChecked` | crates/common/src/channel_dial.rs:332-350 | an `OK` line at hop 1 leads to the relay, pinned to the printed key, exactly when its triple verifies for the channel |
| `ConfiguredDial.FirstAdmissionNeedsTheSignature` | crates/common/src/channel_dial.rs:332-352 | the same with the signature check spelled out: a forged or missing attestation ends the call |
| `DialOutcomes.SecondAdmissionKeepsTheKey` | crates/common/src/channel_dial.rs:358-364 | an `OK` line at hop 2 leads to the session whatever triple it prints, and leaves the key alone |
| `DialOutcomes.SilentLegIsDropped` | crates/common/src/channel_dial.rs:240-251 | silence after the signature is a dropped leg under the hop's own name |
| `Ladder.DefaultLadder` | crates/client/src/ladder.rs:35-43 | duplicate-free for every port, the edge's own port first |
| `Ladder.TheRungs` | crates/client/src/ladder.rs:35-43 | QUIC before TLS-TCP, the edge's port before the front door |
| `Ladder.FilteredLadder` | crates/client/src/ladder.rs:165-174 | with TCP forced exactly the TCP rungs stay |
| `Ladder.LadderCache.Remember` | crates/client/src/ladder.rs:64-66 | changes this network's entry only |
| `Ladder.LadderCache.AttemptOrder` | crates/client/src/ladder.rs:73-86 | the remembered rung first if it is on the ladder, else the ladder's first, then the others in order |
| `Ladder.RememberedComesFirst` | crates/client/src/ladder.rs:73-86 | the first rung tried is the remembered one while it is on the ladder |
| `Ladder.OthersKeepTheirOrder` | crates/client/src/ladder.rs:73-86 | of a duplicate-free ladder the others follow in its own order |
| `Ladder.OrderPermutesIff` | crates/client/src/ladder.rs:73-86 | a permutation exactly when the rung tried first is on the ladder once |
| `Ladder.DistinctLadderIsPermuted` | crates/client/src/ladder.rs:73-86 | a permutation of every duplicate-free ladder |
| `Ladder.ForgottenOrderIsTheLadder` | crates/client/src/ladder.rs:73-86 | an unknown network or a stale rung leaves the ladder as it is |
| `Ladder.RepeatedRungIsDropped` | crates/client/src/ladder.rs:73-86 | a ladder that names its first rung twice is not permuted |
| `Ladder.ConnectViaLadder` | crates/client/src/ladder.rs:128-160 | the winner's completion time is minimal among the successes, exhaustion exactly when all fail and at the last failure, and only the winner enters the cache at this network |
| `Ladder.StaggerIsAQuarterSecond` | crates/client/src/ladder.rs:96 | positions start 250 ms apart |
| `Ladder.EndingIsDetermined` | crates/client/src/ladder.rs:128-160 | the dials fix how and when the race ends, up to simultaneous winners |
| `LadderRace.StepKeepsInv` | crates/client/src/ladder.rs:97-160 | no rung starts or completes early or late, whatever is polled first |
| `LadderRace.RaceIsNeverBlocked` | crates/client/src/ladder.rs:128-160 | until the race is over some step is possible |
| `LadderRace.EveryRunEndsRight` | crates/client/src/ladder.rs:128-160 | every run that is over ended as specified, and started no rung whose offset lies after the win |
| `LadderRace.EveryRaceEnds` | crates/client/src/ladder.rs:88-160 | no run outlasts a connecting rung's completion, or the last failure |
| `ForwardConn.SharedConn.ClientForwardConn` | crates/client/src/transport.rs:386-403 | one call is its protocol steps: reuse when open, else dial and cache, or fail and leave the cache |
| `ForwardConn.StepKeepsInv` | crates/client/src/transport.rs:386-403 | every step keeps the lock exclusive and all but the last dialed connection dead |
| `ForwardConn.DialsNeverOverlap` | crates/client/src/transport.rs:386-403 | in every interleaving no task dials or checks while another dials |
| `ForwardConn.RedialsNeedDeaths` | crates/client/src/transport.rs:386-403 | after n successful dials at least n - 1 connections have died, and a redial starts only when all have |
| `ForwardConn.NoDeathsOneConnection` | crates/client/src/transport.rs:426-466 | while none dies, all tasks share one connection |
| `ForwardConn.ReturnedConnectionWasOpen` | crates/client/src/transport.rs:386-403 | each returned connection was open when checked, or was just dialed by that task |
| `ForwardConn.SomeTaskCanProceed` | crates/client/src/transport.rs:426-466 | while a task is unfinished some task can take a step |
| `ForwardConn.EveryTaskIsShort` | crates/client/src/transport.rs:386-403 | no task takes more than three steps, nor more than two with the lock, so it is always released |
| `ForwardConn.CallsEnd` | crates/client/src/transport.rs:426-466 | in every run the steps of all tasks are at most three for each accepted connection |
| `DirectOrRelay.Race` | crates/client/src/transport.rs:692-718 | polling at every instant returns the first direct success no later than the relay's end, else the relay's result, and opens no relay stream before the head start is over |
| `DirectOrRelay.RaceInPlainNumbers` | crates/client/src/transport.rs:676-719 | the result from the two paths, the timeout and 75 ms alone |
| `DirectOrRelay.P2pOrRelay` | crates/client/src/transport.rs:676-719 | returns within the head start and the timeout, and succeeds whenever the relay would |
| `DirectOrRelay.RaceIsSafe` | crates/client/src/transport.rs:676-719 | `used_direct` exactly for a direct success that came first; fails exactly when neither path answers in time |
| `DirectOrRelay.RaceBeatsFallback` | crates/client/src/transport.rs:643-675 | a failed direct attempt of at least the head start never makes the race later than trying both in turn |
| `DirectOrRelay.TunnelAuto` | crates/client/src/transport.rs:611-632 | bounded by two timeouts and the head start, whatever the query, the direct path and the relay do |
| `Survey.FindLive` | scripts/reachability-survey.py:170-184 | ends, and finds exactly the symbols that a chain of calls reaches from outside or from `main` |
| `Survey.ReachableIsLeast` | scripts/reachability-survey.py:170-184 | the reachable symbols are inside every set closed under the loop's step |
| `Survey.ScanOrderIsIrrelevant` | scripts/reachability-survey.py:170-184 | the result is closed, and the same in whatever order the dictionary is scanned |

## Left out

- AccessWindow.NextChange: asks that the instant lie two weeks inside the 64-bit range, where no addition can saturate or overflow.
- AccessWindow.PolicyNextChange: asks the same of an instant before the expiry when there is a schedule.
- AccessWindow.Candidates: asks the same.
- AccessWindow.OccurrenceAfter: asks the same of the local instant.
- Dial.MapJoinError: the exchange's stall is a constructor, where the code recognises it by its text.
- Dial.EveryRunIsSafe: the runtime is prompt: timers fire on time and what has arrived is taken up at once; only the two loops that read as long as something is ready, ack bytes and reply records, take time. Parsing of the JSON reply is outside; a run ends with the reply's bytes.
- WebSocketStream.WsByteStream.ReadLine: returns the line's bytes; the UTF-8 decoding is a library call.
- WebSocketStream.WritesAreReadBack: the stream is the only reader of its connection, as in the code; the socket ends after its last chunk.
- WebSocketConnection.PayloadsArriveInOrder: is about frames other than close frames; fragmentation, ping and pong are not implemented by the code, and what arrives after a close frame depends on the chunks.
- LadderRace.EveryRunEndsRight: the runtime is prompt: time passes only when no future is ready.
- DirectOrRelay.Race: the runtime is prompt: both futures are polled at every instant.
- Sockets, QUIC and TLS setup, certificate checks and task scheduling: only success, failure and duration are kept.
- Cryptographic strength: no statement about forgery or collisions.
- Signed fields and lists of 2^32 bytes or entries and more, where a 32-bit length prefix would wrap.
- JSON forms, display texts, environment variables and file reading.
- The keepalive mode of the admission exchange and the relay leg that carries its session on the admission stream: this caller uses neither.
- Replay checks and issuer lists (`verify_fresh`, `verify_binding`): guards around the codecs and preimages modelled here.
- The objects that `settlement.rs` signs; of the settlement side only billing commitments and settle receipts are among the twenty kinds, and of those only the preimages.
- `elect_superpeers`, the address-range tables, and the scanners of the survey script: they would add only easy members.

# Verified models of SENN's peer session, signalling and gates

This project models the parts of SENN with the most state and arithmetic and proves
what they promise, for all inputs and all runs. It is a set of Dafny modules, one
per component; `dafny verify dfyconfig.toml` checks all of them.

**Binary transport** (`BinarySender`, `FrameCodec`, `JsonHeader`, `Reassembly`,
`ReassemblyInvariant`, `BinaryReceiver`, `ReassemblyRuns`, `ReassemblySteps`,
`EndToEnd`, `RepeatedFrames`). A message of
up to 4 MiB is cut into frames, each frame is laid out as length, JSON header and
body, and the other side reassembles many interleaved messages in one map under a
cap for each message, a budget for the peer and a timeout. `Reassembly` says what a
step does to the table as a value; `BinaryReceiver` is the object with its redundant
counters and its timer, every handler proved to do that; the other modules prove what
each step means for the slots and what the steps add up to. `JsonHeader` is JSON and
UTF-8 as far as headers need them. The clock is an argument of the handlers, and the reported
events are recorded.

**Negotiation** (`NegotiationSteps`, `PeerNegotiator`, `NegotiationRuns`,
`NegotiationMishaps`, `SessionConduct`, `UrlFragment`, `BundledNegotiation`, `Dispatch`). Two peers
negotiate over two first-in-first-out channels: an impolite inviter and a polite
joiner. The browser's connection is an environment with the signalling states of
section 3.2 of RFC 8829 and an operations chain that it works off in order;
negotiation is needed only in the stable state with an empty chain (sections 4.4.1 and
4.7.3 of W3C WebRTC 1.0). A handler runs from one of its waits to the next, and how
long an operation or a publish takes is free, so that handlers overlap in every way
they can. `UrlFragment` proves that the bundle carrier is such a channel when bundles
are imported in the order of their export, and `BundledNegotiation` that negotiation
over two of them is negotiation over two channels.

**Polling** (`HttpPollSteps`, `HttpPollRuns`). The PHP endpoint's list of a room with
its one-minute time to live, and polling clients with cursors and sets of delivered
ids, over runs with late and lost replies.

**Publishing to relays** (`NostrPublish`, `NostrHistory`). The settle, nack and timeout
machine of one publish, over all orders of sends, answers, failures and the timeout, and
its outcome read off the history.

**License gate** (`SpdxText`, `SpdxGate`, `SpdxEveryText`, `SpdxRefusals`). Stripping
parentheses and evaluating SPDX expressions, against the meaning of the expression
(Annex D of SPDX 2.3), what the gate makes of texts that are no expressions, and why it
refuses what it refuses.

**Encodings and storage** (`Base64Url`, `Ids`, `Lexical`, `Storage`). base64url
(RFC 4648), the two id encodings, and the flat storage map as a map for each add-on.

Where the code works by changing things in place there is a class or a method with
the loop as it is written, proved against a specification function; the lemmas are
about that function.

## What turned out differently from the intention

The code is modelled as it is. These are cases in which it does not do what its
comments or documentation say, each with the exact condition as a lemma that holds
for all inputs.

- A header that is the JSON text `null` makes the binary handler throw instead of
  reporting a schema error, and so does a chunk that begins a message with a total
  that is fractional or above the length of an array (`FrameCodec.HandlerThrowsExactly`).
- Frame numbers need only be numbers in range. A frame with a fractional number is
  counted but not copied, so that its part of the message is zeros
  (`ReassemblyRuns.ConcatenatedExactly`, `ReassemblyRuns.FractionsDeliverZeros`).
- A message can be sent in part: with a header of exactly 4,092 bytes the frames from
  number 10 on do not fit any more (`BinarySender.SentInPartExactly`).
- Negotiation gets stuck when the inviter ignores an offer that collides with nothing.
  That happens when the answer to its own offer arrives before the publish of that
  offer has resolved; and, however prompt the publish, when an offer arrives while the
  answer before it is still being applied, as with an answer and an offer in one
  bundle or in one reply. The joiner waits with nothing under way until the inviter
  negotiates again. When a late publish takes down the flag of the next offer, the
  inviter accepts an offer that does collide, and the peers can end up agreeing on
  different exchanges (`NegotiationRuns.NeverStuckExactly`,
  `NegotiationRuns.ConvergesExactly`, `NegotiationRuns.NextOfferRescues`,
  `BundledNegotiation.ImportCleanExactly`, `NegotiationMishaps.EarlyAnswerStrands`,
  `NegotiationMishaps.AnswerAndOfferTogetherStrand`,
  `NegotiationMishaps.LateResolveDiverges`).
- A session that has been closed keeps its connection until its bye has been
  published, and handles offers and answers until then (`SessionConduct.ByeCloses`,
  `SessionConduct.LeavingStillTakes`).
- The PHP endpoint stores the list it has cut at the caller's cursor, so with several
  pollers a fresh message can be lost (`HttpPollRuns.NothingLostExactly`,
  `HttpPollRuns.TwoPollersLose`).
- The comments at packages/signaling-nostr/src/index.ts:193-196 and 239-242 say that
  an abandoned promise cannot be rejected later. It is rejected when the timeout fires
  while the loop still waits for sockets (`NostrPublish.UnawaitedRejectionExactly`).
- A relay that nacks twice counts twice, so that a call can fail as nacked while a
  relay has not answered (`NostrPublish.MisledExactly`).
- The IndexedDB range leaves out keys that continue U+FFFF, so clearing keeps them
  (`Storage.RangeExactly`, `Storage.BeyondRangeSurvives`).
- Add-on ids that extend each other by a space share keys of the flat store
  (`Storage.RefinesExactly`).
- The license gate is meant to fail closed, and does on every expression and on every
  text without the word `OR`; but a malformed `OR` list with one allowed part passes,
  such as an allowed license with a dangling `OR`
  (`SpdxEveryText.FailsClosedExactly`).

## Model

| member | source | states |
|---|---|---|
| `BinaryReceiver.BinaryReceiver.HandleBinaryFrame` | packages/core/src/peer-session.ts:451-512 | for any buffer, the object's map, counters, timer and reported events after the handler are those of one step on the parsed buffer; the class invariant is kept |
| `BinaryReceiver.BinaryReceiver.HandleChunk` | packages/core/src/peer-session.ts:514-581 | the invariant is kept by every chunk: the byte counter is the sum of stored bytes, every slot's counters match its frames, each resident slot is incomplete and within 4 MiB, the total is within 16 MiB, the timer runs exactly when the map is not empty; table, events and exception are those of the specification |
| `BinaryReceiver.BinaryReceiver.Process` | packages/core/src/peer-session.ts:527-548 | finding or making the slot, refusing a mismatch, the RangeError of a `total` that is too large or fractional, and ignoring a duplicate, with the exact new table and events |
| `BinaryReceiver.BinaryReceiver.SettleSlot` | packages/core/src/peer-session.ts:554-580 | cap, eviction and delivery after a frame has been stored, counters adjusted, timer stopped exactly when the map becomes empty |
| `BinaryReceiver.BinaryReceiver.EvictUntilUnderBudget` | packages/core/src/peer-session.ts:583-605 | the loop terminates and drops, in order and with one overflow event each, exactly what the specification `Evict` drops |
| `BinaryReceiver.BinaryReceiver.OldestOther` | packages/core/src/peer-session.ts:585-593 | the scan finds the oldest slot other than the protected one, the earliest inserted on a tie |
| `BinaryReceiver.BinaryReceiver.Deliver` | packages/core/src/peer-session.ts:567-580 | the buffer of the copying loop is delivered as the message, and its slot and bytes are released |
| `BinaryReceiver.ReassemblySlot.CopyOut` | packages/core/src/peer-session.ts:568-575 | the copying loop fills the buffer with the frames at integral numbers in order, leaves the room of the others zero, and stays in bounds |
| `BinaryReceiver.ReassemblySlot.Put` | packages/core/src/peer-session.ts:550-552 | a frame is stored under its number, integral or not, and both counters go up with it |
| `BinaryReceiver.BinaryReceiver.GcStaleReassemblies` | packages/core/src/peer-session.ts:619-631 | a pass leaves exactly the slots younger than 60 s, with the byte counter adjusted and one timeout event for each dropped slot, although it deletes while iterating |
| `BinaryReceiver.BinaryReceiver.MaybeStopGc` | packages/core/src/peer-session.ts:612-617 | the timer keeps running only while something is stored |
| `BinaryReceiver.BinaryReceiver.Close` | packages/core/src/peer-session.ts:403-408 | closing leaves an empty map, a zero counter and no timer |
| `ReassemblyInvariant.StepKeepsHealthy` | packages/core/src/peer-session.ts:522-631 | every input keeps the table healthy: keys distinct, slots incomplete, non-empty and within the cap, the total within the budget |
| `ReassemblyInvariant.EvictDropsLeastRun` | packages/core/src/peer-session.ts:583-605 | eviction drops exactly the shortest oldest-first run of the other slots (ties in insertion order) that brings the total within budget: its run suffices and is contained in every run that does |
| `ReassemblyInvariant.EvictInAgeOrder` | packages/core/src/peer-session.ts:587-602 | slots are dropped in order of age, and the protected slot never is |
| `ReassemblyInvariant.StoreDrops` | packages/core/src/peer-session.ts:550-580 | which keys leave the table when a frame is stored, and that the total is within budget afterwards |
| `ReassemblyInvariant.CollectDropsStale` | packages/core/src/peer-session.ts:621-629 | a collection drops the slots that are at least 60 s old and no others, and subtracts exactly their bytes |
| `ReassemblySteps.RepeatIgnored` | packages/core/src/peer-session.ts:546-549 | a frame that the slot of its message has already changes nothing, reports nothing and throws nothing, whatever body it carries |
| `ReassemblySteps.RefusedReported` | packages/core/src/peer-session.ts:522-543 | a buffer that is no frame, a number out of range, and another total or mime within a message change nothing and are reported once, each by its own fault |
| `ReassemblySteps.WholeReported` | packages/core/src/peer-session.ts:497-535 | a message of one frame is reported at once with the table untouched; an exception leaves the table untouched and reports nothing |
| `ReassemblySteps.OverCapDropped` | packages/core/src/peer-session.ts:554-565 | a frame with which its message exceeds 4 MiB takes that message out of the table and reports its size, and nothing else happens |
| `ReassemblySteps.StoredExactly` | packages/core/src/peer-session.ts:550-580 | any other new frame is stored in its slot, which keeps its other frames and its age; the oldest other slots go, only as many as 16 MiB demand, each reported by add-on and id in order of age; and the slot goes, with its message reported last, exactly when as many frames as its total have come |
| `ReassemblySteps.TickExactly` | packages/core/src/peer-session.ts:619-631 | a tick drops what is 60 s old or older, keeps the rest in order, and reports the dropped ones by add-on and id in table order |
| `ReassemblyRuns.RunHealthy` | packages/core/src/peer-session.ts:522-631 | after any inputs at all, every resident slot is incomplete and within the cap and all of them are within the budget |
| `ReassemblyRuns.NoFabrication` | packages/core/src/peer-session.ts:522-580 | for any frames in any order, with integral numbers or not, every reassembled message comes from as many arrivals as its total says, one for each number it was stored under, all with the same key, total and mime, and no arrival feeds two deliveries |
| `ReassemblyRuns.ConcatenatedExactly` | packages/core/src/peer-session.ts:567-575 | a reassembled message is the concatenation of one arrived frame for each number below its total, in that order, if and only if none of its frames came under a fractional number |
| `ReassemblyRuns.FractionsDeliverZeros` | packages/core/src/peer-session.ts:522-580 | two frames numbered 0.25 and 0.5 of two make the receiver report zeros, whatever they carried |
| `ReassemblyRuns.LogReported` | packages/core/src/peer-session.ts:567-580 | a chunk reports a reassembled message exactly when the log of the previous row has one for it |
| `ReassemblyRuns.OneMessagePerDelivery` | packages/core/src/peer-session.ts:527 | when no arrived id contains the key separator, all frames of a delivery name the same add-on and id |
| `ReassemblyRuns.BoundedLifetime` | packages/core/src/peer-session.ts:607-631 | with punctual 5 s ticks no unfinished message is resident 65 s after its first frame, and a tick keeps exactly what is younger than 60 s |
| `ReassemblySteps.RepeatMakesNoDifference` | packages/core/src/peer-session.ts:546-549 | in any run, putting a repeated frame in leaves every later table as it would be without it |
| `ReassemblySteps.RepeatLeavesReports` | packages/core/src/peer-session.ts:546-549 | and every later input reports the same events |
| `EndToEnd.DeliveredExactly` | packages/core/src/peer-session.ts:286-309 | for any set of messages within the cap with distinct keys, any interleaving and any order of each message's frames: all messages are delivered if and only if each frame fits into the budget beside the unfinished messages and no tick finds one of them 60 s old |
| `EndToEnd.ReportedAtLastFrame` | packages/core/src/peer-session.ts:514-581 | while that holds, each step reports exactly the message whose last missing frame it brings, byte for byte with its add-on and mime, and nothing else |
| `EndToEnd.DeliveredOnce` | packages/core/src/peer-session.ts:567-579 | no message is delivered twice in any run, with evictions and timeouts or without |
| `RepeatedFrames.RepeatsIgnored` | packages/core/src/peer-session.ts:546-549 | with frames of unfinished messages repeated anywhere and any number of times, each repeat reports nothing and every other frame and tick reports what it reports without the repeats |
| `RepeatedFrames.DeliveredDespiteRepeats` | packages/core/src/peer-session.ts:546-579 | every message is delivered despite such repeats when all frames come and there is room and time |
| `EndToEnd.LostForGood` | packages/core/src/peer-session.ts:595-602 | as soon as a frame does not fit or a tick finds an unfinished message too old, one message is fixed that is not delivered however the run goes on |
| `EndToEnd.OnTheWire` | packages/core/src/peer-session.ts:335-340 | a frame the sender put on the channel is, after parsing, the input these results speak about |
| `FrameCodec.ParseEncode` | packages/core/src/peer-session.ts:320-340 | parsing a frame that was sent gives back its header fields and body |
| `FrameCodec.ParseAcceptsExactly` | packages/core/src/peer-session.ts:451-512 | a buffer is a message or a chunk exactly when it is laid out as length, non-empty header and body with a header that passes the schema and states the body's size |
| `FrameCodec.ParseThrowsExactly` | packages/core/src/peer-session.ts:471-484 | parsing throws instead of reporting exactly when the header is the JSON text `null` |
| `FrameCodec.HandlerThrowsExactly` | packages/core/src/peer-session.ts:451-548 | the whole handler throws in exactly three cases, a header that is `null` and a chunk in range that begins a message whose total is above what an array can have or is fractional, and then changes and reports nothing |
| `JsonHeader.JsonLawHolds` | packages/core/src/peer-session.ts:320-331 | the round-trip law for headers that other rows assume holds for JSON and UTF-8: a reader that goes through the text and looks fields up by their names gives back every header that is printed |
| `JsonHeader.FrameReadsBack` | packages/core/src/peer-session.ts:320-340 | a frame that was sent, read as JSON, gives back what was put in, with no law assumed |
| `JsonHeader.DecimalReadsBack` | packages/core/src/peer-session.ts:320-329 | the digits printed for a size, a frame number or a total denote that number |
| `JsonHeader.CharsReadBack` | packages/core/src/peer-session.ts:329-330 | every text is read back from its escaped and encoded characters |
| `FrameCodec.EarlyFaultsExactly` | packages/core/src/peer-session.ts:451-481 | which fault is reported before the fields are looked at: too short, a length of zero or beyond the buffer, and text that does not parse |
| `FrameCodec.FieldsDecide` | packages/core/src/peer-session.ts:482-511 | which fault the fields lead to, in order: version, add-on, mime and size of the right kinds, then the size of the body; and which fields make a chunk or a whole message of it |
| `FrameCodec.LengthFirst` | packages/core/src/peer-session.ts:331-340 | a sent frame is its header's length, lowest byte first, the header and the body, at most 65,536 bytes in all |
| `FrameCodec.U32Unique` | packages/core/src/peer-session.ts:457 | the little-endian length read is the only one that writes back the same four bytes |
| `BinarySender.BinarySender.SendBinary` | packages/core/src/peer-session.ts:265-310 | refused calls change nothing; otherwise the channel gets the message's frames up to the first that is too large, and the call succeeds exactly when that is all of them |
| `BinarySender.BinarySender.SendFrames` | packages/core/src/peer-session.ts:297-309 | the loop sends the longest prefix of frames that all fit |
| `BinarySender.BinarySender.SendOneFrame` | packages/core/src/peer-session.ts:312-341 | a frame is sent exactly when its length is within 65,536 bytes |
| `BinarySender.BinarySender.NewMessageId` | packages/core/src/peer-session.ts:343-346 | the counter advances by one modulo 16,777,215 and the id contains it |
| `BinarySender.SlicesPartition` | packages/core/src/peer-session.ts:286-300 | the slices joined are the message, and up to 4 MiB there are at most 69 of them |
| `BinarySender.FrameSays` | packages/core/src/peer-session.ts:286-308 | frame q has the bytes from 61,440 q on, at most 61,440 of them; a longer message's frames say q, the id and the number of frames, a single frame none of that |
| `BinarySender.SentInPartExactly` | packages/core/src/peer-session.ts:297-334 | a message goes out in part exactly when the header of frame 0 is 4,092 bytes long and the message has at least eleven full frames; one byte less and every frame is sent, one more and none |
| `BinarySender.FrameFits` | packages/core/src/peer-session.ts:331-334 | which frames of a message fit, from the length of the header of frame 0 |
| `BinarySender.IdsDistinct` | packages/core/src/peer-session.ts:343-346 | ids of calls fewer than 16,777,215 apart differ whatever the clock does, and calls exactly that far apart collide when the clock reads the same |
| `BinarySender.KeyInjective` | packages/core/src/peer-session.ts:527 | the reassembly key separates any two (add-on, id) pairs whose ids have no unit separator |
| `BinarySender.MessageIdPlain` | packages/core/src/peer-session.ts:345 | a generated id never contains the unit separator |
| `BinarySender.MessageIdSays` | packages/core/src/peer-session.ts:343-346 | an id is `m_`, the clock, an underscore and the counter modulo 16,777,215, both numbers in base 36 without leading zeros |
| `BinarySender.KeysCollideExactly` | packages/core/src/peer-session.ts:527 | with any ids, two different add-ons can share a key exactly when the name of one is that of the other with a unit separator and more appended |
| `NegotiationRuns.NeverStuckExactly` | packages/core/src/peer-session.ts:231-249 | with handlers that overlap at every wait: at every moment of a run each peer waiting on its offer has that offer, its answer or an overriding inviter offer under way, and no inviter offer is about to be rolled back, if and only if the inviter ignores an arriving offer exactly when an offer of its own is being made or is pending with no answer arrived |
| `NegotiationRuns.RunGuarantees` | packages/core/src/peer-session.ts:645-676 | after every run in which the inviter accepts no offer while one of its own is being made: each answer was applied to the offer it answers, none came unexpectedly, the inviter rolled nothing back, the offers it ignored are those the joiner rolls back, each peer's offers are completed, rolled back or the one pending, and the histories are prefix-related and differ by at most one exchange; with nothing under way both peers are stable with equal histories unless the joiner is stranded, which it is not after a clean run |
| `NegotiationRuns.ConvergesExactly` | packages/core/src/peer-session.ts:645-676 | from every state reached by such a run, operations finishing, publishes resolving and messages arriving can lead to rest, where both peers agree, if and only if each waiting peer has something under way that settles its offer |
| `NegotiationRuns.NextOfferRescues` | packages/core/src/peer-session.ts:645-665 | a joiner stranded by such a run is rescued by the inviter's next negotiation: from there the peers can come to rest |
| `NegotiationRuns.TrafficEnds` | packages/core/src/peer-session.ts:645-676 | in every run at most two messages are delivered for each negotiation that was needed |
| `NegotiationRuns.PromptIsClean` | packages/core/src/peer-session.ts:235-247 | when publishes resolve before their answers arrive, the inviter never accepts an offer while making one, and it ignores offers as it should exactly when none arrives while an answer before it is still being applied |
| `NegotiationMishaps.EarlyAnswerStrands` | packages/core/src/peer-session.ts:646-651 | the concrete run in which an answer overtakes the publish and the joiner is left waiting with nothing under way |
| `NegotiationMishaps.AnswerAndOfferTogetherStrand` | packages/core/src/peer-session.ts:645-676 | the concrete run, with a prompt publish, in which an answer and an offer arrive together and the offer is ignored while the answer is being applied |
| `NegotiationMishaps.LateResolveDiverges` | packages/core/src/peer-session.ts:231-249 | the concrete run in which the publish of one offer takes the flag down while the next is being made, and the peers end up stable on different exchanges |
| `NegotiationRuns.Step` | packages/core/src/peer-session.ts:645-676 | every step of a handler, a browser operation, a publish or a message leads from one of sixteen phases of the two-peer system to another, except that an offer accepted while one is being made leaves them; exactly an offer ignored for nothing strands the joiner |
| `PeerNegotiator.PeerNegotiator.HandleSignalingMessage` | packages/core/src/peer-session.ts:633-687 | what any message does at once, up to the handler's first wait: the object's fields, the operation it calls and what it publishes, with the sender and addressee checks |
| `PeerNegotiator.PeerNegotiator.OnOffer` | packages/core/src/peer-session.ts:645-656 | the collision is decided on the state at arrival; the offer is ignored, or handed to the connection |
| `PeerNegotiator.PeerNegotiator.OnAnswer` | packages/core/src/peer-session.ts:666-672 | the answer is handed to the connection, which goes on showing the old state until it has been applied |
| `PeerNegotiator.PeerNegotiator.FinishOperation` | packages/core/src/peer-session.ts:656-676 | what each handler does when its operation has finished: an offer or an answer is published, an accepted offer is answered, and an unexpected answer is an error unless the last offer was ignored |
| `PeerNegotiator.PeerNegotiator.RunNegotiation` | packages/core/src/peer-session.ts:231-239 | the flag goes up and an offer is asked for, unless the session is closed |
| `PeerNegotiator.PeerNegotiator.EndNegotiation` | packages/core/src/peer-session.ts:241-248 | the flag comes down when the publish has resolved or failed, whatever else is going on |
| `PeerNegotiator.PeerNegotiator.CloseSession` | packages/core/src/peer-session.ts:383-393 | closing marks the session closed and publishes `bye` once |
| `PeerNegotiator.PeerNegotiator.EndClose` | packages/core/src/peer-session.ts:394-409 | when the publish of the bye has resolved or failed the connection is gone |
| `SessionConduct.RefusedUntouched` | packages/core/src/peer-session.ts:633-643 | a message from the session itself, from a stranger, or for another peer, any message without a connection, and every candidate, change and publish nothing |
| `SessionConduct.OfferConduct` | packages/core/src/peer-session.ts:645-656 | what an accepted offer does to each field: ignored and remembered by the impolite peer on a collision, otherwise handed over, with its sender known from then on |
| `SessionConduct.AnswerConduct` | packages/core/src/peer-session.ts:666-671 | what an accepted answer does to each field |
| `SessionConduct.ByeCloses` | packages/core/src/peer-session.ts:685-688 | a bye closes the session and is answered by exactly one bye; a second one changes nothing; and when that bye has been published no further message changes or publishes anything |
| `SessionConduct.CloseOnce` | packages/core/src/peer-session.ts:383-393 | closing marks the session closed and publishes one bye, the first time only |
| `SessionConduct.LeavingStillTakes` | packages/core/src/peer-session.ts:387-409 | while its bye is being published a closed session still takes an offer |
| `SessionConduct.OfferFinished` | packages/core/src/peer-session.ts:235-244 | a finished offer is the next one, is pending, and is published |
| `SessionConduct.RemoteOfferFinished` | packages/core/src/peer-session.ts:654-657 | an applied offer is pending, an own pending one is rolled back, and an answer is asked for |
| `SessionConduct.AnswerFinished` | packages/core/src/peer-session.ts:657-664 | a finished answer completes the exchange and is published to the other peer |
| `SessionConduct.RemoteAnswerFinished` | packages/core/src/peer-session.ts:670-675 | an applied answer completes the pending exchange; without one it is an error exactly unless the last offer was ignored |
| `UrlFragment.FirstInFirstOut` | packages/signaling-url-fragment/src/index.ts:48-120 | with bundles imported in export order, what was published in a room is what the subscriber has seen, then what is on its way, then the outbox, whatever happens in other rooms and whoever else subscribes or leaves |
| `UrlFragment.NewCarrier` | packages/signaling-url-fragment/src/index.ts:44-68 | newly made adapters, one of them with a subscriber, are such a carrier |
| `BundledNegotiation.ProjectsToRun` | packages/signaling-url-fragment/src/index.ts:99-120 | every run of two sessions over bundles, with exports and imports at any moment, other rooms and other subscribers, is a run of the two peers over two channels in which the messages of a bundle arrive in direct succession |
| `BundledNegotiation.BundlesGuarantee` | packages/signaling-url-fragment/src/index.ts:48-120 | from new sessions on new adapters, what is promised for two channels holds over bundles |
| `BundledNegotiation.ImportCleanExactly` | packages/signaling-url-fragment/src/index.ts:105-118 | after a prompt run, importing a bundle at the inviter strands nothing exactly when no offer in it comes after an answer that is still to be applied, in the same bundle or one before |
| `UrlFragment.UrlFragmentSignaling.Publish` | packages/signaling-url-fragment/src/index.ts:48-54 | the message goes to the end of the room's outbox, or the call is refused when closed |
| `UrlFragment.UrlFragmentSignaling.ExportBundle` | packages/signaling-url-fragment/src/index.ts:81-92 | the outbox of a room leaves as one bundle, in order |
| `UrlFragment.UrlFragmentSignaling.ImportBundle` | packages/signaling-url-fragment/src/index.ts:99-120 | every subscriber is called with every message in order; with no subscriber the bundle is gone and the count is zero |
| `UrlFragment.UrlFragmentSignaling.Unsubscribe` | packages/signaling-url-fragment/src/index.ts:64-68 | exactly that handler leaves exactly that room |
| `UrlFragment.UrlFragmentSignaling.Subscribe` | packages/signaling-url-fragment/src/index.ts:56-63 | subscribing twice is subscribing once |
| `Dispatch.SeenInAll` | packages/signaling-url-fragment/src/index.ts:107-118 | a subscriber sees the messages of a delivery once each and in order, others see none |
| `Dispatch.CallHandlers` | packages/signaling-http-poll/src/index.ts:188-195 | the nested delivery loops call handlers in message order, then handler order |
| `Dispatch.CallsInOrder` | packages/signaling-http-poll/src/index.ts:184-195 | call number n times the number of handlers plus i is handler i with message n |
| `HttpPollRuns.SeenInPostOrder` | packages/signaling-http-poll/src/index.ts:169-200 | for any posts, expiry, any number of pollers and failed or late replies, every handler sees a subsequence of post order without repeats, and the endpoint stores the newest part of what was posted |
| `HttpPollRuns.PollDelivers` | packages/signaling-http-poll/src/index.ts:184-199 | a successful poll leaves everything delivered that had been posted when it was handled and is still stored |
| `HttpPollRuns.NothingLostExactly` | examples/signaling-http-poll-server/php/signal.php:83-97 | with requests that the endpoint handles one at a time: at every moment each unexpired message is stored or delivered at a client, if and only if every request whose cursor is still stored has a cursor that was delivered at that client |
| `HttpPollRuns.OnePollerLosesNothing` | examples/signaling-http-poll-server/php/signal.php:83-97 | with one poller in the room and requests handled one at a time nothing unexpired is lost, although replies may be |
| `HttpPollRuns.TwoPollersLose` | examples/signaling-http-poll-server/php/signal.php:91-93 | with two, one client's second request cuts out a fresh message that the other never gets |
| `HttpPollRuns.LoyalHandlerSeesAll` | packages/signaling-http-poll/src/index.ts:188-195 | a handler that stays from the start has seen everything its client has had delivered |
| `HttpPollRuns.KeptIsSuffix` | examples/signaling-http-poll-server/php/signal.php:46-55 | a request leaves a suffix of what was posted, cut at the last expired item or at the caller's cursor |
| `HttpPollRuns.NewsOfStretch` | packages/signaling-http-poll/src/index.ts:184-187 | what is new in a reply is exactly the part of it beyond the client's mark |
| `HttpPollSteps.SignalEndpoint.LoadQueue` | examples/signaling-http-poll-server/php/signal.php:46-55 | the stored items that are at most 60 s old, in order |
| `HttpPollSteps.SignalEndpoint.Post` | examples/signaling-http-poll-server/php/signal.php:65-81 | a known message is appended to the pruned list; other bodies are refused and change nothing |
| `HttpPollSteps.SignalEndpoint.Get` | examples/signaling-http-poll-server/php/signal.php:83-97 | the list after the cursor is returned and is also what stays stored |
| `HttpPollSteps.RoomPoller.Subscribe` | packages/signaling-http-poll/src/index.ts:117-131 | the handler joins the room's set, once |
| `HttpPollSteps.RoomPoller.Unsubscribe` | packages/signaling-http-poll/src/index.ts:132-140 | exactly that handler leaves, and the loop is aborted when it was the last |
| `HttpPollSteps.RoomPoller.TakeReply` | packages/signaling-http-poll/src/index.ts:179-200 | the loop over a reply delivers the first item of each id not delivered before to every handler, then moves the cursor |
| `HttpPollSteps.AliveExactly` | examples/signaling-http-poll-server/php/signal.php:46-55 | exactly the items at most sixty seconds old are left |
| `HttpPollSteps.AliveInOrder` | examples/signaling-http-poll-server/php/signal.php:46-55 | and they are left in order |
| `HttpPollSteps.KindsExactly` | examples/signaling-http-poll-server/php/signal.php:71-74 | the kinds that a POST takes are offer, answer, ice and bye |
| `HttpPollSteps.GetExactly` | examples/signaling-http-poll-server/php/signal.php:83-97 | a GET answers and stores the live items behind the first with the caller's cursor, or all of them, and the cursor is the id of the last or the old one |
| `HttpPollSteps.ReplyItemByItem` | packages/signaling-http-poll/src/index.ts:184-195 | an item of a reply goes to every handler in order exactly when its id has not been delivered |
| `NostrPublish.PublishSafe` | packages/signaling-nostr/src/index.ts:189-265 | over all interleavings: the promise is settled at most once, success needs a positive answer, rejection as nacked needs every relay tried, no entry survives, and a waiting call has its timer armed |
| `NostrPublish.NackedMeansAll` | packages/signaling-nostr/src/index.ts:202-221 | if no relay answers twice, rejection as nacked means every reached relay nacked, and once all have, the call does not go on waiting |
| `NostrPublish.DuplicateNackOutvotes` | packages/signaling-nostr/src/index.ts:415-422 | from every reachable state in which the call waits, one relay that was sent the event can make it fail as nacked alone, by repeating its nack |
| `NostrPublish.MisledExactly` | packages/signaling-nostr/src/index.ts:202-222 | a waiting call can still fail as nacked before every reached relay has nacked, if and only if some relay was sent the event beside a reached one that has not nacked yet |
| `NostrPublish.UnawaitedRejectionExactly` | packages/signaling-nostr/src/index.ts:224-263 | while the loop runs, and when it ends without a relay reached, the promise that nobody awaits is rejected exactly when the timeout has fired |
| `NostrHistory.OutcomeExactly` | packages/signaling-nostr/src/index.ts:189-265 | the outcome of every call, from its history alone: resolved if and only if a positive answer comes before the timeout and before the negative answers are as many as the relays reached at the end of the loop or later; timed out, or nacked with the last text, if that comes first; unreachable if the loop ends with no relay reached |
| `NostrHistory.PositiveResolves` | packages/signaling-nostr/src/index.ts:210-216 | while the event is registered a positive answer resolves the promise and clears entry and timer |
| `NostrPublish.PublishCall.TryRelay` | packages/signaling-nostr/src/index.ts:247-258 | one round of the loop: skipped, sent, or counted as a nack |
| `NostrPublish.PublishCall.AfterLoop` | packages/signaling-nostr/src/index.ts:259-265 | the end of the loop: failure when no relay was reached, otherwise the final check of the count |
| `NostrPublish.PublishCall.FinishAck` | packages/signaling-nostr/src/index.ts:210-222 | one answer: ignored when settled, success, or one more nack |
| `NostrPublish.PublishCall.OnOk` | packages/signaling-nostr/src/index.ts:415-422 | an OK frame reaches the callback only while the event is pending |
| `NostrPublish.PublishCall.OnTimeout` | packages/signaling-nostr/src/index.ts:224-229 | the timeout rejects unless the promise is settled |
| `NostrPublish.PublishCall.CancelAckTimeout` | packages/signaling-nostr/src/index.ts:234-243 | cancelling marks the promise settled without settling it |
| `NostrPublish.EventRoom.HandleEvent` | packages/signaling-nostr/src/index.ts:427-441 | each event id of a room is dispatched once, at its first arrival |
| `NostrHistory.FirstArrivalsGrow` | packages/signaling-nostr/src/index.ts:427-441 | dispatch is in the order of first arrivals |
| `SpdxGate.GateExactly` | scripts/check-licenses.ts:284-353 | for every well-written expression the gate says ok if and only if, without outer parentheses, it has no exception, `+`, nesting or mixed operators, and it is true with only the allowed licenses |
| `SpdxGate.PlainListExact` | scripts/check-licenses.ts:306-342 | on a flat list of bare licenses with one operator and no keyword inside a name, ok is exact |
| `SpdxGate.DanglingOrPasses` | scripts/check-licenses.ts:315-317 | a text that is not well written can pass: an allowed license followed by a dangling OR |
| `SpdxRefusals.ShapeRefusals` | scripts/check-licenses.ts:287-313 | for every text, which of WITH, `+`, nesting and mixed operators it is refused for, in that order |
| `SpdxRefusals.OrVerdict` | scripts/check-licenses.ts:315-328 | an OR list passes exactly when a part is listed; else the first part of a GPL, AGPL, SSPL or BUSL family is named, or that none is listed |
| `SpdxRefusals.AndVerdict` | scripts/check-licenses.ts:329-339 | an AND list passes exactly when all parts are listed; else the first that is not is named, as disallowed exactly when it is of such a family |
| `SpdxRefusals.SimpleVerdict` | scripts/check-licenses.ts:341-352 | a text without operators passes exactly when it is one of the eight listed names, and is disallowed exactly when it is of such a family |
| `SpdxRefusals.FamilyExactly` | scripts/check-licenses.ts:249-259 | a family member is the bare name, or the name followed by a hyphen |
| `SpdxEveryText.FailsClosedExactly` | scripts/check-licenses.ts:284-353 | for every text: it passes although it is no expression that is true with only the allowed licenses, if and only if, stripped, it is nothing the gate refuses to look into, has the word OR with an allowed part, and its tokens are not license ids with OR between them; such a text is no expression at all |
| `SpdxEveryText.ExpressionExactly` | scripts/check-licenses.ts:306-339 | a text without parentheses, exception or `+` and with one operator is an expression exactly when its tokens are license ids with the operator between them |
| `SpdxGate.StripKeepsMeaning` | scripts/check-licenses.ts:261-282 | stripping gives another well-formed way to write the same expression |
| `SpdxGate.StripAddsNothing` | scripts/check-licenses.ts:261-282 | what stripping makes well formed was well formed before |
| `SpdxGate.ListPasses` | scripts/check-licenses.ts:315-339 | splitting at an operator and looking the parts up decides the meaning of a list, also when a name contains the operator as a word |
| `SpdxGate.StripBalancedOuterParens` | scripts/check-licenses.ts:261-282 | the loop terminates and computes the stripped expression |
| `SpdxGate.ScanParens` | scripts/check-licenses.ts:264-278 | the scan decides whether the inner text is balanced and never closes too early |
| `SpdxText.SplitConcat` | scripts/check-licenses.ts:316 | splitting at a word splits each side of a genuine operator |
| `SpdxRefusals.SplitJoins` | scripts/check-licenses.ts:316 | the parts of a split text with the operator between them are the text |
| `SpdxRefusals.WordsExactly` | scripts/check-licenses.ts:306-307 | a keyword counts exactly where no letter, digit or underscore adjoins it |
| `SpdxRefusals.TrimExactly` | scripts/check-licenses.ts:262 | trimming takes off the white space at both ends, all of it, and nothing else |
| `Base64Url.DecodeEncode` | packages/manifest/src/index.ts:44-109 | decoding inverts encoding for all byte strings |
| `Base64Url.DecodesExactly` | packages/manifest/src/index.ts:71-80 | decoding succeeds exactly on alphabet strings whose length is not 1 modulo 4 |
| `Base64Url.EncodeDecode` | packages/manifest/src/index.ts:95-107 | encoding inverts decoding exactly when the discarded bits are zero |
| `Base64Url.EncodingsExactly` | packages/manifest/src/index.ts:44-109 | the encodings are exactly the decodable strings without stray bits |
| `Base64Url.EncodingSays` | packages/manifest/src/index.ts:47-54 | the four characters of each group, read in base 64, are the number that its three bytes are |
| `Base64Url.OneLeftSays` | packages/manifest/src/index.ts:56-60 | a byte left over takes two characters and four zero bits |
| `Base64Url.TwoLeftSay` | packages/manifest/src/index.ts:61-67 | two bytes left over take three characters and two zero bits |
| `Base64Url.DecodingSays` | packages/manifest/src/index.ts:83-94 | the three bytes decoded from a group are the number that its four characters say, for every decodable text |
| `Base64Url.TwoTailSays` | packages/manifest/src/index.ts:95-99 | of two characters left over the lowest four bits are dropped |
| `Base64Url.ThreeTailSays` | packages/manifest/src/index.ts:100-107 | of three characters left over the lowest two bits are dropped |
| `Base64Url.EncodeBytes` | packages/manifest/src/index.ts:44-69 | the loop over groups and the remainder computes the encoding |
| `Base64Url.DecodeText` | packages/manifest/src/index.ts:71-109 | the two refusals, and the bytes otherwise |
| `Base64Url.DecodeInto` | packages/manifest/src/index.ts:83-107 | the loops fill the output array with the decoded bytes, every stored value a byte |
| `Base64Url.BuildLookup` | packages/manifest/src/index.ts:75-76 | the lookup table inverts the alphabet |
| `Ids.UlidsOrdered` | packages/protocol/src/ids.ts:43-64 | peer ids compare as strings exactly as (timestamp, randomness) do, are equal only for equal inputs, and match the id pattern |
| `Ids.RoomIdsDistinct` | packages/protocol/src/ids.ts:27-40 | room ids match the id pattern and differ for different bytes |
| `Ids.RoomIdReadsBack` | packages/protocol/src/ids.ts:27-40 | a room id, read in base 32, has the sixteen bytes in order in the upper 128 of its 130 bits and zeros in the lowest two |
| `Ids.UlidReadsBack` | packages/protocol/src/ids.ts:43-64 | the first ten characters of a peer id are the timestamp, the other sixteen the ten random bytes in order |
| `Ids.EncodeUlid` | packages/protocol/src/ids.ts:43-64 | wrong length, a timestamp that is not an integer or not in 48 bits, and the id otherwise |
| `Ids.EncodeBase32Of130` | packages/protocol/src/ids.ts:27-40 | wrong length, and the id otherwise |
| `Ids.TimestampDigits` | packages/protocol/src/ids.ts:48-54 | taking low digits first and reversing gives the ten digits of the timestamp |
| `Ids.DigitsOrdered` | packages/protocol/src/ids.ts:35-38 | comparing fixed-width base32 digits is comparing the numbers |
| `Storage.RefinesExactly` | packages/storage/src/index.ts:117-159 | for any set of add-on ids: every run on the flat map gives the results of the same run on a map for each add-on, listings sorted and clearing limited to its own, if and only if no id is another with a space and more appended |
| `Storage.SpaceFreeSeparated` | packages/storage/src/index.ts:51-53 | ids without a space are such ids |
| `Storage.KeysCollideExactly` | packages/storage/src/index.ts:51-53 | two different add-ons can share a stored key exactly when one id is the other with a space and more appended |
| `Storage.RangeExactly` | packages/storage/src/index.ts:238-240 | the IndexedDB key range selects exactly the prefixed keys except those that continue U+FFFF |
| `Storage.RangeRefinesPrefix` | packages/storage/src/index.ts:235-274 | as long as no key continues U+FFFF, every run on the IndexedDB store gives the results of the same run in memory |
| `Storage.BeyondRangeSurvives` | packages/storage/src/index.ts:257-274 | a key that continues U+FFFF survives clearing |
| `Storage.KeysUnique` | packages/storage/src/index.ts:51-53 | for ids none of which is another with a space and more appended, the prefixed key is unambiguous |
| `Storage.KeySays` | packages/storage/src/index.ts:51-53 | a stored key is the add-on's id, a space and the key |
| `Storage.StepSays` | packages/storage/src/index.ts:117-159 | the record under any stored key after each operation, and the refusals of a closed store |
| `Storage.ResultSays` | packages/storage/src/index.ts:121-145 | what reading and listing give, in terms of the stored keys |
| `Storage.RangeSays` | packages/storage/src/index.ts:238-240 | the range has the keys with the prefix, less those that go on behind U+FFFF |
| `Storage.InMemoryStorage.ListKeys` | packages/storage/src/index.ts:136-145 | the ascending list of exactly the add-on's keys, or refused when closed |
| `Storage.InMemoryStorage.ClearRecords` | packages/storage/src/index.ts:147-153 | exactly the prefixed keys are removed |
| `Storage.InMemoryStorage.PutRecord` | packages/storage/src/index.ts:126-129 | the record under the prefixed key, and nothing else, changes |
| `Storage.InMemoryStorage.GetRecord` | packages/storage/src/index.ts:121-124 | the record under the prefixed key, or none |
| `Storage.InMemoryStorage.DeleteRecord` | packages/storage/src/index.ts:131-134 | the prefixed key, and nothing else, is removed |
| `Storage.InMemoryStorage.CloseStorage` | packages/storage/src/index.ts:155-158 | closing empties the map and refuses what comes later |

## Left out

- Infinite numbers in a header, such as 1e999: a number is a real number here, so that one is only a very large one; and the rounding of a header's numbers to doubles, which the parser does.
- JSON beyond the headers that are sent: results about arbitrary buffers take the reading of a header as a parameter; `JsonHeader` writes the quoting out, and a reader for texts such as it prints, but not fractions, nested values, white space, surrogates or the replacement of malformed UTF-8.
- Sparse arrays: the preallocated frame array of a slot is a sequence of options that the slot reassigns, and its properties that are no elements are a sequence beside it.
- `setInterval` and `Date.now` are assumed to share one clock; punctual ticks are a hypothesis of `ReassemblyRuns.BoundedLifetime` only.
- Listeners that call back into the session while an event is reported: events are recorded, and the handlers that record them do not re-enter.
- The connection states `connecting`, `connected` and `failed`, ICE candidates, media tracks and the text channel: easy members; a candidate changes nothing in the negotiation model.
- Failures of `setLocalDescription` and `setRemoteDescription` other than an unexpected answer: browser code.
- A publish that fails in the two-peer system: there every publish reaches the channel; the single-peer model has the failure.
- `bye` in the two-peer system: a closed peer ends the negotiation; the single-peer model has it.
- Handlers that subscribe or unsubscribe while a message is being delivered.
- The encoding of a bundle and of an invite, and field-by-field validators: easy members or library code.
- HTTP failures other than a missing reply, malformed reply bodies, concurrent writes to the endpoint's file, and a clock that runs backwards.
- A room that is left and joined again polls with a new cursor and a new set of delivered ids; it is another client here.
- Opening sockets, signing and encrypting events, and decoding them after `handleEvent` has let them through.
- `LICENSE_OVERRIDES.json`, the walk over installed packages and the texts of the messages; the kind of a refusal is kept.
- Key and value size checks of `AddonStorageImpl`, database errors and quota.
- Add-on hosting, the SDK, bundled add-ons, the web application, build scripts and the WordPress plugin.
- Non-finite timestamps: `encodeUlid` refuses them together with the fractional ones; here a timestamp is a real number.
- Clocks, random bytes and the ids the endpoint hands out are parameters of the members that use them.

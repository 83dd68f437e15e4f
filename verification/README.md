# Portable communication station: verified model

A Dafny 4.11 model of the parts of the station's software whose promises span many operations, with
proofs of those promises over every input, every run and every interleaving the code allows. Each module
follows one component. Code that updates state in place is a class or a method with loops, proved against a
specification; what the code promises is then proved about that specification.

**APRS agent.** `Kiss` is the incremental frame decoder and its encoder, `Ax25` the address and UI frame codec
with Dire Wolf's third-party wrapper, `AprsMessages` messages, receipts and replies, `ReplySplitter` the reply
fragmenter and `ReplyLayout` what its fragments are, `RateLimiter` the sliding-window limiter. `StateStore` holds
the message store, one transaction per database transaction; `StateRuns`, `StateClaims` and `StateIds` prove what every run of transactions keeps, when a
command is executed again, and which IDs are handed out. `AprsAgent` is the packet handler over store and limiter,
`AprsAnswers` what it makes of a text on the air and what its answer is, `AprsRuns` the theorems about its whole runs.

**Qualification harness.** `LanReceipts` is the receiver's book, its coverage verdict, its replay by the parent
and by the file check. `WitnessProtocol` puts client, receiver and a hostile network together. `FaultLedger` is
the lease around the injected fault: files, kernel table and processes interleaved operation by operation, each
of which may fail or crash; `FaultLease` is the code of one such process, in its own form, and a run of that ledger.
`CellularCampaign` is the campaign loop and the soundness of its verdict, `CellularStops` what ends it without a pass,
`CellularLapse` a run at its edge.

**Resource controllers.** `BandwidthPlan` and `BandwidthEngine` are the traffic plan and the life of its kernel
objects, `EchoCache` the broker echo cache, `PositionSelection` the choice between receiver and manual position,
`CellularFallback` the fallback controller, `LowVoltage` the guard and the shutdown decision.
`PyText` and `Basics` hold the text operations and value types the others share.

Times are real numbers. A component that reads `time.monotonic` is given readings that never go back where a
proof needs that, and the proof says so (`clock <= now`, `Clocked`); the store reads `time.time`, so
what is proved of it holds on any clock, and says what a step back does.
SHA-256 is taken to be injective: what is hashed stands for its digest. Collectors, NetworkManager, the status
provider, the kernel and the network are parameters or free choices.

## Where the code does not do what one might expect

- A wall clock that is set back can make the agent execute a command twice within the time to live
  (`StateClaims.ClockStepBackExecutesTwice`). It does so exactly when a claim between the two read the clock more than
  the time to live past the first (`RepeatsExactly`, for runs of the agent in `AprsRuns.AgentRuns`); with a clock that
  never goes back it cannot (`AtMostOncePerTtl`).
- A wall clock that is set back between the due query of a retry round and the record of a send brings sends closer
  than the configured delay (`AprsRuns.ClockStepBackSendsTooSoon`): with a delay of thirty seconds, sent at 100, due at
  131 and recorded at 110. Sends are spaced exactly when each finds its row due by the reading its own record takes
  (`StateRuns.SpacedExactly`, `AprsRuns.RetrySpacedExactly`). That they are bounded needs no clock.
- A fragment of a long reply survives normalisation exactly when the reply is printable ASCII
  (`ReplySplitter.FragmentsSurviveNormalization`).
- The limiter's sixty-second windows are open at one end: with both ends counted a window holds up to twice the limit,
  and can (`RateLimiter.ClosedWindowsBounded`, `ClosedWindowTight`). A restarted agent starts with an empty limiter.
- A third-party packet whose information ends in line ends, is empty or is itself wrapped does not come back
  unchanged (`Ax25.WrapRoundTrip` gives the exact condition).
- The option that releases "only a cellular session previously started by this controller" can disconnect the
  operator's own session, exactly when the operator reconnected while the marker stood
  (`CellularFallback.HitsOperatorExactly`, `OperatorIsDisconnected`). When removing a stale marker fails, the
  recovery timer runs on although cellular was seen down; only Wi-Fi is known to have been up throughout.
- A failed `apply` cannot be rolled back if it fails after an IFB came into being and before its index is journaled:
  the IFB is then taken for a foreign interface, and cleanup refuses (`BandwidthEngine.LostLinkBlocksRollback` exhibits
  the run). Every other failed build can be (`RollbackExactly`).
- Two different messages share an echo-cache key exactly when one topic is the other, NUL and a beginning of its payload
  (`EchoCache.KeysCollideExactly`); MQTT forbids NUL in topics.
- The cellular campaign checks lease and table only while the kernel's timeout runs; a sample taken in the turn in
  which the timeout ends can still prove the fallback without them. `CellularLapse.UncheckedProofPasses` is a campaign
  that passes so; a proof goes unchecked exactly from the end of the timeout on (`checked` in
  `CellularCampaign.PassMeans`).

## Model

| member | source | states |
|---|---|---|
| `Kiss.KissDecoder.Feed` | scripts/pcs_aprs_agent.py:207-237 | feeding a chunk changes the decoder and yields frames exactly as the byte-by-byte reading says |
| `Kiss.KissDecoder.Accept` | scripts/pcs_aprs_agent.py:209-236 | one octet, in place: frame, escape and discard states as in the loop body |
| `Kiss.BufferBounded` | scripts/pcs_aprs_agent.py:207-237 | between any two bytes of any stream the buffer stays within the maximum, and so does every frame delivered |
| `Kiss.ChunkingIrrelevant` | scripts/pcs_aprs_agent.py:207-237 | however a stream is cut into chunks, the same frames come out and the same state is reached |
| `Kiss.DecoderReadsSegments` | scripts/pcs_aprs_agent.py:207-237 | an independent reading: the decoder delivers the unescaped text between FENDs, dropping malformed and oversized segments |
| `Kiss.EscapeTransparent` | scripts/pcs_aprs_agent.py:240-246 | escaped data holds no FEND and unescapes to the original ("Transparency" of the KISS TNC specification) |
| `Kiss.FeedEncoded` | scripts/pcs_aprs_agent.py:198-246 | from any decoder state, an encoded frame is delivered last exactly when it fits the maximum, and leaves the decoder clean |
| `Kiss.StreamRoundTrip` | scripts/pcs_aprs_agent.py:198-246 | a concatenation of encoded frames decodes to exactly that list for every way of splitting the stream |
| `Ax25.CallsignCanonical` | scripts/pcs_aprs_agent.py:249-256 | an accepted callsign is one to nine upper-case characters that normalising leaves alone |
| `Ax25.AddressRoundTrip` | scripts/pcs_aprs_agent.py:249-276 | decoding an encoded address gives the normalised callsign and the last-address bit, for every spelling accepted (section 3.12 of AX.25 v2.2) |
| `Ax25.ReservedBitsIgnored` | scripts/pcs_aprs_agent.py:266-276 | the three bits above the SSID never change how an address is read (section 3.12 of AX.25 v2.2) |
| `Ax25.ReadAddressList` | scripts/pcs_aprs_agent.py:285-296 | the address loop: stops at the last-address bit, at ten addresses or at a bad address, as the recursive reading says |
| `Ax25.DecodeUi` | scripts/pcs_aprs_agent.py:285-302 | the frame decoder with its loop agrees with the recursive specification, errors included |
| `Ax25.RoutedDecodes` | scripts/pcs_aprs_agent.py:285-302 | up to eight further path addresses never change what is decoded; with more the frame is rejected |
| `Ax25.UiRoundTrip` | scripts/pcs_aprs_agent.py:285-340 | decoding an encoded UI frame returns source, destination and information (section 4.3.3.6 of AX.25 v2.2) |
| `Ax25.DecodedFrameNamesCallsigns` | scripts/pcs_aprs_agent.py:266-302 | whatever bytes arrive, an accepted frame names two well-formed callsigns |
| `Ax25.WrapRoundTrip` | scripts/pcs_aprs_agent.py:305-329 | unwrapping a third-party packet gives the original frame exactly when the wrapper can carry its information (chapter 17 of APRS 1.0.1) |
| `Ax25.UnwrappedNamesCallsigns` | scripts/pcs_aprs_agent.py:305-329 | an unwrapped frame still names two callsigns |
| `PyText.AlphabetExactly` | scripts/pcs_aprs_agent.py:44-46 | the letters and digits that callsigns and message IDs are made of |
| `PyText.WordsExact` | scripts/pcs_aprs_agent.py:414 | splitting finds exactly the words that stand in the text, each between white space or an end, and no others |
| `PyText.SqueezeExact` | scripts/pcs_aprs_agent.py:414 | the squeezed text is the only tidy one, its words between single blanks, that has the words of the original |
| `AprsMessages.TailReads` | scripts/pcs_aprs_agent.py:382-392 | whatever stands before it, "{m" at the end, or "{m}a", is read as the message ID m and the reply-ack a, and the rest as the body |
| `AprsMessages.ReadTextExact` | scripts/pcs_aprs_agent.py:382-392 | a message has IDs exactly when its text ends in them, and otherwise its whole text is the body |
| `AprsMessages.AirReads` | scripts/pcs_aprs_agent.py:367-392 | an addressee in letters of any case and line ends at the end of the text change nothing in what is read |
| `AprsMessages.ReceiptExact` | scripts/pcs_aprs_agent.py:395-402 | a body is the receipt of an ID exactly when "ack" or "rej", in any case, stands before it, and which of the two decides |
| `AprsMessages.ReplyRoundTrip` | scripts/pcs_aprs_agent.py:367-431 | a numbered reply reads back as the same addressee, body and ID, braces in the body included (chapter 14 of APRS 1.0.1) |
| `AprsMessages.AckRoundTrip` | scripts/pcs_aprs_agent.py:367-410 | an acknowledgement reads back as an unnumbered message that is the receipt of that ID |
| `AprsMessages.AckAlwaysEncodes` | scripts/pcs_aprs_agent.py:405-410 | an acknowledgement exists for every callsign and ID the parser can report |
| `AprsMessages.ReplyFits` | scripts/pcs_aprs_agent.py:412-431 | a reply that normalises always fits the message text with its ID |
| `AprsMessages.ParsedIds` | scripts/pcs_aprs_agent.py:367-392 | every ID the parser reports is one the encoder accepts |
| `StateRuns.NormalizeIdempotent` | scripts/pcs_aprs_agent.py:412-422 | normalising a reply body twice changes nothing more |
| `StateRuns.NormalizeExact` | scripts/pcs_aprs_agent.py:412-422 | a body normalises exactly when its words are printable and not empty; what is kept is the longest tidy beginning of them that leaves room for the ID |
| `ReplySplitter.Candidates` | scripts/pcs_aprs_agent.py:449-471 | the word loop of one field: the pieces it cuts are those of the recursive packing |
| `ReplySplitter.PackCandidates` | scripts/pcs_aprs_agent.py:472-480 | the packing loop: chunks joined with bars up to the payload limit |
| `ReplySplitter.SplitReply` | scripts/pcs_aprs_agent.py:434-483 | the whole splitter with its nested loops agrees with the recursive specification |
| `ReplyLayout.SplitExact` | scripts/pcs_aprs_agent.py:434-483 | the whole layout of a long reply: the fields between its bars, each field's words filled into pieces and cut only where a word is too long, the pieces filled into groups joined by bars, and one fragment for each group, numbered i/n in decimal digits; refused exactly for none or more than 99 |
| `ReplyLayout.LayoutUnique` | scripts/pcs_aprs_agent.py:434-483 | no other fields, pieces or groups fit that description of a reply |
| `ReplyLayout.ShortStays` | scripts/pcs_aprs_agent.py:437-440 | a reply that fits one message is not split |
| `ReplySplitter.FragmentsFaithful` | scripts/pcs_aprs_agent.py:434-483 | each fragment of a long reply says in decimal digits which one it is and how many there are, at most 99, then its text; each fits, and together they carry exactly the non-blank, non-bar characters of the reply in order |
| `ReplySplitter.FragmentsSurviveNormalization` | scripts/pcs_aprs_agent.py:412-483 | normalising leaves every fragment unchanged exactly when the reply is printable ASCII; otherwise one is refused |
| `ReplySplitter.AnyFourCharacterId` | scripts/pcs_aprs_agent.py:412-422 | which four characters the ID has does not matter |
| `ReplySplitter.Acceptance` | scripts/pcs_aprs_agent.py:481-482 | replies of 1 to 99 inked characters are never refused; a long one without any always is |
| `RateLimiter.Expire` | scripts/pcs_aprs_agent.py:981-983 | popping from the front of a sorted queue removes exactly the expired events |
| `RateLimiter.SlidingWindowLimiter.Allow` | scripts/pcs_aprs_agent.py:985-995 | grants exactly when the plain rule over the whole history does, although other senders' queues expire lazily |
| `RateLimiter.AllowsExactly` | scripts/pcs_aprs_agent.py:985-995 | the plain rule: granted exactly when in the sixty seconds before fewer than the global limit were granted, and fewer than the sender's limit to the sender |
| `RateLimiter.WindowsBounded` | scripts/pcs_aprs_agent.py:967-995 | over every run no sixty-second window holds more grants than the global and the per-sender limit |
| `RateLimiter.GrantKeepsBound` | scripts/pcs_aprs_agent.py:985-995 | one more grant under the limit keeps every window within it |
| `RateLimiter.ClosedWindowsBounded` | scripts/pcs_aprs_agent.py:981-995 | with both ends of the window counted, no window holds more than twice the limits |
| `RateLimiter.ClosedWindowTight` | scripts/pcs_aprs_agent.py:981-995 | and for every limit that is reached: two bursts exactly sixty seconds apart are granted in full |
| `StateStore.DedupStore.ClaimMessage` | scripts/pcs_aprs_agent.py:662-678 | one claim transaction: purge, lookup and insert as a function of the tables |
| `StateStore.DedupStore.QueueOutboundBatch` | scripts/pcs_aprs_agent.py:714-757 | all messages of a batch are queued with fresh IDs or none; the error cases leave the store as it was |
| `StateStore.DedupStore.DueOutbound` | scripts/pcs_aprs_agent.py:759-769 | the due page: earliest first, oldest first among equals, every row due, none skipped |
| `StateStore.DedupStore.NoteOutboundSent` | scripts/pcs_aprs_agent.py:771-794 | the new row after a send: attempts, next time or exhaustion |
| `StateStore.DedupStore.ApplyOutboundReceipt` | scripts/pcs_aprs_agent.py:796-812 | a receipt closes the matching open row of its recipient and nothing else |
| `StateStore.DedupStore.PurgeOutboundHistory` | scripts/pcs_aprs_agent.py:852-859 | only closed rows older than the retention go |
| `StateStore.DedupStore.StoreMailboxMessage` | scripts/pcs_aprs_agent.py:861-884 | the mailbox after storing a text, trimmed to its limit |
| `StateRuns.ApplyKeeps` | scripts/pcs_aprs_agent.py:544-579 | every transaction keeps the state check's invariant |
| `StateRuns.StateCheckPasses` | scripts/pcs_aprs_agent.py:544-579 | in every reachable store: legal states, attempts, channels, next attempt set exactly when pending, pending bounded |
| `StateRuns.SendsBounded` | scripts/pcs_aprs_agent.py:771-794 | over every run, whatever the clock does, a message is sent at most one time more than there are delays, and its row counts exactly its sends |
| `StateRuns.StepSpacedExactly` | scripts/pcs_aprs_agent.py:771-794 | a transaction leaves all sends the configured delays apart exactly when it records the send of a new or due row, due by its own clock reading |
| `StateRuns.SpacedExactly` | scripts/pcs_aprs_agent.py:759-794 | over every run the sends are spaced all along exactly when each of them was a first one or due by its own reading |
| `StateRuns.InsertAllAdds` | scripts/pcs_aprs_agent.py:714-757 | queueing adds distinct fresh rows that mirror the queued messages and changes no other row |
| `StateRuns.InsertAllExact` | scripts/pcs_aprs_agent.py:714-757 | the i-th message of a batch carries its i-th body, in a new row that is unsent and due at once, and no other rows are added |
| `StateRuns.ReceiptCloses` | scripts/pcs_aprs_agent.py:796-812 | a message closes exactly by a receipt of its own ID from its recipient, with that receipt's disposition |
| `StateRuns.ClosedStays` | scripts/pcs_aprs_agent.py:771-859 | no transaction changes or sends a closed message; only the purge removes it |
| `StateRuns.ClosedIsFinal` | scripts/pcs_aprs_agent.py:771-812 | over every run a closed message that is not purged stays as it was and is never sent again |
| `StateClaims.ReachedReceived` | scripts/pcs_aprs_agent.py:662-678 | only claims change the table of identities, so it is what the claims of the run make it |
| `StateClaims.RemembersAlive` | scripts/pcs_aprs_agent.py:662-678 | on any clock the table holds exactly the executions that no later claim read the clock more than the time to live past |
| `StateClaims.ClaimExact` | scripts/pcs_aprs_agent.py:662-678 | on any clock a claim is new exactly when every earlier execution of the identity is more than the time to live past, by its reading or by that of a claim in between; a duplicate exactly when a remembered execution had the same body |
| `StateClaims.RepeatsExactly` | scripts/pcs_aprs_agent.py:662-678 | within the time to live of the latest execution a claim executes again exactly when a claim in between read the clock more than the time to live past that execution |
| `StateClaims.RepeatsNeedStepBack` | scripts/pcs_aprs_agent.py:662-678 | two executions within the time to live have a claim between them whose reading lies beyond both |
| `StateClaims.AtMostOncePerTtl` | scripts/pcs_aprs_agent.py:662-678 | so with readings that never go back two executions of one sender and ID are more than the time to live apart |
| `StateClaims.ClockStepBackExecutesTwice` | scripts/pcs_aprs_agent.py:662-678 | with a clock that goes back they need not be: a concrete run executes a command twice |
| `StateIds.InsertedNumbered` | scripts/pcs_aprs_agent.py:680-757 | over every run of transactions the k-th inserted message has the k-th base-36 number as its ID, failed batches in between taking none, and every kept row bears such an ID |
| `StateIds.IdsRepeatOnlyAfterWrap` | scripts/pcs_aprs_agent.py:680-757 | over every run two inserted messages have the same ID exactly when a multiple of 36^4 insertions lies between them |
| `StateIds.TakenMeansLastBearerKept` | scripts/pcs_aprs_agent.py:680-712 | over every run the next message finds its ID in use exactly when the message inserted 36^4 before it is still kept |
| `StateIds.RefusedForIdExactly` | scripts/pcs_aprs_agent.py:714-757 | over every run a batch is refused for a taken ID exactly when the batch is otherwise good up to such a message |
| `StateIds.QueuedExactly` | scripts/pcs_aprs_agent.py:714-757 | over every run a batch is queued exactly when it is not empty, pending messages leave room for it, all its bodies have printable words and none of its IDs is still in use |
| `StateIds.IdTextReads` | scripts/pcs_aprs_agent.py:680-712 | an ID is four digits or capitals that write its number in base 36 |
| `StateRuns.MailboxHoldsNewest` | scripts/pcs_aprs_agent.py:861-884 | the mailbox is always exactly the newest accepted texts in order |
| `AprsAgent.Agent.Receive` | scripts/pcs_aprs_agent.py:1424-1438 | which packets reach the handler, and as what message |
| `AprsAgent.Agent.RecordReceipts` | scripts/pcs_aprs_agent.py:1439-1447 | the receipts of a message, reply-ack first, as store transactions |
| `AprsAgent.Agent.Transmit` | scripts/pcs_aprs_agent.py:1373-1398 | one send: its frame, and the send recorded |
| `AprsAgent.Agent.TransmitFirst` | scripts/pcs_aprs_agent.py:1519-1520 | the first n messages sent in order, each as it was queued |
| `AprsAgent.Agent.TransmitAll` | scripts/pcs_aprs_agent.py:1373-1404 | messages sent in order until the TNC does not accept a frame; what was sent before is recorded, nothing of the rest |
| `AprsAgent.Agent.RetryDue` | scripts/pcs_aprs_agent.py:1400-1404 | one retry round sends exactly the due page, up to a send that raises |
| `AprsAgent.Agent.Admit` | scripts/pcs_aprs_agent.py:1439-1461 | receipts, then the acknowledgement, then the limiter's answer; a refused acknowledgement raises before the limiter is asked |
| `AprsAgent.Agent.HandleRequest` | scripts/pcs_aprs_agent.py:1487-1509 | mailbox storage and purge as transactions |
| `AprsAgent.Agent.QueueReply` | scripts/pcs_aprs_agent.py:1508-1520 | queueing and sending the reply as transactions and frames |
| `AprsAgent.Agent.ExecuteRequest` | scripts/pcs_aprs_agent.py:1479-1520 | what follows a claim answered new, the provider being asked for everything but a mailbox text |
| `AprsAgent.Agent.HandleAdmitted` | scripts/pcs_aprs_agent.py:1462-1520 | the claim, and everything else if it is answered new |
| `AprsAgent.Agent.ProcessMessage` | scripts/pcs_aprs_agent.py:1439-1520 | one numbered message: every transaction, every frame and the limiter's history |
| `AprsAgent.Agent.ProcessPacket` | scripts/pcs_aprs_agent.py:1423-1520 | one packet: the object refines the specification of process, transaction by transaction, frame by frame and provider call by call, also when the TNC stops accepting frames midway |
| `AprsAgent.AddressedMessageIsAccepted` | scripts/pcs_aprs_agent.py:1423-1438 | a numbered message that another station addresses to this one is accepted as just that message, through any path of up to eight addresses |
| `AprsAgent.ExactlyOneAck` | scripts/pcs_aprs_agent.py:1423-1520 | each arrival of a numbered message gets exactly one acknowledgement, first and on its channel, be it new, duplicate, conflicting or limited; if the TNC does not accept it, nothing but receipts happens |
| `AprsAgent.SilentOtherwise` | scripts/pcs_aprs_agent.py:1423-1457 | anything is sent exactly when the packet carries a numbered message for this station |
| `AprsAgent.ReplyFrameNoAck` | scripts/pcs_aprs_agent.py:1373-1386 | no reply can be mistaken for an acknowledgement |
| `AprsAnswers.HeardExactly` | scripts/pcs_aprs_agent.py:1423-1438 | by any path of up to eight addresses, a text is heard exactly when it comes on a configured channel, is addressed to this station in letters of any case and is from another one |
| `AprsAnswers.IdsOnAir` | scripts/pcs_aprs_agent.py:1439-1457 | for every text and all IDs on the air: the first ID is the one acknowledged, by the first frame, the second the one recorded as acknowledged by the sender, before anything else |
| `AprsAnswers.ReceiptOnAir` | scripts/pcs_aprs_agent.py:1444-1449 | a text without an ID is never answered and records exactly the receipt that it is, if it is one |
| `AprsAnswers.GrantedExactly` | scripts/pcs_aprs_agent.py:1459-1461 | the limiter is asked exactly for a numbered message whose acknowledgement went out, and lets it through exactly under both limits |
| `AprsAnswers.RequestExact` | scripts/pcs_aprs_agent.py:1463-1470 | a request by its words: MSG in any case with what follows for the mailbox, S and H alone for STATUS and HELP, everything else in capitals for the provider; and the text that the claim remembers |
| `AprsAnswers.RespondExact` | scripts/pcs_aprs_agent.py:1487-1507 | the answer is the provider's; only a failed provider, a stored text and a refused text have the fixed ones |
| `AprsAnswers.MessageHandled` | scripts/pcs_aprs_agent.py:1423-1520 | everything a numbered message causes, by its words: acknowledged first; nothing more without the limiter's consent; only the claim if an unexpired one stands; otherwise executed, and answered in frames that the sender reads as the fragments of just that answer, as far as the store and the TNC take them |
| `AprsAnswers.ShortAnswerIsSent` | scripts/pcs_aprs_agent.py:1423-1520 | from the air and back: a new message is answered in the second frame with the squeezed answer as soon as this fits one message, exactly if the store takes it |
| `AprsRuns.AgentRuns` | scripts/pcs_aprs_agent.py:1373-1597 | over every run of packets, retry rounds, refused sends and kills, on any clock: sends bounded, and spaced exactly when due by their own readings; repetitions within the time to live exactly after a claim read too far ahead; every mailbox store and provider call right after its own new claim |
| `AprsRuns.RunOwnsClaims` | scripts/pcs_aprs_agent.py:1459-1520 | over every run each mailbox store and each provider call directly follows a new claim that belongs to it alone |
| `AprsRuns.RetrySpacedExactly` | scripts/pcs_aprs_agent.py:1400-1404 | a retry round keeps the delays exactly when every row it sends is due by the reading its own record takes |
| `AprsRuns.ClockStepBackSendsTooSoon` | scripts/pcs_aprs_agent.py:1373-1404 | a clock set back between the due query and the record brings the second send closer than the delay |
| `AprsRuns.HandlingBounded` | scripts/pcs_aprs_agent.py:1459-1461 | over every run the limiter bounds the messages that one process handles in every window |
| `LanReceipts.RequestRoundTrip` | scripts/pcs_qualify_lan.py:149-162 | the receiver reads back what the client sends exactly when its number is below 310 |
| `LanReceipts.Receipts.Receive` | scripts/pcs_qualify_lan.py:149-187 | one datagram, in place: reply, retransmission, refusal or a new sample |
| `LanReceipts.RunSound` | scripts/pcs_qualify_lan.py:149-187 | over every run, whatever the clock does, samples are numbered, last at most three seconds, and a gap or a lie has made the book invalid |
| `LanReceipts.RunInOrder` | scripts/pcs_qualify_lan.py:149-187 | with a clock that never goes back, samples follow one another |
| `LanReceipts.RetransmissionIdempotent` | scripts/pcs_qualify_lan.py:163-187 | a request once answered is answered ever after with the same receipt and changes nothing |
| `LanReceipts.PassIsWitnessed` | scripts/pcs_qualify_lan.py:193-197 | a PASS leaves no instant of the window outside a good sample or a gap of at most three seconds |
| `LanReceipts.CoverageExact` | scripts/pcs_qualify_lan.py:193-197 | a window is inconclusive exactly when the book is invalid or an end of the window is unwitnessed, and otherwise failed exactly when some sample was |
| `LanReceipts.ReadyExactly` | scripts/pcs_qualify_lan.py:189-191 | the witness is ready exactly with a valid book of two or more samples, all good, the last at most three seconds ago |
| `LanReceipts.FinishedReachesEnd` | scripts/pcs_qualify_lan.py:186-187 | a finished receiver's last sample ends at or after the requested end |
| `LanReceipts.ReplayExact` | scripts/pcs_qualify_lan.py:305-324 | replaying numbered rows rebuilds them exactly when each lasted between zero and three seconds |
| `LanReceipts.HistoryReplays` | scripts/pcs_qualify_lan.py:305-324 | the history of every run, replayed, is that history, and invalid only for a gap |
| `LanReceipts.UpdateOnlyExtends` | scripts/pcs_qualify_lan.py:305-335 | an accepted snapshot only adds to what was known and keeps the book's promises |
| `LanReceipts.HonestSnapshotsAccepted` | scripts/pcs_qualify_lan.py:305-335 | every later snapshot of the same worker is accepted and makes the parent's copy exact again |
| `LanReceipts.Receiver.Update` | scripts/pcs_qualify_lan.py:305-335 | the replaying loop agrees with the specification; a refusal changes nothing |
| `LanReceipts.ReplayRows` | scripts/pcs_qualify_lan.py:99-110 | the replay loop of the file check, with its early rejections |
| `LanReceipts.Correlate` | scripts/pcs_qualify_lan.py:99-134 | a client file is accepted exactly when it is an honest gap-free exchange equal to the recorded receipts, with one fault and a later recovery |
| `WitnessProtocol.RunKeeps` | scripts/pcs_qualify_lan.py:431-491 | the invariant of client, receiver and network, with loss, duplication and reordering, over every run |
| `WitnessProtocol.RowsArePrefix` | scripts/pcs_qualify_lan.py:454-486 | the client's rows are always a prefix of the receiver's samples, which are at most one ahead |
| `WitnessProtocol.InvalidOnlyWhenOverdue` | scripts/pcs_qualify_lan.py:163-185 | the book is invalid exactly when a due answer was overdue: losing, duplicating or reordering datagrams never invalidates it |
| `WitnessProtocol.CompletedFileCorrelates` | scripts/pcs_qualify_lan.py:431-491 | the file of a client that completed with a valid book is accepted by the correlation |
| `WitnessProtocol.ToldDoneReachesEnd` | scripts/pcs_qualify_lan.py:474-486 | a client told that it is done has recorded every sample, up to the requested end |
| `WitnessProtocol.PromptExchange` | scripts/pcs_qualify_lan.py:474-487 | from every reachable state between exchanges, a prompt exchange records one more sample at both ends and invalidates nothing |
| `FaultLedger.ReachKeeps` | scripts/pcs_qualify_fault.py:60-161 | every operation of every process, failed or crashed, keeps the ledger's invariant |
| `FaultLedger.LedgerNested` | scripts/pcs_qualify_fault.py:133-161 | a harness table exists only while wan.json names its session, wan.json and the marker only while active.json does |
| `FaultLedger.RestoreReturnsClean` | scripts/pcs_qualify_safety.py:125-152 | a restore that returns has left no table, record, marker or lease of its session |
| `FaultLedger.StaleExpiryChangesNothing` | scripts/pcs_qualify_safety.py:134-140 | an expiry of a session that the lease does not name changes no file and no table at any step |
| `FaultLedger.ForeignNeverDeleted` | scripts/pcs_qualify_fault.py:14-21 | a table without an exact owner comment is changed by nobody but its maker |
| `FaultLedger.StepKeeps` | scripts/pcs_qualify_safety.py:78-144 | one step of any process, a failure, a crash or a foreign change keeps the invariant |
| `FaultLedger.RestoreAlone` | scripts/pcs_qualify_fault.py:60-81 | from every reachable state a restore left alone, for all sessions or one, returns at once if the lease is another's, and otherwise removes everything, exactly unless a foreign table stands in the place of a recorded one |
| `FaultLedger.ArmAlone` | scripts/pcs_qualify_fault.py:133-158 | a campaign left alone does arm its fault, with table, record and lease in place |
| `FaultLease.Runtime.Arm` | scripts/pcs_qualify_safety.py:78-111 | refused when anything exists; lease before timer, marker after it; a failure takes both back; all of it a run of the ledger |
| `FaultLease.Runtime.Inject` | scripts/pcs_qualify_fault.py:139-158 | under a valid lease: record, then effect, then inspection; a failure turns to a restore; all of it a run of the ledger |
| `FaultLease.Runtime.ArmPlan` | scripts/pcs_qualify_fault.py:133-161 | armed with table, record and lease of the session, or withdrawn; refused untouched when the place is taken; all of it a run of the ledger |
| `FaultLease.Runtime.Cleanup` | scripts/pcs_qualify_fault.py:60-67 | only a table with the session's exact comment is deleted, and its absence is checked; all of it a run of the ledger |
| `FaultLease.Runtime.CleanupRecord` | scripts/pcs_qualify_fault.py:70-81 | the record goes only after the table is known to be gone; all of it a run of the ledger |
| `FaultLease.Runtime.CleanupOrphan` | scripts/pcs_qualify_fault.py:84-105 | only a table's own exact comment is authority; a foreign one blocks; all of it a run of the ledger |
| `FaultLease.Runtime.Remove` | scripts/pcs_qualify_safety.py:132-144 | one removal: nothing of another session's lease is touched, success leaves nothing; all of it a run of the ledger |
| `CellularCampaign.JudgementExact` | scripts/pcs_qualify_cellular.py:22-48 | each ownership verdict is given exactly when ledger, activation and bearer say so |
| `CellularCampaign.Campaign.Learn` | scripts/pcs_qualify_lan.py:337-351 | what an exchange with the receiver does to the parent's copy: a refused snapshot ends the campaign |
| `CellularCampaign.Campaign.Inject` | scripts/pcs_qualify_cellular.py:230-250 | in place as specified: waits for a ready witness, then rf, view, receiver and health are checked again, then the fault is armed |
| `CellularCampaign.Campaign.Observe` | scripts/pcs_qualify_cellular.py:260-285 | one sample: lease, table, identity, ownership and health in that order |
| `CellularCampaign.Campaign.JudgeFallback` | scripts/pcs_qualify_cellular.py:286-308 | early activation fails; a proof removes the fault |
| `CellularCampaign.Campaign.JudgeRecovery` | scripts/pcs_qualify_cellular.py:309-320 | early return fails; a release ends the recovery |
| `CellularCampaign.Campaign.Contact` | scripts/pcs_qualify_cellular.py:223-259 | poll, boot, injection, witness and lease in that order |
| `CellularCampaign.Campaign.Turn` | scripts/pcs_qualify_cellular.py:223-329 | one turn of the loop refines its specification |
| `CellularCampaign.TurnKeeps` | scripts/pcs_qualify_cellular.py:223-329 | one turn keeps the staged evidence and the soundness of the receiver's book; a pass has all of it |
| `CellularCampaign.RestoredIsClean` | scripts/pcs_qualify_cellular.py:306-308 | a restore that returns does so in a world of the fault ledger with nothing of the session left |
| `CellularCampaign.Run` | scripts/pcs_qualify_cellular.py:189-377 | the outcome is that of the turns, given only when receiver, restore and the last look at kernel and files verify that nothing is left |
| `CellularCampaign.PassIsJustified` | scripts/pcs_qualify_cellular.py:189-329 | every run of turns that ends with a pass is justified by its trace, stage by stage and in time, every instant from injection to recovery witnessed |
| `CellularCampaign.ClosingExact` | scripts/pcs_qualify_cellular.py:369-377 | right after the restore the last look fails exactly for a foreign table or another session's lease |
| `CellularStops.OnlyFixedCodes` | scripts/pcs_qualify_cellular.py:330-362 | whatever an exception says, the campaign ends with one of the fixed codes and never with a pass |
| `CellularStops.VerdictOfTrouble` | scripts/pcs_qualify_cellular.py:330-362 | which verdict each kind of exception gives; a known code is passed on as it is |
| `CellularStops.AdmittedExactly` | scripts/pcs_qualify_cellular.py:190-202 | a campaign begins exactly with a fault of 90 to 180 seconds that holds both windows and three polls, when all budgets fit in 295 seconds and everything looks healthy |
| `CellularStops.ArmingStops` | scripts/pcs_qualify_cellular.py:233-250 | arming ends the campaign exactly for the first of: radio, collector, receiver, a change since the baseline, the effect itself |
| `CellularStops.WaitingStops` | scripts/pcs_qualify_cellular.py:228-232 | before the fault: a changed boot aborts, 45 seconds without a ready witness block, and until then the turn changes nothing |
| `CellularStops.ContactStops` | scripts/pcs_qualify_cellular.py:228-259 | under the fault, contact ends the campaign exactly for the first of: boot, witness invalid, a failed sample, a late witness, a lost lease |
| `CellularStops.ObservationStops` | scripts/pcs_qualify_cellular.py:261-277 | a sample ends it exactly for the first of: table, radio, collector, identity, ownership, health |
| `CellularStops.DeadlineStops` | scripts/pcs_qualify_cellular.py:322-329 | a turn that nothing else has ended ends exactly for the budget, the recovery deadline, or with the verdict of the coverage |
| `CellularCampaign.FailsAtFirstEarly` | scripts/pcs_qualify_cellular.py:286-313 | over every run of turns: one that is stopped for an early activation or an early return ends at just such a sample, and at the first such sample every run is stopped with that failure |
| `CellularCampaign.PassKeepsWindows` | scripts/pcs_qualify_cellular.py:286-313 | in a run that passes no sample between injection and removal shows owned activation before its window, and none between removal and recovery shows Ethernet selected and effective before its own |
| `CellularCampaign.PassMeans` | scripts/pcs_qualify_cellular.py:286-329 | what a pass says in plain readings: the witness answering and everything at rest before the fault, the paths and ownership of the proof, delays, budget, the removal, the release, and every instant in between witnessed by good samples; the proof was looked at for lease and table exactly before the end of the timeout |
| `CellularLapse.UncheckedProofPasses` | scripts/pcs_qualify_cellular.py:257-308 | a concrete run passes whose proof was taken at the end of the timeout with neither lease nor table |
| `BandwidthPlan.Clients` | scripts/pcs_bandwidth_config.py:102-114 | one entry for every host that is not the router, in order, with its own minor number |
| `BandwidthPlan.MinorsDistinct` | scripts/pcs_bandwidth_config.py:106-110 | distinct hosts have distinct minors, none of them the parent's |
| `BandwidthPlan.PlanDirection` | scripts/pcs_bandwidth_engine.py:100-115 | the batch and rules of one direction, or the refusal of too small a total |
| `BandwidthPlan.MakePlan` | scripts/pcs_bandwidth_engine.py:89-117 | both directions, with a counter for every rule |
| `BandwidthPlan.AllocationBounds` | scripts/pcs_bandwidth_engine.py:106-108 | 8 <= guarantee <= ceiling <= total for every class |
| `BandwidthPlan.AllocationExact` | scripts/pcs_bandwidth_engine.py:106-108 | the ceiling is the lesser of rate and total, the total for an unlimited client; the guarantee is the largest rate up to it of which every client could have as much |
| `BandwidthPlan.GuaranteesFit` | scripts/pcs_bandwidth_engine.py:106-108 | the guarantees of a direction never exceed its total |
| `BandwidthPlan.PlanInstalls` | scripts/pcs_bandwidth_engine.py:89-117 | the kernel takes the whole batch and then holds exactly the parent and one class and queue per host |
| `BandwidthPlan.EveryAddressServed` | scripts/pcs_bandwidth_engine.py:89-117 | what one address gets from an installed plan: every usable one but the router's has in each direction a class counted from 0x100 in hexadecimal with the policy's ceiling and the largest fair rate, a queue and a rule of its own; any other has no rule |
| `BandwidthPlan.CheckRates` | scripts/pcs_bandwidth_engine.py:230-251 | health reports no error exactly when every class, rate and queue is the planned one |
| `BandwidthPlan.PlanAndCheck` | scripts/pcs_bandwidth_engine.py:89-117 | plan, install and read back: refused exactly when a total is too small, and otherwise without an error |
| `BandwidthEngine.Engine.DeleteLink` | scripts/pcs_bandwidth_engine.py:199-204 | an IFB is deleted only when it is owned and no redirect points at any |
| `BandwidthEngine.Engine.DropRedirects` | scripts/pcs_bandwidth_engine.py:184-190 | every redirect of the manager goes, and nothing else |
| `BandwidthEngine.Engine.Cleanup` | scripts/pcs_bandwidth_engine.py:166-212 | nothing foreign changes; it succeeds exactly when no operation of it fails and no name is held by others, and then leaves nothing of the manager |
| `BandwidthEngine.Engine.Perform` | scripts/pcs_bandwidth_engine.py:295-319 | one building operation with its fate; a redirect is only ever made to an IFB that exists |
| `BandwidthEngine.Engine.BuildLink` | scripts/pcs_bandwidth_engine.py:296-301 | an IFB: created, its index journaled, its alias set |
| `BandwidthEngine.Engine.BuildRedirect` | scripts/pcs_bandwidth_engine.py:308-313 | one direction attached, a clsact of our making journaled before it is made |
| `BandwidthEngine.Engine.Build` | scripts/pcs_bandwidth_engine.py:295-319 | the operations of a build in order, redirects last, up to the first that fails |
| `BandwidthEngine.Engine.Install` | scripts/pcs_bandwidth_engine.py:294-322 | active exactly when the build works; otherwise taken back exactly when cleanup is possible in the state it left and nothing fails any more |
| `BandwidthEngine.Engine.Apply` | scripts/pcs_bandwidth_engine.py:262-322 | at every step no redirect dangles and nothing foreign changes; the result is decided by the fates of the operations, refusals for a flowtable, an ingress qdisc or a used preference included |
| `BandwidthEngine.BuildWorksExactly` | scripts/pcs_bandwidth_engine.py:294-319 | a build on a cleaned host works exactly when no operation of it fails and both interfaces exist |
| `BandwidthEngine.RollbackExactly` | scripts/pcs_bandwidth_engine.py:294-322 | a failed build can be taken back exactly unless it failed between the creation of an IFB and the writing down of its index |
| `BandwidthEngine.LostLinkBlocksRollback` | scripts/pcs_bandwidth_engine.py:175-183 | a run that does: the IFB is created, journaling its index fails, and the rollback takes it for foreign although nothing fails any more |
| `EchoCache.KeysDistinct` | scripts/pcs_meshtastic_gateway.py:179-185 | messages with NUL-free topics never share a key |
| `EchoCache.KeysCollideExactly` | scripts/pcs_meshtastic_gateway.py:179-185 | two messages share a key exactly when they are the same or one topic is the other, NUL and a beginning of its payload |
| `EchoCache.Cache.Expire` | scripts/pcs_meshtastic_gateway.py:204-209 | looking only at the front removes exactly the expired entries |
| `EchoCache.Cache.Remember` | scripts/pcs_meshtastic_gateway.py:187-195 | agrees with a plain list that drops everything expired and keeps the newest; expiry times stay in order |
| `EchoCache.Cache.Consume` | scripts/pcs_meshtastic_gateway.py:197-202 | found exactly when the plain list holds a live entry, which is then gone |
| `EchoCache.ConsumesBounded` | scripts/pcs_meshtastic_gateway.py:187-202 | over every run each remember satisfies at most one consume |
| `EchoCache.SwallowedIsRecent` | scripts/pcs_meshtastic_gateway.py:187-202 | a consume succeeds only within the time to live of an untouched remember |
| `EchoCache.EchoIsSwallowed` | scripts/pcs_meshtastic_gateway.py:187-209 | and it does succeed there, unless as many other messages as the cache holds came between |
| `PositionSelection.PositionState.Update` | scripts/pcs_location.py:154-181 | one report, in place, with the clock read up to three times |
| `PositionSelection.CollectedIsOneEpoch` | scripts/pcs_location.py:160-164 | what is collected are the fields of one epoch as its reports gave them last: since a report that gave another time, or the connection was lost, nothing from before it |
| `PositionSelection.FixIsLastComplete` | scripts/pcs_location.py:165-181 | the fix is what the latest report completed that made it usable, whole or without a fix; after a lost connection there is none |
| `PositionSelection.FreshExactly` | scripts/pcs_location.py:154-193 | a new epoch comes exactly with a report that completes a usable fix - mode, coordinates in degrees, a time with offset at most thirty seconds old or five ahead - of another time than the latest that did |
| `PositionSelection.GpsIsFresh` | scripts/pcs_location.py:194-199 | source GPS means that the latest new epoch came at most fifteen seconds ago |
| `PositionSelection.GoodMeansSteady` | scripts/pcs_location.py:154-181 | the recovery timer counts from a new epoch since which nothing invalid, late or disconnected came |
| `PositionSelection.YieldsExactlyAfterRecovery` | scripts/pcs_location.py:194-199 | which position is shown, exactly: a manual one while enabled and persistent or until a good fix has been steady for five seconds, whatever partial reports came, GPS while its fix is good, otherwise none |
| `CellularFallback.FallbackController.TakeStep` | scripts/pcs_cellular_fallback.py:144-186 | one step, in place, with every observation and command allowed to fail |
| `CellularFallback.FallbackController.ReleaseOwned` | scripts/pcs_cellular_fallback.py:134-142 | releasing disconnects only while the marker stands |
| `CellularFallback.DisconnectsOnlyWhileMarked` | scripts/pcs_cellular_fallback.py:134-169 | a disconnect is issued only while a marker stands that one of our own successful connects wrote |
| `CellularFallback.ConnectsAfterLoss` | scripts/pcs_cellular_fallback.py:171-186 | a connect follows the loss window in which every step saw Wi-Fi and cellular down |
| `CellularFallback.DisconnectsAfterRecovery` | scripts/pcs_cellular_fallback.py:150-169 | a disconnect by a step follows the recovery window in which every step saw Wi-Fi up |
| `CellularFallback.LongLossConnects` | scripts/pcs_cellular_fallback.py:171-186 | and after such a window without a connect, the next step that sees both down does connect |
| `CellularFallback.LongRecoveryDisconnects` | scripts/pcs_cellular_fallback.py:150-169 | and after such a window with the marker standing, the next step that sees both up does disconnect |
| `CellularFallback.MarkedExactly` | scripts/pcs_cellular_fallback.py:114-142 | the marker stands exactly when some connect wrote it and nothing since - a disconnect, a stale session seen - has removed it |
| `CellularFallback.LossTimerExactly` | scripts/pcs_cellular_fallback.py:152-183 | the loss timer is the clock reading of the first step to see both down since the last restart, recorded connect, or sight of Wi-Fi or cellular up |
| `CellularFallback.RecoveryTimerExactly` | scripts/pcs_cellular_fallback.py:150-171 | the recovery timer is that of the first step to see both up under the marker since the last event that ended a measurement |
| `CellularFallback.ConnectsExactly` | scripts/pcs_cellular_fallback.py:171-186 | a connect is issued exactly by a step that sees both down when the loss has been measured for its window |
| `CellularFallback.DisconnectsExactly` | scripts/pcs_cellular_fallback.py:134-169 | a disconnect is issued exactly by a step that sees both up under the marker when the recovery has been measured for its window, and by a release that finds marker and session |
| `CellularFallback.HitsOperatorExactly` | scripts/pcs_cellular_fallback.py:134-169 | it hits the operator's session exactly when the operator's own connect under the marker was the last change |
| `CellularFallback.OperatorIsDisconnected` | scripts/pcs_cellular_fallback.py:144-169 | a concrete run in which that happens |
| `LowVoltage.LowVoltageGuard.TakeReading` | scripts/pcs_power_monitor.py:304-327 | one reading, in place |
| `LowVoltage.RemainingZero` | scripts/pcs_power_monitor.py:329-332 | nothing remains exactly when the delay has passed since the alarm began |
| `LowVoltage.AlarmStep` | scripts/pcs_power_monitor.py:304-327 | when one reading turns the alarm on, keeps it or clears it |
| `LowVoltage.AlarmIsConfirmed` | scripts/pcs_power_monitor.py:304-327 | the alarm stands only after enough low readings with no clearing one among them or since |
| `LowVoltage.AlarmStays` | scripts/pcs_power_monitor.py:304-327 | it stays exactly until a reading or a source clears it |
| `LowVoltage.ReadingsInVolts` | scripts/pcs_power_monitor.py:304-327 | what counts as low and what clears, in volts: the supply is a twelve-volt one by its setting or, in automatic mode, while its latest reading of at least ten volts is below eighteen |
| `LowVoltage.AlarmExact` | scripts/pcs_power_monitor.py:304-327 | over every run the alarm is on exactly when, since some reading, nothing has cleared it and at least the configured number of readings of a twelve-volt supply on battery were below the threshold |
| `LowVoltage.LowRunAlarms` | scripts/pcs_power_monitor.py:304-327 | in automatic mode enough readings in a row between ten volts and the threshold do alarm |
| `LowVoltage.EighteenVoltsClear` | scripts/pcs_power_monitor.py:304-327 | a reading of at least eighteen volts in automatic mode, or a fixed supply of 24 volts, leaves no alarm |
| `LowVoltage.RemainingExact` | scripts/pcs_power_monitor.py:329-332 | what remains is the rest of the delay in whole seconds, rounded up |
| `LowVoltage.ShutdownAfterDelay` | scripts/pcs_power_monitor.py:512-524 | a shutdown is asked for only after the delay of uninterrupted alarm, on battery |
| `LowVoltage.OncePerEpisode` | scripts/pcs_power_monitor.py:519-526 | between two requests the alarm was off |
| `LowVoltage.DueIsAsked` | scripts/pcs_power_monitor.py:519-526 | when the delay is over and shutdown is armed, it has been asked for in this episode |
| `LowVoltage.RunService` | scripts/pcs_power_monitor.py:512-527 | the service's loop asks exactly when the specification does |

## Left out

- SQLite, sockets, subprocesses, systemd, D-Bus and nft/tc/ip output: replaced by state and atomic steps.
- Logging, status files, reporting counters and the text of provider answers: the provider is any function or failure.
- Upper-casing, stripping and splitting outside ASCII: `PyText` covers the white space Python strips and ASCII letters.
- AprsAgent.Agent.ProcessPacket: the process is not killed within it; `AprsRuns.AgentRuns` allows a kill after any transaction.
- StateStore.DedupStore.ClaimMessage: one reading of the clock per transaction; schema creation and migration of the database are left out.
- The agent's configuration file, its socket loop and marking the mailbox as read.
- LanReceipts.Correlate: the client file's header, trailer, wall-clock and byte-limit checks, and the counters of its summary.
- LanReceipts.Receiver.Update: the JSON types of a snapshot; its fields are already of the right type.
- WitnessProtocol.RunKeeps: HTTP sampling and route checks are one free outcome; the receiver's own six-minute deadline is left out.
- FaultLedger.LedgerNested: one boot, with an nft transaction as one step; a child process that outlives its crashed parent is not modelled, nor are the escalation's checks of whom to kill (a kill is a crash).
- FaultLedger.RestoreAlone: the file contents beyond version, session and boot; a corrupt record stops a restore.
- The lease's deadline: an expired lease is a failure that may come at any check.
- FaultLease.Runtime.ArmPlan: other processes are at rest while one process's code runs; their interleavings are in `FaultLedger`.
- CellularCampaign.Run: that a healthy station does pass is not stated, only what a pass means; collecting a snapshot (addresses, identities, the refreshed route) is one outcome; events that are logged once are not repeated in the trace.
- BandwidthPlan.MakePlan: rates are parsed integers; the nft text around the rules and the topology detection are left out, as is the YAML validation.
- BandwidthPlan.CheckRates: the table fingerprint, the link flags and the redirect's match text.
- BandwidthEngine.Engine.Apply: the early return when nothing changed, and other tools changing the kernel meanwhile.
- BandwidthEngine.Engine.Perform: reading an IFB's index and journaling it are one operation; operations on objects outside the model are one that works or fails.
- EchoCache.Cache.Remember: the lock; each operation is one step.
- PositionSelection.PositionState.Update: sky reports, the grid square and the assembly of the published report.
- CellularFallback.FallbackController.TakeStep: a marker written for another profile counts as no marker.
- LowVoltage.RunService: sensor reading, energy tracking, status files and the shutdown command itself; voltages are reals, an unreadable one is absent.
- The energy tracker, the other campaign scenarios, the dashboard, GPIO, audio, provisioning and reinstall tools: easy members or hardware plumbing.

# Verified models of the Golden Gate protocol stack

Dafny models of the state machines and codecs at the core of the Golden Gate stack, with proofs of
what they guarantee. `dafny verify dfyconfig.toml` checks everything.

**Gattlink** is a go-back-N reliable byte stream with 5-bit sequence numbers over an unreliable
packet link. `GattlinkEndpoint` gives every handler of one endpoint as a function on values;
`GattlinkProtocol` is the object with its fields updated in place, each method proved equal to
those functions. `GattlinkSender` and `GattlinkWakeUp` relate an endpoint to unbounded counters,
kept in an auxiliary log that handlers write and never read. `GattlinkNetwork` joins two endpoints
by two channels that keep order and may lose anything, and proves one inductive invariant;
`GattlinkTheorems` draws the conclusions. A transport may refuse any send.

`GattlinkHandshake` shows that the reset handshake leads, from whatever state, to the one from which
these runs begin; `GattlinkSizes` that packets fit as long as no send is refused. The bound of 16 on
windows is on what the two ends negotiate; what either wishes does not matter. `GattlinkLiveness`
says of each state whether some continuation gets something acknowledged; `GattlinkProgress`
and `GattlinkRescue` construct the continuations, and the dead ends are in `GattlinkLimits`,
`GattlinkDeadlock` and `GattlinkChoked`. `GattlinkReceiver` is about what an end makes of data and of
its client's calls, `GattlinkWide` about windows above the limit.

Where the protocol does not do what it is for there is an exact condition, and a concrete run that
gets there, most of them in `GattlinkWitnesses`:

- A send refused while resending, followed by an ack for everything sent, leaves the sender unable
  ever to send data again in that session. With a window of 2 to 16 this is the only dead end, so a
  sender that has met no refusal can always go on.
- With a negotiated window of 1 a single lost ack ends all progress in that direction too, because
  the repeated packet is at distance 1, which the test at lines 909-910 of gg_gattlink.c already
  counts as out of sequence.
- A retransmission put off by a refused send until an ack is due as well carries both; with a
  fragment of 511 bytes it is then one byte longer than the largest packet, longer than the send
  buffer of gg_gattlink.c:128, and refused by every receiver. With a window of 1 in the other
  direction the ack can be lost in it for good, a third dead end.
- An ack whose timer fires while the transport refuses to send is left without any timer; so is data
  that waits for window space, if the packet that frees it carries data that is not taken.
- With a window from 17 to 31 a packet beyond a gap can be taken for an old one; the receiver then
  acknowledges packets it never had, and the sender releases bytes that were never accepted.
- With a window of 32 or more the sending loop need not end.

**CoAP messages** (`CoapOptions`, `CoapMessage`, `CoapGrammar`, `CoapIterator`): the printer, the
validating parser and the unchecked option iterator of section 3 of RFC 7252. An option number 0 looks like the end
to a client loop, and options that cannot be encoded end the option list silently; the theorems say
where this matters.

**Blockwise upload** (`Blockwise`, `BlockwiseUpload`, `BlockwiseVerdicts`): the BLOCK1 client against the server helper
(sections 2.2 and 2.5 of RFC 7959). The header describes the chunk function as returning 0 outside
the payload; the code returns an error, and the model follows the code.

**Record storage** (`RingBuffer`, `RecordQueue`, `RamStorage`): bytes in a ring buffer refining a
queue of records with handles. A payload of 65534 or 65535 bytes makes the 16-bit size wrap and
damages the ring.

**Bit streams** (`BitArithmetic`, `BitStream`), **timers** (`Timers`, `TimerService`,
`TimerTheorems`), **event dispatch** (`EventDispatcher`), **base64** (`Base64`) and **protobuf encodings** (`Protobuf`,
`ExtendedError`): each imperative form against an independent definition, on bits, lists or fields.

Conventions: what the code gets from outside is a parameter (the time, the transport's packet size
and refusals, what a client takes and submits when called back, what listeners do when notified,
what a server answers). Listeners that change the structure that notifies them are functions from the
current state to a list of operations. Shifts and masks are written as divisions, products and
remainders.

## Model

| member | source | states |
|---|---|---|
| `GattlinkTheorems.StreamSafety` | xp/gattlink/gg_gattlink.c:649-942 | in every run of two endpoints that negotiated windows of at most 16, over channels that lose packets and transports that refuse sends, in both directions: bytes released by the sender's client are a prefix of bytes accepted by the receiver, these a prefix of bytes submitted, and bytes read a prefix of bytes accepted |
| `GattlinkTheorems.CountersRefined` | xp/gattlink/gg_gattlink.c:571-643 | in every reachable state a slot of the size table is non-zero exactly for an unacknowledged packet number, these never exceed the window nor, in bytes, the client's outgoing data; without refused sends the in-flight count modulo 32 is the true one |
| `GattlinkTheorems.RetransmissionsIdentical` | xp/gattlink/gg_gattlink.c:682-712 | any two transmissions of one packet number, ever, carry the same bytes, namely the fragment recorded at the first one |
| `GattlinkTheorems.AcksNameAcceptedPackets` | xp/gattlink/gg_gattlink.c:890-928 | every ack ever sent names a packet that was accepted in order, and none is sent before one was |
| `GattlinkTheorems.GapNeverTakenForOld` | xp/gattlink/gg_gattlink.c:902-921 | with windows up to 16 the packet at the head of the channel is judged by its unbounded number: expected, old, or beyond a gap |
| `GattlinkTheorems.WindowLimit` | xp/gattlink/gg_gattlink.c:577-581 | a packet beyond a gap is kept apart from old ones if and only if the window is at most 16 |
| `GattlinkTheorems.LoopNumbers` | xp/gattlink/gg_gattlink.c:727-762 | one call of the sending loop, with any refusals, sends consecutive packet numbers from the current one on |
| `GattlinkTheorems.LoopSendsAll` | xp/gattlink/gg_gattlink.c:727-762 | a run of the loop that meets no refusal leaves nothing numbered unsent and nothing to send, whatever was refused before |
| `GattlinkTheorems.TimeoutResendsAll` | xp/gattlink/gg_gattlink.c:777-822 | a retransmit timeout that meets no refusal sends the whole unacknowledged range again, in order, then only new packets, whatever was refused before |
| `GattlinkReceiver.LoopFillsWindow` | xp/gattlink/gg_gattlink.c:655-762 | a run of the loop that meets no refusal keeps bytes back only if the window is full |
| `GattlinkReceiver.FreshFills` | xp/gattlink/gg_gattlink.c:696-712 | a new packet is as long as the transport takes or carries all that is left |
| `GattlinkReceiver.TakeExact` | xp/gattlink/gg_gattlink.c:1015-1070 | a client gets exactly the next bytes of the accepted stream, up to all that are unread, and the buffer is free with the last; a larger count is refused |
| `GattlinkReceiver.PayloadStatus` | xp/gattlink/gg_gattlink.c:883-941 | the data of a packet is taken, counted as a repetition, or refused with its status, exactly by the state of the buffer and the verdict on its number; only data that is taken extends the accepted stream |
| `GattlinkReceiver.AckedAtHalf` | xp/gattlink/gg_gattlink.c:659-664 | a packet is acknowledged at once if and only if with it more than half the window has not been; otherwise it is counted and the ack timer armed |
| `GattlinkReceiver.PacketSubmits` | xp/gattlink/gg_gattlink.c:867-906 | what a client submits from inside the two calls becomes part of its stream, in that order |
| `GattlinkTheorems.Mirrored` | xp/gattlink/gg_gattlink.c:827-942 | exchanging the two ends exchanges their roles in every run, so what is stated of one end holds of the other |
| `GattlinkWakeUp.NoLostWakeUp` | xp/gattlink/gg_gattlink.c:405-493 | after any events from creation on that open no session with a window above 16, resets and refusals included: an awaited reset or an unacknowledged packet has the retransmit timer armed; an ack that is owed has the ack timer armed, unless that timer has fired while the transport refused to send, and then it is forced with the next packet |
| `GattlinkWakeUp.LostIffRefused` | xp/gattlink/gg_gattlink.c:765-774 | an event leaves an ack owed without its timer, which it was not before, if and only if it is the ack timer firing for it while the transport refuses to send |
| `GattlinkWakeUp.RunArmed` | xp/gattlink/gg_gattlink.c:965-999 | over every script in which that does not happen, an ack that is owed has its timer armed |
| `GattlinkWitnesses.WakeUpLost` | xp/gattlink/gg_gattlink.c:765-774 | a fresh session, with any windows, in which a byte arrives and the ack timer fires into a refusal: an ack is owed and no timer is armed at all |
| `GattlinkReceiver.WaitsUnarmedIff` | xp/gattlink/gg_gattlink.c:839-920 | an event leaves data waiting, with room in the window and no timer armed, if and only if it is a packet that acknowledges all that was outstanding and whose own data is not taken: the handler then returns without sending |
| `GattlinkReceiver.DataStranded` | xp/gattlink/gg_gattlink.c:839-920 | for any window, a fresh session in which that happens |
| `GattlinkWakeUp.ReactOk` | xp/gattlink/gg_gattlink.c:765-942 | every entry point keeps the endpoint's invariant: size table and counters in step, client stream split at the ack, timers armed |
| `GattlinkWakeUp.RunOk` | xp/gattlink/gg_gattlink.c:965-999 | the invariant over every script of events |
| `GattlinkWakeUp.SendNextOk` | xp/gattlink/gg_gattlink.c:727-762 | the sending loop keeps the sender in step with the unbounded counters and, unless refused, leaves nothing recorded unsent |
| `GattlinkEndpoint.SendProgress` | xp/gattlink/gg_gattlink.c:655-762 | each turn of the loop uses up window space or settles the pending ack, for every state with a window below 32 |
| `GattlinkWide.LoopEndsIff` | xp/gattlink/gg_gattlink.c:727-762 | the sending loop ends from every state, whatever was submitted and however the transport behaves, if and only if the window is below 32 |
| `GattlinkWide.SubmitNeverEnds` | xp/gattlink/gg_gattlink.c:672-712 | with a window of 32 or more a fresh session given 32 full packets goes on sending for ever: the slots are reused while the distance modulo 32 never reaches the window |
| `GattlinkSender.ResendSameBytes` | xp/gattlink/gg_gattlink.c:691-712 | a number sent before is rebuilt from recorded sizes to exactly its first payload, whatever acks have shifted in between |
| `GattlinkSender.FreshBytes` | xp/gattlink/gg_gattlink.c:696-712 | a new number carries the bytes that follow everything in flight and fits the transport's packet size |
| `GattlinkSender.AfterSendingOk` | xp/gattlink/gg_gattlink.c:740-760 | one accepted send keeps counters, sizes and timers in step |
| `GattlinkSender.HandleAckOk` | xp/gattlink/gg_gattlink.c:839-869 | any ack byte, genuine or not, moves the acknowledged count to just after the packet whose slot it names, releasing exactly those bytes, or changes nothing |
| `GattlinkSender.AwaitingIsFlat` | xp/gattlink/gg_gattlink.c:615-625 | the sum over slots modulo 32 is the total length of the fragments between the two unbounded numbers |
| `GattlinkSender.ClearMoves` | xp/gattlink/gg_gattlink.c:635-643 | clearing slots moves the start of the recorded range and touches no other packet |
| `GattlinkNetwork.StepOk` | xp/gattlink/gg_gattlink.c:827-942 | every step of the two-endpoint system keeps its invariant |
| `GattlinkNetwork.RunOk` | xp/gattlink/gg_gattlink.c:827-942 | so does every run |
| `GattlinkNetwork.ConnectedOk` | xp/gattlink/gg_gattlink.c:498-534 | the invariant holds when both ends have just become ready with negotiated windows of at most 16, whatever they wished |
| `GattlinkNetwork.RefilledHandled` | xp/gattlink/gg_gattlink.c:867-867 | a client that submits more from inside the call that releases bytes, with a run of the sending loop between the two halves of a packet, keeps both directions in order |
| `GattlinkNetwork.AcceptedHandled` | xp/gattlink/gg_gattlink.c:890-906 | so does one that answers from inside the call that tells it of data, between moving the expected number and the number acknowledged |
| `GattlinkNetwork.AckMeansAccepted` | xp/gattlink/gg_gattlink.c:839-869 | an ack from the peer moves the acknowledged count to what the peer had accepted when it was sent, or is old |
| `GattlinkNetwork.JudgedByTrueNumber` | xp/gattlink/gg_gattlink.c:902-921 | the three verdicts on a sequence number in terms of unbounded packet numbers |
| `GattlinkNetwork.FrameParse` | xp/gattlink/gg_gattlink.c:836-876 | what a receiver reads in a packet is what the sender put there |
| `GattlinkLimits.AckOfAllStalls` | xp/gattlink/gg_gattlink.c:839-869 | an ack for everything sent leaves the sender stalled if and only if a refused send has left part of it to be resent |
| `GattlinkLimits.StalledForever` | xp/gattlink/gg_gattlink.c:655-762 | during any list of events without a reset a stalled sender sends no data, whatever the client, the timers and the peer do, and stays stalled |
| `GattlinkWitnesses.StallReached` | xp/gattlink/gg_gattlink.c:738-744 | between any two ends with a window, a run of the system from a fresh session that stalls: one byte accepted, its retransmission refused, its ack received |
| `GattlinkWide.FalseAck` | xp/gattlink/gg_gattlink.c:907-928 | for every window from 17 to 31, any packet beyond a gap makes a receiver with nothing accepted acknowledge packet 0 |
| `GattlinkWide.SafetyIff` | xp/gattlink/gg_gattlink.c:649-942 | for any two ends whose negotiated windows are below 32, the streams of both directions stay in order in every run if and only if neither window exceeds 16 |
| `GattlinkDeadlock.RepeatRecognised` | xp/gattlink/gg_gattlink.c:902-921 | the last accepted packet, arriving again, is recognised and acknowledged again if and only if the window is at least 2 |
| `GattlinkDeadlock.DeadlockedForever` | xp/gattlink/gg_gattlink.c:827-942 | with a window of 1, once the only ack is lost no run ever makes progress again |
| `GattlinkWitnesses.DeadlockReached` | xp/gattlink/gg_gattlink.c:827-942 | between any two ends that negotiate a window of 1 that state is reached from a fresh session by losing one ack |
| `GattlinkProgress.ByTimeout` | xp/gattlink/gg_gattlink.c:765-942 | from every state in which an end waits for an ack, whatever was lost or refused before, with a window of at least 2 or the oldest packet not accepted: some moves of clients, timers and channels get that packet acknowledged |
| `GattlinkProgress.Restart` | xp/gattlink/gg_gattlink.c:655-712 | a sender with all acknowledged that is not stalled can be made to send something new |
| `GattlinkProgress.Speak` | xp/gattlink/gg_gattlink.c:655-724 | an end that owes an ack can get it on its way in a packet that can be received, unless both the packet it is to send next and its oldest are of the largest size with the ack due |
| `GattlinkLiveness.ProgressIff` | xp/gattlink/gg_gattlink.c:649-942 | of every state of an open session: some continuation gets something acknowledged if and only if there is a window and the sender is neither stalled nor, with a window of 1, deadlocked or choked; with a window of at least 2 the stall, which takes a refused send, is the only dead end |
| `GattlinkLiveness.NarrowIff` | xp/gattlink/gg_gattlink.c:649-724 | for any two ends that negotiate a window of 1: in all reachable states the stall and the deadlock are the only dead ends if and only if the other end's transport never reports the largest packet size or that end may send no data |
| `GattlinkLiveness.HopelessForever` | xp/gattlink/gg_gattlink.c:827-942 | no run leads out of a stalled, deadlocked or choked session or one without a window, and nothing is acknowledged in it |
| `GattlinkLiveness.DeadEndReached` | xp/gattlink/gg_gattlink.c:738-744 | between any two ends a dead end can be reached |
| `GattlinkChoked.ChokedStep` | xp/gattlink/gg_gattlink.c:682-712 | with a window of 1, when the ack waited for can only go out in a packet too long to be received and no news can reach the end that owes it, every step leaves it so or loses the ack |
| `GattlinkRescue.ByAnyNews` | xp/gattlink/gg_gattlink.c:839-869 | any news for that end leads on: an ack of its data in transit, one the waiting end is to send, or a packet in transit that makes it send one |
| `GattlinkWitnesses.ChokedReached` | xp/gattlink/gg_gattlink.c:696-711 | that state is reached from a fresh session: a packet of the largest size is lost, its retransmission refused, and so is the ack of the byte that arrives then |
| `GattlinkSizes.PacketsFit` | xp/gattlink/gg_gattlink.c:655-712 | in every run in which an end has met no refusal, every packet it ever sent fits the largest size its transport has reported |
| `GattlinkSizes.NoneTooLong` | xp/gattlink/gg_gattlink.c:655-712 | nor does any exceed the largest packet size, whatever its transport reports |
| `GattlinkSizes.ResentFits` | xp/gattlink/gg_gattlink.c:696-711 | a retransmission fits the largest packet size if and only if its recorded size, 1 for the sequence number and 1 more with an ack due do; it does not exactly if an ack is due and its fragment was of the largest size |
| `GattlinkSizes.TooLongRefused` | xp/gattlink/gg_gattlink.c:833-836 | a receiver refuses a packet for its length, changing nothing, exactly if it exceeds the largest size |
| `GattlinkWitnesses.TooLongReached` | xp/gattlink/gg_gattlink.c:696-711 | from a fresh session: a fragment of 511 bytes, its retransmission refused, an ack that falls due; the packet then sent has 513 bytes and no receiver takes it |
| `GattlinkHandshake.HandshakeConnects` | xp/gattlink/gg_gattlink.c:405-567 | from any state of either end, whatever was lost before: a request, made by starting, by the client or by the timer of an end that waits, and the two completions leave both ends in the state from which runs begin |
| `GattlinkHandshake.CrossingConnects` | xp/gattlink/gg_gattlink.c:405-567 | and so do two requests that cross |
| `GattlinkHandshake.WindowsFit` | xp/gattlink/gg_gattlink.c:511-515 | what one end may have in flight is what the other is prepared to receive, and that is the largest number both wish for |
| `GattlinkHandshake.SessionChangesIff` | xp/gattlink/gg_gattlink.c:540-567 | of every packet in every state: a session opens if and only if a whole completion reaches an end that waits for one, and closes if and only if a request reaches an end that was started; every other control packet, and every packet outside a session, changes nothing, with the status returned |
| `GattlinkHandshake.Knocks` | xp/gattlink/gg_gattlink.c:454-471 | a request, in whatever state, leaves the end waiting with only the handshake timer armed and the client's bytes purged, whether or not the transport takes it |
| `GattlinkHandshake.Answers` | xp/gattlink/gg_gattlink.c:476-493 | so does the answer to one |
| `GattlinkHandshake.Completes` | xp/gattlink/gg_gattlink.c:498-534 | a completion opens a fresh session with the negotiated windows; only the end that made the request answers it |
| `GattlinkNetwork.StrayIgnored` | xp/gattlink/gg_gattlink.c:549-566 | an open session ignores completions and unknown control packets; such packets are among the moves of every run above |
| `GattlinkProtocol.Protocol.BytesAwaitingAckUpTo` | xp/gattlink/gg_gattlink.c:615-625 | the loop sums the slots the specification sums |
| `GattlinkProtocol.Protocol.ClearPayloadSizesUpTo` | xp/gattlink/gg_gattlink.c:635-643 | the loop clears exactly the slots of the specification, in place |
| `GattlinkProtocol.Protocol.PrepareNextPacket` | xp/gattlink/gg_gattlink.c:649-724 | builds the specified packet, reports the specified size, changes nothing but the retransmit timer |
| `GattlinkProtocol.Protocol.SendNextPackets` | xp/gattlink/gg_gattlink.c:727-762 | the loop sends the datagrams of the specification and ends in its state, refusals included |
| `GattlinkProtocol.Protocol.HandleAckedPsn` | xp/gattlink/gg_gattlink.c:839-869 | releases and clears as specified |
| `GattlinkProtocol.Protocol.SubmitAll` | xp/gattlink/gg_gattlink.c:867-867 | the client's submissions from inside a call that releases bytes or tells of data, each with its run of the loop, refine the specification |
| `GattlinkProtocol.Protocol.HandleDataPacket` | xp/gattlink/gg_gattlink.c:828-942 | status, state and datagrams of the specification for every packet and every reaction of the client |
| `GattlinkProtocol.Protocol.ConsumeIncomingData` | xp/gattlink/gg_gattlink.c:1054-1070 | takes bytes from the single receive buffer, or refuses a count beyond what is there, as specified |
| `GattlinkProtocol.Protocol.AcceptPayload` | xp/gattlink/gg_gattlink.c:890-906 | buffers the payload, lets the client answer and take, and only then moves the number to acknowledge |
| `GattlinkProtocol.Protocol.OnAckTimerFired` | xp/gattlink/gg_gattlink.c:765-774 | refines the specification of the ack timer |
| `GattlinkProtocol.Protocol.OnSendTimeoutFired` | xp/gattlink/gg_gattlink.c:777-822 | refines the specification of the retransmit timer in every state |
| `GattlinkProtocol.Protocol.ResetSession` | xp/gattlink/gg_gattlink.c:454-471 | refines the reset request |
| `GattlinkProtocol.Protocol.HandleResetCompletePacket` | xp/gattlink/gg_gattlink.c:498-534 | negotiates both windows and zeroes the session |
| `GattlinkProtocol.Protocol.HandleControlPacket` | xp/gattlink/gg_gattlink.c:540-567 | refines the handshake, unknown types included |
| `GattlinkProtocol.Protocol.HandleIncomingRawData` | xp/gattlink/gg_gattlink.c:1075-1125 | dispatches by packet type and session state as specified |
| `CoapMessage.CreateFromDatagram` | xp/coap/gg_coap_message.c:196-349 | the single pass accepts exactly the datagrams of the whole-message definition, with its errors and payload position |
| `CoapGrammar.AcceptedIff` | xp/coap/gg_coap_message.c:196-349 | a datagram is accepted if and only if it has the form of a message: version 1, a token of at most 8 bytes, options in their only encoding, a payload that is not empty behind its marker; the payload is found where the form has it |
| `CoapGrammar.TypesByNumber` | xp/coap/gg_coap_message.c:848-888 | the type of a value by the number of its option |
| `CoapGrammar.LengthOfUint` | xp/coap/gg_coap_message.c:391-404 | an integer takes the fewest bytes that hold it, one more if all their bits are set, none if it is 0 |
| `CoapMessage.PrintParse` | xp/coap/gg_coap_message.c:547-653 | parsing a printed message succeeds and gives back type, code, id, token and payload, for all options of matching types |
| `CoapMessage.PrintDecode` | xp/coap/gg_coap_message.c:467-544 | the options read back are the writable prefix of the sorted options |
| `CoapMessage.SortIsStable` | xp/coap/gg_coap_message.c:568-587 | the list is in number order and, for each number, in the given order |
| `CoapMessage.SortSameOptions` | xp/coap/gg_coap_message.c:568-587 | sorting loses and invents nothing |
| `CoapMessage.LinkSorted` | xp/coap/gg_coap_message.c:568-587 | inserting one by one from the front yields that list |
| `CoapMessage.ComputeOptionsSize` | xp/coap/gg_coap_message.c:428-459 | the size computed is the size written |
| `CoapMessage.WriteOption` | xp/coap/gg_coap_message.c:488-540 | one option written in place through a moving position, nothing else touched |
| `CoapMessage.SerializeOptions` | xp/coap/gg_coap_message.c:467-544 | all writable options, written in place one after the other, stopping at the first that cannot be encoded |
| `CoapMessage.Create` | xp/coap/gg_coap_message.c:547-653 | the datagram built is the printed message, or the token is refused |
| `CoapOptions.ReadEncoded` | xp/coap/gg_coap_message.c:353-387 | an option reads back as its delta, value and size whatever follows, for all three forms of delta and length |
| `CoapOptions.OptionsRoundTrip` | xp/coap/gg_coap_message.c:239-332 | the validator accepts any written option area followed by its end and finds exactly the written options |
| `CoapOptions.ReadOptionsInside` | xp/coap/gg_coap_message.c:239-332 | accepted options lie inside the datagram and end at its end or at a payload marker |
| `CoapOptions.UintRoundTrip` | xp/coap/gg_coap_message.c:391-422 | every 32-bit value survives, also 0xFF, 0xFFFF and 0xFFFFFF, which take a byte too many |
| `CoapOptions.AllWritable` | xp/coap/gg_coap_message.c:428-459 | what is written is a prefix, and everything if and only if every distance between numbers and every length can be encoded |
| `CoapIterator.OptionIterator.StepUnchecked` | xp/coap/gg_coap_message.c:803-896 | for a validated message the unchecked step stays inside the option area and moves to the next option the validator found |
| `CoapIterator.OptionIterator.Step` | xp/coap/gg_coap_message.c:900-915 | the filtered step yields the next matching option; it terminates |
| `CoapIterator.Collect` | xp/coap/gg_coap_message.c:781-915 | the usual loop visits exactly the validator's options up to a number 0 |
| `CoapIterator.GetOption` | xp/coap/gg_coap_message.c:753-777 | finds the option with a given number and rank, or none |
| `CoapIterator.IterationRoundTrip` | xp/coap/gg_coap_message.c:547-653 | for any options of matching types, iterating over a created message yields their stable sort up to the first that cannot be encoded and up to a number 0; that is all of them if and only if no number is 0 and every distance and length can be encoded |
| `RingBuffer.RingBuffer.GetSpace` | xp/common/gg_ring_buffer.c:49-56 | the room is the size less one less the contents |
| `RingBuffer.RingBuffer.GetAvailable` | xp/common/gg_ring_buffer.c:113-120 | the length of the contents |
| `RingBuffer.RingBuffer.Write` | xp/common/gg_ring_buffer.c:60-100 | appends as many bytes as fit, in one or two chunks |
| `RingBuffer.RingBuffer.Read` | xp/common/gg_ring_buffer.c:124-164 | takes bytes from the front of the contents |
| `RingBuffer.RingBuffer.Peek` | xp/common/gg_ring_buffer.c:168-203 | copies a range of the contents and leaves them as they are |
| `RingBuffer.RingBuffer.MoveOut` | xp/common/gg_ring_buffer.c:243-252 | drops bytes from the front |
| `RamStorage.Storage.AddRecord` | xp/diagnostics/gg_diagnostics_ram_storage.c:206-252 | the ring bytes stay the encoding of the queue's records and the new state is the queue's, for every payload whose stored size fits 16 bits; for the two lengths whose sum wraps the ring afterwards holds the encoding of no list of that many records |
| `RamStorage.Storage.GetRecords` | xp/diagnostics/gg_diagnostics_ram_storage.c:269-357 | returned bytes, handle and new state are those of the queue, for the three kinds of handle |
| `RamStorage.Storage.DeleteRecords` | xp/diagnostics/gg_diagnostics_ram_storage.c:361-402 | the new state is the queue's |
| `RamStorage.Storage.HandlesRecordsRemoved` | xp/diagnostics/gg_diagnostics_ram_storage.c:83-110 | every handle shrinks or goes as in the queue |
| `RecordQueue.FewestEvicted` | xp/diagnostics/gg_diagnostics_ram_storage.c:224-239 | dropping j oldest records makes room if and only if j is at least the number evicted |
| `RecordQueue.RoomIff` | xp/diagnostics/gg_diagnostics_ram_storage.c:224-239 | evicting can make room if and only if the record fits the empty buffer, which holds one byte less than its size |
| `RecordQueue.MostReturned` | xp/diagnostics/gg_diagnostics_ram_storage.c:296-347 | a run of records fits if and only if it is no longer than the one returned |
| `RecordQueue.AdvanceOk` | xp/diagnostics/gg_diagnostics_ram_storage.c:300-347 | the bytes a retrieval returns are the encodings of the very records whose numbers it adds to the handle's list |
| `RecordQueue.HandlesReadInOrder` | xp/diagnostics/gg_diagnostics_ram_storage.c:129-153 | after any operations every live handle has returned records of its range in order, at most once, and skipped only removed ones |
| `RecordQueue.DeleteThroughHandle` | xp/diagnostics/gg_diagnostics_ram_storage.c:361-402 | deleting through a handle removes exactly the survivors of the records present when it was made |
| `RecordQueue.FirstRetrieval` | xp/diagnostics/gg_diagnostics_ram_storage.c:129-153 | a new handle stands for exactly the records present, and the first retrieval returns the longest run of these from the front that fits, all of them if they fit |
| `RecordQueue.GenerateThenDelete` | xp/diagnostics/gg_diagnostics_ram_storage.c:361-402 | deleting through a handle just made leaves nothing |
| `RecordQueue.TakesOut` | xp/diagnostics/gg_diagnostics_ram_storage.c:269-299 | retrieval without a handle returns the longest run that fits and removes exactly that |
| `RecordQueue.OtherHandles` | xp/diagnostics/gg_diagnostics_ram_storage.c:361-402 | deleting without a handle empties the store; an unknown handle returns and deletes nothing; no handle is made for deleting |
| `RecordQueue.NumbersGoRound` | xp/diagnostics/gg_diagnostics_ram_storage.c:145-150 | handle numbers go round from the smallest to the largest |
| `RecordQueue.AddAppends` | xp/diagnostics/gg_diagnostics_ram_storage.c:206-252 | a new record is the last one, and what was there stays but for the fewest oldest that have to go |
| `RecordQueue.HandlesSurvive` | xp/diagnostics/gg_diagnostics_ram_storage.c:83-110 | when records go, exactly the handles go that have none left |
| `RecordQueue.RunOk` | xp/diagnostics/gg_diagnostics_ram_storage.c:206-402 | the store's invariant, and that it fits its capacity, over every sequence of operations |
| `BitStream.BitInputStream.ReadCache` | xp/common/gg_bitstream.c:70-89 | the next 32 bits, zeros past the end |
| `BitStream.BitInputStream.Read` | xp/common/gg_bitstream.c:92-114 | the next bits of the plain bit sequence, and the position moves by their count |
| `BitStream.BitInputStream.Peek` | xp/common/gg_bitstream.c:117-135 | the same bits, nothing changed |
| `BitStream.BitInputStream.ByteAlign` | xp/common/gg_bitstream.c:53-60 | moves to the next byte boundary, by less than eight bits |
| `BitStream.BitOutputStream.Write` | xp/common/gg_bitstream.c:158-188 | appends the masked bits to the plain sequence of which the buffer holds the whole words; no byte past the position is touched |
| `BitStream.BitOutputStream.Flush` | xp/common/gg_bitstream.c:198-210 | the buffer holds all bits written, padded with zeros; the position counts one byte for the cached bits |
| `BitStream.WriteFlushRead` | xp/common/gg_bitstream.c:92-210 | writes of any values and widths up to 32, one flush, reads of the same widths: every value cut to its width |
| `BitStream.WrittenField` | xp/common/gg_bitstream.c:158-188 | a write stays where it is and keeps its value under all later writes |
| `Timers.CreateOk` | xp/common/gg_timer.c:72-96 | a new scheduler's lists partition the pool |
| `Timers.CreateTimerOk` | xp/common/gg_timer.c:109-130 | taking a timer from the nursery keeps partition, order and listeners |
| `TimerTheorems.CreatePlaces` | xp/common/gg_timer.c:109-130 | a timer is created if and only if one is free, and it is idle then |
| `Timers.ScheduleOk` | xp/common/gg_timer.c:204-241 | scheduling keeps them, also for a timer already scheduled |
| `TimerTheorems.SchedulePlaces` | xp/common/gg_timer.c:204-241 | a timer scheduled with a listener runs, and nothing else changes; without a listener nothing does |
| `TimerTheorems.DueIff` | xp/common/gg_timer.c:204-241 | a scheduled timer is due at a time if and only if its delay has passed by then, also where the time wraps |
| `TimerTheorems.FiresIffDue` | xp/common/gg_timer.c:133-163 | whatever the listeners of other timers do as long as they leave this one alone, it fires while the time is set if and only if it is due then, and is otherwise left as it was |
| `TimerTheorems.FiresOnTime` | xp/common/gg_timer.c:133-241 | over any sequence of times, such a timer fires the first time the clock reaches its delay, and not before |
| `TimerTheorems.ToldWhat` | xp/common/gg_timer.c:145-160 | its listener is told, once it is unscheduled, how much time has passed since it was scheduled |
| `Timers.InsertStable` | xp/common/gg_timer.c:222-238 | a timer goes behind all that are due no later and before all that are due later |
| `Timers.UnscheduleOk` | xp/common/gg_timer.c:252-270 | unscheduling keeps them |
| `TimerTheorems.UnschedulePlaces` | xp/common/gg_timer.c:252-270 | a running timer stops, any other is left alone |
| `Timers.DestroyOk` | xp/common/gg_timer.c:189-201 | destroying keeps them |
| `TimerTheorems.DestroyPlaces` | xp/common/gg_timer.c:189-201 | a destroyed timer is free again, whatever it was |
| `Timers.FireAllOk` | xp/common/gg_timer.c:133-163 | with listeners that schedule at least one tick ahead without overflow, setting the time terminates with none due, and fires a subsequence of the due timers in their order |
| `Timers.AllDueFire` | xp/common/gg_timer.c:133-163 | with listeners that touch only their own timer exactly the due timers fire, once each, in order |
| `Timers.FireSomeOk` | xp/common/gg_timer.c:133-163 | whatever listeners do, every number of turns of the firing loop keeps partition, order and listeners, and when the loop ends no timer is due |
| `Timers.PoliteEnds` | xp/common/gg_timer.c:133-163 | with listeners that look ahead the loop ends within one turn for each timer that is due |
| `Timers.DueAgainIff` | xp/common/gg_timer.c:204-241 | the timer of a listener that schedules it again is due again at once if and only if the delay is 0 or the fire time wraps |
| `Timers.NeverEnds` | xp/common/gg_timer.c:133-163 | with such a delay the loop goes on for any number of turns |
| `Timers.EndsIff` | xp/common/gg_timer.c:133-163 | with listeners that schedule their timer again the loop ends if and only if the delay is at least 1 and the fire time does not wrap |
| `Timers.NextTimeIsEarliest` | xp/common/gg_timer.c:173-186 | the time reported is that of the timer that fires first, zero if it is late, the largest number if there is none |
| `TimerService.TimerScheduler.Schedule` | xp/common/gg_timer.c:204-241 | the search loop links where the specification does |
| `TimerService.TimerScheduler.Unschedule` | xp/common/gg_timer.c:252-270 | refines the specification |
| `TimerService.TimerScheduler.SetTime` | xp/common/gg_timer.c:133-163 | the firing loop, with listeners that change the lists in any way for which it ends, refines the specification and leaves none due |
| `EventDispatcher.VisitsInOrder` | xp/common/gg_event_dispatcher.c:148-190 | whatever listeners add or remove, an event visits only listeners registered at its start, in registration order, each once |
| `EventDispatcher.VisitedIffStillRegistered` | xp/common/gg_event_dispatcher.c:148-190 | such a listener is visited if and only if it is still registered when its turn comes |
| `EventDispatcher.CallsThoseAsking` | xp/common/gg_event_dispatcher.c:127-190 | an event calls exactly the visited listeners that ask for it, in order, once each, and does nothing besides |
| `EventDispatcher.TurnAfterCalls` | xp/common/gg_event_dispatcher.c:127-190 | when a listener has its turn, exactly those before it that were visited and ask for the event have been called |
| `EventDispatcher.NobodyAsks` | xp/common/gg_event_dispatcher.c:127-146 | an event nobody asks for changes nothing |
| `EventDispatcher.RemoveLeavesOthers` | xp/common/gg_event_dispatcher.c:108-124 | removing a listener leaves all the others in their order, with their events and numbers |
| `EventDispatcher.AddRegisters` | xp/common/gg_event_dispatcher.c:65-105 | a listener that is not registered goes behind the others with its events and the next number; one that is stays as it is |
| `EventDispatcher.ApplyOk` | xp/common/gg_event_dispatcher.c:65-124 | adding and removing keep listeners unique and numbers increasing and never reused |
| `EventDispatcher.EventDispatcher.AddListener` | xp/common/gg_event_dispatcher.c:65-105 | refines the specification, a listener registered twice included |
| `EventDispatcher.EventDispatcher.RemoveListener` | xp/common/gg_event_dispatcher.c:108-124 | refines the specification, an unknown listener included |
| `EventDispatcher.EventDispatcher.OnEvent` | xp/common/gg_event_dispatcher.c:148-190 | the rescanning loop terminates and refines the specification |
| `Blockwise.AdjustAndGetChunkSize` | xp/coap/gg_coap_blockwise.c:134-147 | fails exactly outside the payload; otherwise the smaller of block and rest, with more exactly if something follows |
| `Blockwise.ToOptionValue` | xp/coap/gg_coap_blockwise.c:228-250 | the search loop packs number, flag and size exponent, or refuses the size |
| `Blockwise.OptionRoundTrip` | xp/coap/gg_coap_blockwise.c:178-250 | a packed block description reads back as itself if and only if its offset is a multiple of its size and its number is below 2^28 |
| `Blockwise.ValueRoundTrips` | xp/coap/gg_coap_blockwise.c:178-250 | every option value without the reserved size exponent is what its description packs to |
| `Blockwise.OnResponseOk` | xp/coap/gg_coap_blockwise.c:432-467 | whatever a server answers, the next block starts where the last ended and at a multiple of its size, which only shrinks |
| `Blockwise.RequestContext.OnContinueResponse` | xp/coap/gg_coap_blockwise.c:432-467 | refines the client's step |
| `Blockwise.RequestContext.OnResponseReceived` | xp/coap/gg_coap_blockwise.c:586-633 | refines the client's handling of a response with its ETag, keeping the block a proper piece of the source |
| `Blockwise.ServerHelper.OnRequestReceived` | xp/coap/gg_coap_blockwise.c:988-1086 | refines the helper's judgement of a BLOCK1 request and its new state |
| `BlockwiseVerdicts.VerdictIff` | xp/coap/gg_coap_blockwise.c:988-1018 | a block is answered with a failed precondition if and only if its option reads and its condition names another tag; accepted only if the option reads and the condition holds; and only a new block changes what the helper waits for |
| `BlockwiseVerdicts.PositionIff` | xp/coap/gg_coap_blockwise.c:1020-1058 | new, repeated, continued in vain or a gap, exactly by its offset and end |
| `BlockwiseVerdicts.ReadIff` | xp/coap/gg_coap_blockwise.c:178-225 | which block options are read, and what stands for a missing one |
| `BlockwiseVerdicts.PackedIff` | xp/coap/gg_coap_blockwise.c:228-250 | a block description is packed if and only if its size is a power of two from 16 to 1024 |
| `BlockwiseVerdicts.HelperStarts` | xp/coap/gg_coap_blockwise.c:957-975 | a helper starts at the beginning, without a tag, with the size it was given or the default |
| `BlockwiseVerdicts.GoesOnIff` | xp/coap/gg_coap_blockwise.c:586-633 | an upload goes on, finishes or fails exactly by the kind of response, its block option and its tag; the next block has the smaller of the two sizes |
| `BlockwiseVerdicts.TagsAgree` | xp/coap/gg_coap_blockwise.c:596-621 | an upload that is still going on has met no two different tags |
| `BlockwiseVerdicts.SetsCondition` | xp/coap/gg_coap_blockwise.c:658-700 | every request after a tag was seen sets the condition that it is still the same |
| `BlockwiseVerdicts.StaleRefused` | xp/coap/gg_coap_blockwise.c:1002-1016 | when the server's tag has changed, the client's block is refused and the server keeps what it had |
| `BlockwiseVerdicts.StartsLarge` | xp/coap/gg_coap_blockwise.c:811-831 | the first block is of the largest size, at the start, without a condition |
| `BlockwiseUpload.BlockOptionOnTheWire` | xp/coap/gg_coap_blockwise.c:658-700 | a client's block option, sent among any others, is the one found in the datagram and reads as the client's block |
| `BlockwiseUpload.UploadSafety` | xp/coap/gg_coap_blockwise.c:988-1086 | whatever requests are lost, repeated or reordered, for every source whose blocks have numbers that fit at the smallest size asked for: the new blocks kept since the last block 0 are a prefix of the source, all of it once the helper is done |
| `BlockwiseUpload.AnyResponse` | xp/coap/gg_coap_blockwise.c:178-220 | with the smallest block size as the limit, which allows for 2^28 blocks of 16 bytes, nothing is asked of the responses |
| `BlockwiseUpload.LastBlockCompletes` | xp/coap/gg_coap_blockwise.c:988-1086 | every request ever made is an aligned piece of the source, following the one before; accepting the last one completes the source |
| `BlockwiseUpload.UploadCompletes` | xp/coap/gg_coap_blockwise.c:811-831 | with repeated requests and any block sizes asked for, none is taken for a gap, and the upload completes within one exchange for every 16 bytes |
| `BlockwiseUpload.StepOk` | xp/coap/gg_coap_blockwise.c:432-467 | every step of the transfer keeps its invariant |
| `Base64.Encode` | xp/common/gg_utils.c:91-154 | writes exactly the text that base64 defines on bits, or reports the size needed; touches nothing past it |
| `Base64.Scan` | xp/common/gg_utils.c:177-224 | accepts exactly the texts with allowed characters, at most two padding characters at the end and no single leftover, ignoring line breaks |
| `Base64.AcceptableIff` | xp/common/gg_utils.c:177-232 | a text is accepted if and only if it has no foreign characters, padding only at its end and at most two of it, and no single character left over |
| `Base64.Alphabets` | xp/common/gg_utils.c:31-42 | the two alphabets |
| `Base64.Decode` | xp/common/gg_utils.c:158-278 | exact size and bytes of the decoded text, or the error; touches nothing past them |
| `Base64.RoundTrip` | xp/common/gg_utils.c:91-278 | decoding undoes encoding in both alphabets with CR and LF inserted anywhere |
| `Base64.PlainRoundTrip` | xp/common/gg_utils.c:91-278 | and with none inserted |
| `Protobuf.VarintSize` | xp/common/gg_utils.c:513-523 | the number of bytes written |
| `Protobuf.EncodeVarint` | xp/common/gg_utils.c:526-541 | writes the bytes of the definition in place, nothing else |
| `Protobuf.DecodeVarint` | xp/common/gg_utils.c:544-561 | reads up to ten bytes and wraps at 64 bits as defined; zero if there is no end |
| `Protobuf.ReadIff` | xp/common/gg_utils.c:544-561 | a number is read if and only if one of the first ten bytes ends it, and is what the seven bits of each say, kept to 64 bits |
| `Protobuf.VarintRoundTrip` | xp/common/gg_utils.c:526-561 | every 64-bit value reads back, with its size, whatever follows |
| `Protobuf.ZigZagInverse` | xp/common/gg_utils.c:564-575 | the two conversions are inverse to each other on all 64-bit values |
| `ExtendedError.GetEncodedSize` | xp/coap/gg_coap.c:229-243 | the size computed is the size written |
| `ExtendedError.Encode` | xp/coap/gg_coap.c:246-275 | fills exactly that many bytes with the encoding |
| `ExtendedError.Decode` | xp/coap/gg_coap.c:278-407 | the loop's result, also a partial one on errors, is the definition's |
| `ExtendedError.FieldsRoundTrip` | xp/coap/gg_coap.c:278-407 | a message of any fields in any order, repeated or unknown ones included, decodes to what they say one after the other |
| `ExtendedError.BadFieldIff` | xp/coap/gg_coap.c:295-396 | which fields are refused, with which error |
| `ExtendedError.StopsAtBad` | xp/coap/gg_coap.c:293-407 | decoding stops at the first bad field with its error and what the fields before it said |
| `ExtendedError.RoundTrip` | xp/coap/gg_coap.c:229-407 | decoding an encoded error gives back namespace, code and message |

## Left out

- Sessions that follow each other: runs of two endpoints start with both ready and channels empty, since packets carry no session number; single endpoints are followed through resets in `GattlinkWakeUp`.
- What windows of 32 and more do besides not ending: functions and methods that send require a negotiated window below 32.
- Stall notifications; calls back into the protocol from inside a client callback other than submitting when bytes are released or data arrives, and taking when data arrives.
- The capacity of the client's buffers; the client notifies outgoing data only while a session is open.
- GattlinkLiveness.ProgressIff: says whether progress is possible, not that a scheduler brings it about.
- RamStorage.Storage.AddRecord: requires that the stored size is not the whole buffer, for which no eviction makes room and the source goes on reading lengths from an empty ring.
- The byte order of the record length, taken as low byte first; the source copies it in native order.
- Handle numbers that come round to one still in use: the first match is used, as in the source.
- Null pointers, empty strings passed with a length of 0 to be measured, and texts given as terminated strings: a string is its bytes. Base64 characters are taken as unsigned.
- BitStream.BitOutputStream.Flush: claims the buffer contents; the position afterwards counts one byte for up to 32 cached bits, so continuing to write after a flush is not covered.
- BLOCK2 transfers, pausing and resuming a request, and reusing one server helper for several uploads.
- BlockwiseUpload.UploadSafety: for sources of at most 2^28 blocks of the smallest size asked for, beyond which block numbers no longer fit the option.
- Sequence numbers of the event dispatcher wrapping at 32 bits; a nested event from inside a listener.
- TimerService.TimerScheduler.SetTime: requires that the firing loop ends; a listener that sets the time itself is not covered.
- Linked-list pointers (lists are sequences), memory allocation and its failures, reference counts, threads, logging and inspection.
- CoAP endpoints, filters, responders, DTLS, sockets and the rest of the stack.

/** What an end makes of a packet's data and of its client's calls, and what the sending loop leaves
    undone. */
module GattlinkReceiver {
  import opened Common
  import opened GattlinkEndpoint
  import opened GattlinkSender
  import opened GattlinkWakeUp
  import opened Theorems = GattlinkTheorems
  import Net = GattlinkNetwork
  import Wide = GattlinkWide
  import Witnesses = GattlinkWitnesses

  // --------------------------------------------------------------- the client takes

  /** A client takes any number of bytes up to those accepted and not yet read, gets exactly the next
      ones, and frees the buffer with the last. A larger count is refused and changes nothing. */
  lemma TakeExact(e: Endpoint, count: nat)
    requires ReceiverOk(e)
    ensures |e.log.read| <= |e.log.accepted|
    ensures var e', unread := TakeIncoming(e, count), |e.log.accepted| - |e.log.read|;
            && (TakeStatus(e, count) == Success <==> count <= unread)
            && (count <= unread ==>
                  && e'.log.read == e.log.accepted[..|e.log.read| + count]
                  && (e'.bufferFull <==> e'.log.read != e.log.accepted)
                  && SameButReceiver(e, e'))
            && (count > unread ==> TakeStatus(e, count) == InvalidParameters && e' == e)
  {
    TakeOk(e, count);
    var rest := if e.bufferFull then e.payload[e.bytesConsumed..] else [];
    assert e.log.accepted == e.log.read + rest;
    if count <= |rest| {
      var taken := rest[..count];
      assert TakeIncoming(e, count).log.read == e.log.read + taken;
      assert e.log.accepted[..|e.log.read| + count] == e.log.read + taken;
    }
  }

  /** Taking concerns the receive buffer alone. */
  ghost predicate SameButReceiver(a: Endpoint, b: Endpoint) {
    b == a.(bufferFull := b.bufferFull, bytesConsumed := b.bytesConsumed, log := a.log.(read := b.log.read))
  }

  // ------------------------------------------------------------- a packet's data

  /** Whether the data half of a packet is taken, with what it adds to the stream. */
  lemma PayloadStatus(e: Endpoint, data: seq<byte>, client: Client, t: Transport)
    requires e.actual.tx < SN_COUNT && |data| > 0
    ensures var o, v := HandlePayload(e, data, client, t), Judge(e, data[0] % SN_COUNT);
            && (o.status == NotEnoughSpace <==> e.bufferFull)
            && (o.status == UnexpectedPsn <==> !e.bufferFull && v == Unexpected)
            && (o.status == Success <==> !e.bufferFull && v != Unexpected)
            && (o.status != Success ==> o.endpoint == e && o.sent == [])
            && o.endpoint.log.accepted == (if !e.bufferFull && v == Expected then e.log.accepted + data[1..]
                                           else e.log.accepted)
  {
    hide SendNext, Refilled, Judge;
    var psn: Sn := data[0] % SN_COUNT;
    Net.LoopKeepsCounters(OweAck(e), t);
    Net.RefilledKeepsCounters(Buffered(e, psn, data[1..]), client.answers);
    var e1 := Accept(e, psn, data[1..], client).endpoint;
    Net.LoopKeepsCounters(OweAck(e1), t);
  }

  predicate HasAnAck(frames: seq<Frame>) {
    exists i :: 0 <= i < |frames| && frames[i].ackCount.Some?
  }

  lemma {:induction false} LoopAcks(e: Endpoint, t: Transport)
    requires e.actual.tx < SN_COUNT && !t.Refuses()
    ensures HasAnAck(SendNext(e, t).sent) <==> AckDue(e)
    ensures AckDue(e) ==> SendNext(e, t).sent != [] && SendNext(e, t).sent[0].ackCount == Some(e.log.ackable)
    ensures SendNext(e, t).endpoint.outstanding == if AckDue(e) then 0 else e.outstanding
    ensures SendNext(e, t).endpoint.ackTimer == (e.ackTimer && !AckDue(e))
  {
    SendNextTurn(e, t);
    hide SendNext, NextPayloadSize, AwaitingUpTo, Fetch;
    if SomethingToSend(e, t) {
      var e1, t1 := AfterSending(e, t), t.AfterSend();
      NoMoreAcks(e1, t1);
      var rest := SendNext(e1, t1);
      assert SendNext(e, t).sent == [NextFrame(e, t)] + rest.sent;
      assert SendNext(e, t).sent[0] == NextFrame(e, t);
    }
  }

  lemma {:induction false} NoMoreAcks(e: Endpoint, t: Transport)
    requires e.actual.tx < SN_COUNT && !AckDue(e)
    ensures !HasAnAck(SendNext(e, t).sent) && SendNext(e, t).endpoint.outstanding == e.outstanding
    ensures SendNext(e, t).endpoint.ackTimer == e.ackTimer && !AckDue(SendNext(e, t).endpoint)
    decreases WindowLeft(e), AckDue(e)
  {
    SendNextTurn(e, t);
    hide SendNext, NextPayloadSize, AwaitingUpTo, Fetch;
    if SomethingToSend(e, t) && !t.Refuses() {
      SendProgress(e, t);
      NoMoreAcks(AfterSending(e, t), t.AfterSend());
    }
  }

  lemma OwedOnce(e: Endpoint, psn: Sn, payload: seq<byte>, take: nat)
    requires e.actual.tx < SN_COUNT
    ensures var e1 := OweAck(Noted(Buffered(e, psn, payload), psn, take));
            && e1.outstanding == (e.outstanding + 1) % 256 && e1.ackTimer && e1.ackNow == e.ackNow
            && e1.actual == e.actual && e1.log.ackable == e.log.received + 1
  {
  }

  /** The packet that was expected is acknowledged at once if and only if, with it, more than half the
      window has not been; otherwise it is counted, and the ack timer is armed for it. */
  lemma AckedAtHalf(e: Endpoint, data: seq<byte>, take: nat, t: Transport)
    requires e.actual.tx < SN_COUNT && |data| > 0 && !e.bufferFull && Judge(e, data[0] % SN_COUNT) == Expected
    requires !e.ackNow && e.outstanding < 255 && !t.Refuses()
    ensures var o := HandlePayload(e, data, Client([], [], take), t);
            && (HasAnAck(o.sent) <==> 2 * (e.outstanding + 1) > e.actual.rx)
            && (HasAnAck(o.sent) ==> o.sent[0].ackCount == Some(e.log.received + 1) && o.endpoint.outstanding == 0)
            && (!HasAnAck(o.sent) ==> o.endpoint.outstanding == e.outstanding + 1)
            && o.endpoint.ackTimer == !HasAnAck(o.sent)
  {
    hide SendNext, Judge, HasAnAck, Buffered, Noted;
    var psn: Sn := data[0] % SN_COUNT;
    var e1 := OweAck(Accept(e, psn, data[1..], Client([], [], take)).endpoint);
    OwedOnce(e, psn, data[1..], take);
    LoopAcks(e1, t);
    assert [] + SendNext(e1, t).sent == SendNext(e1, t).sent;
  }

  // ------------------------------------------------------ what the client hands over

  lemma {:induction false} LoopSubmitsNothing(e: Endpoint, t: Transport)
    requires e.actual.tx < SN_COUNT
    ensures SendNext(e, t).endpoint.log.submitted == e.log.submitted
    decreases WindowLeft(e), AckDue(e)
  {
    SendNextTurn(e, t);
    hide SendNext, NextFrame;
    if SomethingToSend(e, t) && !t.Refuses() {
      SendProgress(e, t);
      LoopSubmitsNothing(AfterSending(e, t), t.AfterSend());
    }
  }

  /** Everything that a list of calls submits. */
  function Handed(refills: seq<Refill>): seq<byte> {
    if refills == [] then [] else refills[0].data + Handed(refills[1..])
  }

  lemma {:induction false} RefilledSubmits(e: Endpoint, refills: seq<Refill>)
    requires e.actual.tx < SN_COUNT
    ensures Refilled(e, refills).endpoint.log.submitted == e.log.submitted + Handed(refills)
    decreases |refills|
  {
    hide SendNext;
    if refills == [] {
      assert e.log.submitted + [] == e.log.submitted;
    } else {
      LoopSubmitsNothing(Given(e, refills[0].data), refills[0].transport);
      RefilledSubmits(SendNext(Given(e, refills[0].data), refills[0].transport).endpoint, refills[1..]);
      Regroup(e.log.submitted, refills[0].data, Handed(refills[1..]));
    }
  }

  /** While a packet is handled the client is called when bytes are released and when data is taken, and
      what it submits then is part of the stream, in that order. */
  lemma PacketSubmits(e: Endpoint, bytes: seq<byte>, client: Client, t: Transport)
    requires e.actual.tx < SN_COUNT && 0 < |bytes| <= MAX_PACKET_SIZE
    ensures var data := AfterAck(bytes);
            var released := HasAck(bytes) && e.payloadSizes[bytes[0] % SN_COUNT] != 0;
            var taken := data != [] && !e.bufferFull && Judge(e, data[0] % SN_COUNT) == Expected;
            HandleDataPacket(e, bytes, client, t).endpoint.log.submitted
            == e.log.submitted + (if released then Handed(client.refills) else [])
                               + (if taken then Handed(client.answers) else [])
  {
    hide SendNext, Refilled, Judge, Handed;
    var psn: Sn := bytes[0] % SN_COUNT;
    AckSubmitsNothing(e, psn);
    RefilledSubmits(HandleAck(e, psn), client.refills);
    PartLeavesReceiver(e, bytes, client);
    var e1, data := HandleAckPart(e, bytes, client).endpoint, AfterAck(bytes);
    hide HandleAckPart;
    LoopSubmitsNothing(e1, t);
    if data != [] {
      PayloadSubmits(e1, data, client, t);
    }
  }

  lemma AckSubmitsNothing(e: Endpoint, psn: Sn)
    ensures HandleAck(e, psn).log.submitted == e.log.submitted && HandleAck(e, psn).actual == e.actual
  {
    hide AwaitingUpTo, ClearUpTo;
  }

  lemma PayloadSubmits(e: Endpoint, data: seq<byte>, client: Client, t: Transport)
    requires e.actual.tx < SN_COUNT && |data| > 0
    ensures HandlePayload(e, data, client, t).endpoint.log.submitted
            == e.log.submitted + (if !e.bufferFull && Judge(e, data[0] % SN_COUNT) == Expected then
                                    Handed(client.answers) else [])
  {
    hide SendNext, Refilled, Judge, Handed;
    var psn: Sn := data[0] % SN_COUNT;
    RefilledSubmits(Buffered(e, psn, data[1..]), client.answers);
    LoopSubmitsNothing(OweAck(e), t);
    LoopSubmitsNothing(OweAck(Accept(e, psn, data[1..], client).endpoint), t);
  }

  // ---------------------------------------------------------- what the loop leaves

  /** When the loop stops by itself, the window is full or every byte submitted is on its way. */
  lemma NothingHeldBack(e: Endpoint, t: Transport)
    requires SenderOk(e) && e.log.acked <= e.log.next && !SomethingToSend(e, t) && t.maxPacketSize >= 2
    ensures |e.log.fragments| == e.log.acked + e.actual.tx || Flat(e.log.fragments) == e.log.submitted
  {
    hide SizesMatch, FragmentSizes;
    StopMeansSent(e, t);
    var acked, fragments := e.log.acked, e.log.fragments;
    ModDistance(acked, |fragments|);
    AwaitingIsFlat(e.payloadSizes, acked, fragments, acked, |fragments|);
    assert fragments[acked..|fragments|] == fragments[acked..];
    FreshSlot(e);
    FlatSplit(fragments, acked);
    hide AwaitingUpTo;
    if |fragments| < acked + e.actual.tx {
      assert Flat(fragments[acked..]) == e.outgoing;
    }
  }

  lemma FreshSlot(e: Endpoint)
    requires SenderOk(e) && e.log.next == |e.log.fragments|
    ensures |e.log.fragments| < e.log.acked + SN_COUNT ==> e.payloadSizes[e.nextDataSn] == 0
  {
  }

  /** A run of the loop that meets no refusal keeps bytes back only for want of window. */
  lemma {:induction false} LoopFillsWindow(e: Endpoint, t: Transport)
    requires SenderOk(e) && e.log.acked <= e.log.next && t.refuseAfter == None && t.maxPacketSize >= 2
    ensures var e' := SendNext(e, t).endpoint;
            |e'.log.fragments| == e'.log.acked + e'.actual.tx || Flat(e'.log.fragments) == e'.log.submitted
    decreases WindowLeft(e), AckDue(e)
  {
    SendNextTurn(e, t);
    hide SendNext, NextFrame, SizesMatch, FragmentSizes, Flat, AwaitingUpTo, NextPayloadSize;
    if SomethingToSend(e, t) {
      SendProgress(e, t);
      AfterSendingOk(e, t);
      LoopFillsWindow(AfterSending(e, t), t.AfterSend());
    } else {
      NothingHeldBack(e, t);
    }
  }

  /** A new packet is as long as the transport takes, or carries all that is left. */
  lemma FreshFills(e: Endpoint, t: Transport)
    requires SenderOk(e) && NextPayloadSize(e, t) > 0 && e.log.next == |e.log.fragments|
    ensures |NextFrame(e, t).bytes| == Min(t.maxPacketSize, MAX_PACKET_SIZE)
            || Flat(e.log.fragments[e.log.acked..]) + Payload(e, t) == e.outgoing
  {
    SendingIsInWindow(e, t);
    FreshBytes(e, t);
    var acked, next, fragments := e.log.acked, e.log.next, e.log.fragments;
    AwaitingIsFlat(e.payloadSizes, acked, fragments, acked, next);
    assert fragments[acked..next] == fragments[acked..];
    hide SizesMatch, FragmentSizes, Flat, AwaitingUpTo;
    assert Flat(fragments[acked..]) + Payload(e, t) <= e.outgoing;
  }

  // ------------------------------------------------- data that waits without a timer

  /** The least packet that holds an ack and a byte of data. */
  const LEAST := Transport(3, None)

  /** There is data and room for it in the window, and no timer will send it. */
  predicate WaitsUnarmed(e: Endpoint) {
    e.state == Ready && NextPayloadSize(e, LEAST) > 0 && !e.retransmitTimer
  }

  predicate Roomy(t: Transport) {
    t.maxPacketSize >= 3
  }

  /** Every call a client makes while a packet is handled meets a transport with some room. */
  ghost predicate AllRoomy(client: Client) {
    && (forall i :: 0 <= i < |client.refills| ==> Roomy(client.refills[i].transport))
    && (forall i :: 0 <= i < |client.answers| ==> Roomy(client.answers[i].transport))
  }

  lemma SameNeed(e: Endpoint, t: Transport)
    requires Roomy(t)
    ensures NextPayloadSize(e, t) > 0 <==> NextPayloadSize(e, LEAST) > 0
  {
    hide AwaitingUpTo;
  }

  /** The loop leaves no data waiting without the timer: what it could not send it has armed it for. */
  lemma {:induction false} LoopArms(e: Endpoint, t: Transport)
    requires e.actual.tx < SN_COUNT && Roomy(t)
    ensures !WaitsUnarmed(SendNext(e, t).endpoint)
    decreases WindowLeft(e), AckDue(e)
  {
    SendNextTurn(e, t);
    SameNeed(e, t);
    hide SendNext, AfterSending, NextFrame, SomethingToSend, AwaitingUpTo;
    if !SomethingToSend(e, t) {
      NothingNeeded(e, t);
    } else if t.Refuses() {
      RefusalArms(e, t);
    } else {
      SendProgress(e, t);
      AfterKeepsTx(e, t);
      LoopArms(AfterSending(e, t), t.AfterSend());
    }
  }

  lemma NothingNeeded(e: Endpoint, t: Transport)
    requires !SomethingToSend(e, t)
    ensures NextPayloadSize(e, t) == 0
  {
    hide NextPayloadSize;
  }

  lemma RefusalArms(e: Endpoint, t: Transport)
    requires Roomy(t)
    ensures !WaitsUnarmed(AfterRefusal(e, t))
  {
    SameNeed(e, t);
    hide AwaitingUpTo;
  }

  lemma AfterKeepsTx(e: Endpoint, t: Transport)
    ensures AfterSending(e, t).actual == e.actual && (Roomy(t) ==> Roomy(t.AfterSend()))
  {
    hide NextPayloadSize, NextFrame;
  }

  lemma {:induction false} RefilledArms(e: Endpoint, refills: seq<Refill>)
    requires e.actual.tx < SN_COUNT && refills != []
    requires forall i :: 0 <= i < |refills| ==> Roomy(refills[i].transport)
    ensures !WaitsUnarmed(Refilled(e, refills).endpoint)
    decreases |refills|
  {
    hide SendNext, WaitsUnarmed;
    LoopArms(Given(e, refills[0].data), refills[0].transport);
    if refills[1..] != [] {
      RefilledArms(SendNext(Given(e, refills[0].data), refills[0].transport).endpoint, refills[1..]);
    }
  }

  /** The packet acknowledges something, and then its data is not taken. */
  predicate AckThenRefused(e: Endpoint, bytes: seq<byte>) {
    && 0 < |bytes| <= MAX_PACKET_SIZE && HasAck(bytes) && e.payloadSizes[bytes[0] % SN_COUNT] != 0
    && |bytes| > 1 && (e.bufferFull || Judge(e, bytes[1] % SN_COUNT) == Unexpected)
  }

  lemma AckLeavesReceiver(e: Endpoint, psn: Sn)
    ensures var e' := HandleAck(e, psn);
            e'.bufferFull == e.bufferFull && e'.actual == e.actual && e'.state == e.state
            && e'.nextExpectedDataPsn == e.nextExpectedDataPsn
  {
    hide AwaitingUpTo, ClearUpTo;
  }

  lemma PacketArms(e: Endpoint, bytes: seq<byte>, client: Client, t: Transport)
    requires e.actual.tx < SN_COUNT && |bytes| > 0 && !WaitsUnarmed(e) && Roomy(t) && AllRoomy(client)
    ensures WaitsUnarmed(HandleDataPacket(e, bytes, client, t).endpoint)
            <==> AckThenRefused(e, bytes) && client.refills == [] && WaitsUnarmed(HandleAck(e, bytes[0] % SN_COUNT))
  {
    hide SendNext, HandleAck, WaitsUnarmed, Judge, OweAck;
    var psn: Sn := bytes[0] % SN_COUNT;
    var first, data := HandleAckPart(e, bytes, client), AfterAck(bytes);
    AckLeavesReceiver(e, psn);
    if HasAck(bytes) && e.payloadSizes[psn] != 0 && client.refills != [] {
      RefilledArms(HandleAck(e, psn), client.refills);
    }
    PartLeavesReceiver(e, bytes, client);
    LoopArms(first.endpoint, t);
    if data != [] {
      PayloadArms(first.endpoint, data, client, t);
    }
  }

  lemma PartLeavesReceiver(e: Endpoint, bytes: seq<byte>, client: Client)
    requires e.actual.tx < SN_COUNT && |bytes| > 0
    ensures var e' := HandleAckPart(e, bytes, client).endpoint;
            e'.bufferFull == e.bufferFull && forall psn: Sn :: Judge(e', psn) == Judge(e, psn)
  {
    hide HandleAck, Refilled;
    AckLeavesReceiver(e, bytes[0] % SN_COUNT);
    RefilledLeaves(HandleAck(e, bytes[0] % SN_COUNT), client.refills);
  }

  lemma {:induction false} LoopLeaves(e: Endpoint, t: Transport)
    requires e.actual.tx < SN_COUNT
    ensures var e' := SendNext(e, t).endpoint;
            e'.bufferFull == e.bufferFull && e'.nextExpectedDataPsn == e.nextExpectedDataPsn
    decreases WindowLeft(e), AckDue(e)
  {
    SendNextTurn(e, t);
    hide SendNext, NextFrame;
    if SomethingToSend(e, t) && !t.Refuses() {
      SendProgress(e, t);
      LoopLeaves(AfterSending(e, t), t.AfterSend());
    }
  }

  lemma {:induction false} RefilledLeaves(e: Endpoint, refills: seq<Refill>)
    requires e.actual.tx < SN_COUNT
    ensures var e' := Refilled(e, refills).endpoint;
            e'.bufferFull == e.bufferFull && e'.nextExpectedDataPsn == e.nextExpectedDataPsn
    decreases |refills|
  {
    hide SendNext;
    if refills != [] {
      LoopLeaves(Given(e, refills[0].data), refills[0].transport);
      RefilledLeaves(SendNext(Given(e, refills[0].data), refills[0].transport).endpoint, refills[1..]);
    }
  }

  lemma PayloadArms(e: Endpoint, data: seq<byte>, client: Client, t: Transport)
    requires e.actual.tx < SN_COUNT && |data| > 0 && Roomy(t)
    ensures WaitsUnarmed(HandlePayload(e, data, client, t).endpoint)
            <==> WaitsUnarmed(e) && (e.bufferFull || Judge(e, data[0] % SN_COUNT) == Unexpected)
  {
    hide SendNext, WaitsUnarmed, Judge, Accept, OweAck;
    LoopArms(OweAck(e), t);
    LoopArms(OweAck(Accept(e, data[0] % SN_COUNT, data[1..], client).endpoint), t);
  }

  /** Data is left waiting with no timer armed exactly when a packet acknowledges all that was
      outstanding, its own data is not taken, and the client submits nothing when told: then the
      handler returns without sending. */
  lemma WaitsUnarmedIff(e: Endpoint, event: Event, t: Transport)
    requires EndpointOk(e) && !WaitsUnarmed(e) && Roomy(t) && (event.RawData? ==> AllRoomy(event.client))
    ensures WaitsUnarmed(React(e, event, t).endpoint) <==>
            && e.state == Ready && event.RawData? && AckThenRefused(e, event.bytes)
            && event.bytes[0] < CONTROL && event.client.refills == []
            && WaitsUnarmed(HandleAck(e, event.bytes[0] % SN_COUNT))
  {
    hide SendNext, HandleDataPacket, HandleAck, SenderOk, TimersOk, Settled, ReceiverOk, Judge;
    match event
    case Start =>
    case RequestReset =>
    case ClientSubmit(data) => LoopArms(Given(e, data), t);
    case ClientNotify => LoopArms(e, t);
    case ClientTake(count) => TakeLeaves(e, count);
    case RawData(bytes, client) =>
      if e.state == Ready && |bytes| > 0 && bytes[0] < CONTROL {
        PacketArms(e, bytes, client, t);
      } else {
        NoDataYet(e, bytes, client, t);
      }
    case AckTimerFires => LoopArms(e.(ackTimer := false, ackNow := true), t);
    case RetransmitTimerFires => LoopArms(RollBack(e.(retransmitTimer := false)), t);
  }

  lemma TakeLeaves(e: Endpoint, count: nat)
    ensures WaitsUnarmed(TakeIncoming(e, count)) <==> WaitsUnarmed(e)
  {
    hide AwaitingUpTo;
  }

  /** A control packet, or any packet outside a session, leaves no data waiting. */
  lemma NoDataYet(e: Endpoint, bytes: seq<byte>, client: Client, t: Transport)
    requires EndpointOk(e) && !WaitsUnarmed(e)
    requires e.state != Ready || bytes == [] || bytes[0] >= CONTROL
    ensures !WaitsUnarmed(HandleRawData(e, bytes, client, t).endpoint)
  {
    hide HandleDataPacket, SenderOk, TimersOk, Settled, ReceiverOk, AwaitingUpTo;
  }

  /** One packet more than the window takes is submitted to a fresh session; then all that went out is
      acknowledged by a packet with data from beyond a gap. What is left waits, and no timer is armed
      for it. */
  lemma DataStranded(windows: Windows, data: seq<byte>)
    requires 1 <= windows.tx <= MAX_WINDOW && windows.rx < SN_COUNT && |data| == Wide.FULL * (windows.tx + 1)
    ensures var e := React(FreshSession(windows, windows, []), ClientSubmit(data), LINK).endpoint;
            e.actual.tx < SN_COUNT &&
            WaitsUnarmed(React(e, RawData([WITH_ACK + windows.tx - 1, 1, 9], PASSIVE), LINK).endpoint)
  {
    hide React, AckThenRefused, WaitsUnarmed, Wide.Filling, HandleAck, EndpointOk;
    WindowFilled(windows, data);
    var e := React(FreshSession(windows, windows, []), ClientSubmit(data), LINK).endpoint;
    TxBelow(e);
    AllAcked(e, data);
    GapRefused(e);
    WaitsUnarmedIff(e, RawData([WITH_ACK + windows.tx - 1, 1, 9], PASSIVE), LINK);
  }

  /** The window is full of packets, and a packet's worth of data is left. */
  ghost predicate FullPlusOne(e: Endpoint, data: seq<byte>) {
    && EndpointOk(e) && Wide.Filling(e, e.actual.tx) && e.outgoing == data && e.log.acked == 0
    && e.log.next == |e.log.fragments| == e.actual.tx && e.state == Ready && e.nextExpectedDataPsn == 0
    && 1 <= e.actual.tx && |data| == Wide.FULL * (e.actual.tx + 1)
  }

  lemma {:induction false} WindowFilled(windows: Windows, data: seq<byte>)
    requires 1 <= windows.tx <= MAX_WINDOW && |data| == Wide.FULL * (windows.tx + 1)
    ensures var e := React(FreshSession(windows, windows, []), ClientSubmit(data), LINK).endpoint;
            FullPlusOne(e, data) && e.actual == windows && !WaitsUnarmed(e)
  {
    hide SendNext, Wide.Filling, Open, WaitsUnarmed, EndpointOk;
    var f := FreshSession(windows, windows, []);
    Witnesses.FreshOk(windows);
    ReactOk(f, ClientSubmit(data), LINK);
    SettledIsOpen(f);
    GivenOpen(f, data);
    Wide.FreshFilling(windows, windows, data);
    assert [] + data == data;
    LoopFills(Given(f, data));
  }

  lemma {:induction false} LoopFills(g: Endpoint)
    requires Open(g) && Wide.Filling(g, 0) && g.actual.tx < SN_COUNT && g.log.acked == 0 && g.log.next == 0
    ensures var e := SendNext(g, LINK).endpoint;
            && Wide.Filling(e, e.actual.tx) && e.outgoing == g.outgoing && e.log.acked == 0 && e.actual == g.actual
            && e.log.next == |e.log.fragments| == e.actual.tx && e.nextExpectedDataPsn == g.nextExpectedDataPsn
            && !WaitsUnarmed(e)
  {
    hide SendNext, Wide.Filling, SenderOk, TimersOk, CanSettle, Settled, ReceiverOk, WaitsUnarmed;
    Wide.FillLoop(g, 0);
    SendNextOk(g, LINK);
    LoopArms(g, LINK);
    LoopSendsAll(g, LINK);
    NumbersFilled(SendNext(g, LINK).endpoint);
  }

  lemma NumbersFilled(e: Endpoint)
    requires SenderOk(e) && Wide.Filling(e, e.actual.tx) && e.log.acked == 0 && e.log.next == |e.log.fragments|
    ensures |e.log.fragments| == e.actual.tx
  {
    hide SizesMatch, FragmentSizes, Flat, Wide.FullSlots;
  }

  lemma AllAcked(e: Endpoint, data: seq<byte>)
    requires FullPlusOne(e, data)
    ensures WaitsUnarmed(HandleAck(e, e.actual.tx - 1)) && e.payloadSizes[e.actual.tx - 1] != 0
  {
    var psn: Sn := e.actual.tx - 1;
    AckOpen(e, psn);
    HandleAckOk(e, psn);
    SlotFull(e, psn);
    var e' := HandleAck(e, psn);
    Net.CloseMod(e'.log.acked - 1, psn);
    Released(e, psn);
    NothingUsed(e');
    hide AwaitingUpTo, ClearUpTo, SizesMatch, FragmentSizes, Flat, Wide.FullSlots;
    ModDistance(e'.log.acked, e'.log.next);
    NothingBetween(e'.payloadSizes, e'.nextDataSn);
  }

  lemma NothingUsed(e: Endpoint)
    requires SenderOk(e) && e.log.acked == |e.log.fragments|
    ensures forall sn: Sn :: e.payloadSizes[sn] == 0
  {
    hide SenderOk;
    forall sn: Sn ensures e.payloadSizes[sn] == 0 {
      NoSlotInUse(e, sn);
    }
  }

  lemma {:induction false} NothingBetween(sizes: SizeTable, sn: Sn)
    ensures AwaitingUpTo(sizes, sn, sn) == 0
  {
  }

  lemma {:induction false} Released(e: Endpoint, psn: Sn)
    requires Wide.Filling(e, e.actual.tx) && psn == e.actual.tx - 1 && e.actual.tx <= MAX_WINDOW
    requires e.payloadSizes[psn] != 0 && |e.outgoing| == Wide.FULL * (e.actual.tx + 1)
    ensures var e' := HandleAck(e, psn);
            |e'.outgoing| == Wide.FULL && e'.log.next == e.log.next && e'.actual == e.actual
            && e'.retransmitTimer == (e'.payloadSizes[NextSn(psn)] != 0) && e'.state == e.state
            && e'.nextExpectedAckSn == NextSn(psn) && e'.nextDataSn == e.nextDataSn
  {
    Wide.FullAwaiting(e.actual.tx, 0);
    hide AwaitingUpTo, ClearUpTo, Wide.FullSlots;
  }

  lemma GapRefused(e: Endpoint)
    requires e.nextExpectedDataPsn == 0 && 1 <= e.actual.tx <= MAX_WINDOW && e.actual.rx < SN_COUNT
    requires e.payloadSizes[e.actual.tx - 1] != 0
    ensures var bytes: seq<byte> := [WITH_ACK + e.actual.tx - 1, 1, 9];
            AckThenRefused(e, bytes) && bytes[0] < CONTROL && bytes[0] % SN_COUNT == e.actual.tx - 1
  {
    var header: byte := WITH_ACK + e.actual.tx - 1;
    assert (header / WITH_ACK) % 2 == 1 && header % SN_COUNT == e.actual.tx - 1;
  }
}

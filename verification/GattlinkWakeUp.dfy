/** Wake-ups: whatever a peer, a client and a transport do to an endpoint, the retransmit timer is
    armed while it waits for an ack or a reset. An ack that it owes has the ack timer armed, unless
    that timer has fired and the transport refused the ack: then no timer need be armed at all. */
module GattlinkWakeUp {
  import opened Common
  import opened GattlinkEndpoint
  import opened GattlinkSender

  /** Between two events, unless a send was refused, everything numbered has been sent
      since the last rollback and no ack is left pending. */
  ghost predicate Settled(e: Endpoint) {
    !e.log.refused ==> e.log.next == |e.log.fragments| && !e.ackNow
  }

  ghost predicate CanSettle(e: Endpoint) {
    e.log.refused || e.log.acked <= e.log.next
  }

  /** Accepted bytes are those the client has taken followed by those still buffered. */
  ghost predicate ReceiverOk(e: Endpoint) {
    && e.bytesConsumed <= |e.payload|
    && e.log.accepted == e.log.read + (if e.bufferFull then e.payload[e.bytesConsumed..] else [])
    && e.nextExpectedDataPsn == e.log.received % SN_COUNT
    && e.psnToAckWith == (if e.log.ackable == 0 then 0 else (e.log.ackable - 1) % SN_COUNT)
    && e.log.ackable <= e.log.received
  }

  ghost predicate EndpointOk(e: Endpoint) {
    && e.actual.tx <= MAX_WINDOW
    && match e.state
       case Initialized => e.outgoing == []
       case AwaitingSelf => e.outgoing == [] && e.retransmitTimer
       case AwaitingRemote => e.outgoing == [] && e.retransmitTimer
       case Ready => SenderOk(e) && TimersOk(e) && Settled(e) && ReceiverOk(e)
  }

  /** What the sending loop never touches. */
  ghost predicate SameSession(a: Endpoint, b: Endpoint) {
    && b.state == a.state && b.desired == a.desired && b.actual == a.actual
    && b.outgoing == a.outgoing && b.nextExpectedAckSn == a.nextExpectedAckSn
    && b.psnToAckWith == a.psnToAckWith && b.nextExpectedDataPsn == a.nextExpectedDataPsn
    && b.bufferFull == a.bufferFull && b.payload == a.payload && b.bytesConsumed == a.bytesConsumed
    && b.log.acked == a.log.acked && b.log.received == a.log.received && b.log.ackable == a.log.ackable
    && b.log.submitted == a.log.submitted && b.log.consumed == a.log.consumed
    && b.log.accepted == a.log.accepted && b.log.read == a.log.read
    && a.log.fragments <= b.log.fragments
    && (a.log.refused ==> b.log.refused)
  }

  lemma StopMeansSettled(e: Endpoint, t: Transport)
    requires SenderOk(e) && CanSettle(e) && !SomethingToSend(e, t)
    ensures Settled(e)
  {
    if !e.log.refused {
      StopMeansSent(e, t);
    }
  }

  /** When the loop stops by itself with `next` not behind, nothing numbered is left to resend. */
  lemma StopMeansSent(e: Endpoint, t: Transport)
    requires SenderOk(e) && e.log.acked <= e.log.next && !SomethingToSend(e, t)
    ensures e.log.next == |e.log.fragments|
  {
    ModDistance(e.log.acked, e.log.next);
    assert e.payloadSizes[e.log.next % SN_COUNT]
        == if e.log.next < |e.log.fragments| then |e.log.fragments[e.log.next]| else 0;
    if e.log.next < |e.log.fragments| {
      FlatHead(e.log.fragments, e.log.acked);
    }
  }

  /** One turn of the loop keeps the sender in step. */
  lemma {:induction false} SendStep(e: Endpoint, t: Transport)
    requires SenderOk(e) && TimersOk(e) && CanSettle(e) && SomethingToSend(e, t)
    ensures var e' := AfterSending(e, t);
            SenderOk(e') && TimersOk(e') && CanSettle(e') && SameSession(e, e')
  {
    hide Flat, AwaitingUpTo, NextPayloadSize, Payload, NextFrame, SizesMatch, FragmentSizes;
    AfterSendingOk(e, t);
  }

  lemma RefusalOk(e: Endpoint, t: Transport)
    requires SenderOk(e) && TimersOk(e) && SomethingToSend(e, t)
    ensures var e' := AfterRefusal(e, t);
            SenderOk(e') && TimersOk(e') && Settled(e') && SameSession(e, e')
  {
  }

  /** The loop ends in step with the unbounded counters, with every timer it needs armed. */
  lemma {:induction false} SendNextOk(e: Endpoint, t: Transport)
    requires SenderOk(e) && TimersOk(e) && CanSettle(e)
    ensures var e' := SendNext(e, t).endpoint;
            SenderOk(e') && TimersOk(e') && Settled(e') && SameSession(e, e')
    decreases WindowLeft(e), AckDue(e)
  {
    assert e.actual.tx < SN_COUNT;
    hide SenderOk, TimersOk, Settled, CanSettle, AfterSending, AfterRefusal, NextFrame, SomethingToSend, AckDue;
    hide WindowLeft;
    if !SomethingToSend(e, t) {
      StopMeansSettled(e, t);
    } else if t.Refuses() {
      RefusalOk(e, t);
    } else {
      SendStep(e, t);
      SendProgress(e, t);
      SendNextOk(AfterSending(e, t), t.AfterSend());
    }
  }

  lemma SameSizes(e: Endpoint, e1: Endpoint, t: Transport)
    requires e1 == e.(retransmitTimer := true)
    ensures NextPayloadSize(e1, t) == NextPayloadSize(e, t) && AckDue(e1) == AckDue(e)
    ensures SomethingToSend(e1, t) == SomethingToSend(e, t) && NextFrame(e1, t) == NextFrame(e, t)
  {
  }

  /** A loop about to send data arms the retransmit timer itself. */
  lemma {:induction false} ArmedAnyway(e: Endpoint, t: Transport)
    requires e.actual.tx < SN_COUNT && NextPayloadSize(e, t) > 0
    ensures SendNext(e, t) == SendNext(e.(retransmitTimer := true), t)
  {
    hide NextPayloadSize, AwaitingUpTo, Fetch, InFlight, AckDue;
    var e1 := e.(retransmitTimer := true);
    SameSizes(e, e1, t);
    assert AfterSending(e, t) == AfterSending(e1, t);
  }

  /** A packet to be resent goes out next, in the size it had. */
  lemma ResendsNext(e: Endpoint, t: Transport)
    requires SenderOk(e) && e.log.acked <= e.log.next < |e.log.fragments|
    ensures NextPayloadSize(e, t) == |e.log.fragments[e.log.next]|
  {
    hide Distance, AwaitingUpTo;
    ModDistance(e.log.acked, e.log.next);
    FlatHead(e.log.fragments, e.log.acked);
  }

  /** After a timeout there is something to resend exactly when a packet is unacknowledged. */
  lemma RollBackResends(e: Endpoint, t: Transport)
    requires SenderOk(e) && e.log.acked < |e.log.fragments|
    ensures NextPayloadSize(RollBack(e), t) == |e.log.fragments[e.log.acked]|
    ensures SenderOk(RollBack(e))
  {
    FlatHead(e.log.fragments, e.log.acked);
  }

  /** An open session in the middle of a handler, ready for the sending loop. */
  ghost predicate Open(e: Endpoint) {
    && e.state == Ready
    && SenderOk(e) && TimersOk(e) && CanSettle(e) && ReceiverOk(e)
  }

  lemma {:induction false} SendOpen(e: Endpoint, t: Transport)
    requires Open(e)
    ensures EndpointOk(SendNext(e, t).endpoint)
  {
    hide SendNext, TimersOk, Settled, CanSettle, SizesMatch, FragmentSizes, Flat;
    SendNextOk(e, t);
  }

  lemma RollBackOpen(e: Endpoint, t: Transport)
    requires EndpointOk(e) && e.state == Ready
    ensures var e1 := RollBack(e.(retransmitTimer := false));
            if e.log.acked < |e.log.fragments| then
              NextPayloadSize(e1, t) > 0 && Open(e1.(retransmitTimer := true))
            else Open(e1)
  {
    hide AwaitingUpTo, SizesMatch;
    if e.log.acked < |e.log.fragments| {
      RollBackResends(e.(retransmitTimer := false), t);
    }
  }

  lemma RetransmitOk(e: Endpoint, t: Transport)
    requires EndpointOk(e) && e.state == Ready
    ensures EndpointOk(OnRetransmitTimer(e.(retransmitTimer := false), t).endpoint)
  {
    hide SendNext, Open, SenderOk, TimersOk, Settled, ReceiverOk;
    RollBackOpen(e, t);
    var e1 := RollBack(e.(retransmitTimer := false));
    if e.log.acked < |e.log.fragments| {
      ArmedAnyway(e1, t);
      SendOpen(e1.(retransmitTimer := true), t);
    } else {
      SendOpen(e1, t);
    }
  }

  lemma {:induction false} TakeOk(e: Endpoint, count: nat)
    requires ReceiverOk(e)
    ensures ReceiverOk(TakeIncoming(e, count))
  {
    if count <= IncomingAvailable(e) {
      if e.bufferFull {
        TakenSplits(e.log.read, e.payload, e.bytesConsumed, count);
      }
      if count == 0 {
        assert e.log.read + [] == e.log.read;
      }
    }
  }

  /** Reading on moves bytes from what is buffered to what was read. */
  lemma TakenSplits(read: seq<byte>, payload: seq<byte>, at: nat, count: nat)
    requires at + count <= |payload|
    ensures read + payload[at..] == (read + payload[at..at + count]) + payload[at + count..]
    ensures at + count == |payload| ==> payload[at + count..] == []
    ensures at + count == |payload| ==> read + payload[at..] == (read + payload[at..at + count]) + []
    ensures count == 0 ==> payload[at..at + count] == []
  {
  }

  lemma BufferedOk(e: Endpoint, psn: Sn, payload: seq<byte>)
    requires EndpointOk(e) && e.state == Ready && !e.bufferFull && psn == e.nextExpectedDataPsn
    ensures EndpointOk(Buffered(e, psn, payload))
  {
    hide SizesMatch, FragmentSizes, Flat;
    ModStep(e.log.received);
    assert payload[0..] == payload;
  }

  lemma NotedOpen(e: Endpoint, psn: Sn, take: nat)
    requires Open(e) && e.log.received > 0 && psn == (e.log.received - 1) % SN_COUNT
    ensures Open(Noted(e, psn, take))
  {
    hide SizesMatch, FragmentSizes, Flat;
    TakeOk(e, take);
  }

  lemma OweAckOpen(e: Endpoint)
    requires Open(e)
    ensures Open(OweAck(e))
  {
    hide SizesMatch, FragmentSizes, Flat;
  }

  lemma AckOpen(e: Endpoint, psn: Sn)
    requires EndpointOk(e) && e.state == Ready
    ensures EndpointOk(HandleAck(e, psn)) && Open(HandleAck(e, psn))
  {
    hide AwaitingUpTo, ClearUpTo, Flat;
    HandleAckOk(e, psn);
    var e' := HandleAck(e, psn);
    assert e'.payloadSizes[e'.log.acked % SN_COUNT]
        == if e'.log.acked < |e'.log.fragments| then |e'.log.fragments[e'.log.acked]| else 0;
  }

  lemma SettledIsOpen(e: Endpoint)
    requires EndpointOk(e) && e.state == Ready
    ensures Open(e)
  {
    hide SizesMatch, FragmentSizes, Flat;
  }

  lemma GivenOpen(e: Endpoint, data: seq<byte>)
    requires Open(e)
    ensures Open(Given(e, data))
  {
    hide SizesMatch, FragmentSizes, Flat;
  }

  /** What neither the sending loop nor a client that submits ever touches. */
  ghost predicate SameReceiver(a: Endpoint, b: Endpoint) {
    && b.state == a.state && b.desired == a.desired && b.actual == a.actual
    && b.nextExpectedDataPsn == a.nextExpectedDataPsn && b.bufferFull == a.bufferFull
    && b.log.acked == a.log.acked && b.log.received == a.log.received && b.log.ackable == a.log.ackable
    && a.log.fragments <= b.log.fragments
  }

  lemma SameReceiverTrans(a: Endpoint, b: Endpoint, c: Endpoint)
    requires SameReceiver(a, b) && SameReceiver(b, c)
    ensures SameReceiver(a, c)
  {
  }

  lemma {:induction false} GivenSent(e: Endpoint, data: seq<byte>, t: Transport)
    requires Open(e)
    ensures EndpointOk(SendNext(Given(e, data), t).endpoint)
    ensures SameReceiver(e, SendNext(Given(e, data), t).endpoint)
  {
    hide SendNext, SenderOk, TimersOk, CanSettle, Settled, ReceiverOk;
    GivenOpen(e, data);
    SendNextOk(Given(e, data), t);
    SendOpen(Given(e, data), t);
  }

  lemma {:induction false} RefilledOk(e: Endpoint, refills: seq<Refill>)
    requires EndpointOk(e) && e.state == Ready
    ensures var e' := Refilled(e, refills).endpoint;
            EndpointOk(e') && Open(e') && SameReceiver(e, e')
    decreases |refills|
  {
    hide SendNext, SenderOk, TimersOk, Settled, CanSettle, ReceiverOk;
    SettledIsOpen(e);
    if refills != [] {
      GivenSent(e, refills[0].data, refills[0].transport);
      var e1 := SendNext(Given(e, refills[0].data), refills[0].transport).endpoint;
      RefilledOk(e1, refills[1..]);
      SameReceiverTrans(e, e1, Refilled(e1, refills[1..]).endpoint);
    }
  }

  /** Accepting the expected packet counts it, and changes nothing else the peer depends on. */
  lemma AcceptOpen(e: Endpoint, psn: Sn, payload: seq<byte>, client: Client)
    requires EndpointOk(e) && e.state == Ready && !e.bufferFull && psn == e.nextExpectedDataPsn
    ensures var e' := Accept(e, psn, payload, client).endpoint;
            Open(e') && e'.log.received == e.log.received + 1 == e'.log.ackable
  {
    hide Refilled, Buffered, Noted, Open, SenderOk, TimersOk, Settled, ReceiverOk;
    ExpectedNumber(e);
    BufferedOk(e, psn, payload);
    BufferedCounts(e, psn, payload);
    var e1 := Refilled(Buffered(e, psn, payload), client.answers).endpoint;
    RefilledOk(Buffered(e, psn, payload), client.answers);
    NotedOpen(e1, psn, client.take);
    NotedCounts(e1, psn, client.take);
  }

  lemma ExpectedNumber(e: Endpoint)
    requires EndpointOk(e) && e.state == Ready
    ensures e.nextExpectedDataPsn == e.log.received % SN_COUNT
  {
    hide SenderOk;
  }

  lemma BufferedCounts(e: Endpoint, psn: Sn, payload: seq<byte>)
    ensures Buffered(e, psn, payload).log.received == e.log.received + 1
    ensures Buffered(e, psn, payload).state == e.state && Buffered(e, psn, payload).actual == e.actual
  {
  }

  lemma NotedCounts(e: Endpoint, psn: Sn, take: nat)
    ensures Noted(e, psn, take).log.received == e.log.received == Noted(e, psn, take).log.ackable
  {
  }

  lemma PayloadOk(e: Endpoint, data: seq<byte>, client: Client, t: Transport)
    requires EndpointOk(e) && e.state == Ready && |data| > 0
    ensures EndpointOk(HandlePayload(e, data, client, t).endpoint)
  {
    hide SendNext, Open, SenderOk, TimersOk, Settled, ReceiverOk, Accept, OweAck;
    var psn: Sn := data[0] % SN_COUNT;
    if !e.bufferFull {
      match Judge(e, psn)
      case Expected =>
        var e1 := Accept(e, psn, data[1..], client).endpoint;
        AcceptOpen(e, psn, data[1..], client);
        OweAckOpen(e1);
        SendOpen(OweAck(e1), t);
      case Resent =>
        SettledIsOpen(e);
        OweAckOpen(e);
        SendOpen(OweAck(e), t);
      case Unexpected =>
    }
  }

  lemma AckPartOk(e: Endpoint, bytes: seq<byte>, client: Client)
    requires EndpointOk(e) && e.state == Ready && |bytes| > 0
    ensures var e' := HandleAckPart(e, bytes, client).endpoint;
            EndpointOk(e') && Open(e')
  {
    hide Refilled, HandleAck, SenderOk, TimersOk, Settled, CanSettle, ReceiverOk;
    SettledIsOpen(e);
    AckOpen(e, bytes[0] % SN_COUNT);
    RefilledOk(HandleAck(e, bytes[0] % SN_COUNT), client.refills);
  }

  lemma DataPacketOk(e: Endpoint, bytes: seq<byte>, client: Client, t: Transport)
    requires EndpointOk(e) && e.state == Ready && |bytes| > 0
    ensures EndpointOk(HandleDataPacket(e, bytes, client, t).endpoint)
  {
    hide SendNext, HandleAckPart, HandlePayload, Open, SenderOk, TimersOk, Settled, ReceiverOk;
    if |bytes| <= MAX_PACKET_SIZE {
      AckPartOk(e, bytes, client);
      var e1, data := HandleAckPart(e, bytes, client).endpoint, AfterAck(bytes);
      if data == [] {
        SendOpen(e1, t);
      } else {
        PayloadOk(e1, data, client, t);
      }
    }
  }

  /** With nothing to send, the loop can only settle a pending ack. */
  lemma {:induction false} IdleSendNext(e: Endpoint, t: Transport)
    requires e.actual.tx < SN_COUNT && e.outgoing == []
    ensures var e' := SendNext(e, t).endpoint;
            && e'.state == e.state && e'.outgoing == [] && e'.desired == e.desired && e'.actual == e.actual
            && e'.retransmitTimer == e.retransmitTimer
    decreases AckDue(e)
  {
    if SomethingToSend(e, t) && !t.Refuses() {
      IdleSendNext(AfterSending(e, t), t.AfterSend());
    }
  }

  lemma SubmitOk(e: Endpoint, data: seq<byte>, t: Transport)
    requires EndpointOk(e)
    ensures EndpointOk(Submit(e, data, t).endpoint)
  {
    hide SendNext, SizesMatch, FragmentSizes, Flat;
    if e.state == Ready {
      SettledIsOpen(e);
      GivenOpen(e, data);
      SendOpen(Given(e, data), t);
    }
  }

  lemma AckTimerOk(e: Endpoint, t: Transport)
    requires EndpointOk(e)
    ensures EndpointOk(OnAckTimer(e.(ackTimer := false), t).endpoint)
  {
    hide SendNext, SizesMatch, FragmentSizes, Flat;
    var e1 := e.(ackTimer := false, ackNow := true);
    if e.state == Ready { SendOpen(e1, t); } else { IdleSendNext(e1, t); }
  }

  lemma {:induction false} NotifyOk(e: Endpoint, t: Transport)
    requires EndpointOk(e)
    ensures EndpointOk(SendNext(e, t).endpoint)
  {
    hide SendNext, SizesMatch, FragmentSizes, Flat;
    if e.state == Ready { SendOpen(e, t); } else { IdleSendNext(e, t); }
  }

  lemma ClientTakeOk(e: Endpoint, count: nat)
    requires EndpointOk(e)
    ensures EndpointOk(TakeIncoming(e, count))
  {
    hide SizesMatch, FragmentSizes, Flat;
    if e.state == Ready { TakeOk(e, count); }
  }

  lemma DisarmedReset(e: Endpoint, t: Transport)
    ensures Reset(e.(retransmitTimer := false), t) == Reset(e, t)
  {
  }

  /** A reset-complete packet that arrives at an end with these wishes opens a session with a
      window of at most 16. Other events open none. */
  predicate Modest(desired: Windows, event: Event) {
    event.RawData? && |event.bytes| >= RESET_COMPLETE_SIZE && event.bytes[0] == CONTROL + RESET_COMPLETE ==>
      Min(desired.tx, event.bytes[3]) <= MAX_WINDOW
  }

  lemma HandshakeOk(e: Endpoint, bytes: seq<byte>, t: Transport)
    requires EndpointOk(e) && |bytes| > 0 && (bytes[0] >= CONTROL ==> Modest(e.desired, RawData(bytes, PASSIVE)))
    ensures bytes[0] >= CONTROL ==> EndpointOk(HandleControlPacket(e, bytes, t).endpoint)
    ensures EndpointOk(Reset(e, t).endpoint)
  {
    assert EMPTY_LOG.fragments[..0] == [];
    assert EMPTY_LOG.fragments[0..] == [];
  }

  /** Every event keeps the endpoint invariant. */
  lemma ReactOk(e: Endpoint, event: Event, t: Transport)
    requires EndpointOk(e) && Modest(e.desired, event)
    ensures EndpointOk(React(e, event, t).endpoint)
  {
    hide SendNext, Submit, HandleControlPacket, HandleDataPacket, OnAckTimer, Reset, TakeIncoming, SenderOk;
    hide TimersOk, ReceiverOk, Settled;
    match event
    case Start => HandshakeOk(e, [0], t);
    case RequestReset => HandshakeOk(e, [0], t);
    case ClientSubmit(data) => SubmitOk(e, data, t);
    case ClientNotify => NotifyOk(e, t);
    case ClientTake(count) => ClientTakeOk(e, count);
    case RawData(bytes, client) =>
      if |bytes| > 0 {
        HandshakeOk(e, bytes, t);
        if e.state == Ready { DataPacketOk(e, bytes, client, t); }
      }
    case AckTimerFires => AckTimerOk(e, t);
    case RetransmitTimerFires =>
      HandshakeOk(e, [0], t);
      if e.state == Ready { RetransmitOk(e, t); }
      DisarmedReset(e, t);
  }

  /** Every session that opens has a window of at most 16. This is so for any events at all if that
      is what the endpoint wishes. */
  ghost predicate AllModest(desired: Windows, script: seq<(Event, Transport)>) {
    forall i :: 0 <= i < |script| ==> Modest(desired, script[i].0)
  }

  /** The endpoint after a list of events, each with the transport's behaviour during it. */
  function Run(e: Endpoint, script: seq<(Event, Transport)>): Endpoint
    requires EndpointOk(e) && AllModest(e.desired, script)
    decreases |script|
  {
    if script == [] then e
    else
      ReactOk(e, script[0].0, script[0].1);
      Run(React(e, script[0].0, script[0].1).endpoint, script[1..])
  }

  lemma {:induction false} RunOk(e: Endpoint, script: seq<(Event, Transport)>)
    requires EndpointOk(e) && AllModest(e.desired, script)
    ensures EndpointOk(Run(e, script))
    decreases |script|
  {
    if script != [] {
      ReactOk(e, script[0].0, script[0].1);
      RunOk(React(e, script[0].0, script[0].1).endpoint, script[1..]);
    }
  }

  // ------------------------------------------------- the one way to lose a wake-up

  /** An ack is owed and no timer will send it. */
  predicate Unarmed(e: Endpoint) {
    e.state == Ready && e.log.ackOwed && !e.ackTimer
  }

  lemma {:induction false} LoopArmed(e: Endpoint, t: Transport)
    requires e.actual.tx < SN_COUNT && !Unarmed(e)
    ensures !Unarmed(SendNext(e, t).endpoint)
    decreases WindowLeft(e), AckDue(e)
  {
    SendNextTurn(e, t);
    hide SendNext, NextFrame, NextPayloadSize;
    if SomethingToSend(e, t) && !t.Refuses() {
      SendProgress(e, t);
      LoopArmed(AfterSending(e, t), t.AfterSend());
    }
  }

  lemma {:induction false} RefilledArmed(e: Endpoint, refills: seq<Refill>)
    requires e.actual.tx < SN_COUNT && !Unarmed(e)
    ensures !Unarmed(Refilled(e, refills).endpoint)
    decreases |refills|
  {
    hide SendNext;
    if refills != [] {
      LoopArmed(Given(e, refills[0].data), refills[0].transport);
      RefilledArmed(SendNext(Given(e, refills[0].data), refills[0].transport).endpoint, refills[1..]);
    }
  }

  lemma PayloadArmed(e: Endpoint, data: seq<byte>, client: Client, t: Transport)
    requires e.actual.tx < SN_COUNT && |data| > 0 && !Unarmed(e)
    ensures !Unarmed(HandlePayload(e, data, client, t).endpoint)
  {
    hide SendNext, Accept;
    var psn: Sn := data[0] % SN_COUNT;
    LoopArmed(OweAck(e), t);
    LoopArmed(OweAck(Accept(e, psn, data[1..], client).endpoint), t);
  }

  lemma PacketArmed(e: Endpoint, bytes: seq<byte>, client: Client, t: Transport)
    requires e.actual.tx < SN_COUNT && |bytes| > 0 && !Unarmed(e)
    ensures !Unarmed(HandleDataPacket(e, bytes, client, t).endpoint)
  {
    hide SendNext, Refilled, HandlePayload, AwaitingUpTo, ClearUpTo;
    RefilledArmed(HandleAck(e, bytes[0] % SN_COUNT), client.refills);
    var e1, data := HandleAckPart(e, bytes, client).endpoint, AfterAck(bytes);
    LoopArmed(e1, t);
    if data != [] {
      PayloadArmed(e1, data, client, t);
    }
  }

  /** What an ack timer that fires makes of the ack it was armed for. */
  lemma {:induction false} AckTimerLoses(e: Endpoint, t: Transport)
    requires e.actual.tx < SN_COUNT && e.state == Ready && e.log.ackOwed
    ensures Unarmed(OnAckTimer(e.(ackTimer := false), t).endpoint) <==> t.Refuses()
  {
    var e1 := e.(ackTimer := false, ackNow := true);
    SendNextTurn(e1, t);
    hide SendNext, NextFrame, NextPayloadSize;
    if !t.Refuses() {
      LoopArmed(AfterSending(e1, t), t.AfterSend());
    }
  }

  /** A wake-up is lost exactly when the ack timer fires while the transport refuses to send. */
  lemma LostIffRefused(e: Endpoint, event: Event, t: Transport)
    requires EndpointOk(e) && !Unarmed(e)
    ensures Unarmed(React(e, event, t).endpoint)
            <==> event == AckTimerFires && e.state == Ready && e.ackTimer && e.log.ackOwed && t.Refuses()
  {
    hide SendNext, HandleDataPacket, SenderOk, TimersOk, Settled, ReceiverOk;
    match event
    case Start =>
    case RequestReset =>
    case ClientSubmit(data) => LoopArmed(Given(e, data), t);
    case ClientNotify => LoopArmed(e, t);
    case ClientTake(count) =>
    case RawData(bytes, client) =>
      if e.state == Ready && |bytes| > 0 && bytes[0] < CONTROL {
        PacketArmed(e, bytes, client, t);
      }
    case AckTimerFires =>
      if e.ackTimer && e.log.ackOwed && e.state == Ready {
        AckTimerLoses(e, t);
      } else {
        LoopArmed(e.(ackTimer := false, ackNow := true), t);
      }
    case RetransmitTimerFires => LoopArmed(RollBack(e.(retransmitTimer := false)), t);
  }

  /** The ack timer never fires into a transport that refuses to send. */
  ghost predicate AcksGoOut(script: seq<(Event, Transport)>) {
    forall i :: 0 <= i < |script| ==> !(script[i].0 == AckTimerFires && script[i].1.Refuses())
  }

  lemma {:induction false} RunArmed(e: Endpoint, script: seq<(Event, Transport)>)
    requires EndpointOk(e) && AllModest(e.desired, script) && !Unarmed(e) && AcksGoOut(script)
    ensures !Unarmed(Run(e, script))
    decreases |script|
  {
    hide EndpointOk, Unarmed, React;
    if script != [] {
      TxBelow(e);
      ReactOk(e, script[0].0, script[0].1);
      assert !(script[0].0 == AckTimerFires && script[0].1.Refuses());
      LostIffRefused(e, script[0].0, script[0].1);
      RunArmed(React(e, script[0].0, script[0].1).endpoint, script[1..]);
    }
  }

  lemma TxBelow(e: Endpoint)
    requires EndpointOk(e)
    ensures e.actual.tx < SN_COUNT
  {
  }

  /** After any events at all from creation: a reset that is awaited and a packet that is
      unacknowledged have the retransmit timer armed; a received packet that is not acknowledged has
      the ack timer armed, unless that timer has fired while the transport refused to send, and then
      its ack goes with the next packet. */
  lemma {:induction false} NoLostWakeUp(desired: Windows, script: seq<(Event, Transport)>)
    requires AllModest(desired, script)
    ensures var e := Run(Create(desired), script);
            && (e.state == AwaitingSelf || e.state == AwaitingRemote ==> e.retransmitTimer)
            && (e.state == Ready ==>
                  && ((exists sn: Sn :: e.payloadSizes[sn] != 0) ==> e.retransmitTimer)
                  && (e.log.ackOwed ==> e.ackTimer || (!AcksGoOut(script) && e.log.refused && e.ackNow)))
  {
    RunOk(Create(desired), script);
    var e := Run(Create(desired), script);
    if AcksGoOut(script) {
      RunArmed(Create(desired), script);
    }
    if e.state == Ready && exists sn: Sn :: e.payloadSizes[sn] != 0 {
      var sn: Sn :| e.payloadSizes[sn] != 0;
      var j := SlotOwner(e.payloadSizes, e.log.acked, e.log.fragments, sn);
    }
  }
}

/** Where the protocol gets stuck, and exactly when. */
module GattlinkLimits {
  import opened Common
  import opened GattlinkEndpoint
  import opened GattlinkSender
  import opened GattlinkWakeUp
  import opened GattlinkTheorems
  import Net = GattlinkNetwork

  // ------------------------------------------- a refused send while resending

  /** The next number to send is behind the last one acknowledged, nothing is unacknowledged
      and no retransmission is due. */
  ghost predicate Stalled(e: Endpoint) {
    && e.state == Ready
    && SenderOk(e)
    && e.log.next < e.log.acked == |e.log.fragments|
    && !e.retransmitTimer
  }

  /** An ack for everything sent stalls the sender exactly when a refused send has left some
      of it still to be resent. */
  lemma AckOfAllStalls(e: Endpoint)
    requires EndpointOk(e) && e.state == Ready && e.log.acked < |e.log.fragments|
    ensures Stalled(HandleAck(e, (|e.log.fragments| - 1) % SN_COUNT)) <==> e.log.next < |e.log.fragments|
  {
    hide Flat, AwaitingUpTo, ClearUpTo, FragmentSizes;
    var sent := |e.log.fragments|;
    var psn: Sn := (sent - 1) % SN_COUNT;
    var e' := HandleAck(e, psn);
    SlotFull(e, sent - 1);
    HandleAckOk(e, psn);
    Net.CloseMod(e'.log.acked - 1, sent - 1);
    assert e'.payloadSizes[sent % SN_COUNT] == 0;
  }

  lemma StalledSendsNoData(e: Endpoint, t: Transport)
    requires Stalled(e)
    ensures NextPayloadSize(e, t) == 0
  {
    hide Flat, SizesMatch, FragmentSizes, AwaitingUpTo, Distance;
    ModDistance(e.log.next, e.log.acked);
    DistanceBack(e.nextExpectedAckSn, e.nextDataSn);
  }

  lemma {:induction false} StalledLoop(e: Endpoint, t: Transport)
    requires Stalled(e)
    ensures Stalled(SendNext(e, t).endpoint) && Numbers(SendNext(e, t).sent) == []
    decreases AckDue(e)
  {
    SendNextTurn(e, t);
    StalledSendsNoData(e, t);
    hide SendNext, NextPayloadSize, Flat, SizesMatch, FragmentSizes;
    if SomethingToSend(e, t) && !t.Refuses() {
      var e' := AfterSending(e, t);
      assert Stalled(e');
      StalledLoop(e', t.AfterSend());
      assert ([NextFrame(e, t)] + SendNext(e', t.AfterSend()).sent)[1..] == SendNext(e', t.AfterSend()).sent;
    }
  }

  /** An event that does not touch the session itself: no reset from either side. */
  predicate WithinSession(event: Event) {
    Net.InSession(event) || (event.RawData? && (event.bytes == [] || event.bytes[0] < CONTROL))
  }

  ghost predicate AllWithinSession(script: seq<(Event, Transport)>) {
    forall i :: 0 <= i < |script| ==> WithinSession(script[i].0)
  }

  /** Everything a stalled sender sends during a list of events. */
  function SentDuring(e: Endpoint, script: seq<(Event, Transport)>): (r: (Endpoint, seq<Frame>))
    requires Stalled(e) && AllWithinSession(script)
    decreases |script|
  {
    if script == [] then (e, [])
    else
      StalledStep(e, script[0].0, script[0].1);
      var o := React(e, script[0].0, script[0].1);
      var rest := SentDuring(o.endpoint, script[1..]);
      (rest.0, o.sent + rest.1)
  }

  /** Nothing inside the session ever gets a stalled sender going again: it never sends another
      byte of its client's data, whatever the client submits and whatever arrives. */
  lemma {:induction false} StalledForever(e: Endpoint, script: seq<(Event, Transport)>)
    requires Stalled(e) && AllWithinSession(script)
    ensures Stalled(SentDuring(e, script).0) && Numbers(SentDuring(e, script).1) == []
    decreases |script|
  {
    hide Stalled, React;
    if script != [] {
      StalledTx(e);
      StalledStep(e, script[0].0, script[0].1);
      var o := React(e, script[0].0, script[0].1);
      StalledForever(o.endpoint, script[1..]);
      NumbersConcat(o.sent, SentDuring(o.endpoint, script[1..]).1);
    }
  }

  lemma {:induction false} NumbersConcat(a: seq<Frame>, b: seq<Frame>)
    ensures Numbers(a + b) == Numbers(a) + Numbers(b)
  {
    if a == [] {
      assert a + b == b;
    } else {
      NumbersConcat(a[1..], b);
      assert (a + b)[1..] == a[1..] + b;
      Regroup(if a[0].dataIndex.Some? then [a[0].dataIndex.value] else [], Numbers(a[1..]), Numbers(b));
    }
  }

  lemma StalledStep(e: Endpoint, event: Event, t: Transport)
    requires Stalled(e) && WithinSession(event)
    ensures Stalled(React(e, event, t).endpoint) && Numbers(React(e, event, t).sent) == []
  {
    hide SendNext, Flat, SizesMatch, FragmentSizes, TakeIncoming;
    match event
    case ClientSubmit(data) =>
      StalledLoop(Given(e, data), t);
    case ClientNotify => StalledLoop(e, t);
    case ClientTake(count) => StalledTake(e, count);
    case RawData(bytes, client) =>
      if bytes != [] {
        StalledReceive(e, bytes, client, t);
      }
    case AckTimerFires => StalledLoop(e.(ackTimer := false, ackNow := true), t);
    case RetransmitTimerFires =>
  }

  lemma StalledTake(e: Endpoint, count: nat)
    requires Stalled(e)
    ensures Stalled(TakeIncoming(e, count))
  {
    hide Flat, SizesMatch, FragmentSizes;
  }

  lemma StalledReceive(e: Endpoint, bytes: seq<byte>, client: Client, t: Transport)
    requires Stalled(e) && |bytes| > 0
    ensures var o := HandleDataPacket(e, bytes, client, t);
            Stalled(o.endpoint) && Numbers(o.sent) == []
  {
    hide SendNext, Flat, SizesMatch, FragmentSizes, TakeIncoming, HandleAck, SenderOk, Accept, OweAck, Stalled;
    StalledTx(e);
    if |bytes| <= MAX_PACKET_SIZE {
      if HasAck(bytes) {
        StalledIdle(e);
        NoSlotInUse(e, bytes[0] % SN_COUNT);
      }
      var data := AfterAck(bytes);
      assert forall sent: seq<Frame> :: [] + sent == sent;
      if data == [] {
        StalledLoop(e, t);
      } else {
        var psn: Sn := data[0] % SN_COUNT;
        StalledAccept(e, psn, data[1..], client);
        StalledLoop(OweAck(e), t);
        StalledLoop(OweAck(Accept(e, psn, data[1..], client).endpoint), t);
        NumbersConcat(Accept(e, psn, data[1..], client).sent,
                      SendNext(OweAck(Accept(e, psn, data[1..], client).endpoint), t).sent);
      }
    }
  }

  lemma StalledTx(e: Endpoint)
    requires Stalled(e)
    ensures e.actual.tx < SN_COUNT
  {
  }

  lemma StalledIdle(e: Endpoint)
    requires Stalled(e)
    ensures SenderOk(e) && e.log.acked == |e.log.fragments|
  {
  }

  lemma {:induction false} StalledRefills(e: Endpoint, refills: seq<Refill>)
    requires Stalled(e) && e.actual.tx < SN_COUNT
    ensures Stalled(Refilled(e, refills).endpoint) && Numbers(Refilled(e, refills).sent) == []
    decreases |refills|
  {
    hide SendNext, Stalled;
    if refills != [] {
      var first := SendNext(Given(e, refills[0].data), refills[0].transport);
      StalledGiven(e, refills[0].data);
      StalledLoop(Given(e, refills[0].data), refills[0].transport);
      StalledRefills(first.endpoint, refills[1..]);
      NumbersConcat(first.sent, Refilled(first.endpoint, refills[1..]).sent);
    }
  }

  lemma StalledGiven(e: Endpoint, data: seq<byte>)
    requires Stalled(e)
    ensures Stalled(Given(e, data))
  {
    hide Flat, SizesMatch, FragmentSizes;
  }

  lemma StalledAccept(e: Endpoint, psn: Sn, payload: seq<byte>, client: Client)
    requires Stalled(e) && e.actual.tx < SN_COUNT
    ensures var o := Accept(e, psn, payload, client);
            Stalled(OweAck(e)) && Stalled(OweAck(o.endpoint)) && Numbers(o.sent) == []
  {
    hide Stalled, Refilled, Buffered, Noted, OweAck;
    var e1 := Buffered(e, psn, payload);
    StalledCounts(e, psn, payload, 0);
    StalledRefills(e1, client.answers);
    StalledCounts(Refilled(e1, client.answers).endpoint, psn, payload, client.take);
  }

  lemma StalledCounts(e: Endpoint, psn: Sn, payload: seq<byte>, take: nat)
    requires Stalled(e)
    ensures Stalled(Buffered(e, psn, payload)) && Buffered(e, psn, payload).actual == e.actual
    ensures Stalled(OweAck(e)) && Stalled(OweAck(Noted(e, psn, take)))
  {
    hide Flat, SizesMatch, FragmentSizes;
  }
}

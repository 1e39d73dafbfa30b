/** The protocol object itself: fields updated in place, each method proved to do what
    the endpoint functions say. */
module GattlinkProtocol {
  import opened Common
  import opened GattlinkEndpoint
  import GattlinkSender

  /** What goes over the air of a list of packets. */
  function Datagrams(frames: seq<Frame>): seq<seq<byte>> {
    seq(|frames|, i requires 0 <= i < |frames| => frames[i].bytes)
  }

  lemma DatagramsAppend(frames: seq<Frame>, f: Frame)
    ensures Datagrams(frames + [f]) == Datagrams(frames) + [f.bytes]
  {
  }

  lemma DatagramsConcat(a: seq<Frame>, b: seq<Frame>)
    ensures Datagrams(a + b) == Datagrams(a) + Datagrams(b)
  {
  }

  lemma FullBuffer(e: Endpoint, data: seq<byte>, client: Client, t: Transport)
    requires e.actual.tx < SN_COUNT && |data| > 0 && e.bufferFull
    ensures HandlePayload(e, data, client, t) == Outcome(e, [], NotEnoughSpace)
  {
  }

  /** The outbound and inbound parts of the protocol object. */
  datatype Outbound = Outbound(psnToAckWith: Sn, outstanding: byte, nextExpectedAckSn: Sn, nextDataSn: Sn,
                               ackTimer: bool, retransmitTimer: bool, ackNow: bool)

  datatype Inbound = Inbound(nextExpectedDataPsn: Sn, bufferFull: bool, payload: seq<byte>, bytesConsumed: nat)

  const NO_OUTBOUND := Outbound(0, 0, 0, 0, false, false, false)
  const NO_INBOUND := Inbound(0, false, [], 0)

  /** One turn of the loops over the size table. */
  lemma {:induction false} AwaitingStep(sizes: SizeTable, sn: Sn, end: Sn)
    ensures sn == end ==> AwaitingUpTo(sizes, sn, end) == 0 && ClearUpTo(sizes, sn, end) == sizes
    ensures sn != end ==>
              && AwaitingUpTo(sizes, sn, end) == sizes[sn] + AwaitingUpTo(sizes, NextSn(sn), end)
              && ClearUpTo(sizes, sn, end) == ClearUpTo(sizes[sn := 0], NextSn(sn), end)
              && Distance(NextSn(sn), end) < Distance(sn, end)
  {
    Closer(sn, end);
    hide Distance, NextSn;
  }

  lemma Closer(sn: Sn, end: Sn)
    ensures sn != end ==> Distance(NextSn(sn), end) < Distance(sn, end)
  {
  }

  class Protocol {
    var state: SessionState
    var desired: Windows
    var actual: Windows
    var out: Outbound
    const payloadSizes: array<nat>
    var inb: Inbound
    var outgoing: seq<byte>
    ghost var log: Log

    ghost predicate Valid()
      reads this
    {
      payloadSizes.Length == SN_COUNT
    }

    ghost function View(): Endpoint
      requires payloadSizes.Length == SN_COUNT
      reads this, payloadSizes
    {
      Endpoint(state, desired, actual, out.psnToAckWith, out.outstanding, out.nextExpectedAckSn, out.nextDataSn,
               payloadSizes[..], out.ackTimer, out.retransmitTimer, out.ackNow,
               inb.nextExpectedDataPsn, inb.bufferFull, inb.payload, inb.bytesConsumed, outgoing, log)
    }

    constructor (config: Windows)
      ensures Valid() && fresh(payloadSizes) && View() == Create(config)
    {
      state, desired, actual := Initialized, config, Windows(0, 0);
      payloadSizes := new nat[SN_COUNT](_ => 0);
      out, inb := NO_OUTBOUND, NO_INBOUND;
      outgoing, log := [], EMPTY_LOG;
      new;
      assert payloadSizes[..] == seq(SN_COUNT, _ => 0);
    }

    method BytesAwaitingAckUpTo(end: Sn) returns (count: nat)
      requires Valid()
      ensures count == AwaitingUpTo(payloadSizes[..], out.nextExpectedAckSn, end)
    {
      hide AwaitingUpTo, Distance, NextSn;
      count := 0;
      var sn := out.nextExpectedAckSn;
      ghost var sizes: SizeTable := payloadSizes[..];
      while sn != end
        invariant count + AwaitingUpTo(sizes, sn, end) == AwaitingUpTo(sizes, out.nextExpectedAckSn, end)
        decreases Distance(sn, end)
      {
        AwaitingStep(sizes, sn, end);
        count := count + payloadSizes[sn];
        sn := NextSn(sn);
      }
      AwaitingStep(sizes, end, end);
    }

    method ClearPayloadSizesUpTo(end: Sn)
      requires Valid()
      modifies payloadSizes
      ensures payloadSizes[..] == ClearUpTo(old(payloadSizes[..]), out.nextExpectedAckSn, end)
    {
      hide ClearUpTo, Distance, NextSn;
      var sn := out.nextExpectedAckSn;
      while sn != end
        invariant ClearUpTo(payloadSizes[..], sn, end) == ClearUpTo(old(payloadSizes[..]), out.nextExpectedAckSn, end)
        decreases Distance(sn, end)
      {
        AwaitingStep(payloadSizes[..], sn, end);
        payloadSizes[sn] := 0;
        sn := NextSn(sn);
      }
      AwaitingStep(payloadSizes[..], end, end);
    }

    /** Builds the next packet, if there is one, and arms the retransmit timer for data. */
    method PrepareNextPacket(t: Transport) returns (ready: bool, bytes: seq<byte>, size: nat)
      requires Valid()
      modifies `out
      ensures ready == SomethingToSend(old(View()), t)
      ensures View() == Armed(old(View()), t)
      ensures size == NextPayloadSize(old(View()), t)
      ensures ready ==> bytes == NextFrame(old(View()), t).bytes
    {
      ghost var before := View();
      var maxPacketSize := Min(t.maxPacketSize, MAX_PACKET_SIZE);
      var ackDue := out.ackNow;
      if out.outstanding > actual.rx / 2 {
        ackDue := true;
      }
      bytes, size := [], 0;
      if ackDue {
        bytes := [WITH_ACK + out.psnToAckWith];
        maxPacketSize := maxPacketSize - 1;
      }
      assert ackDue == AckDue(before);
      if Distance(out.nextExpectedAckSn, out.nextDataSn) >= actual.tx || |outgoing| == 0 {
        return ackDue, bytes, 0;
      }
      var offset := BytesAwaitingAckUpTo(out.nextDataSn);
      var dataSize: int := payloadSizes[out.nextDataSn];
      if dataSize == 0 {
        dataSize := |outgoing| - offset;
        if dataSize <= 0 || maxPacketSize - 1 <= 0 {
          return ackDue, bytes, 0;
        }
        dataSize := Min(dataSize, maxPacketSize - 1);
      }
      bytes := bytes + ([out.nextDataSn] + Fetch(outgoing, offset, dataSize));
      size := dataSize;
      if !out.retransmitTimer {
        out := out.(retransmitTimer := true);
      }
      ready := true;
    }

    /** The sending loop: it stops when nothing is left to send or the transport refuses. */
    method SendNextPackets(t: Transport) returns (sent: seq<seq<byte>>)
      requires Valid() && actual.tx < SN_COUNT
      modifies this, payloadSizes
      ensures Valid()
      ensures View() == SendNext(old(View()), t).endpoint
      ensures sent == Datagrams(SendNext(old(View()), t).sent)
    {
      hide SendNext, AfterSending, AfterRefusal, NextFrame, NextPayloadSize, SomethingToSend, Armed, Datagrams;
      sent := [];
      var transport := t;
      ghost var goal := SendNext(View(), t);
      ghost var frames: seq<Frame> := [];
      DatagramsNone();
      while true
        invariant Valid() && actual.tx < SN_COUNT
        invariant goal.endpoint == SendNext(View(), transport).endpoint
        invariant goal.sent == frames + SendNext(View(), transport).sent
        invariant sent == Datagrams(frames)
        decreases WindowLeft(View()), AckDue(View())
      {
        ghost var before := View();
        GattlinkSender.SendNextTurn(before, transport);
        var ready, bytes, size := PrepareNextPacket(transport);
        if !ready {
          NotArmed(before, transport);
          assert frames + [] == frames;
          return;
        }
        if transport.Refuses() {
          RefusalIsArmed(before, transport);
          log := log.(refused := true);
          assert frames + [] == frames;
          return;
        }
        SendProgress(before, transport);
        Book(before, transport, bytes, size);
        DatagramsAppend(frames, NextFrame(before, transport));
        ghost var rest := SendNext(View(), transport.AfterSend());
        assert frames + ([NextFrame(before, transport)] + rest.sent)
            == (frames + [NextFrame(before, transport)]) + rest.sent;
        frames := frames + [NextFrame(before, transport)];
        sent := sent + [bytes];
        transport := transport.AfterSend();
      }
    }

    /** Bookkeeping for a packet the transport has taken, prepared in the state `before`. */
    method Book(ghost before: Endpoint, ghost t: Transport, bytes: seq<byte>, size: nat)
      requires Valid() && View() == Armed(before, t) && SomethingToSend(before, t)
      requires bytes == NextFrame(before, t).bytes && size == NextPayloadSize(before, t)
      modifies this, payloadSizes
      ensures Valid()
      ensures View() == AfterSending(before, t)
    {
      HeaderTellsAck(before, t);
      SendFields(before, t);
      hide NextFrame, NextPayloadSize, SomethingToSend, AckDue, AfterSending;
      if size > 0 {
        payloadSizes[out.nextDataSn] := size;
        out := out.(nextDataSn := NextSn(out.nextDataSn));
      }
      if (bytes[0] / WITH_ACK) % 2 == 1 {
        out := out.(outstanding := 0, ackNow := false, ackTimer := false);
      }
      log := AfterSending(before, t).log;
    }

    /** The ack half of a data packet. */
    method HandleAckedPsn(psn: Sn)
      requires Valid()
      modifies this, payloadSizes
      ensures Valid() && actual == old(actual) && View() == HandleAck(old(View()), psn)
    {
      ghost var before := View();
      if payloadSizes[psn] != 0 {
        var next := NextSn(psn);
        var acked := BytesAwaitingAckUpTo(next);
        ClearPayloadSizesUpTo(next);
        out := out.(retransmitTimer := payloadSizes[next] != 0, nextExpectedAckSn := next);
        if acked <= |outgoing| {
          outgoing := outgoing[acked..];
        }
        log := HandleAck(before, psn).log;
      }
    }

    /** The client submits from inside the call that told it of released bytes. */
    method SubmitAll(refills: seq<Refill>) returns (sent: seq<seq<byte>>)
      requires Valid() && actual.tx < SN_COUNT
      modifies this, payloadSizes
      ensures Valid()
      ensures var o := Refilled(old(View()), refills); View() == o.endpoint && sent == Datagrams(o.sent)
    {
      hide SendNext, Datagrams;
      DatagramsNone();
      sent := [];
      ghost var goal, frames := Refilled(View(), refills), [];
      var i := 0;
      assert refills[0..] == refills;
      while i < |refills|
        invariant 0 <= i <= |refills| && Valid() && actual.tx < SN_COUNT && sent == Datagrams(frames)
        invariant goal.endpoint == Refilled(View(), refills[i..]).endpoint
        invariant goal.sent == frames + Refilled(View(), refills[i..]).sent
      {
        ghost var before := View();
        assert refills[i..][1..] == refills[i + 1..];
        outgoing := outgoing + refills[i].data;
        log := log.(submitted := log.submitted + refills[i].data);
        assert View() == Given(before, refills[i].data);
        ghost var first := SendNext(Given(before, refills[i].data), refills[i].transport);
        var more := SendNextPackets(refills[i].transport);
        DatagramsConcat(frames, first.sent);
        ghost var rest := Refilled(View(), refills[i + 1..]);
        assert frames + (first.sent + rest.sent) == (frames + first.sent) + rest.sent;
        frames := frames + first.sent;
        sent := sent + more;
        i := i + 1;
      }
      assert frames + [] == frames;
    }

    /** The ack half of a data packet, with what the client makes of it. */
    method HandleAckHalf(bytes: seq<byte>, client: Client) returns (sent: seq<seq<byte>>)
      requires Valid() && actual.tx < SN_COUNT && |bytes| > 0
      modifies this, payloadSizes
      ensures Valid()
      ensures var o := HandleAckPart(old(View()), bytes, client); View() == o.endpoint && sent == Datagrams(o.sent)
    {
      hide Refilled, HandleAck, Datagrams;
      DatagramsNone();
      sent := [];
      if (bytes[0] / WITH_ACK) % 2 == 1 {
        var psn: Sn := bytes[0] % SN_COUNT;
        if payloadSizes[psn] != 0 {
          HandleAckedPsn(psn);
          sent := SubmitAll(client.refills);
        }
      }
    }

    method HandleDataPacket(bytes: seq<byte>, client: Client, t: Transport)
      returns (status: Status, sent: seq<seq<byte>>)
      requires Valid() && actual.tx < SN_COUNT && |bytes| > 0
      modifies this, payloadSizes
      ensures Valid()
      ensures var o := GattlinkEndpoint.HandleDataPacket(old(View()), bytes, client, t);
              View() == o.endpoint && status == o.status && sent == Datagrams(o.sent)
    {
      hide SendNext, HandleAckPart, HandlePayload, Datagrams;
      DatagramsNone();
      if |bytes| > MAX_PACKET_SIZE {
        return InvalidParameters, [];
      }
      ghost var first := HandleAckPart(View(), bytes, client);
      sent := HandleAckHalf(bytes, client);
      var data := if (bytes[0] / WITH_ACK) % 2 == 1 then bytes[1..] else bytes;
      var more;
      if |data| == 0 {
        DatagramsConcat(first.sent, SendNext(View(), t).sent);
        more := SendNextPackets(t);
        return Success, sent + more;
      }
      DatagramsConcat(first.sent, HandlePayload(View(), data, client, t).sent);
      if inb.bufferFull {
        FullBuffer(View(), data, client, t);
        return NotEnoughSpace, sent;
      }
      status, more := HandleNumbered(data, client, t);
      sent := sent + more;
    }

    /** A data packet, from its sequence number on, while the receive buffer is free. */
    method HandleNumbered(data: seq<byte>, client: Client, t: Transport) returns (status: Status, sent: seq<seq<byte>>)
      requires Valid() && actual.tx < SN_COUNT && |data| > 0 && !inb.bufferFull
      modifies this, payloadSizes
      ensures Valid()
      ensures var o := HandlePayload(old(View()), data, client, t);
              View() == o.endpoint && status == o.status && sent == Datagrams(o.sent)
    {
      hide SendNext, Datagrams, Accept, OweAck;
      DatagramsNone();
      sent := [];
      var psn: Sn := data[0] % SN_COUNT;
      if psn == inb.nextExpectedDataPsn {
        ghost var first := Accept(View(), psn, data[1..], client);
        sent := AcceptPayload(psn, data[1..], client);
        DatagramsConcat(first.sent, SendNext(OweAck(first.endpoint), t).sent);
      } else if Distance(psn, inb.nextExpectedDataPsn) >= actual.rx {
        return UnexpectedPsn, [];
      }
      CountUnacked();
      var more := SendNextPackets(t);
      return Success, sent + more;
    }

    /** Buffers the payload that was expected and tells the client, which may answer and take some of it. */
    method AcceptPayload(psn: Sn, bytes: seq<byte>, client: Client) returns (sent: seq<seq<byte>>)
      requires Valid() && actual.tx < SN_COUNT
      modifies this, payloadSizes
      ensures Valid()
      ensures var o := Accept(old(View()), psn, bytes, client); View() == o.endpoint && sent == Datagrams(o.sent)
    {
      hide TakeIncoming, Refilled, Datagrams;
      ghost var before := View();
      inb := inb.(payload := bytes, bytesConsumed := 0, bufferFull := true, nextExpectedDataPsn := NextSn(psn));
      log := log.(received := log.received + 1, accepted := log.accepted + bytes);
      assert View() == Buffered(before, psn, bytes);
      sent := SubmitAll(client.answers);
      var _ := ConsumeIncomingData(client.take);
      out := out.(psnToAckWith := psn);
      log := log.(ackable := log.received);
    }

    method CountUnacked()
      requires Valid()
      modifies `out, `log
      ensures View() == OweAck(old(View()))
    {
      out := out.(outstanding := (out.outstanding + 1) % 256, ackTimer := true);
      log := log.(ackOwed := true);
    }

    /** The client takes `count` bytes of the buffered payload. */
    method ConsumeIncomingData(count: nat) returns (status: Status)
      requires Valid()
      modifies `inb, `log
      ensures View() == TakeIncoming(old(View()), count) && status == TakeStatus(old(View()), count)
    {
      ghost var before := View();
      var available := if inb.bufferFull
          && inb.bytesConsumed <= |inb.payload| then |inb.payload| - inb.bytesConsumed else 0;
      if count > available {
        return InvalidParameters;
      }
      status := Success;
      inb := inb.(bytesConsumed := inb.bytesConsumed + count);
      if inb.bytesConsumed == |inb.payload| {
        inb := inb.(bufferFull := false);
      }
      log := TakeIncoming(before, count).log;
    }

    method OnAckTimerFired(t: Transport) returns (sent: seq<seq<byte>>)
      requires Valid() && actual.tx < SN_COUNT
      modifies this, payloadSizes
      ensures Valid()
      ensures var o := OnAckTimer(old(View()), t); View() == o.endpoint && sent == Datagrams(o.sent)
    {
      hide SendNext, Datagrams;
      out := out.(ackNow := true);
      sent := SendNextPackets(t);
    }

    method OnSendTimeoutFired(t: Transport) returns (sent: seq<seq<byte>>)
      requires Valid() && actual.tx < SN_COUNT
      modifies this, payloadSizes
      ensures Valid()
      ensures var o := OnRetransmitTimer(old(View()), t); View() == o.endpoint && sent == Datagrams(o.sent)
    {
      hide SendNext, Datagrams;
      DatagramsNone();
      if state == AwaitingSelf || state == AwaitingRemote {
        sent := ResetSession(t);
        return;
      }
      if state != Ready {
        return [];
      }
      out := out.(nextDataSn := out.nextExpectedAckSn);
      log := log.(next := log.acked);
      sent := SendNextPackets(t);
    }

    method ResetSession(t: Transport) returns (sent: seq<seq<byte>>)
      requires Valid()
      modifies this
      ensures Valid()
      ensures var o := Reset(old(View()), t); View() == o.endpoint && sent == Datagrams(o.sent)
    {
      Close(AwaitingSelf);
      sent := if t.Refuses() then [] else [[CONTROL + RESET_REQUEST]];
    }

    /** Leaves the session for `next`: the client purges its buffer if the session was open,
        and the retransmit timer is armed for the reset packet. */
    method Close(next: SessionState)
      requires Valid()
      modifies `out, `state, `outgoing
      ensures View() == CloseSession(old(View()), next)
    {
      out := out.(ackTimer := false, retransmitTimer := false);
      var wasReady := state == Ready;
      state := next;
      if wasReady {
        outgoing := [];
      }
      out := out.(retransmitTimer := true);
    }

    method HandleResetCompletePacket(bytes: seq<byte>, t: Transport) returns (status: Status, sent: seq<seq<byte>>)
      requires Valid()
      modifies this, payloadSizes
      ensures Valid()
      ensures var o := HandleResetComplete(old(View()), bytes, t);
              View() == o.endpoint && status == o.status && sent == Datagrams(o.sent)
    {
      if |bytes| < RESET_COMPLETE_SIZE {
        return InvalidParameters, [];
      }
      sent := if state == AwaitingSelf && !t.Refuses() then [ResetCompletePacket(desired)] else [];
      BecomeReady(Windows(Min(desired.tx, bytes[3]), Min(desired.rx, bytes[4])));
      status := Success;
    }

    /** A new session: all fields zeroed, both timers new and unarmed. */
    method BecomeReady(windows: Windows)
      requires Valid()
      modifies this, payloadSizes
      ensures Valid() && View() == FreshSession(old(desired), windows, old(outgoing))
    {
      forall i | 0 <= i < payloadSizes.Length { payloadSizes[i] := 0; }
      out, inb := NO_OUTBOUND, NO_INBOUND;
      actual, state := windows, Ready;
      log := EMPTY_LOG.(submitted := outgoing);
      assert payloadSizes[..] == seq(SN_COUNT, _ => 0);
    }

    method HandleControlPacket(bytes: seq<byte>, t: Transport) returns (status: Status, sent: seq<seq<byte>>)
      requires Valid() && |bytes| > 0
      modifies this, payloadSizes
      ensures Valid()
      ensures var o := GattlinkEndpoint.HandleControlPacket(old(View()), bytes, t);
              View() == o.endpoint && status == o.status && sent == Datagrams(o.sent)
    {
      hide HandleResetComplete;
      var kind := bytes[0] % CONTROL;
      if kind == RESET_COMPLETE {
        if state == AwaitingSelf || state == AwaitingRemote {
          status, sent := HandleResetCompletePacket(bytes, t);
          return;
        }
        return Success, [];
      } else if kind == RESET_REQUEST {
        Close(AwaitingRemote);
        sent := if t.Refuses() then [] else [ResetCompletePacket(desired)];
        status := if t.Refuses() then SendFailed else Success;
      } else {
        return InvalidParameters, [];
      }
    }

    method HandleIncomingRawData(bytes: seq<byte>, client: Client, t: Transport)
      returns (status: Status, sent: seq<seq<byte>>)
      requires Valid() && actual.tx < SN_COUNT
      modifies this, payloadSizes
      ensures Valid()
      ensures var o := HandleRawData(old(View()), bytes, client, t);
              View() == o.endpoint && status == o.status && sent == Datagrams(o.sent)
    {
      hide GattlinkEndpoint.HandleDataPacket, GattlinkEndpoint.HandleControlPacket, Datagrams;
      DatagramsNone();
      if |bytes| == 0 || state == Initialized {
        return Success, [];
      }
      if (bytes[0] / CONTROL) % 2 == 1 {
        status, sent := HandleControlPacket(bytes, t);
        return;
      }
      if state != Ready {
        return InvalidState, [];
      }
      status, sent := HandleDataPacket(bytes, client, t);
    }
  }

  /** The fields a taken packet changes, starting from the state that prepared it. */
  lemma SendFields(e: Endpoint, t: Transport)
    ensures var size := NextPayloadSize(e, t);
            AfterSending(e, t) == Armed(e, t).(
              outstanding := if AckDue(e) then 0 else e.outstanding,
              ackNow := e.ackNow && !AckDue(e),
              ackTimer := e.ackTimer && !AckDue(e),
              payloadSizes := if size > 0 then e.payloadSizes[e.nextDataSn := size] else e.payloadSizes,
              nextDataSn := if size > 0 then NextSn(e.nextDataSn) else e.nextDataSn,
              log := AfterSending(e, t).log)
  {
    hide NextFrame, NextPayloadSize;
  }

  lemma DatagramsNone()
    ensures Datagrams([]) == []
  {
  }

  lemma NotArmed(e: Endpoint, t: Transport)
    requires !SomethingToSend(e, t)
    ensures Armed(e, t) == e
  {
  }

  lemma RefusalIsArmed(e: Endpoint, t: Transport)
    ensures AfterRefusal(e, t) == Armed(e, t).(log := e.log.(refused := true))
    ensures Armed(e, t).log == e.log
  {
  }

  lemma HeaderTellsAck(e: Endpoint, t: Transport)
    requires SomethingToSend(e, t)
    ensures var bytes := NextFrame(e, t).bytes;
            |bytes| > 0 && ((bytes[0] / WITH_ACK) % 2 == 1 <==> AckDue(e))
  {
    if AckDue(e) {
      assert NextFrame(e, t).bytes[0] == WITH_ACK + e.psnToAckWith;
    } else {
      assert NextFrame(e, t).bytes[0] == e.nextDataSn;
    }
  }
}

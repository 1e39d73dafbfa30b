/** How long packets are. Every packet of an end that has met no refusal fits what its transport
    takes; only a retransmission that a refused send has put off can carry an ack as well, and is
    then too long if its fragment was of the largest size. */
module GattlinkSizes {
  import opened Common
  import opened GattlinkEndpoint
  import opened GattlinkSender
  import opened GattlinkWakeUp
  import Theorems = GattlinkTheorems
  import opened Net = GattlinkNetwork

  // -------------------------------------------------------------- one packet

  lemma FrameSize(e: Endpoint, t: Transport)
    requires SenderOk(e)
    ensures |NextFrame(e, t).bytes| ==
            (if AckDue(e) then 1 else 0) + (if NextPayloadSize(e, t) > 0 then 1 + NextPayloadSize(e, t) else 0)
  {
    if NextPayloadSize(e, t) > 0 {
      PayloadLength(e, t);
    }
    hide AwaitingUpTo, SizesMatch, FragmentSizes, Flat, NextPayloadSize;
  }

  lemma PayloadLength(e: Endpoint, t: Transport)
    requires SenderOk(e) && NextPayloadSize(e, t) > 0
    ensures |Payload(e, t)| == NextPayloadSize(e, t)
    ensures e.log.next < |e.log.fragments| ==> NextPayloadSize(e, t) == e.payloadSizes[e.nextDataSn]
    ensures e.log.next < |e.log.fragments| ==> NextPayloadSize(e, t) == |e.log.fragments[e.log.next]|
  {
    if e.log.next < |e.log.fragments| {
      SendingIsInWindow(e, t);
      ResendSameBytes(e, t);
    } else {
      FreshBytes(e, t);
    }
    hide AwaitingUpTo, Flat;
  }

  /** A retransmission fits if and only if its recorded size leaves room for the sequence number
      and, with an ack due, for the ack. */
  lemma ResentFits(e: Endpoint, t: Transport)
    requires SenderOk(e) && NextPayloadSize(e, t) > 0 && e.log.next < |e.log.fragments|
    ensures |NextFrame(e, t).bytes| <= MAX_PACKET_SIZE
            <==> e.payloadSizes[e.nextDataSn] + (if AckDue(e) then 2 else 1) <= MAX_PACKET_SIZE
    ensures |NextFrame(e, t).bytes| > MAX_PACKET_SIZE
            <==> AckDue(e) && |e.log.fragments[e.log.next]| == MAX_PACKET_SIZE - 1
  {
    FrameSize(e, t);
    PayloadLength(e, t);
    hide NextFrame, NextPayloadSize, Flat, SizesMatch;
  }

  /** A packet that is too long is refused by every receiver, and only such a packet is refused
      for its length. */
  lemma TooLongRefused(r: Endpoint, bytes: seq<byte>, client: Client, t: Transport)
    requires r.actual.tx < SN_COUNT && |bytes| > 0
    ensures |bytes| > MAX_PACKET_SIZE ==> HandleDataPacket(r, bytes, client, t) == Outcome(r, [], InvalidParameters)
    ensures |bytes| <= MAX_PACKET_SIZE ==> HandleDataPacket(r, bytes, client, t).status != InvalidParameters
  {
    hide SendNext, HandleAckPart, Judge;
  }

  // ---------------------------------------------------------------- the loop

  ghost predicate FragmentsWithin(log: Log, bound: nat) {
    forall i :: 0 <= i < |log.fragments| ==> |log.fragments[i]| < bound
  }

  predicate Within(t: Transport, bound: nat) {
    Min(t.maxPacketSize, MAX_PACKET_SIZE) <= bound
  }

  ghost predicate FramesWithin(frames: seq<Frame>, bound: nat) {
    forall i :: 0 <= i < |frames| ==> |frames[i].bytes| <= bound
  }

  /** No retransmission is waiting while an ack is due. */
  ghost predicate NoAckedResend(e: Endpoint) {
    e.log.refused || !AckDue(e) || e.log.next == |e.log.fragments|
  }

  /** What a handler leaves behind: short fragments and, unless a send was refused, no ack due and
      only packets that fit. */
  ghost predicate Fitting(o: Outcome, bound: nat) {
    && FragmentsWithin(o.endpoint.log, bound)
    && (!o.endpoint.log.refused ==> !AckDue(o.endpoint) && FramesWithin(o.sent, bound))
  }

  lemma FrameFits(e: Endpoint, t: Transport, bound: nat)
    requires SenderOk(e) && FragmentsWithin(e.log, bound) && Within(t, bound) && bound >= 1
    requires !e.log.refused && NoAckedResend(e)
    ensures |NextFrame(e, t).bytes| <= bound
  {
    FrameSize(e, t);
    if NextPayloadSize(e, t) > 0 {
      PayloadLength(e, t);
      if e.log.next == |e.log.fragments| {
        FreshBytes(e, t);
      }
    }
    hide AwaitingUpTo, SizesMatch, FragmentSizes, Flat, NextPayloadSize, NextFrame;
  }

  lemma SendFits(e: Endpoint, t: Transport, bound: nat)
    requires SenderOk(e) && FragmentsWithin(e.log, bound) && Within(t, bound) && SomethingToSend(e, t)
    ensures SenderOk(AfterSending(e, t)) && FragmentsWithin(AfterSending(e, t).log, bound)
            && !AckDue(AfterSending(e, t))
    ensures AfterSending(e, t).log.refused == e.log.refused
  {
    AfterSendingOk(e, t);
    if NextPayloadSize(e, t) > 0 {
      if e.log.next < |e.log.fragments| {
        AfterSendingResent(e, t);
      } else {
        AfterSendingFresh(e, t);
        FreshBytes(e, t);
        FreshWithin(e, t, bound);
      }
    }
    hide AwaitingUpTo, SizesMatch, FragmentSizes, Flat, NextPayloadSize, SenderOk;
  }

  lemma FreshWithin(e: Endpoint, t: Transport, bound: nat)
    requires Within(t, bound) && e.payloadSizes[e.nextDataSn] == 0 && NextPayloadSize(e, t) > 0
    ensures NextPayloadSize(e, t) < bound
  {
    hide AwaitingUpTo;
  }

  lemma {:induction false} LoopFits(e: Endpoint, t: Transport, bound: nat)
    requires SenderOk(e) && FragmentsWithin(e.log, bound) && Within(t, bound) && bound >= 1 && NoAckedResend(e)
    ensures Fitting(SendNext(e, t), bound)
    decreases WindowLeft(e), AckDue(e)
  {
    hide SendNext, AfterSending, AfterRefusal, NextFrame, FragmentsWithin, WindowLeft, NextPayloadSize;
    hide SizesMatch, FragmentSizes, Flat;
    SendNextTurn(e, t);
    if !SomethingToSend(e, t) {
    } else if t.Refuses() {
      RefusedWithin(e, t, bound);
    } else {
      SendFits(e, t, bound);
      SendProgress(e, t);
      var e' := AfterSending(e, t);
      LoopFits(e', t.AfterSend(), bound);
      RefusedStays(e', t.AfterSend());
      if !SendNext(e, t).endpoint.log.refused {
        FrameFits(e, t, bound);
      }
    }
  }

  lemma RefusedWithin(e: Endpoint, t: Transport, bound: nat)
    requires FragmentsWithin(e.log, bound)
    ensures FragmentsWithin(AfterRefusal(e, t).log, bound) && AfterRefusal(e, t).log.refused
  {
  }

  lemma {:induction false} RefusedStays(e: Endpoint, t: Transport)
    requires e.actual.tx < SN_COUNT
    ensures e.log.refused ==> SendNext(e, t).endpoint.log.refused
    decreases WindowLeft(e), AckDue(e)
  {
    SendNextTurn(e, t);
    hide SendNext, NextFrame;
    if SomethingToSend(e, t) && !t.Refuses() {
      SendProgress(e, t);
      RefusedStays(AfterSending(e, t), t.AfterSend());
    }
  }

  // ------------------------------------------------------------ the handlers

  /** Between two events: short fragments and, unless a send was refused, no ack due. */
  ghost predicate Calm(e: Endpoint, bound: nat) {
    && EndpointOk(e) && e.state == Ready
    && FragmentsWithin(e.log, bound) && (!e.log.refused ==> !AckDue(e))
  }

  lemma CalmResend(e: Endpoint, bound: nat)
    requires Calm(e, bound)
    ensures SenderOk(e) && NoAckedResend(e) && (!e.log.refused ==> e.log.next == |e.log.fragments|)
  {
  }

  lemma FittingThen(o: Outcome, o': Outcome, bound: nat)
    requires Fitting(o, bound) && Fitting(o', bound) && (o.endpoint.log.refused ==> o'.endpoint.log.refused)
    ensures Fitting(o'.(sent := o.sent + o'.sent), bound)
  {
  }

  predicate AllWithin(refills: seq<Refill>, bound: nat) {
    forall i :: 0 <= i < |refills| ==> Within(refills[i].transport, bound)
  }

  predicate ClientWithin(client: Client, bound: nat) {
    AllWithin(client.refills, bound) && AllWithin(client.answers, bound)
  }

  lemma GivenSame(e: Endpoint, data: seq<byte>)
    ensures AckDue(Given(e, data)) == AckDue(e) && Given(e, data).log.fragments == e.log.fragments
    ensures Given(e, data).log.next == e.log.next && Given(e, data).log.refused == e.log.refused
  {
  }

  lemma {:induction false} GivenFits(e: Endpoint, data: seq<byte>, t: Transport, bound: nat)
    requires Calm(e, bound) && Within(t, bound) && bound >= 1
    ensures var o := SendNext(Given(e, data), t);
            Fitting(o, bound) && Calm(o.endpoint, bound) && (e.log.refused ==> o.endpoint.log.refused)
  {
    hide SendNext, SenderOk, TimersOk, Settled, ReceiverOk, CanSettle, Given, AckDue;
    SettledIsOpen(e);
    GivenOpen(e, data);
    GivenSent(e, data, t);
    CalmResend(e, bound);
    GivenSame(e, data);
    LoopFits(Given(e, data), t, bound);
    RefusedStays(Given(e, data), t);
  }

  lemma {:induction false} RefillsFit(e: Endpoint, refills: seq<Refill>, bound: nat)
    requires Calm(e, bound) && AllWithin(refills, bound) && bound >= 1
    ensures var o := Refilled(e, refills);
            Fitting(o, bound) && Calm(o.endpoint, bound) && (e.log.refused ==> o.endpoint.log.refused)
    decreases |refills|
  {
    hide SendNext, SenderOk, TimersOk, Settled, ReceiverOk, AckDue, FragmentsWithin;
    if refills != [] {
      var first := SendNext(Given(e, refills[0].data), refills[0].transport);
      GivenFits(e, refills[0].data, refills[0].transport, bound);
      RefillsFit(first.endpoint, refills[1..], bound);
      FittingThen(first, Refilled(first.endpoint, refills[1..]), bound);
    }
  }

  lemma AckCalm(e: Endpoint, psn: Sn, bound: nat)
    requires Calm(e, bound)
    ensures Calm(HandleAck(e, psn), bound) && HandleAck(e, psn).log.refused == e.log.refused
  {
    AckOpen(e, psn);
    hide AwaitingUpTo, ClearUpTo, SenderOk, TimersOk, Settled, ReceiverOk;
  }

  lemma AckPartFits(e: Endpoint, bytes: seq<byte>, client: Client, bound: nat)
    requires Calm(e, bound) && AllWithin(client.refills, bound) && bound >= 1 && |bytes| > 0
    ensures var o := HandleAckPart(e, bytes, client);
            Fitting(o, bound) && Calm(o.endpoint, bound) && (e.log.refused ==> o.endpoint.log.refused)
  {
    hide Refilled, HandleAck, SenderOk, TimersOk, Settled, ReceiverOk, AckDue, FragmentsWithin;
    var psn: Sn := bytes[0] % SN_COUNT;
    AckCalm(e, psn, bound);
    RefillsFit(HandleAck(e, psn), client.refills, bound);
  }

  lemma {:induction false} OwingFits(e: Endpoint, e1: Endpoint, t: Transport, bound: nat)
    requires Calm(e, bound) && SenderOk(e1) && Within(t, bound) && bound >= 1
    requires e1.log.fragments == e.log.fragments && e1.log.next == e.log.next && e1.log.refused == e.log.refused
    ensures Fitting(SendNext(e1, t), bound) && (e.log.refused ==> SendNext(e1, t).endpoint.log.refused)
  {
    hide SendNext, SizesMatch, FragmentSizes, Flat, TimersOk, Settled, ReceiverOk, AckDue;
    CalmResend(e, bound);
    LoopFits(e1, t, bound);
    RefusedStays(e1, t);
  }

  lemma OweSame(e: Endpoint)
    ensures OweAck(e).log.fragments == e.log.fragments && OweAck(e).log.next == e.log.next
    ensures OweAck(e).log.refused == e.log.refused
  {
  }

  lemma NotedSame(e: Endpoint, psn: Sn, take: nat)
    ensures var e' := Noted(e, psn, take);
            e'.log.fragments == e.log.fragments && e'.log.next == e.log.next && e'.log.refused == e.log.refused
  {
  }

  lemma BufferedCalm(e: Endpoint, psn: Sn, payload: seq<byte>, bound: nat)
    requires Calm(e, bound) && !e.bufferFull && psn == e.nextExpectedDataPsn
    ensures Calm(Buffered(e, psn, payload), bound) && Buffered(e, psn, payload).log.refused == e.log.refused
  {
    BufferedOk(e, psn, payload);
    hide EndpointOk;
  }

  lemma {:induction false} AcceptFits(e: Endpoint, psn: Sn, payload: seq<byte>, client: Client, t: Transport,
                                      bound: nat)
    requires Calm(e, bound) && AllWithin(client.answers, bound) && Within(t, bound) && bound >= 1
    requires !e.bufferFull && psn == e.nextExpectedDataPsn
    ensures var first := Accept(e, psn, payload, client);
            var rest := SendNext(OweAck(first.endpoint), t);
            Fitting(rest.(sent := first.sent + rest.sent), bound) && (e.log.refused ==> rest.endpoint.log.refused)
  {
    hide SendNext, Refilled, Buffered, Noted, OweAck, SenderOk, TimersOk, Settled, ReceiverOk, CanSettle, AckDue;
    hide FragmentsWithin;
    BufferedCalm(e, psn, payload, bound);
    var e1 := Buffered(e, psn, payload);
    var first := Refilled(e1, client.answers);
    RefillsFit(e1, client.answers, bound);
    AcceptOpen(e, psn, payload, client);
    var e2 := Noted(first.endpoint, psn, client.take);
    OweAckOpen(e2);
    NotedSame(first.endpoint, psn, client.take);
    OweSame(e2);
    OwingFits(first.endpoint, OweAck(e2), t, bound);
    FittingThen(first, SendNext(OweAck(e2), t), bound);
  }

  lemma PayloadFits(e: Endpoint, data: seq<byte>, client: Client, t: Transport, bound: nat)
    requires Calm(e, bound) && AllWithin(client.answers, bound) && Within(t, bound) && bound >= 1 && |data| > 0
    ensures var o := HandlePayload(e, data, client, t);
            Fitting(o, bound) && (e.log.refused ==> o.endpoint.log.refused)
  {
    hide SendNext, SenderOk, TimersOk, Settled, ReceiverOk, CanSettle, AckDue, Accept, OweAck, FragmentsWithin;
    var psn: Sn := data[0] % SN_COUNT;
    SettledIsOpen(e);
    if !e.bufferFull {
      match Judge(e, psn)
      case Expected =>
        AcceptFits(e, psn, data[1..], client, t, bound);
      case Resent =>
        OweAckOpen(e);
        OweSame(e);
        OwingFits(e, OweAck(e), t, bound);
      case Unexpected =>
    }
  }

  lemma DataPacketFits(e: Endpoint, bytes: seq<byte>, client: Client, t: Transport, bound: nat)
    requires Calm(e, bound) && ClientWithin(client, bound) && Within(t, bound) && bound >= 1 && |bytes| > 0
    ensures var o := HandleDataPacket(e, bytes, client, t);
            Fitting(o, bound) && (e.log.refused ==> o.endpoint.log.refused)
  {
    hide SendNext, HandleAckPart, HandlePayload, SenderOk, TimersOk, Settled, ReceiverOk, AckDue, FragmentsWithin;
    if |bytes| <= MAX_PACKET_SIZE {
      var first, data := HandleAckPart(e, bytes, client), AfterAck(bytes);
      AckPartFits(e, bytes, client, bound);
      CalmResend(first.endpoint, bound);
      if data == [] {
        OwingFits(first.endpoint, first.endpoint, t, bound);
        FittingThen(first, SendNext(first.endpoint, t), bound);
      } else {
        PayloadFits(first.endpoint, data, client, t, bound);
        FittingThen(first, HandlePayload(first.endpoint, data, client, t), bound);
      }
    }
  }

  /** A client call or a timer. After a timeout no resent packet carries an ack. */
  lemma LocalFits(e: Endpoint, event: Event, t: Transport, bound: nat)
    requires Calm(e, bound) && InSession(event) && Within(t, bound) && bound >= 1
    ensures var o := React(e, event, t);
            Fitting(o, bound) && (e.log.refused ==> o.endpoint.log.refused)
  {
    hide SendNext, SenderOk, TimersOk, Settled, ReceiverOk, SameLink, RollBack, TakeIncoming, Given;
    LocalKeeps(e, []);
    CalmResend(e, bound);
    match event
    case ClientSubmit(data) => GivenFits(e, data, t, bound);
    case ClientNotify => OwingFits(e, e, t, bound);
    case ClientTake(count) => TakeSame(e, count);
    case AckTimerFires =>
      if e.ackTimer {
        OwingFits(e, e.(ackTimer := false, ackNow := true), t, bound);
      }
    case RetransmitTimerFires =>
      if e.retransmitTimer {
        RollBackCalm(e, bound);
        LoopFits(RollBack(e.(retransmitTimer := false)), t, bound);
        RefusedStays(RollBack(e.(retransmitTimer := false)), t);
      }
  }

  lemma TakeSame(e: Endpoint, count: nat)
    ensures var e' := TakeIncoming(e, count);
            AckDue(e') == AckDue(e) && e'.log.fragments == e.log.fragments && e'.log.refused == e.log.refused
  {
  }

  lemma RollBackCalm(e: Endpoint, bound: nat)
    requires Calm(e, bound)
    ensures var e' := RollBack(e.(retransmitTimer := false));
            NoAckedResend(e') && FragmentsWithin(e'.log, bound) && e'.log.refused == e.log.refused
                && e'.actual == e.actual
            && e'.state == e.state
  {
    hide SenderOk, TimersOk, Settled, ReceiverOk;
  }

  // ---------------------------------------------------------------- whole runs

  /** The transports of a move at the left end. */
  predicate MoveWithin(m: Move, bound: nat) {
    m.atLeft ==> Within(m.transport, bound) && (m.action.Receive? ==> ClientWithin(m.action.client, bound))
  }

  ghost predicate MovesWithin(moves: seq<Move>, bound: nat) {
    forall i :: 0 <= i < |moves| ==> MoveWithin(moves[i], bound)
  }

  ghost predicate LeftFits(s: System, bound: nat) {
    && SystemOk(s) && Calm(s.left, bound)
    && (!s.left.log.refused ==> FramesWithin(s.byLeft, bound))
  }

  lemma EmitFits(s: System, o: Outcome, bound: nat)
    requires Fitting(o, bound) && (s.left.log.refused ==> o.endpoint.log.refused)
    requires !s.left.log.refused ==> FramesWithin(s.byLeft, bound)
    ensures !o.endpoint.log.refused ==> FramesWithin(s.byLeft + o.sent, bound)
  {
  }

  lemma LeftStepFits(s: System, action: Action, t: Transport, bound: nat)
    requires LeftFits(s, bound) && bound >= 1 && MoveWithin(Move(true, action, t), bound)
    ensures LeftFits(LeftStep(s, action, t), bound)
  {
    LeftStepOk(s, action, t);
    hide Linked, FramesOk, SenderOk, TimersOk, Settled, ReceiverOk, React, HandleRawData, AckDue;
    hide FragmentsWithin, FramesWithin;
    match action
    case Local(event) =>
      if InSession(event) {
        LocalFits(s.left, event, t, bound);
        EmitFits(s, React(s.left, event, t), bound);
      }
    case Receive(client) =>
      if s.toLeft != [] {
        ReceiveFits(s, client, t, bound);
        EmitFits(s, HandleRawData(s.left, s.toLeft[0].bytes, client, t), bound);
      }
    case Lose(_) =>
    case Stray(bytes, client) => StraySame(s, bytes, client, t);
  }

  lemma ReceiveFits(s: System, client: Client, t: Transport, bound: nat)
    requires LeftFits(s, bound) && bound >= 1 && s.toLeft != [] && Within(t, bound) && ClientWithin(client, bound)
    ensures var o := HandleRawData(s.left, s.toLeft[0].bytes, client, t);
            Fitting(o, bound) && (s.left.log.refused ==> o.endpoint.log.refused)
  {
    hide Linked, FramesOk, FrameOk, SenderOk, TimersOk, Settled, ReceiverOk, HandleDataPacket, AckDue;
    hide FragmentsWithin, FramesWithin;
    var f, rest := s.toLeft[0], s.toLeft[1..];
    assert s.toLeft == [f] + rest;
    LinkedSwap(s.left, s.right, s.toRight, s.toLeft);
    HeadOk(s.right, s.left, f, rest, s.toRight);
    FrameParse(f, s.right.log);
    DataPacketFits(s.left, f.bytes, client, t, bound);
  }

  lemma RightStepKeepsLeft(s: System, action: Action, t: Transport)
    requires Swap(s).left.actual.tx < SN_COUNT
    ensures var next := Swap(LeftStep(Swap(s), action, t));
            next.left == s.left && next.byLeft == s.byLeft
  {
    hide React, HandleRawData;
  }

  lemma {:induction false} RunFits(s: System, moves: seq<Move>, bound: nat)
    requires LeftFits(s, bound) && bound >= 1 && MovesWithin(moves, bound)
    ensures LeftFits(Net.Run(s, moves), bound)
    decreases |moves|
  {
    hide LeftStep, Linked, FramesOk, SenderOk, TimersOk, Settled, ReceiverOk, FragmentsWithin, FramesWithin, AckDue;
    if moves != [] {
      var m := moves[0];
      StepOk(s, m);
      if m.atLeft {
        LeftStepFits(s, m.action, m.transport, bound);
      } else {
        RightStepKeepsLeft(s, m.action, m.transport);
      }
      RunFits(Step(s, m), moves[1..], bound);
    }
  }

  /** In every run in which an end has met no refusal, every packet it has ever sent fits what its
      transport takes, and never exceeds the largest packet size: with `bound` the largest size
      any call has reported, or the largest packet size for transports that report anything. */
  lemma PacketsFit(left: Windows, right: Windows, moves: seq<Move>, bound: nat)
    requires Bounded(left, right) && bound >= 1 && MovesWithin(moves, bound)
    ensures var s := Theorems.Reached(left, right, moves);
            !s.left.log.refused ==> FramesWithin(s.byLeft, bound)
  {
    hide Linked, FramesOk, SenderOk, TimersOk, Settled, ReceiverOk, FramesWithin;
    ConnectedOk(left, right);
    NothingSent(left, right, bound);
    RunFits(Connected(left, right), moves, bound);
  }

  lemma NothingSent(left: Windows, right: Windows, bound: nat)
    ensures var s := Connected(left, right);
            FragmentsWithin(s.left.log, bound) && !AckDue(s.left) && FramesWithin(s.byLeft, bound)
  {
  }

  /** Whatever sizes the transports report, no packet of an end without a refused send exceeds the
      largest packet size. */
  lemma NoneTooLong(left: Windows, right: Windows, moves: seq<Move>)
    requires Bounded(left, right)
    ensures var s := Theorems.Reached(left, right, moves);
            !s.left.log.refused ==> FramesWithin(s.byLeft, MAX_PACKET_SIZE)
  {
    PacketsFit(left, right, moves, MAX_PACKET_SIZE);
  }
}

/** A window of one packet: a single lost ack ends the session's progress, because a receiver
    acknowledges a repeated packet again only if its window is at least two. */
module GattlinkDeadlock {
  import opened Common
  import opened GattlinkEndpoint
  import opened GattlinkSender
  import opened GattlinkWakeUp
  import opened GattlinkNetwork

  /** The last packet accepted, when it arrives again, is recognised exactly with a window of at
      least two; otherwise it counts as out of sequence and is not acknowledged again. */
  lemma RepeatRecognised(r: Endpoint)
    requires ReceiverOk(r) && r.log.received > 0
    ensures Judge(r, (r.log.received - 1) % SN_COUNT) == Resent <==> r.actual.rx >= 2
  {
    ModDistance(r.log.received - 1, r.log.received);
  }

  /** No ack is due, nor will one become due by itself. */
  ghost predicate Quiet(r: Endpoint) {
    !r.ackNow && r.outstanding == 0 && !r.ackTimer
  }

  /** No packet that can be received acknowledges anything new. */
  ghost predicate NoNewAcks(frames: seq<Frame>, acked: nat) {
    forall i :: 0 <= i < |frames| && frames[i].ackCount.Some? && |frames[i].bytes| <= MAX_PACKET_SIZE ==>
      frames[i].ackCount.value <= acked
  }

  /** With a window of one, the left end waits for an ack that is not on its way. */
  ghost predicate Waiting(s: System) {
    && SystemOk(s)
    && s.left.actual.tx == 1
    && s.left.log.acked < s.right.log.received
    && NoNewAcks(s.toLeft, s.left.log.acked)
  }

  /** It waits for an ack that the right end has sent and will not send again. */
  ghost predicate Deadlocked(s: System) {
    Waiting(s) && Quiet(s.right)
  }

  // ------------------------------------------------------------- the loop

  /** A quiet end sends no acks and stays quiet. */
  lemma {:induction false} QuietLoop(e: Endpoint, t: Transport)
    requires e.actual.tx < SN_COUNT && Quiet(e)
    ensures Quiet(SendNext(e, t).endpoint) && NoNewAcks(SendNext(e, t).sent, 0)
    decreases WindowLeft(e), AckDue(e)
  {
    SendNextTurn(e, t);
    hide SendNext;
    if SomethingToSend(e, t) && !t.Refuses() {
      SendProgress(e, t);
      QuietLoop(AfterSending(e, t), t.AfterSend());
    }
  }

  // ---------------------------------------------------------- the waiting end

  /** An ack that is not newer than the last one handled changes nothing. */
  lemma OldAckIgnored(e: Endpoint, count: nat)
    requires SenderOk(e) && 1 <= count == e.log.acked
    ensures e.payloadSizes[(count - 1) % SN_COUNT] == 0
  {
    hide Flat;
    var psn: Sn := (count - 1) % SN_COUNT;
    if e.payloadSizes[psn] != 0 {
      var j := SlotOwner(e.payloadSizes, e.log.acked, e.log.fragments, psn);
      CloseMod(count - 1, j);
      assert false;
    }
  }

  /** A packet whose ack names no slot in use acknowledges nothing. */
  lemma PacketKeepsAcked(e: Endpoint, bytes: seq<byte>, client: Client, t: Transport)
    requires e.actual.tx < SN_COUNT && |bytes| > 0
    requires |bytes| <= MAX_PACKET_SIZE && HasAck(bytes) ==> e.payloadSizes[bytes[0] % SN_COUNT] == 0
    ensures HandleDataPacket(e, bytes, client, t).endpoint.log.acked == e.log.acked
  {
    hide SendNext, HandlePayload, HandleAck, Refilled;
    LoopKeepsCounters(e, t);
    var data := AfterAck(bytes);
    if data != [] {
      PayloadCounters(e, data, client, t);
    }
  }

  /** Nothing that arrives at the waiting end acknowledges anything. */
  lemma WaitingReceives(s: System, client: Client, t: Transport)
    requires Waiting(s) && s.toLeft != []
    ensures HandleRawData(s.left, s.toLeft[0].bytes, client, t).endpoint.log.acked == s.left.log.acked
  {
    hide SendNext, HandleDataPacket, Flat, SizesMatch, FragmentSizes, FrameOk, Linked;
    var f, rest := s.toLeft[0], s.toLeft[1..];
    assert s.toLeft == [f] + rest;
    LinkedSwap(s.left, s.right, s.toRight, s.toLeft);
    HeadOk(s.right, s.left, f, rest, s.toRight);
    FrameParse(f, s.right.log);
    if f.ackCount.Some? && |f.bytes| <= MAX_PACKET_SIZE {
      HeadAckOld(s);
      OldAckIgnored(s.left, f.ackCount.value);
    }
    PacketKeepsAcked(s.left, f.bytes, client, t);
  }

  lemma HeadAckOld(s: System)
    requires Waiting(s) && s.toLeft != []
    requires s.toLeft[0].ackCount.Some? && |s.toLeft[0].bytes| <= MAX_PACKET_SIZE
    ensures 1 <= s.toLeft[0].ackCount.value == s.left.log.acked
  {
    assert FrameOk(s.toLeft[0], s.right.log);
  }

  // ------------------------------------------------------------ the quiet end

  /** The handshake half of an outcome: still quiet, nothing new accepted, no acks sent. */
  ghost predicate StaysQuiet(r: Endpoint, o: Outcome) {
    Quiet(o.endpoint) && o.endpoint.log.received == r.log.received && NoNewAcks(o.sent, 0)
  }

  lemma {:induction false} QuietSend(e: Endpoint, r: Endpoint, t: Transport)
    requires e.actual.tx < SN_COUNT && Quiet(e) && e.log.received == r.log.received
    ensures StaysQuiet(r, SendNext(e, t))
  {
    hide SendNext;
    QuietLoop(e, t);
    LoopKeepsCounters(e, t);
  }

  lemma QuietLocal(r: Endpoint, event: Event, t: Transport)
    requires EndpointOk(r) && r.state == Ready && Quiet(r) && InSession(event)
    ensures StaysQuiet(r, React(r, event, t))
  {
    hide SendNext, SenderOk;
    match event
    case ClientSubmit(data) =>
      QuietSend(Given(r, data), r, t);
    case ClientNotify => QuietSend(r, r, t);
    case ClientTake(count) =>
    case AckTimerFires =>
    case RetransmitTimerFires =>
      QuietSend(RollBack(r.(retransmitTimer := false)), r, t);
  }

  lemma AckKeepsQuiet(r: Endpoint, psn: Sn)
    requires Quiet(r)
    ensures var r' := HandleAck(r, psn);
            Quiet(r') && r'.log.received == r.log.received && r'.actual == r.actual
            && r'.nextExpectedDataPsn == r.nextExpectedDataPsn
  {
    hide AwaitingUpTo, ClearUpTo;
  }

  /** Every data packet in transit repeats the last one accepted, and is not recognised. */
  lemma RepeatRefused(s: System, r: Endpoint)
    requires Waiting(s) && s.toRight != [] && s.toRight[0].dataIndex.Some?
    requires r.log.received == s.right.log.received && r.actual == s.right.actual
    requires r.nextExpectedDataPsn == s.right.nextExpectedDataPsn
    ensures Judge(r, s.toRight[0].dataIndex.value % SN_COUNT) == Unexpected
  {
    hide Linked, SizesMatch, FragmentSizes, Flat, FrameOk;
    var f, rest := s.toRight[0], s.toRight[1..];
    assert s.toRight == [f] + rest;
    DataWithin(s.left, s.right, f, rest, s.toLeft);
    WindowsAgree(s.left, s.right, s.toRight, s.toLeft);
    JudgedByTrueNumber(r, f.dataIndex.value, 1);
  }

  /** A packet that is not recognised changes nothing. */
  lemma RefusedPayload(r: Endpoint, data: seq<byte>, client: Client, t: Transport)
    requires r.actual.tx < SN_COUNT && |data| > 0 && Judge(r, data[0] % SN_COUNT) == Unexpected
    ensures HandlePayload(r, data, client, t).endpoint == r && HandlePayload(r, data, client, t).sent == []
  {
    hide SendNext, Judge, Accept, OweAck;
  }

  lemma QuietTrans(a: Endpoint, b: Endpoint, first: seq<Frame>, o: Outcome)
    requires b.log.received == a.log.received && NoNewAcks(first, 0) && StaysQuiet(b, o)
    ensures StaysQuiet(a, o.(sent := first + o.sent))
  {
  }

  lemma {:induction false} QuietRefills(r: Endpoint, refills: seq<Refill>)
    requires r.actual.tx < SN_COUNT && Quiet(r)
    ensures StaysQuiet(r, Refilled(r, refills))
            && Refilled(r, refills).endpoint.nextExpectedDataPsn == r.nextExpectedDataPsn
    decreases |refills|
  {
    hide SendNext;
    if refills != [] {
      var first := SendNext(Given(r, refills[0].data), refills[0].transport);
      QuietSend(Given(r, refills[0].data), r, refills[0].transport);
      LoopKeepsCounters(Given(r, refills[0].data), refills[0].transport);
      QuietRefills(first.endpoint, refills[1..]);
      QuietTrans(r, first.endpoint, first.sent, Refilled(first.endpoint, refills[1..]));
    }
  }

  /** The ack half of a packet leaves a quiet end quiet, and expecting what it did. */
  lemma QuietAckPart(r: Endpoint, bytes: seq<byte>, client: Client)
    requires r.actual.tx < SN_COUNT && |bytes| > 0 && Quiet(r)
    ensures var o := HandleAckPart(r, bytes, client);
            StaysQuiet(r, o) && o.endpoint.nextExpectedDataPsn == r.nextExpectedDataPsn
  {
    hide Refilled, HandleAck;
    AckKeepsQuiet(r, bytes[0] % SN_COUNT);
    QuietRefills(HandleAck(r, bytes[0] % SN_COUNT), client.refills);
  }

  lemma QuietPacket(r: Endpoint, bytes: seq<byte>, client: Client, t: Transport)
    requires r.actual.tx < SN_COUNT && |bytes| > 0 && Quiet(r)
    requires var data, r1 := AfterAck(bytes), HandleAckPart(r, bytes, client).endpoint;
             data != [] ==> Judge(r1, data[0] % SN_COUNT) == Unexpected
    ensures StaysQuiet(r, HandleDataPacket(r, bytes, client, t))
  {
    hide SendNext, Judge, HandleAckPart, HandlePayload;
    QuietAckPart(r, bytes, client);
    var first, data := HandleAckPart(r, bytes, client), AfterAck(bytes);
    if |bytes| <= MAX_PACKET_SIZE {
      if data != [] {
        RefusedPayload(first.endpoint, data, client, t);
        assert first.sent + [] == first.sent;
      } else {
        QuietSend(first.endpoint, first.endpoint, t);
        QuietTrans(r, first.endpoint, first.sent, SendNext(first.endpoint, t));
      }
    }
  }

  /** The number at the head of a packet's data. */
  lemma DataNumber(f: Frame, log: Log)
    requires FrameOk(f, log)
    ensures |f.bytes| > 0 && f.bytes[0] < CONTROL
    ensures f.dataIndex.None? ==> AfterAck(f.bytes) == []
    ensures f.dataIndex.Some? ==>
              AfterAck(f.bytes) != [] && AfterAck(f.bytes)[0] % SN_COUNT == f.dataIndex.value % SN_COUNT
  {
    hide FrameOk, HasAck;
    FrameParse(f, log);
  }

  lemma QuietReceives(s: System, client: Client, t: Transport)
    requires Deadlocked(s) && s.toRight != []
    ensures StaysQuiet(s.right, HandleRawData(s.right, s.toRight[0].bytes, client, t))
  {
    hide HandleRawData, HandleAckPart, HandleDataPacket, SenderOk, TimersOk, Settled, ReceiverOk, FrameOk, FramesOk;
    hide Linked, Judge, NoNewAcks, HasAck;
    var f, rest := s.toRight[0], s.toRight[1..];
    assert s.toRight == [f] + rest;
    HeadOk(s.left, s.right, f, rest, s.toLeft);
    DataNumber(f, s.left.log);
    QuietAckPart(s.right, f.bytes, client);
    if f.dataIndex.Some? {
      RepeatRefused(s, HandleAckPart(s.right, f.bytes, client).endpoint);
    }
    DataIsPacket(s.right, f.bytes, client, t);
    QuietPacket(s.right, f.bytes, client, t);
  }

  // -------------------------------------------------------------------- steps

  lemma NoNewAcksRemove(frames: seq<Frame>, i: nat, acked: nat)
    requires i < |frames| && NoNewAcks(frames, acked)
    ensures NoNewAcks(Remove(frames, i), acked)
  {
  }

  lemma WaitingStep(s: System, action: Action, t: Transport)
    requires Waiting(s)
    ensures var s' := LeftStep(s, action, t);
            Waiting(s') && s'.left.log.acked == s.left.log.acked && s'.right == s.right
  {
    LeftStepOk(s, action, t);
    WindowsStay(s, action, t);
    hide SystemOk, SendNext, HandleRawData, TakeIncoming;
    match action
    case Local(event) =>
      if InSession(event) {
        LocalKeepsCounters(s.left, event, t);
      }
    case Receive(client) =>
      if s.toLeft != [] {
        WaitingReceives(s, client, t);
        NoNewAcksRemove(s.toLeft, 0, s.left.log.acked);
      }
    case Lose(index) =>
      if index < |s.toLeft| {
        NoNewAcksRemove(s.toLeft, index, s.left.log.acked);
      }
    case Stray(bytes, client) => StraySame(s, bytes, client, t);
  }

  lemma LocalKeepsWindows(e: Endpoint, event: Event, t: Transport)
    requires e.actual.tx < SN_COUNT && e.state == Ready && InSession(event)
    ensures React(e, event, t).endpoint.actual == e.actual
  {
    hide SendNext;
  }

  /** Without a handshake the negotiated windows stay as they are. */
  lemma WindowsStay(s: System, action: Action, t: Transport)
    requires SystemOk(s)
    ensures LeftStep(s, action, t).left.actual == s.left.actual && LeftStep(s, action, t).right == s.right
  {
    hide SendNext, SenderOk, Linked, FrameOk, React, HandleDataPacket;
    match action
    case Local(event) =>
      if InSession(event) {
        LocalKeepsWindows(s.left, event, t);
      }
    case Receive(client) =>
      if s.toLeft != [] {
        var f, rest := s.toLeft[0], s.toLeft[1..];
        assert s.toLeft == [f] + rest;
        LinkedSwap(s.left, s.right, s.toRight, s.toLeft);
        HeadOk(s.right, s.left, f, rest, s.toRight);
        FrameParse(f, s.right.log);
      }
    case Lose(index) =>
    case Stray(bytes, client) => StraySame(s, bytes, client, t);
  }

  lemma QuietStep(s: System, action: Action, t: Transport)
    requires Deadlocked(s)
    ensures var next := Swap(LeftStep(Swap(s), action, t));
            Deadlocked(next) && next.left == s.left
  {
    SwapOk(s);
    LeftStepOk(Swap(s), action, t);
    SwapOk(LeftStep(Swap(s), action, t));
    WindowsStay(Swap(s), action, t);
    QuietOutcome(s, action, t);
    hide SystemOk, LeftStep;
  }

  /** What the quiet end's step adds to the channels and to itself. */
  lemma QuietOutcome(s: System, action: Action, t: Transport)
    requires Deadlocked(s)
    requires Swap(s).left.actual.tx < SN_COUNT
    ensures var next := LeftStep(Swap(s), action, t);
            && Quiet(next.left) && next.left.log.received == s.right.log.received
            && NoNewAcks(next.toRight, s.left.log.acked)
  {
    hide SendNext, HandleRawData, React, Linked, SenderOk;
    match action
    case Local(event) =>
      if InSession(event) {
        QuietLocal(s.right, event, t);
        NoNewAcksAppend(s.toLeft, React(s.right, event, t).sent, s.left.log.acked);
      }
    case Receive(client) =>
      if s.toRight != [] {
        QuietReceives(s, client, t);
        NoNewAcksAppend(s.toLeft, HandleRawData(s.right, s.toRight[0].bytes, client, t).sent, s.left.log.acked);
      }
    case Lose(_) =>
    case Stray(bytes, client) => StraySame(Swap(s), bytes, client, t);
  }

  lemma NoNewAcksAppend(a: seq<Frame>, b: seq<Frame>, acked: nat)
    requires NoNewAcks(a, acked) && NoNewAcks(b, 0)
    ensures NoNewAcks(a + b, acked)
  {
  }

  lemma DeadlockedStep(s: System, m: Move)
    requires Deadlocked(s)
    ensures Deadlocked(Step(s, m)) && Step(s, m).left.log.acked == s.left.log.acked
  {
    if m.atLeft {
      WaitingStep(s, m.action, m.transport);
    } else {
      QuietStep(s, m.action, m.transport);
    }
    hide SystemOk, LeftStep;
  }

  /** A deadlocked session stays so whatever the clients, the timers and the channels do: the
      waiting end never gets another ack, and never sends anything but the packet it waits for. */
  lemma {:induction false} DeadlockedForever(s: System, moves: seq<Move>)
    requires Deadlocked(s)
    ensures var end := GattlinkNetwork.Run(s, moves);
            && Deadlocked(end) && end.left.log.acked == s.left.log.acked
            && |end.left.log.fragments| == s.left.log.acked + 1
    decreases |moves|
  {
    hide Step, Linked, FramesOk, TimersOk, Settled, ReceiverOk;
    if moves != [] {
      DeadlockedStep(s, moves[0]);
      DeadlockedForever(Step(s, moves[0]), moves[1..]);
    } else {
      OnePacketOut(s);
    }
  }

  lemma OnePacketOut(s: System)
    requires Waiting(s)
    ensures |s.left.log.fragments| == s.left.log.acked + 1
  {
    hide Flat, FramesOk, DataInOrder, AcksInOrder;
  }
}

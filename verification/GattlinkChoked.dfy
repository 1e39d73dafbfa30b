/** A second dead end with a window of one: the ack that the left end waits for can only go out in a
    packet that is too long for it to take. */
module GattlinkChoked {
  import opened Common
  import opened GattlinkEndpoint
  import opened GattlinkSender
  import opened GattlinkWakeUp
  import opened GattlinkNetwork
  import opened GattlinkDeadlock
  import Theorems = GattlinkTheorems
  import Sizes = GattlinkSizes

  /** An ack is due, but both what the loop would send with it and what a timeout would send with it
      are fragments of the largest size. */
  predicate Muffled(e: Endpoint) {
    && AckDue(e) && e.log.acked <= e.log.next < |e.log.fragments|
    && |e.log.fragments[e.log.next]| == |e.log.fragments[e.log.acked]| == MAX_PACKET_SIZE - 1
  }

  /** An end that by itself sends no ack that can be received. */
  ghost predicate Silent(e: Endpoint) {
    Quiet(e) || Muffled(e)
  }

  predicate Short(f: Frame) {
    |f.bytes| <= MAX_PACKET_SIZE
  }

  /** No packet that can be received is the one expected, nor, if `resent`, one that is recognised. */
  ghost predicate NoneCounts(frames: seq<Frame>, received: nat, window: nat, resent: bool) {
    forall i :: 0 <= i < |frames| && frames[i].dataIndex.Some? && Short(frames[i]) ==>
      && frames[i].dataIndex.value != received
      && (resent ==> !(frames[i].dataIndex.value < received < frames[i].dataIndex.value + window))
  }

  /** No ack will reach the right end that is new to it: none is on its way; the left end has got
      nothing new or is silent about it; and nothing on its way to the left end makes it speak. */
  ghost predicate NoNews(s: System) {
    var behind := s.left.log.received > s.right.log.acked;
    && NoNewAcks(s.toRight, s.right.log.acked)
    && NoneCounts(s.toLeft, s.left.log.received, s.left.actual.rx, behind)
    && (behind ==> Silent(s.left))
  }

  ghost predicate Choked(s: System) {
    Waiting(s) && Muffled(s.right) && NoNews(s)
  }

  // ------------------------------------------------------------- a silent end

  /** It stays silent, and if it is still muffled it has sent nothing. */
  ghost predicate StaysSilent(e: Endpoint, o: Outcome) {
    && o.endpoint.log.received == e.log.received && o.endpoint.log.acked == e.log.acked
    && Silent(o.endpoint) && NoNewAcks(o.sent, 0) && (Muffled(o.endpoint) ==> o.sent == [])
  }

  lemma {:induction false} MuffledFrame(e: Endpoint, t: Transport)
    requires SenderOk(e) && Muffled(e)
    ensures |NextFrame(e, t).bytes| > MAX_PACKET_SIZE && SomethingToSend(e, t)
  {
    hide Flat, SizesMatch, FragmentSizes, NextPayloadSize, NextFrame;
    ResendsNext(e, t);
    Sizes.FrameSize(e, t);
  }

  lemma MuffledSent(e: Endpoint, t: Transport)
    requires Muffled(e)
    ensures Quiet(AfterSending(e, t)) && AfterSending(e, t).actual == e.actual
    ensures Muffled(AfterRefusal(e, t))
  {
    hide NextPayloadSize, NextFrame;
  }

  lemma QuietIsNot(e: Endpoint)
    requires Quiet(e)
    ensures !Muffled(e)
  {
  }

  lemma {:induction false} MuffledLoop(e: Endpoint, t: Transport)
    requires SenderOk(e) && Muffled(e) && e.actual.tx < SN_COUNT
    ensures var o := SendNext(e, t);
            (Muffled(o.endpoint) && o.sent == []) || (Quiet(o.endpoint) && NoNewAcks(o.sent, 0))
  {
    hide SendNext, SenderOk, Muffled, Quiet, NextFrame, AfterSending, AfterRefusal, SomethingToSend;
    SendNextTurn(e, t);
    MuffledFrame(e, t);
    MuffledSent(e, t);
    if !t.Refuses() {
      QuietLoop(AfterSending(e, t), t.AfterSend());
    }
  }

  lemma {:induction false} SilentLoop(e0: Endpoint, e: Endpoint, t: Transport)
    requires SenderOk(e) && Silent(e) && e.log.received == e0.log.received && e.log.acked == e0.log.acked
    ensures StaysSilent(e0, SendNext(e, t))
  {
    hide SendNext, SizesMatch, FragmentSizes, Flat, Muffled, Quiet;
    LoopKeepsCounters(e, t);
    if Quiet(e) {
      QuietLoop(e, t);
    } else {
      MuffledLoop(e, t);
    }
    if Quiet(SendNext(e, t).endpoint) {
      QuietIsNot(SendNext(e, t).endpoint);
    }
  }

  lemma SilentLocal(e: Endpoint, event: Event, t: Transport)
    requires EndpointOk(e) && e.state == Ready && Silent(e) && InSession(event)
    ensures StaysSilent(e, React(e, event, t))
  {
    hide SendNext, SenderOk, TimersOk, Settled, ReceiverOk, StaysSilent, Silent, SameLink;
    LocalKeeps(e, if event.ClientSubmit? then event.data else []);
    SilentKept(e, if event.ClientSubmit? then event.data else []);
    SilentTake(e, 0);
    match event
    case ClientSubmit(data) => SilentLoop(e, Given(e, data), t);
    case ClientNotify => SilentLoop(e, e, t);
    case ClientTake(count) => SilentTake(e, count);
    case AckTimerFires =>
      if e.ackTimer {
        SilentLoop(e, e.(ackTimer := false, ackNow := true), t);
      }
    case RetransmitTimerFires => SilentLoop(e, RollBack(e.(retransmitTimer := false)), t);
  }

  /** The endpoints a local event hands to the sending loop are as silent. */
  lemma SilentKept(e: Endpoint, data: seq<byte>)
    requires Silent(e)
    ensures Silent(Given(e, data)) && Silent(RollBack(e.(retransmitTimer := false)))
    ensures e.ackTimer ==> Silent(e.(ackTimer := false, ackNow := true))
  {
  }

  lemma SilentTake(e: Endpoint, count: nat)
    requires Silent(e)
    ensures StaysSilent(e, Outcome(TakeIncoming(e, count), [], TakeStatus(e, count)))
    ensures StaysSilent(e, Outcome(e, [], Success))
  {
  }

  lemma SilentPacket(e: Endpoint, bytes: seq<byte>, client: Client, t: Transport)
    requires SenderOk(e) && Silent(e) && |bytes| > 0
    requires |bytes| <= MAX_PACKET_SIZE ==>
               && (HasAck(bytes) ==> e.payloadSizes[bytes[0] % SN_COUNT] == 0)
               && (AfterAck(bytes) != [] ==> Judge(e, AfterAck(bytes)[0] % SN_COUNT) == Unexpected)
    ensures StaysSilent(e, HandleDataPacket(e, bytes, client, t))
  {
    hide SendNext, Refilled, HandlePayload, Judge, SizesMatch, FragmentSizes, Flat, Silent, Muffled;
    SilentLoop(e, e, t);
    SilentTake(e, 0);
    if |bytes| <= MAX_PACKET_SIZE && AfterAck(bytes) != [] {
      RefusedPayload(e, AfterAck(bytes), client, t);
    }
    assert [] + SendNext(e, t).sent == SendNext(e, t).sent;
  }

  // ------------------------------------------------------------ the right end

  /** What arrives at the right end acknowledges nothing. */
  lemma OldAck(s: System)
    requires Choked(s) && s.toRight != []
    ensures var f := s.toRight[0];
            && |f.bytes| > 0 && f.bytes[0] < CONTROL && (f.dataIndex.None? ==> Theorems.DataPart(f) == [])
            && (Short(f) && HasAck(f.bytes) ==> s.right.payloadSizes[f.bytes[0] % SN_COUNT] == 0)
  {
    hide SenderOk, TimersOk, Settled, ReceiverOk, FrameOk, FramesOk, Linked, Muffled, HasAck, NoneCounts, Silent;
    var f, rest := s.toRight[0], s.toRight[1..];
    assert s.toRight == [f] + rest;
    HeadOk(s.left, s.right, f, rest, s.toLeft);
    FrameParse(f, s.left.log);
    if f.ackCount.Some? && Short(f) {
      AckIsOld(s);
      OldAckIgnored(s.right, f.ackCount.value);
    }
  }

  lemma AckIsOld(s: System)
    requires SystemOk(s) && NoNewAcks(s.toRight, s.right.log.acked)
    requires s.toRight != [] && s.toRight[0].ackCount.Some? && Short(s.toRight[0])
    ensures 1 <= s.toRight[0].ackCount.value == s.right.log.acked
  {
    hide Flat, DataInOrder, SenderOk, FrameBytes;
    assert FrameOk(s.toRight[0], s.left.log);
  }

  /** Its data is a repetition that the right end does not recognise. */
  lemma OldData(s: System)
    requires Waiting(s) && s.toRight != [] && s.toRight[0].dataIndex.Some?
    ensures Theorems.DataPart(s.toRight[0]) != []
    ensures Judge(s.right, Theorems.DataPart(s.toRight[0])[0] % SN_COUNT) == Unexpected
  {
    Theorems.HeadJudged(s);
    OnePacketOut(s);
    HeadNumber(s);
    hide SystemOk, Judge, Theorems.DataPart;
  }

  lemma HeadNumber(s: System)
    requires Waiting(s) && s.toRight != [] && s.toRight[0].dataIndex.Some?
    ensures s.toRight[0].dataIndex.value < |s.left.log.fragments| == s.right.log.received && s.right.actual.rx == 1
  {
    hide Flat, DataInOrder, AcksInOrder, FrameBytes;
    assert FrameOk(s.toRight[0], s.left.log);
  }

  lemma DataPartIs(f: Frame)
    ensures Theorems.DataPart(f) == AfterAck(f.bytes)
  {
  }

  lemma RightReceives(s: System, client: Client, t: Transport)
    requires Choked(s) && s.toRight != []
    ensures StaysSilent(s.right, HandleRawData(s.right, s.toRight[0].bytes, client, t))
  {
    hide HandleRawData, HandleDataPacket, SenderOk, TimersOk, Settled, ReceiverOk, FramesOk, Linked, Judge;
    hide StaysSilent, Muffled, NoNews, NoNewAcks, Theorems.DataPart, HasAck;
    OldAck(s);
    if s.toRight[0].dataIndex.Some? {
      OldData(s);
    }
    DataPartIs(s.toRight[0]);
    DataIsPacket(s.right, s.toRight[0].bytes, client, t);
    SilentPacket(s.right, s.toRight[0].bytes, client, t);
  }

  // -------------------------------------------------------------- the left end

  /** Of what can be received, nothing is expected, nothing is recognised while the left end is silent. */
  lemma HeadJudgedLeft(s: System)
    requires Choked(s) && s.toLeft != [] && s.toLeft[0].dataIndex.Some? && Short(s.toLeft[0])
    ensures Theorems.DataPart(s.toLeft[0]) != []
    ensures var v := Judge(s.left, Theorems.DataPart(s.toLeft[0])[0] % SN_COUNT);
            v != Expected && (s.left.log.received > s.right.log.acked ==> v == Unexpected)
  {
    SwapOk(s);
    Theorems.HeadJudged(Swap(s));
    hide SystemOk, Judge, Theorems.DataPart, Muffled, Silent;
  }

  /** What arrives at the left end acknowledges nothing. */
  lemma OldAckLeft(s: System)
    requires Waiting(s) && s.toLeft != []
    ensures var f := s.toLeft[0];
            && |f.bytes| > 0 && f.bytes[0] < CONTROL && (f.dataIndex.None? ==> Theorems.DataPart(f) == [])
            && (Short(f) && HasAck(f.bytes) ==> s.left.payloadSizes[f.bytes[0] % SN_COUNT] == 0)
  {
    hide SenderOk, TimersOk, Settled, ReceiverOk, FrameOk, FramesOk, Linked, HasAck;
    var f, rest := s.toLeft[0], s.toLeft[1..];
    assert s.toLeft == [f] + rest;
    LinkedSwap(s.left, s.right, s.toRight, s.toLeft);
    HeadOk(s.right, s.left, f, rest, s.toRight);
    FrameParse(f, s.right.log);
    if f.ackCount.Some? && Short(f) {
      HeadAckOld(s);
      OldAckIgnored(s.left, f.ackCount.value);
    }
  }

  lemma PacketKeepsReceived(e: Endpoint, bytes: seq<byte>, client: Client, t: Transport)
    requires e.actual.tx < SN_COUNT && |bytes| > 0
    requires |bytes| <= MAX_PACKET_SIZE ==>
               && (HasAck(bytes) ==> e.payloadSizes[bytes[0] % SN_COUNT] == 0)
               && (AfterAck(bytes) != [] ==> Judge(e, AfterAck(bytes)[0] % SN_COUNT) != Expected)
    ensures HandleDataPacket(e, bytes, client, t).endpoint.log.received == e.log.received
  {
    hide SendNext, HandleAck, Refilled, Accept, Judge;
    LoopKeepsCounters(e, t);
    LoopKeepsCounters(OweAck(e), t);
  }

  lemma LeftReceives(s: System, client: Client, t: Transport)
    requires Choked(s) && s.toLeft != []
    ensures var o := HandleRawData(s.left, s.toLeft[0].bytes, client, t);
            && o.endpoint.log.received == s.left.log.received
            && (s.left.log.received > s.right.log.acked ==> StaysSilent(s.left, o))
  {
    hide HandleRawData, HandleDataPacket, SenderOk, TimersOk, Settled, ReceiverOk, FramesOk, Linked, Judge;
    hide StaysSilent, Muffled, NoNewAcks, NoneCounts, Theorems.DataPart, HasAck;
    OldAckLeft(s);
    if s.toLeft[0].dataIndex.Some? && Short(s.toLeft[0]) {
      HeadJudgedLeft(s);
    }
    DataPartIs(s.toLeft[0]);
    DataIsPacket(s.left, s.toLeft[0].bytes, client, t);
    PacketKeepsReceived(s.left, s.toLeft[0].bytes, client, t);
    if s.left.log.received > s.right.log.acked {
      SilentPacket(s.left, s.toLeft[0].bytes, client, t);
    }
  }

  // -------------------------------------------------------------------- steps

  lemma NoneCountsRemove(frames: seq<Frame>, i: nat, received: nat, window: nat, resent: bool)
    requires i < |frames| && NoneCounts(frames, received, window, resent)
    ensures NoneCounts(Remove(frames, i), received, window, resent)
  {
  }

  /** No ack of the left end is newer than what it has got. */
  lemma AcksBounded(s: System)
    requires SystemOk(s)
    ensures NoNewAcks(s.toRight, s.left.log.received)
  {
    hide FrameOk, Flat, DataInOrder, AcksInOrder, SenderOk;
    InTransitBounds(s.toRight, s.left.log);
  }

  lemma LeftEmits(s: System, o: Outcome, toLeft: seq<Frame>)
    requires Choked(s) && o.endpoint.log.received == s.left.log.received && o.endpoint.actual == s.left.actual
    requires s.left.log.received > s.right.log.acked ==> StaysSilent(s.left, o)
    requires NoneCounts(toLeft, s.left.log.received, s.left.actual.rx, s.left.log.received > s.right.log.acked)
    requires SystemOk(Emit(s.(toLeft := toLeft), o))
    ensures NoNews(Emit(s.(toLeft := toLeft), o))
  {
    hide SystemOk, Silent, Muffled, NoneCounts;
    var s' := Emit(s.(toLeft := toLeft), o);
    ReceivedAtLeast(s);
    if s.left.log.received > s.right.log.acked {
      NoNewAcksAppend(s.toRight, o.sent, s.right.log.acked);
    } else {
      AcksBounded(s');
    }
  }

  lemma ReceivedAtLeast(s: System)
    requires SystemOk(s)
    ensures s.right.log.acked <= s.left.log.received
  {
    hide Flat, FramesOk, DataInOrder, AcksInOrder, SenderOk;
  }

  lemma ChokedLeft(s: System, action: Action, t: Transport)
    requires Choked(s)
    ensures var s' := LeftStep(s, action, t); Choked(s') && s'.left.log.acked == s.left.log.acked
  {
    WaitingStep(s, action, t);
    LeftStepOk(s, action, t);
    WindowsStay(s, action, t);
    assert s.left.actual.tx < SN_COUNT && s.left.state == Ready && EndpointOk(s.left);
    hide Waiting, Muffled, Silent, HandleRawData, React, NoneCounts, Remove, SystemOk, StaysSilent, EndpointOk;
    var behind := s.left.log.received > s.right.log.acked;
    match action
    case Local(event) =>
      if InSession(event) {
        LocalKeepsCounters(s.left, event, t);
        if behind {
          SilentLocal(s.left, event, t);
        }
        LeftEmits(s, React(s.left, event, t), s.toLeft);
      }
    case Receive(client) =>
      if s.toLeft != [] {
        LeftReceives(s, client, t);
        NoneCountsRemove(s.toLeft, 0, s.left.log.received, s.left.actual.rx, behind);
        LeftEmits(s, HandleRawData(s.left, s.toLeft[0].bytes, client, t), Remove(s.toLeft, 0));
      }
    case Lose(index) =>
      if index < |s.toLeft| {
        NoneCountsRemove(s.toLeft, index, s.left.log.received, s.left.actual.rx, behind);
      }
    case Stray(bytes, client) => StraySame(s, bytes, client, t);
  }

  /** What the right end's step adds to the channel and to itself. */
  lemma ChokedOutcome(s: System, action: Action, t: Transport)
    requires Choked(s) && Swap(s).left.actual.tx < SN_COUNT
    ensures var next := LeftStep(Swap(s), action, t);
            && next.left.log.received == s.right.log.received && next.left.log.acked == s.right.log.acked
            && NoNewAcks(next.toRight, s.left.log.acked) && NoNewAcks(next.toLeft, s.right.log.acked)
            && (Quiet(next.left) || (Muffled(next.left) && next.toRight == s.toLeft))
  {
    hide HandleRawData, React, Linked, SenderOk, Muffled, Quiet;
    match action
    case Local(event) =>
      if InSession(event) {
        SilentLocal(s.right, event, t);
        NoNewAcksAppend(s.toLeft, React(s.right, event, t).sent, s.left.log.acked);
      }
    case Receive(client) =>
      if s.toRight != [] {
        RightReceives(s, client, t);
        NoNewAcksRemove(s.toRight, 0, s.right.log.acked);
        NoNewAcksAppend(s.toLeft, HandleRawData(s.right, s.toRight[0].bytes, client, t).sent, s.left.log.acked);
      }
    case Lose(index) =>
      if index < |s.toRight| {
        NoNewAcksRemove(s.toRight, index, s.right.log.acked);
      }
    case Stray(bytes, client) => StraySame(Swap(s), bytes, client, t);
  }

  lemma ChokedRight(s: System, action: Action, t: Transport)
    requires Choked(s)
    ensures var next := Swap(LeftStep(Swap(s), action, t));
            (Choked(next) || Deadlocked(next)) && next.left == s.left
  {
    SwapOk(s);
    LeftStepOk(Swap(s), action, t);
    SwapOk(LeftStep(Swap(s), action, t));
    WindowsStay(Swap(s), action, t);
    ChokedOutcome(s, action, t);
    hide SystemOk, LeftStep, Muffled, Quiet, NoneCounts, Silent;
  }

  /** Every step leaves it choked or deadlocks it, and acknowledges nothing. */
  lemma ChokedStep(s: System, m: Move)
    requires Choked(s)
    ensures var s' := Step(s, m);
            (Choked(s') || Deadlocked(s')) && s'.left.log.acked == s.left.log.acked
  {
    if m.atLeft {
      ChokedLeft(s, m.action, m.transport);
    } else {
      ChokedRight(s, m.action, m.transport);
    }
    hide Choked, Deadlocked, SystemOk, LeftStep;
  }
}

/** What every run of a Gattlink session guarantees. */
module GattlinkTheorems {
  import opened Common
  import opened GattlinkEndpoint
  import opened GattlinkSender
  import opened GattlinkWakeUp
  import Net = GattlinkNetwork

  /** A system reached from a completed handshake by any steps at all. */
  function Reached(left: Windows, right: Windows, moves: seq<Net.Move>): Net.System
    requires Net.Bounded(left, right)
  {
    Net.ConnectedOk(left, right);
    Net.Run(Net.Connected(left, right), moves)
  }

  lemma ReachedOk(left: Windows, right: Windows, moves: seq<Net.Move>)
    requires Net.Bounded(left, right)
    ensures Net.SystemOk(Reached(left, right, moves))
  {
    hide Net.SystemOk;
    Net.ConnectedOk(left, right);
    Net.RunOk(Net.Connected(left, right), moves);
  }

  // ------------------------------------------------------------- any windows

  /** What the moves make of any two ends, for as long as both windows are below 32. */
  function Play(s: Net.System, moves: seq<Net.Move>): Net.System
    decreases |moves|
  {
    if moves == [] || s.left.actual.tx >= SN_COUNT || s.right.actual.tx >= SN_COUNT then s
    else Play(Net.Step(s, moves[0]), moves[1..])
  }

  /** In a session with windows of at most 16 that is the run. */
  lemma {:induction false} PlayIsRun(s: Net.System, moves: seq<Net.Move>)
    requires Net.SystemOk(s)
    ensures Play(s, moves) == Net.Run(s, moves)
    decreases |moves|
  {
    hide Net.Step, Net.Linked, Net.FramesOk, SenderOk;
    if moves != [] {
      Net.StepOk(s, moves[0]);
      PlayIsRun(Net.Step(s, moves[0]), moves[1..]);
    }
  }

  /** The same moves with the ends exchanged. */
  function Flipped(moves: seq<Net.Move>): seq<Net.Move> {
    if moves == [] then []
    else [Net.Move(!moves[0].atLeft, moves[0].action, moves[0].transport)] + Flipped(moves[1..])
  }

  /** The ends are interchangeable: what holds of the left end in every run holds of the right. */
  lemma {:induction false} Mirrored(s: Net.System, moves: seq<Net.Move>)
    ensures Play(Net.Swap(s), Flipped(moves)) == Net.Swap(Play(s, moves))
    decreases |moves|
  {
    hide Net.Step;
    if moves != [] && s.left.actual.tx < SN_COUNT && s.right.actual.tx < SN_COUNT {
      SteppedMirrored(s, moves[0]);
      Mirrored(Net.Step(s, moves[0]), moves[1..]);
      assert Flipped(moves)[1..] == Flipped(moves[1..]);
    }
  }

  lemma SteppedMirrored(s: Net.System, m: Net.Move)
    requires s.left.actual.tx < SN_COUNT && s.right.actual.tx < SN_COUNT
    ensures Net.Step(Net.Swap(s), Net.Move(!m.atLeft, m.action, m.transport)) == Net.Swap(Net.Step(s, m))
  {
    assert Net.Swap(Net.Swap(s)) == s;
    hide Net.LeftStep;
  }

  /** The bytes one end has released are a prefix of those the other end has accepted, and
      these are a prefix of what the first end's client submitted. The receiving client has
      read a prefix of what was accepted. */
  ghost predicate StreamSafe(s: Endpoint, r: Endpoint) {
    && s.log.consumed <= r.log.accepted
    && r.log.accepted <= s.log.submitted
    && r.log.read <= r.log.accepted
    && s.log.submitted == s.log.consumed + s.outgoing
  }

  lemma {:induction false} FlowSafe(s: Endpoint, r: Endpoint, data: seq<Frame>, acks: seq<Frame>)
    requires SenderOk(s) && ReceiverOk(r) && Net.Flow(s, r, data, acks)
    ensures StreamSafe(s, r)
  {
    hide Flat, SizesMatch, FragmentSizes, Net.FramesOk, Net.DataInOrder, Net.AcksInOrder;
    var fragments := s.log.fragments;
    FlatExtend(fragments, s.log.acked, r.log.received);
    FlatCut(fragments, s.log.acked, r.log.received);
  }

  /** The main safety theorem, in both directions at once. */
  lemma StreamSafety(left: Windows, right: Windows, moves: seq<Net.Move>)
    requires Net.Bounded(left, right)
    ensures var s := Reached(left, right, moves);
            StreamSafe(s.left, s.right) && StreamSafe(s.right, s.left)
  {
    hide Reached, Net.Flow, SenderOk, ReceiverOk, TimersOk, Settled, StreamSafe;
    ReachedOk(left, right, moves);
    var s := Reached(left, right, moves);
    FlowSafe(s.left, s.right, s.toRight, s.toLeft);
    FlowSafe(s.right, s.left, s.toLeft, s.toRight);
  }

  /** A slot of the size table is in use exactly when it belongs to an unacknowledged packet;
      these never exceed the window nor, in bytes, what the client still holds. Without refused
      sends the window computed modulo 32 is the true number of unacknowledged packets. */
  ghost predicate InStep(e: Endpoint) {
    var acked, sent := e.log.acked, |e.log.fragments|;
    && (forall sn: Sn :: e.payloadSizes[sn] != 0 <==> exists i :: acked <= i < sent && i % SN_COUNT == sn)
    && acked <= sent <= acked + e.actual.tx
    && |Flat(e.log.fragments[acked..])| <= |e.outgoing|
    && (!e.log.refused ==>
          && InFlight(e) == sent - acked
          && AwaitingUpTo(e.payloadSizes, e.nextExpectedAckSn, e.nextDataSn) == |Flat(e.log.fragments[acked..])|)
  }

  lemma {:induction false} SlotsInUse(e: Endpoint, sn: Sn)
    requires SenderOk(e)
    ensures e.payloadSizes[sn] != 0 <==> exists i :: e.log.acked <= i < |e.log.fragments| && i % SN_COUNT == sn
  {
    hide Flat;
    if e.payloadSizes[sn] != 0 {
      var j := SlotOwner(e.payloadSizes, e.log.acked, e.log.fragments, sn);
    }
  }

  lemma {:induction false} SenderInStep(e: Endpoint)
    requires SenderOk(e) && Settled(e)
    ensures InStep(e)
  {
    forall sn: Sn
      ensures e.payloadSizes[sn] != 0 <==> exists i :: e.log.acked <= i < |e.log.fragments| && i % SN_COUNT == sn
    {
      SlotsInUse(e, sn);
    }
    hide Flat, SizesMatch;
    if !e.log.refused {
      ModDistance(e.log.acked, e.log.next);
      AwaitingIsFlat(e.payloadSizes, e.log.acked, e.log.fragments, e.log.acked, e.log.next);
      assert e.log.fragments[e.log.acked..e.log.next] == e.log.fragments[e.log.acked..];
    }
  }

  /** The 5-bit sender refines the one with unbounded counters in every reachable state. */
  lemma CountersRefined(left: Windows, right: Windows, moves: seq<Net.Move>)
    requires Net.Bounded(left, right)
    ensures var s := Reached(left, right, moves);
            InStep(s.left) && InStep(s.right)
  {
    hide Reached, Net.Flow, SenderOk, ReceiverOk, TimersOk, Settled, InStep;
    ReachedOk(left, right, moves);
    var s := Reached(left, right, moves);
    SenderInStep(s.left);
    SenderInStep(s.right);
  }

  /** The data half of a packet. */
  function DataPart(f: Frame): seq<byte> {
    AfterAck(f.bytes)
  }

  /** Any two packets ever sent with the same number carry the same sequence number byte and
      the same payload, whatever was acknowledged or submitted in between. */
  lemma RetransmissionsIdentical(left: Windows, right: Windows, moves: seq<Net.Move>, i: nat, j: nat)
    requires Net.Bounded(left, right)
    requires var s := Reached(left, right, moves);
             i < |s.byLeft| && j < |s.byLeft| && s.byLeft[i].dataIndex.Some?
             && s.byLeft[i].dataIndex == s.byLeft[j].dataIndex
    ensures var s := Reached(left, right, moves);
            && DataPart(s.byLeft[i]) == DataPart(s.byLeft[j])
            && s.byLeft[i].dataIndex.value < |s.left.log.fragments|
            && DataPart(s.byLeft[i]) == [s.byLeft[i].dataIndex.value % SN_COUNT]
                                        + s.left.log.fragments[s.byLeft[i].dataIndex.value]
  {
    hide Reached, Net.Linked, EndpointOk, Net.FrameOk;
    ReachedOk(left, right, moves);
    var s := Reached(left, right, moves);
    Net.FrameParse(s.byLeft[i], s.left.log);
    Net.FrameParse(s.byLeft[j], s.left.log);
    Net.AckWithin(s.byLeft[i], s.left.log);
  }

  /** Every ack ever sent names, modulo 32, a packet that had been accepted in order. In
      particular nothing is acknowledged before anything was received. */
  lemma AcksNameAcceptedPackets(left: Windows, right: Windows, moves: seq<Net.Move>, i: nat)
    requires Net.Bounded(left, right)
    requires var s := Reached(left, right, moves); i < |s.byRight| && HasAck(s.byRight[i].bytes)
    ensures var s := Reached(left, right, moves);
            && s.byRight[i].ackCount.Some?
            && 1 <= s.byRight[i].ackCount.value <= s.right.log.received
            && s.byRight[i].bytes[0] % SN_COUNT == (s.byRight[i].ackCount.value - 1) % SN_COUNT
            && s.right.log.received <= |s.left.log.fragments|
            && s.right.log.accepted == Flat(s.left.log.fragments[..s.right.log.received])
  {
    hide Reached, EndpointOk, Flat, Net.FrameBytes;
    ReachedOk(left, right, moves);
    var s := Reached(left, right, moves);
    Net.FrameParse(s.byRight[i], s.right.log);
  }

  /** The receiver judges the packet at the head of the channel by its true number. */
  lemma GapNeverTakenForOld(left: Windows, right: Windows, moves: seq<Net.Move>)
    requires Net.Bounded(left, right)
    requires var s := Reached(left, right, moves);
             s.toRight != [] && s.toRight[0].dataIndex.Some?
    ensures var s := Reached(left, right, moves);
            var k, received := s.toRight[0].dataIndex.value, s.right.log.received;
            DataPart(s.toRight[0]) != [] &&
            Judge(s.right, DataPart(s.toRight[0])[0] % SN_COUNT) ==
              if k == received then Expected
              else if k < received < k + s.right.actual.rx then Resent
              else Unexpected
  {
    hide Reached, Net.SystemOk, Judge, DataPart;
    ReachedOk(left, right, moves);
    HeadJudged(Reached(left, right, moves));
  }

  lemma HeadJudged(s: Net.System)
    requires Net.SystemOk(s) && s.toRight != [] && s.toRight[0].dataIndex.Some?
    ensures var k, received := s.toRight[0].dataIndex.value, s.right.log.received;
            DataPart(s.toRight[0]) != [] &&
            Judge(s.right, DataPart(s.toRight[0])[0] % SN_COUNT) ==
              if k == received then Expected
              else if k < received < k + s.right.actual.rx then Resent
              else Unexpected
  {
    hide Judge, TimersOk, Settled, Net.FrameOk, Net.FramesOk, Net.Linked, SenderOk;
    var f, rest := s.toRight[0], s.toRight[1..];
    assert s.toRight == [f] + rest;
    Net.HeadOk(s.left, s.right, f, rest, s.toLeft);
    Net.FrameParse(f, s.left.log);
    assert DataPart(f)[0] % SN_COUNT == f.dataIndex.value % SN_COUNT;
    Net.DataWithin(s.left, s.right, f, rest, s.toLeft);
    Net.WindowsAgree(s.left, s.right, s.toRight, s.toLeft);
    Net.JudgedByTrueNumber(s.right, f.dataIndex.value, s.left.actual.tx);
  }

  /** What the receiver computes for a packet `gap` numbers ahead of the one it expects. */
  function DistanceAhead(received: nat, gap: nat): Sn {
    Distance((received + gap) % SN_COUNT, received % SN_COUNT)
  }

  lemma DistanceAheadIs(received: nat, gap: nat)
    requires 0 < gap < SN_COUNT
    ensures DistanceAhead(received, gap) == SN_COUNT - gap
  {
    ModDistance(received, received + gap);
  }

  /** Why the window stops at 16: the packets a window allows beyond a gap are all kept apart
      from old ones exactly when the window is at most that. */
  lemma WindowLimit(window: nat)
    requires window < SN_COUNT
    ensures (forall received: nat, gap: nat | 0 < gap < window :: DistanceAhead(received, gap) >= window)
            <==> window <= MAX_WINDOW
  {
    hide DistanceAhead;
    forall received: nat, gap: nat | 0 < gap < window
      ensures DistanceAhead(received, gap) == SN_COUNT - gap
    {
      DistanceAheadIs(received, gap);
    }
    if window > MAX_WINDOW {
      assert DistanceAhead(0, window - 1) == SN_COUNT - (window - 1);
    }
  }

  // ------------------------------------------------------- after a timeout

  /** The packet numbers carried by a list of packets. */
  function Numbers(frames: seq<Frame>): seq<nat> {
    if frames == [] then []
    else (if frames[0].dataIndex.Some? then [frames[0].dataIndex.value] else []) + Numbers(frames[1..])
  }

  /** The sending loop numbers its packets one after the other. */
  lemma {:induction false} LoopNumbers(e: Endpoint, t: Transport)
    requires e.actual.tx < SN_COUNT
    ensures var o := SendNext(e, t);
            e.log.next <= o.endpoint.log.next && Numbers(o.sent) == Range(e.log.next, o.endpoint.log.next)
    decreases WindowLeft(e), AckDue(e)
  {
    SendNextTurn(e, t);
    hide SendNext, AfterSending, NextFrame, SomethingToSend, NextPayloadSize, WindowLeft, AckDue, AfterRefusal;
    hide Range, Numbers;
    if SomethingToSend(e, t) && !t.Refuses() {
      SendProgress(e, t);
      NumbersStep(e, t);
      LoopNumbers(AfterSending(e, t), t.AfterSend());
      NumbersCons(NextFrame(e, t), SendNext(AfterSending(e, t), t.AfterSend()).sent, e.log.next,
                  SendNext(AfterSending(e, t), t.AfterSend()).endpoint.log.next);
    } else {
      NumbersNone(e.log.next);
      RefusalNext(e, t);
    }
  }

  lemma RefusalNext(e: Endpoint, t: Transport)
    ensures AfterRefusal(e, t).log.next == e.log.next
  {
  }

  lemma NumbersNone(n: nat)
    ensures Numbers([]) == Range(n, n)
  {
  }

  lemma {:induction false} NumbersCons(f: Frame, rest: seq<Frame>, n: nat, end: nat)
    requires f.dataIndex == None || f.dataIndex == Some(n)
    requires var from := if f.dataIndex == None then n else n + 1;
             from <= end && Numbers(rest) == Range(from, end)
    ensures Numbers([f] + rest) == Range(n, end)
  {
    assert ([f] + rest)[1..] == rest;
  }

  lemma NumbersStep(e: Endpoint, t: Transport)
    ensures NextFrame(e, t).dataIndex == None ==> AfterSending(e, t).log.next == e.log.next
    ensures NextFrame(e, t).dataIndex != None ==>
              NextFrame(e, t).dataIndex == Some(e.log.next) && AfterSending(e, t).log.next == e.log.next + 1
  {
    hide AwaitingUpTo, Fetch;
  }

  /** A loop that meets no refusal sends everything numbered, from wherever it starts. */
  lemma {:induction false} LoopSendsAll(e: Endpoint, t: Transport)
    requires SenderOk(e) && e.log.acked <= e.log.next && t.refuseAfter == None
    ensures var e' := SendNext(e, t).endpoint;
            e'.log.next == |e'.log.fragments| && !SomethingToSend(e', t)
    decreases WindowLeft(e), AckDue(e)
  {
    assert e.actual.tx < SN_COUNT;
    SendNextTurn(e, t);
    hide SendNext, NextFrame, SizesMatch, FragmentSizes, Flat, AwaitingUpTo, NextPayloadSize;
    if SomethingToSend(e, t) {
      SendProgress(e, t);
      AfterSendingOk(e, t);
      LoopSendsAll(AfterSending(e, t), t.AfterSend());
    } else {
      StopMeansSent(e, t);
    }
  }

  /** When the retransmit timer fires and no send is refused meanwhile, the whole unacknowledged
      range is sent again, in order, before anything new. */
  lemma TimeoutResendsAll(e: Endpoint, t: Transport)
    requires EndpointOk(e) && e.state == Ready && e.retransmitTimer && t.refuseAfter == None
    ensures var o := React(e, RetransmitTimerFires, t);
            && o.endpoint.log.refused == e.log.refused
            && |e.log.fragments| <= |o.endpoint.log.fragments|
            && e.log.acked <= |o.endpoint.log.fragments|
            && Numbers(o.sent) == Range(e.log.acked, |o.endpoint.log.fragments|)
  {
    var e1 := RollBack(e.(retransmitTimer := false));
    Net.LocalKeeps(e, []);
    LoopNumbers(e1, t);
    NeverRefused(e1, t);
    LoopSendsAll(e1, t);
    hide SendNext, SenderOk, TimersOk, Settled, ReceiverOk;
    FragmentsGrow(e1, t);
  }

  lemma {:induction false} NeverRefused(e: Endpoint, t: Transport)
    requires e.actual.tx < SN_COUNT && t.refuseAfter == None
    ensures SendNext(e, t).endpoint.log.refused == e.log.refused
    decreases WindowLeft(e), AckDue(e)
  {
    SendNextTurn(e, t);
    hide SendNext, NextFrame;
    if SomethingToSend(e, t) {
      SendProgress(e, t);
      assert AfterSending(e, t).log.refused == e.log.refused;
      NeverRefused(AfterSending(e, t), t.AfterSend());
    }
  }

  lemma {:induction false} FragmentsGrow(e: Endpoint, t: Transport)
    requires e.actual.tx < SN_COUNT
    ensures |e.log.fragments| <= |SendNext(e, t).endpoint.log.fragments|
    decreases WindowLeft(e), AckDue(e)
  {
    SendNextTurn(e, t);
    hide SendNext, NextFrame;
    if SomethingToSend(e, t) && !t.Refuses() {
      SendProgress(e, t);
      FragmentsGrow(AfterSending(e, t), t.AfterSend());
    }
  }
}

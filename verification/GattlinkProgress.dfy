/** Ways forward: moves that get the oldest unacknowledged packet acknowledged, or something new sent
    when all is acknowledged. */
module GattlinkProgress {
  import opened Common
  import opened GattlinkEndpoint
  import opened GattlinkSender
  import WakeUp = GattlinkWakeUp
  import opened Theorems = GattlinkTheorems
  import opened GattlinkLimits
  import opened GattlinkDeadlock
  import opened GattlinkChoked
  import opened Net = GattlinkNetwork
  import Sizes = GattlinkSizes

  // ------------------------------------------------------------------- runs

  lemma {:induction false} RunConcat(s: System, a: seq<Move>, b: seq<Move>)
    requires SystemOk(s)
    ensures SystemOk(Net.Run(s, a)) && Net.Run(s, a + b) == Net.Run(Net.Run(s, a), b)
    decreases |a|
  {
    hide Step, Linked, FramesOk, SenderOk;
    Net.RunOk(s, a);
    if a == [] {
      assert a + b == b;
    } else {
      StepOk(s, a[0]);
      assert (a + b)[1..] == a[1..] + b;
      RunConcat(Step(s, a[0]), a[1..], b);
    }
  }

  lemma {:induction false} OneMove(s: System, m: Move)
    requires SystemOk(s)
    ensures Net.Run(s, [m]) == Step(s, m) && SystemOk(Step(s, m))
  {
    hide Step, Linked, FramesOk, SenderOk;
    StepOk(s, m);
    assert [m][1..] == [];
  }

  lemma {:induction false} DropToRight(s: System, n: nat) returns (moves: seq<Move>)
    requires SystemOk(s) && n <= |s.toRight|
    ensures Net.Run(s, moves) == s.(toRight := s.toRight[n..])
    ensures SystemOk(Net.Run(s, moves))
    decreases n
  {
    hide Step, Linked, FramesOk, SenderOk;
    if n == 0 {
      moves := [];
      assert s.toRight[0..] == s.toRight;
    } else {
      var m := Move(false, Lose(0), LINK);
      OneMove(s, m);
      LoseOneRight(s);
      var rest := DropToRight(Step(s, m), n - 1);
      moves := [m] + rest;
      RunConcat(s, [m], rest);
      assert s.toRight[1..][n - 1..] == s.toRight[n..];
    }
  }

  lemma LoseOneRight(s: System)
    requires SystemOk(s) && s.toRight != []
    ensures Step(s, Move(false, Lose(0), LINK)) == s.(toRight := s.toRight[1..])
  {
    hide Linked, FramesOk, SenderOk;
    assert s.toRight[..0] + s.toRight[1..] == s.toRight[1..];
  }

  lemma {:induction false} DropToLeft(s: System, n: nat) returns (moves: seq<Move>)
    requires SystemOk(s) && n <= |s.toLeft|
    ensures Net.Run(s, moves) == s.(toLeft := s.toLeft[n..])
    ensures SystemOk(Net.Run(s, moves))
    decreases n
  {
    hide Step, Linked, FramesOk, SenderOk;
    if n == 0 {
      moves := [];
      assert s.toLeft[0..] == s.toLeft;
    } else {
      var m := Move(true, Lose(0), LINK);
      OneMove(s, m);
      LoseOneLeft(s);
      var rest := DropToLeft(Step(s, m), n - 1);
      moves := [m] + rest;
      RunConcat(s, [m], rest);
      assert s.toLeft[1..][n - 1..] == s.toLeft[n..];
    }
  }

  lemma LoseOneLeft(s: System)
    requires SystemOk(s) && s.toLeft != []
    ensures Step(s, Move(true, Lose(0), LINK)) == s.(toLeft := s.toLeft[1..])
  {
    hide Linked, FramesOk, SenderOk;
    assert s.toLeft[..0] + s.toLeft[1..] == s.toLeft[1..];
  }

  // ---------------------------------------------------------- the resent packet

  /** A packet whose number is among those of a list is in the list. */
  lemma {:induction false} FindNumber(frames: seq<Frame>, n: nat) returns (p: nat)
    requires n in Numbers(frames)
    ensures p < |frames| && frames[p].dataIndex == Some(n)
  {
    if frames[0].dataIndex == Some(n) {
      p := 0;
    } else {
      var q := FindNumber(frames[1..], n);
      p := q + 1;
    }
  }

  /** The retransmit timer of the waiting end sends every unacknowledged packet again. */
  lemma ResentPacket(s: System, j: nat) returns (p: nat)
    requires SystemOk(s) && s.left.log.acked <= j < |s.left.log.fragments|
    ensures var o := React(s.left, RetransmitTimerFires, LINK);
            p < |o.sent| && o.sent[p].dataIndex == Some(j)
  {
    var e := s.left;
    assert WakeUp.EndpointOk(e) && e.state == Ready && e.retransmitTimer && e.actual.tx < SN_COUNT;
    hide SystemOk, React, WakeUp.EndpointOk;
    TimeoutResendsAll(e, LINK);
    var o := React(e, RetransmitTimerFires, LINK);
    var range := Range(e.log.acked, |o.endpoint.log.fragments|);
    assert range[j - e.log.acked] == j;
    p := FindNumber(o.sent, j);
  }

  // -------------------------------------------------------------- its ack

  /** With an ack due, the first packet of the loop carries it. */
  lemma {:induction false} AckGoesFirst(e: Endpoint)
    requires e.actual.tx < SN_COUNT && AckDue(e)
    ensures var sent := SendNext(e, LINK).sent;
            |sent| > 0 && sent[0] == NextFrame(e, LINK) && sent[0].ackCount == Some(e.log.ackable)
  {
    SendNextTurn(e, LINK);
    hide SendNext, NextPayloadSize, AfterSending, AwaitingUpTo, Fetch;
  }

  /** With nothing but an ack to send, the packet is one byte long. */
  lemma AckAlone(e: Endpoint)
    requires AckDue(e) && NextPayloadSize(e, LINK) == 0
    ensures |NextFrame(e, LINK).bytes| == 1
  {
    hide NextPayloadSize, AwaitingUpTo;
  }

  /** With no ack due, no packet of the loop carries one. */
  lemma {:induction false} NoAckInLoop(e: Endpoint, t: Transport)
    requires e.actual.tx < SN_COUNT && !AckDue(e)
    ensures forall i :: 0 <= i < |SendNext(e, t).sent| ==> SendNext(e, t).sent[i].ackCount == None
    decreases WindowLeft(e), AckDue(e)
  {
    SendNextTurn(e, t);
    hide SendNext;
    if SomethingToSend(e, t) && !t.Refuses() {
      SendProgress(e, t);
      NoAckInLoop(AfterSending(e, t), t.AfterSend());
    }
  }

  // ------------------------------------------------------------------- at rest

  /** The loop has nothing to send. */
  predicate AtRest(e: Endpoint) {
    !SomethingToSend(e, LINK)
  }

  /** A loop without refusals ends at rest. */
  lemma {:induction false} LoopRests(e: Endpoint)
    requires e.actual.tx < SN_COUNT
    ensures AtRest(SendNext(e, LINK).endpoint)
    decreases WindowLeft(e), AckDue(e)
  {
    SendNextTurn(e, LINK);
    hide SendNext, NextFrame, AfterSending;
    if SomethingToSend(e, LINK) {
      SendProgress(e, LINK);
      LoopRests(AfterSending(e, LINK));
    }
  }

  /** Whether there is data to send does not depend on what was received or taken. */
  lemma SameData(e: Endpoint, e': Endpoint)
    requires AtRest(e)
    requires e'.actual == e.actual && e'.outgoing == e.outgoing && e'.payloadSizes == e.payloadSizes
    requires e'.nextExpectedAckSn == e.nextExpectedAckSn && e'.nextDataSn == e.nextDataSn
    ensures NextPayloadSize(e', LINK) == 0
  {
    hide AwaitingUpTo;
  }

  // ------------------------------------------------------------ the other end

  /** Packet `j` is the one expected or, with a window in which it is recognised, the last one accepted. */
  ghost predicate Counts(s: System, j: nat) {
    s.right.log.received == j || (s.right.log.received == j + 1 && s.left.actual.tx >= 2)
  }

  /** The packet that was expected, or the last one accepted, makes a receiver at rest owe an ack. */
  lemma PacketCounts(s: System, j: nat) returns (r: Endpoint)
    requires SystemOk(s) && s.toRight != [] && s.toRight[0].dataIndex == Some(j) && s.toRight[0].ackCount == None
    requires !s.right.bufferFull && AtRest(s.right) && Counts(s, j)
    ensures SenderOk(r) && WakeUp.ReceiverOk(r) && r.ackTimer && r.log.ackable == j + 1
            && NextPayloadSize(r, LINK) == 0 && r.actual.tx < SN_COUNT
    ensures s.right.actual.tx < SN_COUNT
    ensures HandleRawData(s.right, s.toRight[0].bytes, PASSIVE, LINK) == SendNext(r, LINK)
  {
    hide SendNext, HandleAck, Accept, OweAck, Judge, Linked, FramesOk, FrameOk, SenderOk, TimersOk, AtRest;
    hide WakeUp.Settled, WakeUp.ReceiverOk;
    var f, rest := s.toRight[0], s.toRight[1..];
    assert s.toRight == [f] + rest;
    HeadOk(s.left, s.right, f, rest, s.toLeft);
    FrameParse(f, s.left.log);
    ShortPacket(f, s.left);
    HeadJudged(s);
    WindowsAgree(s.left, s.right, s.toRight, s.toLeft);
    WakeUp.SettledIsOpen(s.right);
    var psn: Sn := f.bytes[0] % SN_COUNT;
    ExpectedIs(s.right, psn);
    NoAnswers(s.right, psn, f.bytes[1..], 0);
    r := if j == s.right.log.received then OweAck(Accept(s.right, psn, f.bytes[1..], PASSIVE).endpoint)
    else OweAck(s.right);
    OwesAck(s.right, psn, f.bytes[1..]);
    assert forall frames: seq<Frame> :: [] + frames == frames;
  }

  /** A packet without an ack fits. */
  lemma ShortPacket(f: Frame, s: Endpoint)
    requires FrameOk(f, s.log) && f.ackCount == None && WakeUp.EndpointOk(s) && s.state == Ready
    ensures |f.bytes| <= MAX_PACKET_SIZE
  {
    hide SizesMatch, Flat, TimersOk, WakeUp.Settled, WakeUp.ReceiverOk;
  }

  /** A client that submits nothing when told of data. */
  lemma NoAnswers(e: Endpoint, psn: Sn, payload: seq<byte>, take: nat)
    requires e.actual.tx < SN_COUNT
    ensures Accept(e, psn, payload, Client([], [], take))
            == Outcome(Noted(Buffered(e, psn, payload), psn, take), [], Success)
  {
  }

  lemma ExpectedIs(r: Endpoint, psn: Sn)
    ensures Judge(r, psn) == Expected <==> psn == r.nextExpectedDataPsn
  {
  }

  lemma OwesAck(r: Endpoint, psn: Sn, payload: seq<byte>)
    requires WakeUp.EndpointOk(r) && r.state == Ready && !r.bufferFull && AtRest(r)
    ensures var r1 := OweAck(r);
            && SenderOk(r1) && WakeUp.ReceiverOk(r1) && r1.ackTimer && r1.log.ackable == r.log.ackable
            && NextPayloadSize(r1, LINK) == 0
    ensures var r2 := OweAck(Accept(r, psn, payload, PASSIVE).endpoint);
            && r2.ackTimer && r2.log.ackable == r.log.received + 1 && NextPayloadSize(r2, LINK) == 0
            && (psn == r.nextExpectedDataPsn ==> SenderOk(r2) && WakeUp.ReceiverOk(r2))
  {
    WakeUp.SettledIsOpen(r);
    WakeUp.OweAckOpen(r);
    if psn == r.nextExpectedDataPsn {
      WakeUp.AcceptOpen(r, psn, payload, PASSIVE);
      WakeUp.OweAckOpen(Accept(r, psn, payload, PASSIVE).endpoint);
    }
    hide SenderOk, TimersOk, WakeUp.CanSettle, WakeUp.ReceiverOk, NextPayloadSize, AtRest;
    SameData(r, OweAck(r));
    SameData(r, OweAck(Accept(r, psn, payload, PASSIVE).endpoint));
  }

  // ------------------------------------------------------------------ the stages

  lemma BothReady(s: System)
    requires SystemOk(s)
    ensures WakeUp.EndpointOk(s.left) && s.left.state == Ready && s.left.actual.tx < SN_COUNT && SenderOk(s.left)
    ensures s.right.actual.tx < SN_COUNT
  {
    hide Linked, FramesOk, SenderOk;
  }

  lemma RightEmits(s: System, client: Client, t: Transport)
    requires SystemOk(s) && s.toRight != []
    ensures var o := HandleRawData(s.right, s.toRight[0].bytes, client, t);
            Step(s, Move(false, Receive(client), t))
            == s.(right := o.endpoint, toRight := s.toRight[1..], toLeft := s.toLeft + o.sent,
                  byRight := s.byRight + o.sent)
  {
    hide HandleRawData, Linked, FramesOk, SenderOk;
    assert s.toRight[..0] + s.toRight[1..] == s.toRight[1..];
  }

  lemma RightLocal(s: System, event: Event, t: Transport)
    requires SystemOk(s) && InSession(event)
    ensures var o := React(s.right, event, t);
            Step(s, Move(false, Local(event), t))
            == s.(right := o.endpoint, toLeft := s.toLeft + o.sent, byRight := s.byRight + o.sent)
  {
    hide React, Linked, FramesOk, SenderOk;
  }

  lemma LeftLocal(s: System, event: Event, t: Transport)
    requires SystemOk(s) && InSession(event)
    ensures var o := React(s.left, event, t);
            Step(s, Move(true, Local(event), t))
            == s.(left := o.endpoint, toRight := s.toRight + o.sent, byLeft := s.byLeft + o.sent)
  {
    hide React, Linked, FramesOk, SenderOk;
  }

  /** The packet that counts is at the head of the channel, and nothing is on its way back. */
  ghost predicate Arriving(s: System, j: nat) {
    && SystemOk(s) && s.toRight != [] && s.toRight[0].dataIndex == Some(j) && s.toRight[0].ackCount == None
    && s.toLeft == [] && !s.right.bufferFull && AtRest(s.right)
    && Counts(s, j) && s.left.log.acked <= j < |s.left.log.fragments|
  }

  /** Its ack is the next to arrive. */
  ghost predicate Returning(s: System, j: nat) {
    && SystemOk(s) && |s.toLeft| > 0 && s.toLeft[0].ackCount == Some(j + 1)
    && |s.toLeft[0].bytes| <= MAX_PACKET_SIZE
    && s.left.log.acked <= j < |s.left.log.fragments|
  }

  lemma AckReturns(s: System, j: nat) returns (moves: seq<Move>)
    requires Arriving(s, j)
    ensures Returning(Net.Run(s, moves), j)
  {
    hide SendNext, NextFrame, SystemOk, HandleRawData, Step, NextPayloadSize, SenderOk, WakeUp.ReceiverOk, Net.Run;
    BothReady(s);
    var r := PacketCounts(s, j);
    var m := Move(false, Receive(PASSIVE), LINK);
    RightEmits(s, PASSIVE, LINK);
    OneMove(s, m);
    var s1 := Step(s, m);
    if AckDue(r) {
      moves := [m];
      AckGoesFirst(r);
      AckAlone(r);
    } else {
      SendNextTurn(r, LINK);
      var m' := Move(false, Local(AckTimerFires), LINK);
      TimerAcks(s1, j);
      OneMove(s1, m');
      RunConcat(s, [m], [m']);
      moves := [m] + [m'];
    }
  }

  /** The ack timer sends what the loop did not. */
  lemma TimerAcks(s: System, j: nat)
    requires SystemOk(s) && s.right.ackTimer && s.right.log.ackable == j + 1 && s.toLeft == []
    requires NextPayloadSize(s.right, LINK) == 0 && !AckDue(s.right)
    requires s.left.log.acked <= j < |s.left.log.fragments|
    ensures Returning(Step(s, Move(false, Local(AckTimerFires), LINK)), j)
  {
    hide SendNext, Linked, FramesOk, SenderOk, TimersOk, WakeUp.Settled, WakeUp.ReceiverOk, Step, NextFrame;
    hide NextPayloadSize;
    var e := s.right.(ackTimer := false, ackNow := true);
    RightLocal(s, AckTimerFires, LINK);
    StepOk(s, Move(false, Local(AckTimerFires), LINK));
    SameData(s.right, e);
    AckGoesFirst(e);
    AckAlone(e);
    assert React(s.right, AckTimerFires, LINK) == SendNext(e, LINK);
  }

  /** The ack of packet `j` acknowledges it. */
  lemma AckHandled(s: System, j: nat)
    requires Returning(s, j)
    ensures Step(s, Move(true, Receive(PASSIVE), LINK)).left.log.acked == j + 1
  {
    hide SendNext, HandleAck, HandlePayload, Linked, FramesOk, FrameOk, SenderOk, TimersOk, WakeUp.Settled;
    hide WakeUp.ReceiverOk;
    var f, rest := s.toLeft[0], s.toLeft[1..];
    assert s.toLeft == [f] + rest;
    LinkedSwap(s.left, s.right, s.toRight, s.toLeft);
    HeadOk(s.right, s.left, f, rest, s.toRight);
    FrameParse(f, s.right.log);
    AckMeansAccepted(s.left, s.right, f, s.toRight, rest);
    HandleAckOk(s.left, j % SN_COUNT);
    SlotFull(s.left, j);
    var e := HandleAck(s.left, j % SN_COUNT);
    SameTx(s.left, j % SN_COUNT);
    LoopKeepsCounters(e, LINK);
    var data := AfterAck(f.bytes);
    if data != [] {
      PayloadCounters(e, data, PASSIVE, LINK);
    }
  }

  lemma SameTx(e: Endpoint, psn: Sn)
    ensures HandleAck(e, psn).actual == e.actual
  {
    hide AwaitingUpTo, ClearUpTo;
  }

  /** What the stages before the timeout leave alone. */
  ghost predicate SameSituation(s: System, s': System) {
    && s'.left.actual == s.left.actual && s'.left.log.acked == s.left.log.acked
    && s.left.log.fragments <= s'.left.log.fragments && s'.right.log.received == s.right.log.received
  }

  /** Each end runs its loop once. */
  lemma BothRest(s: System) returns (moves: seq<Move>)
    requires SystemOk(s)
    ensures var s' := Net.Run(s, moves);
            SystemOk(s') && AtRest(s'.left) && AtRest(s'.right) && SameSituation(s, s')
  {
    var m, m' := Move(true, Local(ClientNotify), LINK), Move(false, Local(ClientNotify), LINK);
    LeftLocal(s, ClientNotify, LINK);
    OneMove(s, m);
    NotifyRests(s.left);
    var s1 := Step(s, m);
    RightLocal(s1, ClientNotify, LINK);
    OneMove(s1, m');
    NotifyRests(s1.right);
    RunConcat(s, [m], [m']);
    moves := [m] + [m'];
    hide SystemOk, Step, SendNext, AtRest;
  }

  lemma NotifyRests(e: Endpoint)
    requires WakeUp.EndpointOk(e) && e.state == Ready
    ensures var e' := React(e, ClientNotify, LINK).endpoint;
            && AtRest(e') && e'.actual == e.actual && e'.log.acked == e.log.acked
            && e'.log.received == e.log.received && e.log.fragments <= e'.log.fragments
  {
    WakeUp.SettledIsOpen(e);
    WakeUp.SendNextOk(e, LINK);
    LoopRests(e);
    hide SendNext, SenderOk, TimersOk, WakeUp.Settled, WakeUp.CanSettle, WakeUp.ReceiverOk, AtRest;
  }

  /** The client at the other end takes what is buffered. */
  lemma FreeBuffer(s: System) returns (moves: seq<Move>)
    requires SystemOk(s) && AtRest(s.right)
    ensures var s' := Net.Run(s, moves);
            && SystemOk(s') && s'.left == s.left && s'.toRight == s.toRight && s'.toLeft == s.toLeft
            && !s'.right.bufferFull && s'.right.log.received == s.right.log.received && AtRest(s'.right)
  {
    hide Linked, FramesOk, SenderOk, TimersOk, WakeUp.Settled, Step, AwaitingUpTo;
    var m := Move(false, Local(ClientTake(IncomingAvailable(s.right))), LINK);
    moves := [m];
    OneMove(s, m);
    RightLocal(s, ClientTake(IncomingAvailable(s.right)), LINK);
    assert s.toLeft + [] == s.toLeft;
  }

  /** Both ends are at rest, everything in transit is lost, and the other end's buffer is free. */
  ghost predicate Cleared(s: System) {
    && SystemOk(s) && AtRest(s.left) && AtRest(s.right) && !s.right.bufferFull && s.toRight == [] && s.toLeft == []
  }

  lemma Clear(s: System) returns (moves: seq<Move>)
    requires SystemOk(s)
    ensures Cleared(Net.Run(s, moves)) && SameSituation(s, Net.Run(s, moves))
  {
    hide Linked, FramesOk, SenderOk, TimersOk, WakeUp.Settled, WakeUp.ReceiverOk, AtRest, Step;
    var n := BothRest(s);
    var s0 := Net.Run(s, n);
    var a := DropToRight(s0, |s0.toRight|);
    RunConcat(s, n, a);
    var s1 := Net.Run(s0, a);
    var b := DropToLeft(s1, |s1.toLeft|);
    RunConcat(s, n + a, b);
    var s2 := Net.Run(s1, b);
    var c := FreeBuffer(s2);
    RunConcat(s, n + a + b, c);
    moves := n + a + b + c;
  }

  /** After a timeout at rest, what the sender waits for is the same, and no packet carries an ack. */
  lemma TimeoutKeeps(e: Endpoint)
    requires WakeUp.EndpointOk(e) && e.state == Ready && e.retransmitTimer && AtRest(e)
    ensures var o := React(e, RetransmitTimerFires, LINK);
            && o.endpoint.log.acked == e.log.acked && o.endpoint.actual == e.actual
            && (forall i :: 0 <= i < |o.sent| ==> o.sent[i].ackCount == None)
  {
    var e2 := RollBack(e.(retransmitTimer := false));
    assert !AckDue(e2) && e2.actual.tx < SN_COUNT;
    hide SendNext, SenderOk, TimersOk, WakeUp.Settled, WakeUp.ReceiverOk, NextPayloadSize;
    NoAckInLoop(e2, LINK);
    LoopKeepsCounters(e2, LINK);
  }

  /** A timeout, and the loss of what comes before the packet that counts. */
  lemma Resend(s: System, j: nat) returns (moves: seq<Move>)
    requires Cleared(s) && Counts(s, j) && s.left.log.acked <= j < |s.left.log.fragments|
    ensures Arriving(Net.Run(s, moves), j)
  {
    var m := Move(true, Local(RetransmitTimerFires), LINK);
    assert WakeUp.EndpointOk(s.left) && s.left.retransmitTimer;
    hide Linked, FramesOk, SenderOk, TimersOk, WakeUp.Settled, WakeUp.ReceiverOk, React, Step, AtRest;
    var p := ResentPacket(s, j);
    TimeoutKeeps(s.left);
    LeftLocal(s, RetransmitTimerFires, LINK);
    OneMove(s, m);
    var s1 := Step(s, m);
    assert s1.toRight == React(s.left, RetransmitTimerFires, LINK).sent;
    var drop := DropToRight(s1, p);
    RunConcat(s, [m], drop);
    moves := [m] + drop;
    HeadWithin(Net.Run(s1, drop), j);
  }

  lemma HeadWithin(s: System, j: nat)
    requires SystemOk(s) && s.toRight != [] && s.toRight[0].dataIndex == Some(j)
    ensures j < |s.left.log.fragments|
  {
    hide DataInOrder, AcksInOrder, Flat, WakeUp.EndpointOk, FrameBytes;
    assert FrameOk(s.toRight[0], s.left.log);
  }

  // --------------------------------------------------- a packet is unacknowledged

  /** The left end's oldest unacknowledged packet gets acknowledged. */
  ghost predicate Forward(s: System, moves: seq<Move>)
    requires SystemOk(s)
  {
    Net.Run(s, moves).left.log.acked > s.left.log.acked
  }

  lemma ReceivedWithin(s: System)
    requires SystemOk(s)
    ensures s.left.log.acked <= s.right.log.received <= |s.left.log.fragments|
  {
    hide FramesOk, DataInOrder, AcksInOrder, Flat, WakeUp.EndpointOk;
  }

  /** The ack at the head of the channel arrives. */
  lemma AckArrives(s: System, moves: seq<Move>, j: nat) returns (all: seq<Move>)
    requires SystemOk(s) && Returning(Net.Run(s, moves), j) && s.left.log.acked <= j
    ensures Forward(s, all)
  {
    hide SystemOk, Step;
    var m := Move(true, Receive(PASSIVE), LINK);
    AckHandled(Net.Run(s, moves), j);
    OneMove(Net.Run(s, moves), m);
    RunConcat(s, moves, [m]);
    all := moves + [m];
  }

  /** By a timeout, whatever has been lost or refused before, if the window is at least two or the
      oldest unacknowledged packet has not been accepted. */
  lemma ByTimeout(s: System) returns (moves: seq<Move>)
    requires SystemOk(s) && s.left.log.acked < |s.left.log.fragments|
    requires s.left.actual.tx >= 2 || s.right.log.received == s.left.log.acked
    ensures Forward(s, moves)
  {
    hide FramesOk, SenderOk, TimersOk, WakeUp.Settled, WakeUp.ReceiverOk, Step, Flow, AtRest;
    ReceivedWithin(s);
    var j := if s.right.log.received == s.left.log.acked then s.left.log.acked else s.right.log.received - 1;
    var a := Clear(s);
    var s1 := Net.Run(s, a);
    var b := Resend(s1, j);
    RunConcat(s, a, b);
    var s2 := Net.Run(s1, b);
    var c := AckReturns(s2, j);
    RunConcat(s, a + b, c);
    moves := AckArrives(s, a + b + c, j);
  }

  /** By an ack in transit that can be received. */
  lemma ByAckInTransit(s: System, i: nat) returns (moves: seq<Move>)
    requires SystemOk(s) && i < |s.toLeft| && s.toLeft[i].ackCount.Some?
    requires Short(s.toLeft[i]) && s.toLeft[i].ackCount.value > s.left.log.acked
    ensures Forward(s, moves)
  {
    hide SystemOk, Net.Run;
    AckWithinSent(s, i);
    var drop := DropToLeft(s, i);
    var j := s.toLeft[i].ackCount.value - 1;
    assert Returning(Net.Run(s, drop), j);
    moves := AckArrives(s, drop, j);
  }

  lemma AckWithinSent(s: System, i: nat)
    requires SystemOk(s) && i < |s.toLeft| && s.toLeft[i].ackCount.Some?
    ensures 1 <= s.toLeft[i].ackCount.value <= |s.left.log.fragments|
  {
    hide Flat, DataInOrder, AcksInOrder, SenderOk, FrameBytes;
    assert FrameOk(s.toLeft[i], s.right.log);
  }

  /** The packet that the loop would send with an ack can be received. */
  predicate AckFits(r: Endpoint) {
    |NextFrame(r.(ackNow := true), LINK).bytes| <= MAX_PACKET_SIZE
  }

  lemma SameFrame(r: Endpoint)
    requires AckDue(r)
    ensures NextFrame(r, LINK) == NextFrame(r.(ackNow := true), LINK)
    ensures NextFrame(r.(ackTimer := false, ackNow := true), LINK) == NextFrame(r.(ackNow := true), LINK)
  {
  }

  /** A packet on its way to the left end acknowledges all that the right end has got, and nothing
      else has changed but what the right end has sent. */
  ghost predicate Announced(s: System, s': System, i: nat) {
    && SystemOk(s') && s'.left == s.left && s'.toRight == s.toRight
    && SameCounters(s.right, s'.right) && s'.right.actual == s.right.actual
    && i < |s'.toLeft| && Short(s'.toLeft[i]) && s'.toLeft[i].ackCount == Some(s.right.log.received)
  }

  /** A local event at the right end whose first packet is such an ack. */
  lemma {:induction false} Announces(s: System, event: Event)
    requires SystemOk(s) && InSession(event)
    requires var o := React(s.right, event, LINK);
             |o.sent| > 0 && Short(o.sent[0]) && o.sent[0].ackCount == Some(s.right.log.received)
    ensures Announced(s, Net.Run(s, [Move(false, Local(event), LINK)]), |s.toLeft|)
  {
    SwapOk(s);
    BothReady(Swap(s));
    hide SystemOk, Step, React, WakeUp.EndpointOk, SenderOk;
    RightLocal(s, event, LINK);
    OneMove(s, Move(false, Local(event), LINK));
    LocalKeepsCounters(s.right, event, LINK);
    LocalKeepsWindows(s.right, event, LINK);
    assert (s.toLeft + React(s.right, event, LINK).sent)[|s.toLeft|] == React(s.right, event, LINK).sent[0];
  }

  /** By an ack that is owed, where the next packet leaves room for it. */
  lemma SpeakAtOnce(s: System) returns (moves: seq<Move>)
    requires SystemOk(s) && AckFits(s.right) && (AckDue(s.right) || s.right.ackTimer)
    ensures Announced(s, Net.Run(s, moves), |s.toLeft|)
  {
    var event := if AckDue(s.right) then ClientNotify else AckTimerFires;
    AckEmitted(s);
    hide SystemOk, React, Net.Run;
    Announces(s, event);
    moves := [Move(false, Local(event), LINK)];
  }

  lemma AckEmitted(s: System)
    requires SystemOk(s) && AckFits(s.right) && (AckDue(s.right) || s.right.ackTimer)
    ensures var o := React(s.right, if AckDue(s.right) then ClientNotify else AckTimerFires, LINK);
            |o.sent| > 0 && Short(o.sent[0]) && o.sent[0].ackCount == Some(s.right.log.received)
  {
    var r := s.right;
    hide SendNext, NextFrame, Linked, FramesOk, SenderOk, TimersOk, WakeUp.Settled, WakeUp.ReceiverOk;
    var r1 := r.(ackTimer := false, ackNow := true);
    AckGoesFirst(r1);
    SameFrame(r1);
    if AckDue(r) {
      AckGoesFirst(r);
      SameFrame(r);
    } else {
      TimerOff(r);
    }
  }

  lemma TimerOff(r: Endpoint)
    ensures NextFrame(r.(ackTimer := false, ackNow := true), LINK) == NextFrame(r.(ackNow := true), LINK)
  {
    hide AwaitingUpTo, Fetch;
  }

  /** An ack goes out with nothing that was refused before, or with a fragment that leaves room for it. */
  lemma {:induction false} FitsWithAck(r: Endpoint)
    requires SenderOk(r) && (r.log.next < |r.log.fragments| ==> |r.log.fragments[r.log.next]| < MAX_PACKET_SIZE - 1)
    ensures AckFits(r)
  {
    hide SizesMatch, FragmentSizes, Flat, NextPayloadSize, NextFrame;
    var r1 := r.(ackNow := true);
    Sizes.FrameSize(r1, LINK);
    if NextPayloadSize(r1, LINK) > 0 {
      Sizes.PayloadLength(r1, LINK);
      if r1.log.next == |r1.log.fragments| {
        FreshBytes(r1, LINK);
      }
    }
  }

  /** With no ack due the loop leaves the ack timer alone. */
  lemma {:induction false} TimerStays(e: Endpoint)
    requires e.actual.tx < SN_COUNT && !AckDue(e)
    ensures SendNext(e, LINK).endpoint.ackTimer == e.ackTimer
    decreases WindowLeft(e), AckDue(e)
  {
    SendNextTurn(e, LINK);
    hide SendNext, NextFrame;
    if SomethingToSend(e, LINK) {
      SendProgress(e, LINK);
      TimerStays(AfterSending(e, LINK));
    }
  }

  lemma Catches(r: Endpoint)
    requires WakeUp.EndpointOk(r) && r.state == Ready && !AckDue(r) && r.log.acked <= r.log.next
    ensures var r' := React(r, ClientNotify, LINK).endpoint;
            r'.ackTimer == r.ackTimer && AckFits(r') && SameCounters(r, r') && r'.actual == r.actual
  {
    hide SendNext, SenderOk, TimersOk, WakeUp.Settled, WakeUp.ReceiverOk, AckFits, AckDue, WakeUp.CanSettle;
    WakeUp.SettledIsOpen(r);
    WakeUp.SendNextOk(r, LINK);
    TimerStays(r);
    LoopKeepsCounters(r, LINK);
    LoopSendsAll(r, LINK);
    FitsWithAck(SendNext(r, LINK).endpoint);
  }

  /** First by sending without it what was to be resent. */
  lemma SpeakCaughtUp(s: System) returns (moves: seq<Move>, i: nat)
    requires SystemOk(s) && s.right.log.acked <= s.right.log.next && !AckDue(s.right) && s.right.ackTimer
    ensures Announced(s, Net.Run(s, moves), i)
  {
    var m := Move(false, Local(ClientNotify), LINK);
    SwapOk(s);
    BothReady(Swap(s));
    hide SystemOk, Step, React, AckFits, AckDue, WakeUp.EndpointOk, SenderOk;
    RightLocal(s, ClientNotify, LINK);
    OneMove(s, m);
    Catches(s.right);
    var s1 := Step(s, m);
    var more := SpeakAtOnce(s1);
    RunConcat(s, [m], more);
    moves, i := [m] + more, |s1.toLeft|;
  }

  lemma RolledBackFits(r: Endpoint)
    requires SenderOk(r) && AckDue(r) && r.log.acked < |r.log.fragments|
    requires |r.log.fragments[r.log.acked]| < MAX_PACKET_SIZE - 1
    ensures var r1 := RollBack(r.(retransmitTimer := false));
            |NextFrame(r1, LINK).bytes| <= MAX_PACKET_SIZE && AckDue(r1) && r1.log.ackable == r.log.ackable
  {
    hide SizesMatch, FragmentSizes, Flat, NextPayloadSize, NextFrame, AwaitingUpTo;
    var r1 := RollBack(r.(retransmitTimer := false));
    WakeUp.RollBackResends(r.(retransmitTimer := false), LINK);
    Sizes.FrameSize(r1, LINK);
  }

  lemma TimeoutAcks(s: System)
    requires SystemOk(s) && AckDue(s.right) && s.right.log.acked < |s.right.log.fragments|
    requires |s.right.log.fragments[s.right.log.acked]| < MAX_PACKET_SIZE - 1
    ensures var o := React(s.right, RetransmitTimerFires, LINK);
            |o.sent| > 0 && Short(o.sent[0]) && o.sent[0].ackCount == Some(s.right.log.received)
  {
    hide SendNext, NextFrame, Linked, FramesOk, SenderOk, WakeUp.Settled, WakeUp.ReceiverOk, AckDue;
    var r1 := RollBack(s.right.(retransmitTimer := false));
    RolledBackFits(s.right);
    AckGoesFirst(r1);
  }

  lemma {:induction false} AckTooLong(r: Endpoint)
    requires SenderOk(r) && !AckFits(r)
    ensures r.log.acked <= r.log.next < |r.log.fragments| && |r.log.fragments[r.log.next]| == MAX_PACKET_SIZE - 1
    ensures |r.log.fragments[r.log.acked]| < MAX_PACKET_SIZE
  {
    hide Flat, SizesMatch, NextPayloadSize, NextFrame;
    var r1 := r.(ackNow := true);
    if r.log.next == |r.log.fragments| || |r.log.fragments[r.log.next]| < MAX_PACKET_SIZE - 1 {
      FitsWithAck(r);
    } else {
      Sizes.FrameSize(r1, LINK);
      if NextPayloadSize(r1, LINK) > 0 {
        SendingIsInWindow(r1, LINK);
      }
    }
  }

  lemma NotSilent(e: Endpoint)
    requires WakeUp.EndpointOk(e) && e.state == Ready && !Quiet(e)
    ensures AckDue(e) || e.ackTimer
  {
    hide SenderOk;
  }

  /** An end that is not silent gets an ack of all it has got on its way: at once, or after resending
      something without it, or by a timeout whose first packet leaves room for it. */
  lemma Speak(s: System) returns (moves: seq<Move>, i: nat)
    requires SystemOk(s) && !Silent(s.right)
    ensures Announced(s, Net.Run(s, moves), i)
  {
    SwapOk(s);
    BothReady(Swap(s));
    hide SystemOk, SenderOk, AckFits, AckDue, WakeUp.EndpointOk, Quiet, React, Net.Run;
    var r := s.right;
    NotSilent(r);
    if AckFits(r) {
      moves := SpeakAtOnce(s);
      i := |s.toLeft|;
    } else {
      AckTooLong(r);
      if AckDue(r) {
        TimeoutAcks(s);
        Announces(s, RetransmitTimerFires);
        moves, i := [Move(false, Local(RetransmitTimerFires), LINK)], |s.toLeft|;
      } else {
        moves, i := SpeakCaughtUp(s);
      }
    }
  }

  /** By an ack that the other end is to send and can. */
  lemma ByAckOwed(s: System) returns (moves: seq<Move>)
    requires SystemOk(s) && s.left.log.acked < s.right.log.received && !Silent(s.right)
    ensures Forward(s, moves)
  {
    hide SystemOk, Silent, Net.Run;
    var a, i := Speak(s);
    var b := ByAckInTransit(Net.Run(s, a), i);
    RunConcat(s, a, b);
    moves := a + b;
  }

  // ------------------------------------------------------- a refused timeout

  /** A transport that refuses every send. */
  const BLOCKED := Transport(20, Some(0))

  /** A retransmission that the transport refuses leaves the packets to be resent. */
  lemma RefusedTimeout(e: Endpoint, t: Transport)
    requires WakeUp.EndpointOk(e) && e.state == Ready && e.retransmitTimer && e.log.acked < |e.log.fragments|
    requires t.Refuses()
    ensures var o := React(e, RetransmitTimerFires, t);
            && o == Outcome(RollBack(e).(log := RollBack(e).log.(refused := true)), [], Success)
            && WakeUp.EndpointOk(o.endpoint)
  {
    var e1 := RollBack(e.(retransmitTimer := false));
    WakeUp.ReactOk(e, RetransmitTimerFires, t);
    SendNextTurn(e1, t);
    hide SendNext, SenderOk, TimersOk, WakeUp.Settled, WakeUp.ReceiverOk, NextPayloadSize;
    WakeUp.RollBackResends(e, t);
  }

  // ------------------------------------------------------ all is acknowledged

  /** With nothing outstanding and nothing to resend, whatever is submitted goes out. */
  lemma {:induction false} SubmittedGoesOut(e: Endpoint)
    requires SenderOk(e) && e.log.next == |e.log.fragments| && e.actual.tx >= 1
    ensures |SendNext(Given(e, [7]), LINK).endpoint.log.fragments| > e.log.acked
  {
    var e1 := Given(e, [7]);
    SendNextTurn(e1, LINK);
    FragmentsGrow(e1, LINK);
    if e.log.acked == |e.log.fragments| {
      FirstOfAll(e);
      hide SendNext, NextFrame, NextPayloadSize;
      FragmentsGrow(AfterSending(e1, LINK), LINK);
    }
  }

  lemma FirstOfAll(e: Endpoint)
    requires SenderOk(e) && e.log.acked == e.log.next == |e.log.fragments| && e.actual.tx >= 1
    ensures var e1 := Given(e, [7]);
            NextPayloadSize(e1, LINK) > 0 && e1.payloadSizes[e1.nextDataSn] == 0
  {
    hide Flat;
    assert e.payloadSizes[e.log.next % SN_COUNT] == 0;
  }

  /** A sender with nothing unacknowledged that is not stalled can be given something to send. */
  lemma Restart(s: System) returns (moves: seq<Move>)
    requires SystemOk(s) && s.left.log.acked == |s.left.log.fragments| && !Stalled(s.left) && s.left.actual.tx >= 1
    ensures var s' := Net.Run(s, moves);
            && SystemOk(s') && s'.right == s.right && s'.left.actual == s.left.actual
            && s'.left.log.acked == s.left.log.acked < |s'.left.log.fragments|
  {
    hide SystemOk, Step, React, SenderOk, Stalled;
    var a := NothingToResend(s);
    var s1 := Net.Run(s, a);
    var m := Move(true, Local(ClientSubmit([7])), LINK);
    BothReady(s1);
    LeftLocal(s1, ClientSubmit([7]), LINK);
    OneMove(s1, m);
    SubmitNumbers(s1.left);
    RunConcat(s, a, [m]);
    moves := a + [m];
  }

  lemma SubmitNumbers(e: Endpoint)
    requires SenderOk(e) && e.state == Ready && e.log.next == |e.log.fragments| && 1 <= e.actual.tx < SN_COUNT
    ensures var e' := React(e, ClientSubmit([7]), LINK).endpoint;
            e'.log.acked == e.log.acked < |e'.log.fragments| && e'.actual == e.actual
  {
    hide SendNext, SenderOk;
    SubmittedGoesOut(e);
    LocalKeepsCounters(e, ClientSubmit([7]), LINK);
    LocalKeepsWindows(e, ClientSubmit([7]), LINK);
  }

  lemma TimeoutSettles(e: Endpoint)
    requires WakeUp.EndpointOk(e) && e.state == Ready && e.retransmitTimer
    ensures var e' := React(e, RetransmitTimerFires, LINK).endpoint;
            e'.log.acked == e.log.acked && e'.log.next == |e'.log.fragments| && e'.actual == e.actual
  {
    hide SendNext, SenderOk, TimersOk, WakeUp.Settled, WakeUp.ReceiverOk, SameLink;
    LocalKeeps(e, []);
    LoopSendsAll(RollBack(e.(retransmitTimer := false)), LINK);
    LocalKeepsCounters(e, RetransmitTimerFires, LINK);
    LocalKeepsWindows(e, RetransmitTimerFires, LINK);
  }

  lemma NotStalled(e: Endpoint)
    requires e.state == Ready && SenderOk(e) && e.log.acked == |e.log.fragments| && !Stalled(e)
    ensures e.log.next == |e.log.fragments| || e.retransmitTimer
  {
    hide Flat, SizesMatch, FragmentSizes;
  }

  lemma NothingToResend(s: System) returns (moves: seq<Move>)
    requires SystemOk(s) && s.left.log.acked == |s.left.log.fragments| && !Stalled(s.left)
    ensures var s' := Net.Run(s, moves);
            && SystemOk(s') && s'.right == s.right && s'.left.actual == s.left.actual
            && s'.left.log.acked == s.left.log.acked && s'.left.log.next == |s'.left.log.fragments|
  {
    hide SystemOk, Step, React, SenderOk, Stalled, WakeUp.EndpointOk;
    BothReady(s);
    NotStalled(s.left);
    if s.left.log.next == |s.left.log.fragments| {
      moves := [];
    } else {
      moves := [Move(true, Local(RetransmitTimerFires), LINK)];
      LeftLocal(s, RetransmitTimerFires, LINK);
      OneMove(s, moves[0]);
      TimeoutSettles(s.left);
    }
  }
}

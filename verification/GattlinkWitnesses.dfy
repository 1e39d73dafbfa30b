/** Concrete runs that lead to the states in which the protocol fails its purpose. */
module GattlinkWitnesses {
  import opened Common
  import opened GattlinkEndpoint
  import opened GattlinkSender
  import WakeUp = GattlinkWakeUp
  import opened GattlinkLimits
  import opened GattlinkDeadlock
  import opened Net = GattlinkNetwork
  import Sizes = GattlinkSizes
  import opened GattlinkChoked
  import opened Progress = GattlinkProgress
  import opened Theorems = GattlinkTheorems

  /** The system after the first `k` of these moves. */
  function After(s: System, moves: seq<Move>, k: nat): System
    requires SystemOk(s) && k <= |moves|
  {
    Net.Run(s, moves[..k])
  }

  lemma {:induction false} Begin(s: System, moves: seq<Move>)
    requires SystemOk(s)
    ensures After(s, moves, 0) == s && After(s, moves, |moves|) == Net.Run(s, moves)
  {
    hide SystemOk;
    assert moves[..|moves|] == moves;
  }

  lemma {:induction false} Next(s: System, moves: seq<Move>, k: nat)
    requires SystemOk(s) && k < |moves|
    ensures SystemOk(After(s, moves, k)) && SystemOk(After(s, moves, k + 1))
    ensures After(s, moves, k + 1) == Step(After(s, moves, k), moves[k])
  {
    hide Linked, FramesOk, SenderOk, Step;
    Net.RunOk(s, moves[..k]);
    Progress.RunConcat(s, moves[..k], [moves[k]]);
    Progress.OneMove(Net.Run(s, moves[..k]), moves[k]);
    assert moves[..k + 1] == moves[..k] + [moves[k]];
  }

  // -------------------------------------------------------- the first packet

  /** A size table with at most the first slot in use. */
  function Slots(first: nat): SizeTable {
    seq(SN_COUNT, i => if i == 0 then first else 0)
  }

  /** A session in which nothing has been submitted and no ack is due. */
  predicate Unsent(e: Endpoint) {
    && e.state == Ready && e.outgoing == [] && e.payloadSizes == Slots(0) && !AckDue(e)
    && e.nextExpectedAckSn == 0 && e.nextDataSn == 0 && e.log.next == 0 && e.log.fragments == []
        && e.log.submitted == []
  }

  lemma FreshUnsent(desired: Windows, actual: Windows)
    ensures Unsent(FreshSession(desired, actual, []))
  {
    assert FreshSession(desired, actual, []).payloadSizes == Slots(0);
  }

  /** The same session after its first packet. */
  function Sent(e: Endpoint, d: seq<byte>): Endpoint {
    e.(outgoing := d, retransmitTimer := true, payloadSizes := Slots(|d|), nextDataSn := 1,
       log := e.log.(next := 1, fragments := [d], submitted := d))
  }

  lemma FirstSize(e: Endpoint, d: seq<byte>, t: Transport)
    requires Unsent(e) && 1 <= e.actual.tx < SN_COUNT && 0 < |d| < Min(t.maxPacketSize, MAX_PACKET_SIZE)
    ensures NextPayloadSize(Given(e, d), t) == |d| && AwaitingUpTo(Slots(0), 0, 0) == 0
  {
    assert Given(e, d).outgoing == d;
  }

  lemma FirstFrame(e: Endpoint, d: seq<byte>, t: Transport)
    requires Unsent(e) && 1 <= e.actual.tx < SN_COUNT && 0 < |d| < Min(t.maxPacketSize, MAX_PACKET_SIZE)
    ensures NextFrame(Given(e, d), t) == Frame([0] + d, Some(0), None) && SomethingToSend(Given(e, d), t)
  {
    FirstSize(e, d, t);
    hide NextPayloadSize, AwaitingUpTo, Slots;
    assert Given(e, d).outgoing == d;
    assert Fetch(d, 0, |d|) == d by {
      assert d[0..|d|] == d;
    }
  }

  lemma FirstBooked(e: Endpoint, d: seq<byte>, t: Transport)
    requires Unsent(e) && 1 <= e.actual.tx < SN_COUNT && 0 < |d| < Min(t.maxPacketSize, MAX_PACKET_SIZE)
    ensures AfterSending(Given(e, d), t) == Sent(e, d)
  {
    FirstSize(e, d, t);
    FirstFrame(e, d, t);
    assert Slots(0)[0 := |d|] == Slots(|d|) && Slots(0)[0] == 0;
    hide NextPayloadSize, NextFrame, Slots;
    assert Given(e, d).outgoing == d && Given(e, d).log.submitted == d;
    assert ([0] + d)[1..] == d && [] + [d] == [d];
  }

  lemma NothingMore(e: Endpoint, d: seq<byte>, t: Transport)
    requires Unsent(e) && 1 <= e.actual.tx < SN_COUNT && |d| > 0
    ensures !SomethingToSend(Sent(e, d), t)
  {
    var sizes := Slots(|d|);
    assert AwaitingUpTo(sizes, 1, 1) == 0 && AwaitingUpTo(sizes, 0, 1) == |d|;
    hide AwaitingUpTo;
  }

  /** Data that fits into one packet is sent in one, which is numbered 0. */
  lemma {:induction false} FirstPacket(e: Endpoint, d: seq<byte>, t: Transport)
    requires Unsent(e) && 1 <= e.actual.tx < SN_COUNT && 0 < |d| < Min(t.maxPacketSize, MAX_PACKET_SIZE)
    requires t.refuseAfter == None
    ensures SendNext(Given(e, d), t) == Outcome(Sent(e, d), [Frame([0] + d, Some(0), None)], Success)
  {
    FirstFrame(e, d, t);
    FirstBooked(e, d, t);
    NothingMore(e, d, t);
    SendNextTurn(Given(e, d), t);
    SendNextTurn(Sent(e, d), t);
    hide SendNext, AfterSending, NextFrame, SomethingToSend, Given, Sent;
  }

  /** With nothing to send but an ack that is due, the loop sends that and is quiet. */
  lemma {:induction false} AckOnly(e: Endpoint, t: Transport)
    requires e.actual.tx < SN_COUNT && e.outgoing == [] && AckDue(e) && t.refuseAfter == None
    ensures var o := SendNext(e, t);
            && o.sent == [Frame([WITH_ACK + e.psnToAckWith], None, Some(e.log.ackable))]
            && Quiet(o.endpoint) && o.endpoint.log.received == e.log.received
  {
    SendNextTurn(e, t);
    SendNextTurn(AfterSending(e, t), t);
    hide SendNext, AwaitingUpTo;
    assert t.AfterSend() == t;
    assert NextFrame(e, t).bytes == [WITH_ACK + e.psnToAckWith];
    assert SendNext(AfterSending(e, t), t).sent == [];
  }

  // ------------------------------------------------------ a refused retransmission

  lemma FreshOk(windows: Windows)
    requires windows.tx <= MAX_WINDOW
    ensures WakeUp.EndpointOk(FreshSession(windows, windows, []))
  {
    assert EMPTY_LOG.fragments[..0] == [] && EMPTY_LOG.fragments[0..] == [];
  }

  lemma SubmitFirst(e: Endpoint, d: seq<byte>, t: Transport)
    requires Unsent(e) && WakeUp.EndpointOk(e) && e.actual.tx >= 1 && 0 < |d| < Min(t.maxPacketSize, MAX_PACKET_SIZE)
    requires t.refuseAfter == None
    ensures React(e, ClientSubmit(d), t) == Outcome(Sent(e, d), [Frame([0] + d, Some(0), None)], Success)
    ensures WakeUp.EndpointOk(Sent(e, d))
  {
    hide SendNext, SenderOk, TimersOk, WakeUp.Settled, WakeUp.ReceiverOk, Given, Sent;
    FirstPacket(e, d, t);
    WakeUp.ReactOk(e, ClientSubmit(d), t);
  }

  /** One byte is sent and accepted, its retransmission is refused, and then its ack arrives. */
  function RefusedResend(): seq<Move> {
    [Move(true, Local(ClientSubmit([7])), LINK), Move(false, Receive(TAKER), LINK),
     Move(false, Local(AckTimerFires), LINK), Move(true, Local(RetransmitTimerFires), BLOCKED),
     Move(true, Receive(PASSIVE), LINK)]
  }

  const DATA := Frame([0, 7], Some(0), None)
  const ACK := Frame([WITH_ACK], None, Some(1))

  /** The first packet is acknowledged at once or, with a larger window, by the ack timer. */
  lemma AckedInTime(r: Endpoint)
    requires Unsent(r) && r.actual.tx < SN_COUNT && !r.bufferFull && r.outstanding == 0
    requires r.nextExpectedDataPsn == 0 && r.log.received == 0
    ensures var o := HandleRawData(r, [0, 7], TAKER, LINK);
            o.endpoint.actual == r.actual && o.sent + React(o.endpoint, AckTimerFires, LINK).sent == [ACK]
  {
    hide Accept, OweAck, HandleRawData, SendNext;
    ByteAccepted(r, 7, LINK);
    var r1 := OweAck(Accept(r, 0, [7], TAKER).endpoint);
    ByteFields(r);
    SendNextTurn(r1, LINK);
    if AckDue(r1) {
      AckOnly(r1, LINK);
    } else {
      NothingElse(r1);
      AckOnly(r1.(ackTimer := false, ackNow := true), LINK);
    }
  }

  /** A fresh end after its first packet. */
  lemma ByteFields(r: Endpoint)
    requires r.actual.tx < SN_COUNT
    ensures var r1 := OweAck(Accept(r, 0, [7], TAKER).endpoint);
            && r1.outgoing == r.outgoing && r1.psnToAckWith == 0 && r1.ackTimer && r1.log.ackOwed
            && r1.log.ackable == r1.log.received == r.log.received + 1 && r1.log.fragments == r.log.fragments
            && r1.log.acked == r.log.acked && r1.log.next == r.log.next && r1.ackNow == r.ackNow
            && r1.outstanding == (r.outstanding + 1) % 256 && r1.retransmitTimer == r.retransmitTimer
  {
    Progress.NoAnswers(r, 0, [7], 1);
  }

  lemma NothingElse(e: Endpoint)
    requires e.outgoing == [] && !AckDue(e)
    ensures !SomethingToSend(e, LINK)
  {
  }

  /** With any window a refused retransmission, followed by the ack of the packet, stalls the sender. */
  lemma StallReached(left: Windows, right: Windows)
    requires Bounded(left, right) && Negotiate(left, right).tx >= 1
    ensures Stalled(Reached(left, right, RefusedResend()).left)
  {
    hide SystemOk, Step, Stalled, After;
    var s, m := Connected(left, right), RefusedResend();
    ConnectedOk(left, right);
    Begin(s, m);
    ByteAcked(left, right);
    Next(s, m, 3);
    Next(s, m, 4);
    ResendRefused(After(s, m, 3));
    AckStalls(After(s, m, 4));
  }

  /** The byte has been sent and its ack is on its way. */
  lemma ByteAcked(left: Windows, right: Windows)
    requires Bounded(left, right) && Negotiate(left, right).tx >= 1
    ensures var s := Connected(left, right);
            SystemOk(s) && After(s, RefusedResend(), 3).left == Sent(s.left, [7])
            && After(s, RefusedResend(), 3).toLeft == [ACK]
  {
    hide SystemOk, Step, React, HandleRawData, Sent, Unsent, After;
    var s, m := Connected(left, right), RefusedResend();
    ByteSubmitted(left, right);
    Begin(s, m);
    Next(s, m, 0);
    Next(s, m, 1);
    Next(s, m, 2);
    var s1, s2 := After(s, m, 1), After(s, m, 2);
    FreshUnsent(right, Negotiate(right, left));
    AckedInTime(s1.right);
    Progress.RightEmits(s1, TAKER, LINK);
    Progress.RightLocal(s2, AckTimerFires, LINK);
  }

  lemma ResendRefused(s: System)
    requires SystemOk(s) && s.left.log.acked == 0 && |s.left.log.fragments| == 1
    ensures var s' := Step(s, Move(true, Local(RetransmitTimerFires), BLOCKED));
            && s'.toLeft == s.toLeft && s'.left.log.acked == s'.left.log.next == 0
            && s'.left.log.fragments == s.left.log.fragments
  {
    Progress.BothReady(s);
    assert s.left.retransmitTimer;
    hide SystemOk, Step, React, SenderOk, WakeUp.EndpointOk;
    Progress.LeftLocal(s, RetransmitTimerFires, BLOCKED);
    RefusedTimeout(s.left, BLOCKED);
  }

  lemma SentFields(e: Endpoint, d: seq<byte>)
    ensures var e' := Sent(e, d);
            e'.log.acked == e.log.acked && e'.log.fragments == [d] && e'.retransmitTimer && e'.actual == e.actual
            && e'.state == e.state
  {
  }

  lemma AckStalls(s: System)
    requires SystemOk(s) && s.toLeft == [ACK] && s.left.log.acked == s.left.log.next == 0 && |s.left.log.fragments| == 1
    ensures Stalled(Step(s, Move(true, Receive(PASSIVE), LINK)).left)
  {
    hide SenderOk, Linked, FramesOk, HandleAck, SendNext, Stalled, TimersOk, WakeUp.Settled, WakeUp.ReceiverOk;
    var e := s.left;
    AckOfAllStalls(e);
    StalledLoop(HandleAck(e, 0), LINK);
    StalledTx(HandleAck(e, 0));
    SlotFull(e, 0);
    assert HasAck([WITH_ACK]) && [WITH_ACK][1..] == [];
    assert forall frames: seq<Frame> :: [] + frames == frames;
  }

  // ------------------------------------------------------------- a lost wake-up

  /** A byte arrives, its ack timer fires while the transport refuses to send, and an ack is owed with
      no timer armed. */
  lemma WakeUpLost(windows: Windows)
    requires windows.tx <= MAX_WINDOW
    ensures var e := FreshSession(windows, windows, []);
            var e1 := React(e, RawData([0, 7], TAKER), BLOCKED).endpoint;
            e1.actual.tx < SN_COUNT &&
            var e2 := React(e1, AckTimerFires, BLOCKED).endpoint;
            WakeUp.EndpointOk(e2) && WakeUp.Unarmed(e2) && !e2.retransmitTimer
  {
    hide SendNext, Accept, OweAck, WakeUp.EndpointOk, HandleRawData;
    var e := FreshSession(windows, windows, []);
    FreshOk(windows);
    WakeUp.ReactOk(e, RawData([0, 7], TAKER), BLOCKED);
    ByteAccepted(e, 7, BLOCKED);
    ByteFields(e);
    BlockedKeeps(OweAck(Accept(e, 0, [7], TAKER).endpoint));
    AckTimerBlocked(React(e, RawData([0, 7], TAKER), BLOCKED).endpoint);
  }

  lemma AckTimerBlocked(e: Endpoint)
    requires WakeUp.EndpointOk(e) && e.state == Ready && e.ackTimer && e.log.ackOwed
    requires e.outgoing == [] && !e.retransmitTimer
    ensures var e' := React(e, AckTimerFires, BLOCKED).endpoint;
            e.actual.tx < SN_COUNT && WakeUp.EndpointOk(e') && WakeUp.Unarmed(e') && !e'.retransmitTimer
  {
    hide SendNext, SenderOk, TimersOk, WakeUp.Settled, WakeUp.ReceiverOk;
    WakeUp.ReactOk(e, AckTimerFires, BLOCKED);
    WakeUp.AckTimerLoses(e, BLOCKED);
    BlockedKeeps(e.(ackTimer := false, ackNow := true));
  }

  /** With nothing submitted, a transport that refuses everything changes nothing but the history. */
  lemma {:induction false} BlockedKeeps(e: Endpoint)
    requires e.actual.tx < SN_COUNT && e.outgoing == []
    ensures var e' := SendNext(e, BLOCKED).endpoint;
            e' == e || e' == e.(log := e.log.(refused := true))
  {
    SendNextTurn(e, BLOCKED);
    hide SendNext;
  }

  // --------------------------------------------------------- a packet too long

  const WIDE := Transport(MAX_PACKET_SIZE, None)
  const WIDE_BLOCKED := Transport(MAX_PACKET_SIZE, Some(0))

  /** A fresh end accepts its first packet. */
  lemma {:induction false} ByteAccepted(e: Endpoint, b: byte, t: Transport)
    requires e.state == Ready && e.actual.tx < SN_COUNT && !e.bufferFull && e.nextExpectedDataPsn == 0
    ensures HandleRawData(e, [0, b], TAKER, t) == SendNext(OweAck(Accept(e, 0, [b], TAKER).endpoint), t)
  {
    Progress.NoAnswers(e, 0, [b], 1);
    hide SendNext, Accept, OweAck;
    assert !HasAck([0, b]) && [0, b][1..] == [b];
    assert forall frames: seq<Frame> :: [] + frames == frames;
  }

  /** With a receive window of at least two it owes the ack. */
  lemma ByteOwed(windows: Windows)
    requires windows.tx <= MAX_WINDOW && windows.rx >= 2
    ensures var e := React(FreshSession(windows, windows, []), RawData([0, 9], TAKER), WIDE).endpoint;
            Unsent(e) && e.ackTimer && e.actual == windows && WakeUp.EndpointOk(e) && e.log.acked == 0
  {
    var e := FreshSession(windows, windows, []);
    FreshUnsent(windows, windows);
    FreshOk(windows);
    WakeUp.ReactOk(e, RawData([0, 9], TAKER), WIDE);
    ByteAccepted(e, 9, WIDE);
    hide SendNext, Accept, OweAck, Unsent, HandleRawData, WakeUp.EndpointOk;
    OwingUnsent(e, 0, [9], TAKER);
    SendNextTurn(OweAck(Accept(e, 0, [9], TAKER).endpoint), WIDE);
  }

  lemma OwingUnsent(e: Endpoint, psn: Sn, payload: seq<byte>, client: Client)
    requires Unsent(e) && e.actual.tx < SN_COUNT && client.answers == [] && e.actual.rx >= 2 && e.outstanding == 0
    ensures var e' := OweAck(Accept(e, psn, payload, client).endpoint);
            && Unsent(e') && e'.ackTimer && e'.actual == e.actual && e'.log.acked == e.log.acked
            && !SomethingToSend(e', WIDE)
  {
    hide Slots, AwaitingUpTo;
  }

  /** The retransmission of a fragment of the largest size, put off by a refusal until an ack is due
      as well, is one byte longer than any packet may be. No receiver takes it. */
  lemma TooLongReached(windows: Windows, d: seq<byte>, r: Endpoint, client: Client, t: Transport)
    requires 1 <= windows.tx <= MAX_WINDOW && windows.rx >= 2 && |d| == MAX_PACKET_SIZE - 1
    requires r.actual.tx < SN_COUNT
    ensures var e1 := React(FreshSession(windows, windows, []), RawData([0, 9], TAKER), WIDE).endpoint;
            e1.actual.tx < SN_COUNT &&
            var e2 := React(e1, ClientSubmit(d), WIDE).endpoint;
            e2.actual.tx < SN_COUNT &&
            var e3 := React(e2, RetransmitTimerFires, WIDE_BLOCKED).endpoint;
            e3.actual.tx < SN_COUNT &&
            var sent := React(e3, AckTimerFires, WIDE).sent;
            && |sent| > 0 && |sent[0].bytes| == MAX_PACKET_SIZE + 1
            && HandleDataPacket(r, sent[0].bytes, client, t) == Outcome(r, [], InvalidParameters)
  {
    ByteOwed(windows);
    var e1 := React(FreshSession(windows, windows, []), RawData([0, 9], TAKER), WIDE).endpoint;
    SubmitFirst(e1, d, WIDE);
    var e2 := Sent(e1, d);
    assert e2.log.acked == 0 && e2.log.fragments == [d] && e2.retransmitTimer && e2.ackTimer && e2.state == Ready;
    assert e2.actual == windows;
    hide SendNext, SenderOk, React, FreshSession, Sent, Unsent, HandleDataPacket;
    RefusedTimeout(e2, WIDE_BLOCKED);
    var e3 := React(e2, RetransmitTimerFires, WIDE_BLOCKED).endpoint;
    assert e3.actual == windows && e3.state == Ready && e3.log.next == 0;
    AckedResend(e3, d);
    Sizes.TooLongRefused(r, React(e3, AckTimerFires, WIDE).sent[0].bytes, client, t);
  }

  lemma AckedResend(e: Endpoint, d: seq<byte>)
    requires WakeUp.EndpointOk(e) && e.state == Ready && e.ackTimer && e.actual.tx >= 1
    requires e.log.fragments == [d] && e.log.next == 0 == e.log.acked && |d| == MAX_PACKET_SIZE - 1
    ensures var sent := React(e, AckTimerFires, WIDE).sent;
            |sent| > 0 && |sent[0].bytes| == MAX_PACKET_SIZE + 1
  {
    hide SendNext, SenderOk, NextFrame, NextPayloadSize, AfterSending, TimersOk, WakeUp.Settled, WakeUp.ReceiverOk;
    var e1 := e.(ackTimer := false, ackNow := true);
    LocalKeeps(e, []);
    SendNextTurn(e1, WIDE);
    NothingRolledBack(e1);
    WakeUp.RollBackResends(e1, WIDE);
    Sizes.FrameSize(e1, WIDE);
  }

  // ------------------------------------------------------- the lost ack deadlock

  /** One byte is sent and accepted; its ack is lost. */
  function LostAck(): seq<Move> {
    [Move(true, Local(ClientSubmit([7])), LINK), Move(false, Receive(TAKER), LINK), Move(true, Lose(0), LINK)]
  }

  lemma ByteSubmitted(left: Windows, right: Windows)
    requires Bounded(left, right) && Negotiate(left, right).tx >= 1
    ensures var s := Connected(left, right);
            SystemOk(s) &&
            Step(s, LostAck()[0]) == s.(left := Sent(s.left, [7]), toRight := [DATA], byLeft := [DATA])
  {
    hide React, Sent, Unsent, SystemOk, Step, WakeUp.EndpointOk;
    ConnectedOk(left, right);
    FreshEnds(left, right);
    var s := Connected(left, right);
    FreshUnsent(left, Negotiate(left, right));
    SubmitFirst(s.left, [7], LINK);
    LeftLocal(s, ClientSubmit([7]), LINK);
    assert [0] + [7] == [0, 7] && [] + [DATA] == [DATA];
  }

  /** With a receive window of one, a fresh end acknowledges its first packet at once. */
  lemma ByteAcknowledged(r: Endpoint)
    requires r.state == Ready && r.actual.tx < SN_COUNT && r.actual.rx == 1 && r.outgoing == [] && !r.bufferFull
    requires r.nextExpectedDataPsn == 0 && r.outstanding == 0
    ensures var o := HandleRawData(r, [0, 7], TAKER, LINK);
            |o.sent| == 1 && Quiet(o.endpoint) && o.endpoint.log.received == r.log.received + 1
  {
    hide SendNext, HandleRawData, Accept, OweAck;
    ByteAccepted(r, 7, LINK);
    ByteFields(r);
    AckOnly(OweAck(Accept(r, 0, [7], TAKER).endpoint), LINK);
  }

  /** With a window of one, losing a single ack deadlocks the session. */
  lemma DeadlockReached(left: Windows, right: Windows)
    requires Bounded(left, right) && Negotiate(left, right).tx == 1
    ensures Deadlocked(Reached(left, right, LostAck()))
  {
    hide SystemOk, Step, HandleRawData, Sent, Unsent, After;
    var s, m := Connected(left, right), LostAck();
    ByteSubmitted(left, right);
    Begin(s, m);
    Next(s, m, 0);
    Next(s, m, 1);
    Next(s, m, 2);
    var s1, s2 := After(s, m, 1), After(s, m, 2);
    SentFields(s.left, [7]);
    Progress.RightEmits(s1, TAKER, LINK);
    ByteAcknowledged(s1.right);
    Progress.LoseOneLeft(s2);
    assert After(s, m, 3).toLeft == [];
  }

  // ------------------------------------------------ an ack that cannot get through

  /** A packet of the largest size is lost, its retransmission refused, and so is the ack of the byte
      that then arrives. */
  function RefusedAck(d: seq<byte>): seq<Move> {
    [Move(false, Local(ClientSubmit(d)), WIDE), Move(true, Lose(0), LINK),
     Move(false, Local(RetransmitTimerFires), WIDE_BLOCKED), Move(true, Local(ClientSubmit([7])), LINK),
     Move(false, Receive(TAKER), WIDE_BLOCKED)]
  }

  /** With a window of one, and any window for the other direction, that chokes the session. */
  lemma ChokedReached(left: Windows, right: Windows, d: seq<byte>)
    requires Bounded(left, right) && Negotiate(left, right).tx == 1 && Negotiate(right, left).tx >= 1
    requires |d| == MAX_PACKET_SIZE - 1
    ensures Choked(Reached(left, right, RefusedAck(d)))
  {
    hide SystemOk, Step, After, LongLost, React, HandleRawData, Muffled;
    var s, m := Connected(left, right), RefusedAck(d);
    ConnectedOk(left, right);
    Begin(s, m);
    LongPacketLost(left, right, d);
    Next(s, m, 3);
    Next(s, m, 4);
    var s3, s4 := After(s, m, 3), After(s, m, 4);
    LongFields(s3, left, right, d);
    SubmitFirst(s3.left, [7], LINK);
    Progress.LeftLocal(s3, ClientSubmit([7]), LINK);
    SentFields(s3.left, [7]);
    assert [0] + [7] == [0, 7];
    Progress.RightEmits(s4, TAKER, WIDE_BLOCKED);
    AckRefused(s4.right);
  }

  /** The right end is to resend a packet of the largest size that was lost. */
  ghost predicate LongLost(s: System, left: Windows, right: Windows, d: seq<byte>) {
    var r := Sent(FreshSession(right, Negotiate(right, left), []), d);
    && s.left == FreshSession(left, Negotiate(left, right), []) && s.toLeft == [] && s.toRight == []
    && s.right == RollBack(r).(log := RollBack(r).log.(refused := true))
  }

  lemma LongFields(s: System, left: Windows, right: Windows, d: seq<byte>)
    requires LongLost(s, left, right, d) && Bounded(left, right) && Negotiate(left, right).tx >= 1
    ensures Unsent(s.left) && WakeUp.EndpointOk(s.left) && s.left.actual == Negotiate(left, right)
    ensures s.left.log.acked == s.left.log.received == 0 && s.toLeft == s.toRight == []
    ensures Resending(s.right, d) && s.right.actual == Negotiate(right, left)
  {
    FreshUnsent(left, Negotiate(left, right));
    assert EMPTY_LOG.fragments[..0] == [] && EMPTY_LOG.fragments[0..] == [];
  }

  /** An end that has accepted nothing and is to resend `d`. */
  predicate Resending(r: Endpoint, d: seq<byte>) {
    && r.state == Ready && r.log.fragments == [d] && r.log.acked == r.log.next == 0 && r.log.received == 0
    && !r.bufferFull && r.nextExpectedDataPsn == 0 && r.outstanding == 0
  }

  lemma LongPacketLost(left: Windows, right: Windows, d: seq<byte>)
    requires Bounded(left, right) && Negotiate(right, left).tx >= 1 && |d| == MAX_PACKET_SIZE - 1
    ensures SystemOk(Connected(left, right))
    ensures LongLost(After(Connected(left, right), RefusedAck(d), 3), left, right, d)
  {
    hide SystemOk, Step, After, React, Sent, Unsent, RollBack;
    var s, m := Connected(left, right), RefusedAck(d);
    ConnectedOk(left, right);
    Begin(s, m);
    Next(s, m, 0);
    Next(s, m, 1);
    Next(s, m, 2);
    var s1, s2 := After(s, m, 1), After(s, m, 2);
    FreshUnsent(right, Negotiate(right, left));
    FreshEnds(left, right);
    Progress.RightLocal(s, ClientSubmit(d), WIDE);
    SubmitFirst(s.right, d, WIDE);
    Progress.LoseOneLeft(s1);
    Progress.RightLocal(s2, RetransmitTimerFires, WIDE_BLOCKED);
    SentFields(s.right, d);
    RefusedTimeout(s2.right, WIDE_BLOCKED);
  }

  lemma FreshEnds(left: Windows, right: Windows)
    requires Bounded(left, right)
    ensures var s := Connected(left, right);
            && WakeUp.EndpointOk(s.left) && WakeUp.EndpointOk(s.right)
            && s.right == FreshSession(right, Negotiate(right, left), []) && s.right.log.acked == 0
            && s.right.state == Ready
  {
    ConnectedOk(left, right);
    hide Linked, FramesOk, SenderOk;
  }

  /** A byte arrives, and its ack is refused. */
  lemma AckRefused(r: Endpoint)
    requires |r.log.fragments| == 1 && Resending(r, r.log.fragments[0]) && |r.log.fragments[0]| == MAX_PACKET_SIZE - 1
    requires r.actual.tx < SN_COUNT && r.actual.rx == 1
    ensures var o := HandleRawData(r, [0, 7], TAKER, WIDE_BLOCKED);
            o.sent == [] && Muffled(o.endpoint) && o.endpoint.log.received == 1 && o.endpoint.log.acked == 0
  {
    hide SendNext, HandleRawData, NextPayloadSize, Accept, OweAck;
    ByteAccepted(r, 7, WIDE_BLOCKED);
    ByteFields(r);
    SendNextTurn(OweAck(Accept(r, 0, [7], TAKER).endpoint), WIDE_BLOCKED);
  }
}

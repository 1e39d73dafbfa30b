/** With a window of one and the other end muffled: news for that end rescues the session. An ack of
    its data takes away what the ack it owes would have to go out with. */
module GattlinkRescue {
  import opened Common
  import opened GattlinkEndpoint
  import opened GattlinkSender
  import WakeUp = GattlinkWakeUp
  import opened Theorems = GattlinkTheorems
  import opened GattlinkDeadlock
  import opened GattlinkChoked
  import opened GattlinkProgress
  import opened Net = GattlinkNetwork
  import Sizes = GattlinkSizes

  // ------------------------------------------------------ an ack reaches the right end

  /** An end that is to resend what is already acknowledged sends an ack by itself. */
  lemma {:induction false} BehindSpeaks(r: Endpoint)
    requires SenderOk(r) && AckDue(r) && r.log.next < r.log.acked
    ensures !Silent(r)
  {
  }

  /** The ack at the head of the channel, if it is new to the right end, moves it past what it was to
      resend, and a transport that refuses everything leaves its own ack due. */
  lemma NewsArrives(s: System)
    requires Waiting(s) && AckDue(s.right) && s.right.log.next == s.right.log.acked && s.toRight != []
    requires var f := s.toRight[0]; Short(f) && f.ackCount.Some? && f.ackCount.value > s.right.log.acked
    ensures var r := HandleRawData(s.right, s.toRight[0].bytes, PASSIVE, BLOCKED).endpoint;
            AckDue(r) && r.log.next < r.log.acked && r.log.received == s.right.log.received
  {
    hide HandleRawData, HandleAck, SenderOk, TimersOk, WakeUp.Settled, WakeUp.ReceiverOk, Linked, FramesOk, FrameOk;
    hide SendNext, HandlePayload, AckDue, HasAck, DataPart;
    var f, rest := s.toRight[0], s.toRight[1..];
    assert s.toRight == [f] + rest;
    var psn: Sn := (f.ackCount.value - 1) % SN_COUNT;
    HeadOk(s.left, s.right, f, rest, s.toLeft);
    FrameParse(f, s.left.log);
    NewsMoves(s);
    var r := HandleAck(s.right, psn);
    DataIsPacket(s.right, f.bytes, PASSIVE, BLOCKED);
    DataPartIs(f);
    NothingGoesOut(r);
    if f.dataIndex.Some? {
      OldData(s);
      SameJudge(s.right, r, AfterAck(f.bytes)[0] % SN_COUNT);
      RefusedPayload(r, AfterAck(f.bytes), PASSIVE, BLOCKED);
    }
  }

  lemma NewsMoves(s: System)
    requires Waiting(s) && AckDue(s.right) && s.right.log.next == s.right.log.acked && s.toRight != []
    requires var f := s.toRight[0]; f.ackCount.Some? && f.ackCount.value > s.right.log.acked
    ensures var count := s.toRight[0].ackCount.value;
            var psn := (count - 1) % SN_COUNT;
            var r := HandleAck(s.right, psn);
            && s.right.payloadSizes[psn] != 0 && r.log.acked == count > r.log.next && AckDue(r)
            && r.actual == s.right.actual && SameReceiving(s.right, r)
  {
    hide HandleAck, SenderOk, TimersOk, WakeUp.Settled, WakeUp.ReceiverOk, Linked, FramesOk, FrameOk, AckDue;
    var f, rest := s.toRight[0], s.toRight[1..];
    assert s.toRight == [f] + rest;
    var psn: Sn := (f.ackCount.value - 1) % SN_COUNT;
    AckOfSent(s);
    SlotFull(s.right, f.ackCount.value - 1);
    HandleAckOk(s.right, psn);
    AckMeansAccepted(s.right, s.left, f, s.toLeft, rest);
    AckLeaves(s.right, psn);
  }

  lemma AckOfSent(s: System)
    requires SystemOk(s) && s.toRight != [] && s.toRight[0].ackCount.Some?
    ensures 1 <= s.toRight[0].ackCount.value <= |s.right.log.fragments|
  {
    hide Flat, DataInOrder, AcksInOrder, SenderOk, FrameBytes;
    assert FrameOk(s.toRight[0], s.left.log);
  }

  ghost predicate SameReceiving(a: Endpoint, b: Endpoint) {
    && b.log.received == a.log.received && b.nextExpectedDataPsn == a.nextExpectedDataPsn
    && b.bufferFull == a.bufferFull
  }

  /** What handling an ack does not change. */
  lemma AckLeaves(r: Endpoint, psn: Sn)
    ensures var r' := HandleAck(r, psn);
            && r'.actual == r.actual && SameReceiving(r, r') && r'.log.next == r.log.next
            && (AckDue(r) ==> AckDue(r'))
  {
    hide AwaitingUpTo, ClearUpTo;
  }

  lemma SameJudge(r: Endpoint, r': Endpoint, psn: Sn)
    requires SameReceiving(r, r') && r'.actual == r.actual
    ensures Judge(r', psn) == Judge(r, psn)
  {
  }

  /** A loop that is refused leaves the ack due. */
  lemma {:induction false} NothingGoesOut(r: Endpoint)
    requires r.actual.tx < SN_COUNT && AckDue(r)
    ensures var r' := SendNext(r, BLOCKED).endpoint;
            AckDue(r') && r'.log.next == r.log.next && r'.log.acked == r.log.acked
            && r'.log.received == r.log.received
  {
    SendNextTurn(r, BLOCKED);
    hide SendNext, NextPayloadSize;
  }

  /** Before it arrives, a refused timeout makes the right end start over with its oldest packet. */
  lemma StartsOver(s: System) returns (moves: seq<Move>)
    requires Waiting(s) && Muffled(s.right)
    ensures var s' := Net.Run(s, moves);
            && Waiting(s') && s'.left == s.left && s'.toRight == s.toRight && s'.right.log.acked == s.right.log.acked
            && AckDue(s'.right) && s'.right.log.next == s'.right.log.acked
  {
    var m := Move(false, Local(RetransmitTimerFires), BLOCKED);
    SwapOk(s);
    BothReady(Swap(s));
    assert s.right.retransmitTimer;
    hide SystemOk, Step, React, WakeUp.EndpointOk, SenderOk;
    RightLocal(s, RetransmitTimerFires, BLOCKED);
    OneMove(s, m);
    RefusedTimeout(s.right, BLOCKED);
    assert s.toLeft + [] == s.toLeft;
    moves := [m];
  }

  /** An ack in transit that is new to the muffled end. */
  lemma ByNews(s: System, i: nat) returns (moves: seq<Move>)
    requires Waiting(s) && Muffled(s.right) && i < |s.toRight| && Short(s.toRight[i])
    requires s.toRight[i].ackCount.Some? && s.toRight[i].ackCount.value > s.right.log.acked
    ensures Forward(s, moves)
  {
    hide SystemOk, Muffled, Net.Run, Step, HandleRawData, Silent, AckDue;
    var a := StartsOver(s);
    var s1 := Net.Run(s, a);
    var b := DropToRight(s1, i);
    RunConcat(s, a, b);
    var s2 := Net.Run(s1, b);
    var m := Move(false, Receive(PASSIVE), BLOCKED);
    BothReady(s2);
    NewsArrives(s2);
    RightEmits(s2, PASSIVE, BLOCKED);
    OneMove(s2, m);
    RunConcat(s, a + b, [m]);
    var s3 := Step(s2, m);
    SwapOk(s3);
    BothReady(Swap(s3));
    BehindSpeaks(s3.right);
    var c := ByAckOwed(s3);
    RunConcat(s, a + b + [m], c);
    moves := a + b + [m] + c;
  }

  // --------------------------------------------------------- the left end speaks

  /** What Speak says, with the ends exchanged. */
  lemma SpeakLeft(s: System) returns (moves: seq<Move>, i: nat)
    requires SystemOk(s) && !Silent(s.left)
    ensures var s' := Net.Run(s, moves);
            && SystemOk(s') && s'.right == s.right && s'.toLeft == s.toLeft
            && SameCounters(s.left, s'.left) && s'.left.actual == s.left.actual
            && i < |s'.toRight| && Short(s'.toRight[i]) && s'.toRight[i].ackCount == Some(s.left.log.received)
  {
    hide SystemOk, Silent, Net.Run, Play;
    SwapOk(s);
    var flipped, j := Speak(Swap(s));
    var end := Net.Run(Swap(s), flipped);
    SwapOk(end);
    moves, i := Flipped(flipped), j;
    Mirrored(Swap(s), flipped);
    PlayIsRun(Swap(s), flipped);
    PlayIsRun(s, moves);
    assert Swap(Swap(s)) == s;
  }

  /** The left end is to tell the muffled one of something new. */
  lemma ByTelling(s: System) returns (moves: seq<Move>)
    requires Waiting(s) && Muffled(s.right) && s.left.log.received > s.right.log.acked && !Silent(s.left)
    ensures Forward(s, moves)
  {
    hide SystemOk, Silent, Muffled, Net.Run;
    var a, i := SpeakLeft(s);
    var b := ByNews(Net.Run(s, a), i);
    RunConcat(s, a, b);
    moves := a + b;
  }

  // ---------------------------------------------------------- the left end hears

  /** The packet makes the left end owe an ack. */
  predicate Heard(k: nat, received: nat, window: nat) {
    k == received || k < received < k + window
  }

  /** An end that has sent all it has numbered owes an ack that goes out alone or with something new. */
  lemma OwingSpeaks(e: Endpoint)
    requires e.ackTimer && e.log.next == |e.log.fragments|
    ensures !Silent(e)
  {
  }

  lemma HeardOwes(s: System)
    requires Waiting(s) && s.toLeft != [] && Short(s.toLeft[0]) && !s.left.bufferFull
    requires s.left.log.next == |s.left.log.fragments| && s.toLeft[0].dataIndex.Some?
    requires Heard(s.toLeft[0].dataIndex.value, s.left.log.received, s.left.actual.rx)
    ensures var e := HandleRawData(s.left, s.toLeft[0].bytes, PASSIVE, BLOCKED).endpoint;
            && !Silent(e) && e.log.acked == s.left.log.acked && e.actual == s.left.actual
            && e.log.received == s.left.log.received + (if s.toLeft[0].dataIndex.value == s.left.log.received then 1
                                                        else 0)
  {
    hide HandleRawData, SenderOk, TimersOk, WakeUp.Settled, WakeUp.ReceiverOk, Linked, FramesOk, FrameOk;
    hide SendNext, HasAck, DataPart, Judge, Accept, OweAck, Silent, NoNewAcks;
    var f := s.toLeft[0];
    OldAckLeft(s);
    SwapOk(s);
    HeadJudged(Swap(s));
    DataPartIs(f);
    DataIsPacket(s.left, f.bytes, PASSIVE, BLOCKED);
    var data := AfterAck(f.bytes);
    var psn: Sn := data[0] % SN_COUNT;
    NoAnswers(s.left, psn, data[1..], 0);
    Owing(s.left, psn, data[1..]);
    RefusedOrIdle(OweAck(s.left));
    RefusedOrIdle(OweAck(Accept(s.left, psn, data[1..], PASSIVE).endpoint));
  }

  lemma Owing(e: Endpoint, psn: Sn, payload: seq<byte>)
    requires e.actual.tx < SN_COUNT
    ensures OweAck(e).ackTimer && SameSending(e, OweAck(e)) && OweAck(e).log.received == e.log.received
    ensures var e' := OweAck(Accept(e, psn, payload, PASSIVE).endpoint);
            e'.ackTimer && SameSending(e, e') && e'.log.received == e.log.received + 1
  {
    NoAnswers(e, psn, payload, 0);
  }

  ghost predicate SameSending(a: Endpoint, b: Endpoint) {
    b.actual == a.actual && b.log.acked == a.log.acked && b.log.next == a.log.next && b.log.fragments == a.log.fragments
  }

  /** A loop that is refused at once, or has nothing to send, leaves an owing end not silent. */
  lemma {:induction false} RefusedOrIdle(e: Endpoint)
    requires e.actual.tx < SN_COUNT && e.ackTimer && e.log.next == |e.log.fragments|
    ensures var e' := SendNext(e, BLOCKED).endpoint;
            !Silent(e') && e'.log.acked == e.log.acked && e'.log.received == e.log.received && e'.actual == e.actual
  {
    hide SendNext, NextPayloadSize, Silent;
    SendNextTurn(e, BLOCKED);
    OwingSpeaks(SendNext(e, BLOCKED).endpoint);
  }

  /** The left end sends what it has to, takes what is buffered, and then waits for packet `i`. */
  lemma Listens(s: System, i: nat) returns (moves: seq<Move>)
    requires Waiting(s) && i < |s.toLeft|
    ensures var s' := Net.Run(s, moves);
            && Waiting(s') && s'.right == s.right && s'.toLeft == s.toLeft[i..] && !s'.left.bufferFull
            && s'.left.log.received == s.left.log.received && s'.left.actual == s.left.actual
            && s'.left.log.acked == s.left.log.acked && s'.left.log.next == |s'.left.log.fragments|
  {
    hide SystemOk, Net.Run, Step, React, NoNewAcks;
    BothReady(s);
    OnePacketOut(s);
    NotBehind(s.left);
    var m := Move(true, Local(ClientNotify), LINK);
    LeftLocal(s, ClientNotify, LINK);
    OneMove(s, m);
    SendsAll(s.left);
    var s1 := Step(s, m);
    BothReady(s1);
    var event := ClientTake(IncomingAvailable(s1.left));
    var m' := Move(true, Local(event), LINK);
    LeftLocal(s1, event, LINK);
    OneMove(s1, m');
    TakesAll(s1.left);
    RunConcat(s, [m], [m']);
    var s2 := Step(s1, m');
    var drop := DropToLeft(s2, i);
    RunConcat(s, [m] + [m'], drop);
    NoNewAcksDrop(s.toLeft, i, s.left.log.acked);
    moves := [m] + [m'] + drop;
  }

  lemma NoNewAcksDrop(frames: seq<Frame>, i: nat, acked: nat)
    requires i <= |frames| && NoNewAcks(frames, acked)
    ensures NoNewAcks(frames[i..], acked)
  {
  }

  lemma NotBehind(e: Endpoint)
    requires SenderOk(e) && e.actual.tx == 1 && e.log.acked < |e.log.fragments|
    ensures e.log.acked <= e.log.next
  {
    hide Flat, SizesMatch, FragmentSizes;
  }

  lemma SendsAll(e: Endpoint)
    requires WakeUp.EndpointOk(e) && e.state == Ready && e.log.acked <= e.log.next
    ensures var e' := React(e, ClientNotify, LINK).endpoint;
            SameCounters(e, e') && e'.actual == e.actual && e'.log.next == |e'.log.fragments|
  {
    hide SendNext, SenderOk, TimersOk, WakeUp.Settled, WakeUp.ReceiverOk;
    LoopKeepsCounters(e, LINK);
    LoopSendsAll(e, LINK);
  }

  lemma TakesAll(e: Endpoint)
    requires WakeUp.EndpointOk(e) && e.state == Ready
    ensures var o := React(e, ClientTake(IncomingAvailable(e)), LINK);
            && !o.endpoint.bufferFull && o.sent == [] && SameSending(e, o.endpoint)
            && o.endpoint.log.received == e.log.received
  {
    hide SenderOk, TimersOk, WakeUp.Settled;
  }

  /** A packet in transit that makes the left end tell the muffled one of something new. */
  lemma ByHearing(s: System, i: nat) returns (moves: seq<Move>)
    requires Waiting(s) && Muffled(s.right) && i < |s.toLeft| && Short(s.toLeft[i]) && s.toLeft[i].dataIndex.Some?
    requires Heard(s.toLeft[i].dataIndex.value, s.left.log.received, s.left.actual.rx)
    requires s.toLeft[i].dataIndex.value == s.left.log.received || s.left.log.received > s.right.log.acked
    ensures Forward(s, moves)
  {
    hide SystemOk, Silent, Muffled, Net.Run, Step, HandleRawData, Heard, NoNewAcks;
    ReceivedAtLeast(s);
    var a := Listens(s, i);
    var s1 := Net.Run(s, a);
    HeardOwes(s1);
    BothReady(s1);
    var m := Move(true, Receive(PASSIVE), BLOCKED);
    LeftHears(s1, BLOCKED);
    OneMove(s1, m);
    NoNewAcksDrop(s1.toLeft, 1, s1.left.log.acked);
    RunConcat(s, a, [m]);
    var b := ByTelling(Step(s1, m));
    RunConcat(s, a + [m], b);
    moves := a + [m] + b;
  }

  lemma LeftHears(s: System, t: Transport)
    requires SystemOk(s) && s.toLeft != []
    ensures var o := HandleRawData(s.left, s.toLeft[0].bytes, PASSIVE, t);
            var s' := Step(s, Move(true, Receive(PASSIVE), t));
            s'.left == o.endpoint && s'.right == s.right && s'.toLeft == s.toLeft[1..]
  {
    hide HandleRawData, Linked, FramesOk, SenderOk;
    assert s.toLeft[..0] + s.toLeft[1..] == s.toLeft[1..];
  }

  // ------------------------------------------------------------------ any news

  lemma FindNews(s: System) returns (i: nat)
    requires !NoNews(s) && !(s.left.log.received > s.right.log.acked && !Silent(s.left))
    ensures (i < |s.toRight| && Short(s.toRight[i]) && s.toRight[i].ackCount.Some?
             && s.toRight[i].ackCount.value > s.right.log.acked)
         || (i < |s.toLeft| && Short(s.toLeft[i]) && s.toLeft[i].dataIndex.Some?
             && Heard(s.toLeft[i].dataIndex.value, s.left.log.received, s.left.actual.rx)
             && (s.toLeft[i].dataIndex.value == s.left.log.received || s.left.log.received > s.right.log.acked))
  {
    hide Silent;
    if !NoNewAcks(s.toRight, s.right.log.acked) {
      i :| i < |s.toRight| && Short(s.toRight[i]) && s.toRight[i].ackCount.Some?
           && s.toRight[i].ackCount.value > s.right.log.acked;
    } else {
      i :| i < |s.toLeft| && Short(s.toLeft[i]) && s.toLeft[i].dataIndex.Some?
           && Heard(s.toLeft[i].dataIndex.value, s.left.log.received, s.left.actual.rx)
           && (s.toLeft[i].dataIndex.value == s.left.log.received || s.left.log.received > s.right.log.acked);
    }
  }

  /** Whatever news there is for the muffled end, it leads on. */
  lemma ByAnyNews(s: System) returns (moves: seq<Move>)
    requires Waiting(s) && Muffled(s.right) && !NoNews(s)
    ensures Forward(s, moves)
  {
    hide SystemOk, Silent, Muffled, NoNewAcks, Heard, NoNews, Forward;
    if s.left.log.received > s.right.log.acked && !Silent(s.left) {
      moves := ByTelling(s);
    } else {
      var i := FindNews(s);
      if i < |s.toRight| && Short(s.toRight[i]) && s.toRight[i].ackCount.Some?
         && s.toRight[i].ackCount.value > s.right.log.acked {
        moves := ByNews(s, i);
      } else {
        moves := ByHearing(s, i);
      }
    }
  }
}

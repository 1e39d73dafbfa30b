/** Windows above the limit of 16. From 17 to 31 a session loses data; from 32 on the sending loop
    need not even end. */
module GattlinkWide {
  import opened Common
  import opened GattlinkEndpoint
  import opened GattlinkSender
  import opened Net = GattlinkNetwork
  import opened Theorems = GattlinkTheorems
  import Witnesses = GattlinkWitnesses

  // ------------------------------------------------------ does the loop end?

  /** The sending loop stops after at most `n` more packets. */
  predicate EndsWithin(e: Endpoint, t: Transport, n: nat)
    decreases n
  {
    || !SomethingToSend(e, t)
    || t.Refuses()
    || (n > 0 && EndsWithin(AfterSending(e, t), t.AfterSend(), n - 1))
  }

  ghost predicate LoopEnds(e: Endpoint, t: Transport) {
    exists n :: EndsWithin(e, t, n)
  }

  lemma {:induction false} EndsLater(e: Endpoint, t: Transport, n: nat, m: nat)
    requires EndsWithin(e, t, n) && n <= m
    ensures EndsWithin(e, t, m)
    decreases n
  {
    hide SomethingToSend, AfterSending;
    if SomethingToSend(e, t) && !t.Refuses() {
      EndsLater(AfterSending(e, t), t.AfterSend(), n - 1, m - 1);
    }
  }

  /** At most as many packets as the window has room for, and one for an ack. */
  function Bound(e: Endpoint): nat {
    WindowLeft(e) + if AckDue(e) then 1 else 0
  }

  /** With a window below 32 the loop ends from any state at all. */
  lemma {:induction false} EndsInTime(e: Endpoint, t: Transport)
    requires e.actual.tx < SN_COUNT
    ensures EndsWithin(e, t, Bound(e))
    decreases Bound(e)
  {
    if SomethingToSend(e, t) && !t.Refuses() {
      BoundShrinks(e, t);
      AckSettled(e, t);
      hide SomethingToSend, AfterSending, Bound;
      EndsInTime(AfterSending(e, t), t.AfterSend());
      EndsLater(AfterSending(e, t), t.AfterSend(), Bound(AfterSending(e, t)), Bound(e) - 1);
    }
  }

  lemma BoundShrinks(e: Endpoint, t: Transport)
    requires e.actual.tx < SN_COUNT && SomethingToSend(e, t)
    ensures Bound(AfterSending(e, t)) < Bound(e)
  {
    SendProgress(e, t);
    AckSettled(e, t);
    hide SomethingToSend, AfterSending, WindowLeft, AckDue;
  }

  lemma AckSettled(e: Endpoint, t: Transport)
    ensures !AckDue(AfterSending(e, t)) && AfterSending(e, t).actual == e.actual
  {
    hide NextPayloadSize, NextFrame;
  }

  /** The payload of a full packet over LINK. */
  const FULL := 19

  /** The table in which the first `n` slots hold full packets. */
  function FullSlots(n: nat): SizeTable {
    seq(SN_COUNT, i => if i < n then FULL else 0)
  }

  lemma {:induction false} FullAwaiting(n: nat, from: nat)
    requires from <= n < SN_COUNT
    ensures AwaitingUpTo(FullSlots(n), from, n) == FULL * (n - from)
    decreases n - from
  {
    hide FullSlots;
    if from < n {
      FullAwaiting(n, from + 1);
      assert FullSlots(n)[from] == FULL by { SlotsAt(n, from); }
    }
  }

  lemma SlotsAt(n: nat, i: Sn)
    ensures FullSlots(n)[i] == if i < n then FULL else 0
  {
  }

  lemma SlotsNext(n: nat)
    ensures FullSlots(n)[n % SN_COUNT := FULL] == FullSlots(n + 1)
  {
  }

  /** A session after `n` full packets, none acknowledged, with enough data to go on. */
  predicate Filling(e: Endpoint, n: nat) {
    && e.state == Ready && e.nextExpectedAckSn == 0 && e.nextDataSn == n % SN_COUNT && !AckDue(e)
    && e.payloadSizes == FullSlots(n) && |e.outgoing| >= FULL * Min(e.actual.tx, SN_COUNT)
  }

  lemma FromZero(n: Sn)
    ensures Distance(0, n) == n
  {
  }

  lemma FillingSize(e: Endpoint, n: nat)
    requires Filling(e, n) && n % SN_COUNT < e.actual.tx
    ensures NextPayloadSize(e, LINK) == FULL
  {
    hide FullSlots, AckDue, AwaitingUpTo, Distance;
    FromZero(n % SN_COUNT);
    SlotsAt(n, n % SN_COUNT);
    if n < SN_COUNT {
      FullAwaiting(n, 0);
    }
  }

  lemma FillingStep(e: Endpoint, n: nat)
    requires Filling(e, n) && n % SN_COUNT < e.actual.tx
    ensures SomethingToSend(e, LINK) && Filling(AfterSending(e, LINK), n + 1)
  {
    hide NextPayloadSize, NextFrame, FullSlots, NextSn;
    ModStep(n);
    FillingSize(e, n);
    SlotsNext(n);
  }

  /** With a window of 32 or more the loop overtakes itself and never stops. */
  lemma {:induction false} NeverEnds(e: Endpoint, n: nat, turns: nat)
    requires Filling(e, n) && e.actual.tx >= SN_COUNT
    ensures !EndsWithin(e, LINK, turns)
    decreases turns
  {
    FillingStep(e, n);
    AckSettled(e, LINK);
    hide Filling, SomethingToSend, AfterSending;
    if turns > 0 {
      NeverEnds(AfterSending(e, LINK), n + 1, turns - 1);
    }
  }

  lemma FreshFilling(desired: Windows, actual: Windows, data: seq<byte>)
    requires |data| >= FULL * Min(actual.tx, SN_COUNT)
    ensures Filling(Given(FreshSession(desired, actual, []), data), 0)
  {
    assert FreshSession(desired, actual, []).payloadSizes == FullSlots(0);
    assert [] + data == data;
  }

  /** Submitting 32 full packets to a fresh session never returns if the window allows that many. */
  lemma SubmitNeverEnds(desired: Windows, actual: Windows, data: seq<byte>)
    requires actual.tx >= SN_COUNT && |data| >= FULL * SN_COUNT
    ensures !LoopEnds(Given(FreshSession(desired, actual, []), data), LINK)
  {
    var e := Given(FreshSession(desired, actual, []), data);
    FreshFilling(desired, actual, data);
    forall n: nat ensures !EndsWithin(e, LINK, n) {
      NeverEnds(e, 0, n);
    }
  }

  /** The loop ends from every state, whatever was submitted and however the transport behaves, if and
      only if the negotiated window is below 32. */
  lemma LoopEndsIff(window: byte)
    ensures (forall e: Endpoint, t: Transport | e.actual.tx == window :: LoopEnds(e, t)) <==> window < SN_COUNT
  {
    if window < SN_COUNT {
      forall e: Endpoint, t: Transport | e.actual.tx == window ensures LoopEnds(e, t) {
        EndsInTime(e, t);
      }
    } else {
      var windows := Windows(window, 0);
      var data := seq(FULL * SN_COUNT, _ => 0);
      SubmitNeverEnds(windows, windows, data);
      var e := Given(FreshSession(windows, windows, []), data);
      assert e.actual.tx == window && !LoopEnds(e, LINK);
    }
  }

  // -------------------------------------------------------- the false ack

  /** With a window above 16, a receiver that has accepted nothing takes a packet from beyond a gap
      for an old one, and acknowledges packet 0, which it never had. */
  lemma FalseAck(desired: Windows, actual: Windows, bytes: seq<byte>, client: Client)
    requires MAX_WINDOW < actual.rx < SN_COUNT && actual.tx < SN_COUNT
    requires 0 < |bytes| <= MAX_PACKET_SIZE && SN_COUNT - actual.rx < bytes[0] < actual.rx
    ensures var r := FreshSession(desired, actual, []);
            HandleRawData(r, bytes, client, LINK) == Outcome(OweAck(r), [], Success)
    ensures var a := React(OweAck(FreshSession(desired, actual, [])), AckTimerFires, LINK);
            && a.sent == [Frame([WITH_ACK], None, Some(0))] && a.endpoint.log.accepted == []
            && a.endpoint.actual == actual
  {
    TakenForOld(desired, actual, bytes, client);
    var r := FreshSession(desired, actual, []);
    var r1 := OweAck(r).(ackTimer := false, ackNow := true);
    Witnesses.AckOnly(r1, LINK);
    LoopKeepsCounters(r1, LINK);
    hide SendNext, HandleRawData;
  }

  lemma TakenForOld(desired: Windows, actual: Windows, bytes: seq<byte>, client: Client)
    requires MAX_WINDOW < actual.rx < SN_COUNT && actual.tx < SN_COUNT
    requires 0 < |bytes| <= MAX_PACKET_SIZE && SN_COUNT - actual.rx < bytes[0] < actual.rx
    ensures var r := FreshSession(desired, actual, []);
            HandleRawData(r, bytes, client, LINK) == Outcome(OweAck(r), [], Success)
  {
    var r := FreshSession(desired, actual, []);
    SendNextTurn(OweAck(r), LINK);
    hide SendNext;
    assert !HasAck(bytes);
    assert Judge(r, bytes[0] % SN_COUNT) == Resent;
  }

  // ---------------------------------------------------- bytes released too soon

  lemma FillingFrame(e: Endpoint, n: nat)
    requires Filling(e, n) && n < e.actual.tx < SN_COUNT
    ensures var f := NextFrame(e, LINK); |f.bytes| == FULL + 1 && f.bytes[0] == n
  {
    FillingSize(e, n);
    FullAwaiting(n, 0);
    hide NextPayloadSize, AwaitingUpTo, FullSlots;
  }

  lemma FullWindow(e: Endpoint)
    requires Filling(e, e.actual.tx) && e.actual.tx < SN_COUNT
    ensures !SomethingToSend(e, LINK)
  {
    hide AwaitingUpTo, FullSlots;
  }

  /** The loop fills the window with full packets; the last one carries the number before the window's. */
  lemma {:induction false} FillLoop(e: Endpoint, n: nat)
    requires Filling(e, n) && n <= e.actual.tx < SN_COUNT
    ensures var o, w := SendNext(e, LINK), e.actual.tx;
            && |o.sent| == w - n && Filling(o.endpoint, w)
            && (n < w ==> |o.sent[w - n - 1].bytes| == FULL + 1 && o.sent[w - n - 1].bytes[0] == w - 1)
    decreases e.actual.tx - n
  {
    hide Filling, SendNext, NextFrame, AfterSending, SomethingToSend;
    SendNextTurn(e, LINK);
    AckSettled(e, LINK);
    if n == e.actual.tx {
      FullWindow(e);
    } else {
      FillingStep(e, n);
      FillingFrame(e, n);
      FillLoop(AfterSending(e, LINK), n + 1);
    }
  }

  lemma FirstSlot(e: Endpoint)
    requires Filling(e, e.actual.tx) && 0 < e.actual.tx < SN_COUNT
    ensures e.payloadSizes[0] == FULL <= |e.outgoing| && e.nextExpectedAckSn == 0 && e.state == Ready
  {
    hide FullSlots;
    SlotsAt(e.actual.tx, 0);
  }

  /** The ack of packet 0 makes such a sender release the bytes of its first packet. */
  lemma FalseRelease(e: Endpoint)
    requires Filling(e, e.actual.tx) && 0 < e.actual.tx < SN_COUNT
    ensures |HandleRawData(e, [WITH_ACK], PASSIVE, LINK).endpoint.log.consumed| == |e.log.consumed| + FULL
  {
    hide Filling, SendNext, HandleAck, HandleRawData;
    FirstSlot(e);
    ReleasedBytes(e);
    LoopKeepsCounters(HandleAck(e, 0), LINK);
    DataIsPacket(e, [WITH_ACK], PASSIVE, LINK);
    assert HasAck([WITH_ACK]) && [WITH_ACK][1..] == [];
  }

  lemma {:induction false} AwaitingOne(sizes: SizeTable)
    ensures AwaitingUpTo(sizes, 0, 1) == sizes[0]
  {
    assert AwaitingUpTo(sizes, 1, 1) == 0;
  }

  lemma ReleasedBytes(e: Endpoint)
    requires e.nextExpectedAckSn == 0 && e.payloadSizes[0] == FULL <= |e.outgoing|
    ensures HandleAck(e, 0).log.consumed == e.log.consumed + e.outgoing[..FULL]
    ensures HandleAck(e, 0).actual == e.actual
  {
    AwaitingOne(e.payloadSizes);
    hide AwaitingUpTo, ClearUpTo;
  }

  // ------------------------------------------------------------------ the run

  predicate Narrow(s: System) {
    s.left.actual.tx < SN_COUNT && s.right.actual.tx < SN_COUNT
  }

  lemma {:induction false} PlayConcat(s: System, a: seq<Move>, b: seq<Move>)
    ensures Play(s, a + b) == Play(Play(s, a), b)
    decreases |a|
  {
    hide Step;
    if a == [] {
      assert a + b == b;
    } else if Narrow(s) {
      assert (a + b)[1..] == a[1..] + b;
      PlayConcat(Step(s, a[0]), a[1..], b);
    }
  }

  lemma {:induction false} PlayOne(s: System, m: Move)
    requires Narrow(s)
    ensures Play(s, [m]) == Step(s, m)
  {
    hide Step;
    assert [m][1..] == [];
  }

  /** The first `n` packets on their way to the right are lost. */
  lemma {:induction false} PlayDrops(s: System, n: nat) returns (moves: seq<Move>)
    requires Narrow(s) && n <= |s.toRight|
    ensures Play(s, moves) == s.(toRight := s.toRight[n..])
    decreases n
  {
    if n == 0 {
      moves := [];
      assert s.toRight[0..] == s.toRight;
    } else {
      var m := Move(false, Lose(0), LINK);
      assert s.toRight[..0] + s.toRight[1..] == s.toRight[1..];
      assert Step(s, m) == s.(toRight := s.toRight[1..]);
      PlayOne(s, m);
      var rest := PlayDrops(Step(s, m), n - 1);
      moves := [m] + rest;
      PlayConcat(s, [m], rest);
      assert s.toRight[1..][n - 1..] == s.toRight[n..];
    }
  }

  /** The left end has filled its window and all its packets but the last are lost. */
  ghost predicate LastOnly(s: System, left: Windows, right: Windows) {
    && s.right == FreshSession(right, Negotiate(right, left), []) && s.toLeft == []
    && |s.toRight| == 1 && |s.toRight[0].bytes| == FULL + 1
    && s.left.actual == Negotiate(left, right) && s.toRight[0].bytes[0] == s.left.actual.tx - 1
    && Filling(s.left, s.left.actual.tx)
  }

  lemma {:induction false} Submitted(left: Windows, right: Windows, data: seq<byte>)
    requires Negotiate(left, right).tx < SN_COUNT && Negotiate(right, left).tx < SN_COUNT
    ensures var s := Connected(left, right);
            var o := SendNext(Given(s.left, data), LINK);
            Step(s, Move(true, Local(ClientSubmit(data)), LINK))
            == s.(left := o.endpoint, toRight := o.sent, byLeft := o.sent)
  {
    hide SendNext;
    var s := Connected(left, right);
    var o := SendNext(Given(s.left, data), LINK);
    assert [] + o.sent == o.sent;
  }

  lemma WindowLost(left: Windows, right: Windows) returns (moves: seq<Move>)
    requires MAX_WINDOW < Negotiate(left, right).tx < SN_COUNT && Negotiate(right, left).tx < SN_COUNT
    ensures LastOnly(Play(Connected(left, right), moves), left, right)
  {
    hide Step, SendNext, React, Filling;
    var s, w := Connected(left, right), Negotiate(left, right).tx;
    var data := seq(FULL * w, _ => 0);
    var m := Move(true, Local(ClientSubmit(data)), LINK);
    var e := Given(s.left, data);
    FreshFilling(left, Negotiate(left, right), data);
    FillLoop(e, 0);
    var o := SendNext(e, LINK);
    Submitted(left, right, data);
    hide FreshSession;
    PlayOne(s, m);
    var drops := PlayDrops(Step(s, m), w - 1);
    PlayConcat(s, [m], drops);
    moves := [m] + drops;
  }

  lemma TakesIt(s: System)
    requires Narrow(s) && |s.toRight| == 1
    requires HandleRawData(s.right, s.toRight[0].bytes, PASSIVE, LINK) == Outcome(OweAck(s.right), [], Success)
    ensures var s' := Step(s, Move(false, Receive(PASSIVE), LINK));
            s'.left == s.left && s'.right == OweAck(s.right) && s'.toLeft == s.toLeft
  {
    hide HandleRawData, OweAck;
    assert s.toLeft + [] == s.toLeft;
  }

  lemma TimerFires(s: System)
    requires Narrow(s) && s.toLeft == []
    ensures var s', o := Step(s, Move(false, Local(AckTimerFires), LINK)), React(s.right, AckTimerFires, LINK);
            s'.left == s.left && s'.right == o.endpoint && s'.toLeft == o.sent
  {
    hide React;
    assert [] + React(s.right, AckTimerFires, LINK).sent == React(s.right, AckTimerFires, LINK).sent;
  }

  lemma AckReceived(s: System)
    requires Narrow(s) && |s.toLeft| == 1
    ensures var s' := Step(s, Move(true, Receive(PASSIVE), LINK));
            s'.left == HandleRawData(s.left, s.toLeft[0].bytes, PASSIVE, LINK).endpoint && s'.right == s.right
  {
    hide HandleRawData;
  }

  /** From there the last packet arrives, the ack timer fires and its ack arrives. */
  lemma ReleasedTooSoon(s: System, left: Windows, right: Windows) returns (moves: seq<Move>)
    requires MAX_WINDOW < Negotiate(left, right).tx < SN_COUNT && Negotiate(right, left).tx < SN_COUNT
    requires LastOnly(s, left, right)
    ensures !StreamSafe(Play(s, moves).left, Play(s, moves).right)
  {
    hide React, HandleRawData, Filling, Step, OweAck;
    var a, b := Move(false, Receive(PASSIVE), LINK), Move(false, Local(AckTimerFires), LINK);
    var c := Move(true, Receive(PASSIVE), LINK);
    FalseAck(right, Negotiate(right, left), s.toRight[0].bytes, PASSIVE);
    FreshWindows(right, Negotiate(right, left));
    hide FreshSession;
    var s1 := Step(s, a);
    TakesIt(s);
    var s2 := Step(s1, b);
    TimerFires(s1);
    FalseRelease(s.left);
    AckReceived(s2);
    PlayOne(s, a);
    PlayOne(s1, b);
    PlayOne(s2, c);
    PlayConcat(s, [a], [b]);
    PlayConcat(s, [a] + [b], [c]);
    moves := [a] + [b] + [c];
  }

  lemma FreshWindows(desired: Windows, actual: Windows)
    ensures FreshSession(desired, actual, []).actual == actual
  {
  }

  ghost predicate AlwaysSafe(left: Windows, right: Windows) {
    forall moves :: var s := Play(Connected(left, right), moves);
      StreamSafe(s.left, s.right) && StreamSafe(s.right, s.left)
  }

  lemma TooWide(left: Windows, right: Windows)
    requires MAX_WINDOW < Negotiate(left, right).tx < SN_COUNT && Negotiate(right, left).tx < SN_COUNT
    ensures !AlwaysSafe(left, right) && !AlwaysSafe(right, left)
  {
    hide LastOnly, StreamSafe, Connected;
    var s := Connected(left, right);
    var a := WindowLost(left, right);
    var b := ReleasedTooSoon(Play(s, a), left, right);
    PlayConcat(s, a, b);
    var end := Play(s, a + b);
    assert !StreamSafe(end.left, end.right);
    Mirrored(s, a + b);
    SwapConnected(left, right);
    var flipped := Play(Connected(right, left), Flipped(a + b));
    assert !StreamSafe(flipped.right, flipped.left);
  }

  lemma SwapConnected(left: Windows, right: Windows)
    ensures Swap(Connected(left, right)) == Connected(right, left)
  {
  }

  /** Where the windows negotiated are below 32, so that the loop ends, the streams of both directions
      stay in order in every run if and only if neither window exceeds 16. */
  lemma SafetyIff(left: Windows, right: Windows)
    requires Negotiate(left, right).tx < SN_COUNT && Negotiate(right, left).tx < SN_COUNT
    ensures AlwaysSafe(left, right) <==> Bounded(left, right)
  {
    if Bounded(left, right) {
      ConnectedOk(left, right);
      hide SystemOk, Connected, StreamSafe;
      forall moves ensures var s := Play(Connected(left, right), moves);
          StreamSafe(s.left, s.right) && StreamSafe(s.right, s.left)
      {
        PlayIsRun(Connected(left, right), moves);
        StreamSafety(left, right, moves);
      }
    } else if Negotiate(left, right).tx > MAX_WINDOW {
      TooWide(left, right);
    } else {
      TooWide(right, left);
    }
  }
}

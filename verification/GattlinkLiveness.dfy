/** When a session can go on: exactly which states of it are dead ends. */
module GattlinkLiveness {
  import opened Common
  import opened GattlinkEndpoint
  import opened GattlinkSender
  import WakeUp = GattlinkWakeUp
  import opened Theorems = GattlinkTheorems
  import opened GattlinkLimits
  import opened GattlinkDeadlock
  import opened GattlinkChoked
  import opened GattlinkProgress
  import opened GattlinkRescue
  import opened Net = GattlinkNetwork
  import Sizes = GattlinkSizes
  import Witnesses = GattlinkWitnesses

  /** Some continuation gets a packet of the left end acknowledged that is not so far. */
  ghost predicate CanProgress(s: System) {
    SystemOk(s) && exists moves :: Forward(s, moves)
  }

  // ------------------------------------------------------------ the dead ends

  ghost predicate Hopeless(s: System) {
    SystemOk(s) && (s.left.actual.tx == 0 || Stalled(s.left) || Deadlocked(s) || Choked(s))
  }

  lemma HeadIsData(s: System)
    requires SystemOk(s) && s.toLeft != []
    ensures |s.toLeft[0].bytes| > 0 && s.toLeft[0].bytes[0] < CONTROL
  {
    hide FrameOk, Flow, SenderOk;
    var f, rest := s.toLeft[0], s.toLeft[1..];
    assert s.toLeft == [f] + rest;
    LinkedSwap(s.left, s.right, s.toRight, s.toLeft);
    HeadOk(s.right, s.left, f, rest, s.toRight);
    FrameParse(f, s.right.log);
  }

  lemma IdleStep(s: System, action: Action, t: Transport)
    requires SystemOk(s) && s.left.log.acked == |s.left.log.fragments|
    ensures LeftStep(s, action, t).left.log.acked == s.left.log.acked
  {
    BothReady(s);
    hide SystemOk, SenderOk, React, HandleDataPacket;
    match action
    case Local(event) =>
      if InSession(event) {
        LocalKeepsCounters(s.left, event, t);
      }
    case Receive(client) =>
      if s.toLeft != [] {
        HeadIsData(s);
        NoSlotInUse(s.left, s.toLeft[0].bytes[0] % SN_COUNT);
        PacketKeepsAcked(s.left, s.toLeft[0].bytes, client, t);
      }
    case Lose(_) =>
    case Stray(bytes, client) => StraySame(s, bytes, client, t);
  }

  lemma StalledLeft(s: System, action: Action, t: Transport)
    requires SystemOk(s) && Stalled(s.left)
    ensures Stalled(LeftStep(s, action, t).left)
  {
    BothReady(s);
    hide SystemOk, SenderOk, Stalled, React;
    match action
    case Local(event) =>
      if InSession(event) {
        StalledStep(s.left, event, t);
      }
    case Receive(client) =>
      if s.toLeft != [] {
        HeadIsData(s);
        StalledStep(s.left, RawData(s.toLeft[0].bytes, client), t);
        SameAsRawData(s.left, s.toLeft[0].bytes, client, t);
      }
    case Lose(_) =>
    case Stray(bytes, client) => StraySame(s, bytes, client, t);
  }

  lemma SameAsRawData(e: Endpoint, bytes: seq<byte>, client: Client, t: Transport)
    requires e.actual.tx < SN_COUNT
    ensures React(e, RawData(bytes, client), t) == HandleRawData(e, bytes, client, t)
  {
    hide HandleRawData;
  }

  lemma NoneUnacknowledged(e: Endpoint)
    requires SenderOk(e) && (e.actual.tx == 0 || Stalled(e))
    ensures e.log.acked == |e.log.fragments|
  {
    hide Flat, SizesMatch, FragmentSizes;
  }

  lemma IdleHopeless(s: System, m: Move)
    requires SystemOk(s) && (s.left.actual.tx == 0 || Stalled(s.left))
    ensures var s' := Step(s, m);
            && SystemOk(s') && s'.left.log.acked == s.left.log.acked && s'.left.actual == s.left.actual
            && (Stalled(s.left) ==> Stalled(s'.left))
  {
    BothReady(s);
    StepOk(s, m);
    hide SystemOk, SenderOk, Stalled, LeftStep, WakeUp.EndpointOk;
    if m.atLeft {
      NoneUnacknowledged(s.left);
      IdleStep(s, m.action, m.transport);
      WindowsStay(s, m.action, m.transport);
      if Stalled(s.left) {
        StalledLeft(s, m.action, m.transport);
      }
    } else {
      Sizes.RightStepKeepsLeft(s, m.action, m.transport);
    }
  }

  lemma HopelessStep(s: System, m: Move)
    requires Hopeless(s)
    ensures Hopeless(Step(s, m)) && Step(s, m).left.log.acked == s.left.log.acked
  {
    StepOk(s, m);
    hide SystemOk, Stalled, Step, Waiting, Muffled, NoNews;
    BothReady(s);
    if s.left.actual.tx == 0 || Stalled(s.left) {
      IdleHopeless(s, m);
    } else if Deadlocked(s) {
      DeadlockedStep(s, m);
    } else {
      ChokedStep(s, m);
    }
  }

  /** No run leads out of a dead end, and nothing is acknowledged in it. */
  lemma {:induction false} HopelessForever(s: System, moves: seq<Move>)
    requires Hopeless(s)
    ensures SystemOk(s) && Hopeless(Net.Run(s, moves)) && Net.Run(s, moves).left.log.acked == s.left.log.acked
    decreases |moves|
  {
    hide Step, Linked, FramesOk, SenderOk, Stalled, Deadlocked, Choked;
    if moves != [] {
      HopelessStep(s, moves[0]);
      HopelessForever(Step(s, moves[0]), moves[1..]);
    }
  }

  lemma DeadEnd(s: System)
    requires Hopeless(s)
    ensures !CanProgress(s)
  {
    hide SystemOk, Stalled, Deadlocked, Choked;
    if CanProgress(s) {
      var moves :| Forward(s, moves);
      HopelessForever(s, moves);
      assert false;
    }
  }

  // --------------------------------------------------------------- ways forward

  lemma WideProgress(s: System)
    requires SystemOk(s) && s.left.actual.tx >= 2 && !Stalled(s.left)
    ensures CanProgress(s)
  {
    hide SystemOk, Stalled, Forward;
    ReceivedWithin(s);
    if s.left.log.acked < |s.left.log.fragments| {
      var moves := ByTimeout(s);
    } else {
      var a := Restart(s);
      var b := ByTimeout(Net.Run(s, a));
      ForwardAfter(s, a, b);
    }
  }

  lemma {:induction false} ForwardAfter(s: System, a: seq<Move>, b: seq<Move>)
    requires SystemOk(s) && SystemOk(Net.Run(s, a)) && Net.Run(s, a).left.log.acked == s.left.log.acked
    requires Forward(Net.Run(s, a), b)
    ensures Forward(s, a + b)
  {
    hide SystemOk;
    RunConcat(s, a, b);
  }

  lemma NarrowProgress(s: System)
    requires SystemOk(s) && s.left.actual.tx == 1
    requires !Stalled(s.left) && !Deadlocked(s) && !Choked(s)
    ensures CanProgress(s)
  {
    hide SystemOk, Stalled, Forward, Muffled, Quiet, NoNews, NoNewAcks;
    ReceivedWithin(s);
    if s.left.log.acked == |s.left.log.fragments| {
      var a := Restart(s);
      var b := ByTimeout(Net.Run(s, a));
      ForwardAfter(s, a, b);
    } else if s.right.log.received == s.left.log.acked {
      var moves := ByTimeout(s);
    } else if !NoNewAcks(s.toLeft, s.left.log.acked) {
      var i := NewAck(s.toLeft, s.left.log.acked);
      var moves := ByAckInTransit(s, i);
    } else if Muffled(s.right) {
      var moves := ByAnyNews(s);
    } else {
      var moves := ByAckOwed(s);
    }
  }

  lemma NewAck(frames: seq<Frame>, acked: nat) returns (i: nat)
    requires !NoNewAcks(frames, acked)
    ensures i < |frames| && frames[i].ackCount.Some? && |frames[i].bytes| <= MAX_PACKET_SIZE
    ensures frames[i].ackCount.value > acked
  {
    i :| i < |frames| && frames[i].ackCount.Some? && |frames[i].bytes| <= MAX_PACKET_SIZE
         && frames[i].ackCount.value > acked;
  }

  /** Exactly when some continuation of a run gets something acknowledged: with a window of two and
      more, if and only if the sender is not stalled, as it never is without a refused send; with a
      window of one, if and only if it is neither stalled nor deadlocked nor choked; without, never. */
  lemma ProgressIff(s: System)
    requires SystemOk(s)
    ensures CanProgress(s) <==> !Hopeless(s)
    ensures s.left.actual.tx >= 2 ==> (Hopeless(s) <==> Stalled(s.left))
    ensures Stalled(s.left) ==> s.left.log.refused
  {
    hide CanProgress, Muffled, NoNews;
    if Hopeless(s) {
      DeadEnd(s);
    } else if s.left.actual.tx >= 2 {
      WideProgress(s);
    } else {
      NarrowProgress(s);
    }
    hide Linked, FramesOk, SenderOk;
  }

  /** Every session can get into a dead end. */
  lemma DeadEndReached(left: Windows, right: Windows)
    requires Bounded(left, right)
    ensures exists moves :: !CanProgress(Reached(left, right, moves))
  {
    var moves := if Negotiate(left, right).tx == 0 then [] else Witnesses.RefusedResend();
    if Negotiate(left, right).tx > 0 {
      Witnesses.StallReached(left, right);
    }
    ReachedOk(left, right, moves);
    hide CanProgress, SystemOk, Stalled;
    ProgressIff(Reached(left, right, moves));
    assert !CanProgress(Reached(left, right, moves));
  }

  // ------------------------------------------------------- sessions with a window of one

  lemma StepWindows(s: System, m: Move)
    requires SystemOk(s)
    ensures Step(s, m).left.actual == s.left.actual && Step(s, m).right.actual == s.right.actual
  {
    SwapOk(s);
    if m.atLeft {
      WindowsStay(s, m.action, m.transport);
    } else {
      WindowsStay(Swap(s), m.action, m.transport);
    }
    hide SystemOk, LeftStep;
  }

  lemma {:induction false} RunWindows(s: System, moves: seq<Move>)
    requires SystemOk(s)
    ensures var s' := Net.Run(s, moves);
            SystemOk(s') && s'.left.actual == s.left.actual && s'.right.actual == s.right.actual
    decreases |moves|
  {
    hide Step, Linked, FramesOk, SenderOk;
    Net.RunOk(s, moves);
    if moves != [] {
      StepOk(s, moves[0]);
      StepWindows(s, moves[0]);
      RunWindows(Step(s, moves[0]), moves[1..]);
    }
  }

  /** The transports of the right end report at most this packet size. */
  ghost predicate RightWithin(moves: seq<Move>, bound: nat) {
    Sizes.MovesWithin(Flipped(moves), bound)
  }

  lemma AtLeastOne(moves: seq<Move>, bound: nat)
    requires Sizes.MovesWithin(moves, bound)
    ensures Sizes.MovesWithin(moves, bound + 1)
  {
    forall i | 0 <= i < |moves| ensures Sizes.MoveWithin(moves[i], bound + 1) {
      assert Sizes.MoveWithin(moves[i], bound);
    }
  }

  /** Then no fragment of the right end is longer than that leaves room for. */
  lemma RightFragments(left: Windows, right: Windows, moves: seq<Move>, bound: nat)
    requires Bounded(left, right) && RightWithin(moves, bound) && bound >= 1
    ensures Sizes.FragmentsWithin(Reached(left, right, moves).right.log, bound)
  {
    hide Linked, FramesOk, SenderOk, TimersOk, WakeUp.Settled, WakeUp.ReceiverOk, Sizes.FramesWithin;
    hide Sizes.FragmentsWithin, Net.Run;
    var s, f := Connected(left, right), Flipped(moves);
    ConnectedOk(left, right);
    ConnectedOk(right, left);
    assert Swap(s) == Connected(right, left);
    Sizes.NothingSent(right, left, bound);
    Sizes.RunFits(Swap(s), f, bound);
    Mirrored(s, moves);
    PlayIsRun(s, moves);
    PlayIsRun(Swap(s), f);
  }

  lemma ShortEnough(left: Windows, right: Windows, moves: seq<Move>, bound: nat)
    requires Bounded(left, right) && RightWithin(moves, bound)
    requires bound < MAX_PACKET_SIZE || Negotiate(right, left).tx == 0
    ensures !Muffled(Reached(left, right, moves).right)
  {
    var s := Reached(left, right, moves);
    ConnectedOk(left, right);
    RunWindows(Connected(left, right), moves);
    SwapOk(s);
    BothReady(Swap(s));
    hide SystemOk, Net.Run, Reached, AckDue;
    if bound < MAX_PACKET_SIZE {
      if bound == 0 {
        AtLeastOne(Flipped(moves), bound);
      }
      RightFragments(left, right, moves, if bound == 0 then 1 else bound);
    } else {
      NoneUnacknowledged(s.right);
    }
  }

  /** In every reachable state a stalled sender and a deadlock are the only dead ends. */
  ghost predicate Predictable(left: Windows, right: Windows, bound: nat)
    requires Bounded(left, right)
  {
    forall moves | RightWithin(moves, bound) ::
      var s := Reached(left, right, moves);
      CanProgress(s) <==> !Stalled(s.left) && !Deadlocked(s)
  }

  lemma AnySize(moves: seq<Move>, bound: nat)
    requires bound >= MAX_PACKET_SIZE
    ensures RightWithin(moves, bound)
  {
  }

  lemma ThirdDeadEnd(left: Windows, right: Windows, bound: nat)
    requires Bounded(left, right) && Negotiate(left, right).tx == 1
    requires bound >= MAX_PACKET_SIZE && Negotiate(right, left).tx >= 1
    ensures !Predictable(left, right, bound)
  {
    var moves := Witnesses.RefusedAck(seq(MAX_PACKET_SIZE - 1, _ => 0));
    var s := Reached(left, right, moves);
    Witnesses.ChokedReached(left, right, seq(MAX_PACKET_SIZE - 1, _ => 0));
    AnySize(moves, bound);
    ChokedOnly(s);
    hide CanProgress, Stalled, Deadlocked, Choked, Reached, RightWithin, Witnesses.RefusedAck;
    ProgressIff(s);
  }

  lemma ChokedOnly(s: System)
    requires Choked(s)
    ensures SystemOk(s) && !Stalled(s.left) && !Deadlocked(s)
  {
    ReceivedWithin(s);
    hide SystemOk, SenderOk;
  }

  /** With a window of one they are the only ones if and only if the other end's transport never
      reports the largest packet size, or that end may send no data at all. */
  lemma NarrowIff(left: Windows, right: Windows, bound: nat)
    requires Bounded(left, right) && Negotiate(left, right).tx == 1
    ensures Predictable(left, right, bound) <==> bound < MAX_PACKET_SIZE || Negotiate(right, left).tx == 0
  {
    if bound < MAX_PACKET_SIZE || Negotiate(right, left).tx == 0 {
      forall moves | RightWithin(moves, bound)
        ensures var s := Reached(left, right, moves); CanProgress(s) <==> !Stalled(s.left) && !Deadlocked(s)
      {
        ConnectedOk(left, right);
        RunWindows(Connected(left, right), moves);
        ShortEnough(left, right, moves, bound);
        hide CanProgress, Stalled, Deadlocked, Net.Run, SystemOk, Muffled;
        ProgressIff(Reached(left, right, moves));
      }
    } else {
      ThirdDeadEnd(left, right, bound);
    }
  }
}

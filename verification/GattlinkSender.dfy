/** What one endpoint keeps true whatever its peer, its client and the transport do:
    the 5-bit sender stays in step with unbounded counters, and no wake-up is lost. */
module GattlinkSender {
  import opened Common
  import opened GattlinkEndpoint

  /** Largest window for which the sequence number tests are unambiguous. */
  const MAX_WINDOW := 16

  /** The recorded sizes are those of the fragments numbered `acked` up to the last
      one sent, each in the slot of its 5-bit number, and every other slot is 0. */
  ghost predicate SizesMatch(sizes: SizeTable, acked: nat, fragments: seq<seq<byte>>) {
    forall i :: acked <= i < acked + SN_COUNT ==>
      sizes[i % SN_COUNT] == if i < |fragments| then |fragments[i]| else 0
  }

  /** No fragment is empty, and each fits into a packet behind its sequence number. */
  ghost predicate FragmentSizes(fragments: seq<seq<byte>>) {
    forall i :: 0 <= i < |fragments| ==> 0 < |fragments[i]| < MAX_PACKET_SIZE
  }

  /** The sender of an open session. `next` can fall behind `acked` when a
      refused send interrupts a retransmission. */
  ghost predicate SenderOk(e: Endpoint) {
    var log := e.log;
    var sent := |log.fragments|;
    && e.actual.tx <= MAX_WINDOW
    && log.acked <= sent <= log.acked + e.actual.tx
    && log.next <= sent <= log.next + e.actual.tx
    && e.nextExpectedAckSn == log.acked % SN_COUNT
    && e.nextDataSn == log.next % SN_COUNT
    && FragmentSizes(log.fragments)
    && SizesMatch(e.payloadSizes, log.acked, log.fragments)
    && log.submitted == log.consumed + e.outgoing
    && log.consumed == Flat(log.fragments[..log.acked])
    && Flat(log.fragments[log.acked..]) <= e.outgoing
  }

  ghost predicate TimersOk(e: Endpoint) {
    && (e.log.acked < |e.log.fragments| ==> e.retransmitTimer)
    && (e.log.ackOwed ==> e.ackTimer || e.ackNow)
    && (e.outstanding > 0 ==> e.log.ackOwed)
  }

  // ------------------------------------------------- arithmetic of the slots

  lemma ModStep(i: nat)
    ensures NextSn(i % SN_COUNT) == (i + 1) % SN_COUNT
  {
  }

  lemma ModDistance(i: nat, j: nat)
    requires i <= j < i + SN_COUNT
    ensures Distance(i % SN_COUNT, j % SN_COUNT) == j - i
  {
  }

  lemma DistanceBack(a: Sn, b: Sn)
    ensures Distance(a, b) == if a == b then 0 else SN_COUNT - Distance(b, a)
  {
  }

  /** Summing slots from one number to another sums the fragments between them. */
  lemma {:induction false} AwaitingIsFlat(sizes: SizeTable, acked: nat, fragments: seq<seq<byte>>, i: nat, j: nat)
    requires SizesMatch(sizes, acked, fragments)
    requires acked <= i <= j <= |fragments| && j < acked + SN_COUNT
    ensures AwaitingUpTo(sizes, i % SN_COUNT, j % SN_COUNT) == |Flat(fragments[i..j])|
    decreases j - i
  {
    ModDistance(i, j);
    if i < j {
      ModStep(i);
      AwaitingIsFlat(sizes, acked, fragments, i + 1, j);
      assert fragments[i..j][1..] == fragments[i + 1..j];
    }
  }

  /** Clearing slots moves the start of the recorded range. */
  lemma {:induction false} ClearMoves(sizes: SizeTable, acked: nat, fragments: seq<seq<byte>>, j: nat)
    requires SizesMatch(sizes, acked, fragments)
    requires acked <= j <= |fragments| && j < acked + SN_COUNT
    requires |fragments| <= acked + SN_COUNT
    ensures SizesMatch(ClearUpTo(sizes, acked % SN_COUNT, j % SN_COUNT), j, fragments)
    decreases j - acked
  {
    ModDistance(acked, j);
    if acked < j {
      ModStep(acked);
      hide SizesMatch;
      ClearOne(sizes, acked, fragments);
      ClearMoves(sizes[acked % SN_COUNT := 0], acked + 1, fragments, j);
    }
  }

  lemma ClearOne(sizes: SizeTable, acked: nat, fragments: seq<seq<byte>>)
    requires SizesMatch(sizes, acked, fragments) && acked < |fragments| <= acked + SN_COUNT
    ensures SizesMatch(sizes[acked % SN_COUNT := 0], acked + 1, fragments)
  {
    var cleared: SizeTable := sizes[acked % SN_COUNT := 0];
    forall i | acked + 1 <= i < acked + 1 + SN_COUNT
      ensures cleared[i % SN_COUNT] == if i < |fragments| then |fragments[i]| else 0
    {
      if i == acked + SN_COUNT {
        assert i % SN_COUNT == acked % SN_COUNT;
      } else {
        assert i % SN_COUNT != acked % SN_COUNT;
      }
    }
  }

  lemma ModOwner(base: nat, psn: Sn) returns (j: nat)
    ensures base <= j < base + SN_COUNT && j % SN_COUNT == psn
  {
    j := base + Distance(base % SN_COUNT, psn);
  }

  /** A slot that is in use names exactly one unacknowledged packet. */
  lemma SlotOwner(sizes: SizeTable, acked: nat, fragments: seq<seq<byte>>, psn: Sn) returns (j: nat)
    requires SizesMatch(sizes, acked, fragments) && sizes[psn] != 0
    ensures acked <= j < |fragments| && j < acked + SN_COUNT && j % SN_COUNT == psn
  {
    j := ModOwner(acked, psn);
  }

  /** The slot of an unacknowledged packet is in use. */
  lemma SlotFull(e: Endpoint, j: nat)
    requires SenderOk(e) && e.log.acked <= j < |e.log.fragments|
    ensures e.payloadSizes[j % SN_COUNT] != 0
  {
    hide Flat;
  }

  /** With nothing unacknowledged no ack means anything. */
  lemma NoSlotInUse(e: Endpoint, psn: Sn)
    requires SenderOk(e) && e.log.acked == |e.log.fragments|
    ensures e.payloadSizes[psn] == 0
  {
    hide Flat;
    if e.payloadSizes[psn] != 0 {
      var j := SlotOwner(e.payloadSizes, e.log.acked, e.log.fragments, psn);
      assert false;
    }
  }

  lemma SizesGrow(sizes: SizeTable, acked: nat, fragments: seq<seq<byte>>, payload: seq<byte>)
    requires SizesMatch(sizes, acked, fragments)
    requires acked <= |fragments| < acked + SN_COUNT
    ensures SizesMatch(sizes[|fragments| % SN_COUNT := |payload|], acked, fragments + [payload])
  {
    var sent := |fragments|;
    forall i | acked <= i < acked + SN_COUNT
      ensures sizes[sent % SN_COUNT := |payload|][i % SN_COUNT]
           == if i < sent + 1 then |(fragments + [payload])[i]| else 0
    {
      if i != sent {
        assert i % SN_COUNT != sent % SN_COUNT;
      }
    }
  }

  // ---------------------------------------------------- pieces of the stream

  /** The unacknowledged stream, cut at packet `j`. */
  lemma {:induction false} FlatCut(fragments: seq<seq<byte>>, acked: nat, j: nat)
    requires acked <= j <= |fragments|
    ensures Flat(fragments[acked..]) == Flat(fragments[acked..j]) + Flat(fragments[j..])
  {
    FlatSplit(fragments[acked..], j - acked);
    assert fragments[acked..][..j - acked] == fragments[acked..j];
    assert fragments[acked..][j - acked..] == fragments[j..];
  }

  lemma {:induction false} FlatExtend(fragments: seq<seq<byte>>, acked: nat, j: nat)
    requires acked <= j <= |fragments|
    ensures Flat(fragments[..j]) == Flat(fragments[..acked]) + Flat(fragments[acked..j])
  {
    FlatSplit(fragments[..j], acked);
    assert fragments[..j][..acked] == fragments[..acked];
    assert fragments[..j][acked..] == fragments[acked..j];
  }

  lemma {:induction false} FlatHead(fragments: seq<seq<byte>>, j: nat)
    requires j < |fragments|
    ensures Flat(fragments[j..]) == fragments[j] + Flat(fragments[j + 1..])
  {
    assert fragments[j..][1..] == fragments[j + 1..];
  }

  lemma FetchMiddle(outgoing: seq<byte>, a: seq<byte>, b: seq<byte>, c: seq<byte>)
    requires a + (b + c) <= outgoing
    ensures Fetch(outgoing, |a|, |b|) == b
  {
    assert outgoing[|a|..|a| + |b|] == (a + (b + c))[|a|..|a| + |b|];
  }

  // --------------------------------------------------------------- sending

  /** The first turn of the sending loop. */
  lemma {:induction false} SendNextTurn(e: Endpoint, t: Transport)
    requires e.actual.tx < SN_COUNT
    ensures SendNext(e, t) ==
            if !SomethingToSend(e, t) then Outcome(e, [], Success)
            else if t.Refuses() then Outcome(AfterRefusal(e, t), [], Success)
            else
              var rest := SendNext(AfterSending(e, t), t.AfterSend());
              rest.(sent := [NextFrame(e, t)] + rest.sent)
  {
    hide AfterSending, AfterRefusal, NextFrame, SomethingToSend;
  }

  /** With a data packet to send, `next` is not behind `acked`. */
  lemma SendingIsInWindow(e: Endpoint, t: Transport)
    requires SenderOk(e) && NextPayloadSize(e, t) > 0
    ensures e.log.acked <= e.log.next < e.log.acked + e.actual.tx
  {
    DataHasRoom(e, t);
    hide NextPayloadSize, SizesMatch, FragmentSizes, Flat, Distance;
    if e.log.next < e.log.acked {
      ModDistance(e.log.next, e.log.acked);
      DistanceBack(e.nextDataSn, e.nextExpectedAckSn);
      assert false;
    } else {
      ModDistance(e.log.acked, e.log.next);
    }
  }

  function Payload(e: Endpoint, t: Transport): seq<byte> {
    Fetch(e.outgoing, AwaitingUpTo(e.payloadSizes, e.nextExpectedAckSn, e.nextDataSn), NextPayloadSize(e, t))
  }

  lemma NextFrameBytes(e: Endpoint, t: Transport)
    requires NextPayloadSize(e, t) > 0
    ensures NextFrame(e, t).bytes[if AckDue(e) then 2 else 1..] == Payload(e, t)
  {
  }

  /** A packet number sent before is sent again with exactly the bytes it had the first time. */
  lemma ResendSameBytes(e: Endpoint, t: Transport)
    requires SenderOk(e) && NextPayloadSize(e, t) > 0
    requires e.log.next < |e.log.fragments|
    ensures e.payloadSizes[e.nextDataSn] != 0
    ensures Payload(e, t) == e.log.fragments[e.log.next]
  {
    SendingIsInWindow(e, t);
    var acked, next, fragments := e.log.acked, e.log.next, e.log.fragments;
    AwaitingIsFlat(e.payloadSizes, acked, fragments, acked, next);
    FlatCut(fragments, acked, next);
    FlatHead(fragments, next);
    FetchMiddle(e.outgoing, Flat(fragments[acked..next]), fragments[next], Flat(fragments[next + 1..]));
  }

  /** A new packet number takes the bytes that follow everything still in flight. */
  lemma FreshBytes(e: Endpoint, t: Transport)
    requires SenderOk(e) && NextPayloadSize(e, t) > 0
    requires e.log.next == |e.log.fragments|
    ensures e.payloadSizes[e.nextDataSn] == 0
    ensures |Payload(e, t)| == NextPayloadSize(e, t)
    ensures Flat(e.log.fragments[e.log.acked..]) + Payload(e, t) <= e.outgoing
    ensures |Payload(e, t)| < MAX_PACKET_SIZE
    ensures |NextFrame(e, t).bytes| <= Min(t.maxPacketSize, MAX_PACKET_SIZE)
  {
    SendingIsInWindow(e, t);
    var acked, next, fragments := e.log.acked, e.log.next, e.log.fragments;
    AwaitingIsFlat(e.payloadSizes, acked, fragments, acked, next);
    assert fragments[acked..next] == fragments[acked..];
  }

  lemma {:induction false} AfterSendingResent(e: Endpoint, t: Transport)
    requires SenderOk(e) && NextPayloadSize(e, t) > 0
    requires e.log.next < |e.log.fragments|
    ensures SenderOk(AfterSending(e, t))
    ensures AfterSending(e, t).log.fragments == e.log.fragments
  {
    hide Flat, AwaitingUpTo, Payload, NextFrame, AckDue, Distance;
    SendingIsInWindow(e, t);
    ResendSameBytes(e, t);
    ModStep(e.log.next);
    assert AfterSending(e, t).payloadSizes == e.payloadSizes;
  }

  lemma {:induction false} AfterSendingFresh(e: Endpoint, t: Transport)
    requires SenderOk(e) && NextPayloadSize(e, t) > 0
    requires e.log.next == |e.log.fragments|
    ensures SenderOk(AfterSending(e, t))
    ensures AfterSending(e, t).log.fragments == e.log.fragments + [Payload(e, t)]
  {
    hide Flat, AwaitingUpTo, NextPayloadSize, Payload, NextFrame, AckDue, Distance;
    SendingIsInWindow(e, t);
    FreshBytes(e, t);
    ModStep(e.log.next);
    var acked, fragments, payload := e.log.acked, e.log.fragments, Payload(e, t);
    NextFrameBytes(e, t);
    assert (fragments + [payload])[..acked] == fragments[..acked];
    assert (fragments + [payload])[acked..] == fragments[acked..] + [payload];
    FlatSnoc(fragments[acked..], payload);
    SizesGrow(e.payloadSizes, acked, fragments, payload);
  }

  /** One accepted send keeps the sender in step with the unbounded counters. */
  lemma {:induction false} AfterSendingOk(e: Endpoint, t: Transport)
    requires SenderOk(e) && SomethingToSend(e, t)
    ensures SenderOk(AfterSending(e, t))
    ensures e.log.fragments <= AfterSending(e, t).log.fragments
    ensures TimersOk(e) ==> TimersOk(AfterSending(e, t))
  {
    hide Flat, AwaitingUpTo, NextPayloadSize, Payload, NextFrame, SizesMatch;
    if NextPayloadSize(e, t) > 0 {
      if e.log.next < |e.log.fragments| {
        AfterSendingResent(e, t);
      } else {
        AfterSendingFresh(e, t);
      }
    }
  }

  /** An end that is to resend from the oldest packet on is as after a timeout. */
  lemma NothingRolledBack(e: Endpoint)
    requires SenderOk(e) && e.log.next == e.log.acked
    ensures RollBack(e) == e
  {
    hide SizesMatch, FragmentSizes, Flat;
  }

  // ------------------------------------------------------------------- acks

  /** Releasing the bytes of the packets up to `j` keeps the client's stream in step. */
  lemma {:induction false} ReleaseSplits(e: Endpoint, j: nat)
    requires SenderOk(e) && e.log.acked <= j <= |e.log.fragments|
    ensures var gone := |Flat(e.log.fragments[e.log.acked..j])|;
            && gone <= |e.outgoing|
            && e.log.consumed + e.outgoing[..gone] == Flat(e.log.fragments[..j])
            && Flat(e.log.fragments[j..]) <= e.outgoing[gone..]
            && e.log.submitted == (e.log.consumed + e.outgoing[..gone]) + e.outgoing[gone..]
  {
    var acked, fragments := e.log.acked, e.log.fragments;
    FlatCut(fragments, acked, j);
    FlatExtend(fragments, acked, j);
    var gone := Flat(fragments[acked..j]);
    assert e.outgoing[..|gone|] == gone;
    assert e.outgoing == gone + e.outgoing[|gone|..];
  }

  /** An incoming ack, genuine or not, moves `acked` to just after the packet whose slot it
      names and keeps the sender in step; one that names no slot in use changes nothing. */
  lemma {:induction false} HandleAckOk(e: Endpoint, psn: Sn)
    requires SenderOk(e)
    ensures SenderOk(HandleAck(e, psn))
    ensures e.payloadSizes[psn] == 0 ==> HandleAck(e, psn) == e
    ensures e.payloadSizes[psn] != 0 ==>
              && e.log.acked < HandleAck(e, psn).log.acked <= |e.log.fragments|
              && (HandleAck(e, psn).log.acked - 1) % SN_COUNT == psn
  {
    hide Flat, AwaitingUpTo, ClearUpTo, SizesMatch, FragmentSizes, Distance, NextSn;
    if e.payloadSizes[psn] != 0 {
      var acked, fragments := e.log.acked, e.log.fragments;
      var j := SlotOwner(e.payloadSizes, acked, fragments, psn);
      ModStep(j);
      ModDistance(acked, j + 1);
      AwaitingIsFlat(e.payloadSizes, acked, fragments, acked, j + 1);
      ClearMoves(e.payloadSizes, acked, fragments, j + 1);
      ReleaseSplits(e, j + 1);
    }
  }
}

/** Two Gattlink endpoints in an open session, joined by two channels that keep order
    and lose any packet they like. */
module GattlinkNetwork {
  import opened Common
  import opened GattlinkEndpoint
  import opened GattlinkSender
  import opened GattlinkWakeUp

  /** `toRight` and `toLeft` are in transit; `byLeft` and `byRight` are all packets ever sent. */
  datatype System = System(left: Endpoint, right: Endpoint,
                           toRight: seq<Frame>, toLeft: seq<Frame>,
                           byLeft: seq<Frame>, byRight: seq<Frame>)

  function Swap(s: System): System {
    System(s.right, s.left, s.toLeft, s.toRight, s.byRight, s.byLeft)
  }

  datatype Action =
    | Local(event: Event)      // a client call or a timer
    | Receive(client: Client)  // the oldest packet in transit arrives
    | Lose(index: nat)         // a packet in transit towards this side is lost
    | Stray(bytes: seq<byte>, client: Client)  // a control packet arrives that requests no reset

  /** The session events; resets are not part of a run. */
  predicate InSession(event: Event) {
    || event.ClientSubmit? || event.ClientNotify? || event.ClientTake?
    || event.AckTimerFires? || event.RetransmitTimerFires?
  }

  /** A control packet other than a reset request, such as the completion that answers a repeated
      request after the session has opened. */
  predicate IsStray(bytes: seq<byte>) {
    |bytes| > 0 && bytes[0] >= CONTROL && bytes[0] != CONTROL + RESET_REQUEST
  }

  function Remove(frames: seq<Frame>, i: nat): seq<Frame>
    requires i < |frames|
  {
    frames[..i] + frames[i + 1..]
  }

  function Emit(s: System, o: Outcome): System {
    s.(left := o.endpoint, toRight := s.toRight + o.sent, byLeft := s.byLeft + o.sent)
  }

  function LeftStep(s: System, action: Action, t: Transport): System
    requires s.left.actual.tx < SN_COUNT
  {
    match action
    case Local(event) => if InSession(event) then Emit(s, React(s.left, event, t)) else s
    case Receive(client) =>
      if s.toLeft == [] then s
      else Emit(s.(toLeft := Remove(s.toLeft, 0)), HandleRawData(s.left, s.toLeft[0].bytes, client, t))
    case Lose(index) => if index < |s.toLeft| then s.(toLeft := Remove(s.toLeft, index)) else s
    case Stray(bytes, client) => if IsStray(bytes) then Emit(s, HandleRawData(s.left, bytes, client, t)) else s
  }

  datatype Move = Move(atLeft: bool, action: Action, transport: Transport)

  function Step(s: System, m: Move): System
    requires s.left.actual.tx < SN_COUNT && s.right.actual.tx < SN_COUNT
  {
    if m.atLeft then LeftStep(s, m.action, m.transport)
    else Swap(LeftStep(Swap(s), m.action, m.transport))
  }

  // ------------------------------------------------------------- invariant

  /** The bytes of a packet, from its numbers and the sender's fragments. */
  function FrameBytes(dataIndex: Option<nat>, ackCount: Option<nat>, fragments: seq<seq<byte>>): seq<byte>
    requires dataIndex.Some? ==> dataIndex.value < |fragments|
    requires ackCount.Some? ==> ackCount.value > 0
  {
    (if ackCount.Some? then [WITH_ACK + (ackCount.value - 1) % SN_COUNT] else []) +
    (if dataIndex.Some? then [dataIndex.value % SN_COUNT] + fragments[dataIndex.value] else [])
  }

  /** A packet of this sender: its data is the fragment of its number, its ack names a
      packet that had been accepted. */
  ghost predicate FrameOk(f: Frame, log: Log) {
    && (f.dataIndex.Some? || f.ackCount.Some?)
    && (f.dataIndex.Some? ==> f.dataIndex.value < |log.fragments|)
    && (f.ackCount.Some? ==> 1 <= f.ackCount.value <= log.ackable)
    && f.bytes == FrameBytes(f.dataIndex, f.ackCount, log.fragments)
  }

  ghost predicate FramesOk(frames: seq<Frame>, log: Log) {
    forall i :: 0 <= i < |frames| ==> FrameOk(frames[i], log)
  }

  /** No data packet in transit is more than a window behind what was accepted, or behind
      one sent before it. */
  ghost predicate DataInOrder(data: seq<Frame>, received: nat, window: nat) {
    && (forall i :: 0 <= i < |data| && data[i].dataIndex.Some? ==>
          received <= data[i].dataIndex.value + window)
    && (forall i, j :: 0 <= i < j < |data| && data[i].dataIndex.Some? && data[j].dataIndex.Some? ==>
          data[i].dataIndex.value < data[j].dataIndex.value + window)
  }

  /** Acks in transit never go backwards and are not older than the last one handled. */
  ghost predicate AcksInOrder(acks: seq<Frame>, acked: nat) {
    && (forall i :: 0 <= i < |acks| && acks[i].ackCount.Some? ==> acked <= acks[i].ackCount.value)
    && (forall i, j :: 0 <= i < j < |acks| && acks[i].ackCount.Some? && acks[j].ackCount.Some? ==>
          acks[i].ackCount.value <= acks[j].ackCount.value)
  }

  /** One direction: `s` sends data to `r`, `r` acknowledges. */
  ghost predicate Flow(s: Endpoint, r: Endpoint, data: seq<Frame>, acks: seq<Frame>) {
    && s.actual.tx == r.actual.rx
    && s.log.acked <= r.log.ackable <= r.log.received <= |s.log.fragments|
    && r.log.accepted == Flat(s.log.fragments[..r.log.received])
    && (r.ackNow || r.outstanding > 0 || r.ackTimer ==> r.log.ackable > 0)
    && FramesOk(data, s.log)
    && DataInOrder(data, r.log.received, s.actual.tx)
    && AcksInOrder(acks, s.log.acked)
  }

  /** Both directions. It is symmetric in the two ends. */
  ghost predicate Linked(s: Endpoint, r: Endpoint, data: seq<Frame>, acks: seq<Frame>) {
    Flow(s, r, data, acks) && Flow(r, s, acks, data)
  }

  /** Acks name the last packet accepted, as they do between two events. */
  ghost predicate CaughtUp(e: Endpoint) {
    e.log.ackable == e.log.received
  }

  ghost predicate SystemOk(s: System) {
    && EndpointOk(s.left) && EndpointOk(s.right)
    && CaughtUp(s.left) && CaughtUp(s.right)
    && s.left.state == Ready && s.right.state == Ready
    && Linked(s.left, s.right, s.toRight, s.toLeft)
    && FramesOk(s.byLeft, s.left.log) && FramesOk(s.byRight, s.right.log)
  }

  // --------------------------------------------------------- sending packets

  ghost predicate Grows(log: Log, log': Log) {
    log.fragments <= log'.fragments && log.received <= log'.received && log.ackable <= log'.ackable
  }

  lemma FrameOkGrows(f: Frame, log: Log, log': Log)
    requires FrameOk(f, log) && Grows(log, log')
    ensures FrameOk(f, log')
  {
  }

  lemma FramesOkGrow(frames: seq<Frame>, log: Log, log': Log)
    requires FramesOk(frames, log) && Grows(log, log')
    ensures FramesOk(frames, log')
  {
    forall i | 0 <= i < |frames| ensures FrameOk(frames[i], log') {
      FrameOkGrows(frames[i], log, log');
    }
  }

  /** The packet the loop builds is a packet of this sender. */
  lemma NextFrameOk(e: Endpoint, t: Transport)
    requires SenderOk(e) && ReceiverOk(e) && SomethingToSend(e, t)
    requires e.ackNow || e.outstanding > 0 ==> e.log.ackable > 0
    ensures FrameOk(NextFrame(e, t), AfterSending(e, t).log)
    ensures e.log.received == AfterSending(e, t).log.received && e.log.ackable == AfterSending(e, t).log.ackable
  {
    hide AwaitingUpTo, NextPayloadSize, SizesMatch, Flat, FragmentSizes;
    if NextPayloadSize(e, t) > 0 {
      if e.log.next < |e.log.fragments| {
        ResendSameBytes(e, t);
        AfterSendingResent(e, t);
      } else {
        FreshBytes(e, t);
        AfterSendingFresh(e, t);
      }
    }
  }

  lemma DataAppend(data: seq<Frame>, f: Frame, received: nat, window: nat, sent: nat)
    requires DataInOrder(data, received, window) && received <= sent
    requires forall i :: 0 <= i < |data| && data[i].dataIndex.Some? ==> data[i].dataIndex.value < sent
    requires f.dataIndex.Some? ==> sent <= f.dataIndex.value + window
    ensures DataInOrder(data + [f], received, window)
  {
  }

  lemma AcksAppend(acks: seq<Frame>, f: Frame, acked: nat, ackable: nat)
    requires AcksInOrder(acks, acked) && acked <= ackable
    requires forall i :: 0 <= i < |acks| && acks[i].ackCount.Some? ==> acks[i].ackCount.value <= ackable
    requires f.ackCount.Some? ==> f.ackCount.value == ackable
    ensures AcksInOrder(acks + [f], acked)
  {
  }

  lemma FramesAppend(frames: seq<Frame>, f: Frame, log: Log)
    requires FramesOk(frames, log) && FrameOk(f, log)
    ensures FramesOk(frames + [f], log)
  {
  }

  /** One send keeps both directions in order. */
  lemma SendOneLinked(s: Endpoint, r: Endpoint, data: seq<Frame>, acks: seq<Frame>, t: Transport)
    requires SenderOk(s) && ReceiverOk(s) && SomethingToSend(s, t)
    requires Linked(s, r, data, acks)
    ensures Linked(AfterSending(s, t), r, data + [NextFrame(s, t)], acks)
  {
    hide AwaitingUpTo, NextPayloadSize, SizesMatch, Flat, FragmentSizes, FrameOk;
    var s', f := AfterSending(s, t), NextFrame(s, t);
    NextFrameOk(s, t);
    AfterSendingOk(s, t);
    FramesOkGrow(data, s.log, s'.log);
    FramesAppend(data, f, s'.log);
    InTransitBounds(data, s.log);
    DataAppend(data, f, r.log.received, s.actual.tx, |s.log.fragments|);
    AcksAppend(data, f, r.log.acked, s.log.ackable);
    assert s'.log.fragments[..r.log.received] == s.log.fragments[..r.log.received];
  }

  lemma InTransitBounds(frames: seq<Frame>, log: Log)
    requires FramesOk(frames, log)
    ensures forall i :: 0 <= i < |frames| && frames[i].dataIndex.Some? ==> frames[i].dataIndex.value < |log.fragments|
    ensures forall i :: 0 <= i < |frames| && frames[i].ackCount.Some? ==> frames[i].ackCount.value <= log.ackable
  {
    forall i | 0 <= i < |frames|
      ensures frames[i].dataIndex.Some? ==> frames[i].dataIndex.value < |log.fragments|
      ensures frames[i].ackCount.Some? ==> frames[i].ackCount.value <= log.ackable
    {
      assert FrameOk(frames[i], log);
    }
  }

  /** Everything the two directions depend on in an endpoint. */
  ghost predicate SameLink(a: Endpoint, b: Endpoint) {
    && b.actual == a.actual
    && b.log.acked == a.log.acked && b.log.received == a.log.received && b.log.ackable == a.log.ackable
    && b.log.fragments == a.log.fragments && b.log.accepted == a.log.accepted
    && (b.ackNow || b.outstanding > 0 || b.ackTimer ==> a.ackNow || a.outstanding > 0 || a.ackTimer)
  }

  lemma LinkedSame(s: Endpoint, s': Endpoint, r: Endpoint, data: seq<Frame>, acks: seq<Frame>)
    requires Linked(s, r, data, acks) && SameLink(s, s')
    ensures Linked(s', r, data, acks)
  {
    hide FrameOk, DataInOrder, AcksInOrder, Flat;
    FramesOkGrow(data, s.log, s'.log);
  }

  lemma {:induction false} SendNextLinked(s: Endpoint, r: Endpoint, data: seq<Frame>, acks: seq<Frame>, t: Transport)
    requires SenderOk(s) && ReceiverOk(s)
    requires Linked(s, r, data, acks)
    ensures var o := SendNext(s, t);
            && Linked(o.endpoint, r, data + o.sent, acks)
            && FramesOk(o.sent, o.endpoint.log)
            && Grows(s.log, o.endpoint.log)
    decreases WindowLeft(s), AckDue(s)
  {
    hide SendNext, Linked, AfterSending, AfterRefusal, NextFrame, SomethingToSend, AckDue, WindowLeft;
    hide FrameOk, FramesOk, ReceiverOk, SameLink, SizesMatch, FragmentSizes, Flat;
    if !SomethingToSend(s, t) || t.Refuses() {
      SendNothingLinked(s, r, data, acks, t);
    } else {
      var s', f := AfterSending(s, t), NextFrame(s, t);
      SendProgress(s, t);
      SendOneLinked(s, r, data, acks, t);
      SendOneKeeps(s, r, t, data, acks);
      SendNextLinked(s', r, data + [f], acks, t.AfterSend());
      SendGlue(s, r, data, acks, t);
    }
  }

  lemma {:induction false} SendNothingLinked(s: Endpoint, r: Endpoint, data: seq<Frame>, acks: seq<Frame>, t: Transport)
    requires s.actual.tx < SN_COUNT && Linked(s, r, data, acks)
    requires !SomethingToSend(s, t) || t.Refuses()
    ensures var o := SendNext(s, t);
            && Linked(o.endpoint, r, data + o.sent, acks)
            && FramesOk(o.sent, o.endpoint.log)
            && Grows(s.log, o.endpoint.log)
  {
    SendNextTurn(s, t);
    hide SendNext, Linked, AfterSending, NextFrame, SomethingToSend, FrameOk;
    assert data + [] == data;
    if SomethingToSend(s, t) {
      RefusalSameLink(s, t);
      LinkedSame(s, AfterRefusal(s, t), r, data, acks);
    }
  }

  /** Putting the first packet of the loop in front of the others. */
  lemma {:induction false} SendGlue(s: Endpoint, r: Endpoint, data: seq<Frame>, acks: seq<Frame>, t: Transport)
    requires s.actual.tx < SN_COUNT && SomethingToSend(s, t) && !t.Refuses()
    requires FrameOk(NextFrame(s, t), AfterSending(s, t).log)
    requires var s', rest := AfterSending(s, t), SendNext(AfterSending(s, t), t.AfterSend());
             && Linked(rest.endpoint, r, (data + [NextFrame(s, t)]) + rest.sent, acks)
             && FramesOk(rest.sent, rest.endpoint.log)
             && Grows(s'.log, rest.endpoint.log)
    ensures var o := SendNext(s, t);
            && Linked(o.endpoint, r, data + o.sent, acks)
            && FramesOk(o.sent, o.endpoint.log)
            && o.endpoint == SendNext(AfterSending(s, t), t.AfterSend()).endpoint
  {
    SendNextTurn(s, t);
    hide SendNext, Linked, AfterSending, NextFrame, SomethingToSend, FrameOk, FramesOk;
    var s', f, rest := AfterSending(s, t), NextFrame(s, t), SendNext(AfterSending(s, t), t.AfterSend());
    assert data + ([f] + rest.sent) == (data + [f]) + rest.sent;
    FrameOkGrows(f, s'.log, rest.endpoint.log);
    FramesPrepend(f, rest.sent, rest.endpoint.log);
  }

  lemma FramesPrepend(f: Frame, frames: seq<Frame>, log: Log)
    requires FrameOk(f, log) && FramesOk(frames, log)
    ensures FramesOk([f] + frames, log)
  {
  }

  lemma RefusalSameLink(s: Endpoint, t: Transport)
    ensures SameLink(s, AfterRefusal(s, t))
    ensures AfterRefusal(s, t).log.fragments == s.log.fragments
  {
  }

  lemma SendOneKeeps(s: Endpoint, r: Endpoint, t: Transport, data: seq<Frame>, acks: seq<Frame>)
    requires SenderOk(s) && ReceiverOk(s) && SomethingToSend(s, t)
    requires Linked(s, r, data, acks)
    ensures SenderOk(AfterSending(s, t)) && ReceiverOk(AfterSending(s, t))
    ensures FrameOk(NextFrame(s, t), AfterSending(s, t).log)
    ensures Grows(s.log, AfterSending(s, t).log)
  {
    hide AwaitingUpTo, NextPayloadSize, SizesMatch, Flat, FragmentSizes, FrameOk, NextFrame;
    AfterSendingOk(s, t);
    NextFrameOk(s, t);
  }

  // ------------------------------------------------------- receiving packets

  lemma RemoveFrames(frames: seq<Frame>, i: nat, log: Log)
    requires i < |frames| && FramesOk(frames, log)
    ensures FramesOk(Remove(frames, i), log)
  {
  }

  lemma RemoveData(data: seq<Frame>, i: nat, received: nat, window: nat)
    requires i < |data| && DataInOrder(data, received, window)
    ensures DataInOrder(Remove(data, i), received, window)
  {
  }

  lemma RemoveAcks(acks: seq<Frame>, i: nat, acked: nat)
    requires i < |acks| && AcksInOrder(acks, acked)
    ensures AcksInOrder(Remove(acks, i), acked)
  {
  }

  /** Losing a packet keeps both directions in order. */
  lemma RemoveLinked(s: Endpoint, r: Endpoint, data: seq<Frame>, acks: seq<Frame>, i: nat)
    requires i < |data| && Linked(s, r, data, acks)
    ensures Linked(s, r, Remove(data, i), acks)
  {
    hide FrameOk, FramesOk, DataInOrder, AcksInOrder, Flat, Remove;
    RemoveFrames(data, i, s.log);
    RemoveData(data, i, r.log.received, s.actual.tx);
    RemoveAcks(data, i, r.log.acked);
  }

  /** Two numbers less than 32 apart that agree modulo 32 are equal. */
  lemma CloseMod(a: nat, b: nat)
    requires a % SN_COUNT == b % SN_COUNT && a < b + SN_COUNT && b < a + SN_COUNT
    ensures a == b
  {
  }

  /** An ack from the peer is taken for exactly the packet it names: handling it moves `acked`
      to what the peer had accepted when it sent the ack, or changes nothing if that is old. */
  lemma AckMeansAccepted(r: Endpoint, s: Endpoint, f: Frame, acks: seq<Frame>, data: seq<Frame>)
    requires SenderOk(r) && Linked(s, r, [f] + data, acks) && f.ackCount.Some?
    ensures var r' := HandleAck(r, (f.ackCount.value - 1) % SN_COUNT);
            r' == r || r'.log.acked == f.ackCount.value
  {
    hide FrameBytes, DataInOrder, Flat, SizesMatch, FragmentSizes, ClearUpTo, AwaitingUpTo;
    var psn: Sn := (f.ackCount.value - 1) % SN_COUNT;
    HandleAckOk(r, psn);
    assert FrameOk(([f] + data)[0], s.log);
    if r.payloadSizes[psn] != 0 {
      assert ([f] + data)[0].ackCount.value >= r.log.acked;
      CloseMod(HandleAck(r, psn).log.acked - 1, f.ackCount.value - 1);
    }
  }

  /** What the receiver reads in a packet is what the sender put there. */
  lemma FrameParse(f: Frame, log: Log)
    requires FrameOk(f, log)
    ensures |f.bytes| > 0 && f.bytes[0] < CONTROL
    ensures HasAck(f.bytes) <==> f.ackCount.Some?
    ensures f.ackCount.Some? ==> f.bytes[0] % SN_COUNT == (f.ackCount.value - 1) % SN_COUNT
    ensures var data := if HasAck(f.bytes) then f.bytes[1..] else f.bytes;
            data == if f.dataIndex.Some? then [f.dataIndex.value % SN_COUNT] + log.fragments[f.dataIndex.value] else []
  {
    if f.ackCount.Some? {
      var header: byte := WITH_ACK + (f.ackCount.value - 1) % SN_COUNT;
      assert f.bytes[0] == header;
      assert header / WITH_ACK == 1;
    } else {
      assert f.bytes[0] == f.dataIndex.value % SN_COUNT;
      assert f.bytes[0] / WITH_ACK == 0;
    }
  }

  lemma AckLinked(s: Endpoint, r: Endpoint, f: Frame, data: seq<Frame>, acks: seq<Frame>)
    requires SenderOk(r) && Linked(s, r, [f] + data, acks) && f.ackCount.Some?
    ensures Linked(s, HandleAck(r, (f.ackCount.value - 1) % SN_COUNT), data, acks)
  {
    var r' := HandleAck(r, (f.ackCount.value - 1) % SN_COUNT);
    AckMeansAccepted(r, s, f, acks, data);
    DropHead(s, r, f, data, acks);
    if r' != r {
      hide FrameOk, DataInOrder, Flat, SenderOk, AwaitingUpTo, ClearUpTo;
      FramesOkGrow(acks, r.log, r'.log);
      forall i | 0 <= i < |data| && data[i].ackCount.Some?
        ensures f.ackCount.value <= data[i].ackCount.value
      {
        assert ([f] + data)[0] == f && ([f] + data)[i + 1] == data[i];
      }
      assert FrameOk(([f] + data)[0], s.log);
      AckWithin(f, s.log);
    }
  }

  lemma AckWithin(f: Frame, log: Log)
    requires FrameOk(f, log)
    ensures f.ackCount.Some? ==> 1 <= f.ackCount.value <= log.ackable
    ensures f.dataIndex.Some? ==> f.dataIndex.value < |log.fragments|
  {
  }

  lemma DropHead(s: Endpoint, r: Endpoint, f: Frame, data: seq<Frame>, acks: seq<Frame>)
    requires Linked(s, r, [f] + data, acks)
    ensures Linked(s, r, data, acks)
  {
    hide Linked;
    RemoveLinked(s, r, [f] + data, acks, 0);
    assert Remove([f] + data, 0) == data;
  }

  /** With a window of at most 16 the receiver judges every packet in transit by its true
      number: the next one is accepted, one before it is known to be old, and one beyond a
      gap is never taken for an old one. */
  lemma JudgedByTrueNumber(r: Endpoint, k: nat, window: nat)
    requires r.nextExpectedDataPsn == r.log.received % SN_COUNT
    requires r.actual.rx == window <= MAX_WINDOW
    requires k < r.log.received + window && r.log.received <= k + window
    ensures Judge(r, k % SN_COUNT) ==
            if k == r.log.received then Expected
            else if k < r.log.received < k + window then Resent
            else Unexpected
  {
    hide Distance;
    if k <= r.log.received {
      ModDistance(k, r.log.received);
    } else {
      ModDistance(r.log.received, k);
      DistanceBack(k % SN_COUNT, r.log.received % SN_COUNT);
    }
    DistanceZero(k % SN_COUNT, r.log.received % SN_COUNT);
  }

  lemma DistanceZero(a: Sn, b: Sn)
    ensures Distance(a, b) == 0 <==> a == b
  {
  }

  lemma DataWithin(s: Endpoint, r: Endpoint, f: Frame, data: seq<Frame>, acks: seq<Frame>)
    requires SenderOk(s) && Linked(s, r, [f] + data, acks) && f.dataIndex.Some?
    ensures var k := f.dataIndex.value;
            && k < |s.log.fragments|
            && k < r.log.received + s.actual.tx && r.log.received <= k + s.actual.tx
            && (forall i :: 0 <= i < |data| && data[i].dataIndex.Some? ==> k < data[i].dataIndex.value + s.actual.tx)
  {
    hide FrameOk, AcksInOrder, Flat, SizesMatch, FragmentSizes;
    assert ([f] + data)[0] == f;
    assert FrameOk(([f] + data)[0], s.log);
    AckWithin(f, s.log);
    forall i | 0 <= i < |data| && data[i].dataIndex.Some?
      ensures f.dataIndex.value < data[i].dataIndex.value + s.actual.tx
    {
      assert ([f] + data)[i + 1] == data[i];
    }
  }

  /** Buffering the expected packet extends the accepted stream by its fragment. */
  lemma BufferedLinked(s: Endpoint, r: Endpoint, data: seq<Frame>, acks: seq<Frame>)
    requires Linked(s, r, data, acks) && r.log.received < |s.log.fragments|
    requires forall i :: 0 <= i < |data| && data[i].dataIndex.Some? ==>
               r.log.received < data[i].dataIndex.value + s.actual.tx
    ensures var r' := Buffered(r, r.log.received % SN_COUNT, s.log.fragments[r.log.received]);
            Linked(s, r', data, acks) && Grows(r.log, r'.log)
  {
    var received, fragments := r.log.received, s.log.fragments;
    var r' := Buffered(r, received % SN_COUNT, fragments[received]);
    hide FrameOk, Flat;
    FlatSnoc(fragments[..received], fragments[received]);
    assert fragments[..received + 1] == fragments[..received] + [fragments[received]];
    FramesOkGrow(acks, r.log, r'.log);
  }

  /** From then on acks may name it. */
  lemma NotedLinked(s: Endpoint, r: Endpoint, data: seq<Frame>, acks: seq<Frame>, psn: Sn, take: nat)
    requires Linked(s, r, data, acks) && r.log.received > 0
    ensures var r' := OweAck(Noted(r, psn, take));
            Linked(s, r', data, acks) && Grows(r.log, r'.log)
  {
    var r' := OweAck(Noted(r, psn, take));
    NotedEffect(r, psn, take);
    hide Noted, OweAck, FrameOk, Flat, DataInOrder;
    FramesOkGrow(acks, r.log, r'.log);
  }

  lemma NotedEffect(r: Endpoint, psn: Sn, take: nat)
    ensures var r' := OweAck(Noted(r, psn, take));
            && r'.actual == r.actual && r'.log.acked == r.log.acked && r'.log.fragments == r.log.fragments
            && r'.log.received == r.log.received == r'.log.ackable && r'.log.accepted == r.log.accepted
  {
  }

  lemma OweAckLinked(s: Endpoint, r: Endpoint, data: seq<Frame>, acks: seq<Frame>)
    requires Linked(s, r, data, acks) && r.log.ackable > 0
    ensures Linked(s, OweAck(r), data, acks)
  {
    hide FrameOk, Flat, DataInOrder, AcksInOrder;
    FramesOkGrow(acks, r.log, OweAck(r).log);
  }

  /** What a handler at `r` must leave behind: both directions in order, counting the
      packets it has sent, and a log that only grows. */
  ghost predicate Handled(s: Endpoint, r: Endpoint, o: Outcome, data: seq<Frame>, acks: seq<Frame>) {
    && Linked(o.endpoint, s, acks + o.sent, data)
    && FramesOk(o.sent, o.endpoint.log)
    && Grows(r.log, o.endpoint.log)
  }

  lemma {:induction false} SendHandled(s: Endpoint, r: Endpoint, r': Endpoint, data: seq<Frame>, acks: seq<Frame>,
                                       t: Transport)
    requires SenderOk(r') && ReceiverOk(r') && Linked(s, r', data, acks)
    requires Grows(r.log, r'.log)
    ensures Handled(s, r, SendNext(r', t), data, acks)
  {
    hide SendNext, ReceiverOk, Flow, FramesOk, SizesMatch, FragmentSizes, Flat;
    SendNextLinked(r', s, acks, data, t);
  }

  lemma QuietHandled(s: Endpoint, r: Endpoint, r': Endpoint, status: Status, data: seq<Frame>, acks: seq<Frame>)
    requires Linked(s, r', data, acks)
    requires Grows(r.log, r'.log)
    ensures Handled(s, r, Outcome(r', [], status), data, acks)
  {
    hide Flow, FrameOk;
    assert acks + [] == acks;
  }

  lemma PayloadHandled(s: Endpoint, r: Endpoint, k: nat, data: seq<Frame>, acks: seq<Frame>, client: Client,
                       t: Transport)
    requires EndpointOk(r) && Open(r) && CaughtUp(r) && Linked(s, r, data, acks)
    requires s.actual.tx <= MAX_WINDOW
    requires k < |s.log.fragments| && k < r.log.received + s.actual.tx && r.log.received <= k + s.actual.tx
    requires forall i :: 0 <= i < |data| && data[i].dataIndex.Some? ==> k < data[i].dataIndex.value + s.actual.tx
    ensures Handled(s, r, HandlePayload(r, [k % SN_COUNT] + s.log.fragments[k], client, t), data, acks)
  {
    hide SendNext, Accept, OweAck, Linked, Handled, FramesOk, SizesMatch, FragmentSizes, Flat, TimersOk, Settled;
    var bytes := [k % SN_COUNT] + s.log.fragments[k];
    assert bytes[0] == k % SN_COUNT && bytes[0] % SN_COUNT == k % SN_COUNT;
    assert bytes[1..] == s.log.fragments[k];
    WindowsAgree(s, r, data, acks);
    JudgedByTrueNumber(r, k, s.actual.tx);
    if r.bufferFull || Judge(r, k % SN_COUNT) == Unexpected {
      QuietHandled(s, r, r, if r.bufferFull then NotEnoughSpace else UnexpectedPsn, data, acks);
    } else if Judge(r, k % SN_COUNT) == Expected {
      AcceptedHandled(s, r, k, data, acks, client, t);
    } else {
      OweAckLinked(s, r, data, acks);
      OweAckOpen(r);
      OweAckKeeps(r);
      SendHandled(s, r, OweAck(r), data, acks, t);
    }
  }

  lemma WindowsAgree(s: Endpoint, r: Endpoint, data: seq<Frame>, acks: seq<Frame>)
    requires Linked(s, r, data, acks)
    ensures s.actual.tx == r.actual.rx
  {
  }

  lemma OweAckKeeps(r: Endpoint)
    ensures Grows(r.log, OweAck(r).log)
  {
  }

  lemma {:induction false} AcceptedHandled(s: Endpoint, r: Endpoint, k: nat, data: seq<Frame>, acks: seq<Frame>,
                                           client: Client, t: Transport)
    requires EndpointOk(r) && Open(r) && !r.bufferFull && Linked(s, r, data, acks)
    requires k == r.log.received < |s.log.fragments|
    requires forall i :: 0 <= i < |data| && data[i].dataIndex.Some? ==> k < data[i].dataIndex.value + s.actual.tx
    ensures var first := Accept(r, k % SN_COUNT, s.log.fragments[k], client);
            var rest := SendNext(OweAck(first.endpoint), t);
            Handled(s, r, rest.(sent := first.sent + rest.sent), data, acks)
  {
    hide SendNext, Refilled, Buffered, OweAck, Noted, Linked, Handled, Grows, SenderOk, TimersOk, ReceiverOk;
    hide Settled, CanSettle;
    var psn: Sn := k % SN_COUNT;
    ExpectedNumber(r);
    var r1 := Buffered(r, psn, s.log.fragments[k]);
    BufferedLinked(s, r, data, acks);
    BufferedOk(r, psn, s.log.fragments[k]);
    BufferedCounts(r, psn, s.log.fragments[k]);
    var first := Refilled(r1, client.answers);
    RefilledHandled(s, r1, client.answers, data, acks);
    RefilledOk(r1, client.answers);
    HandledLinked(s, r1, first, data, acks);
    NotedLinked(s, first.endpoint, data, acks + first.sent, psn, client.take);
    var r2 := Noted(first.endpoint, psn, client.take);
    NotedOpen(first.endpoint, psn, client.take);
    OweAckOpen(r2);
    OpenParts(OweAck(r2));
    SendHandled(s, first.endpoint, OweAck(r2), data, acks + first.sent, t);
    HandledThen(s, r1, first, SendNext(OweAck(r2), t), data, acks);
    HandledSince(s, r, r1, SendNext(OweAck(r2), t).(sent := first.sent + SendNext(OweAck(r2), t).sent), data, acks);
  }

  /** One handler after another: what the first sends goes before what the second sends. */
  lemma HandledThen(s: Endpoint, r: Endpoint, o: Outcome, o': Outcome, data: seq<Frame>, acks: seq<Frame>)
    requires Handled(s, r, o, data, acks) && Handled(s, o.endpoint, o', data, acks + o.sent)
    ensures Handled(s, r, o'.(sent := o.sent + o'.sent), data, acks)
  {
    hide Linked, FrameOk;
    assert (acks + o.sent) + o'.sent == acks + (o.sent + o'.sent);
    FramesOkGrow(o.sent, o.endpoint.log, o'.endpoint.log);
    FramesConcat(o.sent, o'.sent, o'.endpoint.log);
  }

  /** Submitting from inside a handler keeps both directions in order. */
  lemma {:induction false} RefilledHandled(s: Endpoint, r: Endpoint, refills: seq<Refill>, data: seq<Frame>,
                                           acks: seq<Frame>)
    requires EndpointOk(r) && r.state == Ready && Linked(s, r, data, acks)
    ensures Handled(s, r, Refilled(r, refills), data, acks)
    decreases |refills|
  {
    hide SendNext, Linked, Handled, SenderOk, TimersOk, Settled, ReceiverOk, SameLink, FramesOk;
    if refills == [] {
      QuietHandled(s, r, r, Success, data, acks);
    } else {
      SettledIsOpen(r);
      LocalKeeps(r, refills[0].data);
      var first := SendNext(Given(r, refills[0].data), refills[0].transport);
      LocalSend(s, r, Given(r, refills[0].data), data, acks, refills[0].transport);
      GivenSent(r, refills[0].data, refills[0].transport);
      HandledLinked(s, r, first, data, acks);
      RefilledHandled(s, first.endpoint, refills[1..], data, acks + first.sent);
      HandledThen(s, r, first, Refilled(first.endpoint, refills[1..]), data, acks);
    }
  }

  lemma HandledLinked(s: Endpoint, r: Endpoint, o: Outcome, data: seq<Frame>, acks: seq<Frame>)
    requires Handled(s, r, o, data, acks)
    ensures Linked(s, o.endpoint, data, acks + o.sent)
  {
    hide Flow;
  }

  /** The ack half of a packet, with what the client makes of it. */
  lemma AckPartHandled(s: Endpoint, r: Endpoint, f: Frame, data: seq<Frame>, acks: seq<Frame>, client: Client)
    requires EndpointOk(r) && r.state == Ready && Linked(s, r, [f] + data, acks)
    ensures var o := HandleAckPart(r, f.bytes, client);
            && Handled(s, r, o, data, acks) && EndpointOk(o.endpoint) && Open(o.endpoint)
            && o.endpoint.log.received == r.log.received && (CaughtUp(r) ==> CaughtUp(o.endpoint))
  {
    hide Refilled, HandleAck, Linked, Handled, FrameOk, Open, SenderOk, TimersOk, Settled, ReceiverOk;
    HeadOk(s, r, f, data, acks);
    FrameParse(f, s.log);
    DropHead(s, r, f, data, acks);
    SettledIsOpen(r);
    if HasAck(f.bytes) && r.payloadSizes[f.bytes[0] % SN_COUNT] != 0 {
      AckHalf(s, r, f, data, acks);
      var r1 := HandleAck(r, f.bytes[0] % SN_COUNT);
      RefilledOk(r1, client.refills);
      RefilledHandled(s, r1, client.refills, data, acks);
      HandledSince(s, r, r1, Refilled(r1, client.refills), data, acks);
    } else {
      QuietHandled(s, r, r, Success, data, acks);
    }
  }

  /** Receiving a packet keeps both directions in order. */
  lemma ReceiveHandled(s: Endpoint, r: Endpoint, f: Frame, data: seq<Frame>, acks: seq<Frame>, client: Client,
                       t: Transport)
    requires EndpointOk(s) && s.state == Ready
    requires EndpointOk(r) && r.state == Ready && CaughtUp(r)
    requires Linked(s, r, [f] + data, acks)
    ensures Handled(s, r, HandleRawData(r, f.bytes, client, t), data, acks)
  {
    hide SendNext, HandleAckPart, HandlePayload, Linked, Handled, FramesOk, FrameOk, Open, SenderOk, TimersOk;
    hide Settled, ReceiverOk;
    HeadOk(s, r, f, data, acks);
    FrameParse(f, s.log);
    DropHead(s, r, f, data, acks);
    if |f.bytes| > MAX_PACKET_SIZE {
      QuietHandled(s, r, r, InvalidParameters, data, acks);
    } else {
      var first := HandleAckPart(r, f.bytes, client);
      AckPartHandled(s, r, f, data, acks, client);
      HandledLinked(s, r, first, data, acks);
      if f.dataIndex.Some? {
        var k := f.dataIndex.value;
        DataWithin(s, r, f, data, acks);
        PayloadHandled(s, first.endpoint, k, data, acks + first.sent, client, t);
        HandledThen(s, r, first, HandlePayload(first.endpoint, [k % SN_COUNT] + s.log.fragments[k], client, t),
                    data, acks);
      } else {
        OpenParts(first.endpoint);
        SendHandled(s, first.endpoint, first.endpoint, data, acks + first.sent, t);
        HandledThen(s, r, first, SendNext(first.endpoint, t), data, acks);
      }
    }
  }

  lemma HeadOk(s: Endpoint, r: Endpoint, f: Frame, data: seq<Frame>, acks: seq<Frame>)
    requires Linked(s, r, [f] + data, acks)
    ensures FrameOk(f, s.log)
  {
    assert FrameOk(([f] + data)[0], s.log);
  }

  lemma OpenParts(e: Endpoint)
    requires Open(e)
    ensures SenderOk(e) && ReceiverOk(e)
  {
  }

  /** A packet of an open session that is not a control packet. */
  lemma DataIsPacket(e: Endpoint, bytes: seq<byte>, client: Client, t: Transport)
    requires e.actual.tx < SN_COUNT && e.state == Ready && |bytes| > 0 && bytes[0] < CONTROL
    ensures HandleRawData(e, bytes, client, t) == HandleDataPacket(e, bytes, client, t)
  {
    hide HandleDataPacket;
  }

  lemma AckHalf(s: Endpoint, r: Endpoint, f: Frame, data: seq<Frame>, acks: seq<Frame>)
    requires EndpointOk(r) && r.state == Ready
    requires Linked(s, r, [f] + data, acks) && f.ackCount.Some?
    ensures f.ackCount.value > 0
    ensures var r1 := HandleAck(r, (f.ackCount.value - 1) % SN_COUNT);
            && EndpointOk(r1) && Open(r1) && r1.state == Ready && Linked(s, r1, data, acks)
            && Grows(r.log, r1.log) && r1.log.received == r.log.received && r1.log.ackable == r.log.ackable
  {
    HeadOk(s, r, f, data, acks);
    hide Linked, Open, TimersOk, Settled, SizesMatch, Flat, ReceiverOk;
    AckLinked(s, r, f, data, acks);
    AckOpen(r, (f.ackCount.value - 1) % SN_COUNT);
  }

  lemma HandledSince(s: Endpoint, r: Endpoint, r1: Endpoint, o: Outcome, data: seq<Frame>, acks: seq<Frame>)
    requires Handled(s, r1, o, data, acks)
    requires Grows(r.log, r1.log)
    ensures Handled(s, r, o, data, acks)
  {
  }

  // ------------------------------------------------------------------ steps

  lemma {:induction false} LocalSend(s: Endpoint, r: Endpoint, r': Endpoint, data: seq<Frame>, acks: seq<Frame>,
                                     t: Transport)
    requires Linked(s, r, data, acks)
    requires SenderOk(r') && ReceiverOk(r') && SameLink(r, r')
    ensures Handled(s, r, SendNext(r', t), data, acks)
  {
    hide SendNext, Linked, Handled, ReceiverOk, SizesMatch, FragmentSizes, Flat;
    LinkedSwap(s, r, data, acks);
    LinkedSame(r, r', s, acks, data);
    LinkedSwap(r', s, acks, data);
    SendHandled(s, r, r', data, acks, t);
  }

  lemma LinkedSwap(s: Endpoint, r: Endpoint, data: seq<Frame>, acks: seq<Frame>)
    ensures Linked(s, r, data, acks) <==> Linked(r, s, acks, data)
  {
  }

  /** The three endpoints a local event hands to the sending loop. */
  lemma LocalKeeps(e: Endpoint, bytes: seq<byte>)
    requires SenderOk(e) && ReceiverOk(e)
    ensures var e1 := Given(e, bytes);
            SenderOk(e1) && ReceiverOk(e1) && SameLink(e, e1)
    ensures var e2 := RollBack(e.(retransmitTimer := false));
            SenderOk(e2) && ReceiverOk(e2) && SameLink(e, e2)
    ensures var e3 := e.(ackTimer := false, ackNow := true);
            SenderOk(e3) && ReceiverOk(e3) && (e.ackTimer ==> SameLink(e, e3))
  {
    hide SizesMatch, FragmentSizes, Flat;
  }

  /** A client call or a timer keeps both directions in order. */
  lemma LocalHandled(s: Endpoint, r: Endpoint, event: Event, data: seq<Frame>, acks: seq<Frame>, t: Transport)
    requires EndpointOk(r) && r.state == Ready && InSession(event)
    requires Linked(s, r, data, acks)
    ensures Handled(s, r, React(r, event, t), data, acks)
  {
    hide SendNext, Linked, Handled, SenderOk, ReceiverOk, TimersOk, Settled, SameLink, TakeIncoming;
    LocalKeeps(r, if event.ClientSubmit? then event.data else []);
    SameLinkRefl(r);
    match event
    case ClientSubmit(bytes) =>
      LocalSend(s, r, Given(r, bytes), data, acks, t);
    case ClientNotify => LocalSend(s, r, r, data, acks, t);
    case ClientTake(count) => LocalTake(s, r, count, data, acks);
    case AckTimerFires =>
      if r.ackTimer {
        LocalSend(s, r, r.(ackTimer := false, ackNow := true), data, acks, t);
      } else {
        QuietHandled(s, r, r, Success, data, acks);
      }
    case RetransmitTimerFires =>
      if r.retransmitTimer {
        LocalSend(s, r, RollBack(r.(retransmitTimer := false)), data, acks, t);
      } else {
        QuietHandled(s, r, r, Success, data, acks);
      }
  }

  lemma SameLinkRefl(e: Endpoint)
    ensures SameLink(e, e)
  {
  }

  lemma LocalTake(s: Endpoint, r: Endpoint, count: nat, data: seq<Frame>, acks: seq<Frame>)
    requires Linked(s, r, data, acks)
    ensures Handled(s, r, Outcome(TakeIncoming(r, count), [], TakeStatus(r, count)), data, acks)
  {
    LinkedSwap(s, r, data, acks);
    hide Linked, Handled;
    LinkedSame(r, TakeIncoming(r, count), s, acks, data);
    LinkedSwap(TakeIncoming(r, count), s, acks, data);
    QuietHandled(s, r, TakeIncoming(r, count), TakeStatus(r, count), data, acks);
  }

  lemma FramesConcat(a: seq<Frame>, b: seq<Frame>, log: Log)
    requires FramesOk(a, log) && FramesOk(b, log)
    ensures FramesOk(a + b, log)
  {
  }

  // ------------------------------------------------------- what the loop keeps

  /** The sending loop and a client that submits move none of the other counters. */
  ghost predicate SameCounters(a: Endpoint, b: Endpoint) {
    && b.log.acked == a.log.acked && b.log.received == a.log.received && b.log.ackable == a.log.ackable
    && b.log.consumed == a.log.consumed && b.log.accepted == a.log.accepted
    && b.nextExpectedDataPsn == a.nextExpectedDataPsn
  }

  lemma {:induction false} LoopKeepsCounters(e: Endpoint, t: Transport)
    requires e.actual.tx < SN_COUNT
    ensures SameCounters(e, SendNext(e, t).endpoint)
    decreases WindowLeft(e), AckDue(e)
  {
    SendNextTurn(e, t);
    hide SendNext, NextFrame;
    if SomethingToSend(e, t) && !t.Refuses() {
      SendProgress(e, t);
      LoopKeepsCounters(AfterSending(e, t), t.AfterSend());
    }
  }

  lemma {:induction false} RefilledKeepsCounters(e: Endpoint, refills: seq<Refill>)
    requires e.actual.tx < SN_COUNT
    ensures SameCounters(e, Refilled(e, refills).endpoint)
    decreases |refills|
  {
    hide SendNext;
    if refills != [] {
      LoopKeepsCounters(Given(e, refills[0].data), refills[0].transport);
      RefilledKeepsCounters(SendNext(Given(e, refills[0].data), refills[0].transport).endpoint, refills[1..]);
    }
  }

  lemma PayloadCounters(e: Endpoint, data: seq<byte>, client: Client, t: Transport)
    requires e.actual.tx < SN_COUNT && |data| > 0
    ensures var e' := HandlePayload(e, data, client, t).endpoint;
            (CaughtUp(e) ==> CaughtUp(e')) && e'.log.acked == e.log.acked
  {
    hide SendNext, Refilled;
    var psn: Sn := data[0] % SN_COUNT;
    LoopKeepsCounters(OweAck(e), t);
    RefilledKeepsCounters(Buffered(e, psn, data[1..]), client.answers);
    var e1 := Accept(e, psn, data[1..], client).endpoint;
    LoopKeepsCounters(OweAck(e1), t);
  }

  lemma AckPartCaughtUp(e: Endpoint, bytes: seq<byte>, client: Client)
    requires e.actual.tx < SN_COUNT && |bytes| > 0 && CaughtUp(e)
    ensures CaughtUp(HandleAckPart(e, bytes, client).endpoint)
  {
    hide Refilled, AwaitingUpTo, ClearUpTo;
    RefilledKeepsCounters(HandleAck(e, bytes[0] % SN_COUNT), client.refills);
  }

  lemma ReceivedCaughtUp(e: Endpoint, bytes: seq<byte>, client: Client, t: Transport)
    requires e.actual.tx < SN_COUNT && |bytes| > 0 && CaughtUp(e)
    ensures CaughtUp(HandleDataPacket(e, bytes, client, t).endpoint)
  {
    hide SendNext, HandleAckPart, HandlePayload;
    AckPartCaughtUp(e, bytes, client);
    var e1, data := HandleAckPart(e, bytes, client).endpoint, AfterAck(bytes);
    LoopKeepsCounters(e1, t);
    if data != [] {
      PayloadCounters(e1, data, client, t);
    }
  }

  lemma LocalKeepsCounters(e: Endpoint, event: Event, t: Transport)
    requires e.actual.tx < SN_COUNT && e.state == Ready && InSession(event)
    ensures SameCounters(e, React(e, event, t).endpoint)
  {
    hide SendNext;
    match event
    case ClientSubmit(data) => LoopKeepsCounters(Given(e, data), t);
    case ClientNotify => LoopKeepsCounters(e, t);
    case ClientTake(count) =>
    case AckTimerFires => LoopKeepsCounters(e.(ackTimer := false, ackNow := true), t);
    case RetransmitTimerFires => LoopKeepsCounters(RollBack(e.(retransmitTimer := false)), t);
  }

  lemma EmitOk(s: System, o: Outcome)
    requires EndpointOk(s.right) && s.right.state == Ready && FramesOk(s.byRight, s.right.log)
    requires EndpointOk(o.endpoint) && o.endpoint.state == Ready && CaughtUp(o.endpoint) && CaughtUp(s.right)
    requires FramesOk(s.byLeft, s.left.log)
    requires Handled(s.right, s.left, o, s.toLeft, s.toRight)
    ensures SystemOk(Emit(s, o))
  {
    hide EndpointOk, Linked, FrameOk;
    FramesOkGrow(s.byLeft, s.left.log, o.endpoint.log);
    FramesConcat(s.byLeft, o.sent, o.endpoint.log);
  }

  /** An open session ignores stray control packets. */
  lemma StrayIgnored(e: Endpoint, bytes: seq<byte>, client: Client, t: Transport)
    requires e.actual.tx < SN_COUNT && e.state == Ready && IsStray(bytes)
    ensures var status := if bytes[0] == CONTROL + RESET_COMPLETE then Success else InvalidParameters;
            HandleRawData(e, bytes, client, t) == Outcome(e, [], status)
  {
    hide HandleDataPacket;
  }

  lemma StraySame(s: System, bytes: seq<byte>, client: Client, t: Transport)
    requires s.left.actual.tx < SN_COUNT && s.left.state == Ready
    ensures LeftStep(s, Stray(bytes, client), t) == s
  {
    hide HandleRawData;
    if IsStray(bytes) {
      StrayIgnored(s.left, bytes, client, t);
    }
    assert s.toRight + [] == s.toRight && s.byLeft + [] == s.byLeft;
  }

  lemma LeftStepOk(s: System, action: Action, t: Transport)
    requires SystemOk(s)
    ensures SystemOk(LeftStep(s, action, t))
  {
    match action
    case Local(event) =>
      if InSession(event) {
        LocalStepOk(s, event, t);
      }
    case Receive(client) =>
      if s.toLeft != [] {
        ReceiveStepOk(s, client, t);
      }
    case Lose(index) =>
      if index < |s.toLeft| {
        LoseStepOk(s, index);
      }
    case Stray(bytes, client) => StraySame(s, bytes, client, t);
  }

  lemma LocalStepOk(s: System, event: Event, t: Transport)
    requires SystemOk(s) && InSession(event)
    ensures SystemOk(Emit(s, React(s.left, event, t)))
  {
    hide Linked, FramesOk, SenderOk, TimersOk, Settled, ReceiverOk, SendNext, Handled, Emit, TakeIncoming;
    LinkedSwap(s.left, s.right, s.toRight, s.toLeft);
    LocalHandled(s.right, s.left, event, s.toLeft, s.toRight, t);
    ReactOk(s.left, event, t);
    LocalKeepsCounters(s.left, event, t);
    TakeState(s.left, if event.ClientTake? then event.count else 0);
    EmitOk(s, React(s.left, event, t));
  }

  lemma TakeState(e: Endpoint, count: nat)
    ensures TakeIncoming(e, count).state == e.state
  {
  }

  lemma ReceiveStepOk(s: System, client: Client, t: Transport)
    requires SystemOk(s) && s.toLeft != []
    ensures SystemOk(Emit(s.(toLeft := Remove(s.toLeft, 0)), HandleRawData(s.left, s.toLeft[0].bytes, client, t)))
  {
    hide Linked, FramesOk, SenderOk, TimersOk, Settled, ReceiverOk, SendNext, Handled, Emit, HandleDataPacket, FrameOk;
    var f, rest := s.toLeft[0], Remove(s.toLeft, 0);
    assert s.toLeft == [f] + rest;
    LinkedSwap(s.left, s.right, s.toRight, s.toLeft);
    HeadOk(s.right, s.left, f, rest, s.toRight);
    FrameParse(f, s.right.log);
    ReceiveHandled(s.right, s.left, f, rest, s.toRight, client, t);
    DataPacketOk(s.left, f.bytes, client, t);
    ReceivedCaughtUp(s.left, f.bytes, client, t);
    EmitOk(s.(toLeft := rest), HandleRawData(s.left, f.bytes, client, t));
  }

  lemma LoseStepOk(s: System, index: nat)
    requires SystemOk(s) && index < |s.toLeft|
    ensures SystemOk(s.(toLeft := Remove(s.toLeft, index)))
  {
    hide Linked, FramesOk, EndpointOk;
    LinkedSwap(s.left, s.right, s.toRight, s.toLeft);
    RemoveLinked(s.right, s.left, s.toLeft, s.toRight, index);
    LinkedSwap(s.left, s.right, s.toRight, Remove(s.toLeft, index));
  }

  lemma SwapOk(s: System)
    requires SystemOk(s)
    ensures SystemOk(Swap(s))
  {
    hide FramesOk, EndpointOk, Flow;
  }

  /** Every step of the system keeps its invariant. */
  lemma StepOk(s: System, m: Move)
    requires SystemOk(s)
    ensures SystemOk(Step(s, m))
  {
    hide Linked, FramesOk, SenderOk, TimersOk, Settled, ReceiverOk, LeftStep;
    if m.atLeft {
      LeftStepOk(s, m.action, m.transport);
    } else {
      SwapOk(s);
      LeftStepOk(Swap(s), m.action, m.transport);
      SwapOk(LeftStep(Swap(s), m.action, m.transport));
    }
  }

  /** Two endpoints that have just completed the handshake, nothing in transit. */
  function Connected(left: Windows, right: Windows): System {
    System(FreshSession(left, Negotiate(left, right), []), FreshSession(right, Negotiate(right, left), []), [], [],
           [], [])
  }

  /** Both directions of a session between ends with these wishes have a window of at most 16. */
  predicate Bounded(left: Windows, right: Windows) {
    Negotiate(left, right).tx <= MAX_WINDOW && Negotiate(right, left).tx <= MAX_WINDOW
  }

  lemma ConnectedOk(left: Windows, right: Windows)
    requires Bounded(left, right)
    ensures SystemOk(Connected(left, right))
  {
    assert EMPTY_LOG.fragments[..0] == [];
    assert EMPTY_LOG.fragments[0..] == [];
  }

  function Run(s: System, moves: seq<Move>): System
    requires SystemOk(s)
    decreases |moves|
  {
    if moves == [] then s
    else
      StepOk(s, moves[0]);
      Run(Step(s, moves[0]), moves[1..])
  }

  lemma {:induction false} RunOk(s: System, moves: seq<Move>)
    requires SystemOk(s)
    ensures SystemOk(Run(s, moves))
    decreases |moves|
  {
    hide Linked, FramesOk, SenderOk, TimersOk, Settled, ReceiverOk, Step;
    if moves != [] {
      StepOk(s, moves[0]);
      RunOk(Step(s, moves[0]), moves[1..]);
    }
  }
}

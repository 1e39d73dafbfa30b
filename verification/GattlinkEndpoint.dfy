/** One Gattlink endpoint as a value: its protocol fields, the client buffers it
    works on, and what each handler makes of them.

    `Log` holds auxiliary history. The handlers write it and never read it: it
    carries the unbounded counters behind the 5-bit sequence numbers and the byte
    streams seen by the clients. */
module GattlinkEndpoint {
  import opened Common

  const SN_COUNT := 32
  const MAX_PACKET_SIZE := 512
  const RESET_COMPLETE_SIZE := 5
  const WITH_ACK := 64
  const CONTROL := 128
  const RESET_REQUEST := 0
  const RESET_COMPLETE := 1

  type Sn = n: nat | n < SN_COUNT

  /** Recorded payload sizes, one slot for each sequence number. */
  type SizeTable = s: seq<nat> | |s| == SN_COUNT witness seq(SN_COUNT, _ => 0)

  function NextSn(n: Sn): Sn {
    (n + 1) % SN_COUNT
  }

  function Distance(begin: Sn, end: Sn): Sn {
    (SN_COUNT + end - begin) % SN_COUNT
  }

  datatype SessionState = Initialized | AwaitingSelf | AwaitingRemote | Ready

  datatype Windows = Windows(tx: byte, rx: byte)

  datatype Log = Log(
    fragments: seq<seq<byte>>,  // payload of each packet number, in order of first transmission
    acked: nat,                 // unbounded next_expected_ack_sn
    next: nat,                  // unbounded next_data_sn
    received: nat,              // unbounded next_expected_data_psn
    ackable: nat,               // how many packets an ack with psn_to_ack_with acknowledges
    submitted: seq<byte>,       // everything the local client handed over for sending
    consumed: seq<byte>,        // what the local client was told it may release
    accepted: seq<byte>,        // payload bytes accepted in order from the peer
    read: seq<byte>,            // accepted bytes the local client has taken
    ackOwed: bool,              // a packet was received since the last ack was sent
    refused: bool)              // the transport has refused a send in this session

  const EMPTY_LOG := Log([], 0, 0, 0, 0, [], [], [], [], false, false)

  datatype Endpoint = Endpoint(
    state: SessionState,
    desired: Windows,
    actual: Windows,
    // outbound
    psnToAckWith: Sn,
    outstanding: byte,
    nextExpectedAckSn: Sn,
    nextDataSn: Sn,
    payloadSizes: SizeTable,
    ackTimer: bool,
    retransmitTimer: bool,
    ackNow: bool,
    // inbound
    nextExpectedDataPsn: Sn,
    bufferFull: bool,
    payload: seq<byte>,
    bytesConsumed: nat,
    // the client's bytes not yet released
    outgoing: seq<byte>,
    log: Log)

  /** What the transport does during one handler call: the packet size it reports
      and, if it refuses a send at all, how many it accepts before that. */
  datatype Transport = Transport(maxPacketSize: nat, refuseAfter: Option<nat>)
  {
    predicate Refuses() {
      refuseAfter == Some(0)
    }

    function AfterSend(): Transport {
      if refuseAfter.Some? && refuseAfter.value > 0 then
        Transport(maxPacketSize, Some(refuseAfter.value - 1))
      else this
    }
  }

  /** A transport that accepts everything, in packets of 20 bytes. */
  const LINK := Transport(20, None)

  /** A client that submits and takes nothing when it is called back. */
  const PASSIVE := Client([], [], 0)

  /** A client that takes one byte of the data it is told of. */
  const TAKER := Client([], [], 1)

  /** A datagram, with the unbounded number of the packet it carries and, for an
      ack, how many packets it acknowledges. */
  datatype Frame = Frame(bytes: seq<byte>, dataIndex: Option<nat>, ackCount: Option<nat>)

  datatype Status =
    | Success
    | InvalidParameters
    | InvalidState
    | NotEnoughSpace
    | UnexpectedPsn
    | SendFailed

  datatype Outcome = Outcome(endpoint: Endpoint, sent: seq<Frame>, status: Status)

  /** The negotiated windows only change by negotiating again, never above the desired ones. */
  predicate KeepsWindows(e: Endpoint, e': Endpoint) {
    && e'.desired == e.desired
    && (e'.actual == e.actual || e'.actual.tx <= e.desired.tx)
  }

  // ---------------------------------------------------------------- sending

  function AwaitingUpTo(sizes: SizeTable, from: Sn, end: Sn): nat
    decreases Distance(from, end)
  {
    if from == end then 0 else sizes[from] + AwaitingUpTo(sizes, NextSn(from), end)
  }

  function ClearUpTo(sizes: SizeTable, from: Sn, end: Sn): SizeTable
    decreases Distance(from, end)
  {
    if from == end then sizes else ClearUpTo(sizes[from := 0], NextSn(from), end)
  }

  function InFlight(e: Endpoint): Sn {
    Distance(e.nextExpectedAckSn, e.nextDataSn)
  }

  predicate AckDue(e: Endpoint) {
    e.ackNow || e.outstanding > e.actual.rx / 2
  }

  /** The client's copy-out call: it copies nothing when the range is not there. */
  function Fetch(outgoing: seq<byte>, offset: nat, size: nat): seq<byte> {
    if offset + size <= |outgoing| then outgoing[offset..offset + size] else []
  }

  /** Size of the data part of the next packet, 0 when only an ack can go out. */
  function NextPayloadSize(e: Endpoint, t: Transport): nat {
    if InFlight(e) >= e.actual.tx || |e.outgoing| == 0 then 0
    else if e.payloadSizes[e.nextDataSn] != 0 then e.payloadSizes[e.nextDataSn]
    else
      var unsent := |e.outgoing| - AwaitingUpTo(e.payloadSizes, e.nextExpectedAckSn, e.nextDataSn);
      var room := Min(t.maxPacketSize, MAX_PACKET_SIZE) - (if AckDue(e) then 2 else 1);
      if unsent <= 0 || room <= 0 then 0 else Min(unsent, room)
  }

  predicate SomethingToSend(e: Endpoint, t: Transport) {
    AckDue(e) || NextPayloadSize(e, t) > 0
  }

  /** The datagram PrepareNextPacket builds when there is something to send. */
  function NextFrame(e: Endpoint, t: Transport): Frame {
    var size := NextPayloadSize(e, t);
    var offset := AwaitingUpTo(e.payloadSizes, e.nextExpectedAckSn, e.nextDataSn);
    Frame(
      (if AckDue(e) then [WITH_ACK + e.psnToAckWith] else []) +
      (if size > 0 then [e.nextDataSn] + Fetch(e.outgoing, offset, size) else []),
      if size > 0 then Some(e.log.next) else None,
      if AckDue(e) then Some(e.log.ackable) else None)
  }

  /** PrepareNextPacket arms the retransmit timer when it is about to send data. */
  function Armed(e: Endpoint, t: Transport): Endpoint {
    if NextPayloadSize(e, t) > 0 then e.(retransmitTimer := true) else e
  }

  /** Bookkeeping after the transport has taken `NextFrame(e, t)`. */
  function AfterSending(e: Endpoint, t: Transport): Endpoint {
    var size := NextPayloadSize(e, t);
    var e1 := if AckDue(e) then e.(outstanding := 0, ackNow := false, ackTimer := false,
                                   log := e.log.(ackOwed := false)) else e;
    if size == 0 then e1
    else
      e1.(retransmitTimer := true,
          payloadSizes := e.payloadSizes[e.nextDataSn := size],
          nextDataSn := NextSn(e.nextDataSn),
          log := e1.log.(next := e.log.next + 1,
                         fragments := if e.payloadSizes[e.nextDataSn] != 0 then e.log.fragments
                                      else e.log.fragments + [NextFrame(e, t).bytes[if AckDue(e) then 2 else 1..]]))
  }

  function AfterRefusal(e: Endpoint, t: Transport): Endpoint {
    var e1 := Armed(e, t);
    e1.(log := e1.log.(refused := true))
  }

  function WindowLeft(e: Endpoint): nat {
    if InFlight(e) < e.actual.tx then e.actual.tx - InFlight(e) else 0
  }

  lemma DataHasRoom(e: Endpoint, t: Transport)
    requires NextPayloadSize(e, t) > 0
    ensures InFlight(e) < e.actual.tx
  {
  }

  lemma OneMoreInFlight(from: Sn, next: Sn)
    requires Distance(from, next) < SN_COUNT - 1
    ensures Distance(from, NextSn(next)) == Distance(from, next) + 1
  {
  }

  /** Why the sending loop stops, in any state at all with a window below 32: a data packet
      uses up window space, and a packet with only an ack settles the ack that was due. */
  lemma SendProgress(e: Endpoint, t: Transport)
    requires e.actual.tx < SN_COUNT && SomethingToSend(e, t)
    ensures var e' := AfterSending(e, t);
            WindowLeft(e') < WindowLeft(e) || (WindowLeft(e') == WindowLeft(e) && AckDue(e) && !AckDue(e'))
  {
    hide NextPayloadSize, NextFrame, Distance, NextSn;
    if NextPayloadSize(e, t) > 0 {
      DataHasRoom(e, t);
      OneMoreInFlight(e.nextExpectedAckSn, e.nextDataSn);
    }
  }

  /** The SendNextPackets loop. It terminates because a data packet uses up a place
      in the window and an ack-only packet settles the pending ack. */
  function SendNext(e: Endpoint, t: Transport): (r: Outcome)
    requires e.actual.tx < SN_COUNT
    ensures r.endpoint.desired == e.desired && r.endpoint.actual == e.actual
    ensures r.endpoint.state == e.state && r.status == Success
    decreases WindowLeft(e), AckDue(e)
    ensures KeepsWindows(e, r.endpoint)
  {
    if !SomethingToSend(e, t) then Outcome(e, [], Success)
    else if t.Refuses() then Outcome(AfterRefusal(e, t), [], Success)
    else
      SendProgress(e, t);
      var rest := SendNext(AfterSending(e, t), t.AfterSend());
      rest.(sent := [NextFrame(e, t)] + rest.sent)
  }

  /** The client has added bytes to its buffer. */
  function Given(e: Endpoint, data: seq<byte>): Endpoint {
    e.(outgoing := e.outgoing + data, log := e.log.(submitted := e.log.submitted + data))
  }

  // -------------------------------------------------------------- receiving

  /** What the client does while a packet is handled: told that bytes were released, it may submit
      more, each time with a run of the sending loop; told that data has arrived, it may submit
      answers in the same way, and takes some of the data. */
  datatype Client = Client(refills: seq<Refill>, answers: seq<Refill>, take: nat)

  datatype Refill = Refill(data: seq<byte>, transport: Transport)

  /** Effect of the ack half of a data packet. */
  function HandleAck(e: Endpoint, psn: Sn): Endpoint {
    if e.payloadSizes[psn] == 0 then e
    else
      var next := NextSn(psn);
      var count := AwaitingUpTo(e.payloadSizes, e.nextExpectedAckSn, next);
      var cleared := ClearUpTo(e.payloadSizes, e.nextExpectedAckSn, next);
      var released := if count <= |e.outgoing| then count else 0;
      e.(payloadSizes := cleared,
         retransmitTimer := cleared[next] != 0,
         nextExpectedAckSn := next,
         outgoing := e.outgoing[released..],
         log := e.log.(acked := e.log.acked + Distance(e.nextExpectedAckSn, next),
                       consumed := e.log.consumed + e.outgoing[..released]))
  }

  function IncomingAvailable(e: Endpoint): nat {
    if e.bufferFull && e.bytesConsumed <= |e.payload| then |e.payload| - e.bytesConsumed else 0
  }

  /** ConsumeIncomingData: the client takes `count` bytes of the buffered payload. */
  function TakeIncoming(e: Endpoint, count: nat): Endpoint {
    if count > IncomingAvailable(e) then e
    else
      e.(bytesConsumed := e.bytesConsumed + count,
         bufferFull := e.bufferFull && e.bytesConsumed + count != |e.payload|,
         log := e.log.(read := e.log.read + (if count == 0 then []
                                             else e.payload[e.bytesConsumed..e.bytesConsumed + count])))
  }

  function TakeStatus(e: Endpoint, count: nat): Status {
    if count > IncomingAvailable(e) then InvalidParameters else Success
  }

  /** The packet that was expected: keep its payload and expect the next one. */
  function Buffered(e: Endpoint, psn: Sn, payload: seq<byte>): Endpoint {
    e.(payload := payload, bytesConsumed := 0, bufferFull := true,
       nextExpectedDataPsn := NextSn(psn),
       log := e.log.(received := e.log.received + 1, accepted := e.log.accepted + payload))
  }

  /** After the client was told and took `take` bytes, acks name this packet. */
  function Noted(e: Endpoint, psn: Sn, take: nat): Endpoint {
    var e1 := TakeIncoming(e, take);
    e1.(psnToAckWith := psn, log := e1.log.(ackable := e1.log.received))
  }

  /** Buffering the packet, with what the client does from inside the notification callback. What it
      submits there may still go out with an ack of the packet before. */
  function Accept(e: Endpoint, psn: Sn, payload: seq<byte>, client: Client): (r: Outcome)
    requires e.actual.tx < SN_COUNT
    ensures r.endpoint.desired == e.desired && r.endpoint.actual == e.actual && r.endpoint.state == e.state
  {
    var first := Refilled(Buffered(e, psn, payload), client.answers);
    first.(endpoint := Noted(first.endpoint, psn, client.take))
  }

  /** Count a received packet and arm the ack timer. */
  function OweAck(e: Endpoint): (r: Endpoint)
    ensures r.actual == e.actual && r.state == e.state
  {
    e.(outstanding := (e.outstanding + 1) % 256, ackTimer := true, log := e.log.(ackOwed := true))
  }

  datatype Verdict = Expected | Resent | Unexpected

  /** How HandleDataPacket judges a data packet by its sequence number. */
  function Judge(e: Endpoint, psn: Sn): Verdict {
    if psn == e.nextExpectedDataPsn then Expected
    else if Distance(psn, e.nextExpectedDataPsn) >= e.actual.rx then Unexpected
    else Resent
  }

  /** The data half of a data packet, `data` starting at the sequence number byte. */
  function HandlePayload(e: Endpoint, data: seq<byte>, client: Client, t: Transport): (r: Outcome)
    requires e.actual.tx < SN_COUNT
    requires |data| > 0
    ensures r.endpoint.desired == e.desired && r.endpoint.actual == e.actual && r.endpoint.state == e.state
  {
    var psn: Sn := data[0] % SN_COUNT;
    if e.bufferFull then Outcome(e, [], NotEnoughSpace)
    else match Judge(e, psn)
      case Expected =>
        var first := Accept(e, psn, data[1..], client);
        var rest := SendNext(OweAck(first.endpoint), t);
        rest.(sent := first.sent + rest.sent)
      case Resent => SendNext(OweAck(e), t)
      case Unexpected => Outcome(e, [], UnexpectedPsn)
  }

  predicate HasAck(bytes: seq<byte>) {
    |bytes| > 0 && (bytes[0] / WITH_ACK) % 2 == 1
  }

  /** The client submits from inside a call that tells it of released bytes or of data. */
  function Refilled(e: Endpoint, refills: seq<Refill>): (r: Outcome)
    requires e.actual.tx < SN_COUNT
    ensures r.endpoint.desired == e.desired && r.endpoint.actual == e.actual && r.endpoint.state == e.state
    decreases |refills|
  {
    if refills == [] then Outcome(e, [], Success)
    else
      var first := SendNext(Given(e, refills[0].data), refills[0].transport);
      var rest := Refilled(first.endpoint, refills[1..]);
      rest.(sent := first.sent + rest.sent)
  }

  /** The ack half of a data packet with what the client makes of it. */
  function HandleAckPart(e: Endpoint, bytes: seq<byte>, client: Client): (r: Outcome)
    requires e.actual.tx < SN_COUNT
    ensures r.endpoint.desired == e.desired && r.endpoint.actual == e.actual && r.endpoint.state == e.state
  {
    if HasAck(bytes) && e.payloadSizes[bytes[0] % SN_COUNT] != 0 then
      Refilled(HandleAck(e, bytes[0] % SN_COUNT), client.refills)
    else Outcome(e, [], Success)
  }

  function AfterAck(bytes: seq<byte>): seq<byte> {
    if HasAck(bytes) then bytes[1..] else bytes
  }

  function HandleDataPacket(e: Endpoint, bytes: seq<byte>, client: Client, t: Transport): (r: Outcome)
    requires e.actual.tx < SN_COUNT
    requires |bytes| > 0
    ensures r.endpoint.desired == e.desired && r.endpoint.actual == e.actual && r.endpoint.state == e.state
  {
    if |bytes| > MAX_PACKET_SIZE then Outcome(e, [], InvalidParameters)
    else
      var first, data := HandleAckPart(e, bytes, client), AfterAck(bytes);
      var rest := if data == [] then SendNext(first.endpoint, t)
          else HandlePayload(first.endpoint, data, client, t);
      rest.(sent := first.sent + rest.sent)
  }

  // ------------------------------------------------------------- handshake

  function ControlFrame(bytes: seq<byte>, t: Transport): seq<Frame> {
    if t.Refuses() then [] else [Frame(bytes, None, None)]
  }

  function ControlStatus(t: Transport): Status {
    if t.Refuses() then SendFailed else Success
  }

  function ResetCompletePacket(desired: Windows): seq<byte> {
    [CONTROL + RESET_COMPLETE, 0, 0, desired.rx, desired.tx]
  }

  /** The client purges its buffers when a session that was open is reset. */
  function CloseSession(e: Endpoint, state: SessionState): Endpoint {
    e.(state := state, ackTimer := false, retransmitTimer := true,
       outgoing := if e.state == Ready then [] else e.outgoing)
  }

  function Reset(e: Endpoint, t: Transport): Outcome {
    Outcome(CloseSession(e, AwaitingSelf), ControlFrame([CONTROL + RESET_REQUEST], t), ControlStatus(t))
  }

  function HandleResetRequest(e: Endpoint, t: Transport): Outcome {
    Outcome(CloseSession(e, AwaitingRemote), ControlFrame(ResetCompletePacket(e.desired), t), ControlStatus(t))
  }

  /** A session that has just become ready: all protocol fields zero, no timer armed. */
  function FreshSession(desired: Windows, actual: Windows, outgoing: seq<byte>): Endpoint {
    Endpoint(Ready, desired, actual, 0, 0, 0, 0, seq(SN_COUNT, _ => 0), false, false, false,
             0, false, [], 0, outgoing, EMPTY_LOG.(submitted := outgoing))
  }

  function Negotiate(mine: Windows, theirs: Windows): Windows {
    Windows(Min(mine.tx, theirs.rx), Min(mine.rx, theirs.tx))
  }

  function HandleResetComplete(e: Endpoint, bytes: seq<byte>, t: Transport): Outcome {
    if |bytes| < RESET_COMPLETE_SIZE then Outcome(e, [], InvalidParameters)
    else
      var actual := Negotiate(e.desired, Windows(bytes[4], bytes[3]));
      Outcome(FreshSession(e.desired, actual, e.outgoing),
              if e.state == AwaitingSelf then ControlFrame(ResetCompletePacket(e.desired), t) else [],
              Success)
  }

  function HandleControlPacket(e: Endpoint, bytes: seq<byte>, t: Transport): (r: Outcome)
    requires |bytes| > 0
    ensures KeepsWindows(e, r.endpoint)
  {
    var kind := bytes[0] % CONTROL;
    if kind == RESET_COMPLETE then
      if e.state == AwaitingSelf || e.state == AwaitingRemote then HandleResetComplete(e, bytes, t)
      else Outcome(e, [], Success)
    else if kind == RESET_REQUEST then HandleResetRequest(e, t)
    else Outcome(e, [], InvalidParameters)
  }

  // ------------------------------------------------------------ entry points

  function HandleRawData(e: Endpoint, bytes: seq<byte>, client: Client, t: Transport): (r: Outcome)
    requires e.actual.tx < SN_COUNT
    ensures KeepsWindows(e, r.endpoint)
  {
    if |bytes| == 0 || e.state == Initialized then Outcome(e, [], Success)
    else if bytes[0] >= CONTROL then HandleControlPacket(e, bytes, t)
    else if e.state != Ready then Outcome(e, [], InvalidState)
    else HandleDataPacket(e, bytes, client, t)
  }

  function OnAckTimer(e: Endpoint, t: Transport): (r: Outcome)
    requires e.actual.tx < SN_COUNT
    ensures KeepsWindows(e, r.endpoint) && r.endpoint.state == e.state
  {
    SendNext(e.(ackNow := true), t)
  }

  function RollBack(e: Endpoint): Endpoint {
    e.(nextDataSn := e.nextExpectedAckSn, log := e.log.(next := e.log.acked))
  }

  function OnRetransmitTimer(e: Endpoint, t: Transport): (r: Outcome)
    requires e.actual.tx < SN_COUNT
    ensures KeepsWindows(e, r.endpoint)
  {
    match e.state
    case AwaitingSelf => Reset(e, t)
    case AwaitingRemote => Reset(e, t)
    case Initialized => Outcome(e, [], Success)
    case Ready => SendNext(RollBack(e), t)
  }

  /** The client adds bytes to its buffer, which it only does in an open session,
      and notifies the protocol. */
  function Submit(e: Endpoint, data: seq<byte>, t: Transport): (r: Outcome)
    requires e.actual.tx < SN_COUNT
    ensures KeepsWindows(e, r.endpoint) && r.endpoint.state == e.state
  {
    if e.state != Ready then Outcome(e, [], InvalidState)
    else SendNext(Given(e, data), t)
  }

  function Create(desired: Windows): Endpoint {
    FreshSession(desired, Windows(0, 0), []).(state := Initialized)
  }

  /** Everything that can happen to an endpoint. A timer event is only felt while
      that timer is armed, and it disarms the timer first. Starting is a reset; callers
      are to start an endpoint once. */
  datatype Event =
    | Start
    | RequestReset
    | ClientSubmit(data: seq<byte>)
    | ClientNotify
    | ClientTake(count: nat)
    | RawData(bytes: seq<byte>, client: Client)
    | AckTimerFires
    | RetransmitTimerFires

  function React(e: Endpoint, event: Event, t: Transport): (r: Outcome)
    requires e.actual.tx < SN_COUNT
    ensures KeepsWindows(e, r.endpoint)
  {
    match event
    case Start => Reset(e, t)
    case RequestReset => Reset(e, t)
    case ClientSubmit(data) => Submit(e, data, t)
    case ClientNotify => SendNext(e, t)
    case ClientTake(count) => Outcome(TakeIncoming(e, count), [], TakeStatus(e, count))
    case RawData(bytes, client) => HandleRawData(e, bytes, client, t)
    case AckTimerFires =>
      if e.ackTimer then OnAckTimer(e.(ackTimer := false), t) else Outcome(e, [], Success)
    case RetransmitTimerFires =>
      if e.retransmitTimer then OnRetransmitTimer(e.(retransmitTimer := false), t)
      else Outcome(e, [], Success)
  }
}

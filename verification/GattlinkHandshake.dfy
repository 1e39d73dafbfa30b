/** The reset handshake that opens a session, from whatever state the two ends are in. */
module GattlinkHandshake {
  import opened Common
  import opened GattlinkEndpoint
  import WakeUp = GattlinkWakeUp
  import Net = GattlinkNetwork

  /** The session windows of the two ends fit together: what one may send the other may receive,
      and that is the largest window both wish for. */
  lemma WindowsFit(left: Windows, right: Windows)
    ensures var l, r := Negotiate(left, right), Negotiate(right, left);
            && l.tx == r.rx && l.rx == r.tx
            && (forall n: nat :: Allowed(n, l.tx) <==> Allowed(n, left.tx) && Allowed(n, right.rx))
            && (forall n: nat :: Allowed(n, r.tx) <==> Allowed(n, right.tx) && Allowed(n, left.rx))
  {
  }

  /** A window lets `n` packets be in flight. */
  predicate Allowed(n: nat, window: nat) {
    n <= window
  }

  const REQUEST := [CONTROL + RESET_REQUEST]

  /** What makes an end request a reset: starting it, its client, or its timer while it waits for one. */
  function Knock(e: Endpoint): Event {
    match e.state
    case Initialized => Start
    case Ready => RequestReset
    case _ => RetransmitTimerFires
  }

  /** The end has given up its session, if it had one, and waits in this state for a completion: only
      the timer that repeats the handshake is armed, and the client's unsent bytes are gone. */
  ghost predicate Waits(e: Endpoint, e': Endpoint, state: SessionState) {
    && e'.state == state && e'.retransmitTimer && !e'.ackTimer && e'.outgoing == []
    && e'.desired == e.desired && e'.actual == e.actual
  }

  /** What a send that may be refused makes of a control packet. */
  ghost predicate Sends(o: Outcome, bytes: seq<byte>, t: Transport) {
    if t.Refuses() then o.sent == [] && o.status == SendFailed
    else o.sent == [Frame(bytes, None, None)] && o.status == Success
  }

  /** It sends the request and waits for the completion, in whatever state it was. */
  lemma Knocks(e: Endpoint, t: Transport)
    requires WakeUp.EndpointOk(e)
    ensures var o := React(e, Knock(e), t);
            Sends(o, REQUEST, t) && Waits(e, o.endpoint, AwaitingSelf)
  {
  }

  /** The other end answers a request at any time once it has been started. */
  lemma Answers(e: Endpoint, t: Transport)
    requires WakeUp.EndpointOk(e) && e.state != Initialized
    ensures var o := React(e, RawData(REQUEST, PASSIVE), t);
            Sends(o, ResetCompletePacket(e.desired), t) && Waits(e, o.endpoint, AwaitingRemote)
  {
    hide HandleDataPacket;
  }

  predicate Awaiting(e: Endpoint) {
    e.state == AwaitingSelf || e.state == AwaitingRemote
  }

  /** A packet opens a session if and only if it is a whole completion and the end waits for one. */
  predicate Opens(e: Endpoint, bytes: seq<byte>) {
    Awaiting(e) && |bytes| >= RESET_COMPLETE_SIZE && bytes[0] == CONTROL + RESET_COMPLETE
  }

  /** It closes one, or begins the handshake again, if and only if it is a request and the end has
      been started. */
  predicate Closes(e: Endpoint, bytes: seq<byte>) {
    e.state != Initialized && |bytes| > 0 && bytes[0] == CONTROL + RESET_REQUEST
  }

  /** Which packets open and close sessions; of all the others only data packets in an open session
      are more than an answer to the caller. */
  lemma SessionChangesIff(e: Endpoint, bytes: seq<byte>, client: Client, t: Transport)
    requires e.actual.tx < SN_COUNT
    ensures var o := React(e, RawData(bytes, client), t);
            && (e.state != Ready ==> (o.endpoint.state == Ready <==> Opens(e, bytes)))
            && (e.state == Ready ==> (o.endpoint.state != Ready <==> Closes(e, bytes)))
            && (!Opens(e, bytes) && !Closes(e, bytes) ==>
                  (o.endpoint == e && o.sent == []) || (e.state == Ready && bytes != [] && bytes[0] < CONTROL))
            && (o.status == InvalidState <==> Awaiting(e) && bytes != [] && bytes[0] < CONTROL)
            && (e.state == Initialized || bytes == [] ==> o.status == Success)
            && (bytes != [] && bytes[0] >= CONTROL && e.state != Initialized ==>
                  (o.status == InvalidParameters <==>
                     && bytes[0] != CONTROL + RESET_REQUEST
                     && (bytes[0] == CONTROL + RESET_COMPLETE ==> Awaiting(e) && |bytes| < RESET_COMPLETE_SIZE)))
  {
    if e.state == Ready && bytes != [] && bytes[0] < CONTROL {
      DataStatus(e, bytes, client, t);
    }
    hide HandleDataPacket;
  }

  lemma DataStatus(e: Endpoint, bytes: seq<byte>, client: Client, t: Transport)
    requires e.actual.tx < SN_COUNT && |bytes| > 0
    ensures HandleDataPacket(e, bytes, client, t).status != InvalidState
  {
    hide SendNext, HandleAckPart, Judge, Accept, OweAck;
  }

  /** A reset-complete packet carries the windows of its sender, and opens the session of an end that
      waits for one. Only the end that made the request confirms it in turn. */
  lemma Completes(e: Endpoint, peer: Windows, t: Transport)
    requires e.state == AwaitingSelf || e.state == AwaitingRemote
    requires e.actual.tx < SN_COUNT
    ensures var answers := e.state == AwaitingSelf && !t.Refuses();
            React(e, RawData(ResetCompletePacket(peer), PASSIVE), t)
            == Outcome(FreshSession(e.desired, Negotiate(e.desired, peer), e.outgoing),
                       if answers then [Frame(ResetCompletePacket(e.desired), None, None)] else [],
                       Success)
  {
    hide HandleDataPacket;
  }

  /** From any two states, whatever was lost before: the request of the first end, answered, and the
      answer answered in turn, leave both in the state from which all runs begin. The second end only
      has to have been started. */
  lemma HandshakeConnects(l: Endpoint, r: Endpoint, t: Transport)
    requires WakeUp.EndpointOk(l) && WakeUp.EndpointOk(r) && r.state != Initialized && t.refuseAfter == None
    ensures var l0 := React(l, Knock(l), t);
            |l0.sent| == 1 &&
            var r1 := React(r, RawData(l0.sent[0].bytes, PASSIVE), t);
            |r1.sent| == 1 && l0.endpoint.actual.tx < SN_COUNT &&
            var l1 := React(l0.endpoint, RawData(r1.sent[0].bytes, PASSIVE), t);
            |l1.sent| == 1 && r1.endpoint.actual.tx < SN_COUNT &&
            var r2 := React(r1.endpoint, RawData(l1.sent[0].bytes, PASSIVE), t);
            && l1.endpoint == Net.Connected(l.desired, r.desired).left
            && r2.endpoint == Net.Connected(l.desired, r.desired).right
            && r2.sent == []
  {
    hide React, FreshSession, ResetCompletePacket;
    WakeUp.TxBelow(l);
    WakeUp.TxBelow(r);
    Knocks(l, t);
    var l0 := React(l, Knock(l), t);
    Answers(r, t);
    var r1 := React(r, RawData(REQUEST, PASSIVE), t);
    Completes(l0.endpoint, r.desired, t);
    Completes(r1.endpoint, l.desired, t);
  }

  /** Two requests that cross: each end answers the other's, and the answers open both sessions. */
  lemma CrossingConnects(l: Endpoint, r: Endpoint, t: Transport)
    requires WakeUp.EndpointOk(l) && WakeUp.EndpointOk(r) && t.refuseAfter == None
    ensures var l0, r0 := React(l, Knock(l), t), React(r, Knock(r), t);
            |l0.sent| == 1 && |r0.sent| == 1 && l0.endpoint.actual.tx < SN_COUNT && r0.endpoint.actual.tx < SN_COUNT &&
            var l1 := React(l0.endpoint, RawData(r0.sent[0].bytes, PASSIVE), t);
            var r1 := React(r0.endpoint, RawData(l0.sent[0].bytes, PASSIVE), t);
            |l1.sent| == 1 && |r1.sent| == 1 && l1.endpoint.actual.tx < SN_COUNT && r1.endpoint.actual.tx < SN_COUNT &&
            var l2 := React(l1.endpoint, RawData(r1.sent[0].bytes, PASSIVE), t);
            var r2 := React(r1.endpoint, RawData(l1.sent[0].bytes, PASSIVE), t);
            && l2.endpoint == Net.Connected(l.desired, r.desired).left
            && r2.endpoint == Net.Connected(l.desired, r.desired).right
            && l2.sent == [] && r2.sent == []
  {
    CrossingHalf(l, t);
    CrossingHalf(r, t);
    hide React, FreshSession, ResetCompletePacket;
    WakeUp.TxBelow(l);
    WakeUp.TxBelow(r);
    Knocks(l, t);
    Knocks(r, t);
    var l1 := React(React(l, Knock(l), t).endpoint, RawData(REQUEST, PASSIVE), t);
    var r1 := React(React(r, Knock(r), t).endpoint, RawData(REQUEST, PASSIVE), t);
    Completes(l1.endpoint, r.desired, t);
    Completes(r1.endpoint, l.desired, t);
  }

  lemma CrossingHalf(e: Endpoint, t: Transport)
    requires WakeUp.EndpointOk(e) && t.refuseAfter == None
    ensures var e0 := React(e, Knock(e), t).endpoint;
            e0.actual.tx < SN_COUNT &&
            var o := React(e0, RawData(REQUEST, PASSIVE), t);
            Sends(o, ResetCompletePacket(e.desired), t) && Waits(e, o.endpoint, AwaitingRemote)
  {
    Knocks(e, t);
    WakeUp.ReactOk(e, Knock(e), t);
    hide React, WakeUp.EndpointOk, ResetCompletePacket;
    WakeUp.TxBelow(e);
    Answers(React(e, Knock(e), t).endpoint, t);
  }
}

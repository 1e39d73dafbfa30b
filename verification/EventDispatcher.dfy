/** The event dispatcher: listeners in order of registration, each with a sequence number, and a
    dispatch loop that looks at the list afresh after every notification. */
module EventDispatcher {
  import opened Common

  /** Without a list of events a listener is told of all. */
  datatype Node = Node(listener: int, events: Option<seq<int>>, number: nat)

  datatype Dispatcher = Dispatcher(nodes: seq<Node>, nextNumber: nat)

  // --------------------------------------------------------------- operations

  /** The position of a listener, or the number of nodes if it is not registered. */
  function Find(nodes: seq<Node>, listener: int): (i: nat)
    ensures i <= |nodes|
    ensures i < |nodes| ==> nodes[i].listener == listener
  {
    if nodes == [] || nodes[0].listener == listener then 0 else 1 + Find(nodes[1..], listener)
  }

  datatype Op = Add(listener: int, events: Option<seq<int>>) | Remove(listener: int)

  /** AddListener and RemoveListener; both refuse and change nothing when the listener is already,
      or not, registered. */
  function Apply(d: Dispatcher, op: Op): Dispatcher {
    match op
    case Add(listener, events) =>
      if Find(d.nodes, listener) < |d.nodes| then d
      else Dispatcher(d.nodes + [Node(listener, events, d.nextNumber)], d.nextNumber + 1)
    case Remove(listener) =>
      var i := Find(d.nodes, listener);
      if i == |d.nodes| then d else d.(nodes := d.nodes[..i] + d.nodes[i + 1..])
  }

  function ApplyAll(d: Dispatcher, ops: seq<Op>): Dispatcher
    decreases |ops|
  {
    if ops == [] then d else ApplyAll(Apply(d, ops[0]), ops[1..])
  }

  /** What a listener does to the dispatcher when it is notified of an event. */
  type Behaviour = (Dispatcher, int, int) -> seq<Op>

  /** The node the scan of the list picks: the first with a number above `last`, unless the scan
      meets one that was added during the dispatch. */
  function Pick(nodes: seq<Node>, last: nat, limit: nat): (r: Option<Node>)
    ensures r.Some? ==> last < r.value.number < limit
  {
    if nodes == [] || nodes[0].number >= limit then None
    else if nodes[0].number > last then Some(nodes[0])
    else Pick(nodes[1..], last, limit)
  }

  predicate Wants(n: Node, event: int) {
    n.events.None? || event in n.events.value
  }

  /** Notifies a listener if it wants this kind of event. */
  function Notify(d: Dispatcher, n: Node, event: int, b: Behaviour): Dispatcher {
    if Wants(n, event) then ApplyAll(d, b(d, n.listener, event)) else d
  }

  /** The dispatch loop, with the nodes it visits. */
  function Dispatch(d: Dispatcher, event: int, last: nat, limit: nat, b: Behaviour): (Dispatcher, seq<Node>)
    decreases limit - last
  {
    match Pick(d.nodes, last, limit)
    case None => (d, [])
    case Some(n) =>
      var rest := Dispatch(Notify(d, n, event, b), event, n.number, limit, b);
      (rest.0, [n] + rest.1)
  }

  /** The dispatcher at the moment when the node with number `number` has its turn: when the loop
      has finished with all nodes before it. */
  function AtTurn(d: Dispatcher, event: int, last: nat, limit: nat, b: Behaviour, number: nat): Dispatcher
    decreases limit - last
  {
    match Pick(d.nodes, last, limit)
    case None => d
    case Some(n) =>
      if n.number >= number then d else AtTurn(Notify(d, n, event, b), event, n.number, limit, b, number)
  }

  // ---------------------------------------------------------------- invariant

  /** Listeners are registered once and stand in order of registration. */
  ghost predicate DispatcherOk(d: Dispatcher) {
    && d.nextNumber >= 1
    && (forall i :: 0 <= i < |d.nodes| ==> 1 <= d.nodes[i].number < d.nextNumber)
    && (forall i, j :: 0 <= i < j < |d.nodes| ==> d.nodes[i].number < d.nodes[j].number)
    && (forall i, j :: 0 <= i < j < |d.nodes| ==> d.nodes[i].listener != d.nodes[j].listener)
  }

  lemma {:induction false} FindNone(nodes: seq<Node>, listener: int, i: nat)
    requires Find(nodes, listener) == |nodes| && i < |nodes|
    ensures nodes[i].listener != listener
  {
    if i > 0 {
      FindNone(nodes[1..], listener, i - 1);
    }
  }

  /** What an operation can do to the list: it stays in order, gains only newer nodes, and numbers
      are never reused. */
  ghost predicate Follows(d: Dispatcher, d': Dispatcher) {
    && d.nextNumber <= d'.nextNumber
    && forall n :: n in d'.nodes && n.number < d.nextNumber ==> n in d.nodes
  }

  lemma ApplyOk(d: Dispatcher, op: Op)
    requires DispatcherOk(d)
    ensures DispatcherOk(Apply(d, op)) && Follows(d, Apply(d, op))
  {
    hide Find;
    if op.Add? && Find(d.nodes, op.listener) == |d.nodes| {
      forall i | 0 <= i < |d.nodes| ensures d.nodes[i].listener != op.listener {
        FindNone(d.nodes, op.listener, i);
      }
    }
  }

  lemma {:induction false} ApplyAllOk(d: Dispatcher, ops: seq<Op>)
    requires DispatcherOk(d)
    ensures DispatcherOk(ApplyAll(d, ops)) && Follows(d, ApplyAll(d, ops))
    decreases |ops|
  {
    if ops != [] {
      hide DispatcherOk, Apply;
      ApplyOk(d, ops[0]);
      ApplyAllOk(Apply(d, ops[0]), ops[1..]);
    }
  }

  lemma NotifyOk(d: Dispatcher, n: Node, event: int, b: Behaviour)
    requires DispatcherOk(d)
    ensures DispatcherOk(Notify(d, n, event, b)) && Follows(d, Notify(d, n, event, b))
  {
    hide DispatcherOk;
    ApplyAllOk(d, b(d, n.listener, event));
  }

  // ------------------------------------------------------------- main results

  ghost predicate InOrder(nodes: seq<Node>) {
    forall i, j :: 0 <= i < j < |nodes| ==> nodes[i].number < nodes[j].number
  }

  /** The scan picks the registered node with the lowest number above `last`. */
  lemma {:induction false} PickIsNext(nodes: seq<Node>, last: nat, limit: nat, n: Node)
    requires InOrder(nodes)
    ensures n in nodes && last < n.number < limit ==>
              Pick(nodes, last, limit).Some? && Pick(nodes, last, limit).value.number <= n.number
    ensures Pick(nodes, last, limit).Some? ==> Pick(nodes, last, limit).value in nodes
  {
    if nodes != [] && nodes[0].number < limit && nodes[0].number <= last {
      PickIsNext(nodes[1..], last, limit, n);
    }
  }

  lemma OneNodePerNumber(d: Dispatcher, a: Node, b: Node)
    requires DispatcherOk(d) && a in d.nodes && b in d.nodes && a.number == b.number
    ensures a == b
  {
    var i :| 0 <= i < |d.nodes| && d.nodes[i] == a;
    var j :| 0 <= j < |d.nodes| && d.nodes[j] == b;
  }

  lemma InOrderNodes(d: Dispatcher)
    requires DispatcherOk(d)
    ensures InOrder(d.nodes)
  {
  }

  /** Listeners are visited in order of registration, each at most once, and only ones registered
      before the dispatch. */
  lemma {:induction false} VisitsInOrder(d: Dispatcher, event: int, last: nat, limit: nat, b: Behaviour)
    requires DispatcherOk(d) && limit <= d.nextNumber
    ensures InOrder(Dispatch(d, event, last, limit, b).1)
    ensures forall n :: n in Dispatch(d, event, last, limit, b).1 ==> last < n.number < limit && n in d.nodes
    ensures DispatcherOk(Dispatch(d, event, last, limit, b).0)
    decreases limit - last
  {
    hide Pick, DispatcherOk, Notify, InOrder;
    var pick := Pick(d.nodes, last, limit);
    if pick.Some? {
      var n := pick.value;
      InOrderNodes(d);
      PickIsNext(d.nodes, last, limit, n);
      NotifyOk(d, n, event, b);
      VisitsInOrder(Notify(d, n, event, b), event, n.number, limit, b);
      InOrderCons(n, Dispatch(Notify(d, n, event, b), event, n.number, limit, b).1);
    } else {
      NoneInOrder();
    }
  }

  lemma InOrderCons(n: Node, rest: seq<Node>)
    requires InOrder(rest) && forall m :: m in rest ==> n.number < m.number
    ensures InOrder([n] + rest)
  {
    forall i, j | 0 <= i < j < |[n] + rest| ensures ([n] + rest)[i].number < ([n] + rest)[j].number {
      assert rest[j - 1] in rest;
    }
  }

  lemma NoneInOrder()
    ensures InOrder([])
  {
  }

  /** A listener registered when the event arrives is visited exactly when it is still registered
      when its turn comes, whatever the listeners before it have added or removed. */
  lemma {:induction false} VisitedIffStillRegistered(d: Dispatcher, event: int, last: nat, limit: nat,
                                                     b: Behaviour, n: Node)
    requires DispatcherOk(d) && limit <= d.nextNumber && last < n.number < limit
    ensures n in Dispatch(d, event, last, limit, b).1 <==> n in AtTurn(d, event, last, limit, b, n.number).nodes
    decreases limit - last
  {
    var pick := Pick(d.nodes, last, limit);
    PickIsNext(d.nodes, last, limit, n);
    if pick.Some? {
      var p := pick.value;
      NotifyOk(d, p, event, b);
      VisitsInOrder(Notify(d, p, event, b), event, p.number, limit, b);
      if p.number < n.number {
        hide Pick, DispatcherOk, Notify;
        VisitedIffStillRegistered(Notify(d, p, event, b), event, p.number, limit, b, n);
      } else if n in d.nodes {
        OneNodePerNumber(d, n, p);
      }
    }
  }

  // ---------------------------------------------------------- who is told

  /** A node asks for an event with a list that has it, or with no list at all. */
  ghost predicate AsksFor(n: Node, event: int) {
    n.events.Some? ==> exists i :: 0 <= i < |n.events.value| && n.events.value[i] == event
  }

  /** The nodes that ask for an event. */
  ghost function Wanting(nodes: seq<Node>, event: int): seq<Node> {
    if nodes == [] then []
    else (if AsksFor(nodes[0], event) then [nodes[0]] else []) + Wanting(nodes[1..], event)
  }

  /** One listener after the other is called, and does what it does. */
  function Calls(d: Dispatcher, told: seq<Node>, event: int, b: Behaviour): Dispatcher
    decreases |told|
  {
    if told == [] then d else Calls(ApplyAll(d, b(d, told[0].listener, event)), told[1..], event, b)
  }

  lemma {:induction false} CallsFirst(d: Dispatcher, n: Node, rest: seq<Node>, event: int, b: Behaviour)
    ensures Calls(d, Wanting([n] + rest, event), event, b)
            == Calls(Notify(d, n, event, b), Wanting(rest, event), event, b)
  {
    assert AsksFor(n, event) <==> Wants(n, event);
    assert ([n] + rest)[1..] == rest;
    var more := Wanting(rest, event);
    assert ([n] + more)[1..] == more && [] + more == more;
    hide ApplyAll;
  }

  /** An event calls exactly the visited listeners that ask for it, in order, once each, and does
      nothing besides. */
  lemma {:induction false} CallsThoseAsking(d: Dispatcher, event: int, last: nat, limit: nat, b: Behaviour)
    ensures var (d', visited) := Dispatch(d, event, last, limit, b);
            d' == Calls(d, Wanting(visited, event), event, b)
    decreases limit - last
  {
    hide Notify, Pick;
    var pick := Pick(d.nodes, last, limit);
    if pick.Some? {
      var n := pick.value;
      var d1 := Notify(d, n, event, b);
      CallsThoseAsking(d1, event, n.number, limit, b);
      CallsFirst(d, n, Dispatch(d1, event, n.number, limit, b).1, event, b);
    }
  }

  /** The nodes of a list before a number. */
  function Before(nodes: seq<Node>, number: nat): seq<Node> {
    if nodes == [] || nodes[0].number >= number then [] else [nodes[0]] + Before(nodes[1..], number)
  }

  /** When a node has its turn, exactly the visited ones before it that ask for the event have been
      called. */
  lemma {:induction false} TurnAfterCalls(d: Dispatcher, event: int, last: nat, limit: nat, b: Behaviour, number: nat)
    ensures var visited := Dispatch(d, event, last, limit, b).1;
            AtTurn(d, event, last, limit, b, number)
            == Calls(d, Wanting(Before(visited, number), event), event, b)
    decreases limit - last
  {
    hide Notify, Pick, Calls;
    var pick := Pick(d.nodes, last, limit);
    if pick.Some? && pick.value.number < number {
      var n := pick.value;
      var d1 := Notify(d, n, event, b);
      var rest := Dispatch(d1, event, n.number, limit, b).1;
      TurnAfterCalls(d1, event, n.number, limit, b, number);
      assert ([n] + rest)[1..] == rest;
      CallsFirst(d, n, Before(rest, number), event, b);
    } else {
      NoCalls(d, event, b);
    }
  }

  lemma {:induction false} NoCalls(d: Dispatcher, event: int, b: Behaviour)
    ensures Calls(d, Wanting([], event), event, b) == d
  {
  }

  /** An event nobody asks for changes nothing. */
  lemma {:induction false} NobodyAsks(d: Dispatcher, event: int, b: Behaviour)
    requires DispatcherOk(d) && forall n :: n in d.nodes ==> !AsksFor(n, event)
    ensures Dispatch(d, event, 0, d.nextNumber, b).0 == d
  {
    var visited := Dispatch(d, event, 0, d.nextNumber, b).1;
    VisitsInOrder(d, event, 0, d.nextNumber, b);
    CallsThoseAsking(d, event, 0, d.nextNumber, b);
    hide DispatcherOk, Dispatch;
    NoneWanting(visited, event);
  }

  lemma {:induction false} NoneWanting(nodes: seq<Node>, event: int)
    requires forall n :: n in nodes ==> !AsksFor(n, event)
    ensures Wanting(nodes, event) == []
  {
    if nodes != [] {
      NoneWanting(nodes[1..], event);
    }
  }

  // --------------------------------------------------------- who is registered

  /** The nodes of other listeners. */
  function Others(nodes: seq<Node>, listener: int): seq<Node> {
    if nodes == [] then []
    else (if nodes[0].listener != listener then [nodes[0]] else []) + Others(nodes[1..], listener)
  }

  predicate Registered(nodes: seq<Node>, listener: int) {
    exists i :: 0 <= i < |nodes| && nodes[i].listener == listener
  }

  lemma {:induction false} FindIff(nodes: seq<Node>, listener: int)
    ensures Find(nodes, listener) < |nodes| <==> Registered(nodes, listener)
  {
    if Find(nodes, listener) == |nodes| {
      forall i | 0 <= i < |nodes| ensures nodes[i].listener != listener {
        FindNone(nodes, listener, i);
      }
    }
  }

  lemma {:induction false} OthersAll(nodes: seq<Node>, listener: int)
    requires forall i :: 0 <= i < |nodes| ==> nodes[i].listener != listener
    ensures Others(nodes, listener) == nodes
  {
    if nodes != [] {
      OthersAll(nodes[1..], listener);
    }
  }

  lemma {:induction false} OthersAround(nodes: seq<Node>, listener: int, i: nat)
    requires i < |nodes| && nodes[i].listener == listener
    requires forall j :: 0 <= j < |nodes| && j != i ==> nodes[j].listener != listener
    ensures Others(nodes, listener) == nodes[..i] + nodes[i + 1..]
  {
    var rest := nodes[1..];
    if i == 0 {
      OthersAll(rest, listener);
      assert [] + rest == rest;
    } else {
      OthersAround(rest, listener, i - 1);
      assert nodes[..i] + nodes[i + 1..] == [nodes[0]] + (rest[..i - 1] + rest[i..]);
    }
  }

  /** Removing a listener leaves all the others, in their order, with their events and numbers. */
  lemma {:induction false} RemoveLeavesOthers(d: Dispatcher, listener: int)
    requires DispatcherOk(d)
    ensures Apply(d, Remove(listener)) == d.(nodes := Others(d.nodes, listener))
    ensures !Registered(Others(d.nodes, listener), listener)
  {
    hide Find;
    FindIff(d.nodes, listener);
    OthersGone(d.nodes, listener);
    var i := Find(d.nodes, listener);
    if i < |d.nodes| {
      OthersAround(d.nodes, listener, i);
    } else {
      OthersAll(d.nodes, listener);
    }
  }

  lemma {:induction false} OthersGone(nodes: seq<Node>, listener: int)
    ensures !Registered(Others(nodes, listener), listener)
  {
    if nodes != [] {
      OthersGone(nodes[1..], listener);
    }
  }

  /** Adding puts a listener that is not registered, with its events and the next number, behind the
      others; one that is registered stays as it is. */
  lemma AddRegisters(d: Dispatcher, listener: int, events: Option<seq<int>>)
    ensures var d' := Apply(d, Add(listener, events));
            if Registered(d.nodes, listener) then d' == d
            else
              && |d'.nodes| == |d.nodes| + 1 && d'.nodes[..|d.nodes|] == d.nodes
              && d'.nodes[|d.nodes|] == Node(listener, events, d.nextNumber) && d'.nextNumber > d.nextNumber
  {
    hide Find;
    FindIff(d.nodes, listener);
  }

  // ------------------------------------------------------------------ object

  class EventDispatcher {
    var nodes: seq<Node>
    var sequenceNumber: nat

    ghost function View(): Dispatcher
      reads this
    {
      Dispatcher(nodes, sequenceNumber)
    }

    ghost predicate Valid()
      reads this
    {
      DispatcherOk(View())
    }

    constructor ()
      ensures Valid() && View() == Dispatcher([], 1)
    {
      nodes, sequenceNumber := [], 1;
    }

    method FindNode(listener: int) returns (i: nat)
      ensures i == Find(nodes, listener)
    {
      i := 0;
      assert nodes[0..] == nodes;
      while i < |nodes| && nodes[i].listener != listener
        invariant 0 <= i <= |nodes| && i + Find(nodes[i..], listener) == Find(nodes, listener)
      {
        assert nodes[i..][1..] == nodes[i + 1..];
        i := i + 1;
      }
    }

    method AddListener(listener: int, events: Option<seq<int>>) returns (ok: bool)
      requires Valid()
      modifies this
      ensures Valid() && View() == Apply(old(View()), Add(listener, events))
      ensures ok <==> Find(old(nodes), listener) == |old(nodes)|
    {
      hide DispatcherOk;
      ApplyOk(View(), Add(listener, events));
      var found := FindNode(listener);
      if found < |nodes| {
        return false;
      }
      nodes := nodes + [Node(listener, events, sequenceNumber)];
      sequenceNumber := sequenceNumber + 1;
      ok := true;
    }

    method RemoveListener(listener: int) returns (ok: bool)
      requires Valid()
      modifies this
      ensures Valid() && View() == Apply(old(View()), Remove(listener))
      ensures ok <==> Find(old(nodes), listener) < |old(nodes)|
    {
      hide DispatcherOk;
      ApplyOk(View(), Remove(listener));
      var i := FindNode(listener);
      ok := i < |nodes|;
      if ok {
        nodes := nodes[..i] + nodes[i + 1..];
      }
    }

    method Perform(ops: seq<Op>)
      requires Valid()
      modifies this
      ensures Valid() && View() == ApplyAll(old(View()), ops)
    {
      hide DispatcherOk, Apply;
      ghost var goal := ApplyAll(View(), ops);
      var i := 0;
      assert ops[0..] == ops;
      while i < |ops|
        invariant 0 <= i <= |ops| && Valid() && ApplyAll(View(), ops[i..]) == goal
      {
        assert ops[i..][1..] == ops[i + 1..];
        var ok;
        match ops[i] {
          case Add(listener, events) => ok := AddListener(listener, events);
          case Remove(listener) => ok := RemoveListener(listener);
        }
        i := i + 1;
      }
      assert ops[i..] == [];
    }

    /** Notifies one node after the other, starting over from the head of the list each time. */
    method OnEvent(event: int, b: Behaviour) returns (visited: seq<Node>)
      requires Valid()
      modifies this
      ensures Valid()
      ensures (View(), visited) == Dispatch(old(View()), event, 0, old(sequenceNumber), b)
    {
      hide DispatcherOk, ApplyAll, Notify, Pick;
      visited := [];
      var last: nat, limit := 0, sequenceNumber;
      ghost var goal := Dispatch(View(), event, last, limit, b);
      assert [] + goal.1 == goal.1;
      var found := true;
      while found
        invariant Valid()
        invariant !found ==> goal == (View(), visited)
        invariant found ==> var rest := Dispatch(View(), event, last, limit, b);
                            goal.0 == rest.0 && goal.1 == visited + rest.1
        decreases found, limit - last
      {
        ghost var before := View();
        var node := NextNode(last, limit);
        found := node.Some?;
        if found {
          last := node.value.number;
          NotifyOk(before, node.value, event, b);
          NotifyListener(node.value, event, b);
          ghost var rest := Dispatch(View(), event, last, limit, b);
          assert visited + ([node.value] + rest.1) == (visited + [node.value]) + rest.1;
          visited := visited + [node.value];
        } else {
          assert visited + [] == visited;
        }
      }
    }

    method NextNode(last: nat, limit: nat) returns (node: Option<Node>)
      ensures node == Pick(nodes, last, limit)
    {
      var i := 0;
      assert nodes[0..] == nodes;
      while i < |nodes|
        invariant 0 <= i <= |nodes| && Pick(nodes[i..], last, limit) == Pick(nodes, last, limit)
      {
        assert nodes[i..][1..] == nodes[i + 1..];
        if nodes[i].number >= limit {
          return None;
        }
        if nodes[i].number > last {
          return Some(nodes[i]);
        }
        i := i + 1;
      }
      return None;
    }

    method NotifyListener(n: Node, event: int, b: Behaviour)
      requires Valid()
      modifies this
      ensures Valid() && View() == Notify(old(View()), n, event, b)
    {
      hide DispatcherOk, ApplyAll;
      if n.events.None? {
        Perform(b(Dispatcher(nodes, sequenceNumber), n.listener, event));
        return;
      }
      var events, j := n.events.value, 0;
      while j < |events|
        invariant 0 <= j <= |events| && event !in events[..j] && View() == old(View())
      {
        if events[j] == event {
          Perform(b(Dispatcher(nodes, sequenceNumber), n.listener, event));
          return;
        }
        j := j + 1;
      }
    }
  }
}

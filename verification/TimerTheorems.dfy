/** What a user of the timers relies on: where each timer is, when it fires, and what its listener is
    told. */
module TimerTheorems {
  import opened Common
  import opened Timers

  // -------------------------------------------------------- where a timer is

  datatype Place = Running | Idle | Free

  /** Scheduled, created but not scheduled, or not created. */
  function PlaceOf(s: Scheduler, t: TimerId): Place {
    if Count(s.scheduled, t) > 0 then Running else if Count(s.frozen, t) > 0 then Idle else Free
  }

  lemma {:induction false} UnlinkedPlace(s: Scheduler, t: TimerId, u: TimerId)
    requires SchedulerOk(s)
    ensures var s' := Unlink(s, t);
            if u == t then Count(s'.scheduled, u) == Count(s'.frozen, u) == Count(s'.nursery, u) == 0
            else Count(s'.scheduled, u) == Count(s.scheduled, u) && Count(s'.frozen, u) == Count(s.frozen, u)
                 && Count(s'.nursery, u) == Count(s.nursery, u)
  {
    hide Remove, Count;
    RemoveCounts(s.scheduled, t, u);
    RemoveCounts(s.frozen, t, u);
    RemoveCounts(s.nursery, t, u);
    assert Links(s, t) == 1;
  }

  /** Everything about the other timers stays as it is. */
  ghost predicate OthersStay(s: Scheduler, s': Scheduler, t: TimerId) {
    && s'.now == s.now
    && forall u: TimerId :: u != t ==> s'.timers[u] == s.timers[u] && PlaceOf(s', u) == PlaceOf(s, u)
  }

  /** Scheduling a timer sets it running; it has to have a listener. */
  lemma SchedulePlaces(s: Scheduler, t: TimerId, listener: Option<int>, delay: u32)
    requires SchedulerOk(s)
    ensures var s' := Schedule(s, t, listener, delay);
            if listener.None? then s' == s
            else PlaceOf(s', t) == Running && s'.timers[t].listener == listener && OthersStay(s, s', t)
  {
    hide Unlink, InsertByTime, SchedulerOk, Count;
    if listener.Some? {
      var s1, s' := Unlink(s, t), Schedule(s, t, listener, delay);
      UnlinkKeeps(s, t);
      forall u: TimerId
        ensures Count(s'.scheduled, u) == Count(s1.scheduled, u) + (if u == t then 1 else 0)
        ensures if u == t then Count(s1.scheduled, u) == Count(s1.frozen, u) == 0
                else Count(s1.scheduled, u) == Count(s.scheduled, u) && Count(s1.frozen, u) == Count(s.frozen, u)
      {
        InsertCounts(s'.timers, s1.scheduled, t, u);
        UnlinkedPlace(s, t, u);
      }
    }
  }

  /** Unscheduling stops a running timer and leaves any other alone. */
  lemma UnschedulePlaces(s: Scheduler, t: TimerId)
    requires SchedulerOk(s)
    ensures var s' := Unschedule(s, t);
            if PlaceOf(s, t) == Running then PlaceOf(s', t) == Idle && OthersStay(s, s', t) else s' == s
  {
    assert s.timers[t].listener.Some? <==> Count(s.scheduled, t) > 0;
    hide Unlink, SchedulerOk, Count;
    if s.timers[t].listener.Some? {
      var s1, s' := Unlink(s, t), Unschedule(s, t);
      UnlinkKeeps(s, t);
      forall u: TimerId
        ensures Count(s'.frozen, u) == Count(s1.frozen, u) + (if u == t then 1 else 0)
        ensures if u == t then Count(s1.scheduled, u) == Count(s1.frozen, u) == 0
                else Count(s1.scheduled, u) == Count(s.scheduled, u) && Count(s1.frozen, u) == Count(s.frozen, u)
      {
        CountConcat([t], s1.frozen, u);
        CountOne(t, u);
        UnlinkedPlace(s, t, u);
      }
    }
  }

  /** Destroying a timer makes it free, whatever it was. */
  lemma DestroyPlaces(s: Scheduler, t: TimerId)
    requires SchedulerOk(s)
    ensures var s' := Destroy(s, t); PlaceOf(s', t) == Free && OthersStay(s, s', t)
  {
    hide Unlink, SchedulerOk, Count;
    UnlinkKeeps(s, t);
    forall u: TimerId
      ensures var s1 := Unlink(s, t);
              if u == t then Count(s1.scheduled, u) == Count(s1.frozen, u) == 0
              else Count(s1.scheduled, u) == Count(s.scheduled, u) && Count(s1.frozen, u) == Count(s.frozen, u)
    {
      UnlinkedPlace(s, t, u);
    }
  }

  /** A free timer is created if there is one. */
  lemma CreatePlaces(s: Scheduler)
    requires SchedulerOk(s)
    ensures var (s', r) := CreateTimer(s);
            && (r.None? <==> forall t: TimerId :: PlaceOf(s, t) != Free)
            && (r.None? ==> s' == s)
            && (r.Some? ==> PlaceOf(s, r.value) == Free && PlaceOf(s', r.value) == Idle && OthersStay(s, s', r.value))
  {
    if s.nursery == [] {
      forall t: TimerId ensures PlaceOf(s, t) != Free {
        assert Links(s, t) == 1;
      }
    } else {
      var t, s' := s.nursery[0], CreateTimer(s).0;
      assert Count(s.nursery, t) > 0;
      assert Links(s, t) == 1;
      assert PlaceOf(s, t) == Free;
      forall u: TimerId ensures Count(s'.frozen, u) == Count(s.frozen, u) + (if u == t then 1 else 0) {
        CountConcat(s.frozen, [t], u);
        CountOne(t, u);
      }
    }
  }

  // -------------------------------------------------------- when a timer fires

  /** A timer is due at a time if and only if its delay has passed by then. If that lies beyond the
      range of the clock, the time it fires at has wrapped. */
  lemma DueIff(s: Scheduler, t: TimerId, listener: int, delay: u32, time: u32)
    ensures var fire := s.now + delay;
            Due(Schedule(s, t, Some(listener), delay).timers, t, time)
            <==> if fire < U32 then fire <= time else fire - U32 <= time
  {
    hide Unlink, InsertByTime;
  }

  /** The operation does not concern this timer. */
  predicate Spares(op: Op, t: TimerId) {
    match op
    case NewTimer => true
    case DestroyTimer(u) => u != t
    case ScheduleTimer(u, _, _) => u != t
    case UnscheduleTimer(u) => u != t
  }

  ghost predicate AllSpare(ops: seq<Op>, t: TimerId) {
    forall i :: 0 <= i < |ops| ==> Spares(ops[i], t)
  }

  /** The listeners of other timers leave this one alone. */
  ghost predicate LeavesAlone(b: Behaviour, t: TimerId) {
    forall s, u, listener, elapsed :: u != t ==> AllSpare(b(s, u, listener, elapsed), t)
  }

  lemma SparedOp(s: Scheduler, op: Op, t: TimerId)
    requires SchedulerOk(s) && Spares(op, t) && s.timers[t].listener.Some?
    ensures Apply(s, op).timers[t] == s.timers[t] && SchedulerOk(Apply(s, op)) && Apply(s, op).now == s.now
  {
    OpOk(s, op);
    match op
    case NewTimer =>
      CreatePlaces(s);
      assert s.timers[t].listener.Some? <==> Count(s.scheduled, t) > 0;
    case DestroyTimer(u) => DestroyPlaces(s, u);
    case ScheduleTimer(u, listener, delay) => SchedulePlaces(s, u, listener, delay);
    case UnscheduleTimer(u) => UnschedulePlaces(s, u);
    hide SchedulerOk, Unlink, InsertByTime, Count;
  }

  lemma {:induction false} SparedOps(s: Scheduler, ops: seq<Op>, t: TimerId)
    requires SchedulerOk(s) && AllSpare(ops, t) && s.timers[t].listener.Some?
    ensures ApplyAll(s, ops).timers[t] == s.timers[t]
    decreases |ops|
  {
    hide SchedulerOk, Apply;
    if ops != [] {
      SparedOp(s, ops[0], t);
      SparedOps(Apply(s, ops[0]), ops[1..], t);
    }
  }

  lemma SparedTurn(s: Scheduler, b: Behaviour, t: TimerId)
    requires SchedulerOk(s) && HeadIsDue(s) && s.scheduled[0] != t && LeavesAlone(b, t) && s.timers[t].listener.Some?
    ensures FireHead(s, b).timers[t] == s.timers[t]
  {
    hide SchedulerOk, Unschedule, ApplyAll, AllSpare;
    var u := s.scheduled[0];
    var timer, s1 := s.timers[u], Unschedule(s, u);
    UnscheduleOk(s, u);
    UnschedulePlaces(s, u);
    SparedOps(s1, b(s1, u, if timer.listener.Some? then timer.listener.value else 0,
                    (U32 + s.now - timer.startTime) % U32), t);
  }

  /** A running timer that the other listeners leave alone fires while the time is set if and only if
      it is due at that time; if it is not, it is left as it was. */
  lemma {:induction false} FiresIffDue(s: Scheduler, b: Behaviour, t: TimerId, n: nat)
    requires SchedulerOk(s) && LeavesAlone(b, t) && s.timers[t].listener.Some? && EndsWithin(s, b, n)
    ensures t in FireSome(s, b, n).1 <==> Due(s.timers, t, s.now)
    ensures !Due(s.timers, t, s.now) ==> FireSome(s, b, n).0.timers[t] == s.timers[t]
    decreases n
  {
    hide SchedulerOk, LeavesAlone, FireHead;
    if n == 0 || !HeadIsDue(s) {
      if Due(s.timers, t, s.now) {
        Listed(s, t);
        HeadBefore(s, t);
      }
    } else if s.scheduled[0] != t {
      FireHeadKeeps(s, b);
      SparedTurn(s, b, t);
      FiresIffDue(FireHead(s, b), b, t, n - 1);
    }
  }

  /** The time is set again and again: what fires each time. */
  function Ticks(s: Scheduler, times: seq<u32>, b: Behaviour, n: nat): (Scheduler, seq<seq<TimerId>>)
    decreases |times|
  {
    if times == [] then (s, [])
    else
      var (s1, fired) := FireSome(s.(now := times[0]), b, n);
      var rest := Ticks(s1, times[1..], b, n);
      (rest.0, [fired] + rest.1)
  }

  ghost predicate TicksEnd(s: Scheduler, times: seq<u32>, b: Behaviour, n: nat)
    decreases |times|
  {
    times == [] ||
    (EndsWithin(s.(now := times[0]), b, n) && TicksEnd(FireSome(s.(now := times[0]), b, n).0, times[1..], b, n))
  }

  lemma {:induction false} FirstReached(s: Scheduler, times: seq<u32>, b: Behaviour, t: TimerId, n: nat, i: nat)
    requires SchedulerOk(s) && LeavesAlone(b, t) && s.timers[t].listener.Some? && TicksEnd(s, times, b, n)
    requires i < |times| && forall j :: 0 <= j < i ==> times[j] < s.timers[t].fireTime
    ensures |Ticks(s, times, b, n).1| == |times|
    ensures t in Ticks(s, times, b, n).1[i] <==> times[i] >= s.timers[t].fireTime
    decreases |times|
  {
    hide SchedulerOk, LeavesAlone, FireSome, EndsWithin;
    var s0 := s.(now := times[0]);
    TimeOk(s, times[0]);
    FiresIffDue(s0, b, t, n);
    FireSomeOk(s0, b, n);
    TicksLength(FireSome(s0, b, n).0, times[1..], b, n);
    if i > 0 {
      assert times[0] < s.timers[t].fireTime;
      FirstReached(FireSome(s0, b, n).0, times[1..], b, t, n, i - 1);
    }
  }

  lemma {:induction false} TicksLength(s: Scheduler, times: seq<u32>, b: Behaviour, n: nat)
    ensures |Ticks(s, times, b, n).1| == |times|
    decreases |times|
  {
    hide FireSome;
    if times != [] {
      TicksLength(FireSome(s.(now := times[0]), b, n).0, times[1..], b, n);
    }
  }

  /** A timer scheduled with a delay and left alone fires the first time the clock is set to a time by
      which the delay has passed, and not before. */
  lemma {:induction false} FiresOnTime(s: Scheduler, t: TimerId, listener: int, delay: u32, times: seq<u32>,
                                       b: Behaviour, n: nat, i: nat)
    requires SchedulerOk(s) && s.now + delay < U32 && LeavesAlone(b, t)
    requires TicksEnd(Schedule(s, t, Some(listener), delay), times, b, n)
    requires i < |times| && forall j :: 0 <= j < i ==> times[j] < s.now + delay
    ensures var fired := Ticks(Schedule(s, t, Some(listener), delay), times, b, n).1;
            i < |fired| && (t in fired[i] <==> times[i] >= s.now + delay)
  {
    ScheduleOk(s, t, Some(listener), delay);
    SchedulePlaces(s, t, Some(listener), delay);
    var s1 := Schedule(s, t, Some(listener), delay);
    assert s1.timers[t].fireTime == s.now + delay;
    hide SchedulerOk, LeavesAlone, TicksEnd, Ticks, Schedule;
    FirstReached(s1, times, b, t, n, i);
  }

  /** The listener that is told is the one the timer was scheduled with, and it learns how much time
      has passed since. */
  lemma ToldWhat(s: Scheduler, t: TimerId, listener: int, delay: u32, s': Scheduler, b: Behaviour)
    requires SchedulerOk(s) && s'.timers[t] == Schedule(s, t, Some(listener), delay).timers[t]
    requires HeadIsDue(s') && s'.scheduled[0] == t && s.now <= s'.now
    ensures var stopped := Unschedule(s', t);
            FireHead(s', b) == ApplyAll(stopped, b(stopped, t, listener, s'.now - s.now))
  {
    hide Unlink, InsertByTime, ApplyAll, Unschedule;
    assert (U32 + s'.now - s.now) % U32 == s'.now - s.now;
  }
}

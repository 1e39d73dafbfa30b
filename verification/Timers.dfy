/** The timer scheduler: a pool of timers moving between three lists, and the loop that fires the
    ones that are due while their listeners change the lists. */
module Timers {
  import opened Common

  const MAX_TIMERS := 32
  const NEVER := U32 - 1

  type TimerId = n: nat | n < MAX_TIMERS

  datatype Timer = Timer(listener: Option<int>, startTime: u32, fireTime: u32)

  type Pool = p: seq<Timer> | |p| == MAX_TIMERS witness seq(MAX_TIMERS, _ => Timer(None, 0, 0))

  datatype Scheduler = Scheduler(timers: Pool, scheduled: seq<TimerId>, frozen: seq<TimerId>,
                                 nursery: seq<TimerId>, now: u32)

  // --------------------------------------------------------------- operations

  /** Unlinks a timer from a list it may be in. */
  function Remove(list: seq<TimerId>, t: TimerId): seq<TimerId> {
    if list == [] then [] else if list[0] == t then list[1..] else [list[0]] + Remove(list[1..], t)
  }

  function Unlink(s: Scheduler, t: TimerId): Scheduler {
    s.(scheduled := Remove(s.scheduled, t), frozen := Remove(s.frozen, t), nursery := Remove(s.nursery, t))
  }

  function Create(): Scheduler {
    Scheduler(seq(MAX_TIMERS, _ => Timer(None, 0, 0)), [], [], seq(MAX_TIMERS, i requires 0 <= i < MAX_TIMERS => i), 0)
  }

  function CreateTimer(s: Scheduler): (Scheduler, Option<TimerId>) {
    if s.nursery == [] then (s, None)
    else
      var t := s.nursery[0];
      (s.(nursery := s.nursery[1..], frozen := s.frozen + [t], timers := s.timers[t := Timer(None, 0, 0)]), Some(t))
  }

  function Destroy(s: Scheduler, t: TimerId): Scheduler {
    var s1 := Unlink(s, t);
    s1.(timers := s.timers[t := Timer(None, 0, 0)], nursery := s1.nursery + [t])
  }

  /** Puts a timer before the first one that fires later. */
  function InsertByTime(timers: Pool, list: seq<TimerId>, t: TimerId): seq<TimerId> {
    if list == [] || timers[t].fireTime < timers[list[0]].fireTime then [t] + list
    else [list[0]] + InsertByTime(timers, list[1..], t)
  }

  function Schedule(s: Scheduler, t: TimerId, listener: Option<int>, delay: u32): Scheduler {
    if listener == None then s
    else
      var timers := s.timers[t := Timer(listener, s.now, (s.now + delay) % U32)];
      var s1 := Unlink(s, t);
      s1.(timers := timers, scheduled := InsertByTime(timers, s1.scheduled, t))
  }

  function Unschedule(s: Scheduler, t: TimerId): Scheduler {
    if s.timers[t].listener == None then s
    else
      var s1 := Unlink(s, t);
      s1.(frozen := [t] + s1.frozen, timers := s.timers[t := s.timers[t].(listener := None)])
  }

  function GetNextScheduledTime(s: Scheduler): u32 {
    if s.scheduled == [] then NEVER
    else
      var fire := s.timers[s.scheduled[0]].fireTime;
      if fire >= s.now then fire - s.now else 0
  }

  // ---------------------------------------------------------------- invariant

  /** How often a timer occurs in a list. */
  function Count(list: seq<TimerId>, t: TimerId): nat {
    if list == [] then 0 else (if list[0] == t then 1 else 0) + Count(list[1..], t)
  }

  /** How often a timer is linked, over all three lists. */
  function Links(s: Scheduler, t: TimerId): nat {
    Count(s.scheduled, t) + Count(s.frozen, t) + Count(s.nursery, t)
  }

  /** Every timer of the pool is in exactly one list. */
  ghost predicate Partition(s: Scheduler) {
    forall t: TimerId :: Links(s, t) == 1
  }

  ghost predicate SortedByTime(timers: Pool, list: seq<TimerId>) {
    forall i, j :: 0 <= i < j < |list| ==> timers[list[i]].fireTime <= timers[list[j]].fireTime
  }

  /** The scheduled timers are those with a listener. */
  ghost predicate ListenersMatch(s: Scheduler) {
    forall t: TimerId :: s.timers[t].listener.Some? <==> Count(s.scheduled, t) > 0
  }

  ghost predicate SchedulerOk(s: Scheduler) {
    Partition(s) && SortedByTime(s.timers, s.scheduled) && ListenersMatch(s)
  }

  lemma {:induction false} CountConcat(a: seq<TimerId>, b: seq<TimerId>, t: TimerId)
    ensures Count(a + b, t) == Count(a, t) + Count(b, t)
  {
    if a == [] {
      assert a + b == b;
    } else {
      CountConcat(a[1..], b, t);
      assert (a + b)[1..] == a[1..] + b;
    }
  }

  lemma {:induction false} CountOne(t: TimerId, u: TimerId)
    ensures Count([t], u) == if t == u then 1 else 0
  {
    assert [t][1..] == [];
  }

  lemma {:induction false} CountIn(list: seq<TimerId>, t: TimerId)
    ensures t in list <==> Count(list, t) > 0
  {
    if list != [] {
      CountIn(list[1..], t);
      assert list == [list[0]] + list[1..];
    }
  }

  lemma {:induction false} RemoveCounts(list: seq<TimerId>, t: TimerId, u: TimerId)
    ensures Count(Remove(list, t), u) == if u == t && Count(list, t) > 0 then Count(list, t) - 1 else Count(list, u)
  {
    if list != [] && list[0] != t {
      RemoveCounts(list[1..], t, u);
      var rest := Remove(list[1..], t);
      assert ([list[0]] + rest)[1..] == rest;
    }
  }

  lemma {:induction false} RemoveSorted(timers: Pool, list: seq<TimerId>, t: TimerId)
    requires SortedByTime(timers, list)
    ensures SortedByTime(timers, Remove(list, t))
    ensures forall x :: x in Remove(list, t) ==> x in list
  {
    if list != [] && list[0] != t {
      var rest := list[1..];
      assert SortedByTime(timers, rest);
      RemoveSorted(timers, rest, t);
      var after := [list[0]] + Remove(rest, t);
      forall i, j | 0 <= i < j < |after| ensures timers[after[i]].fireTime <= timers[after[j]].fireTime {
        if i == 0 {
          assert after[j] in Remove(rest, t);
          assert after[j] in rest;
        }
      }
    }
  }

  lemma {:induction false} InsertCounts(timers: Pool, list: seq<TimerId>, t: TimerId, u: TimerId)
    ensures Count(InsertByTime(timers, list, t), u) == Count(list, u) + (if t == u then 1 else 0)
  {
    if list == [] || timers[t].fireTime < timers[list[0]].fireTime {
      assert ([t] + list)[1..] == list;
    } else {
      InsertCounts(timers, list[1..], t, u);
      var rest := InsertByTime(timers, list[1..], t);
      assert ([list[0]] + rest)[1..] == rest;
    }
  }

  /** Scheduling keeps the list in time order, a timer going behind those due at the same time. */
  lemma {:induction false} InsertStable(timers: Pool, list: seq<TimerId>, t: TimerId) returns (at: nat)
    requires SortedByTime(timers, list)
    ensures at <= |list| && InsertByTime(timers, list, t) == list[..at] + [t] + list[at..]
    ensures forall i :: 0 <= i < at ==> timers[list[i]].fireTime <= timers[t].fireTime
    ensures forall i :: at <= i < |list| ==> timers[t].fireTime < timers[list[i]].fireTime
  {
    if list == [] || timers[t].fireTime < timers[list[0]].fireTime {
      at := 0;
    } else {
      var rest := list[1..];
      var k := InsertStable(timers, rest, t);
      at := k + 1;
      assert list[..at] == [list[0]] + rest[..k] && list[at..] == rest[k..];
      forall i | 0 <= i < at ensures timers[list[i]].fireTime <= timers[t].fireTime {
        if i > 0 { assert list[i] == rest[i - 1]; }
      }
      forall i | at <= i < |list| ensures timers[t].fireTime < timers[list[i]].fireTime {
        assert list[i] == rest[i - 1];
      }
    }
  }

  lemma {:induction false} InsertSorted(timers: Pool, list: seq<TimerId>, t: TimerId)
    requires SortedByTime(timers, list)
    ensures SortedByTime(timers, InsertByTime(timers, list, t))
  {
    hide InsertByTime;
    var at := InsertStable(timers, list, t);
  }

  lemma {:induction false} UnlinkCounts(s: Scheduler, t: TimerId, u: TimerId)
    requires Partition(s)
    ensures var s' := Unlink(s, t);
            && Links(s', u) == (if u == t then 0 else 1)
            && Count(s'.scheduled, u) == (if u == t then 0 else Count(s.scheduled, u))
  {
    hide Remove, Count;
    RemoveCounts(s.scheduled, t, u);
    RemoveCounts(s.frozen, t, u);
    RemoveCounts(s.nursery, t, u);
    assert Links(s, t) == 1;
    assert Links(s, u) == 1;
  }

  lemma {:induction false} SameTimes(timers: Pool, timers': Pool, list: seq<TimerId>, t: TimerId)
    requires SortedByTime(timers, list) && Count(list, t) == 0
    requires forall u: TimerId :: u != t ==> timers'[u] == timers[u]
    ensures SortedByTime(timers', list)
  {
    CountIn(list, t);
  }

  /** Relinking a timer, with new fields, keeps the invariant when the listener says where it is. */
  lemma {:induction false} Relinked(s: Scheduler, t: TimerId, s': Scheduler)
    requires SchedulerOk(s)
    requires forall u: TimerId :: u != t ==> s'.timers[u] == s.timers[u]
    requires forall u: TimerId :: Links(s', u) == Links(Unlink(s, t), u) + (if u == t then 1 else 0)
    requires forall u: TimerId :: u != t ==> Count(s'.scheduled, u) == Count(Unlink(s, t).scheduled, u)
    requires s'.timers[t].listener.Some? <==> Count(s'.scheduled, t) > 0
    requires SortedByTime(s'.timers, s'.scheduled)
    ensures SchedulerOk(s')
  {
    hide Unlink, Count, Links, SortedByTime;
    forall u: TimerId ensures Links(s', u) == 1 && (s'.timers[u].listener.Some? <==> Count(s'.scheduled, u) > 0) {
      UnlinkCounts(s, t, u);
      assert s.timers[u].listener.Some? <==> Count(s.scheduled, u) > 0;
    }
  }

  lemma {:induction false} UnlinkKeeps(s: Scheduler, t: TimerId)
    requires SchedulerOk(s)
    ensures Unlink(s, t).timers == s.timers && Unlink(s, t).now == s.now
    ensures SortedByTime(s.timers, Unlink(s, t).scheduled) && Count(Unlink(s, t).scheduled, t) == 0
  {
    UnlinkCounts(s, t, t);
    RemoveSorted(s.timers, s.scheduled, t);
  }

  lemma ScheduleOk(s: Scheduler, t: TimerId, listener: Option<int>, delay: u32)
    requires SchedulerOk(s)
    ensures SchedulerOk(Schedule(s, t, listener, delay))
  {
    hide Unlink, InsertByTime, SchedulerOk, SortedByTime, Count;
    if listener != None {
      var s1, s' := Unlink(s, t), Schedule(s, t, listener, delay);
      UnlinkKeeps(s, t);
      SameTimes(s.timers, s'.timers, s1.scheduled, t);
      InsertSorted(s'.timers, s1.scheduled, t);
      forall u: TimerId
        ensures Count(s'.scheduled, u) == Count(s1.scheduled, u) + (if u == t then 1 else 0)
      {
        InsertCounts(s'.timers, s1.scheduled, t, u);
      }
      Relinked(s, t, s');
    }
  }

  lemma UnscheduleOk(s: Scheduler, t: TimerId)
    requires SchedulerOk(s)
    ensures SchedulerOk(Unschedule(s, t))
  {
    hide Unlink, SchedulerOk, SortedByTime, Count;
    if s.timers[t].listener != None {
      var s1, s' := Unlink(s, t), Unschedule(s, t);
      UnlinkKeeps(s, t);
      SameTimes(s.timers, s'.timers, s'.scheduled, t);
      forall u: TimerId ensures Count(s'.frozen, u) == Count(s1.frozen, u) + (if u == t then 1 else 0) {
        CountConcat([t], s1.frozen, u);
        CountOne(t, u);
      }
      Relinked(s, t, s');
    }
  }

  lemma DestroyOk(s: Scheduler, t: TimerId)
    requires SchedulerOk(s)
    ensures SchedulerOk(Destroy(s, t))
  {
    hide Unlink, SchedulerOk, SortedByTime, Count;
    var s1, s' := Unlink(s, t), Destroy(s, t);
    UnlinkKeeps(s, t);
    SameTimes(s.timers, s'.timers, s'.scheduled, t);
    forall u: TimerId ensures Count(s'.nursery, u) == Count(s1.nursery, u) + (if u == t then 1 else 0) {
      CountConcat(s1.nursery, [t], u);
      CountOne(t, u);
    }
    Relinked(s, t, s');
  }

  lemma CreateTimerOk(s: Scheduler)
    requires SchedulerOk(s)
    ensures SchedulerOk(CreateTimer(s).0)
  {
    if s.nursery != [] {
      var t := s.nursery[0];
      var s' := CreateTimer(s).0;
      assert Count(s.nursery, t) > 0;
      hide SortedByTime;
      assert Links(s, t) == 1;
      SameTimes(s.timers, s'.timers, s.scheduled, t);
      forall u: TimerId
        ensures Links(s', u) == 1 && (s'.timers[u].listener.Some? <==> Count(s'.scheduled, u) > 0)
      {
        assert Links(s, u) == 1;
        assert s.timers[u].listener.Some? <==> Count(s.scheduled, u) > 0;
        CountConcat(s.frozen, [t], u);
        CountOne(t, u);
      }
    }
  }

  lemma {:induction false} CountRange(from: nat, t: TimerId)
    requires from <= MAX_TIMERS
    ensures Count(Create().nursery[from..], t) == if from <= t then 1 else 0
    decreases MAX_TIMERS - from
  {
    if from < MAX_TIMERS {
      CountRange(from + 1, t);
      assert Create().nursery[from..][1..] == Create().nursery[from + 1..];
    }
  }

  lemma CreateOk()
    ensures SchedulerOk(Create())
  {
    forall t: TimerId ensures Links(Create(), t) == 1 {
      CountRange(0, t);
      assert Create().nursery[0..] == Create().nursery;
    }
  }

  /** The time is no part of the invariant. */
  lemma TimeOk(s: Scheduler, time: u32)
    requires SchedulerOk(s)
    ensures SchedulerOk(s.(now := time))
  {
    forall t: TimerId ensures Links(s.(now := time), t) == 1 {
      assert Links(s, t) == 1;
    }
  }

  // ------------------------------------------------------------------- firing

  /** What a listener may do to the scheduler when it is notified. */
  datatype Op =
    | NewTimer
    | DestroyTimer(t: TimerId)
    | ScheduleTimer(t: TimerId, listener: Option<int>, delay: u32)
    | UnscheduleTimer(t: TimerId)

  function Apply(s: Scheduler, op: Op): Scheduler {
    match op
    case NewTimer => CreateTimer(s).0
    case DestroyTimer(t) => Destroy(s, t)
    case ScheduleTimer(t, listener, delay) => Schedule(s, t, listener, delay)
    case UnscheduleTimer(t) => Unschedule(s, t)
  }

  function ApplyAll(s: Scheduler, ops: seq<Op>): Scheduler
    decreases |ops|
  {
    if ops == [] then s else ApplyAll(Apply(s, ops[0]), ops[1..])
  }

  /** A listener's answer to being notified: timer, listener, elapsed time. */
  type Behaviour = (Scheduler, TimerId, int, u32) -> seq<Op>

  /** A timer is scheduled at least one tick ahead and within the range of the clock. */
  predicate Polite(op: Op, now: u32) {
    op.ScheduleTimer? ==> 1 <= op.delay && now + op.delay < U32
  }

  ghost predicate AllPolite(ops: seq<Op>, now: u32) {
    forall i :: 0 <= i < |ops| ==> Polite(ops[i], now)
  }

  ghost predicate PoliteBehaviour(b: Behaviour, now: u32) {
    forall s, t, listener, elapsed :: AllPolite(b(s, t, listener, elapsed), now)
  }

  predicate Due(timers: Pool, t: TimerId, now: u32) {
    timers[t].fireTime <= now
  }

  /** The scheduled timers that are due, in the order of the list. */
  function DueIn(timers: Pool, list: seq<TimerId>, now: u32): seq<TimerId> {
    if list == [] then []
    else (if Due(timers, list[0], now) then [list[0]] else []) + DueIn(timers, list[1..], now)
  }

  function DueList(s: Scheduler): seq<TimerId> {
    DueIn(s.timers, s.scheduled, s.now)
  }

  /** `a` is what is left of `b` after dropping some elements. */
  predicate Subsequence(a: seq<TimerId>, b: seq<TimerId>) {
    if a == [] then true
    else if b == [] then false
    else if a[0] == b[0] then Subsequence(a[1..], b[1..])
    else Subsequence(a, b[1..])
  }

  lemma {:induction false} SubsequenceRefl(a: seq<TimerId>)
    ensures Subsequence(a, a)
  {
    if a != [] {
      SubsequenceRefl(a[1..]);
    }
  }

  lemma {:induction false} SubsequenceSkip(a: seq<TimerId>, b: seq<TimerId>)
    requires b != [] && Subsequence(a, b[1..])
    ensures Subsequence(a, b)
    decreases |b|, 0
  {
    if a != [] && a[0] == b[0] {
      SubsequenceTail(a, b[1..]);
    }
  }

  lemma {:induction false} SubsequenceTail(a: seq<TimerId>, b: seq<TimerId>)
    requires a != [] && Subsequence(a, b)
    ensures Subsequence(a[1..], b)
    decreases |b|, 1
  {
    if a[0] == b[0] {
      SubsequenceSkip(a[1..], b);
    } else {
      SubsequenceTail(a, b[1..]);
      SubsequenceSkip(a[1..], b);
    }
  }

  lemma {:induction false} SubsequenceTrans(a: seq<TimerId>, b: seq<TimerId>, c: seq<TimerId>)
    requires Subsequence(a, b) && Subsequence(b, c)
    ensures Subsequence(a, c)
    decreases |c|
  {
    if a != [] && b != [] {
      if b[0] != c[0] {
        SubsequenceTrans(a, b, c[1..]);
        SubsequenceSkip(a, c);
      } else if a[0] == b[0] {
        SubsequenceTrans(a[1..], b[1..], c[1..]);
      } else {
        SubsequenceTrans(a, b[1..], c[1..]);
        SubsequenceSkip(a, c);
      }
    }
  }

  lemma {:induction false} SubsequenceShorter(a: seq<TimerId>, b: seq<TimerId>)
    requires Subsequence(a, b)
    ensures |a| <= |b|
    decreases |b|
  {
    if a != [] {
      if a[0] == b[0] {
        SubsequenceShorter(a[1..], b[1..]);
      } else {
        SubsequenceShorter(a, b[1..]);
      }
    }
  }

  lemma {:induction false} DueRemove(timers: Pool, list: seq<TimerId>, t: TimerId, now: u32)
    ensures Subsequence(DueIn(timers, Remove(list, t), now), DueIn(timers, list, now))
  {
    if list != [] {
      var rest := DueIn(timers, list[1..], now);
      if list[0] == t {
        SubsequenceRefl(rest);
        if Due(timers, t, now) {
          assert ([t] + rest)[1..] == rest;
          SubsequenceSkip(rest, [t] + rest);
        } else {
          assert [] + rest == rest;
        }
      } else {
        DueRemove(timers, list[1..], t, now);
        var left := Remove(list[1..], t);
        assert ([list[0]] + left)[1..] == left;
        if Due(timers, list[0], now) {
          assert ([list[0]] + rest)[1..] == rest;
          assert ([list[0]] + DueIn(timers, left, now))[1..] == DueIn(timers, left, now);
        } else {
          assert [] + rest == rest && [] + DueIn(timers, left, now) == DueIn(timers, left, now);
        }
      }
    }
  }

  lemma {:induction false} DueInsert(timers: Pool, list: seq<TimerId>, t: TimerId, now: u32)
    requires !Due(timers, t, now)
    ensures DueIn(timers, InsertByTime(timers, list, t), now) == DueIn(timers, list, now)
  {
    if list == [] || timers[t].fireTime < timers[list[0]].fireTime {
      assert ([t] + list)[1..] == list;
    } else {
      DueInsert(timers, list[1..], t, now);
      var rest := InsertByTime(timers, list[1..], t);
      assert ([list[0]] + rest)[1..] == rest;
    }
  }

  lemma {:induction false} DueSame(timers: Pool, timers': Pool, list: seq<TimerId>, t: TimerId, now: u32)
    requires Count(list, t) == 0
    requires forall u: TimerId :: u != t ==> timers'[u] == timers[u]
    ensures DueIn(timers', list, now) == DueIn(timers, list, now)
  {
    if list != [] {
      DueSame(timers, timers', list[1..], t, now);
    }
  }

  /** Unlinking a timer and changing its fields only takes it out of what is due. */
  lemma {:induction false} DueUnlink(s: Scheduler, t: TimerId, timers: Pool)
    requires SchedulerOk(s)
    requires forall u: TimerId :: u != t ==> timers[u] == s.timers[u]
    ensures Subsequence(DueIn(timers, Unlink(s, t).scheduled, s.now), DueList(s))
  {
    hide SchedulerOk, Subsequence, DueIn, Remove;
    UnlinkKeeps(s, t);
    DueRemove(s.timers, s.scheduled, t, s.now);
    DueSame(s.timers, timers, Unlink(s, t).scheduled, t, s.now);
  }

  /** A listener that only schedules ahead makes nothing due that was not, and keeps the order of
      what is. */
  lemma PoliteOp(s: Scheduler, op: Op)
    requires SchedulerOk(s) && Polite(op, s.now)
    ensures SchedulerOk(Apply(s, op)) && Apply(s, op).now == s.now
    ensures Subsequence(DueList(Apply(s, op)), DueList(s))
  {
    hide SchedulerOk, Subsequence, DueIn, Remove, InsertByTime;
    SubsequenceRefl(DueList(s));
    match op
    case NewTimer =>
      CreateTimerOk(s);
      if s.nursery != [] {
        NurseryNotScheduled(s);
        DueSame(s.timers, CreateTimer(s).0.timers, s.scheduled, s.nursery[0], s.now);
      }
    case DestroyTimer(t) =>
      DestroyOk(s, t);
      DueUnlink(s, t, Destroy(s, t).timers);
    case ScheduleTimer(t, listener, delay) =>
      ScheduleOk(s, t, listener, delay);
      if listener != None {
        var s' := Schedule(s, t, listener, delay);
        DueUnlink(s, t, s'.timers);
        DueInsert(s'.timers, Unlink(s, t).scheduled, t, s.now);
      }
    case UnscheduleTimer(t) =>
      UnscheduleOk(s, t);
      if s.timers[t].listener != None {
        DueUnlink(s, t, Unschedule(s, t).timers);
      }
  }

  lemma NurseryNotScheduled(s: Scheduler)
    requires SchedulerOk(s) && s.nursery != []
    ensures Count(s.scheduled, s.nursery[0]) == 0
  {
    assert Links(s, s.nursery[0]) == 1;
  }

  lemma {:induction false} PoliteOps(s: Scheduler, ops: seq<Op>)
    requires SchedulerOk(s) && AllPolite(ops, s.now)
    ensures SchedulerOk(ApplyAll(s, ops)) && ApplyAll(s, ops).now == s.now
    ensures Subsequence(DueList(ApplyAll(s, ops)), DueList(s))
    decreases |ops|
  {
    hide SchedulerOk, Subsequence, DueList, Polite, Apply;
    if ops == [] {
      SubsequenceRefl(DueList(s));
    } else {
      PoliteOp(s, ops[0]);
      PoliteOps(Apply(s, ops[0]), ops[1..]);
      SubsequenceTrans(DueList(ApplyAll(s, ops)), DueList(Apply(s, ops[0])), DueList(s));
    }
  }

  /** Whether the loop of SetTime has a timer to fire. */
  predicate HeadIsDue(s: Scheduler) {
    s.scheduled != [] && Due(s.timers, s.scheduled[0], s.now)
  }

  /** The scheduler after the first timer has fired and its listener has done its part. */
  function FireHead(s: Scheduler, b: Behaviour): Scheduler
    requires HeadIsDue(s)
  {
    var t := s.scheduled[0];
    var timer := s.timers[t];
    var s1 := Unschedule(s, t);
    ApplyAll(s1, b(s1, t, if timer.listener.Some? then timer.listener.value else 0,
                   (U32 + s.now - timer.startTime) % U32))
  }

  lemma HeadGoes(s: Scheduler)
    requires SchedulerOk(s) && HeadIsDue(s)
    ensures var t := s.scheduled[0];
            && DueList(s) == [t] + DueList(Unschedule(s, t))
            && Unschedule(s, t).now == s.now
  {
    var t := s.scheduled[0];
    assert Count(s.scheduled, t) > 0;
    assert Remove(s.scheduled, t) == s.scheduled[1..];
    UnlinkKeeps(s, t);
    hide SchedulerOk, Count;
    DueSame(s.timers, Unschedule(s, t).timers, s.scheduled[1..], t, s.now);
  }

  /** Firing one timer: it is the first that is due, and what is due afterwards is a part of the rest. */
  lemma FireHeadOk(s: Scheduler, b: Behaviour)
    requires SchedulerOk(s) && HeadIsDue(s) && PoliteBehaviour(b, s.now)
    ensures SchedulerOk(FireHead(s, b)) && FireHead(s, b).now == s.now
    ensures DueList(s) != [] && DueList(s)[0] == s.scheduled[0]
    ensures Subsequence(DueList(FireHead(s, b)), DueList(s)[1..])
    ensures |DueList(FireHead(s, b))| < |DueList(s)|
  {
    hide SchedulerOk, Subsequence, DueList, Unschedule, ApplyAll, AllPolite;
    var t := s.scheduled[0];
    HeadGoes(s);
    UnscheduleOk(s, t);
    var timer, s1 := s.timers[t], Unschedule(s, t);
    var ops := b(s1, t, if timer.listener.Some? then timer.listener.value else 0,
                 (U32 + s.now - timer.startTime) % U32);
    PoliteOps(s1, ops);
    assert DueList(s)[1..] == DueList(s1);
    SubsequenceShorter(DueList(FireHead(s, b)), DueList(s1));
  }

  /** The loop of SetTime, with the timers that fired. */
  function FireAll(s: Scheduler, b: Behaviour): (Scheduler, seq<TimerId>)
    requires SchedulerOk(s) && PoliteBehaviour(b, s.now)
    decreases |DueList(s)|
  {
    if !HeadIsDue(s) then (s, [])
    else
      FireHeadOk(s, b);
      var rest := FireAll(FireHead(s, b), b);
      (rest.0, [s.scheduled[0]] + rest.1)
  }

  /** With listeners that schedule at least one tick ahead, setting the time ends with no timer due,
      and the timers that fired are those that were due, in the order of their fire times and of
      their scheduling, except for ones a listener took off the list before their turn. */
  lemma {:induction false} FireAllOk(s: Scheduler, b: Behaviour)
    requires SchedulerOk(s) && PoliteBehaviour(b, s.now)
    ensures SchedulerOk(FireAll(s, b).0) && FireAll(s, b).0.now == s.now
    ensures DueList(FireAll(s, b).0) == []
    ensures Subsequence(FireAll(s, b).1, DueList(s))
    decreases |DueList(s)|
  {
    if !HeadIsDue(s) {
      NothingDue(s.timers, s.scheduled, s.now);
    } else {
      hide SchedulerOk, PoliteBehaviour, Subsequence, DueList, FireHead, HeadIsDue;
      FireHeadOk(s, b);
      var s1 := FireHead(s, b);
      FireAllOk(s1, b);
      SubsequenceTrans(FireAll(s1, b).1, DueList(s1), DueList(s)[1..]);
      SubsequenceCons(s.scheduled[0], FireAll(s1, b).1, DueList(s));
    }
  }

  lemma {:induction false} SubsequenceCons(t: TimerId, a: seq<TimerId>, b: seq<TimerId>)
    requires b != [] && b[0] == t && Subsequence(a, b[1..])
    ensures Subsequence([t] + a, b)
  {
    assert ([t] + a)[1..] == a;
  }

  lemma {:induction false} NothingDue(timers: Pool, list: seq<TimerId>, now: u32)
    requires SortedByTime(timers, list) && (list != [] ==> !Due(timers, list[0], now))
    ensures DueIn(timers, list, now) == []
  {
    if list != [] {
      NothingDue(timers, list[1..], now);
    }
  }

  // --------------------------------------------- listeners that mind their own

  /** The operation touches no timer but `t`, or a new one. */
  predicate Own(op: Op, t: TimerId) {
    match op
    case NewTimer => true
    case DestroyTimer(u) => u == t
    case ScheduleTimer(u, _, _) => u == t
    case UnscheduleTimer(u) => u == t
  }

  ghost predicate AllOwn(ops: seq<Op>, t: TimerId) {
    forall i :: 0 <= i < |ops| ==> Own(ops[i], t)
  }

  ghost predicate OwnBehaviour(b: Behaviour) {
    forall s, t, listener, elapsed :: AllOwn(b(s, t, listener, elapsed), t)
  }

  lemma {:induction false} DueRemoveOther(timers: Pool, list: seq<TimerId>, t: TimerId, now: u32)
    requires t !in DueIn(timers, list, now)
    ensures DueIn(timers, Remove(list, t), now) == DueIn(timers, list, now)
  {
    if list != [] {
      var rest := DueIn(timers, list[1..], now);
      if list[0] == t {
        assert DueIn(timers, list, now) == [] + rest;
      } else {
        DueRemoveOther(timers, list[1..], t, now);
        var left := Remove(list[1..], t);
        assert ([list[0]] + left)[1..] == left;
      }
    }
  }

  lemma {:induction false} DueUnlinkOther(s: Scheduler, t: TimerId, timers: Pool)
    requires SchedulerOk(s) && t !in DueList(s)
    requires forall u: TimerId :: u != t ==> timers[u] == s.timers[u]
    ensures DueIn(timers, Unlink(s, t).scheduled, s.now) == DueList(s)
  {
    hide SchedulerOk, DueIn, Remove;
    UnlinkKeeps(s, t);
    DueRemoveOther(s.timers, s.scheduled, t, s.now);
    DueSame(s.timers, timers, Unlink(s, t).scheduled, t, s.now);
  }

  lemma OwnOp(s: Scheduler, op: Op, t: TimerId)
    requires SchedulerOk(s) && Polite(op, s.now) && Own(op, t) && t !in DueList(s)
    ensures DueList(Apply(s, op)) == DueList(s)
  {
    hide SchedulerOk, DueIn, Remove, InsertByTime;
    match op
    case NewTimer =>
      if s.nursery != [] {
        NurseryNotScheduled(s);
        DueSame(s.timers, CreateTimer(s).0.timers, s.scheduled, s.nursery[0], s.now);
      }
    case DestroyTimer(_) => DueUnlinkOther(s, t, Destroy(s, t).timers);
    case ScheduleTimer(_, listener, delay) =>
      if listener != None {
        var s' := Schedule(s, t, listener, delay);
        DueUnlinkOther(s, t, s'.timers);
        DueInsert(s'.timers, Unlink(s, t).scheduled, t, s.now);
      }
    case UnscheduleTimer(_) =>
      if s.timers[t].listener != None {
        DueUnlinkOther(s, t, Unschedule(s, t).timers);
      }
  }

  lemma {:induction false} OwnOps(s: Scheduler, ops: seq<Op>, t: TimerId)
    requires SchedulerOk(s) && AllPolite(ops, s.now) && AllOwn(ops, t) && t !in DueList(s)
    ensures DueList(ApplyAll(s, ops)) == DueList(s)
    decreases |ops|
  {
    hide SchedulerOk, DueList, Polite, Apply, Own;
    if ops != [] {
      PoliteOp(s, ops[0]);
      OwnOp(s, ops[0], t);
      OwnOps(Apply(s, ops[0]), ops[1..], t);
    }
  }

  lemma {:induction false} DueCount(timers: Pool, list: seq<TimerId>, t: TimerId, now: u32)
    requires Count(list, t) == 0
    ensures t !in DueIn(timers, list, now)
  {
    if list != [] {
      DueCount(timers, list[1..], t, now);
    }
  }

  /** With listeners that touch only their own timer, exactly the due timers fire, once each, in order. */
  lemma {:induction false} AllDueFire(s: Scheduler, b: Behaviour)
    requires SchedulerOk(s) && PoliteBehaviour(b, s.now) && OwnBehaviour(b)
    ensures FireAll(s, b).1 == DueList(s)
    decreases |DueList(s)|
  {
    if !HeadIsDue(s) {
      NothingDue(s.timers, s.scheduled, s.now);
    } else {
      hide SchedulerOk, DueList, Unschedule, ApplyAll, AllPolite, AllOwn;
      FireHeadOk(s, b);
      HeadGoes(s);
      var t := s.scheduled[0];
      var timer, s1 := s.timers[t], Unschedule(s, t);
      UnscheduleOk(s, t);
      HeadNoLongerDue(s);
      OwnOps(s1, b(s1, t, if timer.listener.Some? then timer.listener.value else 0,
                   (U32 + s.now - timer.startTime) % U32), t);
      AllDueFire(FireHead(s, b), b);
    }
  }

  lemma HeadNoLongerDue(s: Scheduler)
    requires SchedulerOk(s) && HeadIsDue(s)
    ensures s.scheduled[0] !in DueList(Unschedule(s, s.scheduled[0]))
  {
    var t := s.scheduled[0];
    assert Count(s.scheduled, t) > 0;
    UnlinkKeeps(s, t);
    hide SchedulerOk;
    DueCount(Unschedule(s, t).timers, Unlink(s, t).scheduled, t, s.now);
  }

  // ------------------------------------------------------------- queries, limits

  /** The time reported is that of a scheduled timer that fires first, zero if it is late. */
  lemma NextTimeIsEarliest(s: Scheduler)
    requires SchedulerOk(s)
    ensures var next := GetNextScheduledTime(s);
            && (s.scheduled == [] ==> next == NEVER)
            && (forall i :: 0 <= i < |s.scheduled| ==> s.now + next <= s.timers[s.scheduled[i]].fireTime || next == 0)
            && (s.scheduled != [] ==>
                  exists i :: 0 <= i < |s.scheduled| &&
                    (s.timers[s.scheduled[i]].fireTime
                     == s.now + next || (next == 0 && s.timers[s.scheduled[i]].fireTime < s.now)))
  {
    if s.scheduled != [] {
      var first := s.timers[s.scheduled[0]];
      assert forall i :: 0 <= i < |s.scheduled| ==> first.fireTime <= s.timers[s.scheduled[i]].fireTime;
      assert first.fireTime == s.now + GetNextScheduledTime(s) || GetNextScheduledTime(s) == 0;
    }
  }

  // ------------------------------------------------------------ any listeners

  lemma OpOk(s: Scheduler, op: Op)
    requires SchedulerOk(s)
    ensures SchedulerOk(Apply(s, op)) && Apply(s, op).now == s.now
  {
    hide SchedulerOk;
    match op
    case NewTimer => CreateTimerOk(s);
    case DestroyTimer(t) => DestroyOk(s, t);
    case ScheduleTimer(t, listener, delay) => ScheduleOk(s, t, listener, delay);
    case UnscheduleTimer(t) => UnscheduleOk(s, t);
  }

  lemma {:induction false} OpsOk(s: Scheduler, ops: seq<Op>)
    requires SchedulerOk(s)
    ensures SchedulerOk(ApplyAll(s, ops)) && ApplyAll(s, ops).now == s.now
    decreases |ops|
  {
    hide SchedulerOk, Apply;
    if ops != [] {
      OpOk(s, ops[0]);
      OpsOk(Apply(s, ops[0]), ops[1..]);
    }
  }

  lemma FireHeadKeeps(s: Scheduler, b: Behaviour)
    requires SchedulerOk(s) && HeadIsDue(s)
    ensures SchedulerOk(FireHead(s, b)) && FireHead(s, b).now == s.now
  {
    hide SchedulerOk, Unschedule, ApplyAll;
    var t := s.scheduled[0];
    var timer, s1 := s.timers[t], Unschedule(s, t);
    HeadGoes(s);
    UnscheduleOk(s, t);
    OpsOk(s1, b(s1, t, if timer.listener.Some? then timer.listener.value else 0,
                (U32 + s.now - timer.startTime) % U32));
  }

  /** The first `n` turns of the loop of SetTime, or fewer if it ends before, with the timers that
      fired. */
  function FireSome(s: Scheduler, b: Behaviour, n: nat): (Scheduler, seq<TimerId>)
    decreases n
  {
    if n == 0 || !HeadIsDue(s) then (s, [])
    else
      var rest := FireSome(FireHead(s, b), b, n - 1);
      (rest.0, [s.scheduled[0]] + rest.1)
  }

  /** The loop ends within `n` turns. */
  predicate EndsWithin(s: Scheduler, b: Behaviour, n: nat) {
    !HeadIsDue(FireSome(s, b, n).0)
  }

  /** With any listeners, a loop that ends leaves no timer due. */
  lemma {:induction false} FireSomeOk(s: Scheduler, b: Behaviour, n: nat)
    requires SchedulerOk(s)
    ensures SchedulerOk(FireSome(s, b, n).0) && FireSome(s, b, n).0.now == s.now
    ensures EndsWithin(s, b, n) ==> DueList(FireSome(s, b, n).0) == []
    decreases n
  {
    if n == 0 || !HeadIsDue(s) {
      if !HeadIsDue(s) {
        NothingDue(s.timers, s.scheduled, s.now);
      }
    } else {
      hide SchedulerOk, FireHead, DueList;
      FireHeadKeeps(s, b);
      FireSomeOk(FireHead(s, b), b, n - 1);
    }
  }

  /** With listeners that look ahead the loop takes at most one turn for each timer that is due. */
  lemma {:induction false} PoliteEnds(s: Scheduler, b: Behaviour)
    requires SchedulerOk(s) && PoliteBehaviour(b, s.now)
    ensures EndsWithin(s, b, |DueList(s)|) && FireSome(s, b, |DueList(s)|) == FireAll(s, b)
    decreases |DueList(s)|
  {
    hide SchedulerOk, PoliteBehaviour, DueList, FireHead;
    if HeadIsDue(s) {
      FireHeadOk(s, b);
      PoliteEnds(FireHead(s, b), b);
      MoreTurns(FireHead(s, b), b, |DueList(FireHead(s, b))|, |DueList(s)| - 1);
    }
  }

  /** Once the loop has ended, more turns change nothing. */
  lemma {:induction false} MoreTurns(s: Scheduler, b: Behaviour, n: nat, m: nat)
    requires EndsWithin(s, b, n) && n <= m
    ensures FireSome(s, b, m) == FireSome(s, b, n)
    decreases n
  {
    hide FireHead;
    if n > 0 && HeadIsDue(s) {
      MoreTurns(FireHead(s, b), b, n - 1, m - 1);
    }
  }

  /** A listener that schedules its timer again. */
  function Again(delay: u32): Behaviour {
    (s: Scheduler, t: TimerId, listener: int, elapsed: u32) => [ScheduleTimer(t, Some(listener), delay)]
  }

  /** Its timer is due again at once if and only if there is no delay or the fire time wraps. */
  lemma DueAgainIff(s: Scheduler, delay: u32)
    requires SchedulerOk(s) && HeadIsDue(s)
    ensures var t, s' := s.scheduled[0], FireHead(s, Again(delay));
            && t in s'.scheduled
            && (Due(s'.timers, t, s.now) <==> delay == 0 || s.now + delay >= U32)
  {
    var t := s.scheduled[0];
    var s1, timer := Unschedule(s, t), s.timers[t];
    var listener := if timer.listener.Some? then timer.listener.value else 0;
    var op := ScheduleTimer(t, Some(listener), delay);
    assert [op][1..] == [];
    assert ApplyAll(s1, [op]) == Schedule(s1, t, Some(listener), delay);
    FireHeadKeeps(s, Again(delay));
    HeadGoes(s);
    hide SchedulerOk, Unschedule, Unlink, InsertByTime, Count;
    Listed(FireHead(s, Again(delay)), t);
  }

  lemma Listed(s: Scheduler, t: TimerId)
    requires SchedulerOk(s) && s.timers[t].listener.Some?
    ensures t in s.scheduled
  {
    CountIn(s.scheduled, t);
  }

  lemma HeadBefore(s: Scheduler, t: TimerId)
    requires SchedulerOk(s) && t in s.scheduled && Due(s.timers, t, s.now)
    ensures HeadIsDue(s)
  {
  }

  /** Then the loop goes on for any number of turns. */
  lemma {:induction false} NeverEnds(s: Scheduler, delay: u32, n: nat)
    requires SchedulerOk(s) && HeadIsDue(s) && (delay == 0 || s.now + delay >= U32)
    ensures !EndsWithin(s, Again(delay), n) && |FireSome(s, Again(delay), n).1| == n
    decreases n
  {
    hide SchedulerOk, FireHead;
    if n > 0 {
      DueAgainIff(s, delay);
      FireHeadKeeps(s, Again(delay));
      var s' := FireHead(s, Again(delay));
      HeadBefore(s', s.scheduled[0]);
      NeverEnds(s', delay, n - 1);
    }
  }

  /** The loop with such listeners ends if and only if they look ahead. */
  lemma EndsIff(s: Scheduler, delay: u32)
    requires SchedulerOk(s) && HeadIsDue(s)
    ensures (exists n :: EndsWithin(s, Again(delay), n)) <==> 1 <= delay && s.now + delay < U32
  {
    if 1 <= delay && s.now + delay < U32 {
      assert PoliteBehaviour(Again(delay), s.now);
      PoliteEnds(s, Again(delay));
    } else {
      forall n ensures !EndsWithin(s, Again(delay), n) {
        NeverEnds(s, delay, n);
      }
    }
  }
}

/** The scheduler object: its operations in place, proved to be the functions of the model. */
module TimerService {
  import opened Common
  import opened Timers

  class TimerScheduler {
    const timers: array<Timer>
    var scheduled: seq<TimerId>
    var frozen: seq<TimerId>
    var nursery: seq<TimerId>
    var now: u32

    ghost predicate Valid()
      reads this, timers
    {
      timers.Length == MAX_TIMERS && SchedulerOk(View())
    }

    ghost function View(): Scheduler
      requires timers.Length == MAX_TIMERS
      reads this, timers
    {
      Scheduler(timers[..], scheduled, frozen, nursery, now)
    }

    constructor ()
      ensures Valid() && fresh(timers) && View() == Timers.Create()
    {
      timers := new Timer[MAX_TIMERS](_ => Timer(None, 0, 0));
      scheduled, frozen, now := [], [], 0;
      nursery := seq(MAX_TIMERS, i requires 0 <= i < MAX_TIMERS => i);
      new;
      assert timers[..] == seq(MAX_TIMERS, _ => Timer(None, 0, 0));
      CreateOk();
    }

    method CreateTimer() returns (timer: Option<TimerId>)
      requires Valid()
      modifies this, timers
      ensures Valid()
      ensures (View(), timer) == Timers.CreateTimer(old(View()))
    {
      hide SchedulerOk;
      CreateTimerOk(View());
      if nursery == [] {
        return None;
      }
      var t := nursery[0];
      nursery := nursery[1..];
      frozen := frozen + [t];
      timers[t] := Timer(None, 0, 0);
      return Some(t);
    }

    method Destroy(t: TimerId)
      requires Valid()
      modifies this, timers
      ensures Valid() && View() == Timers.Destroy(old(View()), t)
    {
      hide SchedulerOk;
      DestroyOk(View(), t);
      timers[t] := Timer(None, 0, 0);
      scheduled, frozen, nursery := Remove(scheduled, t), Remove(frozen, t), Remove(nursery, t);
      nursery := nursery + [t];
    }

    /** Looks for the first timer that fires later and links this one before it. */
    method Schedule(t: TimerId, listener: Option<int>, delay: u32)
      requires Valid()
      modifies this, timers
      ensures Valid() && View() == Timers.Schedule(old(View()), t, listener, delay)
    {
      hide SchedulerOk, InsertByTime, Remove;
      ScheduleOk(View(), t, listener, delay);
      if listener == None {
        return;
      }
      scheduled, frozen, nursery := Remove(scheduled, t), Remove(frozen, t), Remove(nursery, t);
      timers[t] := Timer(listener, now, (now + delay) % U32);
      LinkByTime(t);
    }

    method LinkByTime(t: TimerId)
      requires timers.Length == MAX_TIMERS
      modifies `scheduled
      ensures scheduled == InsertByTime(timers[..], old(scheduled), t)
    {
      var list, i := scheduled, 0;
      ghost var pool: Pool := timers[..];
      assert list[0..] == list;
      while i < |list| && timers[t].fireTime >= timers[list[i]].fireTime
        invariant 0 <= i <= |list|
        invariant InsertByTime(pool, list, t) == list[..i] + InsertByTime(pool, list[i..], t)
      {
        InsertAfter(pool, list, i, t);
        i := i + 1;
      }
      scheduled := list[..i] + [t] + list[i..];
    }

    method Unschedule(t: TimerId)
      requires Valid()
      modifies this, timers
      ensures Valid() && View() == Timers.Unschedule(old(View()), t)
    {
      hide SchedulerOk, Remove;
      UnscheduleOk(View(), t);
      if timers[t].listener == None {
        return;
      }
      scheduled, frozen, nursery := Remove(scheduled, t), Remove(frozen, t), Remove(nursery, t);
      frozen := [t] + frozen;
      timers[t] := timers[t].(listener := None);
    }

    /** Does what a notified listener asks for. */
    method Perform(ops: seq<Op>)
      requires Valid()
      modifies this, timers
      ensures Valid() && View() == ApplyAll(old(View()), ops)
    {
      hide SchedulerOk, Timers.Schedule, Timers.Unschedule, Timers.Destroy, Timers.CreateTimer;
      ghost var goal := ApplyAll(View(), ops);
      var i := 0;
      assert ops[0..] == ops;
      while i < |ops|
        invariant 0 <= i <= |ops| && Valid() && ApplyAll(View(), ops[i..]) == goal
      {
        assert ops[i..][1..] == ops[i + 1..];
        match ops[i] {
          case NewTimer => var created := CreateTimer();
          case DestroyTimer(t) => Destroy(t);
          case ScheduleTimer(t, listener, delay) => Schedule(t, listener, delay);
          case UnscheduleTimer(t) => Unschedule(t);
        }
        i := i + 1;
      }
      assert ops[i..] == [];
    }

    /** Sets the time and fires the timers that are due, one after the other, each unscheduled
        before its listener is notified. Whatever the listeners do, as long as the loop ends. */
    method SetTime(time: u32, b: Behaviour, ghost turns: nat) returns (fired: seq<TimerId>)
      requires Valid() && EndsWithin(View().(now := time), b, turns)
      modifies this, timers
      ensures Valid() && now == time
      ensures (View(), fired) == FireSome(old(View()).(now := time), b, turns) && DueList(View()) == []
    {
      hide SchedulerOk, DueList, FireSome, EndsWithin;
      TimeOk(View(), time);
      FireSomeOk(View().(now := time), b, turns);
      now := time;
      fired := FireDue(b, turns);
    }

    /** The loop: fires the first timer as long as it is due. */
    method FireDue(b: Behaviour, ghost turns: nat) returns (fired: seq<TimerId>)
      requires Valid() && EndsWithin(View(), b, turns)
      modifies this, timers
      ensures Valid() && now == old(now)
      ensures (View(), fired) == FireSome(old(View()), b, turns)
    {
      hide SchedulerOk, FireHead, FireSome, EndsWithin;
      fired := [];
      ghost var goal, left := FireSome(View(), b, turns), turns;
      assert [] + goal.1 == goal.1;
      while scheduled != [] && timers[scheduled[0]].fireTime <= now
        invariant Valid() && now == old(now) && EndsWithin(View(), b, left)
        invariant goal.0 == FireSome(View(), b, left).0 && goal.1 == fired + FireSome(View(), b, left).1
        decreases left
      {
        FireTurn(View(), b, left, fired);
        var t := FireFirst(b);
        fired := fired + [t];
        left := left - 1;
      }
      FireTurn(View(), b, left, fired);
    }

    method FireFirst(b: Behaviour) returns (t: TimerId)
      requires Valid() && HeadIsDue(View())
      modifies this, timers
      ensures Valid() && now == old(now)
      ensures t == old(scheduled[0]) && View() == FireHead(old(View()), b)
    {
      hide SchedulerOk, ApplyAll, Timers.Unschedule;
      FireHeadKeeps(View(), b);
      t := scheduled[0];
      var timer, time := timers[t], now;
      Unschedule(t);
      var ops := b(Snapshot(), t, if timer.listener.Some? then timer.listener.value else 0,
                   (U32 + time - timer.startTime) % U32);
      Perform(ops);
    }

    /** The state a listener sees. */
    function Snapshot(): (s: Scheduler)
      requires timers.Length == MAX_TIMERS
      reads this, timers
      ensures s == View()
    {
      Scheduler(timers[..], scheduled, frozen, nursery, now)
    }
  }

  /** One turn of the firing loop, with what has fired before it. */
  lemma {:induction false} FireTurn(s: Scheduler, b: Behaviour, n: nat, fired: seq<TimerId>)
    requires EndsWithin(s, b, n)
    ensures !HeadIsDue(s) ==> FireSome(s, b, n).0 == s && fired + FireSome(s, b, n).1 == fired
    ensures HeadIsDue(s) ==>
              && n > 0 && EndsWithin(FireHead(s, b), b, n - 1)
              && FireSome(s, b, n).0 == FireSome(FireHead(s, b), b, n - 1).0
              && fired + FireSome(s, b, n).1 == (fired + [s.scheduled[0]]) + FireSome(FireHead(s, b), b, n - 1).1
  {
    hide FireHead;
  }

  lemma {:induction false} InsertAfter(timers: Pool, list: seq<TimerId>, i: nat, t: TimerId)
    requires i < |list| && timers[t].fireTime >= timers[list[i]].fireTime
    ensures list[..i] + InsertByTime(timers, list[i..], t) == list[..i + 1] + InsertByTime(timers, list[i + 1..], t)
  {
    assert list[i..][1..] == list[i + 1..];
  }
}

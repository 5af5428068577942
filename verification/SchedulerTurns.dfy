/**
  When a task loses the processor to the timer of kernel/sched.c.  In these runs
  the current task computes and others are made runnable; it does not give up the
  processor itself.
 */
module SchedulerTurns {
  import opened Scheduler
  import opened SchedulerShare

  predicate Computes(es: seq<Event>) { forall k :: 0 <= k < |es| ==> !es[k].Yield? }

  predicate InUserMode(es: seq<Event>) { forall k :: 0 <= k < |es| && es[k].Tick? ==> es[k].user }

  function Ticks(es: seq<Event>): nat
    decreases |es|
  {
    if es == [] then 0 else (if es[0].Tick? then 1 else 0) + Ticks(es[1..])
  }

  /** The tick that ends the turn of the current task, counted from one. */
  function Turn(s: Sys): nat
    requires Good(s)
  {
    assert SlotOk(s.ts[s.current]);
    if s.ts[s.current].task.counter > 1 then s.ts[s.current].task.counter else 1
  }

  /** At some moment of the run the processor is with another task than c. */
  predicate LeftBehind(s: Sys, es: seq<Event>, c: nat)
    requires Good(s) && CanRun(s, es)
    decreases |es|
  {
    s.current != c || (es != [] && (NextGood(s, es[0]); LeftBehind(Next(s, es[0]), es[1..], c)))
  }

  // ----- not before -----------------------------------------------------------

  /** Before that tick it keeps the processor, whatever becomes runnable, and is charged each tick. */
  lemma {:induction false} KeepsItsTurn(s: Sys, es: seq<Event>)
    requires Good(s) && CanRun(s, es) && Computes(es) && Ticks(es) < Turn(s)
    ensures End(s, es).current == s.current && End(s, es).ts[s.current].Used?
    ensures End(s, es).ts[s.current].task.counter == s.ts[s.current].task.counter - Ticks(es)
    ensures forall i :: 0 <= i < NR_TASKS && s.ts[i].Used? && i != s.current ==>
                          End(s, es).ts[i].Used? && End(s, es).ts[i].task.counter == s.ts[i].task.counter
    ensures forall i :: Runnable(s.ts, i) ==> Runnable(End(s, es).ts, i)
    decreases |es|
  {
    assert SlotOk(s.ts[s.current]);
    if es != [] {
      NextGood(s, es[0]);
      KeepsItsTurn(Next(s, es[0]), es[1..]);
    }
  }

  /** In kernel mode no number of ticks takes the processor away. */
  lemma {:induction false} KernelIsNotPreempted(s: Sys, es: seq<Event>)
    requires Good(s) && CanRun(s, es) && Computes(es)
    requires forall k :: 0 <= k < |es| && es[k].Tick? ==> !es[k].user
    ensures End(s, es).current == s.current
    decreases |es|
  {
    if es != [] {
      NextGood(s, es[0]);
      KernelIsNotPreempted(Next(s, es[0]), es[1..]);
    }
  }

  // ----- and not after --------------------------------------------------------

  /** One step of a task that computes, with another that can run. */
  lemma StepOfTurn(s: Sys, e: Event, i: nat)
    requires Good(s) && Possible(s, e) && !e.Yield? && (e.Tick? ==> e.user)
    requires Runnable(s.ts, i) && i != s.current
    ensures Good(Next(s, e)) && Runnable(Next(s, e).ts, i)
    ensures !e.Tick? || Turn(s) > 1 ==>
              && Next(s, e).current == s.current && Turn(Next(s, e)) == Turn(s) - Ticks([e])
              && Next(s, e).ts[i].task.counter == s.ts[i].task.counter
              && Next(s, e).ts[s.current].task.priority == s.ts[s.current].task.priority
    ensures e.Tick? && Turn(s) == 1 ==> Best(Next(s, e).ts, Next(s, e).current)
    ensures e.Tick? && Turn(s) == 1 && Next(s, e).current == s.current ==>
              && s.ts[i].task.counter == 0
              && Next(s, e).ts[i].task.counter > 0 && Turn(Next(s, e)) == s.ts[s.current].task.priority
  {
    assert SlotOk(s.ts[s.current]) && SlotOk(s.ts[i]);
    NextGood(s, e);
    assert Ticks([e]) == (if e.Tick? then 1 else 0) + Ticks([]);
    if e.Tick? && Turn(s) == 1 {
      BeforeOk(s, e);
      SettledTask(Before(s, e), e.jiffies, i);
      assert Runnable(Next(s, e).ts, i) && Best(Next(s, e).ts, Next(s, e).current);
      assert Next(s, e).current != 0;
      if Next(s, e).current == s.current {
        SettledTask(Before(s, e), e.jiffies, s.current);
        assert Beats(Next(s, e).ts, s.current, i);
      }
    }
  }

  /**
    A task that computes in user mode loses the processor when its time is used
    up, if another task that can run has time left.
   */
  lemma {:induction false} LeftWhenTimeIsUp(s: Sys, es: seq<Event>, i: nat)
    requires Good(s) && CanRun(s, es) && Computes(es) && InUserMode(es)
    requires Runnable(s.ts, i) && i != s.current && s.ts[i].task.counter > 0 && Ticks(es) >= Turn(s)
    ensures LeftBehind(s, es, s.current)
    decreases |es|
  {
    var e := es[0];
    StepOfTurn(s, e, i);
    assert Ticks([e]) == (if e.Tick? then 1 else 0) + Ticks([]);
    if Next(s, e).current == s.current {
      LeftWhenTimeIsUp(Next(s, e), es[1..], i);
    }
  }

  /** And if none has, after one more turn of as many ticks as its priority, whoever it is that waits. */
  lemma {:induction false} LeftAtLatest(s: Sys, es: seq<Event>, i: nat)
    requires Good(s) && CanRun(s, es) && Computes(es) && InUserMode(es)
    requires Runnable(s.ts, i) && i != s.current && Ticks(es) >= Turn(s) + s.ts[s.current].task.priority
    ensures LeftBehind(s, es, s.current)
    decreases |es|
  {
    assert SlotOk(s.ts[s.current]);
    var e := es[0];
    StepOfTurn(s, e, i);
    assert Ticks([e]) == (if e.Tick? then 1 else 0) + Ticks([]);
    if Next(s, e).current == s.current {
      if e.Tick? && Turn(s) == 1 {
        LeftWhenTimeIsUp(Next(s, e), es[1..], i);
      } else {
        LeftAtLatest(Next(s, e), es[1..], i);
      }
    }
  }

  /** Task i, which can run once alarms and signals are looked at, does not stop c from going on. */
  predicate Behind(ts: Table, i: int, c: nat)
    requires 0 <= i < NR_TASKS && ts[i].Used? && c < NR_TASKS && ts[c].Used?
  {
    && ts[i].task.counter == 0
    && (ts[i].task.priority < ts[c].task.priority || (ts[i].task.priority == ts[c].task.priority && i < c))
  }

  /**
    The turn ends without a change of task exactly when the task can still run and
    all others that can have no time left and, recharged, come behind it.
   */
  lemma StaysIff(s: Sys, jiffies: nat)
    requires Good(s) && Turn(s) == 1 && s.current != 0
    ensures Next(s, Tick(true, jiffies)).current == s.current <==>
            && Runnable(Woken(s.ts, jiffies), s.current)
            && forall i :: Runnable(Woken(s.ts, jiffies), i) && i != s.current ==> Behind(s.ts, i, s.current)
  {
    var e := Tick(true, jiffies);
    var c := s.current;
    var w := Woken(s.ts, jiffies);
    var r := Next(s, e);
    NextGood(s, e);
    BeforeOk(s, e);
    assert SlotOk(s.ts[c]);
    forall i | 1 <= i < NR_TASKS
      ensures Runnable(r.ts, i) <==> Runnable(w, i)
    {
      SettledTask(Before(s, e), jiffies, i);
    }
    if Runnable(w, c) {
      SettledTask(Before(s, e), jiffies, c);
      forall i | Runnable(w, i) && i != c
        ensures SlotOk(s.ts[i])
        ensures r.current == c ==> Behind(s.ts, i, c)
      {
        SettledTask(Before(s, e), jiffies, i);
        assert r.current == c ==> Beats(r.ts, c, i);
      }
      if r.current != c && r.current != 0 {
        SettledTask(Before(s, e), jiffies, r.current);
        assert Beats(r.ts, r.current, c);
      }
    }
  }

  // ----- sleeping -----------------------------------------------------------------

  predicate SleepsAt(s: Sys, i: nat)
    requires Good(s)
  {
    1 <= i < NR_TASKS && s.ts[i].Used? && s.ts[i].task.state == Uninterruptible && s.current != i
  }

  lemma SleepsStep(s: Sys, e: Event, i: nat)
    requires Good(s) && Possible(s, e) && SleepsAt(s, i) && e != Wake(i)
    ensures Good(Next(s, e)) && SleepsAt(Next(s, e), i)
  {
    NextGood(s, e);
    if Schedules(s, e) {
      BeforeOk(s, e);
      SettledTask(Before(s, e), e.jiffies, i);
      assert !Runnable(Next(s, e).ts, i);
    }
  }

  lemma {:induction false} SleepsThroughout(s: Sys, es: seq<Event>, i: nat)
    requires Good(s) && CanRun(s, es) && SleepsAt(s, i) && Wake(i) !in es
    ensures SleepsAt(End(s, es), i)
    decreases |es|
  {
    if es != [] {
      assert es[0] != Wake(i);
      SleepsStep(s, es[0], i);
      SleepsThroughout(Next(s, es[0]), es[1..], i);
    }
  }

  /**
    A task that goes to sleep uninterruptibly does not run again before it is
    woken, whatever alarms, signals, ticks and other tasks do.
   */
  lemma GivesUpUntilWoken(s: Sys, jiffies: nat, es: seq<Event>)
    requires Good(s) && 1 <= s.current && Good(Next(s, Yield(Uninterruptible, jiffies)))
    requires CanRun(Next(s, Yield(Uninterruptible, jiffies)), es) && Wake(s.current) !in es
    ensures End(Next(s, Yield(Uninterruptible, jiffies)), es).current != s.current
  {
    var e, c := Yield(Uninterruptible, jiffies), s.current;
    NextGood(s, e);
    BeforeOk(s, e);
    SettledTask(Before(s, e), jiffies, c);
    assert !Runnable(Next(s, e).ts, c);
    SleepsThroughout(Next(s, e), es, c);
  }

  /** Waking makes a task runnable and takes the processor from nobody. */
  lemma WakeIs(s: Sys, i: nat)
    requires Good(s) && Possible(s, Wake(i))
    ensures var r := Next(s, Wake(i));
            && r.current == s.current && r.ts[i] == Used(s.ts[i].task.(state := Running))
            && forall j :: 0 <= j < NR_TASKS && j != i ==> r.ts[j] == s.ts[j]
  {
  }

  function Pair(): Table {
    seq(NR_TASKS, i => if i == 0 then Used(Task(Running, 0, 15, 0, {}))
                       else if i == 1 then Used(Task(Running, 1, 15, 0, {}))
                       else if i == 2 then Used(Task(Running, 0, 10, 0, {}))
                       else Empty)
  }

  /** So a task may go on past its counter with another one waiting. */
  lemma StaysPastItsTurn()
    ensures Good(Sys(Pair(), 1)) && Runnable(Pair(), 2) && Turn(Sys(Pair(), 1)) == 1
    ensures Next(Sys(Pair(), 1), Tick(true, 0)).current == 1
  {
    var w := Woken(Pair(), 0);
    assert w[1] == Signalled(Pair()[1], 0);
    forall i | Runnable(w, i) && i != 1
      ensures Behind(Pair(), i, 1)
    {
      assert w[i] == Signalled(Pair()[i], 0);
    }
    StaysIff(Sys(Pair(), 1), 0);
  }
}

/**
  What the scheduler of kernel/sched.c gives to each task over a run with fixed
  tasks and priorities.  A tick is charged to a task when it takes one unit off
  its counter.
 */
module SchedulerShare {
  import opened Scheduler

  predicate CanRun(s: Sys, es: seq<Event>)
    requires Good(s)
    decreases |es|
  {
    es == [] || (Possible(s, es[0]) && (NextGood(s, es[0]); CanRun(Next(s, es[0]), es[1..])))
  }

  function End(s: Sys, es: seq<Event>): (r: Sys)
    requires Good(s) && CanRun(s, es)
    ensures Good(r)
    decreases |es|
  {
    if es == [] then s
    else
      NextGood(s, es[0]);
      End(Next(s, es[0]), es[1..])
  }

  function ChargeOf(s: Sys, e: Event, i: nat): nat
    requires Good(s)
  {
    if e.Tick? && s.current == i && s.ts[i].task.counter > 0 then 1 else 0
  }

  /** The ticks charged to task i. */
  function Charges(s: Sys, es: seq<Event>, i: nat): nat
    requires Good(s) && CanRun(s, es)
    decreases |es|
  {
    if es == [] then 0
    else
      NextGood(s, es[0]);
      ChargeOf(s, es[0], i) + Charges(Next(s, es[0]), es[1..], i)
  }

  /** How many recharges the run contains. */
  function Rounds(s: Sys, es: seq<Event>): nat
    requires Good(s) && CanRun(s, es)
    decreases |es|
  {
    if es == [] then 0
    else
      NextGood(s, es[0]);
      (if Recharges(s, es[0]) then 1 else 0) + Rounds(Next(s, es[0]), es[1..])
  }

  /** Task i can run whenever there is a recharge. */
  predicate Competes(s: Sys, es: seq<Event>, i: nat)
    requires Good(s) && CanRun(s, es)
    decreases |es|
  {
    es == [] ||
    (NextGood(s, es[0]);
     (Recharges(s, es[0]) ==> Runnable(Woken(Before(s, es[0]), es[0].jiffies), i))
         && Competes(Next(s, es[0]), es[1..], i))
  }

  // ----- one task -------------------------------------------------------------

  predicate SameTask(a: Slot, b: Slot) { a.Used? == b.Used? && (a.Used? ==> a.task.priority == b.task.priority) }

  /** One event: what is charged plus what is left is what there was plus what the recharge gave. */
  lemma StepShare(s: Sys, e: Event, i: nat)
    requires Good(s) && Possible(s, e) && 1 <= i < NR_TASKS && s.ts[i].Used?
    requires Recharges(s, e) ==> Runnable(Woken(Before(s, e), e.jiffies), i)
    ensures SameTask(s.ts[i], Next(s, e).ts[i])
    ensures Next(s, e).ts[i].task.counter + ChargeOf(s, e, i)
            == s.ts[i].task.counter + if Recharges(s, e) then s.ts[i].task.priority else 0
  {
    assert SlotOk(s.ts[i]);
    BeforeOk(s, e);
    if Recharges(s, e) {
      WokenOk(Before(s, e), e.jiffies);
      SpentMeansZero(Woken(Before(s, e), e.jiffies));
    }
  }

  /**
    Time is shared in proportion to priority: a task that can run at every
    recharge of a run is charged its priority once per recharge, up to the
    difference of its counter at the start and at the end.
   */
  lemma {:induction false} ProportionalShare(s: Sys, es: seq<Event>, i: nat)
    requires Good(s) && CanRun(s, es) && 1 <= i < NR_TASKS && s.ts[i].Used? && Competes(s, es, i)
    ensures SameTask(s.ts[i], End(s, es).ts[i])
    ensures Charges(s, es, i) + End(s, es).ts[i].task.counter
              == s.ts[i].task.counter + Rounds(s, es) * s.ts[i].task.priority
    decreases |es|
  {
    if es != [] {
      NextGood(s, es[0]);
      StepShare(s, es[0], i);
      ProportionalShare(Next(s, es[0]), es[1..], i);
      Distribute(if Recharges(s, es[0]) then 1 else 0, Rounds(Next(s, es[0]), es[1..]), s.ts[i].task.priority);
    }
  }

  lemma Distribute(a: nat, b: nat, p: int)
    ensures (a + b) * p == a * p + b * p
  {
  }

  /** A recharge finds a task that can run at zero and leaves it with its priority. */
  lemma RechargeGivesPriority(s: Sys, e: Event, i: nat)
    requires Good(s) && Possible(s, e) && 1 <= i < NR_TASKS && s.ts[i].Used? && Recharges(s, e)
    requires Runnable(Woken(Before(s, e), e.jiffies), i)
    ensures Next(s, e).ts[i].Used? && Next(s, e).ts[i].task.counter == s.ts[i].task.priority
  {
    BeforeOk(s, e);
    WokenOk(Before(s, e), e.jiffies);
    SpentMeansZero(Woken(Before(s, e), e.jiffies));
  }

  lemma {:induction false} NoRoundsCompetes(s: Sys, es: seq<Event>, i: nat)
    requires Good(s) && CanRun(s, es) && Rounds(s, es) == 0
    ensures Competes(s, es, i)
    decreases |es|
  {
    if es != [] {
      NextGood(s, es[0]);
      NoRoundsCompetes(Next(s, es[0]), es[1..], i);
    }
  }

  /**
    Nobody starves: between two recharges, a task that can run at both is charged
    exactly its priority, at least one tick.
   */
  lemma FullShareEachRound(s: Sys, first: Event, es: seq<Event>, last: Event, i: nat)
    requires Good(s) && Possible(s, first) && Good(Next(s, first)) && CanRun(Next(s, first), es)
    requires Possible(End(Next(s, first), es), last)
    requires Recharges(s, first) && Rounds(Next(s, first), es) == 0 && Recharges(End(Next(s, first), es), last)
    requires 1 <= i < NR_TASKS && s.ts[i].Used? && Runnable(Woken(Before(s, first), first.jiffies), i)
    requires Runnable(Woken(Before(End(Next(s, first), es), last), last.jiffies), i)
    ensures Charges(Next(s, first), es, i) + ChargeOf(End(Next(s, first), es), last, i) == s.ts[i].task.priority >= 1
  {
    var m := Next(s, first);
    var n := End(m, es);
    assert SlotOk(s.ts[i]);
    RechargeGivesPriority(s, first, i);
    StepShare(s, first, i);
    NoRoundsCompetes(m, es, i);
    ProportionalShare(m, es, i);
    RechargeGivesPriority(n, last, i);
    StepShare(n, last, i);
  }

  // ----- bounds ---------------------------------------------------------------

  predicate Under(s: Slot) { s.Used? ==> s.task.counter < 2 * s.task.priority }

  /** Every counter is below twice the priority. */
  predicate Bounded(ts: Table) { forall i :: 1 <= i < NR_TASKS ==> Under(ts[i]) }

  lemma StepBounded(s: Sys, e: Event)
    requires Good(s) && Possible(s, e) && Bounded(s.ts)
    ensures Bounded(Next(s, e).ts)
  {
    BeforeOk(s, e);
    forall i | 1 <= i < NR_TASKS
      ensures Under(Next(s, e).ts[i])
    {
      assert SlotOk(s.ts[i]) && Under(s.ts[i]);
    }
  }

  lemma {:induction false} AlwaysBounded(s: Sys, es: seq<Event>)
    requires Good(s) && CanRun(s, es) && Bounded(s.ts)
    ensures Bounded(End(s, es).ts)
    decreases |es|
  {
    if es != [] {
      NextGood(s, es[0]);
      StepBounded(s, es[0]);
      AlwaysBounded(Next(s, es[0]), es[1..]);
    }
  }

  /** So over any run the share of such a task is its priority per recharge, give or take less than two rounds. */
  lemma ShareWithinTwoRounds(s: Sys, es: seq<Event>, i: nat)
    requires Good(s) && CanRun(s, es) && Bounded(s.ts) && 1 <= i < NR_TASKS && s.ts[i].Used? && Competes(s, es, i)
    ensures var p := s.ts[i].task.priority;
            Rounds(s, es) * p - 2 * p < Charges(s, es, i) < Rounds(s, es) * p + 2 * p
  {
    ProportionalShare(s, es, i);
    AlwaysBounded(s, es);
    assert Under(s.ts[i]) && Under(End(s, es).ts[i]) && SlotOk(s.ts[i]) && SlotOk(End(s, es).ts[i]);
  }

  // ----- how far recharges are apart ------------------------------------------

  function Left(s: Slot): int { if s.Used? then s.task.counter else 0 }

  /** The time left to tasks 1 to n - 1. */
  function Time(ts: Table, n: nat): int
    requires 1 <= n <= NR_TASKS
  {
    if n == 1 then 0 else Time(ts, n - 1) + Left(ts[n - 1])
  }

  /** What a full round can hold at most. */
  function Limit(ts: Table, n: nat): int
    requires 1 <= n <= NR_TASKS
  {
    if n == 1 then 0 else Limit(ts, n - 1) + if ts[n - 1].Used? then 2 * ts[n - 1].task.priority - 1 else 0
  }

  lemma {:induction false} TimeWithinLimit(ts: Table, n: nat)
    requires Ok(ts) && Bounded(ts) && 1 <= n <= NR_TASKS
    ensures 0 <= Time(ts, n) <= Limit(ts, n)
  {
    if n > 1 {
      TimeWithinLimit(ts, n - 1);
      assert Under(ts[n - 1]) && SlotOk(ts[n - 1]);
    }
  }

  predicate SameTime(ts: Table, us: Table, k: nat) {
    forall i :: 0 <= i < NR_TASKS && i != k ==> Left(ts[i]) == Left(us[i])
  }

  lemma {:induction false} TimeChanges(ts: Table, us: Table, k: nat, n: nat)
    requires SameTime(ts, us, k) && k < NR_TASKS && 1 <= n <= NR_TASKS
    ensures Time(us, n) == Time(ts, n) + if 1 <= k < n then Left(us[k]) - Left(ts[k]) else 0
  {
    if n > 1 {
      TimeChanges(ts, us, k, n - 1);
    }
  }

  /** A tick that is charged to a task other than task 0. */
  function Spending(s: Sys, e: Event): nat
    requires Good(s)
  {
    if s.current != 0 then ChargeOf(s, e, s.current) else 0
  }

  function Spendings(s: Sys, es: seq<Event>): nat
    requires Good(s) && CanRun(s, es)
    decreases |es|
  {
    if es == [] then 0
    else
      NextGood(s, es[0]);
      Spending(s, es[0]) + Spendings(Next(s, es[0]), es[1..])
  }

  lemma StepTime(s: Sys, e: Event)
    requires Good(s) && Possible(s, e) && !Recharges(s, e)
    ensures Time(Next(s, e).ts, NR_TASKS) + Spending(s, e) == Time(s.ts, NR_TASKS)
  {
    assert SlotOk(s.ts[s.current]);
    TimeChanges(s.ts, Before(s, e), s.current, NR_TASKS);
    TimeChanges(Before(s, e), Next(s, e).ts, 0, NR_TASKS);
  }

  lemma {:induction false} TimeConserved(s: Sys, es: seq<Event>)
    requires Good(s) && CanRun(s, es) && Rounds(s, es) == 0
    ensures Time(End(s, es).ts, NR_TASKS) + Spendings(s, es) == Time(s.ts, NR_TASKS)
    decreases |es|
  {
    if es != [] {
      NextGood(s, es[0]);
      StepTime(s, es[0]);
      TimeConserved(Next(s, es[0]), es[1..]);
    }
  }

  /** Without a recharge at most the sum of 2 * priority - 1 ticks are charged: then the next one is due. */
  lemma RechargesComeSoon(s: Sys, es: seq<Event>)
    requires Good(s) && CanRun(s, es) && Bounded(s.ts) && Rounds(s, es) == 0
    ensures Spendings(s, es) <= Limit(s.ts, NR_TASKS)
  {
    TimeConserved(s, es);
    AlwaysBounded(s, es);
    TimeWithinLimit(s.ts, NR_TASKS);
    TimeWithinLimit(End(s, es).ts, NR_TASKS);
  }
}

/**
  The scheduler of kernel/sched.c: schedule with its alarm scan, its search and
  its recharge, do_timer and sys_nice; and what a run gives to each task.
 */
module Scheduler {

  const NR_TASKS: nat := 64
  const SIGALRM: nat := 14

  datatype State = Running | Interruptible | Uninterruptible | Zombie | Stopped

  datatype Task = Task(state: State, counter: int, priority: int, alarm: nat, signal: set<nat>)

  datatype Slot = Empty | Used(task: Task)

  type Table = ts: seq<Slot> | |ts| == NR_TASKS witness seq(NR_TASKS, _ => Empty)

  /** A task that schedule considers: task 0 is left aside. */
  predicate Runnable(ts: Table, i: int) { 1 <= i < NR_TASKS && ts[i].Used? && ts[i].task.state == Running }

  predicate SlotOk(s: Slot) { s.Used? ==> s.task.counter >= 0 && s.task.priority >= 1 }

  predicate Ok(ts: Table) { ts[0].Used? && forall i :: 0 <= i < NR_TASKS ==> SlotOk(ts[i]) }

  // ----- what schedule computes -----------------------------------------------

  /** Alarms that are due become signals, and a signal ends an interruptible sleep. */
  function Signalled(s: Slot, jiffies: nat): (r: Slot)
    ensures r.Used? == s.Used? && (s.Used? ==> r.task.counter == s.task.counter && r.task.priority == s.task.priority)
  {
    if s.Empty? then s
    else
      var due := s.task.alarm != 0 && s.task.alarm < jiffies;
      var signal := if due then s.task.signal + {SIGALRM} else s.task.signal;
      Used(Task(if signal != {} && s.task.state == Interruptible then Running else s.task.state,
                s.task.counter, s.task.priority, if due then 0 else s.task.alarm, signal))
  }

  function Woken(ts: Table, jiffies: nat): (r: Table)
    ensures r[0] == ts[0] && forall i :: 1 <= i < NR_TASKS ==> r[i] == Signalled(ts[i], jiffies)
  {
    seq(NR_TASKS, i requires 0 <= i < NR_TASKS => if i == 0 then ts[0] else Signalled(ts[i], jiffies))
  }

  /** The search from entry i - 1 down to entry 1, with the best so far. */
  function Scan(ts: Table, i: nat, c: int, next: nat): (int, nat)
    requires 1 <= i <= NR_TASKS
  {
    if i == 1 then (c, next)
    else if Runnable(ts, i - 1) && ts[i - 1].task.counter > c then Scan(ts, i - 1, ts[i - 1].task.counter, i - 1)
    else Scan(ts, i - 1, c, next)
  }

  function Pick(ts: Table): nat { Scan(ts, NR_TASKS, -1, 0).1 }

  /** Some task can run, but all that can have used up their time. */
  predicate Spent(ts: Table) { Scan(ts, NR_TASKS, -1, 0).0 == 0 }

  function Charged(s: Slot): (r: Slot)
    ensures r.Used? == s.Used?
    ensures s.Used? ==> r.task == s.task.(counter := s.task.counter / 2 + s.task.priority)
  {
    if s.Empty? then s else Used(s.task.(counter := s.task.counter / 2 + s.task.priority))
  }

  function Recharged(ts: Table): (r: Table)
    ensures r[0] == ts[0] && forall i :: 1 <= i < NR_TASKS ==> r[i] == Charged(ts[i])
  {
    seq(NR_TASKS, i requires 0 <= i < NR_TASKS => if i == 0 then ts[0] else Charged(ts[i]))
  }

  /** The table when schedule switches. */
  function Settled(ts: Table, jiffies: nat): Table {
    var w := Woken(ts, jiffies);
    if Spent(w) then Recharged(w) else w
  }

  /** n is the right choice: the most time left, the highest slot among equals, 0 only if nobody can run. */
  predicate Best(ts: Table, n: nat) {
    && (n == 0 ==> forall i :: 1 <= i < NR_TASKS ==> !Runnable(ts, i))
    && (n != 0 ==> Runnable(ts, n) && forall i :: 1 <= i < NR_TASKS && Runnable(ts, i) ==> Beats(ts, n, i))
  }

  predicate Beats(ts: Table, n: int, i: int)
    requires Runnable(ts, n) && Runnable(ts, i)
  {
    ts[i].task.counter < ts[n].task.counter || (ts[i].task.counter == ts[n].task.counter && i <= n)
  }

  /** The search over entries i and above is done and c, next is its result. */
  predicate BestAbove(ts: Table, i: nat, c: int, next: nat) {
    && (next == 0 ==> c == -1 && forall j :: i <= j < NR_TASKS ==> !Runnable(ts, j))
    && (next != 0 ==> i <= next && Runnable(ts, next) && c == ts[next].task.counter
                      && forall j :: i <= j < NR_TASKS && Runnable(ts, j) ==> Beats(ts, next, j))
  }

  lemma {:induction false} ScanBest(ts: Table, i: nat, c: int, next: nat)
    requires Ok(ts) && 1 <= i <= NR_TASKS && BestAbove(ts, i, c, next)
    ensures var r := Scan(ts, i, c, next); BestAbove(ts, 1, r.0, r.1)
  {
    if i > 1 {
      if Runnable(ts, i - 1) && ts[i - 1].task.counter > c {
        ScanBest(ts, i - 1, ts[i - 1].task.counter, i - 1);
      } else {
        ScanBest(ts, i - 1, c, next);
      }
    }
  }

  lemma PickBest(ts: Table)
    requires Ok(ts)
    ensures Best(ts, Pick(ts))
    ensures Pick(ts) != 0 && !Spent(ts) ==> ts[Pick(ts)].task.counter > 0
    ensures Spent(ts) <==> Pick(ts) != 0 && ts[Pick(ts)].task.counter == 0
  {
    ScanBest(ts, NR_TASKS, -1, 0);
  }

  /** In a spent table every task that can run is at zero, and there is one. */
  lemma SpentMeansZero(ts: Table)
    requires Ok(ts)
    ensures Spent(ts) <==> (exists i :: Runnable(ts, i)) && forall i :: Runnable(ts, i) ==> ts[i].task.counter == 0
  {
    PickBest(ts);
    assert SlotOk(ts[Pick(ts)]) || Pick(ts) >= NR_TASKS;
    forall i | Runnable(ts, i) && Spent(ts)
      ensures ts[i].task.counter == 0
    {
      assert Beats(ts, Pick(ts), i) && SlotOk(ts[i]);
    }
  }

  lemma RechargedOk(ts: Table)
    requires Ok(ts)
    ensures Ok(Recharged(ts)) && forall i :: Runnable(Recharged(ts), i) <==> Runnable(ts, i)
    ensures forall i :: Runnable(ts, i) ==> Recharged(ts)[i].task.counter > 0
  {
    forall i | 0 <= i < NR_TASKS
      ensures SlotOk(Recharged(ts)[i]) && (Runnable(ts, i) ==> Recharged(ts)[i].task.counter > 0)
    {
      assert SlotOk(ts[i]);
    }
  }

  lemma WokenOk(ts: Table, jiffies: nat)
    requires Ok(ts)
    ensures Ok(Woken(ts, jiffies))
  {
    forall i | 0 <= i < NR_TASKS
      ensures SlotOk(Woken(ts, jiffies)[i])
    {
      assert SlotOk(ts[i]);
    }
  }

  /** One recharge is enough: the second search finds a task with time left, so schedule never loops a third time. */
  lemma TwoPasses(ts: Table, jiffies: nat)
    requires Ok(ts)
    ensures Ok(Settled(ts, jiffies)) && !Spent(Settled(ts, jiffies))
    ensures Best(Settled(ts, jiffies), Pick(Settled(ts, jiffies)))
  {
    var w := Woken(ts, jiffies);
    WokenOk(ts, jiffies);
    if Spent(w) {
      RechargedOk(w);
      SpentMeansZero(Recharged(w));
    }
    PickBest(Settled(ts, jiffies));
  }

  /**
    What one call of schedule makes of task i: a due alarm becomes a signal, a
    signal ends an interruptible sleep, and the counter is recharged if and only if
    then some task can run and all that can have none left.
   */
  lemma SettledTask(ts: Table, jiffies: nat, i: nat)
    requires Ok(ts) && 1 <= i < NR_TASKS
    ensures var r := Settled(ts, jiffies); r[0] == ts[0] && r[i].Used? == ts[i].Used?
    ensures var r := Settled(ts, jiffies);
            ts[i].Used? ==>
            var t := ts[i].task; var due := t.alarm != 0 && t.alarm < jiffies;
            && r[i].task.priority == t.priority
            && r[i].task.alarm == (if due then 0 else t.alarm)
            && r[i].task.signal == t.signal + (if due then {SIGALRM} else {})
            && r[i].task.state == (if t.state == Interruptible && r[i].task.signal != {} then Running else t.state)
            && r[i].task.counter ==
                  if (exists j :: Runnable(r, j)) && forall j :: Runnable(r, j) ==> ts[j].task.counter == 0
                  then t.counter / 2 + t.priority else t.counter
  {
    var w := Woken(ts, jiffies);
    var r := Settled(ts, jiffies);
    WokenOk(ts, jiffies);
    SpentMeansZero(w);
    RechargedOk(w);
    assert forall j :: Runnable(r, j) <==> Runnable(w, j);
    assert forall j :: Runnable(w, j) ==> w[j].task.counter == ts[j].task.counter;
  }

  // ----- steps ----------------------------------------------------------------

  function Ticked(s: Slot): (r: Slot)
    requires s.Used?
    ensures r.Used?
  {
    Used(s.task.(counter := if s.task.counter - 1 > 0 then s.task.counter - 1 else 0))
  }

  datatype Sys = Sys(ts: Table, current: nat)

  predicate Good(s: Sys) { Ok(s.ts) && s.current < NR_TASKS && s.ts[s.current].Used? }

  /**
    A timer interrupt in user or kernel mode; the current task changing its own
    state, or not, and calling schedule (sleep_on, sys_pause, do_exit); a task
    made runnable.
   */
  datatype Event = Tick(user: bool, jiffies: nat) | Yield(how: State, jiffies: nat) | Wake(i: nat)

  predicate Possible(s: Sys, e: Event) { e.Wake? ==> e.i < NR_TASKS && s.ts[e.i].Used? }

  /** The table when schedule is entered, if it is. */
  function Before(s: Sys, e: Event): (ts: Table)
    requires Good(s) && Possible(s, e)
  {
    match e
    case Tick(_, _) => s.ts[s.current := Ticked(s.ts[s.current])]
    case Yield(how, _) => s.ts[s.current := Used(s.ts[s.current].task.(state := how))]
    case Wake(i) => s.ts[i := Used(s.ts[i].task.(state := Running))]
  }

  predicate Schedules(s: Sys, e: Event)
    requires Good(s)
  {
    match e
    case Tick(user, _) => user && s.ts[s.current].task.counter <= 1
    case Yield(_, _) => true
    case Wake(_) => false
  }

  predicate Recharges(s: Sys, e: Event)
    requires Good(s) && Possible(s, e)
  {
    Schedules(s, e) && Spent(Woken(Before(s, e), e.jiffies))
  }

  function Next(s: Sys, e: Event): (r: Sys)
    requires Good(s) && Possible(s, e)
  {
    if Schedules(s, e) then
      var ts := Settled(Before(s, e), e.jiffies);
      Sys(ts, Pick(ts))
    else Sys(Before(s, e), s.current)
  }

  lemma BeforeOk(s: Sys, e: Event)
    requires Good(s) && Possible(s, e)
    ensures Ok(Before(s, e)) && Before(s, e)[s.current].Used?
  {
    var ts := Before(s, e);
    forall i | 0 <= i < NR_TASKS
      ensures SlotOk(ts[i])
    {
      assert SlotOk(s.ts[i]);
    }
  }

  lemma NextGood(s: Sys, e: Event)
    requires Good(s) && Possible(s, e)
    ensures Good(Next(s, e))
    ensures Schedules(s, e) ==> Best(Next(s, e).ts, Next(s, e).current)
  {
    BeforeOk(s, e);
    if Schedules(s, e) {
      TwoPasses(Before(s, e), e.jiffies);
    }
  }

  // ----- the code -------------------------------------------------------------

  class Processor {
    var task: array<Slot>
    var current: nat

    ghost predicate Valid()
      reads this, task
    {
      task.Length == NR_TASKS && Ok(task[..]) && current < NR_TASKS && task[current].Used?
    }

    ghost function Now(): Sys
      requires task.Length == NR_TASKS
      reads this, task
    {
      Sys(task[..], current)
    }

    /** The loop over the tasks that looks at alarms and signals. */
    method CheckSignals(jiffies: nat)
      requires task.Length == NR_TASKS
      modifies task
      ensures task[..] == Woken(old(task[..]), jiffies)
    {
      ghost var ts: Table := task[..];
      var p: nat := NR_TASKS - 1;
      while p > 0
        invariant 0 <= p < NR_TASKS
        invariant forall i :: 0 <= i <= p ==> task[i] == ts[i]
        invariant forall i :: p < i < NR_TASKS ==> task[i] == Signalled(ts[i], jiffies)
      {
        if task[p].Used? {
          var t := task[p].task;
          if t.alarm != 0 && t.alarm < jiffies {
            t := t.(signal := t.signal + {SIGALRM}, alarm := 0);
          }
          if t.signal != {} && t.state == Interruptible {
            t := t.(state := Running);
          }
          task[p] := Used(t);
        }
        p := p - 1;
      }
      assert task[..] == Woken(ts, jiffies);
    }

    method Search() returns (c: int, next: nat)
      requires task.Length == NR_TASKS
      ensures (c, next) == Scan(task[..], NR_TASKS, -1, 0)
    {
      c := -1;
      next := 0;
      var i: nat := NR_TASKS - 1;
      while i != 0
        invariant i < NR_TASKS
        invariant Scan(task[..], i + 1, c, next) == Scan(task[..], NR_TASKS, -1, 0)
      {
        if task[i].Used? {
          if task[i].task.state == Running && task[i].task.counter > c {
            c := task[i].task.counter;
            next := i;
          }
        }
        i := i - 1;
      }
    }

    method Recharge()
      requires task.Length == NR_TASKS
      modifies task
      ensures task[..] == Recharged(old(task[..]))
    {
      ghost var ts: Table := task[..];
      var p: nat := NR_TASKS - 1;
      while p > 0
        invariant 0 <= p < NR_TASKS
        invariant forall i :: 0 <= i <= p ==> task[i] == ts[i]
        invariant forall i :: p < i < NR_TASKS ==> task[i] == Charged(ts[i])
      {
        if task[p].Used? {
          task[p] := Used(task[p].task.(counter := task[p].task.counter / 2 + task[p].task.priority));
        }
        p := p - 1;
      }
      assert task[..] == Recharged(ts);
    }

    /** schedule: the loop runs at most twice, and the task switched to is the best one. */
    method Schedule(jiffies: nat)
      requires task.Length == NR_TASKS && Ok(task[..])
      modifies this`current, task
      ensures Valid()
      ensures task[..] == Settled(old(task[..]), jiffies)
      ensures current == Pick(task[..]) && Best(task[..], current)
    {
      ghost var ts: Table := task[..];
      TwoPasses(ts, jiffies);
      WokenOk(ts, jiffies);
      CheckSignals(jiffies);
      var c, next := Search();
      ghost var passes := 0;
      while c == 0
        invariant task[..] == if passes == 0 then Woken(ts, jiffies) else Settled(ts, jiffies)
        invariant passes == 1 ==> c != 0
        invariant 0 <= passes <= 1
        invariant (c, next) == Scan(task[..], NR_TASKS, -1, 0)
        decreases 1 - passes
      {
        Recharge();
        c, next := Search();
        passes := passes + 1;
      }
      current := next;
    }

    /**
      do_timer; `user` says that the interrupted code ran in user mode.  Only with its
      time used up in user mode does a task lose the processor, and then to the best
      task; otherwise nothing changes but its own counter.
     */
    method DoTimer(user: bool, jiffies: nat)
      requires Valid()
      modifies this`current, task
      ensures Valid() && Now() == Next(old(Now()), Tick(user, jiffies))
      ensures user && old(task[current].task.counter) <= 1 ==> Best(task[..], current)
      ensures !user || old(task[current].task.counter) > 1 ==>
                && current == old(current)
                && (forall i :: 0 <= i < NR_TASKS && i != current ==> task[i] == old(task[i]))
                && task[current].task == old(task[current].task).(counter := task[current].task.counter)
                && task[current].task.counter == if old(task[current].task.counter) > 0
                                                 then old(task[current].task.counter) - 1 else 0
    {
      ghost var ts: Table := task[..];
      assert SlotOk(ts[current]);
      BeforeOk(Now(), Tick(user, jiffies));
      task[current] := Used(task[current].task.(counter := task[current].task.counter - 1));
      if task[current].task.counter > 0 {
        assert task[..] == ts[current := Ticked(ts[current])];
        return;
      }
      task[current] := Used(task[current].task.(counter := 0));
      assert task[..] == ts[current := Ticked(ts[current])];
      if !user {
        return;
      }
      Schedule(jiffies);
    }

    /** What sleep_on, sys_pause and do_exit do to the current task. */
    method GiveUp(how: State, jiffies: nat)
      requires Valid()
      modifies this`current, task
      ensures Valid() && Now() == Next(old(Now()), Yield(how, jiffies))
      ensures Best(task[..], current)
      ensures 1 <= old(current) && how != Running && how != Interruptible ==> current != old(current)
    {
      ghost var ts: Table := task[..];
      BeforeOk(Now(), Yield(how, jiffies));
      task[current] := Used(task[current].task.(state := how));
      assert task[..] == ts[current := Used(ts[current].task.(state := how))];
      Schedule(jiffies);
    }

    /** sys_nice keeps every priority at least 1. */
    method Nice(increment: int)
      requires Valid()
      modifies task
      ensures Valid()
      ensures task[..] == old(task[..][current := Used(task[current].task.(priority :=
                if task[current].task.priority - increment > 0 then task[current].task.priority - increment
                    else task[current].task.priority))])
    {
      assert SlotOk(task[current]);
      if task[current].task.priority - increment > 0 {
        task[current] := Used(task[current].task.(priority := task[current].task.priority - increment));
      }
    }
  }
}

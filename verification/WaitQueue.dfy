/**
  sleep_on and wake_up (kernel/sched.c).  A wait queue is one pointer; the rest
  of it is threaded through the local variable `tmp` of every sleeping call.
  Any number of tasks and queues; one action runs until the next schedule().
 */
module WaitQueue {

  datatype Link = Nobody | Task(t: nat)

  /** A task is outside sleep_on, asleep in it, or runnable again but not yet past its schedule() call. */
  datatype Mode = Awake | Asleep(queue: nat, tmp: Link) | Woken(queue: nat, tmp: Link)

  /** born[t] says when t last called sleep_on; it is a history variable. */
  datatype State = State(heads: seq<Link>, modes: seq<Mode>, born: seq<nat>, clock: nat)

  datatype Action = SleepOn(t: nat, q: nat) | WakeUp(q: nat) | Resume(t: nat)

  predicate Enabled(s: State, a: Action) {
    && |s.born| == |s.modes|
    && match a
       case SleepOn(t, q) => t < |s.modes| && q < |s.heads| && s.modes[t].Awake?
       case WakeUp(q) => q < |s.heads|
       case Resume(t) => t < |s.modes| && s.modes[t].Woken?
  }

  /** Setting a task's state to 0. */
  function MakeRunnable(modes: seq<Mode>, l: Link): (r: seq<Mode>)
    ensures |r| == |modes|
  {
    if l.Task? && l.t < |modes| && modes[l.t].Asleep? then modes[l.t := Woken(modes[l.t].queue, modes[l.t].tmp)]
        else modes
  }

  function Next(s: State, a: Action): (r: State)
    requires Enabled(s, a)
    ensures |r.modes| == |s.modes| && |r.heads| == |s.heads| && |r.born| == |s.born|
  {
    match a
    case SleepOn(t, q) =>
      State(s.heads[q := Task(t)], s.modes[t := Asleep(q, s.heads[q])], s.born[t := s.clock], s.clock + 1)
    case WakeUp(q) =>
      State(s.heads[q := Nobody], MakeRunnable(s.modes, s.heads[q]), s.born, s.clock)
    case Resume(t) =>
      State(s.heads, MakeRunnable(s.modes, s.modes[t].tmp)[t := Awake], s.born, s.clock)
  }

  // ----- the invariant --------------------------------------------------------

  /** t's saved pointer is u. */
  predicate PointsTo(s: State, t: nat, u: nat)
    requires t < |s.modes|
  {
    !s.modes[t].Awake? && s.modes[t].tmp == Task(u)
  }

  predicate AsleepOn(s: State, t: nat, q: nat) { t < |s.modes| && s.modes[t].Asleep? && s.modes[t].queue == q }

  /** Somebody will wake t: a queue head or a saved pointer names it. */
  ghost predicate Referenced(s: State, t: nat)
    requires t < |s.modes| && s.modes[t].Asleep?
  {
    || (s.modes[t].queue < |s.heads| && s.heads[s.modes[t].queue] == Task(t))
    || exists u :: 0 <= u < |s.modes| && PointsTo(s, u, t)
  }

  ghost predicate Inv(s: State) {
    && |s.born| == |s.modes|
    && (forall q :: 0 <= q < |s.heads| && s.heads[q].Task? ==> AsleepOn(s, s.heads[q].t, q))
    && (forall t :: 0 <= t < |s.modes| && !s.modes[t].Awake? && s.modes[t].tmp.Task? ==>
          AsleepOn(s, s.modes[t].tmp.t, s.modes[t].queue) && s.born[s.modes[t].tmp.t] < s.born[t])
    && (forall t :: 0 <= t < |s.modes| && !s.modes[t].Awake? ==> s.born[t] < s.clock)
    && (forall t, u, x :: 0 <= t < |s.modes| && 0 <= u < |s.modes| && PointsTo(s, t, x) && PointsTo(s, u, x) ==> t == u)
    && (forall q, t :: 0 <= q < |s.heads| && 0 <= t < |s.modes| && s.heads[q].Task? ==> !PointsTo(s, t, s.heads[q].t))
    && (forall t :: 0 <= t < |s.modes| && s.modes[t].Asleep? ==> Referenced(s, t))
  }

  predicate Init(s: State) {
    && |s.born| == |s.modes| && (forall q :: 0 <= q < |s.heads| ==> s.heads[q].Nobody?)
    && (forall t :: 0 <= t < |s.modes| ==> s.modes[t].Awake?)
  }

  lemma InitInv(s: State)
    requires Init(s)
    ensures Inv(s)
  {
  }

  lemma InvStep(s: State, a: Action)
    requires Inv(s) && Enabled(s, a)
    ensures Inv(Next(s, a))
  {
    match a
    case SleepOn(t, q) => InvSleep(s, t, q);
    case WakeUp(q) => InvWake(s, q);
    case Resume(t) => InvResume(s, t);
  }

  lemma InvSleep(s: State, t: nat, q: nat)
    requires Inv(s) && Enabled(s, SleepOn(t, q))
    ensures Inv(Next(s, SleepOn(t, q)))
  {
    var r := Next(s, SleepOn(t, q));
    forall x | 0 <= x < |r.modes| && r.modes[x].Asleep?
      ensures Referenced(r, x)
    {
      if x != t {
        assert Referenced(s, x);
        if s.modes[x].queue == q && s.heads[q] == Task(x) {
          assert PointsTo(r, t, x);
        } else if u :| 0 <= u < |s.modes| && PointsTo(s, u, x) {
          assert PointsTo(r, u, x);
        }
      }
    }
    assert forall u, x :: 0 <= u < |r.modes| && PointsTo(r, u, x) ==> x != t && (u != t ==> PointsTo(s, u, x));
  }

  lemma InvWake(s: State, q: nat)
    requires Inv(s) && Enabled(s, WakeUp(q))
    ensures Inv(Next(s, WakeUp(q)))
  {
    var r := Next(s, WakeUp(q));
    assert forall u, x :: 0 <= u < |r.modes| ==> (PointsTo(r, u, x) <==> PointsTo(s, u, x));
    forall x | 0 <= x < |r.modes| && !r.modes[x].Awake? && r.modes[x].tmp.Task?
      ensures AsleepOn(r, r.modes[x].tmp.t, r.modes[x].queue)
    {
      assert PointsTo(s, x, s.modes[x].tmp.t);
    }
    forall x | 0 <= x < |r.modes| && r.modes[x].Asleep?
      ensures Referenced(r, x)
    {
      assert Referenced(s, x);
      if u :| 0 <= u < |s.modes| && PointsTo(s, u, x) {
        assert PointsTo(r, u, x);
      }
    }
  }

  lemma InvResume(s: State, t: nat)
    requires Inv(s) && Enabled(s, Resume(t))
    ensures Inv(Next(s, Resume(t)))
  {
    var r := Next(s, Resume(t));
    assert forall u, x :: 0 <= u < |r.modes| ==> (PointsTo(r, u, x) <==> u != t && PointsTo(s, u, x));
    assert s.modes[t].tmp.Task? ==> PointsTo(s, t, s.modes[t].tmp.t);
    forall x | 0 <= x < |r.modes| && !r.modes[x].Awake? && r.modes[x].tmp.Task?
      ensures AsleepOn(r, r.modes[x].tmp.t, r.modes[x].queue)
    {
      assert PointsTo(s, x, s.modes[x].tmp.t);
    }
    forall x | 0 <= x < |r.modes| && r.modes[x].Asleep?
      ensures Referenced(r, x)
    {
      assert Referenced(s, x);
      if u :| 0 <= u < |s.modes| && PointsTo(s, u, x) {
        assert u != t ==> PointsTo(r, u, x);
      }
    }
  }

  // ----- no lost sleeper ------------------------------------------------------

  /** A way down the saved pointers to path's last task. */
  predicate Path(s: State, path: seq<nat>) {
    && path != [] && (forall i :: 0 <= i < |path| ==> path[i] < |s.modes|)
    && (forall i :: 0 <= i < |path| - 1 ==> PointsTo(s, path[i], path[i + 1]))
  }

  /** The first task is where waking starts: a queue head, or runnable and about to wake the next. */
  predicate Rooted(s: State, path: seq<nat>)
    requires Path(s, path)
  {
    var r := s.modes[path[0]];
    r.Woken? || (r.Asleep? && r.queue < |s.heads| && s.heads[r.queue] == Task(path[0]))
  }

  /**
    No sleeper is ever lost: from every one, saved pointers lead back to a queue
    head or to a task already runnable.
   */
  lemma {:induction false} NoLostSleeper(s: State, t: nat) returns (path: seq<nat>)
    requires Inv(s) && t < |s.modes| && s.modes[t].Asleep?
    ensures Path(s, path) && Rooted(s, path) && path[|path| - 1] == t
    decreases s.clock - s.born[t]
  {
    assert Referenced(s, t);
    if s.modes[t].queue < |s.heads| && s.heads[s.modes[t].queue] == Task(t) {
      path := [t];
    } else {
      var u :| 0 <= u < |s.modes| && PointsTo(s, u, t);
      var up := [u];
      if s.modes[u].Asleep? {
        up := NoLostSleeper(s, u);
      }
      path := up + [t];
    }
  }

  // ----- every sleeper is released --------------------------------------------

  /** A chain whose first task is runnable: each resumption wakes the next link. */
  predicate Draining(s: State, path: seq<nat>) { Path(s, path) && s.modes[path[0]].Woken? }

  /** After wake_up, every sleeper of the queue is on a draining chain, as long as its place in the queue. */
  lemma WakeUpStartsDraining(s: State, q: nat, path: seq<nat>)
    requires Inv(s) && q < |s.heads| && Path(s, path) && s.heads[q] == Task(path[0])
    ensures Draining(Next(s, WakeUp(q)), path)
  {
    var r := Next(s, WakeUp(q));
    forall i | 0 <= i < |path| - 1
      ensures PointsTo(r, path[i], path[i + 1])
    {
      assert PointsTo(s, path[i], path[i + 1]);
    }
  }

  /** The sleeper has left this call of sleep_on, or is about to. */
  predicate Released(s: State, t: nat, since: nat)
    requires |s.born| == |s.modes|
  {
    t < |s.modes| ==> !s.modes[t].Asleep? || s.born[t] != since
  }

  /** Nothing ever lengthens a draining chain, and resuming its first task shortens it. */
  lemma DrainStep(s: State, a: Action, path: seq<nat>)
    requires Inv(s) && Enabled(s, a) && Draining(s, path) && |path| >= 2
    ensures a != Resume(path[0]) ==> Draining(Next(s, a), path)
    ensures a == Resume(path[0]) ==> Draining(Next(s, a), path[1..])
    ensures Next(s, a).born[path[|path| - 1]] == s.born[path[|path| - 1]]
  {
    var r := Next(s, a);
    PathFacts(s, path);
    forall i | 0 <= i < |path| - 1
      ensures (a != Resume(path[0]) || i > 0) ==> PointsTo(r, path[i], path[i + 1])
    {
      assert PointsTo(s, path[i], path[i + 1]);
      assert a.Resume? && i > 0 ==> a.t != path[i];
      assert a.SleepOn? ==> a.t != path[i];
    }
    if a == Resume(path[0]) {
      assert PointsTo(s, path[0], path[1]);
    }
  }

  /** All but the first task of a chain are asleep, and were so before it. */
  lemma {:induction false} PathFacts(s: State, path: seq<nat>)
    requires Inv(s) && Path(s, path)
    ensures forall i :: 0 < i < |path| ==> s.modes[path[i]].Asleep? && s.born[path[i]] < s.born[path[0]]
  {
    if |path| >= 2 {
      assert PointsTo(s, path[0], path[1]);
      assert Path(s, path[1..]) by {
        forall i | 0 <= i < |path| - 2
          ensures PointsTo(s, path[1..][i], path[1..][i + 1])
        {
          assert PointsTo(s, path[i + 1], path[i + 2]);
        }
      }
      PathFacts(s, path[1..]);
      assert forall i :: 1 < i < |path| ==> path[i] == path[1..][i - 1];
    }
  }

  ghost predicate CanRun(s: State, run: seq<Action>)
    decreases |run|
  {
    run == [] || (Enabled(s, run[0]) && CanRun(Next(s, run[0]), run[1..]))
  }

  ghost function End(s: State, run: seq<Action>): (r: State)
    requires CanRun(s, run)
    ensures |r.modes| == |s.modes| && (|s.born| == |s.modes| ==> |r.born| == |r.modes|)
    decreases |run|
  {
    if run == [] then s else End(Next(s, run[0]), run[1..])
  }

  lemma {:induction false} InvRun(s: State, run: seq<Action>)
    requires Inv(s) && CanRun(s, run)
    ensures Inv(End(s, run))
    decreases |run|
  {
    if run != [] {
      InvStep(s, run[0]);
      InvRun(Next(s, run[0]), run[1..]);
    }
  }

  /** After one resumption at the root the last sleeper is one link nearer, or awake; other actions do not matter. */
  lemma {:induction false} DrainRun(s: State, run: seq<Action>, path: seq<nat>) returns (k: nat)
    requires Inv(s) && CanRun(s, run) && Draining(s, path)
    ensures k < |path|
    ensures Inv(End(s, run))
    ensures Released(End(s, run), path[|path| - 1], s.born[path[|path| - 1]])
         || (Draining(End(s, run), path[k..]) && |path| - k >= 2
              && End(s, run).born[path[|path| - 1]] == s.born[path[|path| - 1]])
    ensures Resume(path[0]) in run ==> k > 0 || Released(End(s, run), path[|path| - 1], s.born[path[|path| - 1]])
    decreases |run|
  {
    var t := path[|path| - 1];
    if |path| == 1 {
      k := 0;
      StaysReleased(s, run, t, s.born[t]);
      InvRun(s, run);
    } else if run == [] {
      k := 0;
      assert path[0..] == path;
    } else {
      var a := run[0];
      DrainStep(s, a, path);
      InvStep(s, a);
      if a == Resume(path[0]) {
        var j := DrainRun(Next(s, a), run[1..], path[1..]);
        k := j + 1;
        assert path[1..][j..] == path[k..];
      } else {
        assert Resume(path[0]) in run ==> Resume(path[0]) in run[1..];
        k := DrainRun(Next(s, a), run[1..], path);
      }
    }
  }

  /** A call of sleep_on that has been released is never asleep again: a later call has a later birth. */
  lemma {:induction false} StaysReleased(s: State, run: seq<Action>, t: nat, since: nat)
    requires Inv(s) && CanRun(s, run) && Released(s, t, since) && since < s.clock
    ensures Released(End(s, run), t, since)
    decreases |run|
  {
    if run != [] {
      InvStep(s, run[0]);
      StaysReleased(Next(s, run[0]), run[1..], t, since);
    }
  }

  /** A round of scheduling in which every task that is runnable at its start gets to run. */
  ghost predicate FairRound(s: State, run: seq<Action>) {
    CanRun(s, run) && forall t :: 0 <= t < |s.modes| && s.modes[t].Woken? ==> Resume(t) in run
  }

  ghost predicate FairRounds(s: State, rounds: seq<seq<Action>>)
    decreases |rounds|
  {
    rounds == [] || (FairRound(s, rounds[0]) && FairRounds(End(s, rounds[0]), rounds[1..]))
  }

  ghost function EndRounds(s: State, rounds: seq<seq<Action>>): (r: State)
    requires FairRounds(s, rounds)
    ensures |r.modes| == |s.modes| && (|s.born| == |s.modes| ==> |r.born| == |r.modes|)
    decreases |rounds|
  {
    if rounds == [] then s else EndRounds(End(s, rounds[0]), rounds[1..])
  }

  /** One fair round brings the last sleeper at least one link nearer to running, or lets it run. */
  lemma FairRoundShortens(s: State, run: seq<Action>, path: seq<nat>) returns (k: nat)
    requires Inv(s) && Draining(s, path) && FairRound(s, run)
    ensures k < |path| && Inv(End(s, run)) && s.born[path[|path| - 1]] < s.clock <= End(s, run).clock
    ensures Released(End(s, run), path[|path| - 1], s.born[path[|path| - 1]])
         || (k > 0 && Draining(End(s, run), path[k..])
              && End(s, run).born[path[|path| - 1]] == s.born[path[|path| - 1]])
  {
    PathFacts(s, path);
    ClockGrows(s, run);
    k := DrainRun(s, run, path);
  }

  /**
    wake_up releases every earlier sleeper: the k-th task of a draining chain
    is out of sleep_on after at most k fair rounds, whatever else happens.
   */
  lemma {:induction false} EveryoneIsReleased(s: State, rounds: seq<seq<Action>>, path: seq<nat>)
    requires Inv(s) && Draining(s, path) && FairRounds(s, rounds) && |rounds| >= |path| - 1
    ensures Released(EndRounds(s, rounds), path[|path| - 1], s.born[path[|path| - 1]])
    decreases |rounds|, 1
  {
    if rounds != [] {
      var k := FairRoundShortens(s, rounds[0], path);
      NextRounds(s, rounds, path, k);
    }
  }

  lemma NextRounds(s: State, rounds: seq<seq<Action>>, path: seq<nat>, k: nat)
    requires |s.born| == |s.modes| && Path(s, path) && rounds != [] && FairRounds(s, rounds) && |rounds| >= |path| - 1
    requires k < |path|
    requires var m, t := End(s, rounds[0]), path[|path| - 1];
             && Inv(m) && s.born[t] < m.clock
             && (Released(m, t, s.born[t]) || (k > 0 && Draining(m, path[k..]) && m.born[t] == s.born[t]))
    ensures Released(EndRounds(s, rounds), path[|path| - 1], s.born[path[|path| - 1]])
    decreases |rounds|, 0
  {
    var m, t := End(s, rounds[0]), path[|path| - 1];
    if Released(m, t, s.born[t]) {
      RoundsStayReleased(m, rounds[1..], t, s.born[t]);
    } else {
      assert path[k..][|path[k..]| - 1] == t;
      EveryoneIsReleased(m, rounds[1..], path[k..]);
    }
  }

  lemma {:induction false} ClockGrows(s: State, run: seq<Action>)
    requires CanRun(s, run)
    ensures End(s, run).clock >= s.clock
    decreases |run|
  {
    if run != [] {
      ClockGrows(Next(s, run[0]), run[1..]);
    }
  }

  lemma {:induction false} RoundsStayReleased(s: State, rounds: seq<seq<Action>>, t: nat, since: nat)
    requires Inv(s) && FairRounds(s, rounds) && Released(s, t, since) && since < s.clock
    ensures Released(EndRounds(s, rounds), t, since)
    decreases |rounds|
  {
    if rounds != [] {
      StaysReleased(s, rounds[0], t, since);
      InvRun(s, rounds[0]);
      ClockGrows(s, rounds[0]);
      RoundsStayReleased(End(s, rounds[0]), rounds[1..], t, since);
    }
  }

  // ----- and not before it is woken ---------------------------------------------

  /** A chain that begins at the head of queue q: all of it is asleep. */
  ghost predicate Queued(s: State, q: nat, path: seq<nat>) {
    Path(s, path) && q < |s.heads| && s.heads[q] == Task(path[0])
  }

  /** Only wake_up on q touches its tasks. */
  lemma QueuedSame(s: State, a: Action, q: nat, path: seq<nat>, i: nat)
    requires Inv(s) && Enabled(s, a) && Queued(s, q, path) && a != WakeUp(q) && i < |path|
    ensures s.modes[path[i]].Asleep? && s.modes[path[i]].queue == q
    ensures Next(s, a).modes[path[i]] == s.modes[path[i]] && Next(s, a).born[path[i]] == s.born[path[i]]
  {
    PathFacts(s, path);
    QueuedOn(s, q, path, i);
    assert i > 0 ==> PointsTo(s, path[i - 1], path[i]);
    assert a.Resume? && s.modes[a.t].tmp.Task? ==> PointsTo(s, a.t, s.modes[a.t].tmp.t);
    assert a.WakeUp? && s.heads[a.q].Task? ==> AsleepOn(s, s.heads[a.q].t, a.q);
  }

  lemma {:induction false} QueuedOn(s: State, q: nat, path: seq<nat>, i: nat)
    requires Inv(s) && Queued(s, q, path) && i < |path|
    ensures AsleepOn(s, path[i], q)
  {
    if i > 0 {
      QueuedOn(s, q, path, i - 1);
      assert PointsTo(s, path[i - 1], path[i]);
    }
  }

  /** Other actions leave the chain, with a new sleeper at its front perhaps. */
  lemma QueuedStep(s: State, a: Action, q: nat, path: seq<nat>) returns (longer: seq<nat>)
    requires Inv(s) && Enabled(s, a) && Queued(s, q, path) && a != WakeUp(q)
    ensures Queued(Next(s, a), q, longer) && longer[|longer| - 1] == path[|path| - 1]
  {
    var r := Next(s, a);
    longer := if a.SleepOn? && a.q == q then [a.t] + path else path;
    forall i | 0 <= i < |path| - 1
      ensures PointsTo(r, path[i], path[i + 1])
    {
      QueuedSame(s, a, q, path, i);
      assert PointsTo(s, path[i], path[i + 1]);
    }
    forall i | 0 <= i < |longer| - 1
      ensures PointsTo(r, longer[i], longer[i + 1])
    {
      if longer != path && i > 0 {
        assert PointsTo(r, path[i - 1], path[i]);
      }
    }
  }

  lemma {:induction false} QueuedRun(s: State, run: seq<Action>, q: nat, path: seq<nat>)
    requires Inv(s) && CanRun(s, run) && Queued(s, q, path) && WakeUp(q) !in run
    ensures var t := path[|path| - 1];
            End(s, run).modes[t] == s.modes[t] && End(s, run).born[t] == s.born[t] && s.modes[t].Asleep?
    decreases |run|
  {
    if run == [] {
      QueuedOn(s, q, path, |path| - 1);
    } else {
      var a := run[0];
      assert a != WakeUp(q);
      QueuedSame(s, a, q, path, |path| - 1);
      var longer := QueuedStep(s, a, q, path);
      InvStep(s, a);
      QueuedRun(Next(s, a), run[1..], q, longer);
    }
  }

  /**
    A task that has called sleep_on sleeps until somebody calls wake_up on that
    queue, whatever else happens: other tasks sleep on it, other queues are woken,
    tasks woken from this one before go on.
   */
  lemma SleepsUntilWoken(s: State, t: nat, q: nat, run: seq<Action>)
    requires Inv(s) && Enabled(s, SleepOn(t, q)) && CanRun(Next(s, SleepOn(t, q)), run) && WakeUp(q) !in run
    ensures End(Next(s, SleepOn(t, q)), run).modes[t] == Asleep(q, s.heads[q])
    ensures End(Next(s, SleepOn(t, q)), run).born[t] == s.clock
  {
    InvStep(s, SleepOn(t, q));
    QueuedRun(Next(s, SleepOn(t, q)), run, q, [t]);
  }
}

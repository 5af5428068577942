/**
  find_empty_process of kernel/fork.c as a whole: the next process number that
  no task has, and the lowest free slot of task[].
 */
module ProcessIds {

  const NR_TASKS: nat := 64
  const MAX_PID: nat := 0x7fffffff      // last_pid is a signed 32-bit number

  datatype Slot = Empty | Used(pid: nat)

  /** ++last_pid, back to 1 when it turns negative. */
  function Succ(p: nat): nat { if p + 1 > MAX_PID then 1 else p + 1 }

  /** The k-th number after p. */
  function After(p: nat, k: nat): nat { if p + k > MAX_PID then p + k - MAX_PID else p + k }

  predicate InUse(task: seq<Slot>, p: nat) { exists i :: 0 <= i < |task| && task[i] == Used(p) }

  function Pids(task: seq<Slot>): set<nat> { set i | 0 <= i < |task| && task[i].Used? :: task[i].pid }

  lemma {:induction false} FewPids(task: seq<Slot>)
    ensures |Pids(task)| <= |task|
  {
    if task != [] {
      var n := |task| - 1;
      FewPids(task[..n]);
      var more := if task[n].Used? then {task[n].pid} else {};
      forall p | p in Pids(task)
        ensures p in Pids(task[..n]) + more
      {
        var i :| 0 <= i < |task| && task[i].Used? && task[i].pid == p;
        assert i < n ==> task[..n][i] == task[i];
      }
      Within(Pids(task), Pids(task[..n]) + more);
    }
  }

  lemma Within(a: set<nat>, b: set<nat>)
    requires a <= b
    ensures |a| <= |b|
  {
    assert b == a + (b - a);
  }

  /** The numbers tried first. */
  function Tried(p: nat, k: nat): set<nat> { set j: nat | 1 <= j < k :: After(p, j) }

  lemma {:induction false} TriedAreMany(p: nat, k: nat)
    requires p <= MAX_PID && 1 <= k <= MAX_PID
    ensures |Tried(p, k)| == k - 1
  {
    if k > 1 {
      TriedAreMany(p, k - 1);
      assert Tried(p, k) == Tried(p, k - 1) + {After(p, k - 1)};
    } else {
      assert Tried(p, k) == {};
    }
  }

  /** So the search for a number ends after at most one try more than there are tasks. */
  lemma SearchEnds(task: seq<Slot>, p: nat, k: nat)
    requires |task| == NR_TASKS && p <= MAX_PID && 1 <= k <= MAX_PID
    requires forall j :: 1 <= j < k ==> InUse(task, After(p, j))
    ensures k <= NR_TASKS + 1
  {
    forall q | q in Tried(p, k)
      ensures q in Pids(task)
    {
      var j: nat :| 1 <= j < k && After(p, j) == q;
      assert InUse(task, q);
    }
    TriedAreMany(p, k);
    FewPids(task);
    Within(Tried(p, k), Pids(task));
  }

  /** All numbers from p + 1 to q - 1 are in use, or to the largest and from 1 on again if q is not above p. */
  predicate AllBetween(task: seq<Slot>, p: nat, q: nat) {
    && (q > p ==> forall r :: p < r < q ==> InUse(task, r))
    && (q <= p ==> (forall r :: p < r <= 0x7fffffff ==> InUse(task, r)) && forall r :: 1 <= r < q ==> InUse(task, r))
  }

  lemma TriedIsBetween(task: seq<Slot>, p: nat, k: nat)
    requires p <= MAX_PID && 1 <= k <= MAX_PID && forall j :: 1 <= j < k ==> InUse(task, After(p, j))
    ensures AllBetween(task, p, After(p, k))
  {
    var q := After(p, k);
    forall r | p < r <= MAX_PID && (q > p ==> r < q)
      ensures InUse(task, r)
    {
      assert After(p, r - p) == r;
    }
    forall r | q <= p && 1 <= r < q
      ensures InUse(task, r)
    {
      assert After(p, r + MAX_PID - p) == r;
    }
  }

  predicate Distinct(task: seq<Slot>) {
    forall i, j :: 0 <= i < j < |task| && task[i].Used? && task[j].Used? ==> task[i].pid != task[j].pid
  }

  class Processes {
    var lastPid: nat
    var task: seq<Slot>

    /** No two tasks have the same number. */
    predicate Valid()
      reads this
    {
      |task| == NR_TASKS && task[0] == Used(0) && lastPid <= MAX_PID && Distinct(task)
    }

    /** Task 0 alone. */
    constructor ()
      ensures Valid()
    {
      lastPid := 0;
      task := seq(NR_TASKS, i => if i == 0 then Used(0) else Empty);
    }

    method Taken(p: nat) returns (taken: bool)
      ensures taken == InUse(task, p)
    {
      var i := 0;
      while i < |task|
        invariant 0 <= i <= |task| && forall j :: 0 <= j < i ==> task[j] != Used(p)
      {
        if task[i] == Used(p) {
          return true;
        }
        i := i + 1;
      }
      taken := false;
    }

    /** From the label `repeat`: the first number after the last one that is not in use. */
    method NextPid()
      requires Valid()
      modifies `lastPid
      ensures 1 <= lastPid <= MAX_PID && !InUse(task, lastPid)
      ensures exists k: nat :: FirstUnused(old(lastPid), k)
      ensures AllBetween(task, old(lastPid), lastPid)
    {
      ghost var p := lastPid;
      ghost var k: nat := 1;
      lastPid := Succ(lastPid);
      var taken := Taken(lastPid);
      while taken
        invariant 1 <= k <= NR_TASKS + 1 && lastPid == After(p, k) && taken == InUse(task, lastPid)
        invariant forall j :: 1 <= j < k ==> InUse(task, After(p, j))
        decreases NR_TASKS + 1 - k
      {
        SearchEnds(task, p, k + 1);
        lastPid := Succ(lastPid);
        k := k + 1;
        taken := Taken(lastPid);
      }
      assert FirstUnused(p, k);
      TriedIsBetween(task, p, k);
    }

    /** last_pid is the k-th number after p, and the ones before it are all in use. */
    predicate FirstUnused(p: nat, k: nat)
      reads this
    {
      k >= 1 && lastPid == After(p, k) && forall j :: 1 <= j < k ==> InUse(task, After(p, j))
    }

    /** find_empty_process: -1 stands for the error when all slots are taken; the number is used up even then. */
    method FindEmptyProcess() returns (nr: int)
      requires Valid()
      modifies `lastPid
      ensures Valid() && 1 <= lastPid && !InUse(task, lastPid) && exists k: nat :: FirstUnused(old(lastPid), k)
      ensures AllBetween(task, old(lastPid), lastPid)
      ensures nr == -1 <==> forall i :: 1 <= i < NR_TASKS ==> task[i].Used?
      ensures nr != -1 ==> 1 <= nr < NR_TASKS && task[nr].Empty? && forall i :: 1 <= i < nr ==> task[i].Used?
    {
      NextPid();
      var i := 1;
      while i < NR_TASKS
        invariant 1 <= i <= NR_TASKS && forall j :: 1 <= j < i ==> task[j].Used?
      {
        if task[i].Empty? {
          return i;
        }
        i := i + 1;
      }
      nr := -1;
    }

    /** The slot that copy_process fills: every task keeps a number of its own. */
    method Fork() returns (nr: int)
      requires Valid()
      modifies this
      ensures Valid() && (nr == -1 ==> task == old(task))
      ensures nr != -1 ==> 1 <= nr < NR_TASKS && old(task)[nr].Empty? && task == old(task)[nr := Used(lastPid)]
      ensures nr != -1 ==> !InUse(old(task), lastPid)
    {
      nr := FindEmptyProcess();
      if nr != -1 {
        assert forall i :: 0 <= i < NR_TASKS ==> task[i] != Used(lastPid);
        task := task[nr := Used(lastPid)];
      }
    }

    method Release(nr: nat)
      requires Valid() && 1 <= nr < NR_TASKS
      modifies this
      ensures Valid() && task == old(task)[nr := Empty]
    {
      task := task[nr := Empty];
    }
  }
}

/**
  The system calls on descriptors as a machine that counts nothing: `View` has
  the descriptors of all tasks and the inodes of the files.  A file is unused when
  no descriptor of any task names it.

  open and pipe are two steps each, because they sleep in between while a file is
  reserved.  exit and dup2 may sleep too, in the iput of each file they close; a
  task's descriptors do not change while it sleeps there, whatever other tasks
  call (`OthersLeaveDescriptors`), so one step stands for the several.

  A task may die inside open, when reading the path takes memory that is not
  there.  do_exit then closes the descriptor that open had reserved.
 */
module FileMachine {
  import opened OpenFiles

  /** What open_namei or get_pipe_inode comes to; 0 is the null pointer. */
  datatype Lookup = Failed(errno: nat) | Found(inode: nat)

  datatype Call =
    | OpenStart(t: nat)
    | OpenEnd(t: nat, fd: nat, result: Lookup)
    | Die(t: nat, fd: nat)
    | PipeStart(t: nat)
    | PipeEnd(t: nat, fd0: nat, fd1: nat, result: Lookup)
    | Close(t: nat, fd: nat)
    | Dup(t: nat, fd: nat, arg: nat)
    | Dup2(t: nat, oldfd: nat, newfd: nat)
    | Fork(t: nat, nr: nat)
    | Exit(t: nat)

  datatype Answer = Error(errno: nat) | Done | Fd(fd: nat) | Both(fd0: nat, fd1: nat)

  const EPERM: nat := 1
  const EBADF: nat := 9
  const EINVAL: nat := 22
  const EMFILE: nat := 24

  // ----- the machine without counts -------------------------------------------

  datatype View = View(filp: seq<Row>, inode: seq<nat>, opening: seq<set<nat>>)

  predicate ViewOk(v: View) {
    && |v.filp| == NR_TASKS && |v.inode| == NR_FILE && |v.opening| == NR_TASKS
    && (forall t :: 0 <= t < NR_TASKS ==> RowOk(v.filp[t]))
    && (forall t, d :: 0 <= t < NR_TASKS && d in v.opening[t] ==> d < NR_OPEN && v.filp[t][d] >= 0)
  }

  /** Some descriptor that is open names file f. */
  ghost predicate InUse(v: View, f: int)
    requires ViewOk(v)
  {
    exists t, d :: 0 <= t < NR_TASKS && 0 <= d < NR_OPEN && v.filp[t][d] == f && d !in v.opening[t]
  }

  /** The lowest unused descriptor from `arg` on, NR_OPEN if none. */
  function FirstFree(row: Row, arg: nat): (d: nat)
    requires RowOk(row) && arg <= NR_OPEN
    ensures arg <= d <= NR_OPEN && (d < NR_OPEN ==> row[d] == -1) && forall e :: arg <= e < d ==> row[e] >= 0
    decreases NR_OPEN - arg
  {
    if arg == NR_OPEN || row[arg] == -1 then arg else FirstFree(row, arg + 1)
  }

  /** The lowest file from `from` on that no descriptor names, NR_FILE if none. */
  function FirstUnnamed(filp: seq<Row>, from: nat): (f: nat)
    requires from <= NR_FILE
    ensures from <= f <= NR_FILE && (f < NR_FILE ==> Named(filp)[f] == 0)
    ensures forall g :: from <= g < f ==> Named(filp)[g] > 0
    decreases NR_FILE - from
  {
    if from == NR_FILE || Named(filp)[from] == 0 then from else FirstUnnamed(filp, from + 1)
  }

  /** A task makes a call only when it is not asleep in another one; fork fills an empty slot. */
  predicate Possible(v: View, c: Call)
    requires ViewOk(v)
  {
    && c.t < NR_TASKS
    && match c
       case OpenEnd(t, fd, result) => v.opening[t] == {fd} && result != Found(0)
       case Die(t, fd) => v.opening[t] == {fd}
       case PipeEnd(t, fd0, fd1, result) => fd0 != fd1 && v.opening[t] == {fd0, fd1} && result != Found(0)
       case Fork(t, nr) => v.opening[t] == {} && nr < NR_TASKS && nr != t && IsNull(v.filp[nr])
       case _ => v.opening[c.t] == {}
  }

  function Put(filp: seq<Row>, t: nat, d: nat, f: int): seq<Row>
    requires t < |filp| && d < |filp[t]|
  {
    filp[t := filp[t][d := f]]
  }

  function Names(v: View, filp: seq<Row>): View { View(filp, v.inode, v.opening) }

  function Opens(v: View, t: nat): (View, Answer)
    requires ViewOk(v) && t < NR_TASKS
  {
    var fd, f := FirstFree(v.filp[t], 0), FirstUnnamed(v.filp, 0);
    if fd == NR_OPEN || f == NR_FILE then (v, Error(EINVAL))
    else (View(Put(v.filp, t, fd, f), v.inode, v.opening[t := {fd}]), Fd(fd))
  }

  function Piped(v: View, t: nat, fd0: nat, fd1: nat, f0: nat, f1: nat): (View, Answer)
    requires ViewOk(v) && t < NR_TASKS && fd0 < NR_OPEN && fd1 < NR_OPEN
  {
    (View(Put(Put(v.filp, t, fd0, f0), t, fd1, f1), v.inode, v.opening[t := {fd0, fd1}]), Both(fd0, fd1))
  }

  function Pipes(v: View, t: nat): (View, Answer)
    requires ViewOk(v) && t < NR_TASKS
  {
    var fd0, f0 := FirstFree(v.filp[t], 0), FirstUnnamed(v.filp, 0);
    if fd0 == NR_OPEN || f0 == NR_FILE then (v, Error(EPERM))
    else
      var fd1, f1 := FirstFree(v.filp[t], fd0 + 1), FirstUnnamed(v.filp, f0 + 1);
      if fd1 == NR_OPEN || f1 == NR_FILE then (v, Error(EPERM)) else Piped(v, t, fd0, fd1, f0, f1)
  }

  function Closes(v: View, t: nat, fd: nat): (View, Answer)
    requires ViewOk(v) && t < NR_TASKS
  {
    if fd >= NR_OPEN || v.filp[t][fd] == -1 then (v, Error(EINVAL)) else (Names(v, Put(v.filp, t, fd, -1)), Done)
  }

  function Dups(v: View, t: nat, fd: nat, arg: nat): (View, Answer)
    requires ViewOk(v) && t < NR_TASKS
  {
    if fd >= NR_OPEN || v.filp[t][fd] == -1 then (v, Error(EBADF))
    else if arg >= NR_OPEN then (v, Error(EINVAL))
    else
      var d := FirstFree(v.filp[t], arg);
      if d == NR_OPEN then (v, Error(EMFILE)) else (Names(v, Put(v.filp, t, d, v.filp[t][fd])), Fd(d))
  }

  lemma PipesTo(v: View, t: nat, fd0: nat, fd1: nat, f0: nat, f1: nat)
    requires ViewOk(v) && t < NR_TASKS && fd0 == FirstFree(v.filp[t], 0) && f0 == FirstUnnamed(v.filp, 0)
    requires if fd0 < NR_OPEN then fd1 == FirstFree(v.filp[t], fd0 + 1) else fd1 == NR_OPEN
    requires if f0 < NR_FILE then f1 == FirstUnnamed(v.filp, f0 + 1) else f1 == NR_FILE
    ensures f1 == NR_FILE || fd1 == NR_OPEN ==> Pipes(v, t) == (v, Error(EPERM))
    ensures f1 < NR_FILE && fd1 < NR_OPEN ==>
              && fd0 < fd1 && f0 < f1 && v.filp[t][fd0] == -1 && v.filp[t][fd1] == -1
              && Pipes(v, t) == Piped(v, t, fd0, fd1, f0, f1)
  {
  }

  /** newfd is closed whatever comes of it. */
  function Dup2s(v: View, t: nat, oldfd: nat, newfd: nat): (View, Answer)
    requires ViewOk(v) && t < NR_TASKS
  {
    if newfd >= NR_OPEN then (v, Error(if oldfd >= NR_OPEN || v.filp[t][oldfd] == -1 then EBADF else EINVAL))
    else if oldfd >= NR_OPEN || oldfd == newfd || v.filp[t][oldfd] == -1 then
      (Names(v, Put(v.filp, t, newfd, -1)), Error(EBADF))
    else (Names(v, Put(v.filp, t, newfd, v.filp[t][oldfd])), Fd(newfd))
  }

  /** The reservation of task t is over. */
  function Ended(v: View, filp: seq<Row>, t: nat): View
    requires ViewOk(v) && t < NR_TASKS
  {
    View(filp, v.inode, v.opening[t := {}])
  }

  function NullRow(): (row: Row)
    ensures RowOk(row) && IsNull(row)
  {
    seq(NR_OPEN, _ => -1)
  }

  function Effect(v: View, c: Call): (View, Answer)
    requires ViewOk(v) && Possible(v, c)
  {
    match c
    case OpenStart(t) => Opens(v, t)
    case OpenEnd(t, fd, Found(ino)) =>
      (View(v.filp, v.inode[v.filp[t][fd] := ino], v.opening[t := {}]), Fd(fd))
    case OpenEnd(t, fd, Failed(e)) => (Ended(v, Put(v.filp, t, fd, -1), t), Error(e))
    case Die(t, _) => (Ended(v, v.filp[t := NullRow()], t), Done)
    case PipeStart(t) => Pipes(v, t)
    case PipeEnd(t, fd0, fd1, Found(ino)) =>
      (View(v.filp, v.inode[v.filp[t][fd0] := ino][v.filp[t][fd1] := ino], v.opening[t := {}]),
       Both(fd0, fd1))
    case PipeEnd(t, fd0, fd1, Failed(_)) =>
      (Ended(v, Put(Put(v.filp, t, fd0, -1), t, fd1, -1), t), Error(EPERM))
    case Close(t, fd) => Closes(v, t, fd)
    case Dup(t, fd, arg) => Dups(v, t, fd, arg)
    case Dup2(t, oldfd, newfd) => Dup2s(v, t, oldfd, newfd)
    case Fork(t, nr) => (Names(v, v.filp[nr := v.filp[t]]), Done)
    case Exit(t) => (Names(v, v.filp[t := NullRow()]), Done)
  }

  lemma RowsOk(v: View, t: nat, row: Row, opening: set<nat>)
    requires ViewOk(v) && t < NR_TASKS && RowOk(row) && forall d :: d in opening ==> d < NR_OPEN && row[d] >= 0
    ensures ViewOk(View(v.filp[t := row], v.inode, v.opening[t := opening]))
  {
  }

  /** sys_dup2 closes newfd, and dupfd from there on finds it free. */
  lemma CloseThenDup(v: View, t: nat, oldfd: nat, newfd: nat)
    requires ViewOk(v) && t < NR_TASKS && v.opening[t] == {}
    ensures var w := Closes(v, t, newfd).0;
            ViewOk(w) && Dups(w, t, oldfd, newfd) == Dup2s(v, t, oldfd, newfd)
  {
    var w := Closes(v, t, newfd).0;
    if newfd < NR_OPEN {
      RowsOk(v, t, v.filp[t][newfd := -1], {});
      var row := v.filp[t][newfd := -1];
      assert v.filp[t][newfd] == -1 ==> row == v.filp[t];
      assert v.filp[t := v.filp[t]] == v.filp;
      assert w.filp == v.filp[t := row] && w.filp[t] == row && FirstFree(row, newfd) == newfd;
      if oldfd < NR_OPEN {
        var f := v.filp[t][oldfd];
        assert row[newfd := f] == v.filp[t][newfd := f];
        assert w.filp[t := row[newfd := f]] == v.filp[t := v.filp[t][newfd := f]];
      }
    }
  }

  lemma EffectOk(v: View, c: Call)
    requires ViewOk(v) && Possible(v, c)
    ensures ViewOk(Effect(v, c).0)
  {
    match c
    case OpenStart(_) => StartOk(v, c);
    case PipeStart(_) => StartOk(v, c);
    case OpenEnd(_, _, _) => EndOk(v, c);
    case PipeEnd(_, _, _, _) => EndOk(v, c);
    case Fork(_, _) => ForkOk(v, c);
    case Exit(_) => NullRowOk(v, c);
    case Die(_, _) => NullRowOk(v, c);
    case _ => DescriptorOk(v, c);
  }

  lemma StartOk(v: View, c: Call)
    requires ViewOk(v) && Possible(v, c) && (c.OpenStart? || c.PipeStart?)
    ensures ViewOk(Effect(v, c).0)
  {
    var w := Effect(v, c).0;
    RowsOk(v, c.t, w.filp[c.t], w.opening[c.t]);
  }

  lemma ForkOk(v: View, c: Call)
    requires ViewOk(v) && Possible(v, c) && c.Fork?
    ensures ViewOk(Effect(v, c).0)
  {
    RowsOk(v, c.nr, v.filp[c.t], v.opening[c.nr]);
    assert v.opening[c.nr := v.opening[c.nr]] == v.opening;
  }

  lemma NullRowOk(v: View, c: Call)
    requires ViewOk(v) && Possible(v, c) && (c.Exit? || c.Die?)
    ensures ViewOk(Effect(v, c).0)
  {
    RowsOk(v, c.t, NullRow(), {});
  }

  lemma EndOk(v: View, c: Call)
    requires ViewOk(v) && Possible(v, c) && (c.OpenEnd? || c.PipeEnd?)
    ensures ViewOk(Effect(v, c).0)
  {
    RowsOk(v, c.t, Effect(v, c).0.filp[c.t], {});
  }

  lemma DescriptorOk(v: View, c: Call)
    requires ViewOk(v) && Possible(v, c) && (c.Close? || c.Dup? || c.Dup2?)
    ensures ViewOk(Effect(v, c).0)
  {
    RowsOk(v, c.t, Effect(v, c).0.filp[c.t], {});
  }

  /** One call more, if it is possible; what has been answered stays. */
  function Then(r: (View, seq<Answer>), c: Call): (n: (View, seq<Answer>))
    requires ViewOk(r.0)
    ensures ViewOk(n.0)
  {
    if !Possible(r.0, c) then r
    else
      EffectOk(r.0, c);
      (Effect(r.0, c).0, r.1 + [Effect(r.0, c).1])
  }

  /** A run of the machine: what it comes to and all answers. */
  function Effects(v: View, calls: seq<Call>): (r: (View, seq<Answer>))
    requires ViewOk(v)
    ensures ViewOk(r.0)
    decreases |calls|
  {
    if calls == [] then (v, []) else Then(Effects(v, calls[..|calls| - 1]), calls[|calls| - 1])
  }

  predicate SameTask(v: View, w: View, t: nat)
    requires ViewOk(v) && ViewOk(w) && t < NR_TASKS
  {
    w.filp[t] == v.filp[t] && w.opening[t] == v.opening[t]
  }

  /** Over every run, whatever other tasks call, a task with an open descriptor keeps all of its descriptors. */
  lemma {:induction false} OthersLeaveDescriptors(v: View, calls: seq<Call>, t: nat)
    requires ViewOk(v) && t < NR_TASKS && !IsNull(v.filp[t]) && forall k :: 0 <= k < |calls| ==> calls[k].t != t
    ensures SameTask(v, Effects(v, calls).0, t)
    decreases |calls|
  {
    if calls != [] {
      var n := |calls| - 1;
      OthersLeaveDescriptors(v, calls[..n], t);
      ThenElsewhere(Effects(v, calls[..n]), calls[n], t);
    }
  }

  lemma ThenElsewhere(r: (View, seq<Answer>), c: Call, t: nat)
    requires ViewOk(r.0) && t < NR_TASKS && c.t != t && !IsNull(r.0.filp[t])
    ensures SameTask(r.0, Then(r, c).0, t)
  {
    if Possible(r.0, c) {
      EffectElsewhere(r.0, c, t);
    }
  }

  lemma EffectElsewhere(v: View, c: Call, t: nat)
    requires ViewOk(v) && Possible(v, c) && t < NR_TASKS && c.t != t && !IsNull(v.filp[t])
    ensures Effect(v, c).0.filp[t] == v.filp[t] && Effect(v, c).0.opening[t] == v.opening[t]
  {
  }

  /** No descriptor is open and no file has ever been. */
  function Boot(): (v: View)
    ensures ViewOk(v) && v.filp == seq(NR_TASKS, _ => NullRow()) && |v.opening| == NR_TASKS
  {
    View(seq(NR_TASKS, _ => NullRow()), seq(NR_FILE, _ => 0), seq(NR_TASKS, _ => {}))
  }
}

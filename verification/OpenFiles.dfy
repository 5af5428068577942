/**
  Descriptors and the file table: open, close, dup and dup2, pipe, the copy at
  fork and the closing at exit (fs/open.c, fs/fcntl.c, fs/pipe.c,
  kernel/fork.c, kernel/exit.c).

  open and pipe reserve descriptor and file first and may then sleep while the
  inode is looked up, so other tasks run between their two halves.  `ready`,
  `opening` and `held` are history: which files have their inode, which
  descriptors are being opened, and which inode references the file table owns.
 */
module OpenFiles {

  const NR_TASKS: nat := 64
  const NR_OPEN: nat := 20
  const NR_FILE: nat := 64

  /** A task's filp array; -1 is the null pointer. */
  type Row = seq<int>

  /** How often each file is named by a descriptor of some task. */
  function Named(filp: seq<Row>): multiset<int> {
    if filp == [] then multiset{} else Named(filp[..|filp| - 1]) + multiset(filp[|filp| - 1])
  }

  lemma {:induction false} RowChanges(filp: seq<Row>, t: nat, row: Row)
    requires t < |filp|
    ensures Named(filp[t := row]) == Named(filp) - multiset(filp[t]) + multiset(row) && multiset(filp[t]) <= Named(filp)
  {
    var n := |filp| - 1;
    if t == n {
      assert filp[t := row][..n] == filp[..n];
    } else {
      assert filp[t := row][..n] == filp[..n][t := row];
      RowChanges(filp[..n], t, row);
    }
  }

  /** The inode references of the files that have theirs. */
  function Inodes(inode: seq<nat>, ready: seq<bool>): multiset<nat>
    requires |inode| == |ready|
  {
    if inode == [] then multiset{}
    else
      var n := |inode| - 1;
      Inodes(inode[..n], ready[..n]) + One(inode[n], ready[n])
  }

  function One(ino: nat, r: bool): multiset<nat> { if r then multiset{ino} else multiset{} }

  lemma Shuffle(a: multiset<nat>, b: multiset<nat>, c: multiset<nat>, d: multiset<nat>, e: multiset<nat>)
    requires a + b == c + d
    ensures a + e + b == c + e + d
  {
    assert a + e + b == (a + b) + e;
    assert c + e + d == (c + d) + e;
  }

  lemma InodesLast(inode: seq<nat>, ready: seq<bool>, n: nat)
    requires |inode| == |ready| == n + 1
    ensures Inodes(inode, ready) == Inodes(inode[..n], ready[..n]) + One(inode[n], ready[n])
  {
  }

  lemma {:induction false} InodeChanges(inode: seq<nat>, ready: seq<bool>, f: nat, ino: nat, r: bool)
    requires |inode| == |ready| && f < |inode|
    ensures Inodes(inode[f := ino], ready[f := r]) + One(inode[f], ready[f]) == Inodes(inode, ready) + One(ino, r)
  {
    var n := |inode| - 1;
    var inode', ready' := inode[f := ino], ready[f := r];
    InodesLast(inode, ready, n);
    InodesLast(inode', ready', n);
    if f == n {
      assert inode'[..n] == inode[..n] && ready'[..n] == ready[..n];
      Shuffle(Inodes(inode[..n], ready[..n]), multiset{}, Inodes(inode[..n], ready[..n]), multiset{}, One(ino, r));
    } else {
      assert inode'[..n] == inode[..n][f := ino] && ready'[..n] == ready[..n][f := r];
      InodeChanges(inode[..n], ready[..n], f, ino, r);
      Shuffle(Inodes(inode'[..n], ready'[..n]), One(inode[f], ready[f]), Inodes(inode[..n], ready[..n]),
          One(ino, r), One(inode[n], ready[n]));
    }
  }

  lemma {:induction false} InodeThere(inode: seq<nat>, ready: seq<bool>, f: nat)
    requires |inode| == |ready| && f < |inode| && ready[f]
    ensures inode[f] in Inodes(inode, ready)
  {
    var n := |inode| - 1;
    InodesLast(inode, ready, n);
    if f < n {
      InodeThere(inode[..n], ready[..n], f);
    }
  }

  // ----- what holds between system calls --------------------------------------

  predicate Shape(filp: seq<Row>, count: seq<nat>) {
    && |filp| == NR_TASKS && |count| == NR_FILE
    && forall t :: 0 <= t < NR_TASKS ==> RowOk(filp[t])
  }

  predicate RowOk(row: Row) { |row| == NR_OPEN && forall d :: 0 <= d < NR_OPEN ==> -1 <= row[d] < NR_FILE }

  /** f_count is the number of descriptors, over all tasks, that name the file. */
  predicate Exact(filp: seq<Row>, count: seq<nat>)
    requires Shape(filp, count)
  {
    forall f :: 0 <= f < NR_FILE ==> count[f] == Named(filp)[f]
  }

  lemma RowSlot(row: Row, d: nat, v: int, f: int)
    requires d < |row|
    ensures multiset(row[d := v])[f] + (if row[d] == f then 1 else 0) == multiset(row)[f] + if v == f then 1 else 0
  {
  }

  lemma SlotShape(filp: seq<Row>, count: seq<nat>, t: nat, d: nat, v: int)
    requires Shape(filp, count) && t < NR_TASKS && d < NR_OPEN && -1 <= v < NR_FILE
    ensures Shape(filp[t := filp[t][d := v]], count)
  {
  }

  lemma SlotNamed(filp: seq<Row>, t: nat, d: nat, v: int, f: int)
    requires t < |filp| && d < |filp[t]|
    ensures Named(filp[t := filp[t][d := v]])[f] + (if filp[t][d] == f then 1 else 0)
            == Named(filp)[f] + if v == f then 1 else 0
  {
    RowChanges(filp, t, filp[t][d := v]);
    RowSlot(filp[t], d, v, f);
  }

  /** One descriptor more, or one less, and the count follows. */
  lemma SlotChanges(filp: seq<Row>, count: seq<nat>, t: nat, d: nat, v: int)
    requires Shape(filp, count) && Exact(filp, count) && t < NR_TASKS && d < NR_OPEN && -1 <= v < NR_FILE
    ensures Shape(filp[t := filp[t][d := v]], count)
    ensures filp[t][d] >= 0 ==> count[filp[t][d]] > 0
    ensures forall f :: 0 <= f < NR_FILE ==>
              Named(filp[t := filp[t][d := v]])[f] + (if filp[t][d] == f then 1 else 0)
                  == count[f] + (if v == f then 1 else 0)
  {
    NamedThere(filp, t, d);
    forall f | 0 <= f < NR_FILE
      ensures Named(filp[t := filp[t][d := v]])[f] + (if filp[t][d] == f then 1 else 0)
              == count[f] + if v == f then 1 else 0
    {
      SlotNamed(filp, t, d, v, f);
    }
    SlotShape(filp, count, t, d, v);
  }

  lemma NamedThere(filp: seq<Row>, t: nat, d: nat)
    requires t < |filp| && d < |filp[t]|
    ensures Named(filp)[filp[t][d]] > 0
  {
    RowChanges(filp, t, filp[t]);
    assert filp[t][d] in multiset(filp[t]);
  }

  lemma {:induction false} NamedSomewhere(filp: seq<Row>, f: int)
    requires Named(filp)[f] > 0
    ensures exists t, d :: 0 <= t < |filp| && 0 <= d < |filp[t]| && filp[t][d] == f
  {
    var n := |filp| - 1;
    if f in filp[n] {
      var d :| 0 <= d < |filp[n]| && filp[n][d] == f;
    } else {
      NamedSomewhere(filp[..n], f);
      var t, d :| 0 <= t < |filp[..n]| && 0 <= d < |filp[..n][t]| && filp[..n][t][d] == f;
      assert filp[t][d] == f;
    }
  }

  /** A file that no task names. */
  lemma UnusedNowhere(filp: seq<Row>, count: seq<nat>, f: nat)
    requires Shape(filp, count) && Exact(filp, count) && f < NR_FILE && count[f] == 0
    ensures forall t, d :: 0 <= t < NR_TASKS && 0 <= d < NR_OPEN ==> filp[t][d] != f
  {
    forall t, d | 0 <= t < NR_TASKS && 0 <= d < NR_OPEN
      ensures filp[t][d] != f
    {
      NamedThere(filp, t, d);
    }
  }

  /** A file that is named once is named nowhere else. */
  lemma NamedOnce(filp: seq<Row>, count: seq<nat>, t: nat, d: nat)
    requires Shape(filp, count) && Exact(filp, count) && t < NR_TASKS && d < NR_OPEN
    requires filp[t][d] >= 0 && count[filp[t][d]] == 1
    ensures forall u, e :: 0 <= u < NR_TASKS && 0 <= e < NR_OPEN && (u != t || e != d) ==> filp[u][e] != filp[t][d]
  {
    SlotChanges(filp, count, t, d, -1);
    var r := filp[t := filp[t][d := -1]];
    forall u, e | 0 <= u < NR_TASKS && 0 <= e < NR_OPEN && (u != t || e != d)
      ensures filp[u][e] != filp[t][d]
    {
      NamedThere(r, u, e);
      assert r[u][e] == filp[u][e];
    }
  }

  predicate IsNull(row: Row) { forall d :: 0 <= d < |row| ==> row[d] == -1 }

  /** The kernel's tables with the history. */
  datatype Tables = Tables(filp: seq<Row>, count: seq<nat>, inode: seq<nat>, ready: seq<bool>,
          opening: seq<set<nat>>, held: multiset<nat>)

  predicate Sized(x: Tables) {
    Shape(x.filp, x.count) && |x.inode| == NR_FILE && |x.ready| == NR_FILE && |x.opening| == NR_TASKS
  }

  /** Descriptor d of task t names a file that has its inode, unless the task is just opening it, alone. */
  predicate SlotOk(x: Tables, t: nat, d: nat)
    requires Sized(x) && t < NR_TASKS && d < NR_OPEN
  {
    && (d in x.opening[t] ==> x.filp[t][d] >= 0)
    && (x.filp[t][d] >= 0 ==>
          x.ready[x.filp[t][d]] == (d !in x.opening[t]) && (d in x.opening[t] ==> x.count[x.filp[t][d]] == 1))
  }

  predicate SlotsOk(x: Tables)
    requires Sized(x)
  {
    && (forall t, d :: 0 <= t < NR_TASKS && 0 <= d < NR_OPEN ==> SlotOk(x, t, d))
    && (forall t, d :: 0 <= t < NR_TASKS && d in x.opening[t] ==> d < NR_OPEN)
  }

  /** Between any two steps of any tasks. */
  predicate Good(x: Tables) {
    && Sized(x) && Exact(x.filp, x.count) && SlotsOk(x)
    && (forall f :: 0 <= f < NR_FILE && x.ready[f] ==> x.count[f] > 0)
    && x.held == Inodes(x.inode, x.ready)
  }

  // ----- changes of one descriptor --------------------------------------------

  function Slot(x: Tables, t: nat, d: nat, v: int, n: nat, opening: set<nat>): Tables
    requires Sized(x) && t < NR_TASKS && d < NR_OPEN && (x.filp[t][d] >= 0 || 0 <= v < NR_FILE)
  {
    var f: int := if v >= 0 then v else x.filp[t][d];
    Tables(x.filp[t := x.filp[t][d := v]], if 0 <= f < NR_FILE then x.count[f := n] else x.count,
           x.inode, x.ready, x.opening[t := opening], x.held)
  }

  lemma AttachSlots(x: Tables, t: nat, d: nat, f: nat)
    requires Good(x) && t < NR_TASKS && d < NR_OPEN && x.filp[t][d] == -1 && f < NR_FILE && x.ready[f]
    ensures SlotsOk(Slot(x, t, d, f, x.count[f] + 1, x.opening[t]))
  {
    var r := Slot(x, t, d, f, x.count[f] + 1, x.opening[t]);
    assert SlotOk(x, t, d);
    forall u, e | 0 <= u < NR_TASKS && 0 <= e < NR_OPEN
      ensures SlotOk(r, u, e)
    {
      assert SlotOk(x, u, e);
    }
  }

  /** A descriptor is made to name an open file. */
  lemma AttachGood(x: Tables, t: nat, d: nat, f: nat)
    requires Good(x) && t < NR_TASKS && d < NR_OPEN && x.filp[t][d] == -1 && f < NR_FILE && x.ready[f]
    ensures Good(Slot(x, t, d, f, x.count[f] + 1, x.opening[t]))
  {
    SlotChanges(x.filp, x.count, t, d, f);
    AttachSlots(x, t, d, f);
  }

  lemma ReserveSlots(x: Tables, t: nat, d: nat, f: nat)
    requires Good(x) && t < NR_TASKS && d < NR_OPEN && x.filp[t][d] == -1 && f < NR_FILE && x.count[f] == 0
    ensures SlotsOk(Slot(x, t, d, f, 1, x.opening[t] + {d}))
  {
    var r := Slot(x, t, d, f, 1, x.opening[t] + {d});
    UnusedNowhere(x.filp, x.count, f);
    forall u, e | 0 <= u < NR_TASKS && 0 <= e < NR_OPEN
      ensures SlotOk(r, u, e)
    {
      assert SlotOk(x, u, e);
    }
  }

  /** A descriptor and an unused file are reserved. */
  lemma ReserveGood(x: Tables, t: nat, d: nat, f: nat)
    requires Good(x) && t < NR_TASKS && d < NR_OPEN && x.filp[t][d] == -1 && f < NR_FILE && x.count[f] == 0
    ensures Good(Slot(x, t, d, f, 1, x.opening[t] + {d}))
  {
    SlotChanges(x.filp, x.count, t, d, f);
    ReserveSlots(x, t, d, f);
  }

  /** The reservation is taken back. */
  lemma UnreserveGood(x: Tables, t: nat, d: nat)
    requires Good(x) && t < NR_TASKS && d in x.opening[t]
    ensures d < NR_OPEN && x.filp[t][d] >= 0 && Good(Slot(x, t, d, -1, 0, x.opening[t] - {d}))
  {
    assert SlotOk(x, t, d);
    var r := Slot(x, t, d, -1, 0, x.opening[t] - {d});
    SlotChanges(x.filp, x.count, t, d, -1);
    NamedOnce(x.filp, x.count, t, d);
    forall u, e | 0 <= u < NR_TASKS && 0 <= e < NR_OPEN
      ensures SlotOk(r, u, e)
    {
      assert SlotOk(x, u, e);
    }
  }

  function Committed(x: Tables, t: nat, d: nat, ino: nat): Tables
    requires Sized(x) && t < NR_TASKS && d < NR_OPEN && x.filp[t][d] >= 0
  {
    Tables(x.filp, x.count, x.inode[x.filp[t][d] := ino], x.ready[x.filp[t][d] := true],
           x.opening[t := x.opening[t] - {d}],
           x.held + multiset{ino})
  }

  /** The reserved file gets its inode, and with it the reference. */
  lemma CommitGood(x: Tables, t: nat, d: nat, ino: nat)
    requires Good(x) && t < NR_TASKS && d in x.opening[t]
    ensures d < NR_OPEN && x.filp[t][d] >= 0 && Good(Committed(x, t, d, ino))
  {
    assert SlotOk(x, t, d);
    var r := Committed(x, t, d, ino);
    NamedOnce(x.filp, x.count, t, d);
    InodeChanges(x.inode, x.ready, x.filp[t][d], ino, true);
    forall u, e | 0 <= u < NR_TASKS && 0 <= e < NR_OPEN
      ensures SlotOk(r, u, e)
    {
      assert SlotOk(x, u, e);
    }
  }

  /** One descriptor less; with the last one the inode reference goes. */
  function Detached(x: Tables, t: nat, d: nat): Tables
    requires Sized(x) && t < NR_TASKS && d < NR_OPEN && x.filp[t][d] >= 0 && x.count[x.filp[t][d]] > 0
  {
    var f := x.filp[t][d];
    Tables(x.filp[t := x.filp[t][d := -1]], x.count[f := x.count[f] - 1], x.inode,
           if x.count[f] == 1 then x.ready[f := false] else x.ready, x.opening,
           if x.count[f] == 1 then x.held - multiset{x.inode[f]} else x.held)
  }

  lemma DetachSlots(x: Tables, t: nat, d: nat)
    requires Good(x) && t < NR_TASKS && d < NR_OPEN && d !in x.opening[t] && x.filp[t][d] >= 0
    requires x.count[x.filp[t][d]] > 0
    ensures SlotsOk(Detached(x, t, d))
  {
    var r := Detached(x, t, d);
    if x.count[x.filp[t][d]] == 1 {
      NamedOnce(x.filp, x.count, t, d);
    }
    assert SlotOk(x, t, d);
    forall u, e | 0 <= u < NR_TASKS && 0 <= e < NR_OPEN
      ensures SlotOk(r, u, e)
    {
      assert SlotOk(x, u, e);
    }
  }

  lemma MinusOne(a: multiset<nat>, b: multiset<nat>, v: nat)
    requires a + One(v, true) == b + One(v, false)
    ensures a == b - multiset{v}
  {
    assert a == (a + One(v, true)) - multiset{v};
    assert b == b + One(v, false);
  }

  lemma DetachInodes(x: Tables, f: nat)
    requires Good(x) && f < NR_FILE && x.ready[f]
    ensures x.inode[f] in x.held && Inodes(x.inode, x.ready[f := false]) == x.held - multiset{x.inode[f]}
  {
    InodeThere(x.inode, x.ready, f);
    InodeChanges(x.inode, x.ready, f, x.inode[f], false);
    assert x.inode[f := x.inode[f]] == x.inode;
    MinusOne(Inodes(x.inode, x.ready[f := false]), x.held, x.inode[f]);
  }

  lemma DetachExact(x: Tables, t: nat, d: nat)
    requires Sized(x) && Exact(x.filp, x.count) && t < NR_TASKS && d < NR_OPEN && x.filp[t][d] >= 0
    ensures x.count[x.filp[t][d]] > 0
    ensures Sized(Detached(x, t, d)) && Exact(Detached(x, t, d).filp, Detached(x, t, d).count)
  {
    SlotChanges(x.filp, x.count, t, d, -1);
  }

  lemma DetachGood(x: Tables, t: nat, d: nat)
    requires Good(x) && t < NR_TASKS && d < NR_OPEN && d !in x.opening[t] && x.filp[t][d] >= 0
    ensures x.count[x.filp[t][d]] > 0 && Good(Detached(x, t, d))
    ensures x.count[x.filp[t][d]] == 1 ==> x.inode[x.filp[t][d]] in x.held
  {
    assert SlotOk(x, t, d);
    DetachExact(x, t, d);
    DetachSlots(x, t, d);
    DetachInodes(x, x.filp[t][d]);
  }

  // ----- no descriptor open ---------------------------------------------------

  lemma {:induction false} NothingNamed(filp: seq<Row>)
    requires forall t :: 0 <= t < |filp| ==> IsNull(filp[t])
    ensures forall f :: f >= 0 ==> Named(filp)[f] == 0
  {
    if filp != [] {
      var n := |filp| - 1;
      NothingNamed(filp[..n]);
      assert forall f :: f >= 0 ==> f !in filp[n];
    }
  }

  lemma {:induction false} NothingHeld(inode: seq<nat>, ready: seq<bool>)
    requires |inode| == |ready| && forall f :: 0 <= f < |ready| ==> !ready[f]
    ensures Inodes(inode, ready) == multiset{}
  {
    if inode != [] {
      NothingHeld(inode[..|inode| - 1], ready[..|inode| - 1]);
    }
  }
}

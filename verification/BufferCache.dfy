/**
  getblk, bread, brelse and sync (fs/buffer.c) with any number of tasks
  interleaved at every point where the code may sleep.  One action is one
  stretch of kernel code between two such points.  The model has a few more
  interleaving points than the code, so every run of the code is a run here.

  Two things are abstracted.  Which unreferenced buffer getblk picks is left
  open (BufferQueues.dfy has the ring that decides it), and sys_sync is an
  action that may start writing any dirty buffer at any time.  Disk transfers
  succeed.  A read takes effect when it completes; a write takes the bytes when
  the drive is given them and clears b_dirt when it completes (kernel/hd.c), and
  a task that holds the buffer may store into it in between.  The two sectors of
  a block count as one transfer.
 */
module BufferCache {

  type Block = seq<int>
  datatype Key = Key(dev: nat, block: nat)
  datatype Io = NoIo | Reading | Writing | Sent

  /**
    A buffer head.  `queued` is false between remove_from_queues and
    insert_into_queues.  `users` are the tasks behind b_count; it is a history
    variable that no action's guard looks at except to know who may release.
   */
  datatype Buffer = Buffer(key: Key, uptodate: bool, dirt: bool, count: nat, io: Io, data: Block,
                           queued: bool, users: multiset<nat>)

  /** Where a task is inside getblk(want). */
  datatype Pc =
    | Idle
    | Start(want: Key)                                   // the label `repeat`
    | Found(want: Key, b: nat)                           // get_hash_table, waiting for the lock
    | Stale(want: Key, b: nat)                           // brelse of a buffer that changed while waiting
    | Search(want: Key)                                  // looking for an unreferenced buffer
    | Sync(want: Key, b: nat, dev: nat, i: nat)          // sync_dev(dev) at buffer i
    | SyncWait(want: Key, b: nat, dev: nat, i: nat)      // waiting for buffer i to be written
    | Assign(want: Key, b: nat)                          // about to give b its new block

  datatype State = State(bufs: seq<Buffer>, pcs: seq<Pc>, disk: imap<Key, Block>, flat: imap<Key, Block>)

  datatype Action =
    | Request(t: nat, want: Key)
    | Lookup(t: nat)
    | FoundReady(t: nat)
    | DropStale(t: nat)
    | Retry(t: nat)                                      // slept on buffer_wait
    | Pick(t: nat, b: nat)
    | SyncNext(t: nat)
    | SyncWritten(t: nat)
    | AssignBlock(t: nat)
    | StartRead(t: nat, b: nat)
    | StartSync(b: nat)
    | Transfer(b: nat)                                   // the drive takes the bytes
    | IoDone(b: nat)
    | Modify(t: nat, b: nat, data: Block)
    | Overwrite(t: nat, b: nat, data: Block)
    | Release(t: nat, b: nat)
    | Forget(t: nat, b: nat)                             // free_block drops the cached copy

  predicate Locked(x: Buffer) { x.io != NoIo }

  /** On a hash chain: in the queues and with a device. */
  predicate Hashed(x: Buffer) { x.queued && x.key.dev != 0 }

  predicate IsFor(x: Buffer, k: Key) { Hashed(x) && x.key == k }

  /** find_buffer as a linear scan: the lowest hashed buffer for k, or -1. */
  function FindFrom(bufs: seq<Buffer>, k: Key, i: nat): (b: int)
    requires i <= |bufs|
    ensures b == -1 || (i <= b < |bufs| && IsFor(bufs[b], k))
    ensures b == -1 ==> forall j :: i <= j < |bufs| ==> !IsFor(bufs[j], k)
    decreases |bufs| - i
  {
    if i == |bufs| then -1 else if IsFor(bufs[i], k) then i else FindFrom(bufs, k, i + 1)
  }

  function Find(s: State, k: Key): (b: int)
    ensures b == -1 || (0 <= b < |s.bufs| && IsFor(s.bufs[b], k))
    ensures b == -1 ==> forall j :: 0 <= j < |s.bufs| ==> !IsFor(s.bufs[j], k)
  {
    FindFrom(s.bufs, k, 0)
  }

  predicate Pcs(s: State) {
    forall t :: 0 <= t < |s.pcs| ==> PcInRange(s.pcs[t], |s.bufs|)
  }

  predicate PcInRange(p: Pc, n: nat) {
    match p
    case Idle => true
    case Start(k) => k.dev != 0
    case Search(k) => k.dev != 0
    case Found(k, b) => k.dev != 0 && b < n
    case Stale(k, b) => k.dev != 0 && b < n
    case Assign(k, b) => k.dev != 0 && b < n
    case Sync(k, b, _, i) => k.dev != 0 && b < n && i <= n
    case SyncWait(k, b, _, i) => k.dev != 0 && b < n && i < n
  }

  ghost predicate Total(m: imap<Key, Block>) { forall k: Key :: k in m }

  ghost predicate Shape(s: State) { Pcs(s) && Total(s.disk) && Total(s.flat) }

  /** When an action can happen: the task is there and not asleep on a lock. */
  ghost predicate Enabled(s: State, a: Action)
    requires Shape(s)
  {
    match a
    case Request(t, k) => t < |s.pcs| && s.pcs[t].Idle? && k.dev != 0
    case Lookup(t) => t < |s.pcs| && s.pcs[t].Start?
    case FoundReady(t) => t < |s.pcs| && s.pcs[t].Found? && !Locked(s.bufs[s.pcs[t].b])
    case DropStale(t) => t < |s.pcs| && s.pcs[t].Stale? && !Locked(s.bufs[s.pcs[t].b])
    case Retry(t) => t < |s.pcs| && s.pcs[t].Search?
    case Pick(t, b) =>
      && t < |s.pcs| && s.pcs[t].Search? && b < |s.bufs| && s.bufs[b].queued
      && s.bufs[b].count == 0 && !Locked(s.bufs[b])
    case SyncNext(t) =>
      && t < |s.pcs| && s.pcs[t].Sync?
      && (s.pcs[t].i < |s.bufs| && s.bufs[s.pcs[t].i].key.dev == s.pcs[t].dev ==> !Locked(s.bufs[s.pcs[t].i]))
    case SyncWritten(t) => t < |s.pcs| && s.pcs[t].SyncWait? && !Locked(s.bufs[s.pcs[t].i])
    case AssignBlock(t) => t < |s.pcs| && s.pcs[t].Assign?
    case StartRead(t, b) =>
      b < |s.bufs| && t < |s.pcs| && s.pcs[t].Idle? && t in s.bufs[b].users && !s.bufs[b].uptodate && !Locked(s.bufs[b])
    case StartSync(b) => b < |s.bufs| && s.bufs[b].dirt && !Locked(s.bufs[b])
    case Transfer(b) => b < |s.bufs| && s.bufs[b].io == Writing
    case IoDone(b) => b < |s.bufs| && (s.bufs[b].io == Reading || s.bufs[b].io == Sent)
    case Modify(t, b, _) => b < |s.bufs| && t < |s.pcs| && s.pcs[t].Idle? && t in s.bufs[b].users && s.bufs[b].uptodate
    case Overwrite(t, b, _) =>
      b < |s.bufs| && t < |s.pcs| && s.pcs[t].Idle? && t in s.bufs[b].users && !Locked(s.bufs[b])
    case Release(t, b) => b < |s.bufs| && t < |s.pcs| && s.pcs[t].Idle? && t in s.bufs[b].users && !Locked(s.bufs[b])
    case Forget(t, b) =>
      && b < |s.bufs| && t < |s.pcs| && s.pcs[t].Idle? && t in s.bufs[b].users
      && s.bufs[b].count == 1 && !Locked(s.bufs[b])
  }

  function Hold(x: Buffer, t: nat): Buffer { x.(count := x.count + 1, users := x.users + multiset{t}) }

  /** brelse; the panic on a zero count is ruled out by `Inv`. */
  function Drop(x: Buffer, t: nat): Buffer
    requires x.count > 0
  {
    x.(count := x.count - 1, users := x.users - multiset{t})
  }

  /** The buffer that an action changes, -1 if none. */
  ghost function Target(s: State, a: Action): (b: int)
    requires Shape(s) && Enabled(s, a)
    ensures b == -1 || 0 <= b < |s.bufs|
  {
    match a
    case Lookup(t) => Find(s, s.pcs[t].want)
    case DropStale(t) => s.pcs[t].b
    case Pick(_, b) => b
    case SyncNext(t) => if MustWrite(s, s.pcs[t]) then s.pcs[t].i else -1
    case AssignBlock(t) => s.pcs[t].b
    case StartRead(_, b) => b
    case StartSync(b) => b
    case Transfer(b) => b
    case IoDone(b) => b
    case Modify(_, b, _) => b
    case Overwrite(_, b, _) => b
    case Release(_, b) => b
    case Forget(_, b) => b
    case _ => -1
  }

  /** sync_dev has come to a dirty buffer of its device. */
  predicate MustWrite(s: State, p: Pc)
    requires p.Sync?
  {
    p.i < |s.bufs| && s.bufs[p.i].key.dev == p.dev && s.bufs[p.i].dirt
  }

  /** That buffer afterwards. */
  ghost function NewBuffer(s: State, a: Action): Buffer
    requires Shape(s) && Enabled(s, a) && Target(s, a) != -1
    requires a.DropStale? || a.Release? || a.Forget? ==> s.bufs[Target(s, a)].count > 0
  {
    var x := s.bufs[Target(s, a)];
    match a
    case Lookup(t) => Hold(x, t)
    case DropStale(t) => Drop(x, t)
    case Pick(t, _) => Hold(x, t).(queued := false)
    case AssignBlock(t) =>
      if Find(s, s.pcs[t].want) != -1
      then Buffer(Key(0, 0), false, false, 0, x.io, x.data, true, multiset{})
      else Buffer(s.pcs[t].want, false, false, x.count, x.io, x.data, true, x.users)
    case StartRead(_, _) => x.(io := Reading)
    case Transfer(_) => x.(io := Sent)
    case IoDone(_) =>
      Buffer(x.key, true, false, x.count, NoIo, if x.io == Reading then s.disk[x.key] else x.data, x.queued, x.users)
    case Modify(_, _, d) => x.(data := d, dirt := true)
    case Overwrite(_, _, d) => x.(data := d, dirt := true, uptodate := true)
    case Release(t, _) => Drop(x, t)
    case Forget(t, _) => Drop(x, t).(dirt := false, uptodate := false)
    case _ => x.(io := Writing)
  }

  /** Steps of sys_sync and of the disk interrupt. */
  predicate ByDrive(a: Action) { a.StartSync? || a.Transfer? || a.IoDone? }

  /** The program counter of the acting task afterwards. */
  ghost function NewPc(s: State, a: Action): Pc
    requires Shape(s) && Enabled(s, a) && !ByDrive(a)
  {
    var p := s.pcs[a.t];
    match a
    case Request(_, k) => Start(k)
    case Lookup(_) => if Find(s, p.want) == -1 then Search(p.want) else Found(p.want, Find(s, p.want))
    case FoundReady(_) => if s.bufs[p.b].key == p.want then Idle else Stale(p.want, p.b)
    case DropStale(_) => Start(p.want)
    case Retry(_) => Start(p.want)
    case Pick(_, b) => if s.bufs[b].dirt then Sync(p.want, b, s.bufs[b].key.dev, 0) else Assign(p.want, b)
    case SyncNext(_) =>
      if p.i == |s.bufs| then Assign(p.want, p.b)
      else if MustWrite(s, p) then SyncWait(p.want, p.b, p.dev, p.i)
      else Sync(p.want, p.b, p.dev, p.i + 1)
    case SyncWritten(_) => Sync(p.want, p.b, p.dev, p.i + 1)
    case AssignBlock(_) => if Find(s, p.want) != -1 then Start(p.want) else Idle
    case _ => p
  }

  ghost function NewDisk(s: State, a: Action): imap<Key, Block>
    requires Shape(s) && Enabled(s, a)
  {
    if a.Transfer? then s.disk[s.bufs[a.b].key := s.bufs[a.b].data] else s.disk
  }

  /** Stores through a buffer are what counts as writing; a freed block falls back to what is on disk. */
  ghost function NewFlat(s: State, a: Action): imap<Key, Block>
    requires Shape(s) && Enabled(s, a)
  {
    match a
    case Modify(_, b, d) => s.flat[s.bufs[b].key := d]
    case Overwrite(_, b, d) => s.flat[s.bufs[b].key := d]
    case Forget(_, b) => s.flat[s.bufs[b].key := s.disk[s.bufs[b].key]]
    case _ => s.flat
  }

  ghost function Next(s: State, a: Action): State
    requires Shape(s) && Enabled(s, a)
    requires a.DropStale? ==> s.bufs[s.pcs[a.t].b].count > 0
    requires a.Release? || a.Forget? ==> s.bufs[a.b].count > 0
  {
    State(if Target(s, a) == -1 then s.bufs else s.bufs[Target(s, a) := NewBuffer(s, a)],
          if ByDrive(a) then s.pcs else s.pcs[a.t := NewPc(s, a)],
          NewDisk(s, a), NewFlat(s, a))
  }

  // ----- the structural invariant ---------------------------------------------

  /** The task has taken buffer b out of the queues. */
  predicate Evicts(p: Pc, b: nat) { (p.Sync? || p.SyncWait? || p.Assign?) && p.b == b }

  predicate BeingWritten(x: Buffer) { x.io == Writing || x.io == Sent }

  predicate BufOk(s: State, b: nat)
    requires b < |s.bufs|
  {
    var x := s.bufs[b];
    && x.count == |x.users|
    && (x.dirt ==> x.uptodate && x.key.dev != 0)
    && (BeingWritten(x) ==> x.dirt)
    && (x.io == Reading ==> x.queued && !x.uptodate && x.key.dev != 0)
    && (x.queued && x.key.dev == 0 ==> x.users == multiset{})
    && (!x.queued ==> x.count == 1 && forall t :: t in x.users ==> t < |s.pcs| && Evicts(s.pcs[t], b))
  }

  predicate PcOk(s: State, t: nat)
    requires Pcs(s) && t < |s.pcs|
  {
    var p := s.pcs[t];
    && (p.Found? || p.Stale? ==> t in s.bufs[p.b].users)
    && (p.Sync? || p.SyncWait? || p.Assign? ==> s.bufs[p.b].users == multiset{t} && !s.bufs[p.b].queued)
    && (p.Sync? || p.SyncWait? ==> s.bufs[p.b].key.dev == p.dev)
    && (p.Assign? || (p.Sync? && p.b < p.i) || (p.SyncWait? && p.b < p.i) ==>
         !s.bufs[p.b].dirt && s.bufs[p.b].io == NoIo)
    && (p.SyncWait? && p.b == p.i ==> BeingWritten(s.bufs[p.b]) || (!s.bufs[p.b].dirt && s.bufs[p.b].io == NoIo))
  }

  /** At most one hashed buffer for each block. */
  predicate Unique(s: State) {
    forall b, c :: 0 <= b < c < |s.bufs| && Hashed(s.bufs[b]) && Hashed(s.bufs[c]) ==> s.bufs[b].key != s.bufs[c].key
  }

  ghost predicate Inv(s: State) {
    && Shape(s) && Unique(s)
    && (forall b :: 0 <= b < |s.bufs| ==> BufOk(s, b))
    && (forall t :: 0 <= t < |s.pcs| ==> PcOk(s, t))
  }

  /** buffer_init with every task outside getblk. */
  ghost predicate Init(s: State) {
    && Total(s.disk) && s.flat == s.disk
    && (forall t :: 0 <= t < |s.pcs| ==> s.pcs[t].Idle?)
    && (forall b :: 0 <= b < |s.bufs| ==>
         s.bufs[b] == Buffer(Key(0, 0), false, false, 0, NoIo, s.bufs[b].data, true, multiset{}))
  }

  lemma InitInv(s: State)
    requires Init(s)
    ensures Inv(s)
  {
  }

  /** brelse never meets a zero count. */
  lemma NoFreeOfFree(s: State, a: Action)
    requires Inv(s) && Enabled(s, a)
    ensures a.DropStale? ==> s.bufs[s.pcs[a.t].b].count > 0
    ensures a.Release? || a.Forget? ==> s.bufs[a.b].count > 0
  {
    if a.DropStale? {
      assert PcOk(s, a.t) && BufOk(s, s.pcs[a.t].b);
    }
    if a.Release? || a.Forget? {
      assert BufOk(s, a.b);
    }
  }

  /** getblk is about to return with the buffer of its block. */
  ghost predicate Returns(s: State, a: Action)
    requires Shape(s) && Enabled(s, a)
  {
    || (a.FoundReady? && s.bufs[s.pcs[a.t].b].key == s.pcs[a.t].want)
    || (a.AssignBlock? && Find(s, s.pcs[a.t].want) == -1)
  }

  /**
    new_block asks getblk for a block whose bit was clear, and panics when the
    count is not one.  Exactly when: if and only if getblk found the block hashed,
    with a reference besides its own.
   */
  lemma NewBlockPanicsIff(s: State, a: Action)
    requires Inv(s) && Enabled(s, a) && Returns(s, a)
    ensures var b := s.pcs[a.t].b;
            Next(s, a).bufs[b].count != 1 <==> a.FoundReady? && s.bufs[b].users - multiset{a.t} != multiset{}
  {
    var b := s.pcs[a.t].b;
    assert PcOk(s, a.t) && BufOk(s, b);
    var users := s.bufs[b].users;
    assert users == multiset{a.t} + (users - multiset{a.t});
  }

  /** r differs from s at most in buffer b and in the program counter of task t. */
  predicate Local(s: State, r: State, b: nat, t: nat) {
    && |r.bufs| == |s.bufs| && |r.pcs| == |s.pcs|
    && (forall c :: 0 <= c < |s.bufs| && c != b ==> r.bufs[c] == s.bufs[c])
    && (forall u :: 0 <= u < |s.pcs| && u != t ==> r.pcs[u] == s.pcs[u])
  }

  /** What a local change has to look after. */
  lemma LocalInv(s: State, r: State, b: nat, t: nat)
    requires Inv(s) && Local(s, r, b, t) && Total(r.disk) && Total(r.flat)
    requires t < |s.pcs| ==> PcInRange(r.pcs[t], |s.bufs|)
    requires t < |s.pcs| && Pcs(r) ==> PcOk(r, t)
    requires b < |s.bufs| ==> BufOk(r, b)
    requires b < |s.bufs| ==> forall u :: u != t && u in s.bufs[b].users ==> u in r.bufs[b].users
    requires b < |s.bufs| && Pcs(r) ==> forall u :: 0 <= u < |s.pcs| && u != t && Evicts(s.pcs[u], b) ==> PcOk(r, u)
    requires t < |s.pcs| ==> forall c :: 0 <= c < |s.bufs| && c != b && Evicts(s.pcs[t], c) ==> Evicts(r.pcs[t], c)
    requires b < |s.bufs| && Hashed(r.bufs[b]) ==> forall c :: 0 <= c < |s.bufs| && c != b && Hashed(s.bufs[c]) ==>
              s.bufs[c].key != r.bufs[b].key
    ensures Inv(r)
  {
    forall u | 0 <= u < |r.pcs|
      ensures PcInRange(r.pcs[u], |r.bufs|)
    {
      assert PcInRange(s.pcs[u], |s.bufs|);
    }
    forall c | 0 <= c < |r.bufs|
      ensures BufOk(r, c)
    {
      assert BufOk(s, c);
    }
    forall u | 0 <= u < |r.pcs|
      ensures PcOk(r, u)
    {
      assert PcOk(s, u);
    }
  }

  /** Steps that only move a task's program counter. */
  lemma InvPcStep(s: State, a: Action)
    requires Inv(s) && Enabled(s, a)
    requires a.Request? || a.FoundReady? || a.Retry? || a.SyncWritten?
    ensures Inv(Next(s, a))
  {
    assert PcOk(s, a.t) && PcInRange(s.pcs[a.t], |s.bufs|);
    LocalInv(s, Next(s, a), |s.bufs|, a.t);
  }

  /** A task that is evicting b is undisturbed as long as b is only held, written or finished by others. */
  lemma OthersKeep(s: State, r: State, b: nat, t: nat)
    requires Inv(s) && Local(s, r, b, t)
    requires b < |s.bufs| ==> forall u :: 0 <= u < |s.pcs| && u != t && Evicts(s.pcs[u], b) ==>
              Undisturbed(s.bufs[b], r.bufs[b])
    ensures b < |s.bufs| && Pcs(r) ==> forall u :: 0 <= u < |s.pcs| && u != t && Evicts(s.pcs[u], b) ==> PcOk(r, u)
  {
    if b < |s.bufs| && Pcs(r) {
      forall u | 0 <= u < |s.pcs| && u != t && Evicts(s.pcs[u], b)
        ensures PcOk(r, u)
      {
        assert PcOk(s, u);
      }
    }
  }

  lemma Evictors(s: State, b: nat)
    requires Inv(s)
    ensures b < |s.bufs| ==> forall u :: 0 <= u < |s.pcs| && Evicts(s.pcs[u], b) ==>
              s.bufs[b].users == multiset{u} && !s.bufs[b].queued
  {
    forall u | 0 <= u < |s.pcs| && b < |s.bufs| && Evicts(s.pcs[u], b)
      ensures s.bufs[b].users == multiset{u} && !s.bufs[b].queued
    {
      assert PcOk(s, u);
    }
  }

  predicate Undisturbed(x: Buffer, y: Buffer) {
    && y.users == x.users && y.queued == x.queued && y.key == x.key
    && (!x.dirt && x.io == NoIo ==> !y.dirt && y.io == NoIo)
    && (BeingWritten(x) ==> BeingWritten(y) || (!y.dirt && y.io == NoIo))
  }

  lemma InvLookup(s: State, a: Action)
    requires Inv(s) && Enabled(s, a) && a.Lookup?
    ensures Inv(Next(s, a))
  {
    var p := s.pcs[a.t];
    assert PcOk(s, a.t) && PcInRange(p, |s.bufs|);
    var b := if Find(s, p.want) == -1 then |s.bufs| else Find(s, p.want);
    if b < |s.bufs| {
      assert BufOk(s, b);
    }
    var r := Next(s, a);
    Evictors(s, b);
    OthersKeep(s, r, b, a.t);
    LocalInv(s, r, b, a.t);
  }

  lemma InvDropStale(s: State, a: Action)
    requires Inv(s) && Enabled(s, a) && a.DropStale? && s.bufs[s.pcs[a.t].b].count > 0
    ensures Inv(Next(s, a))
  {
    var p := s.pcs[a.t];
    assert PcOk(s, a.t) && PcInRange(p, |s.bufs|);
    var b := p.b;
    if b < |s.bufs| {
      assert BufOk(s, b);
    }
    var r := Next(s, a);
    Evictors(s, b);
    OthersKeep(s, r, b, a.t);
    LocalInv(s, r, b, a.t);
  }

  lemma InvPick(s: State, a: Action)
    requires Inv(s) && Enabled(s, a) && a.Pick?
    ensures Inv(Next(s, a))
  {
    var p := s.pcs[a.t];
    assert PcOk(s, a.t) && PcInRange(p, |s.bufs|);
    var b := a.b;
    if b < |s.bufs| {
      assert BufOk(s, b);
    }
    var r := Next(s, a);
    Evictors(s, b);
    OthersKeep(s, r, b, a.t);
    LocalInv(s, r, b, a.t);
  }

  lemma InvSyncNext(s: State, a: Action)
    requires Inv(s) && Enabled(s, a) && a.SyncNext?
    ensures Inv(Next(s, a))
  {
    var p := s.pcs[a.t];
    assert PcOk(s, a.t) && PcInRange(p, |s.bufs|);
    var b := p.i;
    if b < |s.bufs| {
      assert BufOk(s, b);
    }
    var r := Next(s, a);
    Evictors(s, b);
    OthersKeep(s, r, b, a.t);
    LocalInv(s, r, b, a.t);
  }

  lemma InvAssign(s: State, a: Action)
    requires Inv(s) && Enabled(s, a) && a.AssignBlock?
    ensures Inv(Next(s, a))
  {
    var p := s.pcs[a.t];
    assert PcOk(s, a.t) && PcInRange(p, |s.bufs|);
    var b := p.b;
    if b < |s.bufs| {
      assert BufOk(s, b);
    }
    var r := Next(s, a);
    Evictors(s, b);
    OthersKeep(s, r, b, a.t);
    LocalInv(s, r, b, a.t);
  }

  /** A buffer held by a task outside getblk is in the queues; nobody is evicting it. */
  lemma HeldInQueues(s: State, b: nat, t: nat)
    requires Inv(s) && b < |s.bufs| && t < |s.pcs| && s.pcs[t].Idle? && t in s.bufs[b].users
    ensures Hashed(s.bufs[b]) && BufOk(s, b)
    ensures forall u :: 0 <= u < |s.pcs| ==> !Evicts(s.pcs[u], b)
  {
    assert BufOk(s, b);
    Evictors(s, b);
  }

  /** What a task outside getblk does to a buffer it holds. */
  lemma InvUseStep(s: State, a: Action)
    requires Inv(s) && Enabled(s, a) && (a.StartRead? || a.Modify? || a.Overwrite?)
    ensures Inv(Next(s, a))
  {
    HeldInQueues(s, a.b, a.t);
    var r := Next(s, a);
    assert BufOk(r, a.b);
    LocalInv(s, r, a.b, a.t);
  }

  lemma InvReleaseStep(s: State, a: Action)
    requires Inv(s) && Enabled(s, a) && (a.Release? || a.Forget?) && s.bufs[a.b].count > 0
    ensures Inv(Next(s, a))
  {
    HeldInQueues(s, a.b, a.t);
    var r := Next(s, a);
    assert BufOk(r, a.b);
    LocalInv(s, r, a.b, a.t);
  }

  lemma InvIoStep(s: State, a: Action)
    requires Inv(s) && Enabled(s, a) && ByDrive(a)
    ensures Inv(Next(s, a))
  {
    assert BufOk(s, a.b);
    var r := Next(s, a);
    OthersKeep(s, r, a.b, |s.pcs|);
    LocalInv(s, r, a.b, |s.pcs|);
  }

  lemma InvStep(s: State, a: Action)
    requires Inv(s) && Enabled(s, a)
    requires a.DropStale? ==> s.bufs[s.pcs[a.t].b].count > 0
    requires a.Release? || a.Forget? ==> s.bufs[a.b].count > 0
    ensures Inv(Next(s, a))
  {
    match a
    case Request(_, _) => InvPcStep(s, a);
    case FoundReady(_) => InvPcStep(s, a);
    case Retry(_) => InvPcStep(s, a);
    case SyncWritten(_) => InvPcStep(s, a);
    case Lookup(_) => InvLookup(s, a);
    case DropStale(_) => InvDropStale(s, a);
    case Pick(_, _) => InvPick(s, a);
    case SyncNext(_) => InvSyncNext(s, a);
    case AssignBlock(_) => InvAssign(s, a);
    case StartSync(_) => InvIoStep(s, a);
    case Transfer(_) => InvIoStep(s, a);
    case IoDone(_) => InvIoStep(s, a);
    case Release(_, _) => InvReleaseStep(s, a);
    case Forget(_, _) => InvReleaseStep(s, a);
    case _ => InvUseStep(s, a);
  }
}

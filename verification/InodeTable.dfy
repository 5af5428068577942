/**
  The in-core inode table of fs/inode.c with any number of tasks interleaved at
  every point where the code may sleep: get_empty_inode, iget, iput,
  get_pipe_inode, new_inode (fs/bitmap.c) and sync_inodes.  One action is one
  stretch of code between two such points; there are a few more interleaving
  points than in the code, so every run of the code is a run here.

  Which unreferenced slot get_empty_inode tries is left open.  Reading or
  writing the inode's block is one atomic transfer that succeeds.
 */
module InodeTable {

  datatype Key = Key(dev: nat, num: nat)

  /** The part of an inode that is on disk. */
  datatype Content = Content(nlinks: nat, rest: int)

  /** i_lock, with the task that set it; -1 stands for sync_inodes. */
  datatype Lock = Open | Reads(task: int) | Writes(task: int)

  /** A slot of inode_table; i_count is the number of references in `users`. */
  datatype Slot = Slot(key: Key, users: multiset<nat>, lock: Lock, dirt: bool, pipe: bool, content: Content)

  datatype Purpose = ForIget(want: Key) | ForNew(dev: nat) | ForPipe

  /** Where a task is. */
  datatype Pc =
    | Idle
    | Choose(why: Purpose)                         // get_empty_inode, looking for a slot
    | Chosen(why: Purpose, i: nat)                 // waiting for slot i
    | Cleaning(why: Purpose, i: nat)               // writing slot i
    | Blanked(why: Purpose, e: nat)                // holds the empty slot e
    | Found(want: Key, e: nat, i: nat)             // iget, waiting for the match i
    | Drop(e: nat)                                 // iget, putting the empty slot back
    | Reading(e: nat)                              // read_inode
    | Put(i: nat)                                  // iput, waiting for i
    | PutWrite(i: nat)                             // iput, writing i
    | PutAgain(i: nat)                             // iput, waiting for i before `repeat`
    | Freeing(i: nat)                              // iput, in truncate before free_inode

  /** A write of slot i under way when free_inode cleared the slot; it waits for this block of inodes. */
  datatype Stray = Stray(i: nat, dev: nat, block: nat, task: int)

  /** `used` is the inode bitmap: the numbers that are allocated. */
  datatype State =
    State(slots: seq<Slot>, pcs: seq<Pc>, used: iset<Key>, disk: imap<Key, Content>, flat: imap<Key, Content>,
          stray: multiset<Stray>)

  datatype Action =
    | Get(t: nat, why: Purpose)
    | Choice(t: nat, i: nat)
    | ChosenReady(t: nat)
    | Scan(t: nat)
    | FoundReady(t: nat)
    | DropEmpty(t: nat)
    | NameNew(t: nat, num: nat)
    | MakePipe(t: nat)
    | GiveUp(t: nat)
    | StartPut(t: nat, i: nat)
    | PutReady(t: nat)
    | Repeat(t: nat)
    | FreeDone(t: nat)
    | Modify(t: nat, i: nat, content: Content)
    | Share(t: nat, u: nat, i: nat)                // i_count++, for the task itself or its child
    | StartSync(i: nat)
    | IoDone(i: nat)
    | WriteOn(z: Stray)

  const NOBODY := Key(0, 0)

  function Empty(users: multiset<nat>): Slot { Slot(NOBODY, users, Open, false, false, Content(0, 0)) }

  /** The scan of iget: the lowest slot with this key, or -1. */
  function FindFrom(slots: seq<Slot>, k: Key, i: nat): (j: int)
    requires i <= |slots|
    ensures j == -1 || (i <= j < |slots| && slots[j].key == k)
    ensures j == -1 ==> forall c :: i <= c < |slots| ==> slots[c].key != k
    decreases |slots| - i
  {
    if i == |slots| then -1 else if slots[i].key == k then i else FindFrom(slots, k, i + 1)
  }

  function Find(s: State, k: Key): (j: int)
    ensures j == -1 || (0 <= j < |s.slots| && s.slots[j].key == k)
    ensures j == -1 ==> forall c :: 0 <= c < |s.slots| ==> s.slots[c].key != k
  {
    FindFrom(s.slots, k, 0)
  }

  predicate PurposeOk(p: Purpose) {
    match p
    case ForIget(k) => k.dev != 0
    case ForNew(d) => d != 0
    case ForPipe => true
  }

  predicate PcInRange(p: Pc, n: nat) {
    match p
    case Idle => true
    case Choose(w) => PurposeOk(w)
    case Chosen(w, i) => PurposeOk(w) && i < n
    case Cleaning(w, i) => PurposeOk(w) && i < n
    case Blanked(w, e) => PurposeOk(w) && e < n
    case Found(k, e, i) => k.dev != 0 && e < n && i < n
    case Drop(e) => e < n
    case Reading(e) => e < n
    case Put(i) => i < n
    case PutWrite(i) => i < n
    case PutAgain(i) => i < n
    case Freeing(i) => i < n
  }

  predicate Pcs(s: State) { forall t :: 0 <= t < |s.pcs| ==> PcInRange(s.pcs[t], |s.slots|) }

  ghost predicate Total(m: imap<Key, Content>) { forall k: Key :: k in m }

  ghost predicate Shape(s: State) { Pcs(s) && Total(s.disk) && Total(s.flat) }

  /** The slot whose lock the task waits for. */
  predicate Waiting(p: Pc) { p.Chosen? || p.Found? || p.Put? || p.PutAgain? }

  predicate Unlocked(s: State, i: nat) { i < |s.slots| && s.slots[i].lock.Open? }

  predicate Holds(s: State, t: nat, i: nat) { t < |s.pcs| && i < |s.slots| && s.pcs[t].Idle? && t in s.slots[i].users }

  ghost predicate Enabled(s: State, a: Action)
    requires Shape(s)
  {
    match a
    case Get(t, why) => t < |s.pcs| && s.pcs[t].Idle? && PurposeOk(why)
    case Choice(t, i) => t < |s.pcs| && s.pcs[t].Choose? && i < |s.slots| && s.slots[i].users == multiset{}
    case ChosenReady(t) => t < |s.pcs| && s.pcs[t].Chosen? && Unlocked(s, s.pcs[t].i)
    case Scan(t) => t < |s.pcs| && s.pcs[t].Blanked? && s.pcs[t].why.ForIget?
    case FoundReady(t) => t < |s.pcs| && s.pcs[t].Found? && Unlocked(s, s.pcs[t].i)
    case DropEmpty(t) => t < |s.pcs| && s.pcs[t].Drop?
    case NameNew(t, num) =>
      // new_inode looks at the bitmap only, not at the table
      t < |s.pcs| && s.pcs[t].Blanked? && s.pcs[t].why.ForNew? && Key(s.pcs[t].why.dev, num) !in s.used
    case MakePipe(t) => t < |s.pcs| && s.pcs[t].Blanked? && s.pcs[t].why.ForPipe?
    case GiveUp(t) => t < |s.pcs| && s.pcs[t].Blanked? && !s.pcs[t].why.ForIget?
    case StartPut(t, i) => Holds(s, t, i)
    case PutReady(t) => t < |s.pcs| && s.pcs[t].Put? && Unlocked(s, s.pcs[t].i)
    case Repeat(t) => t < |s.pcs| && s.pcs[t].PutAgain? && Unlocked(s, s.pcs[t].i)
    case FreeDone(t) => t < |s.pcs| && s.pcs[t].Freeing?
    case Modify(t, i, _) => Holds(s, t, i) && s.slots[i].key.dev != 0
    case Share(t, u, i) => Holds(s, t, i) && s.slots[i].key.dev != 0 && u < |s.pcs| && s.pcs[u].Idle?
    case StartSync(i) => Unlocked(s, i) && s.slots[i].dirt && !s.slots[i].pipe
    case IoDone(i) => i < |s.slots| && !s.slots[i].lock.Open? && s.slots[i].lock.task < |s.pcs|
    case WriteOn(z) => z in s.stray && z.i < |s.slots| && z.task < |s.pcs|
  }

  /** free_inode panics: "trying to free inode with count", "with links", or "bit already cleared". */
  ghost predicate Panics(s: State, t: nat)
    requires t < |s.pcs| && s.pcs[t].Freeing? && Pcs(s)
  {
    var x := s.slots[s.pcs[t].i];
    x.users != multiset{t} || x.content.nlinks != 0 || x.key !in s.used
  }

  /**
    free_inode clears a slot that somebody is writing.  The code does not look at
    the lock: it clears the lock and the number too, and the write goes on with
    whatever number the slot has by then.
   */
  predicate UnderTransfer(s: State, t: nat)
    requires t < |s.pcs| && s.pcs[t].Freeing? && Pcs(s)
  {
    !s.slots[s.pcs[t].i].lock.Open?
  }

  ghost predicate FreesCleanly(s: State, t: nat)
    requires t < |s.pcs| && s.pcs[t].Freeing? && Pcs(s)
  {
    !Panics(s, t) && !UnderTransfer(s, t)
  }

  function BlockOf(num: nat): nat { if num == 0 then 0 else (num - 1) / 32 }

  /**
    The inode that a write comes to: write_inode looks for the block before it
    sleeps and for the place in the block afterwards, by the number that the slot
    has then.  Number zero, a cleared slot, counts as the last of 32 places.
   */
  function Misplaced(z: Stray, num: nat): Key { Key(z.dev, 32 * z.block + (num + 31) % 32 + 1) }

  /** As long as the slot keeps its number this is the inode itself. */
  lemma PlacedRight(k: Key, i: nat, task: int)
    requires k.num >= 1
    ensures Misplaced(Stray(i, k.dev, BlockOf(k.num), task), k.num) == k
  {
    assert k.num - 1 == 32 * ((k.num - 1) / 32) + (k.num - 1) % 32;
  }

  /** new_inode takes a number that no slot has. */
  ghost predicate NamesAfresh(s: State, a: Action)
    requires Shape(s) && Enabled(s, a) && a.NameNew?
  {
    Find(s, Key(s.pcs[a.t].why.dev, a.num)) == -1
  }

  ghost predicate Clean(s: State, a: Action)
    requires Shape(s) && Enabled(s, a)
  {
    && (a.FreeDone? ==> FreesCleanly(s, a.t))
    && (a.NameNew? ==> NamesAfresh(s, a))
  }

  /** From the label `repeat` of iput. */
  function Repeated(x: Slot, t: nat, i: nat): (Slot, Pc) {
    if x.content.nlinks == 0 then (x, Freeing(i))
    else if x.dirt then (x.(lock := Writes(t)), PutWrite(i))
    else (x.(users := x.users - multiset{t}), Idle)
  }

  function PutStep(x: Slot, t: nat, i: nat): (Slot, Pc) {
    if x.pipe then
      if |x.users| == 1 then (Slot(x.key, multiset{}, x.lock, false, false, x.content), Idle)
      else (x.(users := x.users - multiset{t}), Idle)
    else if x.key.dev == 0 || |x.users| > 1 then (x.(users := x.users - multiset{t}), Idle)
    else Repeated(x, t, i)
  }

  /** The slot an action changes, -1 if none. */
  ghost function Target(s: State, a: Action): (i: int)
    requires Shape(s) && Enabled(s, a)
    ensures i == -1 || 0 <= i < |s.slots|
  {
    match a
    case ChosenReady(t) => s.pcs[t].i
    case Scan(t) => if Find(s, s.pcs[t].why.want) == -1 then s.pcs[t].e else -1
    case FoundReady(t) => s.pcs[t].i
    case DropEmpty(t) => s.pcs[t].e
    case NameNew(t, _) => s.pcs[t].e
    case MakePipe(t) => s.pcs[t].e
    case GiveUp(t) => s.pcs[t].e
    case PutReady(t) => s.pcs[t].i
    case Repeat(t) => s.pcs[t].i
    case FreeDone(t) => s.pcs[t].i
    case Modify(_, i, _) => i
    case Share(_, _, i) => i
    case StartSync(i) => i
    case IoDone(i) => i
    case WriteOn(z) => z.i
    case _ => -1
  }

  ghost function NewSlot(s: State, a: Action): Slot
    requires Shape(s) && Enabled(s, a) && Target(s, a) != -1
  {
    var x := s.slots[Target(s, a)];
    match a
    case ChosenReady(t) =>
      if x.dirt then x.(lock := Writes(t)) else if x.users == multiset{} then Empty(multiset{t}) else x
    case Scan(t) => Slot(s.pcs[t].why.want, x.users, Reads(t), false, false, x.content)
    case FoundReady(t) => if x.key == s.pcs[t].want then x.(users := x.users + multiset{t}) else x
    case DropEmpty(t) => x.(users := x.users - multiset{t})
    case NameNew(t, num) => Slot(Key(s.pcs[t].why.dev, num), x.users, x.lock, true, false, Content(1, x.content.rest))
    case MakePipe(t) => x.(users := multiset{t, t}, pipe := true)
    case GiveUp(t) => x.(users := x.users - multiset{t})
    case PutReady(t) => PutStep(x, t, s.pcs[t].i).0
    case Repeat(t) => Repeated(x, t, s.pcs[t].i).0
    case FreeDone(_) => Empty(multiset{})
    case Modify(_, _, c) => x.(content := c, dirt := true)
    case Share(_, u, _) => x.(users := x.users + multiset{u})
    case StartSync(_) => x.(lock := Writes(-1))
    case WriteOn(_) => x.(lock := Open, dirt := false)
    case IoDone(_) =>
      if x.lock.Reads? then x.(lock := Open, content := s.disk[x.key]) else x.(lock := Open, dirt := false)
    case _ => x
  }

  /** The task that moves, |pcs| if none. */
  ghost function Mover(s: State, a: Action): (t: nat)
    requires Shape(s) && Enabled(s, a)
    ensures t <= |s.pcs|
  {
    match a
    case StartSync(_) => |s.pcs|
    case Share(_, _, _) => |s.pcs|
    case WriteOn(z) => if z.task < 0 then |s.pcs| else z.task
    case IoDone(i) => if s.slots[i].lock.task < 0 then |s.pcs| else s.slots[i].lock.task
    case _ => a.t
  }

  function AfterIo(p: Pc): Pc {
    match p
    case Cleaning(w, i) => Chosen(w, i)
    case PutWrite(i) => PutAgain(i)
    case _ => Idle
  }

  ghost function NewPc(s: State, a: Action): (p: Pc)
    requires Shape(s) && Enabled(s, a) && Mover(s, a) < |s.pcs|
    ensures PcInRange(p, |s.slots|)
  {
    var p := s.pcs[Mover(s, a)];
    assert PcInRange(p, |s.slots|);
    match a
    case Get(_, why) => Choose(why)
    case Choice(_, i) => Chosen(p.why, i)
    case ChosenReady(_) =>
      if s.slots[p.i].dirt then Cleaning(p.why, p.i)
      else if s.slots[p.i].users == multiset{} then Blanked(p.why, p.i) else Choose(p.why)
    case Scan(_) => if Find(s, p.why.want) == -1 then Reading(p.e) else Found(p.why.want, p.e, Find(s, p.why.want))
    case FoundReady(_) => if s.slots[p.i].key == p.want then Drop(p.e) else Blanked(ForIget(p.want), p.e)
    case StartPut(_, i) => Put(i)
    case PutReady(t) => PutStep(s.slots[p.i], t, p.i).1
    case Repeat(t) => Repeated(s.slots[p.i], t, p.i).1
    case Modify(_, _, _) => p
    case IoDone(_) => AfterIo(p)
    case WriteOn(_) => AfterIo(p)
    case _ => Idle
  }

  ghost function NewDisk(s: State, a: Action): (d: imap<Key, Content>)
    requires Shape(s) && Enabled(s, a)
    ensures Total(d)
  {
    if a.IoDone? && s.slots[a.i].lock.Writes? then s.disk[s.slots[a.i].key := s.slots[a.i].content]
    else if a.WriteOn? then s.disk[Misplaced(a.z, s.slots[a.z.i].key.num) := s.slots[a.z.i].content]
    else s.disk
  }

  /** What counts as the inode: the last change made through any reference.  A freed inode is whatever is on disk. */
  ghost function NewFlat(s: State, a: Action): (f: imap<Key, Content>)
    requires Shape(s) && Enabled(s, a)
    ensures Total(f)
  {
    match a
    case Modify(_, i, c) => s.flat[s.slots[i].key := c]
    case NameNew(_, _) => s.flat[NewSlot(s, a).key := NewSlot(s, a).content]
    case FreeDone(t) => s.flat[s.slots[s.pcs[t].i].key := s.disk[s.slots[s.pcs[t].i].key]]
    case _ => s.flat
  }

  /** new_inode sets a bit and free_inode clears one. */
  ghost function NewUsed(s: State, a: Action): iset<Key>
    requires Shape(s) && Enabled(s, a)
  {
    match a
    case NameNew(t, num) => s.used + iset{Key(s.pcs[t].why.dev, num)}
    case FreeDone(t) => s.used - iset{s.slots[s.pcs[t].i].key}
    case _ => s.used
  }

  ghost function NewStray(s: State, a: Action): multiset<Stray>
    requires Shape(s) && Enabled(s, a)
  {
    match a
    case FreeDone(t) =>
      var i := s.pcs[t].i;
      var x := s.slots[i];
      if UnderTransfer(s, t) then s.stray + multiset{Stray(i, x.key.dev, BlockOf(x.key.num), x.lock.task)}
      else s.stray
    case WriteOn(z) => s.stray - multiset{z}
    case _ => s.stray
  }

  ghost function Next(s: State, a: Action): (r: State)
    requires Shape(s) && Enabled(s, a)
    ensures Shape(r) && |r.slots| == |s.slots| && |r.pcs| == |s.pcs|
  {
    State(if Target(s, a) == -1 then s.slots else s.slots[Target(s, a) := NewSlot(s, a)],
          if Mover(s, a) == |s.pcs| then s.pcs else s.pcs[Mover(s, a) := NewPc(s, a)],
          NewUsed(s, a), NewDisk(s, a), NewFlat(s, a), NewStray(s, a))
  }

  // ----- the invariant --------------------------------------------------------

  /** The task has locked slot i. */
  predicate Locks(p: Pc, i: nat) { (p.Cleaning? && p.i == i) || (p.PutWrite? && p.i == i) || (p.Reading? && p.e == i) }

  predicate SlotOk(s: State, i: nat)
    requires i < |s.slots|
  {
    var x := s.slots[i];
    && (x.key.dev == 0 ==> x.key == NOBODY && !x.dirt && x.lock.Open?)
    && (x.pipe ==> x.key.dev == 0)
    && (!x.lock.Open? ==> x.lock.task < |s.pcs|)
    && (x.lock.Reads? ==>
          x.lock.task >= 0 && s.pcs[x.lock.task] == Reading(i) && x.users == multiset{x.lock.task} && !x.dirt)
    && (x.lock.Writes? ==>
          && x.dirt
          && (x.lock.task == -1
              || (x.lock.task >= 0 && Locks(s.pcs[x.lock.task], i) && !s.pcs[x.lock.task].Reading?)))
  }

  predicate PcOk(s: State, t: nat)
    requires Pcs(s) && t < |s.pcs|
  {
    var p := s.pcs[t];
    && (p.Cleaning? ==> s.slots[p.i].lock == Writes(t))
    && (p.Blanked? || p.Found? || p.Drop? ==> s.slots[p.e] == Empty(multiset{t}))
    && (p.Reading? ==> s.slots[p.e].lock == Reads(t))
    && (p.Put? || p.PutWrite? || p.PutAgain? || p.Freeing? ==> t in s.slots[p.i].users && !s.slots[p.i].lock.Reads?)
    && (p.PutWrite? ==> s.slots[p.i].lock == Writes(t))
    && (p.PutAgain? || p.Freeing? ==> s.slots[p.i].key.dev != 0)
  }

  /** At most one slot for each inode. */
  predicate Unique(s: State) {
    forall i, j :: 0 <= i < j < |s.slots| && s.slots[i].key.dev != 0 ==> s.slots[i].key != s.slots[j].key
  }

  ghost predicate Inv(s: State) {
    && Shape(s) && Unique(s) && s.stray == multiset{}
    && (forall i :: 0 <= i < |s.slots| ==> SlotOk(s, i))
    && (forall t :: 0 <= t < |s.pcs| ==> PcOk(s, t))
  }

  ghost predicate Init(s: State) {
    && Total(s.disk) && s.flat == s.disk && s.stray == multiset{}
    && (forall t :: 0 <= t < |s.pcs| ==> s.pcs[t].Idle?)
    && (forall i :: 0 <= i < |s.slots| ==> s.slots[i] == Empty(multiset{}))
  }

  lemma InitInv(s: State)
    requires Init(s)
    ensures Inv(s)
  {
  }

  /** r differs from s at most in slot i and in the program counter of task t. */
  predicate Local(s: State, r: State, i: nat, t: nat) {
    && |r.slots| == |s.slots| && |r.pcs| == |s.pcs|
    && (forall c :: 0 <= c < |s.slots| && c != i ==> r.slots[c] == s.slots[c])
    && (forall u :: 0 <= u < |s.pcs| && u != t ==> r.pcs[u] == s.pcs[u])
  }

  /** What another task u relies on in a slot. */
  predicate Respects(x: Slot, y: Slot, u: nat) {
    && (u in x.users ==> u in y.users && (!x.lock.Reads? ==> !y.lock.Reads?) && (x.key.dev != 0 ==> y.key.dev != 0))
    && (x.lock == Writes(u) || x.lock == Reads(u) ==> y.lock == x.lock)
    && (x == Empty(multiset{u}) ==> y == x)
  }

  /** What a local change has to look after. */
  lemma LocalInv(s: State, r: State, i: nat, t: nat)
    requires Inv(s) && Local(s, r, i, t) && Total(r.disk) && Total(r.flat) && r.stray == multiset{}
    requires t < |s.pcs| ==> PcInRange(r.pcs[t], |s.slots|)
    requires t < |s.pcs| && Pcs(r) ==> PcOk(r, t)
    requires i < |s.slots| ==> SlotOk(r, i)
    requires i < |s.slots| ==> forall u: nat :: u < |s.pcs| && u != t ==> Respects(s.slots[i], r.slots[i], u)
    requires t < |s.pcs| ==> forall c :: 0 <= c < |s.slots| && c != i && Locks(s.pcs[t], c) ==> r.pcs[t] == s.pcs[t]
    requires i < |s.slots| && r.slots[i].key.dev != 0 ==> forall c :: 0 <= c < |s.slots| && c != i ==>
              s.slots[c].key != r.slots[i].key
    ensures Inv(r)
  {
    forall u | 0 <= u < |r.pcs|
      ensures PcInRange(r.pcs[u], |r.slots|)
    {
      assert PcInRange(s.pcs[u], |s.slots|);
    }
    forall c | 0 <= c < |r.slots|
      ensures SlotOk(r, c)
    {
      assert SlotOk(s, c);
      var l := s.slots[c].lock;
      assert !l.Open? && l.task >= 0 ==> Locks(s.pcs[l.task], c);
    }
    forall u | 0 <= u < |r.pcs|
      ensures PcOk(r, u)
    {
      assert PcOk(s, u);
      assert u != t && i < |s.slots| ==> Respects(s.slots[i], r.slots[i], u);
    }
  }

  /** Steps that only move a task. */
  lemma InvMove(s: State, a: Action)
    requires Inv(s) && Enabled(s, a) && (a.Get? || a.Choice? || a.StartPut?)
    ensures Inv(Next(s, a))
  {
    assert PcOk(s, a.t) && PcInRange(s.pcs[a.t], |s.slots|);
    if a.StartPut? {
      assert SlotOk(s, a.i);
    }
    LocalInv(s, Next(s, a), |s.slots|, a.t);
  }

  /** get_empty_inode. */
  lemma InvChosen(s: State, a: Action)
    requires Inv(s) && Enabled(s, a) && a.ChosenReady?
    ensures Inv(Next(s, a))
  {
    assert PcOk(s, a.t) && PcInRange(s.pcs[a.t], |s.slots|);
    var i := s.pcs[a.t].i;
    assert SlotOk(s, i);
    LocalInv(s, Next(s, a), i, a.t);
  }

  /** The scan of iget: it takes the empty slot only when the whole table has no slot with the key. */
  lemma InvScan(s: State, a: Action)
    requires Inv(s) && Enabled(s, a) && a.Scan?
    ensures Inv(Next(s, a))
  {
    var p := s.pcs[a.t];
    assert PcOk(s, a.t) && PcInRange(p, |s.slots|);
    assert SlotOk(s, p.e);
    LocalInv(s, Next(s, a), if Find(s, p.why.want) == -1 then p.e else |s.slots|, a.t);
  }

  lemma InvFound(s: State, a: Action)
    requires Inv(s) && Enabled(s, a) && a.FoundReady?
    ensures Inv(Next(s, a))
  {
    assert PcOk(s, a.t) && PcInRange(s.pcs[a.t], |s.slots|);
    var i := s.pcs[a.t].i;
    assert SlotOk(s, i);
    LocalInv(s, Next(s, a), i, a.t);
  }

  /** What a task does with the empty slot it holds. */
  lemma InvDrop(s: State, a: Action)
    requires Inv(s) && Enabled(s, a) && a.DropEmpty?
    ensures Inv(Next(s, a))
  {
    assert PcOk(s, a.t) && PcInRange(s.pcs[a.t], |s.slots|);
    var i := s.pcs[a.t].e;
    assert SlotOk(s, i);
    LocalInv(s, Next(s, a), i, a.t);
  }

  lemma InvNameNew(s: State, a: Action)
    requires Inv(s) && Enabled(s, a) && a.NameNew? && NamesAfresh(s, a)
    ensures Inv(Next(s, a))
  {
    assert PcOk(s, a.t) && PcInRange(s.pcs[a.t], |s.slots|);
    var i := s.pcs[a.t].e;
    assert SlotOk(s, i);
    LocalInv(s, Next(s, a), i, a.t);
  }

  /** Exactly when new_inode keeps inodes apart: if and only if no slot has the number the bitmap gave it. */
  lemma NewInodeIff(s: State, a: Action)
    requires Inv(s) && Enabled(s, a) && a.NameNew?
    ensures Inv(Next(s, a)) <==> NamesAfresh(s, a)
    ensures Unique(Next(s, a)) <==> NamesAfresh(s, a)
  {
    var k := Key(s.pcs[a.t].why.dev, a.num);
    var i, j := Find(s, k), s.pcs[a.t].e;
    assert PcOk(s, a.t) && PcInRange(s.pcs[a.t], |s.slots|);
    if i == -1 {
      InvNameNew(s, a);
    } else {
      var r := Next(s, a);
      assert i != j && r.slots[i].key == k && r.slots[j].key == k;
    }
  }

  lemma InvMakePipe(s: State, a: Action)
    requires Inv(s) && Enabled(s, a) && a.MakePipe?
    ensures Inv(Next(s, a))
  {
    assert PcOk(s, a.t) && PcInRange(s.pcs[a.t], |s.slots|);
    var i := s.pcs[a.t].e;
    assert SlotOk(s, i);
    LocalInv(s, Next(s, a), i, a.t);
  }

  lemma InvGiveUp(s: State, a: Action)
    requires Inv(s) && Enabled(s, a) && a.GiveUp?
    ensures Inv(Next(s, a))
  {
    assert PcOk(s, a.t) && PcInRange(s.pcs[a.t], |s.slots|);
    var i := s.pcs[a.t].e;
    assert SlotOk(s, i);
    LocalInv(s, Next(s, a), i, a.t);
  }

  /** iput. */
  lemma InvPutReady(s: State, a: Action)
    requires Inv(s) && Enabled(s, a) && a.PutReady?
    ensures Inv(Next(s, a))
  {
    assert PcOk(s, a.t) && PcInRange(s.pcs[a.t], |s.slots|);
    var i := s.pcs[a.t].i;
    assert SlotOk(s, i);
    LocalInv(s, Next(s, a), i, a.t);
  }

  lemma InvRepeat(s: State, a: Action)
    requires Inv(s) && Enabled(s, a) && a.Repeat?
    ensures Inv(Next(s, a))
  {
    assert PcOk(s, a.t) && PcInRange(s.pcs[a.t], |s.slots|);
    var i := s.pcs[a.t].i;
    assert SlotOk(s, i);
    LocalInv(s, Next(s, a), i, a.t);
  }

  lemma InvFree(s: State, a: Action)
    requires Inv(s) && Enabled(s, a) && a.FreeDone? && Clean(s, a)
    ensures Inv(Next(s, a))
  {
    assert PcOk(s, a.t) && PcInRange(s.pcs[a.t], |s.slots|);
    var i := s.pcs[a.t].i;
    assert SlotOk(s, i);
    LocalInv(s, Next(s, a), i, a.t);
  }

  lemma InvModify(s: State, a: Action)
    requires Inv(s) && Enabled(s, a) && a.Modify?
    ensures Inv(Next(s, a))
  {
    assert PcOk(s, a.t) && PcInRange(s.pcs[a.t], |s.slots|) && SlotOk(s, a.i);
    LocalInv(s, Next(s, a), a.i, a.t);
  }

  lemma InvShare(s: State, a: Action)
    requires Inv(s) && Enabled(s, a) && a.Share?
    ensures Inv(Next(s, a))
  {
    assert PcOk(s, a.t) && SlotOk(s, a.i);
    LocalInv(s, Next(s, a), a.i, |s.pcs|);
  }

  lemma InvIo(s: State, a: Action)
    requires Inv(s) && Enabled(s, a) && (a.StartSync? || a.IoDone?)
    ensures Inv(Next(s, a))
  {
    assert SlotOk(s, a.i);
    var t := Mover(s, a);
    if t < |s.pcs| {
      assert PcOk(s, t) && PcInRange(s.pcs[t], |s.slots|);
    }
    LocalInv(s, Next(s, a), a.i, t);
  }

  /**
    At every interleaving in which free_inode neither panics nor clears a slot
    under a transfer, and new_inode finds a number that is not in core, each inode
    has at most one slot, and a slot in use keeps its inode.  InodeRuns says which
    runs these are.
   */
  lemma InvStep(s: State, a: Action)
    requires Inv(s) && Enabled(s, a) && Clean(s, a)
    ensures Inv(Next(s, a))
  {
    match a
    case Get(_, _) => InvMove(s, a);
    case Choice(_, _) => InvMove(s, a);
    case StartPut(_, _) => InvMove(s, a);
    case ChosenReady(_) => InvChosen(s, a);
    case Scan(_) => InvScan(s, a);
    case FoundReady(_) => InvFound(s, a);
    case DropEmpty(_) => InvDrop(s, a);
    case NameNew(_, _) => InvNameNew(s, a);
    case MakePipe(_) => InvMakePipe(s, a);
    case GiveUp(_) => InvGiveUp(s, a);
    case PutReady(_) => InvPutReady(s, a);
    case Repeat(_) => InvRepeat(s, a);
    case FreeDone(_) => InvFree(s, a);
    case Modify(_, _, _) => InvModify(s, a);
    case Share(_, _, _) => InvShare(s, a);
    case StartSync(_) => InvIo(s, a);
    case IoDone(_) => InvIo(s, a);
  }
}

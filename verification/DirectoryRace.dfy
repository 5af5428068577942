/**
  Adding and removing names when tasks overlap.  The code looks a name up block
  by block, may then sleep (in new_inode or iget), and looks for an unused entry
  block by block, growing the directory if there is none.  It sleeps before each
  block it reads and while it allocates one, and nothing is tested again.  One
  action is what one task does between two such points.

  A block of the directory is known by its zone, because a task goes on with the
  block it has read even when the directory has another one there by now.  Which
  block a task tries next is left open.  Reading a block succeeds.
 */
module DirectoryRace {
  import opened Directory

  type Name = seq<nat>

  datatype Goal = ToAdd(inode: nat) | ToRemove

  /** Where a task is in add_entry: not yet at a block, at one, or making one. */
  datatype Where = Nowhere | Inside(block: nat, zone: nat) | Growing(block: nat, zone: nat)

  /** Where a task is: not in a call, looking for its name, or past its look-up. */
  datatype Pc =
    | Idle
    | Looking(name: Name, goal: Goal, next: nat, entries: nat)
    | Adding(name: Name, inode: nat, where: Where)        // the name was not there
    | Removing(name: Name, place: nat, zone: nat)         // it was, in this entry

  /** The entries within i_size, the zones of the blocks, and all zones ever given out. */
  datatype State = State(es: seq<Entry>, zones: seq<nat>, used: set<nat>, pcs: seq<Pc>)

  datatype Action =
    | Begin(t: nat, name: Name, goal: Goal)
    | Look(t: nat)
    | Enter(t: nat, block: nat)
    | Grow(t: nat, zone: nat)
    | Attach(t: nat)
    | Add(t: nat, place: nat)
    | Remove(t: nat)
    | GiveUp(t: nat)

  const PER: nat := 64       // DIR_ENTRIES_PER_BLOCK

  /** The directory still has this zone there. */
  predicate Same(s: State, block: nat, zone: nat) { block < |s.zones| && s.zones[block] == zone }

  predicate Shape(s: State) { |s.es| <= PER * |s.zones| }

  predicate PcShape(s: State, p: Pc) {
    match p
    case Idle => true
    case Looking(_, goal, n, entries) => PER * n <= entries <= |s.es| && (goal.ToAdd? ==> goal.inode != 0)
    case Adding(_, ino, Growing(b, _)) => ino != 0 && b <= |s.zones|
    case Adding(_, ino, Inside(b, _)) => ino != 0 && b < |s.zones|
    case Adding(_, ino, _) => ino != 0
    case Removing(_, i, _) => i < |s.es|
  }

  predicate Enabled(s: State, a: Action) {
    && Shape(s) && a.t < |s.pcs| && PcShape(s, s.pcs[a.t])
    && match a
       case Begin(t, k, goal) => s.pcs[t].Idle? && (goal.ToAdd? ==> goal.inode != 0)
       case Look(t) => s.pcs[t].Looking?
       case Enter(t, b) => s.pcs[t].Adding? && !s.pcs[t].where.Growing? && b < |s.zones| && PER * b <= |s.es|
       case Grow(t, z) => s.pcs[t].Adding? && !s.pcs[t].where.Growing? && |s.es| == PER * |s.zones| && z !in s.used
       case Attach(t) => s.pcs[t].Adding? && s.pcs[t].where.Growing?
       case Add(t, i) =>
         && s.pcs[t].Adding? && s.pcs[t].where.Inside? && i / PER == s.pcs[t].where.block && i <= |s.es|
         && (Same(s, s.pcs[t].where.block, s.pcs[t].where.zone) ==> Unused(s.es, i))
       case Remove(t) => s.pcs[t].Removing?
       case GiveUp(t) => !s.pcs[t].Idle? && !(s.pcs[t].Adding? && s.pcs[t].where.Growing?)
  }

  /** The end of block n, or of what the look-up goes through. */
  function Stop(n: nat, entries: nat): nat { if PER * (n + 1) < entries then PER * (n + 1) else entries }

  /** find_entry in block p.next: found, not there at all, or on to the next block. */
  function Looked(s: State, p: Pc): Pc
    requires Shape(s) && p.Looking? && PcShape(s, p)
  {
    var j := First(s.es, p.name, PER * p.next);
    if j < Stop(p.next, p.entries) then
      if p.goal.ToRemove? then Removing(p.name, j, s.zones[j / PER]) else Idle
    else if Stop(p.next, p.entries) < p.entries then p.(next := p.next + 1)
    else if p.goal.ToAdd? then Adding(p.name, p.goal.inode, Nowhere) else Idle
  }

  function Clear(): Entry { Entry(0, seq(NAME_LEN, _ => 0)) }

  /** A new block b, all clear. */
  function Cleared(es: seq<Entry>, b: nat): (r: seq<Entry>)
    ensures |r| == |es| && forall i :: 0 <= i < |es| ==> r[i] == if i / PER == b then Clear() else es[i]
  {
    seq(|es|, i requires 0 <= i < |es| => if i / PER == b then Clear() else es[i])
  }

  /** The store at the end of add_entry and its caller; a block that has been replaced gets it for nothing. */
  function Added(s: State, p: Pc, i: nat): seq<Entry>
    requires p.Adding? && p.where.Inside? && i <= |s.es|
  {
    if Same(s, p.where.block, p.where.zone) then Put(s.es, i, Entry(p.inode, p.name))
    else if i < |s.es| then s.es
    else s.es + [Clear()]
  }

  function RemovedFrom(s: State, p: Pc): seq<Entry>
    requires p.Removing? && p.place < |s.es|
  {
    if Same(s, p.place / PER, p.zone) then s.es[p.place := Entry(0, s.es[p.place].name)] else s.es
  }

  function Next(s: State, a: Action): State
    requires Enabled(s, a)
  {
    var p := s.pcs[a.t];
    match a
    case Begin(t, k, goal) => State(s.es, s.zones, s.used, s.pcs[t := Looking(k, goal, 0, |s.es|)])
    case Look(t) => State(s.es, s.zones, s.used, s.pcs[t := Looked(s, p)])
    case Enter(t, b) => State(s.es, s.zones, s.used, s.pcs[t := Adding(p.name, p.inode, Inside(b, s.zones[b]))])
    case Grow(t, z) =>
      State(s.es, s.zones, s.used + {z}, s.pcs[t := Adding(p.name, p.inode, Growing(|s.zones|, z))])
    case Attach(t) =>
      var b, z := p.where.block, p.where.zone;
      var zones: seq<nat> := if b < |s.zones| then s.zones[b := z] else s.zones + [z];
      State(Cleared(s.es, b), zones, s.used, s.pcs[t := Adding(p.name, p.inode, Inside(b, z))])
    case Add(t, i) => State(Added(s, p, i), s.zones, s.used, s.pcs[t := Idle])
    case Remove(t) => State(RemovedFrom(s, p), s.zones, s.used, s.pcs[t := Idle])
    case GiveUp(t) => State(s.es, s.zones, s.used, s.pcs[t := Idle])
  }

  /** Only these change the directory; a call ends with its store, or without one, and leaves others alone. */
  lemma OnlyStores(s: State, a: Action)
    requires Enabled(s, a)
    ensures var r := Next(s, a);
            && |r.pcs| == |s.pcs| && (forall u :: 0 <= u < |s.pcs| && u != a.t ==> r.pcs[u] == s.pcs[u])
            && (r.es != s.es ==> a.Attach? || a.Add? || a.Remove?) && (r.zones != s.zones ==> a.Attach?)
            && s.used <= r.used && (a.Add? || a.Remove? || a.GiveUp? ==> r.pcs[a.t].Idle?)
  {
  }

  // ----- when a store is right --------------------------------------------------

  /** A new name in the directory, and nothing else changed. */
  predicate Inserts(es: seq<Entry>, r: seq<Entry>, k: Name, ino: nat) {
    k !in Contents(es) && Unique(r) && Contents(r) == Contents(es)[k := ino]
  }

  /**
    Exactly when the store of an addition is an insertion: if and only if nobody
    has added the name since the look-up, and the block is still the directory's.
    Without the first the name is there twice.
   */
  lemma AddInsertsIff(s: State, a: Action)
    requires Enabled(s, a) && a.Add? && Unique(s.es)
    ensures var p := s.pcs[a.t];
            var there := Same(s, p.where.block, p.where.zone);
            && (Inserts(s.es, Next(s, a).es, p.name, p.inode) <==> p.name !in Contents(s.es) && there)
            && (p.name in Contents(s.es) && there ==> !Unique(Next(s, a).es))
  {
    var p := s.pcs[a.t];
    if Same(s, p.where.block, p.where.zone) {
      PutUniqueIff(s.es, a.place, p.name, p.inode);
      if p.name !in Contents(s.es) {
        PutInserts(s.es, a.place, p.name, p.inode);
      }
    } else {
      assert s.es + [Clear()] == Put(s.es, |s.es|, Clear());
      PutUnused(s.es, |s.es|, Clear().name);
    }
  }

  /** The entry that was found still has the name, or the store changes nothing and the name is gone. */
  predicate StillRight(s: State, p: Pc)
    requires p.Removing? && p.place < |s.es|
  {
    var there := Same(s, p.place / PER, p.zone);
    (there && Live(s.es, p.place, p.name)) ||
    ((!there || s.es[p.place].inode == 0) && p.name !in Contents(s.es))
  }

  /** Exactly when the store of a removal is a deletion of the name and of nothing else. */
  lemma RemoveDeletesIff(s: State, a: Action)
    requires Enabled(s, a) && a.Remove? && Unique(s.es)
    ensures var p := s.pcs[a.t];
            && Unique(Next(s, a).es)
            && (Contents(Next(s, a).es) == Contents(s.es) - {p.name} <==> StillRight(s, p))
  {
    var p := s.pcs[a.t];
    var i := p.place;
    if !Same(s, i / PER, p.zone) {
      assert Next(s, a).es == s.es;
    } else if s.es[i].inode == 0 {
      assert s.es[i := Entry(0, s.es[i].name)] == s.es;
    } else {
      ClearRemoves(s.es, i);
      assert Live(s.es, i, s.es[i].name);
      FirstIs(s.es, s.es[i].name, i);
      ContentsAt(s.es, s.es[i].name);
    }
  }

  /** Block b holds no name. */
  predicate Blank(es: seq<Entry>, b: nat) { forall i :: 0 <= i < |es| && i / PER == b ==> es[i].inode == 0 }

  lemma ClearedUnique(es: seq<Entry>, b: nat)
    requires Unique(es)
    ensures Unique(Cleared(es, b))
  {
    var r := Cleared(es, b);
    forall i, j | 0 <= i < j < |r| && r[i].inode != 0 && r[j].inode != 0
      ensures r[i].name != r[j].name
    {
      assert r[i] == es[i] && r[j] == es[j];
    }
  }

  /** Clearing block b leaves the other names and takes away those in the block. */
  lemma ClearedContents(es: seq<Entry>, b: nat, n: Name)
    requires Unique(es)
    ensures n !in Contents(es) ==> n !in Contents(Cleared(es, b))
    ensures n in Contents(es) ==> First(es, n, 0) < |es|
    ensures n in Contents(es) && First(es, n, 0) / PER == b ==> n !in Contents(Cleared(es, b))
    ensures n in Contents(es) && First(es, n, 0) / PER != b ==> Agree(Contents(es), Contents(Cleared(es, b)), n)
  {
    var r := Cleared(es, b);
    ClearedUnique(es, b);
    ContentsAt(es, n);
    ContentsAt(r, n);
    if n in Contents(r) {
      var j := First(r, n, 0);
      assert Live(es, j, n);
      FirstIs(es, n, j);
    }
    if n in Contents(es) {
      var j := First(es, n, 0);
      if j / PER != b {
        assert Live(r, j, n);
        FirstIs(r, n, j);
      }
    }
  }

  /**
    Exactly when attaching a new block loses no name: if and only if the
    directory has none in that block, which the code does not test again after
    it has slept in new_block.
   */
  lemma AttachKeepsIff(s: State, a: Action)
    requires Enabled(s, a) && a.Attach? && Unique(s.es)
    ensures Unique(Next(s, a).es)
    ensures Contents(Next(s, a).es) == Contents(s.es) <==> Blank(s.es, s.pcs[a.t].where.block)
  {
    var b, es := s.pcs[a.t].where.block, s.es;
    ClearedUnique(es, b);
    if Blank(es, b) {
      forall n: Name
        ensures Agree(Contents(es), Contents(Cleared(es, b)), n)
      {
        ClearedContents(es, b, n);
        ContentsAt(es, n);
      }
      Unchanged(Contents(es), Contents(Cleared(es, b)));
    } else {
      var i :| 0 <= i < |es| && i / PER == b && es[i].inode != 0;
      assert Live(es, i, es[i].name);
      FirstIs(es, es[i].name, i);
      ContentsAt(es, es[i].name);
      ClearedContents(es, b, es[i].name);
    }
  }

  // ----- runs without conflict -----------------------------------------------------

  predicate Busy(p: Pc, k: Name) { !p.Idle? && p.name == k }

  predicate Grows(p: Pc) { p.Adding? && p.where.Growing? }

  /**
    A task looks up a name that another task is looking for or about to add or
    remove, or starts to grow the directory while another task is growing it.
   */
  predicate Conflicts(s: State, a: Action)
    requires Enabled(s, a)
  {
    || (a.Begin? && exists u :: 0 <= u < |s.pcs| && Busy(s.pcs[u], a.name))
    || (a.Grow? && exists u :: 0 <= u < |s.pcs| && Grows(s.pcs[u]))
  }

  predicate PcOk(s: State, t: nat)
    requires t < |s.pcs|
  {
    && PcShape(s, s.pcs[t])
    && match s.pcs[t]
       case Idle => true
       case Looking(k, _, n, entries) =>
         forall i :: 0 <= i < |s.es| && (i < PER * n || entries <= i) ==> !Live(s.es, i, k)
       case Adding(k, _, w) =>
         && k !in Contents(s.es)
         && (w.Inside? ==> Same(s, w.block, w.zone))
         && (w.Growing? ==> w.block == |s.zones| && |s.es| == PER * |s.zones|)
       case Removing(k, i, z) => Live(s.es, i, k) && Same(s, i / PER, z)
  }

  predicate Apart(p: Pc, q: Pc) {
    (!p.Idle? && !q.Idle? ==> p.name != q.name) && !(Grows(p) && Grows(q))
  }

  predicate Inv(s: State) {
    && Shape(s) && Unique(s.es) && (forall t :: 0 <= t < |s.pcs| ==> PcOk(s, t))
    && forall t, u :: 0 <= t < u < |s.pcs| ==> Apart(s.pcs[t], s.pcs[u])
  }

  /** The directory as a map after the action. */
  function Mapped(m: map<Name, nat>, s: State, a: Action): map<Name, nat>
    requires Enabled(s, a)
  {
    match a
    case Add(t, _) => m[s.pcs[t].name := s.pcs[t].inode]
    case Remove(t) => m - {s.pcs[t].name}
    case _ => m
  }

  lemma MappedStep(s: State, a: Action)
    requires Inv(s) && Enabled(s, a)
    ensures Unique(Next(s, a).es) && Contents(Next(s, a).es) == Mapped(Contents(s.es), s, a)
  {
    assert PcOk(s, a.t);
    match a {
      case Add(_, _) => AddInsertsIff(s, a);
      case Remove(_) => RemoveDeletesIff(s, a);
      case Attach(_) => AttachKeepsIff(s, a);
      case _ =>
    }
  }

  lemma InvStep(s: State, a: Action)
    requires Inv(s) && Enabled(s, a) && !Conflicts(s, a)
    ensures Inv(Next(s, a))
  {
    MappedStep(s, a);
    var r := Next(s, a);
    assert PcOk(s, a.t);
    forall t | 0 <= t < |r.pcs|
      ensures PcOk(r, t)
    {
      assert PcOk(s, t);
      if t == a.t {
        OwnStaysOk(s, a);
      } else {
        OthersStayOk(s, a, t);
      }
    }
    forall t, u | 0 <= t < u < |r.pcs|
      ensures Apart(r.pcs[t], r.pcs[u])
    {
      assert Apart(s.pcs[t], s.pcs[u]);
      StillApart(s, a, t);
      StillApart(s, a, u);
    }
  }

  /** The task that moves gets a name only in Begin and grows only from Grow on. */
  lemma StillApart(s: State, a: Action, t: nat)
    requires Enabled(s, a) && !Conflicts(s, a) && t < |s.pcs|
    ensures t != a.t ==> Apart(Next(s, a).pcs[a.t], s.pcs[t]) || !Apart(s.pcs[a.t], s.pcs[t])
    ensures t != a.t ==> Next(s, a).pcs[t] == s.pcs[t]
  {
    if t != a.t {
      assert !(a.Begin? && Busy(s.pcs[t], a.name));
      assert !(a.Grow? && Grows(s.pcs[t]));
    }
  }

  lemma OwnStaysOk(s: State, a: Action)
    requires Inv(s) && Enabled(s, a) && PcOk(s, a.t)
    ensures PcOk(Next(s, a), a.t)
  {
    if a.Look? {
      LookedOk(s, a.t);
    } else if a.Attach? {
      var b := s.pcs[a.t].where.block;
      assert Blank(s.es, b);
      AttachKeepsIff(s, a);
    }
  }

  /** What the look-up has found is so when it ends, however long it took. */
  lemma LookedOk(s: State, t: nat)
    requires Inv(s) && t < |s.pcs| && s.pcs[t].Looking? && PcOk(s, t)
    ensures PcOk(State(s.es, s.zones, s.used, s.pcs[t := Looked(s, s.pcs[t])]), t)
  {
    var p := s.pcs[t];
    var j := First(s.es, p.name, PER * p.next);
    ContentsAt(s.es, p.name);
    if j >= Stop(p.next, p.entries) && First(s.es, p.name, 0) < |s.es| {
      assert Live(s.es, First(s.es, p.name, 0), p.name);
    }
  }

  lemma OthersStayOk(s: State, a: Action, t: nat)
    requires Inv(s) && Enabled(s, a) && t < |s.pcs| && t != a.t && PcOk(s, t) && PcOk(s, a.t)
    requires Contents(Next(s, a).es) == Mapped(Contents(s.es), s, a)
    ensures PcOk(Next(s, a), t)
  {
    var r := Next(s, a);
    assert Apart(s.pcs[if t < a.t then t else a.t], s.pcs[if t < a.t then a.t else t]);
    assert !s.pcs[t].Idle? && !s.pcs[a.t].Idle? ==> s.pcs[t].name != s.pcs[a.t].name;
    if a.Attach? {
      assert Cleared(s.es, s.pcs[a.t].where.block) == s.es;
    }
    if s.pcs[t].Looking? {
      forall i | 0 <= i < |r.es| && Live(r.es, i, s.pcs[t].name)
        ensures i < |s.es| && Live(s.es, i, s.pcs[t].name)
      {
        assert r.es[i].name == s.pcs[t].name;
      }
    }
  }

  predicate CanRun(s: State, run: seq<Action>)
    decreases |run|
  {
    run == [] || (Enabled(s, run[0]) && CanRun(Next(s, run[0]), run[1..]))
  }

  function End(s: State, run: seq<Action>): State
    requires CanRun(s, run)
    decreases |run|
  {
    if run == [] then s else End(Next(s, run[0]), run[1..])
  }

  predicate Undisturbed(s: State, run: seq<Action>)
    requires CanRun(s, run)
    decreases |run|
  {
    run == [] || (!Conflicts(s, run[0]) && Undisturbed(Next(s, run[0]), run[1..]))
  }

  /** The map that the stores of the run make of m. */
  function Replay(m: map<Name, nat>, s: State, run: seq<Action>): map<Name, nat>
    requires CanRun(s, run)
    decreases |run|
  {
    if run == [] then m else Replay(Mapped(m, s, run[0]), Next(s, run[0]), run[1..])
  }

  /**
    Over every run in which no task looks up a name that another is busy with and
    no two tasks grow the directory at once, names stay unique and the directory
    is the map that its additions and removals make, each taking effect at its
    store.
   */
  lemma {:induction false} UndisturbedRunsAreMaps(s: State, run: seq<Action>)
    requires Inv(s) && CanRun(s, run) && Undisturbed(s, run)
    ensures Inv(End(s, run)) && Contents(End(s, run).es) == Replay(Contents(s.es), s, run)
    decreases |run|
  {
    if run != [] {
      MappedStep(s, run[0]);
      InvStep(s, run[0]);
      UndisturbedRunsAreMaps(Next(s, run[0]), run[1..]);
    }
  }

  // ----- runs with conflicts -----------------------------------------------------

  predicate Leads(s: State, run: seq<Action>, r: State) { CanRun(s, run) && End(s, run) == r }

  lemma Two(s: State, a: Action, m: State, b: Action, r: State)
    requires Enabled(s, a) && Next(s, a) == m && Enabled(m, b) && Next(m, b) == r
    ensures Leads(s, [a, b], r)
  {
    One(m, b, r);
    assert [a, b][1..] == [b];
  }

  lemma One(s: State, a: Action, r: State)
    requires Enabled(s, a) && Next(s, a) == r
    ensures Leads(s, [a], r)
  {
    assert [a][1..] == [];
    assert CanRun(r, []) && End(r, []) == r;
  }

  lemma {:induction false} Joined(s: State, p: seq<Action>, m: State, q: seq<Action>, r: State)
    requires Leads(s, p, m) && Leads(m, q, r)
    ensures Leads(s, p + q, r)
    decreases |p|
  {
    if p == [] {
      assert p + q == q;
    } else {
      assert (p + q)[1..] == p[1..] + q;
      Joined(Next(s, p[0]), p[1..], m, q, r);
    }
  }

  /** Task t looks up k in a directory of one block. */
  function Search(t: nat, k: Name, goal: Goal): seq<Action> { [Begin(t, k, goal), Look(t)] }

  lemma Searched(s: State, t: nat, k: Name, goal: Goal) returns (r: State)
    requires Shape(s) && |s.zones| == 1 && t < |s.pcs| && s.pcs[t].Idle? && (goal.ToAdd? ==> goal.inode != 0)
    ensures Leads(s, Search(t, k, goal), r) && r.es == s.es && r.zones == s.zones && r.used == s.used
    ensures goal.ToAdd? && k !in Contents(s.es) ==> r.pcs == s.pcs[t := Adding(k, goal.inode, Nowhere)]
    ensures goal.ToRemove? && k in Contents(s.es) ==> r.pcs == s.pcs[t := Removing(k, First(s.es, k, 0), s.zones[0])]
  {
    ContentsAt(s.es, k);
    var m := Next(s, Begin(t, k, goal));
    assert m.pcs[t] == Looking(k, goal, 0, |s.es|);
    r := Next(m, Look(t));
    Two(s, Begin(t, k, goal), m, Look(t), r);
  }

  /** It stores the name into entry i of that block. */
  function Fill(t: nat, i: nat): seq<Action> { [Enter(t, 0), Add(t, i)] }

  lemma Filled(s: State, t: nat, i: nat) returns (r: State)
    requires Shape(s) && |s.zones| == 1 && t < |s.pcs| && s.pcs[t].Adding? && s.pcs[t].where.Nowhere?
    requires s.pcs[t].inode != 0 && i < PER && i <= |s.es| && Unused(s.es, i)
    ensures Leads(s, Fill(t, i), r)
    ensures r == State(Put(s.es, i, Entry(s.pcs[t].inode, s.pcs[t].name)), s.zones, s.used, s.pcs[t := Idle])
  {
    var m := Next(s, Enter(t, 0));
    r := Next(m, Add(t, i));
    Two(s, Enter(t, 0), m, Add(t, i), r);
  }

  function A(): Name { seq(NAME_LEN, _ => 65) }

  function B(): Name { seq(NAME_LEN, _ => 66) }

  /** A directory of one block, and two idle tasks. */
  function Start(es: seq<Entry>): State { State(es, [10], {10}, [Idle, Idle]) }

  lemma NothingThere(k: Name)
    ensures k !in Contents([])
  {
    ContentsAt([], k);
  }

  /** Two tasks add one name to an empty directory: it is there twice. */
  lemma NameTwice() returns (run: seq<Action>)
    ensures Inv(Start([])) && CanRun(Start([]), run) && !Unique(End(Start([]), run).es)
  {
    var s, k := Start([]), A();
    NothingThere(k);
    var m0 := Searched(s, 0, k, ToAdd(1));
    var m1 := Searched(m0, 1, k, ToAdd(2));
    var m2 := Filled(m1, 0, 0);
    var r := Filled(m2, 1, 1);
    Joined(m1, Fill(0, 0), m2, Fill(1, 1), r);
    Joined(m0, Search(1, k, ToAdd(2)), m1, Fill(0, 0) + Fill(1, 1), r);
    run := Search(0, k, ToAdd(1)) + (Search(1, k, ToAdd(2)) + (Fill(0, 0) + Fill(1, 1)));
    Joined(s, Search(0, k, ToAdd(1)), m0, Search(1, k, ToAdd(2)) + (Fill(0, 0) + Fill(1, 1)), r);
    assert r.es == [Entry(1, k), Entry(2, k)];
    assert r.es[0].name == r.es[1].name;
  }

  lemma OneEntry(ino: nat, k: Name)
    requires ino != 0
    ensures Unique([Entry(ino, k)]) && Live([Entry(ino, k)], 0, k) && First([Entry(ino, k)], k, 0) == 0
    ensures k in Contents([Entry(ino, k)]) && forall n :: n != k ==> n !in Contents([Entry(ino, k)])
  {
    ContentsAt([Entry(ino, k)], k);
    forall n | n != k
      ensures n !in Contents([Entry(ino, k)])
    {
      ContentsAt([Entry(ino, k)], n);
    }
  }

  lemma NoneLive(k: Name, n: Name)
    ensures n !in Contents([Entry(0, k)])
  {
    ContentsAt([Entry(0, k)], n);
  }

  /**
    Two tasks remove A; the entry is used again for B before the second store, and
    B is gone although nobody removed it.
   */
  lemma WrongNameRemoved() returns (run: seq<Action>)
    ensures Inv(Start([Entry(1, A())])) && CanRun(Start([Entry(1, A())]), run) && Add(1, 0) in run
    ensures forall a :: a in run && a.Begin? && a.goal.ToRemove? ==> a.name != B()
    ensures B() !in Contents(End(Start([Entry(1, A())]), run).es)
  {
    var s := Start([Entry(1, A())]);
    OneEntry(1, A());
    assert A()[0] != B()[0];
    var m0 := Searched(s, 0, A(), ToRemove);
    var m1 := Searched(m0, 1, A(), ToRemove);
    assert m1 == State([Entry(1, A())], [10], {10}, [Removing(A(), 0, 10), Removing(A(), 0, 10)]);
    var last, r := Reused(m1);
    Joined(m0, Search(1, A(), ToRemove), m1, last, r);
    Joined(s, Search(0, A(), ToRemove), m0, Search(1, A(), ToRemove) + last, r);
    run := Search(0, A(), ToRemove) + (Search(1, A(), ToRemove) + last);
    NoneLive(B(), B());
  }

  /** Task 1 removes A and adds B to the same entry, and task 0 clears it. */
  lemma Reused(s: State) returns (run: seq<Action>, r: State)
    requires s == State([Entry(1, A())], [10], {10}, [Removing(A(), 0, 10), Removing(A(), 0, 10)])
    ensures Leads(s, run, r) && r.es == [Entry(0, B())] && Add(1, 0) in run
    ensures forall a :: a in run && a.Begin? ==> a.goal.ToAdd?
  {
    var m := Next(s, Remove(1));
    assert m == State([Entry(0, A())], [10], {10}, [Removing(A(), 0, 10), Idle]);
    NoneLive(A(), B());
    var n := Searched(m, 1, B(), ToAdd(2));
    var e := Filled(n, 1, 0);
    assert e == State([Entry(2, B())], [10], {10}, [Removing(A(), 0, 10), Idle]);
    r := Next(e, Remove(0));
    One(s, Remove(1), m);
    One(e, Remove(0), r);
    Joined(n, Fill(1, 0), e, [Remove(0)], r);
    Joined(m, Search(1, B(), ToAdd(2)), n, Fill(1, 0) + [Remove(0)], r);
    run := [Remove(1)] + (Search(1, B(), ToAdd(2)) + (Fill(1, 0) + [Remove(0)]));
    Joined(s, [Remove(1)], m, Search(1, B(), ToAdd(2)) + (Fill(1, 0) + [Remove(0)]), r);
    assert Fill(1, 0)[1] == Add(1, 0);
  }

  // ----- two tasks grow the directory at once -----------------------------------------

  /** A block full of names other than A and B. */
  predicate FullBlock(es: seq<Entry>) {
    |es| == PER && forall i :: 0 <= i < PER ==> es[i].inode == 1 && |es[i].name| == NAME_LEN && es[i].name[0] == i
  }

  function Numbered(i: nat): Name { seq(NAME_LEN, _ => i) }

  lemma SomeBlock() returns (es: seq<Entry>)
    ensures FullBlock(es)
  {
    es := seq(PER, i requires 0 <= i => Entry(1, Numbered(i)));
  }

  lemma NotInFull(es: seq<Entry>, k: Name)
    requires FullBlock(es) && |k| == NAME_LEN && k[0] >= PER
    ensures Inv(Start(es)) && k !in Contents(es)
  {
    ContentsAt(es, k);
  }

  /** Both get a zone for the block behind, and the second puts its own over that of the first. */
  function Growth(): seq<Action> {
    [Grow(0, 11), Grow(1, 12)] + ([Attach(0), Add(0, 64)] + [Attach(1), Add(1, 64)])
  }

  lemma BothGrow(s: State) returns (r: State)
    requires |s.es| == PER && s.zones == [10] && s.used == {10}
    requires s.pcs == [Adding(A(), 1, Nowhere), Adding(B(), 2, Nowhere)]
    ensures Leads(s, Growth(), r) && r.es == s.es + [Entry(2, B())]
  {
    var m0 := Next(s, Grow(0, 11));
    var m1 := Next(m0, Grow(1, 12));
    Two(s, Grow(0, 11), m0, Grow(1, 12), m1);
    assert m1.pcs == [Adding(A(), 1, Growing(1, 11)), Adding(B(), 2, Growing(1, 12))];
    var m2 := FirstAttached(m1);
    r := SecondAttached(m2, s.es);
    Joined(m1, [Attach(0), Add(0, 64)], m2, [Attach(1), Add(1, 64)], r);
    Joined(s, [Grow(0, 11), Grow(1, 12)], m1, [Attach(0), Add(0, 64)] + [Attach(1), Add(1, 64)], r);
  }

  lemma FirstAttached(s: State) returns (r: State)
    requires |s.es| == PER && s.zones == [10]
    requires s.pcs == [Adding(A(), 1, Growing(1, 11)), Adding(B(), 2, Growing(1, 12))]
    ensures Leads(s, [Attach(0), Add(0, 64)], r) && r.es == s.es + [Entry(1, A())] && r.zones == [10, 11]
    ensures r.pcs == [Idle, Adding(B(), 2, Growing(1, 12))]
  {
    var m := Next(s, Attach(0));
    assert m.es == s.es && m.zones == [10, 11] && m.pcs[0] == Adding(A(), 1, Inside(1, 11));
    r := Next(m, Add(0, 64));
    Two(s, Attach(0), m, Add(0, 64), r);
  }

  lemma SecondAttached(s: State, es: seq<Entry>) returns (r: State)
    requires |es| == PER && s.es == es + [Entry(1, A())] && s.zones == [10, 11]
    requires s.pcs == [Idle, Adding(B(), 2, Growing(1, 12))]
    ensures Leads(s, [Attach(1), Add(1, 64)], r) && r.es == es + [Entry(2, B())]
  {
    var m := Next(s, Attach(1));
    assert m.es == es + [Clear()] && m.zones == [10, 12] && m.pcs[1] == Adding(B(), 2, Inside(1, 12));
    r := Next(m, Add(1, 64));
    Two(s, Attach(1), m, Add(1, 64), r);
  }

  function AddBoth(): seq<Action> { Search(0, A(), ToAdd(1)) + (Search(1, B(), ToAdd(2)) + Growth()) }

  /**
    Two tasks add different names to a full directory, and nobody removes any:
    one of the names is gone.
   */
  lemma GrowthLosesName() returns (es: seq<Entry>)
    ensures Inv(Start(es)) && CanRun(Start(es), AddBoth()) && A() != B()
    ensures A() !in Contents(End(Start(es), AddBoth()).es) && B() in Contents(End(Start(es), AddBoth()).es)
  {
    es := SomeBlock();
    var s := Start(es);
    assert A()[0] == 65 && B()[0] == 66;
    NotInFull(es, A());
    NotInFull(es, B());
    var m0 := Searched(s, 0, A(), ToAdd(1));
    var m1 := Searched(m0, 1, B(), ToAdd(2));
    var r := BothGrow(m1);
    Joined(m0, Search(1, B(), ToAdd(2)), m1, Growth(), r);
    Joined(s, Search(0, A(), ToAdd(1)), m0, Search(1, B(), ToAdd(2)) + Growth(), r);
    LastOnly(es, 2, B(), A());
  }

  lemma LastOnly(es: seq<Entry>, ino: nat, k: Name, n: Name)
    requires n != k && n !in Contents(es) && ino != 0
    ensures n !in Contents(es + [Entry(ino, k)]) && k in Contents(es + [Entry(ino, k)])
  {
    var r := es + [Entry(ino, k)];
    ContentsAt(r, n);
    ContentsAt(r, k);
    NotThere(es, n);
    assert Live(r, |es|, k);
    forall i: nat | i < |r|
      ensures !Live(r, i, n)
    {
      assert i < |es| ==> r[i] == es[i] && !Live(es, i, n);
    }
  }
}

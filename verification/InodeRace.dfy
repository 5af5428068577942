/**
  What goes wrong in the table of inodes, as runs from an empty table.

  iput on the last reference of a changed inode writes it and sleeps.  When it
  goes on at `repeat`, it looks at the links but not again at the reference
  count: if another task has opened and unlinked the file meanwhile, an inode
  in use is truncated and free_inode panics.

  iget may sleep before it looks at the table.  If the inode it was called for
  is freed meanwhile, it brings a free number into core; then new_inode gives
  the number away a second time, or the next iput frees it a second time.

  sync may begin to write an inode without links while iput truncates it.
  free_inode clears the slot and its lock all the same, and the write then goes
  to another inode of the same block.
 */
module InodeRace {
  import opened InodeTable
  import opened InodeRuns

  /** The actions lead from s to r. */
  ghost predicate Leads(s: State, es: seq<Action>, r: State) { Shape(s) && CanRun(s, es) && End(s, es) == r }

  ghost predicate Step(s: State, a: Action, r: State) {
    Shape(s) && Enabled(s, a) && (a.FreeDone? ==> !Panics(s, a.t)) && r == Next(s, a)
  }

  lemma Cons(s: State, a: Action, m: State, es: seq<Action>, r: State)
    requires Step(s, a, m) && Leads(m, es, r)
    ensures Leads(s, [a] + es, r)
  {
    assert ([a] + es)[1..] == es;
  }

  lemma Uncons(s: State, es: seq<Action>, r: State) returns (m: State)
    requires Leads(s, es, r) && es != []
    ensures Step(s, es[0], m) && Leads(m, es[1..], r)
  {
    m := Next(s, es[0]);
  }

  lemma Single(s: State, a: Action, r: State)
    requires Step(s, a, r)
    ensures Leads(s, [a], r)
  {
    assert Leads(r, [], r);
    Cons(s, a, r, [], r);
    assert [a] + [] == [a];
  }

  lemma {:induction false} Joined(s: State, es: seq<Action>, m: State, fs: seq<Action>, r: State)
    requires Leads(s, es, m) && Leads(m, fs, r)
    ensures Leads(s, es + fs, r)
    decreases |es|
  {
    if es == [] {
      assert es + fs == fs;
    } else {
      Regroup(es, fs);
      var n := Uncons(s, es, m);
      Joined(n, es[1..], m, fs, r);
      Cons(s, es[0], n, es[1..] + fs, r);
    }
  }

  lemma Regroup(es: seq<Action>, fs: seq<Action>)
    requires es != []
    ensures [es[0]] + (es[1..] + fs) == es + fs
  {
  }

  lemma Then(s: State, es: seq<Action>, m: State, a: Action, r: State)
    requires Leads(s, es, m) && Step(m, a, r)
    ensures Leads(s, es + [a], r)
  {
    Single(m, a, r);
    Joined(s, es, m, [a], r);
  }

  lemma Two(s: State, a: Action, m: State, b: Action, r: State)
    requires Step(s, a, m) && Step(m, b, r)
    ensures Leads(s, [a, b], r)
  {
    assert Leads(s, [], s);
    Then(s, [], s, a, m);
    Then(s, [] + [a], m, b, r);
    assert [] + [a] + [b] == [a, b];
  }

  lemma Three(s: State, a: Action, m: State, b: Action, n: State, c: Action, r: State)
    requires Step(s, a, m) && Step(m, b, n) && Step(n, c, r)
    ensures Leads(s, [a, b, c], r)
  {
    Two(s, a, m, b, n);
    Then(s, [a, b], n, c, r);
    assert [a, b] + [c] == [a, b, c];
  }

  // ----- iput frees an inode in use -------------------------------------------

  /** Task a is writing slot i in iput, as its only user; task b waits for the same inode in iget. */
  ghost predicate RaceReady(s: State, a: nat, b: nat, i: nat)
    requires Inv(s)
  {
    && a < |s.pcs| && b < |s.pcs| && a != b && i < |s.slots|
    && s.pcs[a] == PutWrite(i) && s.pcs[b].Found? && s.pcs[b].i == i && s.pcs[b].want == s.slots[i].key
  }

  /** The run leads to a free_inode by a while b has a reference. */
  ghost predicate FreesInUse(s: State, es: seq<Action>, a: nat, b: nat) {
    && Shape(s) && CanRun(s, es) && Enabled(End(s, es), FreeDone(a)) && Panics(End(s, es), a)
    && Keeps(End(s, es), b, End(s, es).pcs[a].i)
  }

  /** b gets the inode, drops the links to it and keeps its reference, and a goes on. */
  function Race(a: nat, b: nat, i: nat, rest: int): seq<Action> {
    [IoDone(i), FoundReady(b), DropEmpty(b)] + [Modify(b, i, Content(0, rest)), Repeat(a)]
  }

  /** Both tasks refer to slot i; a is about to go on at `repeat`. */
  ghost predicate BothUse(s: State, a: nat, b: nat, i: nat) {
    && a < |s.pcs| && b < |s.pcs| && a != b && i < |s.slots| && a in s.slots[i].users && b in s.slots[i].users
    && s.pcs[a] == PutAgain(i) && s.slots[i].lock.Open? && s.slots[i].key.dev != 0
  }

  lemma Written(s: State, a: nat, b: nat, i: nat)
    requires Inv(s) && RaceReady(s, a, b, i)
    ensures Enabled(s, IoDone(i)) && var r := Next(s, IoDone(i));
            && Inv(r) && r.pcs == s.pcs[a := PutAgain(i)]
            && r.slots == s.slots[i := s.slots[i].(lock := Open, dirt := false)]
            && a in r.slots[i].users && r.slots[i].key == s.slots[i].key && s.slots[i].key.dev != 0
  {
    assert PcOk(s, a) && SlotOk(s, i);
    InvStep(s, IoDone(i));
  }

  lemma Shared(s: State, a: nat, b: nat, i: nat)
    requires Inv(s) && a < |s.pcs| && b < |s.pcs| && a != b && i < |s.slots| && s.pcs[a] == PutAgain(i)
    requires s.pcs[b].Found? && s.pcs[b].i == i && s.pcs[b].want == s.slots[i].key && s.slots[i].lock.Open?
    requires a in s.slots[i].users && s.slots[i].key.dev != 0
    ensures Enabled(s, FoundReady(b)) && Inv(Next(s, FoundReady(b)))
    ensures BothUse(Next(s, FoundReady(b)), a, b, i) && Next(s, FoundReady(b)).pcs[b] == Drop(s.pcs[b].e)
  {
    InvStep(s, FoundReady(b));
  }

  lemma Dropped(s: State, a: nat, b: nat, i: nat)
    requires Inv(s) && BothUse(s, a, b, i) && s.pcs[b].Drop?
    ensures Enabled(s, DropEmpty(b)) && Inv(Next(s, DropEmpty(b)))
    ensures BothUse(Next(s, DropEmpty(b)), a, b, i) && Next(s, DropEmpty(b)).pcs[b].Idle?
  {
    assert PcOk(s, b);
    InvStep(s, DropEmpty(b));
  }

  lemma Unlinked(s: State, a: nat, b: nat, i: nat, rest: int)
    requires Inv(s) && BothUse(s, a, b, i) && s.pcs[b].Idle?
    ensures FreesInUse(s, [Modify(b, i, Content(0, rest)), Repeat(a)], a, b)
  {
    var m := Next(s, Modify(b, i, Content(0, rest)));
    assert m.slots[i].users == s.slots[i].users && m.slots[i].content.nlinks == 0 && m.pcs[a] == PutAgain(i);
    var e := GoesOn(m, a, b, i);
    Two(s, Modify(b, i, Content(0, rest)), m, Repeat(a), e);
  }

  lemma GoesOn(s: State, a: nat, b: nat, i: nat) returns (r: State)
    requires Shape(s) && BothUse(s, a, b, i) && s.pcs[b].Idle? && s.slots[i].content.nlinks == 0
    ensures Step(s, Repeat(a), r) && Enabled(r, FreeDone(a)) && Panics(r, a) && Keeps(r, b, r.pcs[a].i)
  {
    r := Next(s, Repeat(a));
    assert r.pcs[a] == Freeing(i) && r.pcs[b].Idle? && b in r.slots[i].users && b !in multiset{a};
  }

  /** From there the run ends in free_inode of an inode that b still uses. */
  lemma IputFreesInodeInUse(s: State, a: nat, b: nat, i: nat, rest: int)
    requires Inv(s) && RaceReady(s, a, b, i)
    ensures FreesInUse(s, Race(a, b, i, rest), a, b)
  {
    Written(s, a, b, i);
    var s1 := Next(s, IoDone(i));
    Shared(s1, a, b, i);
    var s2 := Next(s1, FoundReady(b));
    Dropped(s2, a, b, i);
    var s3 := Next(s2, DropEmpty(b));
    Unlinked(s3, a, b, i, rest);
    Three(s, IoDone(i), s1, FoundReady(b), s2, DropEmpty(b), s3);
    var more := [Modify(b, i, Content(0, rest)), Repeat(a)];
    Joined(s, [IoDone(i), FoundReady(b), DropEmpty(b)], s3, more, End(s3, more));
  }

  // ----- runs from an empty table of two slots ---------------------------------

  const FILE := Key(3, 5)
  const NEIGHBOUR := Key(3, 32)      // the last inode in the block of the file's

  function OnDisk(k: Key, c: Content): Content { if k == FILE then c else Content(1, 0) }

  /** What is on disk if it has c for the file. */
  ghost function Disk(c: Content): imap<Key, Content> { imap k: Key :: OnDisk(k, c) }

  function File(users: multiset<nat>, lock: Lock, dirt: bool, content: Content): Slot {
    Slot(FILE, users, lock, dirt, false, content)
  }

  function Free(): Slot { Empty(multiset{}) }

  /** Two idle tasks, nothing in core, and two files are allocated and have one link each. */
  ghost function Start(): State {
    State([Free(), Free()], [Idle, Idle], iset{FILE, NEIGHBOUR}, Disk(Content(1, 0)), Disk(Content(1, 0)),
        multiset{})
  }

  /** Task t asks for the file and is given the empty slot i. */
  function Ask(t: nat, i: nat): seq<Action> { [Get(t, ForIget(FILE)), Choice(t, i), ChosenReady(t)] }

  lemma Asking(s: State, t: nat, i: nat) returns (r: State)
    requires Shape(s) && t < |s.pcs| && i < |s.slots| && s.pcs[t].Idle? && s.slots[i] == Free()
    ensures Leads(s, Ask(t, i), r)
    ensures r == State(s.slots[i := Empty(multiset{t})], s.pcs[t := Blanked(ForIget(FILE), i)], s.used,
                       s.disk, s.flat, s.stray)
  {
    var s1 := Next(s, Get(t, ForIget(FILE)));
    var s2 := Next(s1, Choice(t, i));
    r := Next(s2, ChosenReady(t));
    Three(s, Get(t, ForIget(FILE)), s1, Choice(t, i), s2, ChosenReady(t), r);
  }

  /** Task 0 has opened the file. */
  ghost function Opened(): State {
    State([File(multiset{0}, Open, false, Content(1, 0)), Free()], [Idle, Idle], iset{FILE, NEIGHBOUR},
        Disk(Content(1, 0)), Disk(Content(1, 0)), multiset{})
  }

  lemma Opening()
    ensures Init(Start()) && Leads(Start(), Ask(0, 0) + [Scan(0), IoDone(0)], Opened())
  {
    var s := Start();
    var m := Asking(s, 0, 0);
    assert m.slots == [Empty(multiset{0}), Free()] && m.pcs == [Blanked(ForIget(FILE), 0), Idle];
    var n := Next(m, Scan(0));
    assert n.slots[0] == File(multiset{0}, Reads(0), false, Content(0, 0)) && n.pcs == [Reading(0), Idle];
    var r := Next(n, IoDone(0));
    assert r.slots == Opened().slots && r.pcs == Opened().pcs;
    Two(m, Scan(0), n, IoDone(0), r);
    Joined(s, Ask(0, 0), m, [Scan(0), IoDone(0)], r);
  }

  // ----- iput and iget ---------------------------------------------------------

  /** Task 0 changes the file and puts it; task 1 asks for it and finds it. */
  function Meet(): seq<Action> {
    Ask(0, 0) + [Scan(0), IoDone(0)] + [Modify(0, 0, Content(1, 7)), StartPut(0, 0), PutReady(0)]
        + (Ask(1, 1) + [Scan(1)])
  }

  lemma PutSleeps(s: State) returns (r: State)
    requires s == Opened()
    ensures Leads(s, [Modify(0, 0, Content(1, 7)), StartPut(0, 0), PutReady(0)], r)
    ensures r.slots == [File(multiset{0}, Writes(0), true, Content(1, 7)), Free()] && r.pcs == [PutWrite(0), Idle]
    ensures r.stray == multiset{}
  {
    var s1 := Next(s, Modify(0, 0, Content(1, 7)));
    var s2 := Next(s1, StartPut(0, 0));
    assert s2.slots == [File(multiset{0}, Open, true, Content(1, 7)), Free()] && s2.pcs == [Put(0), Idle];
    assert |multiset{0}| == 1;
    r := Next(s2, PutReady(0));
    Three(s, Modify(0, 0, Content(1, 7)), s1, StartPut(0, 0), s2, PutReady(0), r);
  }

  lemma MetOk(s: State)
    requires Shape(s) && s.slots == [File(multiset{0}, Writes(0), true, Content(1, 7)), Empty(multiset{1})]
    requires s.pcs == [PutWrite(0), Found(FILE, 1, 0)] && s.stray == multiset{}
    ensures Inv(s) && RaceReady(s, 0, 1, 0)
  {
    assert SlotOk(s, 0) && SlotOk(s, 1) && PcOk(s, 0) && PcOk(s, 1);
  }

  lemma AskMeets(s: State) returns (r: State)
    requires Shape(s) && s.slots == [File(multiset{0}, Writes(0), true, Content(1, 7)), Free()]
    requires s.pcs == [PutWrite(0), Idle] && s.stray == multiset{}
    ensures Leads(s, Ask(1, 1) + [Scan(1)], r) && Inv(r) && RaceReady(r, 0, 1, 0)
  {
    var m := Asking(s, 1, 1);
    assert m.pcs == [PutWrite(0), Blanked(ForIget(FILE), 1)] && m.slots == [s.slots[0], Empty(multiset{1})];
    r := Next(m, Scan(1));
    Then(s, Ask(1, 1), m, Scan(1), r);
    MetOk(r);
  }

  lemma Meeting() returns (r: State)
    ensures Leads(Start(), Meet(), r) && Inv(r) && RaceReady(r, 0, 1, 0)
  {
    var s, open := Start(), Ask(0, 0) + [Scan(0), IoDone(0)];
    var put, meet := [Modify(0, 0, Content(1, 7)), StartPut(0, 0), PutReady(0)], Ask(1, 1) + [Scan(1)];
    Opening();
    var m := PutSleeps(Opened());
    Joined(s, open, Opened(), put, m);
    r := AskMeets(m);
    Joined(s, open + put, m, meet, r);
  }

  /** The property fails in the code: two tasks, each using the inode as it should, bring free_inode to its panic. */
  lemma IputRace() returns (es: seq<Action>)
    ensures Init(Start()) && FreesInUse(Start(), es, 0, 1)
  {
    var s := Start();
    Opening();
    var m := Meeting();
    IputFreesInodeInUse(m, 0, 1, 0, 7);
    es := Meet() + Race(0, 1, 0, 7);
    Joined(s, Meet(), m, Race(0, 1, 0, 7), End(m, Race(0, 1, 0, 7)));
  }

  // ----- iget carries a number over its free -----------------------------------

  /** Task 0 puts its last reference to a file without links. */
  lemma Putting(s: State, dirt: bool) returns (r: State)
    requires Shape(s) && s.slots == [File(multiset{0}, Open, dirt, Content(0, 0)), Free()] && s.pcs == [Idle, Idle]
    ensures Leads(s, [StartPut(0, 0), PutReady(0)], r)
    ensures r == State(s.slots, [Freeing(0), Idle], s.used, s.disk, s.flat, s.stray)
  {
    var m := Next(s, StartPut(0, 0));
    assert m.slots == s.slots && m.pcs == [Put(0), Idle];
    assert |multiset{0}| == 1;
    r := Next(m, PutReady(0));
    assert r.slots == s.slots && r.pcs == [Freeing(0), Idle];
    Two(s, StartPut(0, 0), m, PutReady(0), r);
  }

  /** Task 1 asks for the file while task 0 frees it, and reads it in nevertheless. */
  function Overtake(): seq<Action> { [StartPut(0, 0), PutReady(0)] + Ask(1, 1) + [FreeDone(0), Scan(1)] }

  ghost function Overtaken(s: State): State
    requires FILE in s.disk
  {
    State([Free(), File(multiset{1}, Reads(1), false, Content(0, 0))], [Idle, Reading(1)], s.used - iset{FILE},
          s.disk, s.flat[FILE := s.disk[FILE]], s.stray)
  }

  lemma Overtaking(s: State, dirt: bool)
    requires Shape(s) && s.slots == [File(multiset{0}, Open, dirt, Content(0, 0)), Free()] && s.pcs == [Idle, Idle]
    requires FILE in s.used
    ensures Leads(s, Overtake(), Overtaken(s))
  {
    var put := [StartPut(0, 0), PutReady(0)];
    var m := Putting(s, dirt);
    var n := Asking(m, 1, 1);
    assert n.slots == [s.slots[0], Empty(multiset{1})] && n.pcs == [Freeing(0), Blanked(ForIget(FILE), 1)];
    FreedAndNamed(n);
    Joined(s, put, m, Ask(1, 1), n);
    Joined(s, put + Ask(1, 1), n, [FreeDone(0), Scan(1)], Overtaken(s));
  }

  lemma FreedAndNamed(s: State)
    requires Shape(s) && |s.slots| == 2 && s.slots[0].key == FILE && s.slots[0].users == multiset{0}
    requires s.slots[0].lock.Open? && s.slots[0].content.nlinks == 0 && s.slots[1] == Empty(multiset{1})
    requires s.pcs == [Freeing(0), Blanked(ForIget(FILE), 1)] && FILE in s.used
    ensures Leads(s, [FreeDone(0), Scan(1)], Overtaken(s))
  {
    var m := Next(s, FreeDone(0));
    assert m.slots == [Free(), Empty(multiset{1})] && m.pcs == [Idle, Blanked(ForIget(FILE), 1)];
    var r := Next(m, Scan(1));
    assert r.slots == Overtaken(s).slots && r.pcs == Overtaken(s).pcs;
    Two(s, FreeDone(0), m, Scan(1), r);
  }

  /** Then task 0 makes a new inode, and new_inode gives it the freed number. */
  lemma NamingAgain(s: State) returns (r: State)
    requires Shape(s) && s.slots == Overtaken(Start()).slots && s.pcs == [Idle, Reading(1)] && FILE !in s.used
    ensures Leads(s, [Get(0, ForNew(3)), Choice(0, 0), ChosenReady(0)] + [NameNew(0, 5)], r) && !Unique(r)
  {
    var make := [Get(0, ForNew(3)), Choice(0, 0), ChosenReady(0)];
    var s1 := Next(s, Get(0, ForNew(3)));
    var s2 := Next(s1, Choice(0, 0));
    var m := Next(s2, ChosenReady(0));
    assert m.slots[0] == Empty(multiset{0}) && m.slots[1] == s.slots[1] && m.pcs == [Blanked(ForNew(3), 0), Reading(1)];
    Three(s, Get(0, ForNew(3)), s1, Choice(0, 0), s2, ChosenReady(0), m);
    r := Next(m, NameNew(0, 5));
    Then(s, make, m, NameNew(0, 5), r);
    assert r.slots[0].key == FILE && r.slots[1].key == FILE;
  }

  /**
    Uniqueness fails in the code: iget was called for an allocated number, slept
    while the inode was freed, and new_inode then gave the number away again.
   */
  lemma TwoSlotsForOneInode() returns (es: seq<Action>)
    ensures Init(Start()) && CanRun(Start(), es) && !Unique(End(Start(), es))
  {
    var s, open := Start(), Ask(0, 0) + [Scan(0), IoDone(0)];
    Opening();
    var m := Next(Opened(), Modify(0, 0, Content(0, 0)));
    assert m.slots == [File(multiset{0}, Open, true, Content(0, 0)), Free()];
    Then(s, open, Opened(), Modify(0, 0, Content(0, 0)), m);
    Overtaking(m, true);
    Joined(s, open + [Modify(0, 0, Content(0, 0))], m, Overtake(), Overtaken(m));
    var run := open + [Modify(0, 0, Content(0, 0))] + Overtake();
    var r := NamingAgain(Overtaken(m));
    var again := [Get(0, ForNew(3)), Choice(0, 0), ChosenReady(0)] + [NameNew(0, 5)];
    es := run + again;
    Joined(s, run, Overtaken(m), again, r);
  }

  /** The file without links is also on disk: it was written while task 0 still had it open. */
  lemma Syncing() returns (r: State)
    ensures Leads(Opened(), [Modify(0, 0, Content(0, 0)), StartSync(0), IoDone(0)], r)
    ensures r.slots == [File(multiset{0}, Open, false, Content(0, 0)), Free()] && r.pcs == [Idle, Idle]
    ensures FILE in r.used && r.disk[FILE] == Content(0, 0)
  {
    var s := Opened();
    var s1 := Next(s, Modify(0, 0, Content(0, 0)));
    assert s1.slots == [File(multiset{0}, Open, true, Content(0, 0)), Free()];
    var s2 := Next(s1, StartSync(0));
    assert s2.slots == [File(multiset{0}, Writes(-1), true, Content(0, 0)), Free()];
    r := Next(s2, IoDone(0));
    assert r.slots == [File(multiset{0}, Open, false, Content(0, 0)), Free()] && r.pcs == [Idle, Idle];
    Three(s, Modify(0, 0, Content(0, 0)), s1, StartSync(0), s2, IoDone(0), r);
  }

  /** Task 1 has read the inode without links and puts it. */
  lemma FreeingAgain(s: State) returns (r: State)
    requires Shape(s) && s.slots == Overtaken(Start()).slots && s.pcs == [Idle, Reading(1)]
    requires s.disk[FILE] == Content(0, 0)
    ensures Leads(s, [IoDone(1), StartPut(1, 1), PutReady(1)], r)
    ensures r.slots == [Free(), File(multiset{1}, Open, false, Content(0, 0))] && r.pcs == [Idle, Freeing(1)]
    ensures r.used == s.used
  {
    var s1 := Next(s, IoDone(1));
    assert s1.slots == [Free(), File(multiset{1}, Open, false, Content(0, 0))] && s1.pcs == [Idle, Idle];
    var s2 := Next(s1, StartPut(1, 1));
    assert s2.slots == s1.slots && s2.pcs == [Idle, Put(1)];
    assert |multiset{1}| == 1;
    r := Next(s2, PutReady(1));
    Three(s, IoDone(1), s1, StartPut(1, 1), s2, PutReady(1), r);
  }

  /** It brings free_inode to "bit already cleared", though nobody else uses the inode and it has no links. */
  lemma FreedTwice() returns (es: seq<Action>)
    ensures Init(Start()) && CanRun(Start(), es) && var r := End(Start(), es);
            && Enabled(r, FreeDone(1)) && Panics(r, 1)
            && r.slots[r.pcs[1].i] == File(multiset{1}, Open, false, Content(0, 0)) && FILE !in r.used
  {
    var s, open := Start(), Ask(0, 0) + [Scan(0), IoDone(0)];
    var sync, again := [Modify(0, 0, Content(0, 0)), StartSync(0), IoDone(0)], [IoDone(1), StartPut(1, 1), PutReady(1)];
    Opening();
    var m := Syncing();
    Joined(s, open, Opened(), sync, m);
    Overtaking(m, false);
    Joined(s, open + sync, m, Overtake(), Overtaken(m));
    var r := FreeingAgain(Overtaken(m));
    es := open + sync + Overtake() + again;
    Joined(s, open + sync + Overtake(), Overtaken(m), again, r);
  }

  // ----- free_inode under a write ------------------------------------------------

  /** Task 0 removes the last link and puts the inode; sync begins to write it before it is freed. */
  function SyncFreed(): seq<Action> { [Modify(0, 0, Content(0, 0))] + ([StartPut(0, 0), PutReady(0)] + [StartSync(0)]) }

  ghost predicate BeingFreed(s: State) {
    && s.slots == [File(multiset{0}, Writes(-1), true, Content(0, 0)), Free()] && s.pcs == [Freeing(0), Idle]
    && s.used == iset{FILE, NEIGHBOUR} && s.disk == Disk(Content(1, 0)) && s.stray == multiset{}
    && s.flat == Disk(Content(1, 0))[FILE := Content(0, 0)]
  }

  lemma SyncMeetsFree() returns (r: State)
    ensures Leads(Opened(), SyncFreed(), r) && BeingFreed(r)
  {
    var s, put := Opened(), [StartPut(0, 0), PutReady(0)];
    var m := Next(s, Modify(0, 0, Content(0, 0)));
    assert m.slots == [File(multiset{0}, Open, true, Content(0, 0)), Free()] && m.pcs == [Idle, Idle];
    var n := Putting(m, true);
    r := SyncStarts(n);
    Then(m, put, n, StartSync(0), r);
    Cons(s, Modify(0, 0, Content(0, 0)), m, put + [StartSync(0)], r);
  }

  lemma SyncStarts(s: State) returns (r: State)
    requires Shape(s) && s.slots == [File(multiset{0}, Open, true, Content(0, 0)), Free()]
    requires s.pcs == [Freeing(0), Idle]
    ensures Step(s, StartSync(0), r) && r.pcs == s.pcs && r.used == s.used && r.disk == s.disk && r.flat == s.flat
    ensures r.slots == [File(multiset{0}, Writes(-1), true, Content(0, 0)), Free()] && r.stray == s.stray
  {
    r := Next(s, StartSync(0));
  }

  /** The write goes on with the cleared slot. */
  function Cut(): seq<Action> { [FreeDone(0), WriteOn(Stray(0, 3, 0, -1))] }

  lemma WritesOn(s: State) returns (r: State)
    requires Shape(s) && BeingFreed(s)
    ensures !Panics(s, 0) && Leads(s, Cut(), r) && r.disk == s.disk[NEIGHBOUR := Content(0, 0)]
    ensures r.slots == [Free(), Free()] && r.flat == s.flat[FILE := s.disk[FILE]] && r.used == s.used - iset{FILE}
  {
    var z := Stray(0, 3, 0, -1);
    assert BlockOf(FILE.num) == 0 && Misplaced(z, 0) == NEIGHBOUR;
    var m := Next(s, FreeDone(0));
    assert m.slots == [Free(), Free()] && m.pcs == [Idle, Idle] && m.stray == multiset{z};
    r := Next(m, WriteOn(z));
    assert r.slots == [Free(), Free()];
    Two(s, FreeDone(0), m, WriteOn(z), r);
  }

  function Overwriting(): seq<Action> { Ask(0, 0) + [Scan(0), IoDone(0)] + SyncFreed() + Cut() }

  /**
    Coherence fails in the code without any panic and without a late iget: sync
    writes an inode that is being freed, and a file nobody asked for is gone from
    the disk.
   */
  lemma NeighbourOverwritten()
    ensures Init(Start()) && CanRun(Start(), Overwriting()) && var r := End(Start(), Overwriting());
            && !Coherent(r) && NEIGHBOUR in r.used && r.flat[NEIGHBOUR] == Content(1, 0)
            && Find(r, NEIGHBOUR) == -1 && r.disk[NEIGHBOUR] == Content(0, 0)
  {
    var s, open := Start(), Ask(0, 0) + [Scan(0), IoDone(0)];
    Opening();
    var m := SyncMeetsFree();
    var r := WritesOn(m);
    Joined(s, open, Opened(), SyncFreed(), m);
    Joined(s, open + SyncFreed(), m, Cut(), r);
    Incoherent(r, m);
  }

  lemma Incoherent(r: State, m: State)
    requires Shape(r) && BeingFreed(m) && r.disk == m.disk[NEIGHBOUR := Content(0, 0)] && r.slots == [Free(), Free()]
    requires r.flat == m.flat[FILE := m.disk[FILE]] && r.used == m.used - iset{FILE}
    ensures !Coherent(r) && NEIGHBOUR in r.used && r.flat[NEIGHBOUR] == Content(1, 0)
    ensures Find(r, NEIGHBOUR) == -1 && r.disk[NEIGHBOUR] == Content(0, 0)
  {
    assert Disk(Content(1, 0))[NEIGHBOUR] == Content(1, 0);
  }
}

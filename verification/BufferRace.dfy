/**
  Runs from an unused cache that break coherence.

  The race in getblk: a task takes a dirty buffer out of the hash table and
  falls asleep in sync_dev while another buffer is being written.  A second
  task asks for the same block, does not find it, and reads the old bytes.

  The overtaken write: a task stores into a buffer it holds while the buffer is
  being written, and the end of the write marks the buffer clean.
 */
module BufferRace {
  import opened BufferCache
  import opened BufferCoherence

  lemma Cons(s: State, a: Action, rest: seq<Action>)
    requires Inv(s) && Enabled(s, a) && CanRun(Step(s, a), rest)
    ensures CanRun(s, [a] + rest) && End(s, [a] + rest) == End(Step(s, a), rest)
  {
    assert ([a] + rest)[1..] == rest;
  }

  /**
    Block k has unwritten bytes in a buffer outside the queues, task t is outside
    getblk, and buffer c is free and clean.
   */
  ghost predicate RaceReady(s: State, t: nat, c: nat, k: Key)
    requires Inv(s)
  {
    && k.dev != 0 && StaleOnDisk(s, k) && Find(s, k) == -1
    && t < |s.pcs| && s.pcs[t].Idle?
    && c < |s.bufs| && s.bufs[c].queued && s.bufs[c].count == 0 && !s.bufs[c].dirt && !Locked(s.bufs[c])
  }

  /** The calls of one bread(k) by t that picks buffer c. */
  function BreadRun(t: nat, c: nat, k: Key): seq<Action> {
    [Request(t, k)] + ([Lookup(t)] + ([Pick(t, c)] + [AssignBlock(t), StartRead(t, c), IoDone(c)]))
  }

  lemma AfterLookup(s: State, t: nat, c: nat, k: Key)
    requires Inv(s) && Coherent(s) && RaceReady(s, t, c, k)
    ensures Enabled(s, Request(t, k)) && Enabled(Step(s, Request(t, k)), Lookup(t))
    ensures var r := Step(Step(s, Request(t, k)), Lookup(t));
            r.bufs == s.bufs && r.pcs == s.pcs[t := Search(k)] && r.disk == s.disk && r.flat == s.flat
  {
  }

  lemma AfterPick(s: State, t: nat, c: nat, k: Key)
    requires Inv(s) && Coherent(s) && t < |s.pcs| && s.pcs[t] == Search(k) && Find(s, k) == -1
    requires c < |s.bufs| && s.bufs[c].queued && s.bufs[c].count == 0 && !s.bufs[c].dirt && !Locked(s.bufs[c])
    ensures Enabled(s, Pick(t, c))
    ensures var r := Step(s, Pick(t, c));
            && r.bufs == s.bufs[c := Hold(s.bufs[c], t).(queued := false)] && r.pcs == s.pcs[t := Assign(k, c)]
            && r.disk == s.disk && r.flat == s.flat && Find(r, k) == -1
  {
    var r := Step(s, Pick(t, c));
    assert forall j :: 0 <= j < |s.bufs| ==> !IsFor(s.bufs[j], k) ==> !IsFor(r.bufs[j], k);
  }

  /** Buffer c is handed out as block k, but these are not the last bytes written to it. */
  ghost predicate GivesOldBytes(s: State, c: nat, k: Key)
    requires Shape(s)
  {
    c < |s.bufs| && IsFor(s.bufs[c], k) && s.bufs[c].uptodate && s.bufs[c].data != s.flat[k] && !Coherent(s)
  }

  /** bread hands out bytes that had already been overwritten. */
  lemma BreadReturnsOldBytes(s: State, t: nat, c: nat, k: Key)
    requires Inv(s) && Coherent(s) && RaceReady(s, t, c, k)
    ensures CanRun(s, BreadRun(t, c, k))
    ensures GivesOldBytes(End(s, BreadRun(t, c, k)), c, k)
  {
    AfterLookup(s, t, c, k);
    var s1 := Step(s, Request(t, k));
    var s2 := Step(s1, Lookup(t));
    CoherentStep(s, Request(t, k));
    CoherentStep(s1, Lookup(t));
    AfterPick(s2, t, c, k);
    var s3 := Step(s2, Pick(t, c));
    CoherentStep(s2, Pick(t, c));
    assert StaleOnDisk(s3, k) by {
      var b :| 0 <= b < |s.bufs| && s.bufs[b].dirt && s.bufs[b].key == k && s.bufs[b].data != s.disk[k];
      assert s3.bufs[b] == s.bufs[b];
    }
    BreadIsRightIff(s3, t);
    var tail := [AssignBlock(t), StartRead(t, c), IoDone(c)];
    Cons(s2, Pick(t, c), tail);
    Cons(s1, Lookup(t), [Pick(t, c)] + tail);
    Cons(s, Request(t, k), [Lookup(t)] + ([Pick(t, c)] + tail));
  }

  // ----- how the window opens -------------------------------------------------

  /** The calls of a getblk(want) by u that evicts buffer b and goes to sleep writing buffer 0. */
  function EvictRun(u: nat, b: nat, want: Key): seq<Action> {
    [Request(u, want)] + ([Lookup(u)] + ([Pick(u, b)] + [SyncNext(u)]))
  }

  /** Buffer b is the only copy of newer bytes, and sync_dev will meet the dirty buffer 0 first. */
  ghost predicate Evictable(s: State, b: nat)
    requires Inv(s)
  {
    && 0 < b < |s.bufs| && Hashed(s.bufs[b]) && s.bufs[b].count == 0 && s.bufs[b].dirt && !Locked(s.bufs[b])
    && s.bufs[b].data != s.disk[s.bufs[b].key]
    && s.bufs[0].dirt && !Locked(s.bufs[0]) && s.bufs[0].key.dev == s.bufs[b].key.dev
  }

  lemma EvictionSleeps(s: State, u: nat, b: nat, want: Key)
    requires Inv(s) && Coherent(s) && Evictable(s, b) && u < |s.pcs| && s.pcs[u] == Search(want)
    ensures Enabled(s, Pick(u, b)) && Enabled(Step(s, Pick(u, b)), SyncNext(u))
    ensures var r := Step(Step(s, Pick(u, b)), SyncNext(u));
            && r.bufs == s.bufs[b := Hold(s.bufs[b], u).(queued := false)][0 := s.bufs[0].(io := Writing)]
            && r.pcs == s.pcs[u := SyncWait(want, b, s.bufs[b].key.dev, 0)] && r.disk == s.disk
            && Find(r, s.bufs[b].key) == -1
  {
    var m := Step(s, Pick(u, b));
    var k := s.bufs[b].key;
    assert m.pcs[u] == Sync(want, b, k.dev, 0);
    var r := Step(m, SyncNext(u));
    assert forall j :: 0 <= j < |s.bufs| && j != b ==> !IsFor(s.bufs[j], k);
    assert forall j :: 0 <= j < |s.bufs| ==> !IsFor(r.bufs[j], k);
  }

  lemma EvictionStates(s: State, u: nat, b: nat, want: Key)
    requires Inv(s) && Coherent(s) && Evictable(s, b) && want.dev != 0 && Find(s, want) == -1 && u < |s.pcs|
    requires s.pcs[u].Idle?
    ensures var s1 := Step(s, Request(u, want));
            && Enabled(s1, Lookup(u))
            && var s2 := Step(s1, Lookup(u));
               s2.bufs == s.bufs && s2.pcs == s.pcs[u := Search(want)] && s2.disk == s.disk && Coherent(s2)
                   && Evictable(s2, b)
  {
    var s1 := Step(s, Request(u, want));
    assert s1.bufs == s.bufs && Find(s1, want) == Find(s, want);
    CoherentStep(s, Request(u, want));
    CoherentStep(s1, Lookup(u));
  }

  /** One getblk that evicts is enough to let the next bread of the evicted block go wrong. */
  lemma EvictionOpensRace(s: State, u: nat, t: nat, b: nat, c: nat, want: Key)
    requires Inv(s) && Coherent(s) && Evictable(s, b) && want.dev != 0 && Find(s, want) == -1
    requires u < |s.pcs| && t < |s.pcs| && u != t && s.pcs[u].Idle? && s.pcs[t].Idle?
    requires c < |s.bufs| && s.bufs[c].queued && s.bufs[c].count == 0 && !s.bufs[c].dirt && !Locked(s.bufs[c])
    ensures CanRun(s, EvictRun(u, b, want))
    ensures var r := End(s, EvictRun(u, b, want));
            Coherent(r) && RaceReady(r, t, c, s.bufs[b].key)
  {
    EvictionStates(s, u, b, want);
    var s1 := Step(s, Request(u, want));
    var s2 := Step(s1, Lookup(u));
    var s4 := EvictionWindow(s2, u, t, b, c, want);
    Cons(s1, Lookup(u), [Pick(u, b)] + [SyncNext(u)]);
    Cons(s, Request(u, want), [Lookup(u)] + ([Pick(u, b)] + [SyncNext(u)]));
  }

  lemma EvictionWindow(s: State, u: nat, t: nat, b: nat, c: nat, want: Key) returns (r: State)
    requires Inv(s) && Coherent(s) && Evictable(s, b) && u < |s.pcs| && s.pcs[u] == Search(want)
    requires t < |s.pcs| && u != t && s.pcs[t].Idle?
    requires c < |s.bufs| && s.bufs[c].queued && s.bufs[c].count == 0 && !s.bufs[c].dirt && !Locked(s.bufs[c])
    ensures CanRun(s, [Pick(u, b)] + [SyncNext(u)]) && r == End(s, [Pick(u, b)] + [SyncNext(u)])
    ensures Coherent(r) && RaceReady(r, t, c, s.bufs[b].key)
  {
    EvictionSleeps(s, u, b, want);
    var m := Step(s, Pick(u, b));
    r := Step(m, SyncNext(u));
    CoherentStep(s, Pick(u, b));
    CoherentStep(m, SyncNext(u));
    assert r.bufs[b].dirt && r.bufs[b].key == s.bufs[b].key && r.bufs[b].data != r.disk[s.bufs[b].key];
    Cons(m, SyncNext(u), []);
    Cons(s, Pick(u, b), [SyncNext(u)]);
  }

  // ----- both from an unused cache -----------------------------------------------

  lemma {:induction false} Join(s: State, p: seq<Action>, q: seq<Action>)
    requires Inv(s) && CanRun(s, p) && CanRun(End(s, p), q)
    ensures CanRun(s, p + q) && End(s, p + q) == End(End(s, p), q)
    decreases |p|
  {
    if p == [] {
      assert p + q == q;
    } else {
      assert (p + q)[1..] == p[1..] + q;
      Join(Step(s, p[0]), p[1..], q);
    }
  }

  /** A buffer nobody has used yet. */
  predicate Unused(x: Buffer) { x == Buffer(Key(0, 0), false, false, 0, NoIo, x.data, true, multiset{}) }

  /** The calls of a getblk(k) by t that picks buffer b. */
  function GetRun(t: nat, b: nat, k: Key): seq<Action> {
    [Request(t, k)] + ([Lookup(t)] + ([Pick(t, b)] + ([AssignBlock(t)] + [])))
  }

  lemma Got(s: State, t: nat, b: nat, k: Key) returns (r: State)
    requires Inv(s) && t < |s.pcs| && s.pcs[t].Idle? && b < |s.bufs| && Unused(s.bufs[b]) && k.dev != 0
    requires Find(s, k) == -1
    ensures CanRun(s, GetRun(t, b, k)) && r == End(s, GetRun(t, b, k))
    ensures r.bufs == s.bufs[b := Buffer(k, false, false, 1, NoIo, s.bufs[b].data, true, multiset{t})]
    ensures r.pcs == s.pcs && r.disk == s.disk && r.flat == s.flat
  {
    var s1 := Step(s, Request(t, k));
    assert s1.bufs == s.bufs && s1.pcs == s.pcs[t := Start(k)];
    var s2 := Step(s1, Lookup(t));
    assert s2.bufs == s.bufs && s2.pcs == s.pcs[t := Search(k)];
    r := Picked(s2, t, b, k);
    assert r.pcs == s.pcs;
    Cons(s1, Lookup(t), [Pick(t, b)] + ([AssignBlock(t)] + []));
    Cons(s, Request(t, k), [Lookup(t)] + ([Pick(t, b)] + ([AssignBlock(t)] + [])));
  }

  lemma Picked(s: State, t: nat, b: nat, k: Key) returns (r: State)
    requires Inv(s) && t < |s.pcs| && s.pcs[t] == Search(k) && b < |s.bufs| && Unused(s.bufs[b]) && k.dev != 0
    requires Find(s, k) == -1
    ensures CanRun(s, [Pick(t, b)] + ([AssignBlock(t)] + [])) && r == End(s, [Pick(t, b)] + ([AssignBlock(t)] + []))
    ensures r.bufs == s.bufs[b := Buffer(k, false, false, 1, NoIo, s.bufs[b].data, true, multiset{t})]
    ensures r.pcs == s.pcs[t := Idle] && r.disk == s.disk && r.flat == s.flat
  {
    var m := Step(s, Pick(t, b));
    assert m.bufs[b] == Hold(s.bufs[b], t).(queued := false) && m.pcs[t] == Assign(k, b);
    assert forall j :: 0 <= j < |s.bufs| ==> !IsFor(s.bufs[j], k) ==> !IsFor(m.bufs[j], k);
    r := Step(m, AssignBlock(t));
    assert multiset{} + multiset{t} == multiset{t};
    assert r.bufs[b] == Buffer(k, false, false, 1, NoIo, s.bufs[b].data, true, multiset{t});
    Cons(m, AssignBlock(t), []);
    Cons(s, Pick(t, b), [AssignBlock(t)] + []);
  }

  /** The whole block is overwritten and the buffer released. */
  function PutRun(t: nat, b: nat, d: Block): seq<Action> { [Overwrite(t, b, d)] + ([Release(t, b)] + []) }

  lemma PutBack(s: State, t: nat, b: nat, k: Key, d: Block) returns (r: State)
    requires Inv(s) && t < |s.pcs| && s.pcs[t].Idle? && b < |s.bufs|
    requires s.bufs[b] == Buffer(k, false, false, 1, NoIo, s.bufs[b].data, true, multiset{t})
    ensures CanRun(s, PutRun(t, b, d)) && r == End(s, PutRun(t, b, d))
    ensures r.bufs == s.bufs[b := Buffer(k, true, true, 0, NoIo, d, true, multiset{})]
    ensures r.pcs == s.pcs && r.disk == s.disk && r.flat == s.flat[k := d]
  {
    var m := Step(s, Overwrite(t, b, d));
    r := Step(m, Release(t, b));
    Cons(m, Release(t, b), []);
    Cons(s, Overwrite(t, b, d), [Release(t, b)] + []);
  }

  function WriteRun(t: nat, b: nat, k: Key, d: Block): seq<Action> { GetRun(t, b, k) + PutRun(t, b, d) }

  lemma Wrote(s: State, t: nat, b: nat, k: Key, d: Block) returns (r: State)
    requires Inv(s) && t < |s.pcs| && s.pcs[t].Idle? && b < |s.bufs| && Unused(s.bufs[b]) && k.dev != 0
    requires Find(s, k) == -1
    ensures CanRun(s, WriteRun(t, b, k, d)) && r == End(s, WriteRun(t, b, k, d))
    ensures r.bufs == s.bufs[b := Buffer(k, true, true, 0, NoIo, d, true, multiset{})]
    ensures r.pcs == s.pcs && r.disk == s.disk && r.flat == s.flat[k := d]
  {
    var m := Got(s, t, b, k);
    r := PutBack(m, t, b, k, d);
    Join(s, GetRun(t, b, k), PutRun(t, b, d));
  }

  const OTHER: Key := Key(3, 4)
  const BLOCK: Key := Key(3, 5)

  function Zeros(k: Key): Block { [0] }

  /** Two idle tasks, three buffers and a disk of zeros. */
  ghost function Boot(): State {
    var x := Buffer(Key(0, 0), false, false, 0, NoIo, [0], true, multiset{});
    State([x, x, x], [Idle, Idle], imap k: Key :: Zeros(k), imap k: Key :: Zeros(k))
  }

  lemma Booted()
    ensures Init(Boot()) && Inv(Boot())
  {
    InitInv(Boot());
  }

  /** Task 0 writes two blocks. */
  function WriteTwo(): seq<Action> { WriteRun(0, 0, OTHER, [1]) + WriteRun(0, 1, BLOCK, [1]) }

  lemma WroteTwo() returns (r: State)
    ensures Inv(Boot()) && CanRun(Boot(), WriteTwo()) && r == End(Boot(), WriteTwo())
    ensures r.bufs == [Buffer(OTHER, true, true, 0, NoIo, [1], true, multiset{}),
                       Buffer(BLOCK, true, true, 0, NoIo, [1], true, multiset{}),
                       Buffer(Key(0, 0), false, false, 0, NoIo, [0], true, multiset{})]
    ensures r.pcs == [Idle, Idle] && r.disk == Boot().disk && r.flat == Boot().flat[OTHER := [1]][BLOCK := [1]]
  {
    var s := Boot();
    Booted();
    var m := Wrote(s, 0, 0, OTHER, [1]);
    r := Wrote(m, 0, 1, BLOCK, [1]);
    Join(s, WriteRun(0, 0, OTHER, [1]), WriteRun(0, 1, BLOCK, [1]));
  }

  lemma TwoDirty(s: State)
    requires Inv(s) && s.disk == Boot().disk && s.flat == Boot().flat[OTHER := [1]][BLOCK := [1]]
    requires s.bufs == [Buffer(OTHER, true, true, 0, NoIo, [1], true, multiset{}),
                        Buffer(BLOCK, true, true, 0, NoIo, [1], true, multiset{}),
                        Buffer(Key(0, 0), false, false, 0, NoIo, [0], true, multiset{})]
    ensures Coherent(s)
  {
    assert s.bufs[0].key == OTHER && s.bufs[1].key == BLOCK && s.bufs[2].key == Key(0, 0);
    assert DirtyFor(s, OTHER) && DirtyFor(s, BLOCK);
    assert forall k :: k != OTHER && k != BLOCK ==> s.disk[k] == s.flat[k];
  }

  lemma RaceFrom(s: State) returns (run: seq<Action>)
    requires Inv(s) && Coherent(s) && s.pcs == [Idle, Idle] && s.disk == Boot().disk
    requires s.bufs == [Buffer(OTHER, true, true, 0, NoIo, [1], true, multiset{}),
                        Buffer(BLOCK, true, true, 0, NoIo, [1], true, multiset{}),
                        Buffer(Key(0, 0), false, false, 0, NoIo, [0], true, multiset{})]
    ensures CanRun(s, run) && GivesOldBytes(End(s, run), 2, BLOCK)
  {
    assert s.bufs[1].data != s.disk[BLOCK];
    assert Find(s, Key(3, 9)) == -1;
    EvictionOpensRace(s, 0, 1, 1, 2, Key(3, 9));
    BreadReturnsOldBytes(End(s, EvictRun(0, 1, Key(3, 9))), 1, 2, BLOCK);
    run := EvictRun(0, 1, Key(3, 9)) + BreadRun(1, 2, BLOCK);
    Join(s, EvictRun(0, 1, Key(3, 9)), BreadRun(1, 2, BLOCK));
  }

  /** The property fails in the code: from an unused cache, two overlapping calls of getblk break coherence. */
  lemma GetblkRace() returns (run: seq<Action>)
    ensures Init(Boot()) && Inv(Boot()) && CanRun(Boot(), run) && GivesOldBytes(End(Boot(), run), 2, BLOCK)
  {
    Booted();
    var m := WroteTwo();
    TwoDirty(m);
    run := RaceFrom(m);
    Join(Boot(), WriteTwo(), run);
    run := WriteTwo() + run;
  }

  // ----- a write overtaken by a store ---------------------------------------------

  /** sys_sync writes the buffer, and t stores into it after the drive has been given the bytes. */
  function OvertakeRun(t: nat, b: nat, d: Block): seq<Action> {
    [StartSync(b)] + ([Transfer(b)] + ([Modify(t, b, d)] + ([IoDone(b)] + [])))
  }

  lemma StoreIsLost(s: State, t: nat, b: nat, d: Block)
    requires Inv(s) && Coherent(s) && t < |s.pcs| && s.pcs[t].Idle? && b < |s.bufs| && t in s.bufs[b].users
    requires s.bufs[b].dirt && s.bufs[b].io == NoIo && d != s.bufs[b].data
    ensures CanRun(s, OvertakeRun(t, b, d)) && !Coherent(End(s, OvertakeRun(t, b, d)))
  {
    assert BufOk(s, b);
    var s1 := Step(s, StartSync(b));
    CoherentStep(s, StartSync(b));
    var s2 := Step(s1, Transfer(b));
    CoherentStep(s1, Transfer(b));
    Overtaken(s2, t, b, d);
    Cons(s1, Transfer(b), [Modify(t, b, d)] + ([IoDone(b)] + []));
    Cons(s, StartSync(b), [Transfer(b)] + ([Modify(t, b, d)] + ([IoDone(b)] + [])));
  }

  lemma Overtaken(s: State, t: nat, b: nat, d: Block)
    requires Inv(s) && Coherent(s) && t < |s.pcs| && s.pcs[t].Idle? && b < |s.bufs| && t in s.bufs[b].users
    requires s.bufs[b].uptodate && s.bufs[b].io == Sent && d != s.disk[s.bufs[b].key]
    ensures CanRun(s, [Modify(t, b, d)] + ([IoDone(b)] + []))
    ensures !Coherent(End(s, [Modify(t, b, d)] + ([IoDone(b)] + [])))
  {
    var m := Step(s, Modify(t, b, d));
    CoherentStep(s, Modify(t, b, d));
    CoherentStepIff(m, IoDone(b));
    Cons(m, IoDone(b), []);
    Cons(s, Modify(t, b, d), [IoDone(b)] + []);
  }

  function LossRun(): seq<Action> { GetRun(0, 0, BLOCK) + ([Overwrite(0, 0, [1])] + OvertakeRun(0, 0, [2])) }

  lemma LossByOneTask()
    ensures ByOneTask(LossRun(), 0)
  {
  }

  /** One task alone is enough: it holds a buffer while sys_sync writes it, and its second store is gone. */
  lemma SequentialLoss()
    ensures Init(Boot()) && Inv(Boot()) && CanRun(Boot(), LossRun())
    ensures ByOneTask(LossRun(), 0) && !Coherent(End(Boot(), LossRun()))
  {
    Booted();
    LossByOneTask();
    var m := Got(Boot(), 0, 0, BLOCK);
    LossFrom(m);
    Join(Boot(), GetRun(0, 0, BLOCK), [Overwrite(0, 0, [1])] + OvertakeRun(0, 0, [2]));
  }

  lemma LossFrom(s: State)
    requires Inv(s) && |s.pcs| > 0 && s.pcs[0].Idle? && |s.bufs| > 0 && 0 in s.bufs[0].users && s.bufs[0].io == NoIo
    requires s.disk == s.flat && (forall b :: 0 <= b < |s.bufs| ==> !s.bufs[b].dirt && !s.bufs[b].uptodate)
    ensures var run := [Overwrite(0, 0, [1])] + OvertakeRun(0, 0, [2]);
            CanRun(s, run) && !Coherent(End(s, run))
  {
    var n := Step(s, Overwrite(0, 0, [1]));
    CoherentStep(s, Overwrite(0, 0, [1]));
    StoreIsLost(n, 0, 0, [2]);
    Cons(s, Overwrite(0, 0, [1]), OvertakeRun(0, 0, [2]));
  }

  // ----- new_block finds its block in use ------------------------------------------

  /** The calls of a getblk by t that finds its block. */
  function HitRun(t: nat, k: Key): seq<Action> { [Request(t, k)] + ([Lookup(t)] + ([FoundReady(t)] + [])) }

  lemma Hit(s: State, t: nat, b: nat, k: Key) returns (r: State)
    requires Inv(s) && t < |s.pcs| && s.pcs[t].Idle? && k.dev != 0 && Find(s, k) == b && b < |s.bufs|
    requires !Locked(s.bufs[b])
    ensures CanRun(s, HitRun(t, k)) && r == End(s, HitRun(t, k))
    ensures r.bufs == s.bufs[b := Hold(s.bufs[b], t)] && r.pcs == s.pcs
  {
    var s1 := Step(s, Request(t, k));
    assert s1.bufs == s.bufs && s1.pcs == s.pcs[t := Start(k)];
    var s2 := Step(s1, Lookup(t));
    assert s2.bufs == s.bufs[b := Hold(s.bufs[b], t)] && s2.pcs[t] == Found(k, b);
    r := Step(s2, FoundReady(t));
    assert r.pcs == s.pcs;
    Cons(s2, FoundReady(t), []);
    Cons(s1, Lookup(t), [FoundReady(t)] + []);
    Cons(s, Request(t, k), [Lookup(t)] + ([FoundReady(t)] + []));
  }

  /** Task 0 has freed the block, which nobody else held, and its buffer is still hashed. */
  function FreeRun(): seq<Action> { GetRun(0, 0, BLOCK) + ([Forget(0, 0)] + []) }

  lemma Freed() returns (r: State)
    ensures Inv(Boot()) && CanRun(Boot(), FreeRun()) && r == End(Boot(), FreeRun()) && r.pcs == [Idle, Idle]
    ensures |r.bufs| == 3 && r.bufs[0] == Buffer(BLOCK, false, false, 0, NoIo, [0], true, multiset{})
  {
    Booted();
    var m := Got(Boot(), 0, 0, BLOCK);
    r := Step(m, Forget(0, 0));
    assert multiset{0} - multiset{0} == multiset{};
    Cons(m, Forget(0, 0), []);
    Join(Boot(), GetRun(0, 0, BLOCK), [Forget(0, 0)] + []);
  }

  /** Then task 1, which had looked the zone number up before, reads it, and new_block in task 0 is given it. */
  function BusyRun(): seq<Action> { FreeRun() + (HitRun(1, BLOCK) + HitRun(0, BLOCK)) }

  /** So the panic "new block: count is != 1" can be reached. */
  lemma BlockStillHeld()
    ensures Init(Boot()) && Inv(Boot()) && CanRun(Boot(), BusyRun())
    ensures var r := End(Boot(), BusyRun());
            |r.bufs| > 0 && r.bufs[0].key == BLOCK && r.bufs[0].count == 2 && r.pcs == [Idle, Idle]
  {
    Booted();
    var m := Freed();
    assert Find(m, BLOCK) == 0;
    var n := Hit(m, 1, 0, BLOCK);
    assert Find(n, BLOCK) == 0;
    var r := Hit(n, 0, 0, BLOCK);
    Join(m, HitRun(1, BLOCK), HitRun(0, BLOCK));
    Join(Boot(), FreeRun(), HitRun(1, BLOCK) + HitRun(0, BLOCK));
  }
}

/**
  Is the cache transparent?  `flat` holds, for every block, the last bytes
  written through any buffer.  The cache is coherent when every up-to-date
  hashed buffer holds exactly those bytes.
 */
module BufferCoherence {
  import opened BufferCache

  // ----- runs -----------------------------------------------------------------

  ghost function Step(s: State, a: Action): (r: State)
    requires Inv(s) && Enabled(s, a)
    ensures Inv(r) && |r.bufs| == |s.bufs| && |r.pcs| == |s.pcs|
  {
    NoFreeOfFree(s, a);
    InvStep(s, a);
    Next(s, a)
  }

  /** Each action is possible where it comes. */
  ghost predicate CanRun(s: State, run: seq<Action>)
    requires Inv(s)
    decreases |run|
  {
    run == [] || (Enabled(s, run[0]) && CanRun(Step(s, run[0]), run[1..]))
  }

  ghost function End(s: State, run: seq<Action>): (r: State)
    requires Inv(s) && CanRun(s, run)
    ensures Inv(r) && |r.bufs| == |s.bufs| && |r.pcs| == |s.pcs|
    decreases |run|
  {
    if run == [] then s else End(Step(s, run[0]), run[1..])
  }

  // ----- no buffer in use is re-assigned --------------------------------------

  predicate Lets(a: Action, t: nat, b: nat) { a == Release(t, b) || a == Forget(t, b) }

  /** The reference that a getblk still under way has taken on b. */
  function Underway(p: Pc, b: nat): nat { if (p.Found? || p.Stale? || Evicts(p, b)) && p.b == b then 1 else 0 }

  /** Task t got b from getblk and has not released it. */
  predicate Holds(s: State, t: nat, b: nat) {
    t < |s.pcs| && b < |s.bufs| && s.bufs[b].users[t] > Underway(s.pcs[t], b)
  }

  /**
    Whoever else does what, between getblk and brelse a task's buffer keeps its
    block.  The task itself may meanwhile be inside getblk for other blocks.
   */
  lemma {:induction false} HeldBuffersStay(s: State, run: seq<Action>, t: nat, b: nat)
    requires Inv(s) && CanRun(s, run) && Holds(s, t, b)
    requires forall k :: 0 <= k < |run| ==> !Lets(run[k], t, b)
    ensures End(s, run).bufs[b].key == s.bufs[b].key && Holds(End(s, run), t, b)
    decreases |run|
  {
    if run != [] {
      var a := run[0];
      assert !Lets(a, t, b);
      HeldStep(s, a, t, b);
      HeldBuffersStay(Step(s, a), run[1..], t, b);
    }
  }

  lemma HeldStep(s: State, a: Action, t: nat, b: nat)
    requires Inv(s) && Enabled(s, a) && Holds(s, t, b) && !Lets(a, t, b)
    ensures Holds(Step(s, a), t, b) && Step(s, a).bufs[b].key == s.bufs[b].key
  {
    NoFreeOfFree(s, a);
    assert BufOk(s, b);
    Evictors(s, b);
    if a.AssignBlock? {
      assert Evicts(s.pcs[a.t], s.pcs[a.t].b);
    }
    assert t in s.bufs[b].users;
    HeldNext(s, a, t, b);
  }

  lemma HeldNext(s: State, a: Action, t: nat, b: nat)
    requires Shape(s) && Enabled(s, a) && Holds(s, t, b) && !Lets(a, t, b)
    requires a.DropStale? ==> s.bufs[s.pcs[a.t].b].count > 0
    requires a.Release? || a.Forget? ==> s.bufs[a.b].count > 0
    requires a.AssignBlock? ==> s.pcs[a.t].b != b
    requires a.Pick? ==> a.b != b
    ensures Holds(Next(s, a), t, b) && Next(s, a).bufs[b].key == s.bufs[b].key
  {
  }

  /** A step that gives a buffer another block is taken by the one task that holds it, which found it unreferenced. */
  lemma OnlyEvictorReassigns(s: State, a: Action, b: nat)
    requires Inv(s) && Enabled(s, a) && b < |s.bufs| && Step(s, a).bufs[b].key != s.bufs[b].key
    ensures a.AssignBlock? && s.pcs[a.t].b == b && s.bufs[b].users == multiset{a.t} && s.bufs[b].count == 1
    ensures !s.bufs[b].queued
  {
    assert BufOk(s, b);
    if a.AssignBlock? {
      assert PcOk(s, a.t);
    }
  }

  // ----- coherence ------------------------------------------------------------

  ghost predicate DirtyFor(s: State, k: Key) { exists b :: 0 <= b < |s.bufs| && s.bufs[b].dirt && s.bufs[b].key == k }

  ghost predicate Coherent(s: State)
    requires Shape(s)
  {
    && (forall b :: 0 <= b < |s.bufs| && Hashed(s.bufs[b]) && s.bufs[b].uptodate ==>
         s.bufs[b].data == s.flat[s.bufs[b].key])
    && (forall b :: 0 <= b < |s.bufs| && s.bufs[b].dirt ==> s.bufs[b].data == s.flat[s.bufs[b].key])
    && (forall k :: s.disk[k] != s.flat[k] ==> DirtyFor(s, k))
    && (forall b, c ::
          0 <= b < |s.bufs| && 0 <= c < |s.bufs| && b != c && s.bufs[b].dirt && s.bufs[c].key == s.bufs[b].key ==>
            !Hashed(s.bufs[c]) && !s.bufs[c].dirt)
  }

  lemma InitCoherent(s: State)
    requires Init(s)
    ensures Inv(s) && Coherent(s)
  {
    InitInv(s);
  }

  /** getblk is about to hash a buffer for a block of which an unhashed buffer still holds unwritten bytes. */
  ghost predicate Races(s: State, a: Action)
    requires Inv(s) && Enabled(s, a)
  {
    a.AssignBlock? && Find(s, s.pcs[a.t].want) == -1 && DirtyFor(s, s.pcs[a.t].want)
  }

  /** A write completes and clears b_dirt over bytes that were stored after the drive took the old ones. */
  ghost predicate Loses(s: State, a: Action)
    requires Inv(s) && Enabled(s, a)
  {
    a.IoDone? && s.bufs[a.b].io == Sent && s.bufs[a.b].data != s.disk[s.bufs[a.b].key]
  }

  lemma DirtyStays(s: State, r: State, b: nat, k: Key)
    requires DirtyFor(s, k) && |r.bufs| == |s.bufs|
    requires forall c :: 0 <= c < |s.bufs| && c != b ==> r.bufs[c] == s.bufs[c]
    requires b < |s.bufs| && s.bufs[b].key == k ==> r.bufs[b].dirt == s.bufs[b].dirt && r.bufs[b].key == k
    ensures DirtyFor(r, k)
  {
    var c :| 0 <= c < |s.bufs| && s.bufs[c].dirt && s.bufs[c].key == k;
    assert r.bufs[c].dirt && r.bufs[c].key == k;
  }

  /** Exactly which actions break coherence: the race in getblk, and the end of a write that a store has overtaken. */
  lemma CoherentStepIff(s: State, a: Action)
    requires Inv(s) && Enabled(s, a) && Coherent(s)
    ensures Coherent(Step(s, a)) <==> !Races(s, a) && !Loses(s, a)
  {
    if Races(s, a) {
      RaceBreaks(s, a);
    } else if Loses(s, a) {
      LossBreaks(s, a);
    } else {
      CoherentStep(s, a);
    }
  }

  lemma RaceBreaks(s: State, a: Action)
    requires Inv(s) && Enabled(s, a) && Coherent(s) && Races(s, a)
    ensures !Coherent(Step(s, a))
  {
    var b, k, r := s.pcs[a.t].b, s.pcs[a.t].want, Step(s, a);
    assert PcOk(s, a.t) && PcInRange(s.pcs[a.t], |s.bufs|);
    var c :| 0 <= c < |s.bufs| && s.bufs[c].dirt && s.bufs[c].key == k;
    assert c != b && r.bufs[c].dirt && r.bufs[b].key == r.bufs[c].key && Hashed(r.bufs[b]);
  }

  lemma LossBreaks(s: State, a: Action)
    requires Inv(s) && Enabled(s, a) && Coherent(s) && Loses(s, a)
    ensures !Coherent(Step(s, a))
  {
    var k, r := s.bufs[a.b].key, Step(s, a);
    assert BufOk(s, a.b);
    assert r.disk[k] != r.flat[k];
    forall c | 0 <= c < |r.bufs| && r.bufs[c].key == k
      ensures !r.bufs[c].dirt
    {
    }
  }

  lemma CoherentStep(s: State, a: Action)
    requires Inv(s) && Enabled(s, a) && Coherent(s) && !Races(s, a) && !Loses(s, a)
    ensures Coherent(Step(s, a))
  {
    match a
    case Modify(_, b, _) => CoherentStore(s, a);
    case Overwrite(_, b, _) => CoherentStore(s, a);
    case Transfer(b) => CoherentTransfer(s, a);
    case IoDone(b) => CoherentIo(s, a);
    case Forget(_, b) => CoherentForget(s, a);
    case AssignBlock(_) => CoherentAssign(s, a);
    case _ => CoherentQuiet(s, a);
  }

  /** No bytes, key, dirty or up-to-date flag changed, and nothing was hashed. */
  ghost predicate Quiet(s: State, r: State) {
    && |r.bufs| == |s.bufs| && r.disk == s.disk && r.flat == s.flat
    && forall b :: 0 <= b < |s.bufs| ==> QuietBuffer(s.bufs[b], r.bufs[b])
  }

  predicate QuietBuffer(x: Buffer, y: Buffer) {
    y.key == x.key && y.dirt == x.dirt && y.data == x.data && y.uptodate == x.uptodate && (Hashed(y) ==> Hashed(x))
  }

  lemma QuietCoherent(s: State, r: State)
    requires Shape(s) && Shape(r) && Coherent(s) && Quiet(s, r)
    ensures Coherent(r)
  {
    forall b | 0 <= b < |s.bufs|
      ensures QuietBuffer(s.bufs[b], r.bufs[b])
    {
    }
    forall k | r.disk[k] != r.flat[k]
      ensures DirtyFor(r, k)
    {
      var c :| 0 <= c < |s.bufs| && s.bufs[c].dirt && s.bufs[c].key == k;
      assert r.bufs[c].dirt;
    }
  }

  lemma CoherentQuiet(s: State, a: Action)
    requires Inv(s) && Enabled(s, a) && Coherent(s)
    requires !a.Modify? && !a.Overwrite? && !a.Transfer? && !a.IoDone? && !a.Forget? && !a.AssignBlock?
    ensures Coherent(Step(s, a))
  {
    NoFreeOfFree(s, a);
    QuietNext(s, a);
    QuietCoherent(s, Step(s, a));
  }

  lemma QuietNext(s: State, a: Action)
    requires Shape(s) && Enabled(s, a)
    requires !a.Modify? && !a.Overwrite? && !a.Transfer? && !a.IoDone? && !a.Forget? && !a.AssignBlock?
    requires a.DropStale? ==> s.bufs[s.pcs[a.t].b].count > 0
    requires a.Release? ==> s.bufs[a.b].count > 0
    ensures Quiet(s, Next(s, a))
  {
  }

  lemma CoherentStore(s: State, a: Action)
    requires Inv(s) && Enabled(s, a) && Coherent(s) && (a.Modify? || a.Overwrite?)
    ensures Coherent(Step(s, a))
  {
    HeldInQueues(s, a.b, a.t);
    SoleCopy(s, a.b);
    StoreDirties(s, a);
  }

  /** No other buffer matters for the block of a hashed one. */
  lemma SoleCopy(s: State, b: nat)
    requires Inv(s) && Coherent(s) && b < |s.bufs| && Hashed(s.bufs[b])
    ensures forall c :: 0 <= c < |s.bufs| && c != b && s.bufs[c].key == s.bufs[b].key ==>
              !Hashed(s.bufs[c]) && !s.bufs[c].dirt
  {
  }

  lemma StoreDirties(s: State, a: Action)
    requires Inv(s) && Enabled(s, a) && Coherent(s) && (a.Modify? || a.Overwrite?)
    ensures forall k :: Step(s, a).disk[k] != Step(s, a).flat[k] ==> DirtyFor(Step(s, a), k)
  {
    var r := Step(s, a);
    forall k | r.disk[k] != r.flat[k]
      ensures DirtyFor(r, k)
    {
      if k == s.bufs[a.b].key {
        assert r.bufs[a.b].dirt && r.bufs[a.b].key == k;
      } else {
        DirtyStays(s, r, a.b, k);
      }
    }
  }

  lemma CoherentTransfer(s: State, a: Action)
    requires Inv(s) && Enabled(s, a) && Coherent(s) && a.Transfer?
    ensures Coherent(Step(s, a))
  {
    var r := Step(s, a);
    assert BufOk(s, a.b);
    forall k | r.disk[k] != r.flat[k]
      ensures DirtyFor(r, k)
    {
      DirtyStays(s, r, a.b, k);
    }
  }

  lemma CoherentIo(s: State, a: Action)
    requires Inv(s) && Enabled(s, a) && Coherent(s) && a.IoDone? && !Loses(s, a)
    ensures Coherent(Step(s, a))
  {
    var r := Step(s, a);
    var x := s.bufs[a.b];
    assert BufOk(s, a.b);
    if x.io == Reading {
      assert !x.dirt && Hashed(x);
      assert !DirtyFor(s, x.key);
    }
    forall k | r.disk[k] != r.flat[k]
      ensures DirtyFor(r, k)
    {
      DirtyStays(s, r, a.b, k);
    }
  }

  lemma CoherentForget(s: State, a: Action)
    requires Inv(s) && Enabled(s, a) && Coherent(s) && a.Forget?
    ensures Coherent(Step(s, a))
  {
    var r := Step(s, a);
    assert BufOk(s, a.b);
    forall k | r.disk[k] != r.flat[k]
      ensures DirtyFor(r, k)
    {
      DirtyStays(s, r, a.b, k);
    }
  }

  lemma CoherentAssign(s: State, a: Action)
    requires Inv(s) && Enabled(s, a) && Coherent(s) && a.AssignBlock? && !Races(s, a)
    ensures Coherent(Step(s, a))
  {
    var r := Step(s, a);
    var b := s.pcs[a.t].b;
    assert PcOk(s, a.t) && BufOk(s, b);
    forall k | r.disk[k] != r.flat[k]
      ensures DirtyFor(r, k)
    {
      var c :| 0 <= c < |s.bufs| && s.bufs[c].dirt && s.bufs[c].key == k;
      assert c != b && r.bufs[c] == s.bufs[c];
    }
  }

  // ----- main results ---------------------------------------------------------

  ghost predicate RaceFree(s: State, run: seq<Action>)
    requires Inv(s) && CanRun(s, run)
    decreases |run|
  {
    run == [] || (!Races(s, run[0]) && !Loses(s, run[0]) && RaceFree(Step(s, run[0]), run[1..]))
  }

  /**
    Over every run without the race and without an overtaken write, every
    up-to-date hashed buffer holds the last bytes written to its block.
   */
  lemma {:induction false} RaceFreeRunsAreCoherent(s: State, run: seq<Action>)
    requires Inv(s) && CanRun(s, run) && Coherent(s) && RaceFree(s, run)
    ensures Coherent(End(s, run))
    decreases |run|
  {
    if run != [] {
      CoherentStep(s, run[0]);
      RaceFreeRunsAreCoherent(Step(s, run[0]), run[1..]);
    }
  }

  /** What the drive has been given is what the buffer holds. */
  ghost predicate InFlight(s: State)
    requires Shape(s)
  {
    forall b :: 0 <= b < |s.bufs| && s.bufs[b].io == Sent ==> s.bufs[b].data == s.disk[s.bufs[b].key]
  }

  /** A store into a buffer while it is being written. */
  predicate Overtakes(s: State, a: Action) { a.Modify? && a.b < |s.bufs| && s.bufs[a.b].io == Sent }

  /** Only such a store makes a write lose bytes. */
  lemma InFlightStep(s: State, a: Action)
    requires Inv(s) && Enabled(s, a) && Coherent(s) && InFlight(s) && !Overtakes(s, a)
    ensures !Loses(s, a) && InFlight(Step(s, a))
  {
    if a.Transfer? {
      TransferInFlight(s, a);
    } else {
      OtherInFlight(s, a);
    }
  }

  lemma TransferInFlight(s: State, a: Action)
    requires Inv(s) && Enabled(s, a) && Coherent(s) && InFlight(s) && a.Transfer?
    ensures InFlight(Step(s, a))
  {
    assert BufOk(s, a.b);
    forall c | 0 <= c < |s.bufs| && c != a.b && s.bufs[c].io == Sent
      ensures s.bufs[c].key != s.bufs[a.b].key
    {
      assert BufOk(s, c);
    }
  }

  lemma OtherInFlight(s: State, a: Action)
    requires Inv(s) && Enabled(s, a) && InFlight(s) && !Overtakes(s, a) && !a.Transfer?
    ensures InFlight(Step(s, a))
  {
    NoFreeOfFree(s, a);
    var r, b := Step(s, a), Target(s, a);
    assert r.disk == s.disk && (forall c :: 0 <= c < |s.bufs| && c != b ==> r.bufs[c] == s.bufs[c]);
    if b != -1 {
      if a.AssignBlock? {
        assert PcOk(s, a.t);
      }
      TargetInFlight(s, a);
    }
  }

  lemma TargetInFlight(s: State, a: Action)
    requires Shape(s) && Enabled(s, a) && Target(s, a) != -1 && !Overtakes(s, a) && !a.Transfer?
    requires a.DropStale? || a.Release? || a.Forget? ==> s.bufs[Target(s, a)].count > 0
    requires a.AssignBlock? ==> s.bufs[s.pcs[a.t].b].io == NoIo
    ensures NewBuffer(s, a).io == Sent ==>
              s.bufs[Target(s, a)].io == Sent && NewBuffer(s, a).data == s.bufs[Target(s, a)].data
              && NewBuffer(s, a).key == s.bufs[Target(s, a)].key
  {
  }

  /** What the disk holds for k is out of date because an unwritten buffer has newer bytes. */
  ghost predicate StaleOnDisk(s: State, k: Key)
    requires Shape(s)
  {
    exists b :: 0 <= b < |s.bufs| && s.bufs[b].dirt && s.bufs[b].key == k && s.bufs[b].data != s.disk[k]
  }

  /**
    Exactly when bread returns the wrong bytes: getblk hashes a new buffer for
    a block and reads it from disk; the bytes are right if and only if no
    buffer outside the queues holds newer ones.
   */
  lemma BreadIsRightIff(s: State, t: nat)
    requires Inv(s) && Coherent(s) && Enabled(s, AssignBlock(t)) && Find(s, s.pcs[t].want) == -1
    ensures var b, k := s.pcs[t].b, s.pcs[t].want;
            && CanRun(s, [AssignBlock(t), StartRead(t, b), IoDone(b)])
            && var r := End(s, [AssignBlock(t), StartRead(t, b), IoDone(b)]);
               IsFor(r.bufs[b], k) && r.bufs[b].uptodate && (r.bufs[b].data == r.flat[k] <==> !StaleOnDisk(s, k))
  {
    var b, k := s.pcs[t].b, s.pcs[t].want;
    assert PcOk(s, t) && PcInRange(s.pcs[t], |s.bufs|);
    var run := [AssignBlock(t), StartRead(t, b), IoDone(b)];
    var s1 := Step(s, run[0]);
    assert run[1..] == [StartRead(t, b), IoDone(b)] && run[1..][1..] == [IoDone(b)] && run[1..][1..][1..] == [];
    assert Enabled(s1, StartRead(t, b));
    var s2 := Step(s1, StartRead(t, b));
    assert Enabled(s2, IoDone(b));
    var s3 := Step(s2, IoDone(b));
    assert CanRun(s3, []) && CanRun(s2, [IoDone(b)]) && CanRun(s1, run[1..]);
    assert End(s2, [IoDone(b)]) == End(s3, []);
    assert End(s, run) == s3;
  }

  /** No task but t is inside getblk. */
  predicate Alone(s: State, t: nat) { forall u :: 0 <= u < |s.pcs| && u != t ==> s.pcs[u].Idle? }

  /** A task by itself never races: its own victim has been written by the time it is re-assigned. */
  lemma AloneNeverRaces(s: State, a: Action, t: nat)
    requires Inv(s) && Enabled(s, a) && Alone(s, t)
    ensures !Races(s, a)
  {
    if a.AssignBlock? && Find(s, s.pcs[a.t].want) == -1 {
      assert a.t == t && PcOk(s, t);
      forall c | 0 <= c < |s.bufs| && s.bufs[c].key == s.pcs[t].want
        ensures !s.bufs[c].dirt
      {
        assert BufOk(s, c) && !IsFor(s.bufs[c], s.pcs[t].want);
        if s.bufs[c].dirt {
          assert !s.bufs[c].queued && |s.bufs[c].users| == 1;
          var u :| u in s.bufs[c].users;
        }
      }
    }
  }

  predicate ByOneTask(run: seq<Action>, t: nat) {
    forall k :: 0 <= k < |run| ==> run[k].Request? ==> run[k].t == t
  }

  /** No task stores into a buffer while the drive is writing it. */
  ghost predicate KeepsOff(s: State, run: seq<Action>)
    requires Inv(s) && CanRun(s, run)
    decreases |run|
  {
    run == [] || (!Overtakes(s, run[0]) && KeepsOff(Step(s, run[0]), run[1..]))
  }

  /**
    Used by one task at a time, which leaves a buffer alone while it is being
    written, the cache is a flat block store.
   */
  lemma {:induction false} SequentialRunsAreCoherent(s: State, run: seq<Action>, t: nat)
    requires Inv(s) && CanRun(s, run) && Coherent(s) && InFlight(s) && Alone(s, t) && ByOneTask(run, t)
    requires KeepsOff(s, run)
    ensures Coherent(End(s, run))
    decreases |run|
  {
    if run != [] {
      AloneNeverRaces(s, run[0], t);
      InFlightStep(s, run[0]);
      CoherentStep(s, run[0]);
      assert Alone(Step(s, run[0]), t);
      SequentialRunsAreCoherent(Step(s, run[0]), run[1..], t);
    }
  }
}

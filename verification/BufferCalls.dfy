/**
  What a caller of getblk, brelse and free_block can count on: what getblk comes
  back with, and that references are given out and taken back one by one.
 */
module BufferCalls {
  import opened BufferCache
  import opened BufferCoherence

  /** References of task t to buffer b, those of a getblk still under way left out. */
  ghost function Held(s: State, t: nat, b: nat): int
    requires t < |s.pcs| && b < |s.bufs|
  {
    s.bufs[b].users[t] - Underway(s.pcs[t], b)
  }

  /**
    getblk comes back with a buffer that is hashed, is for the block asked for and
    holds a reference more than before the call; a buffer that was not cached is
    clean and not up to date.
   */
  lemma GetblkReturns(s: State, a: Action)
    requires Inv(s) && Enabled(s, a) && Returns(s, a)
    ensures var r, b := Step(s, a), s.pcs[a.t].b;
            && r.pcs[a.t] == Idle && b < |s.bufs| && IsFor(r.bufs[b], s.pcs[a.t].want)
            && r.bufs[b].users == s.bufs[b].users && Held(r, a.t, b) == Held(s, a.t, b) + 1
            && (a.FoundReady? ==> r.bufs == s.bufs)
            && (a.AssignBlock? ==> r.bufs[b].count == 1 && !r.bufs[b].uptodate && !r.bufs[b].dirt)
            && r.disk == s.disk && r.flat == s.flat
  {
    assert PcOk(s, a.t) && PcInRange(s.pcs[a.t], |s.bufs|) && BufOk(s, s.pcs[a.t].b);
  }

  /** There is no other way out of getblk. */
  lemma LeavesByReturn(s: State, a: Action, t: nat)
    requires Inv(s) && Enabled(s, a) && t < |s.pcs| && !s.pcs[t].Idle?
    ensures Step(s, a).pcs[t].Idle? <==> !ByDrive(a) && a.t == t && Returns(s, a)
  {
    if !ByDrive(a) && a.t == t {
      assert PcOk(s, t) && PcInRange(s.pcs[t], |s.bufs|);
    }
  }

  /** Until then it is about the block it was called for; when it finds that things have changed it starts again. */
  lemma KeepsAsking(s: State, a: Action, t: nat)
    requires Inv(s) && Enabled(s, a) && t < |s.pcs| && !s.pcs[t].Idle?
    ensures !Step(s, a).pcs[t].Idle? ==> Step(s, a).pcs[t].want == s.pcs[t].want
    ensures a == DropStale(t) || a == Retry(t) || (a == AssignBlock(t) && Find(s, s.pcs[t].want) != -1) ==>
              Step(s, a).pcs[t] == Start(s.pcs[t].want)
    ensures a == FoundReady(t) && s.bufs[s.pcs[t].b].key != s.pcs[t].want ==>
              Step(s, a).pcs[t] == Stale(s.pcs[t].want, s.pcs[t].b)
  {
  }

  /**
    sync_dev goes through all buffers, from the first to the last: it passes one
    only if it is of another device or clean, and waits for it to be written if not.
   */
  lemma SyncPassesAll(s: State, a: Action)
    requires Inv(s) && Enabled(s, a) && (a.SyncNext? || a.SyncWritten?)
    ensures var p, q, r := s.pcs[a.t], Step(s, a).pcs[a.t], Step(s, a);
            && (a.SyncWritten? ==> q == Sync(p.want, p.b, p.dev, p.i + 1))
            && (a.SyncNext? ==> p.i <= |s.bufs| && (q.Assign? <==> p.i == |s.bufs|))
            && (a.SyncNext? && q.Sync? ==>
                  q.i == p.i + 1 && p.i < |s.bufs| && (s.bufs[p.i].key.dev != p.dev || !s.bufs[p.i].dirt))
            && (a.SyncNext? && q.SyncWait? ==>
                  q.i == p.i < |s.bufs| && s.bufs[p.i].key.dev == p.dev && r.bufs[p.i].io == Writing)
  {
    assert PcInRange(s.pcs[a.t], |s.bufs|);
  }

  /** A call of getblk by t ends with buffer b. */
  ghost predicate Gets(s: State, a: Action, t: nat, b: nat)
    requires Shape(s) && Enabled(s, a)
  {
    (a.FoundReady? || a.AssignBlock?) && a.t == t && s.pcs[t].b == b && Returns(s, a)
  }

  /** One action gives out or takes back at most one reference, and says so. */
  lemma HeldChanges(s: State, a: Action, t: nat, b: nat)
    requires Inv(s) && Enabled(s, a) && t < |s.pcs| && b < |s.bufs|
    ensures Held(Step(s, a), t, b) ==
            Held(s, t, b) + (if Gets(s, a, t, b) then 1 else 0) - if Lets(a, t, b) then 1 else 0
  {
    NoFreeOfFree(s, a);
    assert PcOk(s, t) && BufOk(s, b);
    if !ByDrive(a) {
      assert PcOk(s, a.t) && PcInRange(s.pcs[a.t], |s.bufs|);
    }
    if a.AssignBlock? && s.pcs[a.t].b == b {
      AssignHeld(s, a, t);
    } else {
      OtherHeld(s, a, t, b);
    }
  }

  lemma AssignHeld(s: State, a: Action, t: nat)
    requires Inv(s) && Enabled(s, a) && t < |s.pcs| && a.AssignBlock? && s.pcs[a.t].b < |s.bufs|
    requires s.bufs[s.pcs[a.t].b].users == multiset{a.t} && PcOk(s, t)
    ensures var b := s.pcs[a.t].b;
            Held(Step(s, a), t, b) == Held(s, t, b) + if t == a.t && Find(s, s.pcs[a.t].want) == -1 then 1 else 0
  {
  }

  lemma OtherHeld(s: State, a: Action, t: nat, b: nat)
    requires Shape(s) && Enabled(s, a) && t < |s.pcs| && b < |s.bufs| && !(a.AssignBlock? && s.pcs[a.t].b == b)
    requires a.DropStale? ==> s.bufs[s.pcs[a.t].b].count > 0 && a.t in s.bufs[s.pcs[a.t].b].users
    requires a.Release? || a.Forget? ==> s.bufs[a.b].count > 0
    ensures Held(Next(s, a), t, b) ==
            Held(s, t, b) + (if Gets(s, a, t, b) then 1 else 0) - if Lets(a, t, b) then 1 else 0
  {
    if a.Release? || a.Forget? {
      ReleaseHeld(s, a, t, b);
    } else if a.DropStale? {
      StaleHeld(s, a, t, b);
    } else if a.Lookup? || a.Pick? {
      TakenHeld(s, a, t, b);
    } else if ByDrive(a) || a.StartRead? || a.Modify? || a.Overwrite? {
      UsedHeld(s, a, t, b);
    } else {
      MovedHeld(s, a, t, b);
    }
  }

  lemma ReleaseHeld(s: State, a: Action, t: nat, b: nat)
    requires Shape(s) && Enabled(s, a) && t < |s.pcs| && b < |s.bufs| && (a.Release? || a.Forget?)
    requires s.bufs[a.b].count > 0
    ensures Held(Next(s, a), t, b) ==
            Held(s, t, b) + (if Gets(s, a, t, b) then 1 else 0) - if Lets(a, t, b) then 1 else 0
  {
  }

  lemma StaleHeld(s: State, a: Action, t: nat, b: nat)
    requires Shape(s) && Enabled(s, a) && t < |s.pcs| && b < |s.bufs| && a.DropStale?
    requires s.bufs[s.pcs[a.t].b].count > 0 && a.t in s.bufs[s.pcs[a.t].b].users
    ensures Held(Next(s, a), t, b) ==
            Held(s, t, b) + (if Gets(s, a, t, b) then 1 else 0) - if Lets(a, t, b) then 1 else 0
  {
  }

  lemma TakenHeld(s: State, a: Action, t: nat, b: nat)
    requires Shape(s) && Enabled(s, a) && t < |s.pcs| && b < |s.bufs| && (a.Lookup? || a.Pick?)
    ensures Held(Next(s, a), t, b) ==
            Held(s, t, b) + (if Gets(s, a, t, b) then 1 else 0) - if Lets(a, t, b) then 1 else 0
  {
  }

  lemma UsedHeld(s: State, a: Action, t: nat, b: nat)
    requires Shape(s) && Enabled(s, a) && t < |s.pcs| && b < |s.bufs|
    requires ByDrive(a) || a.StartRead? || a.Modify? || a.Overwrite?
    ensures Held(Next(s, a), t, b) ==
            Held(s, t, b) + (if Gets(s, a, t, b) then 1 else 0) - if Lets(a, t, b) then 1 else 0
  {
  }

  lemma MovedHeld(s: State, a: Action, t: nat, b: nat)
    requires Shape(s) && Enabled(s, a) && t < |s.pcs| && b < |s.bufs| && !(a.AssignBlock? && s.pcs[a.t].b == b)
    requires a.Request? || a.FoundReady? || a.Retry? || a.SyncNext? || a.SyncWritten? || a.AssignBlock?
    ensures Held(Next(s, a), t, b) ==
            Held(s, t, b) + (if Gets(s, a, t, b) then 1 else 0) - if Lets(a, t, b) then 1 else 0
  {
  }

  // ----- runs -----------------------------------------------------------------

  /** How often in the run getblk gave buffer b to t. */
  ghost function Got(s: State, run: seq<Action>, t: nat, b: nat): nat
    requires Inv(s) && CanRun(s, run)
    decreases |run|
  {
    if run == [] then 0 else (if Gets(s, run[0], t, b) then 1 else 0) + Got(Step(s, run[0]), run[1..], t, b)
  }

  /** And how often t gave it back. */
  function Let(run: seq<Action>, t: nat, b: nat): nat
    decreases |run|
  {
    if run == [] then 0 else (if Lets(run[0], t, b) then 1 else 0) + Let(run[1..], t, b)
  }

  /** Over every run, what a task holds is what getblk gave it less what it released. */
  lemma {:induction false} ReferencesBalance(s: State, run: seq<Action>, t: nat, b: nat)
    requires Inv(s) && CanRun(s, run) && t < |s.pcs| && b < |s.bufs|
    ensures Held(End(s, run), t, b) == Held(s, t, b) + Got(s, run, t, b) - Let(run, t, b)
    decreases |run|
  {
    if run != [] {
      HeldChanges(s, run[0], t, b);
      ReferencesBalance(Step(s, run[0]), run[1..], t, b);
    }
  }
}

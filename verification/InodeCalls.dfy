/**
  What a caller of iget, new_inode, get_pipe_inode and iput can count on: the
  references that each gives out or takes back, and that an inode nobody uses has
  been written.
 */
module InodeCalls {
  import opened InodeTable
  import opened InodeRuns

  /** References of task t to slot i, those of a call under way left out. */
  function Held(s: State, t: nat, i: nat): int
    requires t < |s.pcs| && i < |s.slots|
  {
    s.slots[i].users[t] - Underway(s.pcs[t], i)
  }

  /**
    What task t is given: one reference by iget and new_inode, two by
    get_pipe_inode, one for each i_count++.
   */
  ghost function Gains(s: State, a: Action, t: nat, i: nat): nat
    requires Shape(s) && Enabled(s, a) && t < |s.pcs| && i < |s.slots|
  {
    match a
    case FoundReady(u) => if u == t && s.pcs[t].i == i && s.slots[i].key == s.pcs[t].want then 1 else 0
    case IoDone(j) => if j == i && s.slots[i].lock == Reads(t) then 1 else 0
    case NameNew(u, _) => if u == t && s.pcs[t].e == i then 1 else 0
    case MakePipe(u) => if u == t && s.pcs[t].e == i then 2 else 0
    case Share(_, u, j) => if u == t && j == i then 1 else 0
    case _ => 0
  }

  /** One action gives exactly that, and takes back a reference when iput is called. */
  lemma HeldChanges(s: State, a: Action, t: nat, i: nat)
    requires Inv(s) && Enabled(s, a) && Clean(s, a) && t < |s.pcs| && i < |s.slots|
    ensures Held(Next(s, a), t, i) == Held(s, t, i) + Gains(s, a, t, i) - if Puts(a, t, i) then 1 else 0
  {
    if Mover(s, a) < |s.pcs| {
      assert PcOk(s, Mover(s, a)) && PcInRange(s.pcs[Mover(s, a)], |s.slots|);
    }
    assert PcOk(s, t) && SlotOk(s, i);
    if a.PutReady? && s.pcs[a.t].i == i {
      PutHeld(s, a, t, i);
    } else if t == Mover(s, a) {
      MoverHeld(s, a, t, i);
    } else {
      OtherHeld(s, a, t, i);
    }
  }

  lemma PutHeld(s: State, a: Action, t: nat, i: nat)
    requires Shape(s) && Enabled(s, a) && t < |s.pcs| && a.PutReady? && s.pcs[a.t].i == i < |s.slots|
    requires a.t in s.slots[i].users
    ensures Held(Next(s, a), t, i) == Held(s, t, i)
  {
    var x := s.slots[i];
    if |x.users| == 1 {
      OneUser(x.users, a.t);
    }
  }

  /** The mover's part: what its program counter stands for and what it does to its slot go together. */
  lemma MoverHeld(s: State, a: Action, t: nat, i: nat)
    requires Inv(s) && Enabled(s, a) && Clean(s, a) && t < |s.pcs| && i < |s.slots| && t == Mover(s, a)
    requires PcOk(s, t) && SlotOk(s, i) && !(a.PutReady? && s.pcs[a.t].i == i)
    ensures Held(Next(s, a), t, i) == Held(s, t, i) + Gains(s, a, t, i) - if Puts(a, t, i) then 1 else 0
  {
    if Target(s, a) == i {
      MoverHere(s, a, t, i);
    } else {
      assert Target(s, a) != -1 ==> SlotOk(s, Target(s, a));
      MoverElsewhere(s, a, t, i);
    }
  }

  lemma MoverElsewhere(s: State, a: Action, t: nat, i: nat)
    requires Inv(s) && Enabled(s, a) && Clean(s, a) && t < |s.pcs| && i < |s.slots| && t == Mover(s, a)
    requires PcOk(s, t) && Target(s, a) != i && (Target(s, a) != -1 ==> SlotOk(s, Target(s, a)))
    ensures Gains(s, a, t, i) == 0
    ensures Underway(NewPc(s, a), i) == Underway(s.pcs[t], i) + if Puts(a, t, i) then 1 else 0
  {
    if a.IoDone? || a.WriteOn? {
      IoElsewhere(s, a, t, i);
    } else {
      CallElsewhere(s, a, t, i);
    }
  }

  lemma IoElsewhere(s: State, a: Action, t: nat, i: nat)
    requires Shape(s) && s.stray == multiset{} && Enabled(s, a) && t < |s.pcs| && i < |s.slots| && t == Mover(s, a)
    requires (a.IoDone? || a.WriteOn?) && Target(s, a) != i && SlotOk(s, Target(s, a))
    ensures Gains(s, a, t, i) == 0 && Underway(NewPc(s, a), i) == Underway(s.pcs[t], i)
  {
  }

  lemma CallElsewhere(s: State, a: Action, t: nat, i: nat)
    requires Shape(s) && Enabled(s, a) && t < |s.pcs| && i < |s.slots| && t == Mover(s, a)
    requires !a.IoDone? && !a.WriteOn? && Target(s, a) != i
    ensures Gains(s, a, t, i) == 0
    ensures Underway(NewPc(s, a), i) == Underway(s.pcs[t], i) + if Puts(a, t, i) then 1 else 0
  {
  }

  lemma MoverHere(s: State, a: Action, t: nat, i: nat)
    requires Inv(s) && Enabled(s, a) && Clean(s, a) && t < |s.pcs| && i < |s.slots| && t == Mover(s, a)
    requires PcOk(s, t) && SlotOk(s, i) && !a.PutReady? && Target(s, a) == i
    ensures NewSlot(s, a).users[t] - Underway(NewPc(s, a), i)
            == s.slots[i].users[t] - Underway(s.pcs[t], i) + Gains(s, a, t, i)
  {
    if a.IoDone? || a.WriteOn? {
      IoHere(s, a, t, i);
    } else if a.ChosenReady? || a.Scan? || a.FoundReady? || a.NameNew? || a.MakePipe? {
      TakeHere(s, a, t, i);
    } else {
      GiveHere(s, a, t, i);
    }
  }

  lemma IoHere(s: State, a: Action, t: nat, i: nat)
    requires Shape(s) && s.stray == multiset{} && Enabled(s, a) && t < |s.pcs| && i < |s.slots| && t == Mover(s, a)
    requires SlotOk(s, i) && (a.IoDone? || a.WriteOn?) && Target(s, a) == i
    ensures NewSlot(s, a).users[t] - Underway(NewPc(s, a), i)
            == s.slots[i].users[t] - Underway(s.pcs[t], i) + Gains(s, a, t, i)
  {
  }

  lemma TakeHere(s: State, a: Action, t: nat, i: nat)
    requires Shape(s) && Enabled(s, a) && Clean(s, a) && t < |s.pcs| && i < |s.slots| && t == Mover(s, a)
    requires PcOk(s, t) && SlotOk(s, i) && Target(s, a) == i
    requires a.ChosenReady? || a.Scan? || a.FoundReady? || a.NameNew? || a.MakePipe?
    ensures NewSlot(s, a).users[t] - Underway(NewPc(s, a), i)
            == s.slots[i].users[t] - Underway(s.pcs[t], i) + Gains(s, a, t, i)
  {
  }

  lemma GiveHere(s: State, a: Action, t: nat, i: nat)
    requires Shape(s) && Enabled(s, a) && Clean(s, a) && t < |s.pcs| && i < |s.slots| && t == Mover(s, a)
    requires PcOk(s, t) && SlotOk(s, i) && Target(s, a) == i
    requires a.DropEmpty? || a.GiveUp? || a.Repeat? || a.FreeDone? || a.Modify?
    ensures NewSlot(s, a).users[t] - Underway(NewPc(s, a), i)
            == s.slots[i].users[t] - Underway(s.pcs[t], i) + Gains(s, a, t, i)
  {
  }

  lemma OtherHeld(s: State, a: Action, t: nat, i: nat)
    requires Inv(s) && Enabled(s, a) && Clean(s, a) && t < |s.pcs| && i < |s.slots| && t != Mover(s, a)
    requires Mover(s, a) < |s.pcs| ==> PcOk(s, Mover(s, a))
    requires PcOk(s, t) && SlotOk(s, i) && !(a.PutReady? && s.pcs[a.t].i == i)
    ensures Held(Next(s, a), t, i) == Held(s, t, i) + Gains(s, a, t, i) - if Puts(a, t, i) then 1 else 0
  {
    if Target(s, a) == i {
      OtherHere(s, a, t, i);
    }
  }

  lemma OtherHere(s: State, a: Action, t: nat, i: nat)
    requires Inv(s) && Enabled(s, a) && Clean(s, a) && t < |s.pcs| && i < |s.slots| && t != Mover(s, a)
    requires Mover(s, a) < |s.pcs| ==> PcOk(s, Mover(s, a))
    requires PcOk(s, t) && SlotOk(s, i) && !a.PutReady? && Target(s, a) == i
    ensures NewSlot(s, a).users[t] == s.slots[i].users[t] + Gains(s, a, t, i)
  {
  }

  // ----- runs -----------------------------------------------------------------

  ghost function Gained(s: State, es: seq<Action>, t: nat, i: nat): nat
    requires Shape(s) && CanRun(s, es) && t < |s.pcs| && i < |s.slots|
    decreases |es|
  {
    if es == [] then 0 else Gains(s, es[0], t, i) + Gained(Next(s, es[0]), es[1..], t, i)
  }

  function PutBack(es: seq<Action>, t: nat, i: nat): nat
    decreases |es|
  {
    if es == [] then 0 else (if Puts(es[0], t, i) then 1 else 0) + PutBack(es[1..], t, i)
  }

  /** Over every such run, the references a task has to an inode are those it was given less its calls of iput. */
  lemma {:induction false} ReferencesBalance(s: State, es: seq<Action>, t: nat, i: nat)
    requires Inv(s) && Coherent(s) && Named(s) && CanRun(s, es) && Timely(s, es) && t < |s.pcs| && i < |s.slots|
    ensures |End(s, es).pcs| == |s.pcs| && |End(s, es).slots| == |s.slots|
    ensures Held(End(s, es), t, i) == Held(s, t, i) + Gained(s, es, t, i) - PutBack(es, t, i)
    decreases |es|
  {
    if es != [] {
      TimelyStep(s, es[0]);
      HeldChanges(s, es[0], t, i);
      ReferencesBalance(Next(s, es[0]), es[1..], t, i);
    }
  }

  // ----- what nobody uses is clean ----------------------------------------------

  /** A slot without a reference has nothing left to write. */
  predicate UnusedClean(s: State) {
    forall i :: 0 <= i < |s.slots| && s.slots[i].users == multiset{} ==> !s.slots[i].dirt
  }

  /** iput lets the last reference go only when the inode has been written. */
  lemma UnusedCleanStep(s: State, a: Action)
    requires Inv(s) && Enabled(s, a) && Clean(s, a) && UnusedClean(s)
    ensures UnusedClean(Next(s, a))
  {
    if Mover(s, a) < |s.pcs| {
      assert PcOk(s, Mover(s, a)) && PcInRange(s.pcs[Mover(s, a)], |s.slots|);
    }
    var i := Target(s, a);
    if i != -1 {
      assert SlotOk(s, i);
      TargetClean(s, a);
    }
  }

  lemma TargetClean(s: State, a: Action)
    requires Inv(s) && Enabled(s, a) && Clean(s, a) && Target(s, a) != -1 && SlotOk(s, Target(s, a))
    requires Mover(s, a) < |s.pcs| ==> PcOk(s, Mover(s, a))
    requires s.slots[Target(s, a)].users == multiset{} ==> !s.slots[Target(s, a)].dirt
    ensures NewSlot(s, a).users == multiset{} ==> !NewSlot(s, a).dirt
  {
    var x := s.slots[Target(s, a)];
    if a.PutReady? && |x.users| > 1 {
      assert |x.users - multiset{a.t}| > 0;
    } else if a.PutReady? {
      OneUser(x.users, a.t);
    }
  }

  lemma {:induction false} AlwaysUnusedClean(s: State, es: seq<Action>)
    requires Inv(s) && Coherent(s) && Named(s) && CanRun(s, es) && Timely(s, es) && UnusedClean(s)
    ensures UnusedClean(End(s, es))
    decreases |es|
  {
    if es != [] {
      TimelyStep(s, es[0]);
      UnusedCleanStep(s, es[0]);
      AlwaysUnusedClean(Next(s, es[0]), es[1..]);
    }
  }

  // ----- iput -------------------------------------------------------------------

  /**
    iput once nobody writes the inode: one reference of several just goes; the last
    of a pipe leaves the slot unused; the last of an inode without links begins to
    free it; otherwise a changed inode is written first.
   */
  lemma PutReadyCases(s: State, a: Action)
    requires Inv(s) && Enabled(s, a) && a.PutReady?
    ensures var x, i, r := s.slots[s.pcs[a.t].i], s.pcs[a.t].i, Next(s, a);
            && (|x.users| > 1 ==> r.slots[i] == x.(users := x.users - multiset{a.t}) && r.pcs[a.t] == Idle)
            && (|x.users| == 1 && x.pipe ==>
                  r.slots[i] == x.(users := multiset{}, dirt := false, pipe := false) && r.pcs[a.t] == Idle)
            && (|x.users| == 1 && x.key.dev != 0 && x.content.nlinks == 0 ==>
                  r.slots == s.slots && r.pcs[a.t] == Freeing(i))
            && (|x.users| == 1 && x.key.dev != 0 && x.content.nlinks != 0 && x.dirt ==>
                  r.slots[i] == x.(lock := Writes(a.t)) && r.pcs[a.t] == PutWrite(i))
            && (|x.users| == 1 && x.key.dev != 0 && x.content.nlinks != 0 && !x.dirt ==>
                  r.slots[i] == x.(users := multiset{}) && r.pcs[a.t] == Idle)
  {
    var i := s.pcs[a.t].i;
    var x := s.slots[i];
    assert PcOk(s, a.t) && SlotOk(s, i);
    if |x.users| == 1 {
      OneUser(x.users, a.t);
    }
  }

  // ----- new inodes -------------------------------------------------------------

  /**
    new_inode: a number that was clear in the bitmap is set, and the slot is the
    new inode, with one link, to be written, and one reference, its caller's.
   */
  lemma NewInode(s: State, a: Action)
    requires Inv(s) && Enabled(s, a) && a.NameNew?
    ensures var r, p := Next(s, a), s.pcs[a.t];
            && p.e < |s.slots| && r.pcs[a.t] == Idle && r.slots[p.e].key == Key(p.why.dev, a.num)
            && r.slots[p.e].users == multiset{a.t} && r.slots[p.e].content.nlinks == 1 && r.slots[p.e].dirt
            && Key(p.why.dev, a.num) !in s.used && r.used == s.used + iset{Key(p.why.dev, a.num)}
            && r.flat[Key(p.why.dev, a.num)] == r.slots[p.e].content && r.disk == s.disk
  {
    assert PcOk(s, a.t) && PcInRange(s.pcs[a.t], |s.slots|);
  }

  /** get_pipe_inode: no number and two references, one for each end. */
  lemma PipeInode(s: State, a: Action)
    requires Inv(s) && Enabled(s, a) && a.MakePipe?
    ensures var r, p := Next(s, a), s.pcs[a.t];
            && p.e < |s.slots| && r.pcs[a.t] == Idle && r.slots[p.e].pipe && r.slots[p.e].key.dev == 0
            && |r.slots[p.e].users| == 2 && r.slots[p.e].users[a.t] == 2
            && r.used == s.used && r.disk == s.disk && r.flat == s.flat
  {
    assert PcOk(s, a.t) && PcInRange(s.pcs[a.t], |s.slots|);
  }

  /** free_inode: the number is free again, the slot empty, and nothing else changes. */
  lemma FreeInode(s: State, a: Action)
    requires Inv(s) && Enabled(s, a) && a.FreeDone? && Clean(s, a)
    ensures var r, i := Next(s, a), s.pcs[a.t].i;
            && i < |s.slots| && r.pcs[a.t] == Idle && r.slots[i] == Empty(multiset{})
            && s.slots[i].key in s.used && r.used == s.used - iset{s.slots[i].key}
            && forall j :: 0 <= j < |s.slots| && j != i ==> r.slots[j] == s.slots[j]
  {
    assert PcInRange(s.pcs[a.t], |s.slots|);
  }
}

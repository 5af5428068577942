/**
  fs/open.c, fs/fcntl.c, fs/pipe.c and their kin on the tables of OpenFiles.dfy,
  with the loops and the counts of the original, against the machine without
  counts of FileMachine.dfy and its references of FileRefs.dfy.
 */
module FileTable {
  import opened OpenFiles
  import opened FileMachine
  import opened FileRefs

  // ----- counting -------------------------------------------------------------

  function Seen(x: Tables): View { View(x.filp, x.inode, x.opening) }

  lemma ReadyIffInUse(x: Tables, f: nat)
    requires Good(x) && ViewOk(Seen(x)) && f < NR_FILE
    ensures x.ready[f] <==> InUse(Seen(x), f)
  {
    if x.ready[f] {
      NamedSomewhere(x.filp, f);
      var t, d :| 0 <= t < |x.filp| && 0 <= d < |x.filp[t]| && x.filp[t][d] == f;
      assert SlotOk(x, t, d);
    } else {
      forall t, d | 0 <= t < NR_TASKS && 0 <= d < NR_OPEN && x.filp[t][d] == f
        ensures d in x.opening[t]
      {
        assert SlotOk(x, t, d);
      }
    }
  }

  /** The files that have their inode are those in use. */
  lemma ReadyIsUsed(x: Tables)
    requires Good(x)
    ensures ViewOk(Seen(x)) && Used(Seen(x)) == x.ready
  {
    SeenOk(x);
    forall f | 0 <= f < NR_FILE
      ensures x.ready[f] == InUse(Seen(x), f)
    {
      ReadyIffInUse(x, f);
    }
  }

  /** What reference counting owns is what is in use. */
  lemma OwnedIsHeld(x: Tables)
    requires Good(x)
    ensures ViewOk(Seen(x)) && x.held == Owned(Seen(x))
  {
    ReadyIsUsed(x);
  }

  lemma SeenOk(x: Tables)
    requires Good(x)
    ensures ViewOk(Seen(x))
  {
    forall t, d | 0 <= t < NR_TASKS && d in x.opening[t]
      ensures d < NR_OPEN && x.filp[t][d] >= 0
    {
      assert d < NR_OPEN && SlotOk(x, t, d);
    }
  }

  /** What the tables lose is what the machine drops. */
  lemma DroppedIsLost(x: Tables, y: Tables, c: Call)
    requires Good(x) && Good(y) && ViewOk(Seen(x)) && Possible(Seen(x), c) && Effect(Seen(x), c).0 == Seen(y)
    ensures Dropped(Seen(x), c) == Lost(x.inode, x.ready, y.ready)
  {
    ReadyIsUsed(x);
    ReadyIsUsed(y);
  }

  /** The duplication in dup2 brings no file into use and drops none. */
  lemma DroppedByClose(v: View, t: nat, oldfd: nat, newfd: nat)
    requires ViewOk(v) && t < NR_TASKS && v.opening[t] == {} && Reserved(v)
    ensures Puts(v, Dup2(t, oldfd, newfd)) == Puts(v, Close(t, newfd))
  {
    CloseThenDup(v, t, oldfd, newfd);
    EffectOk(v, Close(t, newfd));
    ReservedStep(v, Close(t, newfd));
    SameUse(Effect(v, Close(t, newfd)).0, Dup(t, oldfd, newfd));
  }

  /** A file that is being opened has a count of one. */
  lemma FilesApart(x: Tables)
    requires Good(x)
    ensures ViewOk(Seen(x)) && Reserved(Seen(x))
  {
    SeenOk(x);
    forall t, d | 0 <= t < NR_TASKS && d in x.opening[t]
      ensures forall u, e :: 0 <= u < NR_TASKS && 0 <= e < NR_OPEN && (u != t || e != d) ==>
                x.filp[u][e] != x.filp[t][d]
    {
      assert d < NR_OPEN && SlotOk(x, t, d);
      NamedOnce(x.filp, x.count, t, d);
    }
  }

  lemma OneMoreRef(v: View, calls: seq<Call>, k: nat)
    requires ViewOk(v) && k < |calls|
    ensures var m, c := Effects(v, calls[..k]).0, calls[k];
            && Effects(v, calls[..k + 1]) == Then(Effects(v, calls[..k]), c)
            && AllGets(v, calls[..k + 1]) == AllGets(v, calls[..k]) + (if Possible(m, c) then Gets(c) else multiset{})
            && AllPuts(v, calls[..k + 1]) == AllPuts(v, calls[..k]) + if Possible(m, c) then Puts(m, c) else multiset{}
  {
    assert calls[..k + 1][..k] == calls[..k];
  }

  /** What the exact account of a run comes to. */
  lemma RunEnds(x: Tables, y: Tables, calls: seq<Call>, p: multiset<nat>, g: multiset<nat>)
    requires Good(x) && Good(y) && ViewOk(Seen(x)) && Seen(y) == Effects(Seen(x), calls).0
    ensures ViewOk(Seen(y)) && y.held == Owned(Seen(y))
    ensures p + Owned(Seen(x)) == g ==>
              (p + AllPuts(Seen(x), calls) + Owned(Seen(y)) == g + AllGets(Seen(x), calls) <==>
               Harmless(Seen(x), calls))
  {
    var v := Seen(x);
    OwnedIsHeld(y);
    FilesApart(x);
    ConservedIff(v, calls);
    if p + Owned(v) == g {
      Shift(p, AllPuts(v, calls), Owned(Seen(y)), g, AllGets(v, calls), Owned(v));
    }
  }

  lemma DetachFacts(x: Tables, t: nat, d: nat)
    requires Good(x) && t < NR_TASKS && d < NR_OPEN && d !in x.opening[t] && x.filp[t][d] >= 0
    ensures x.count[x.filp[t][d]] > 0 && x.ready[x.filp[t][d]] && Good(Detached(x, t, d))
    ensures var f, r := x.filp[t][d], Detached(x, t, d);
            && r.held == (if Named(r.filp)[f] == 0 then x.held - multiset{x.inode[f]} else x.held)
            && Below(r.ready, x.ready)
            && Lost(x.inode, x.ready, r.ready) == if x.count[f] == 1 then multiset{x.inode[f]} else multiset{}
  {
    DetachGood(x, t, d);
    assert SlotOk(x, t, d);
    LostOne(x.inode, x.ready, x.filp[t][d]);
    LostNone(x.inode, x.ready);
  }

  /** Each count follows the child's descriptors. */
  lemma ForkCounts(x: Tables, y: Tables, t: nat, nr: nat)
    requires Good(x) && Good(y) && t < NR_TASKS && nr < NR_TASKS && IsNull(x.filp[nr])
    requires y.filp == x.filp[nr := x.filp[t]]
    ensures forall f :: 0 <= f < NR_FILE ==> y.count[f] == x.count[f] + multiset(x.filp[t])[f]
  {
    RowChanges(x.filp, nr, x.filp[t]);
    forall f | 0 <= f < NR_FILE
      ensures y.count[f] == x.count[f] + multiset(x.filp[t])[f]
    {
      assert f !in x.filp[nr];
    }
  }

  lemma AddNothing(a: multiset<nat>)
    ensures a + multiset{} == a
  {
  }

  lemma Assoc(a: multiset<nat>, b: multiset<nat>, c: multiset<nat>)
    ensures (a + b) + c == a + (b + c) == a + (c + b)
  {
    assert b + c == c + b;
  }

  lemma Shift(p: multiset<nat>, dp: multiset<nat>, n: multiset<nat>, g: multiset<nat>, dg: multiset<nat>,
              o: multiset<nat>)
    requires p + o == g
    ensures (p + dp) + n == g + dg <==> dp + n == o + dg
  {
    assert g + dg == p + (o + dg) && (p + dp) + n == p + (dp + n);
    Cancel(p, dp + n, o + dg);
  }

  class Files {
    var filp: seq<Row>
    var count: seq<nat>
    var inode: seq<nat>
    var ready: seq<bool>
    var opening: seq<set<nat>>
    var held: multiset<nat>

    /** History: all references ever handed to the table, and the arguments of all its calls of iput. */
    var got: multiset<nat>
    var puts: multiset<nat>

    function State(): Tables
      reads this
    {
      Tables(filp, count, inode, ready, opening, held)
    }

    function Shown(): View
      reads this
    {
      Seen(State())
    }

    predicate Valid()
      reads this
    {
      Good(State())
    }

    /** No descriptor is open. */
    constructor ()
      ensures Valid() && Shown() == Boot() && got == puts == multiset{}
    {
      filp := seq(NR_TASKS, _ => NullRow());
      count := seq(NR_FILE, _ => 0);
      inode := seq(NR_FILE, _ => 0);
      ready := seq(NR_FILE, _ => false);
      opening := seq(NR_TASKS, _ => {});
      held, got, puts := multiset{}, multiset{}, multiset{};
      new;
      NothingNamed(filp);
      NothingHeld(inode, ready);
    }

    // ----- searches -----------------------------------------------------------

    /** The lowest unused descriptor from `arg` on, NR_OPEN if none. */
    method FreeDescriptor(t: nat, arg: nat) returns (fd: nat)
      requires Sized(State()) && t < NR_TASKS && arg <= NR_OPEN
      ensures fd == FirstFree(filp[t], arg)
    {
      fd := arg;
      while fd < NR_OPEN && filp[t][fd] >= 0
        invariant arg <= fd <= NR_OPEN
        invariant FirstFree(filp[t], fd) == FirstFree(filp[t], arg)
      {
        fd := fd + 1;
      }
    }

    /** The file whose count is zero is the file that nobody names. */
    method FreeFile(from: nat) returns (f: nat)
      requires Valid() && from <= NR_FILE
      ensures f == FirstUnnamed(filp, from) && (f < NR_FILE ==> count[f] == 0)
    {
      f := from;
      while f < NR_FILE && count[f] > 0
        invariant from <= f <= NR_FILE
        invariant FirstUnnamed(filp, f) == FirstUnnamed(filp, from)
      {
        f := f + 1;
      }
    }

    // ----- open ---------------------------------------------------------------

    method Reserve(t: nat, d: nat, f: nat)
      requires Valid() && t < NR_TASKS && d < NR_OPEN && filp[t][d] == -1 && f < NR_FILE && count[f] == 0
      modifies this
      ensures Valid() && State() == Slot(old(State()), t, d, f, 1, old(opening[t]) + {d})
      ensures filp == Put(old(filp), t, d, f) && inode == old(inode) && held == old(held) && ready == old(ready)
      ensures opening == old(opening)[t := old(opening[t]) + {d}] && got == old(got) && puts == old(puts)
    {
      ReserveGood(State(), t, d, f);
      ghost var r := Slot(State(), t, d, f, 1, opening[t] + {d});
      filp := filp[t := filp[t][d := f]];
      count := count[f := count[f] + 1];
      opening := opening[t := opening[t] + {d}];
      assert State() == r;
    }

    method Unreserve(t: nat, d: nat)
      requires Valid() && t < NR_TASKS && d in opening[t]
      modifies this
      ensures d < NR_OPEN && old(filp[t][d]) >= 0
      ensures Valid() && State() == Slot(old(State()), t, d, -1, 0, old(opening[t]) - {d})
      ensures filp == Put(old(filp), t, d, -1) && inode == old(inode) && held == old(held) && ready == old(ready)
      ensures opening == old(opening)[t := old(opening[t]) - {d}] && got == old(got) && puts == old(puts)
    {
      UnreserveGood(State(), t, d);
      var f := filp[t][d];
      filp := filp[t := filp[t][d := -1]];
      count := count[f := 0];
      opening := opening[t := opening[t] - {d}];
    }

    method Commit(t: nat, d: nat, ino: nat)
      requires Valid() && t < NR_TASKS && d in opening[t]
      modifies this
      ensures d < NR_OPEN && old(filp[t][d]) >= 0
      ensures Valid() && State() == Committed(old(State()), t, d, ino)
      ensures filp == old(filp) && inode == old(inode)[filp[t][d] := ino] && held == old(held) + multiset{ino}
      ensures opening == old(opening)[t := old(opening[t]) - {d}]
      ensures got == old(got) + multiset{ino} && puts == old(puts)
    {
      CommitGood(State(), t, d, ino);
      inode := inode[filp[t][d] := ino];
      ready := ready[filp[t][d] := true];
      held, got := held + multiset{ino}, got + multiset{ino};
      opening := opening[t := opening[t] - {d}];
    }

    /** sys_open up to open_namei. */
    method SysOpenStart(t: nat) returns (a: Answer)
      requires Valid() && ViewOk(Shown()) && Possible(Shown(), OpenStart(t))
      modifies this
      ensures Valid() && (Shown(), a) == Opens(old(Shown()), t) && held == old(held)
      ensures got == old(got) + Gets(OpenStart(t)) && puts == old(puts) + Puts(old(Shown()), OpenStart(t))
    {
      var fd := FreeDescriptor(t, 0);
      if fd >= NR_OPEN {
        return Error(EINVAL);
      }
      var f := FreeFile(0);
      if f >= NR_FILE {
        return Error(EINVAL);
      }
      ReserveOne(t, fd, f);
      a := Fd(fd);
    }

    method ReserveOne(t: nat, fd: nat, f: nat)
      requires Valid() && t < NR_TASKS && fd < NR_OPEN && f < NR_FILE && opening[t] == {}
      requires filp[t][fd] == -1 && count[f] == 0
      modifies this
      ensures Valid() && opening == old(opening)[t := {fd}] && held == old(held) && inode == old(inode)
      ensures got == old(got) && puts == old(puts) && filp == Put(old(filp), t, fd, f)
    {
      Reserve(t, fd, f);
      assert {} + {fd} == {fd};
    }

    /** sys_open after open_namei: the file gets its inode, or everything is as before the call. */
    method SysOpenEnd(t: nat, fd: nat, result: Lookup) returns (a: Answer)
      requires Valid() && ViewOk(Shown()) && Possible(Shown(), OpenEnd(t, fd, result))
      modifies this
      ensures Valid() && (Shown(), a) == Effect(old(Shown()), OpenEnd(t, fd, result))
      ensures got == old(got) + Gets(OpenEnd(t, fd, result))
      ensures puts == old(puts) + Puts(old(Shown()), OpenEnd(t, fd, result))
      ensures held == if result.Found? then old(held) + multiset{result.inode} else old(held)
    {
      if result.Found? {
        CommitOne(t, fd, result.inode);
        a := Fd(fd);
      } else {
        UnreserveOne(t, fd);
        a := Error(result.errno);
      }
    }

    method CommitOne(t: nat, fd: nat, ino: nat)
      requires Valid() && t < NR_TASKS && opening[t] == {fd}
      modifies this
      ensures Valid() && opening == old(opening)[t := {}] && filp == old(filp) && fd < NR_OPEN
      ensures 0 <= old(filp[t][fd]) < NR_FILE && inode == old(inode)[filp[t][fd] := ino]
      ensures held == old(held) + multiset{ino} && got == old(got) + multiset{ino} && puts == old(puts)
    {
      assert SlotOk(State(), t, fd);
      Commit(t, fd, ino);
      assert {fd} - {fd} == {};
    }

    method UnreserveOne(t: nat, fd: nat)
      requires Valid() && t < NR_TASKS && opening[t] == {fd}
      modifies this
      ensures Valid() && opening == old(opening)[t := {}] && held == old(held) && inode == old(inode)
      ensures got == old(got) && puts == old(puts) && fd < NR_OPEN && filp == Put(old(filp), t, fd, -1)
    {
      Unreserve(t, fd);
      assert {fd} - {fd} == {};
    }

    // ----- close and dup ------------------------------------------------------

    /**
      sys_close.  "file count is 0" is never found; the inode is released at the
      last close and not before.
     */
    method SysClose(t: nat, fd: nat) returns (a: Answer)
      requires Valid() && ViewOk(Shown()) && Possible(Shown(), Close(t, fd))
      modifies this
      ensures Valid() && (Shown(), a) == Closes(old(Shown()), t, fd)
      ensures got == old(got) + Gets(Close(t, fd)) && puts == old(puts) + Puts(old(Shown()), Close(t, fd))
      ensures a.Error? ==> State() == old(State())
      ensures a.Done? ==> var f := old(filp[t][fd]);
                          held == if Named(filp)[f] == 0 then old(held) - multiset{old(inode)[f]} else old(held)
    {
      LostNone(inode, ready);
      if fd >= NR_OPEN {
        DroppedIsLost(State(), State(), Close(t, fd));
        return Error(EINVAL);
      }
      var f := filp[t][fd];
      if f == -1 {
        DroppedIsLost(State(), State(), Close(t, fd));
        return Error(EINVAL);
      }
      Detach(t, fd);
      a := Done;
      DroppedIsLost(old(State()), State(), Close(t, fd));
    }

    /** The descriptor is cleared and the count lowered; with the last one the inode is released. */
    method Detach(t: nat, d: nat)
      requires Valid() && t < NR_TASKS && d < NR_OPEN && d !in opening[t] && filp[t][d] >= 0
      modifies this
      ensures old(count[filp[t][d]]) > 0 && Valid() && State() == Detached(old(State()), t, d)
      ensures filp == Put(old(filp), t, d, -1) && inode == old(inode) && opening == old(opening)
      ensures got == old(got) && Below(ready, old(ready)) && puts == old(puts) + Lost(inode, old(ready), ready)
      ensures var f := old(filp[t][d]);
              held == if Named(filp)[f] == 0 then old(held) - multiset{old(inode)[f]} else old(held)
    {
      DetachFacts(State(), t, d);
      DetachStores(t, d);
    }

    /** Its stores. */
    method DetachStores(t: nat, d: nat)
      requires Sized(State()) && t < NR_TASKS && d < NR_OPEN && filp[t][d] >= 0
      requires count[filp[t][d]] > 0
      modifies this
      ensures State() == Detached(old(State()), t, d) && got == old(got)
      ensures var f := old(filp[t][d]);
              puts == old(puts) + if old(count[f]) == 1 then multiset{old(inode)[f]} else multiset{}
    {
      var f := filp[t][d];
      filp := filp[t := filp[t][d := -1]];
      // "file count is 0" is never found
      assert count[f] != 0;
      count := count[f := count[f] - 1];
      if count[f] == 0 {
        held, puts := held - multiset{inode[f]}, puts + multiset{inode[f]};
        ready := ready[f := false];
      }
    }

    method Attach(t: nat, d: nat, f: nat)
      requires Valid() && t < NR_TASKS && d < NR_OPEN && filp[t][d] == -1 && f < NR_FILE && ready[f]
      modifies this
      ensures Valid() && State() == Slot(old(State()), t, d, f, old(count[f]) + 1, old(opening[t]))
      ensures filp == Put(old(filp), t, d, f) && inode == old(inode) && opening == old(opening) && held == old(held)
      ensures got == old(got) && puts == old(puts) && ready == old(ready)
    {
      AttachGood(State(), t, d, f);
      filp := filp[t := filp[t][d := f]];
      count := count[f := count[f] + 1];
      assert opening[t := opening[t]] == opening;
    }

    /** dupfd. */
    method DupFd(t: nat, fd: nat, arg: nat) returns (a: Answer)
      requires Valid() && ViewOk(Shown()) && Possible(Shown(), Dup(t, fd, arg))
      modifies this
      ensures Valid() && (Shown(), a) == Dups(old(Shown()), t, fd, arg) && held == old(held)
      ensures got == old(got) + Gets(Dup(t, fd, arg)) && puts == old(puts) + Puts(old(Shown()), Dup(t, fd, arg))
    {
      if fd >= NR_OPEN || filp[t][fd] == -1 {
        return Error(EBADF);
      }
      if arg >= NR_OPEN {
        return Error(EINVAL);
      }
      var d := FreeDescriptor(t, arg);
      if d >= NR_OPEN {
        return Error(EMFILE);
      }
      assert SlotOk(State(), t, fd);
      Attach(t, d, filp[t][fd]);
      a := Fd(d);
    }

    method SysDup2(t: nat, oldfd: nat, newfd: nat) returns (a: Answer)
      requires Valid() && ViewOk(Shown()) && Possible(Shown(), Dup2(t, oldfd, newfd))
      modifies this
      ensures Valid() && (Shown(), a) == Dup2s(old(Shown()), t, oldfd, newfd)
      ensures got == old(got) + Gets(Dup2(t, oldfd, newfd))
      ensures puts == old(puts) + Puts(old(Shown()), Dup2(t, oldfd, newfd))
    {
      CloseThenDup(Shown(), t, oldfd, newfd);
      FilesApart(State());
      DroppedByClose(Shown(), t, oldfd, newfd);
      AddNothing(puts + Puts(Shown(), Close(t, newfd)));
      AddNothing(got);
      var closed := SysClose(t, newfd);
      SeenOk(State());
      assert Puts(Shown(), Dup(t, oldfd, newfd)) == multiset{};
      a := DupFd(t, oldfd, newfd);
    }

    // ----- pipe ---------------------------------------------------------------

    /** The first loop of sys_pipe. */
    method TwoFiles() returns (f0: nat, f1: nat)
      requires Valid()
      ensures f0 == FirstUnnamed(filp, 0) && (f0 < NR_FILE ==> f1 == FirstUnnamed(filp, f0 + 1))
      ensures f0 == NR_FILE ==> f1 == NR_FILE
      ensures f1 <= NR_FILE && (f1 < NR_FILE ==> count[f0] == 0 && count[f1] == 0)
    {
      f1 := NR_FILE;
      f0 := FreeFile(0);
      if f0 < NR_FILE {
        f1 := FreeFile(f0 + 1);
      }
    }

    /** And the second. */
    method TwoDescriptors(t: nat) returns (fd0: nat, fd1: nat)
      requires Valid() && t < NR_TASKS
      ensures fd0 == FirstFree(filp[t], 0) && (fd0 < NR_OPEN ==> fd1 == FirstFree(filp[t], fd0 + 1))
      ensures fd1 <= NR_OPEN && (fd0 == NR_OPEN ==> fd1 == NR_OPEN)
    {
      fd1 := NR_OPEN;
      fd0 := FreeDescriptor(t, 0);
      if fd0 < NR_OPEN {
        fd1 := FreeDescriptor(t, fd0 + 1);
      }
    }

    /** sys_pipe up to get_pipe_inode: two files and two descriptors, or nothing. */
    method SysPipeStart(t: nat) returns (a: Answer)
      requires Valid() && ViewOk(Shown()) && Possible(Shown(), PipeStart(t))
      modifies this
      ensures Valid() && (Shown(), a) == Pipes(old(Shown()), t) && held == old(held)
      ensures got == old(got) + Gets(PipeStart(t)) && puts == old(puts) + Puts(old(Shown()), PipeStart(t))
    {
      var f0, f1 := TwoFiles();
      var fd0, fd1 := TwoDescriptors(t);
      PipesTo(Shown(), t, fd0, fd1, f0, f1);
      if f1 >= NR_FILE || fd1 >= NR_OPEN {
        return Error(EPERM);
      }
      ReserveBoth(t, fd0, fd1, f0, f1);
      a := Both(fd0, fd1);
    }

    method ReserveBoth(t: nat, fd0: nat, fd1: nat, f0: nat, f1: nat)
      requires Valid() && t < NR_TASKS && fd0 < fd1 < NR_OPEN && f0 < f1 < NR_FILE && opening[t] == {}
      requires filp[t][fd0] == -1 && filp[t][fd1] == -1 && count[f0] == 0 && count[f1] == 0
      modifies this
      ensures Valid() && opening == old(opening)[t := {fd0, fd1}] && held == old(held) && inode == old(inode)
      ensures got == old(got) && puts == old(puts)
      ensures filp == Put(Put(old(filp), t, fd0, f0), t, fd1, f1)
    {
      Reserve(t, fd0, f0);
      Reserve(t, fd1, f1);
      assert {} + {fd0} + {fd1} == {fd0, fd1};
    }

    /** The rest: both files get the pipe inode, which get_pipe_inode hands out with two references. */
    method SysPipeEnd(t: nat, fd0: nat, fd1: nat, result: Lookup) returns (a: Answer)
      requires Valid() && ViewOk(Shown()) && Possible(Shown(), PipeEnd(t, fd0, fd1, result))
      modifies this
      ensures Valid() && (Shown(), a) == Effect(old(Shown()), PipeEnd(t, fd0, fd1, result))
      ensures got == old(got) + Gets(PipeEnd(t, fd0, fd1, result))
      ensures puts == old(puts) + Puts(old(Shown()), PipeEnd(t, fd0, fd1, result))
      ensures held == if result.Found? then old(held) + multiset{result.inode} + multiset{result.inode} else old(held)
    {
      if result.Found? {
        CommitBoth(t, fd0, fd1, result.inode);
        a := Both(fd0, fd1);
      } else {
        UnreserveBoth(t, fd0, fd1);
        a := Error(EPERM);
      }
    }

    method CommitBoth(t: nat, fd0: nat, fd1: nat, ino: nat)
      requires Valid() && ViewOk(Shown()) && t < NR_TASKS && fd0 != fd1 && opening[t] == {fd0, fd1}
      modifies this
      ensures Valid() && opening == old(opening)[t := {}] && filp == old(filp)
      ensures inode == old(inode)[filp[t][fd0] := ino][filp[t][fd1] := ino]
      ensures held == old(held) + multiset{ino} + multiset{ino}
      ensures got == old(got) + (multiset{ino} + multiset{ino}) && puts == old(puts)
    {
      Commit(t, fd0, ino);
      Commit(t, fd1, ino);
      assert {fd0, fd1} - {fd0} - {fd1} == {};
    }

    method UnreserveBoth(t: nat, fd0: nat, fd1: nat)
      requires Valid() && ViewOk(Shown()) && t < NR_TASKS && fd0 != fd1 && opening[t] == {fd0, fd1}
      modifies this
      ensures Valid() && opening == old(opening)[t := {}] && held == old(held) && inode == old(inode)
      ensures got == old(got) && puts == old(puts)
      ensures filp == Put(Put(old(filp), t, fd0, -1), t, fd1, -1)
    {
      Unreserve(t, fd0);
      Unreserve(t, fd1);
      assert {fd0, fd1} - {fd0} - {fd1} == {};
    }

    // ----- fork and exit ------------------------------------------------------

    /**
      copy_process: the child's descriptors name the files that the parent's do, and
      each count rises by the number of the parent's descriptors that name the file.
     */
    method SysFork(t: nat, nr: nat) returns (a: Answer)
      requires Valid() && ViewOk(Shown()) && Possible(Shown(), Fork(t, nr))
      modifies this
      ensures Valid() && (Shown(), a) == Effect(old(Shown()), Fork(t, nr)) && held == old(held)
      ensures a == Done && forall d :: 0 <= d < NR_OPEN ==> filp[nr][d] == old(filp[t])[d]
      ensures forall u :: 0 <= u < NR_TASKS && u != nr ==> filp[u] == old(filp)[u]
      ensures forall f :: 0 <= f < NR_FILE ==> count[f] == old(count)[f] + multiset(old(filp[t]))[f]
      ensures got == old(got) + Gets(Fork(t, nr)) && puts == old(puts) + Puts(old(Shown()), Fork(t, nr))
    {
      var i := 0;
      while i < NR_OPEN
        invariant 0 <= i <= NR_OPEN && Valid() && opening == old(opening) && held == old(held)
        invariant inode == old(inode) && got == old(got) && puts == old(puts)
        invariant |filp| == NR_TASKS && forall u :: 0 <= u < NR_TASKS && u != nr ==> filp[u] == old(filp)[u]
        invariant forall d :: 0 <= d < NR_OPEN ==> filp[nr][d] == if d < i then old(filp[t])[d] else -1
      {
        Inherit(t, nr, i);
        i := i + 1;
      }
      assert filp[nr] == old(filp[t]);
      assert filp == old(filp)[nr := old(filp[t])];
      ForkCounts(old(State()), State(), t, nr);
      a := Done;
    }

    /** One descriptor of the child. */
    method Inherit(t: nat, nr: nat, d: nat)
      requires Valid() && t < NR_TASKS && nr < NR_TASKS && nr != t && opening[t] == {} && d < NR_OPEN
      requires filp[nr][d] == -1
      modifies this
      ensures Valid() && filp == Put(old(filp), nr, d, old(filp[t][d])) && inode == old(inode)
      ensures opening == old(opening) && held == old(held) && got == old(got) && puts == old(puts)
    {
      if filp[t][d] >= 0 {
        assert SlotOk(State(), t, d);
        Attach(nr, d, filp[t][d]);
      } else {
        assert filp[nr][d := -1] == filp[nr] && filp[nr := filp[nr]] == filp;
      }
    }

    /** do_exit closes whatever is open. */
    method SysExit(t: nat) returns (a: Answer)
      requires Valid() && ViewOk(Shown()) && Possible(Shown(), Exit(t))
      modifies this
      ensures Valid() && (Shown(), a) == Effect(old(Shown()), Exit(t))
      ensures got == old(got) + Gets(Exit(t)) && puts == old(puts) + Puts(old(Shown()), Exit(t))
    {
      CloseAll(t);
      a := Done;
      DroppedIsLost(old(State()), State(), Exit(t));
    }

    /**
      do_exit in the middle of open: the reserved descriptor is closed like the
      others, which puts whatever inode its file had before.
     */
    method SysDie(t: nat, fd: nat) returns (a: Answer)
      requires Valid() && ViewOk(Shown()) && Possible(Shown(), Die(t, fd))
      modifies this
      ensures Valid() && (Shown(), a) == Effect(old(Shown()), Die(t, fd))
      ensures got == old(got) + Gets(Die(t, fd)) && puts == old(puts) + Puts(old(Shown()), Die(t, fd))
    {
      DropReserved(t, fd);
      ghost var was := filp;
      CloseAll(t);
      assert old(filp)[t := NullRow()] == was[t := NullRow()];
      a := Done;
      assert Shown() == Effect(old(Shown()), Die(t, fd)).0;
      DroppedIsLost(old(State()), State(), Die(t, fd));
      Assoc(old(puts), Stale(old(Shown()), Die(t, fd)), Lost(inode, old(ready), ready));
    }

    method CloseAll(t: nat)
      requires Valid() && t < NR_TASKS && opening[t] == {}
      modifies this
      ensures Valid() && filp == old(filp)[t := NullRow()] && inode == old(inode) && opening == old(opening)
      ensures got == old(got) && Below(ready, old(ready)) && puts == old(puts) + Lost(inode, old(ready), ready)
    {
      var i := 0;
      LostNone(inode, ready);
      while i < NR_OPEN
        invariant 0 <= i <= NR_OPEN && Valid() && opening == old(opening) && inode == old(inode)
        invariant |filp| == NR_TASKS && forall u :: 0 <= u < NR_TASKS && u != t ==> filp[u] == old(filp)[u]
        invariant (forall d :: 0 <= d < i ==> filp[t][d] == -1) && got == old(got)
        invariant Below(ready, old(ready)) && puts == old(puts) + Lost(inode, old(ready), ready)
      {
        CloseNext(t, i, old(ready), old(puts));
        i := i + 1;
      }
      assert filp[t] == NullRow();
      assert filp == old(filp)[t := NullRow()];
    }

    /** One turn, as seen from the start of the loop, at which r were the files with inodes and p what had been put. */
    method CloseNext(t: nat, d: nat, ghost r: seq<bool>, ghost p: multiset<nat>)
      requires Valid() && t < NR_TASKS && opening[t] == {} && d < NR_OPEN
      requires Below(ready, r) && puts == p + Lost(inode, r, ready)
      modifies this
      ensures Valid() && filp == Put(old(filp), t, d, -1) && inode == old(inode) && opening == old(opening)
      ensures got == old(got) && Below(ready, r) && puts == p + Lost(inode, r, ready)
    {
      ghost var was := ready;
      CloseIfOpen(t, d);
      LostTrans(inode, r, was, ready);
      Assoc(p, Lost(inode, r, was), Lost(inode, was, ready));
    }

    method CloseIfOpen(t: nat, d: nat)
      requires Valid() && t < NR_TASKS && opening[t] == {} && d < NR_OPEN
      modifies this
      ensures Valid() && filp == Put(old(filp), t, d, -1) && inode == old(inode) && opening == old(opening)
      ensures got == old(got) && Below(ready, old(ready)) && puts == old(puts) + Lost(inode, old(ready), ready)
    {
      LostNone(inode, ready);
      if filp[t][d] >= 0 {
        Detach(t, d);
      } else {
        assert filp[t][d := -1] == filp[t] && filp[t := filp[t]] == filp;
      }
    }

    /** sys_close of a reserved descriptor: iput ignores a null pointer, and takes anything else for its own. */
    method DropReserved(t: nat, d: nat)
      requires Valid() && t < NR_TASKS && opening[t] == {d}
      modifies this
      ensures d < NR_OPEN && 0 <= old(filp[t][d]) < NR_FILE && Valid() && filp == Put(old(filp), t, d, -1)
      ensures inode == old(inode) && opening == old(opening)[t := {}]
      ensures got == old(got) && ready == old(ready)
      ensures var ino := old(inode[filp[t][d]]);
              puts == old(puts) + if ino == 0 then multiset{} else multiset{ino}
    {
      UnreserveGood(State(), t, d);
      assert SlotOk(State(), t, d) && {d} - {d} == {};
      var f := filp[t][d];
      filp := filp[t := filp[t][d := -1]];
      count := count[f := count[f] - 1];
      opening := opening[t := opening[t] - {d}];
      if inode[f] != 0 {
        puts := puts + multiset{inode[f]};
      }
    }

    // ----- runs ---------------------------------------------------------------

    /** Any one call does what the machine without counts does, and gives the same answer. */
    method Step(c: Call) returns (a: Answer)
      requires Valid() && ViewOk(Shown()) && Possible(Shown(), c)
      modifies this
      ensures Valid() && (Shown(), a) == Effect(old(Shown()), c)
      ensures got == old(got) + Gets(c) && puts == old(puts) + Puts(old(Shown()), c)
    {
      match c {
        case OpenStart(t) => a := SysOpenStart(t);
        case OpenEnd(t, fd, result) => a := SysOpenEnd(t, fd, result);
        case PipeStart(t) => a := SysPipeStart(t);
        case PipeEnd(t, fd0, fd1, result) => a := SysPipeEnd(t, fd0, fd1, result);
        case Close(t, fd) => a := SysClose(t, fd);
        case Dup(t, fd, arg) => a := DupFd(t, fd, arg);
        case Dup2(t, oldfd, newfd) => a := SysDup2(t, oldfd, newfd);
        case Fork(t, nr) => a := SysFork(t, nr);
        case Exit(t) => a := SysExit(t);
        case Die(t, fd) => a := SysDie(t, fd);
      }
    }

    /**
      Over every run of calls by any tasks, interleaved wherever open and pipe
      sleep, the tables with their counts do what the machine without counts
      does: the same descriptors and files, the same answers, the same references
      taken and put.  Each count is the number of descriptors that name the file.
      If every reference handed over had been put once or belonged to a file in
      use, this is so afterwards if and only if no death inside open met a file
      that had been used before.
     */
    method Run(calls: seq<Call>) returns (answers: seq<Answer>)
      requires Valid() && ViewOk(Shown())
      modifies this
      ensures Valid() && (Shown(), answers) == Effects(old(Shown()), calls)
      ensures forall f :: 0 <= f < NR_FILE ==> count[f] == Named(filp)[f]
      ensures got == old(got) + AllGets(old(Shown()), calls) && puts == old(puts) + AllPuts(old(Shown()), calls)
      ensures ViewOk(Shown()) && held == Owned(Shown())
      ensures old(puts + Owned(Shown()) == got) ==>
                (puts + Owned(Shown()) == got <==> Harmless(old(Shown()), calls))
    {
      ghost var v, g, p := Shown(), got, puts;
      answers := [];
      for k := 0 to |calls|
        invariant Valid() && ViewOk(Shown()) && (Shown(), answers) == Effects(v, calls[..k])
        invariant got == g + AllGets(v, calls[..k]) && puts == p + AllPuts(v, calls[..k])
      {
        var more := Serve(v, calls, k, answers, g, p);
        answers := answers + more;
      }
      assert calls[..|calls|] == calls;
      RunEnds(old(State()), State(), calls, p, g);
    }

    /** Call k of a run, if it is possible. */
    method Serve(ghost v: View, calls: seq<Call>, k: nat, ghost answers: seq<Answer>,
                 ghost g: multiset<nat>, ghost p: multiset<nat>) returns (more: seq<Answer>)
      requires Valid() && ViewOk(Shown()) && k < |calls| && ViewOk(v)
      requires (Shown(), answers) == Effects(v, calls[..k])
      requires got == g + AllGets(v, calls[..k]) && puts == p + AllPuts(v, calls[..k])
      modifies this
      ensures Valid() && ViewOk(Shown()) && (Shown(), answers + more) == Effects(v, calls[..k + 1])
      ensures got == g + AllGets(v, calls[..k + 1]) && puts == p + AllPuts(v, calls[..k + 1])
    {
      OneMoreRef(v, calls, k);
      more := [];
      if Possible(Shown(), calls[k]) {
        Assoc(g, AllGets(v, calls[..k]), Gets(calls[k]));
        Assoc(p, AllPuts(v, calls[..k]), Puts(Shown(), calls[k]));
        var a := Step(calls[k]);
        more := [a];
        SeenOk(State());
      } else {
        assert answers + more == answers;
        AddNothing(AllGets(v, calls[..k]));
        AddNothing(AllPuts(v, calls[..k]));
      }
    }
  }
}

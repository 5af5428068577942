/** A run in which a death inside open takes an inode reference that another task needs. */
module FileRace {
  import opened OpenFiles
  import opened FileMachine
  import opened FileRefs

  function RowOf(f: int): (row: Row)
    ensures |row| == NR_OPEN && row[0] == f && forall d :: 1 <= d < NR_OPEN ==> row[d] == -1
  {
    NullRow()[0 := f]
  }

  /** Descriptor 0 of task 0 names file a and that of task 1 names file b; nothing else is open. */
  function Rows(a: int, b: int): (filp: seq<Row>)
    ensures |filp| == NR_TASKS && filp[0] == RowOf(a) && filp[1] == RowOf(b)
    ensures forall t :: 2 <= t < NR_TASKS ==> filp[t] == NullRow()
  {
    Boot().filp[0 := RowOf(a)][1 := RowOf(b)]
  }

  lemma RowsPut(a: int, b: int, c: int)
    ensures Put(Rows(a, b), 0, 0, c) == Rows(c, b) && Put(Rows(a, b), 1, 0, c) == Rows(a, c)
    ensures RowOf(-1) == NullRow()
  {
    assert RowOf(a)[0 := c] == RowOf(c) && RowOf(b)[0 := c] == RowOf(c);
    assert Put(Rows(a, b), 0, 0, c) == Rows(c, b);
    assert Put(Rows(a, b), 1, 0, c) == Rows(a, c);
  }

  lemma RowsNamed(a: int, b: int)
    requires -1 <= a && -1 <= b
    ensures forall f :: f >= 0 ==> Named(Rows(a, b))[f] == (if a == f then 1 else 0) + if b == f then 1 else 0
  {
    RowsPut(-1, -1, a);
    RowsPut(a, -1, b);
    NothingNamed(Rows(-1, -1));
    PutNamed(Rows(-1, -1), 0, a);
    PutNamed(Rows(a, -1), 1, b);
  }

  lemma PutNamed(filp: seq<Row>, t: nat, f: int)
    requires t < |filp| && filp[t] == RowOf(-1)
    ensures forall g :: g >= 0 ==> Named(Put(filp, t, 0, f))[g] == Named(filp)[g] + if g == f then 1 else 0
  {
    assert filp[t][0 := f] == RowOf(f);
    RowChanges(filp, t, RowOf(f));
    RowOfNames(-1);
    RowOfNames(f);
  }

  lemma RowOfNames(f: int)
    ensures forall g :: g >= 0 ==> multiset(RowOf(f))[g] == if g == f then 1 else 0
  {
    assert forall g :: g >= 0 ==> g !in NullRow();
  }

  /** What is open, what was, and who is in the middle of open. */
  function Scene(a: int, b: int, ino0: nat, ino1: nat, o0: set<nat>, o1: set<nat>): View {
    View(Rows(a, b), Boot().inode[0 := ino0][1 := ino1], Boot().opening[0 := o0][1 := o1])
  }

  lemma Onward(v: View, calls: seq<Call>, m: View, c: Call)
    requires ViewOk(v) && ViewOk(m) && Effects(v, calls).0 == m && Possible(m, c)
    ensures ViewOk(Effect(m, c).0) && Effects(v, calls + [c]).0 == Effect(m, c).0
  {
    EffectOk(m, c);
    OneMore(v, calls, c);
  }

  lemma OneMore(v: View, calls: seq<Call>, c: Call)
    requires ViewOk(v)
    ensures Effects(v, calls + [c]) == Then(Effects(v, calls), c)
  {
    var more := calls + [c];
    assert more[..|more| - 1] == calls && more[|more| - 1] == c;
  }

  /** Both tasks open the same inode, and task 0 closes it again. */
  function Share(): seq<Call> {
    [OpenStart(0)] + [OpenEnd(0, 0, Found(7))] + [OpenStart(1)] + [OpenEnd(1, 0, Found(7))] + [Close(0, 0)]
  }

  /** File 0, the one that task 0 had, is the first unused one. */
  lemma OpensFirst(ino0: nat, b: int, ino1: nat)
    requires -1 <= b < NR_FILE && b != 0
    ensures ViewOk(Scene(-1, b, ino0, ino1, {}, {}))
    ensures Effect(Scene(-1, b, ino0, ino1, {}, {}), OpenStart(0)).0 == Scene(0, b, ino0, ino1, {0}, {})
  {
    RowsNamed(-1, b);
    RowsPut(-1, b, 0);
    var v := Scene(-1, b, ino0, ino1, {}, {});
    assert FirstFree(v.filp[0], 0) == 0 && FirstUnnamed(v.filp, 0) == 0;
    assert Opens(v, 0).0 == Scene(0, b, ino0, ino1, {0}, {});
  }

  lemma OpensSecond()
    ensures ViewOk(Scene(0, -1, 7, 0, {}, {}))
    ensures Effect(Scene(0, -1, 7, 0, {}, {}), OpenStart(1)).0 == Scene(0, 1, 7, 0, {}, {0})
  {
    RowsNamed(0, -1);
    RowsPut(0, -1, 1);
    var v := Scene(0, -1, 7, 0, {}, {});
    assert FirstFree(v.filp[1], 0) == 0 && FirstUnnamed(v.filp, 0) == 1;
    assert Opens(v, 1).0 == Scene(0, 1, 7, 0, {}, {0});
  }

  lemma BootScene()
    ensures Boot() == Scene(-1, -1, 0, 0, {}, {})
  {
    RowsPut(-1, -1, -1);
    assert Rows(-1, -1) == Boot().filp;
  }

  lemma OneOpened()
    ensures Effects(Boot(), [OpenStart(0)] + [OpenEnd(0, 0, Found(7))]).0 == Scene(0, -1, 7, 0, {}, {})
  {
    BootScene();
    OpensFirst(0, -1, 0);
    Onward(Boot(), [], Boot(), OpenStart(0));
    assert [] + [OpenStart(0)] == [OpenStart(0)];
    EndsFirst();
    Onward(Boot(), [OpenStart(0)], Scene(0, -1, 0, 0, {0}, {}), OpenEnd(0, 0, Found(7)));
  }

  lemma EndsFirst()
    ensures ViewOk(Scene(0, -1, 0, 0, {0}, {}))
    ensures Effect(Scene(0, -1, 0, 0, {0}, {}), OpenEnd(0, 0, Found(7))).0 == Scene(0, -1, 7, 0, {}, {})
  {
    var v := Scene(0, -1, 0, 0, {0}, {});
    assert v.inode[0 := 7] == Boot().inode[0 := 7][1 := 0];
  }

  lemma EndsSecond()
    ensures ViewOk(Scene(0, 1, 7, 0, {}, {0}))
    ensures Effect(Scene(0, 1, 7, 0, {}, {0}), OpenEnd(1, 0, Found(7))).0 == Scene(0, 1, 7, 7, {}, {})
  {
    var v := Scene(0, 1, 7, 0, {}, {0});
    assert v.inode[1 := 7] == Boot().inode[0 := 7][1 := 7];
  }

  lemma ClosesFirst()
    ensures ViewOk(Scene(0, 1, 7, 7, {}, {}))
    ensures Effect(Scene(0, 1, 7, 7, {}, {}), Close(0, 0)).0 == Scene(-1, 1, 7, 7, {}, {})
  {
    RowsPut(0, 1, -1);
  }

  lemma Shared()
    ensures Effects(Boot(), Share()).0 == Scene(-1, 1, 7, 7, {}, {})
  {
    var one := [OpenStart(0)] + [OpenEnd(0, 0, Found(7))];
    var two := one + [OpenStart(1)];
    OneOpened();
    OpensSecond();
    Onward(Boot(), one, Scene(0, -1, 7, 0, {}, {}), OpenStart(1));
    EndsSecond();
    Onward(Boot(), two, Scene(0, 1, 7, 0, {}, {0}), OpenEnd(1, 0, Found(7)));
    ClosesFirst();
    Onward(Boot(), two + [OpenEnd(1, 0, Found(7))], Scene(0, 1, 7, 7, {}, {}), Close(0, 0));
  }

  function Theft(): seq<Call> { Share() + [OpenStart(0)] + [Die(0, 0)] }

  lemma Reopened()
    ensures Effects(Boot(), Share() + [OpenStart(0)]).0 == Scene(0, 1, 7, 7, {0}, {})
  {
    Shared();
    OpensFirst(7, 1, 7);
    Onward(Boot(), Share(), Scene(-1, 1, 7, 7, {}, {}), OpenStart(0));
  }

  lemma TheftRun() returns (v: View)
    ensures v == Effects(Boot(), Theft()).0 && ViewOk(v) && v.filp == Rows(-1, 1) && v.opening == Boot().opening
    ensures v.inode[1] == 7
  {
    var calls, m := Share() + [OpenStart(0)], Scene(0, 1, 7, 7, {0}, {});
    Reopened();
    v := Dies();
    Onward(Boot(), calls, m, Die(0, 0));
  }

  /**
    Conservation fails in the code: task 0 opens another file, finds file 0 unused
    and dies while it reads the path.  All references that the table was handed
    have been put, though task 1 still uses one.
   */
  lemma DeathSteals()
    ensures var v := Effects(Boot(), Theft()).0;
            && InUse(v, 1) && v.inode[1] == 7 && Owned(v) == multiset{7}
            && AllPuts(Boot(), Theft()) == AllGets(Boot(), Theft())
  {
    var v := TheftRun();
    OnlyOne(v);
    OnlyOneInUse(v, 1);
    AllPut();
  }

  lemma AllPut()
    ensures AllPuts(Boot(), Theft()) == AllGets(Boot(), Theft())
  {
    var v := TheftRun();
    OnlyOne(v);
    StolenOnce();
    NothingOwned();
    RunBalances(Boot(), Theft());
    SamePutsAsGets(AllPuts(Boot(), Theft()), AllGets(Boot(), Theft()), multiset{7});
  }

  lemma NothingOwned()
    ensures Reserved(Boot()) && Owned(Boot()) == multiset{}
  {
    NothingHeld(Boot().inode, Used(Boot()));
  }

  lemma SamePutsAsGets(p: multiset<nat>, g: multiset<nat>, x: multiset<nat>)
    requires p + x == multiset{} + g + x
    ensures p == g
  {
    assert x + p == p + x && x + g == multiset{} + g + x;
    Cancel(x, p, g);
  }

  lemma StolenOnce()
    ensures AllStale(Boot(), Theft()) == multiset{7}
  {
    var calls := Share() + [OpenStart(0)];
    Reopened();
    NoDeaths(Boot(), calls);
    assert Theft()[..|calls|] == calls && Theft()[|calls|] == Die(0, 0) && |Theft()| == |calls| + 1;
    assert multiset{} + multiset{7} == multiset{7};
  }

  lemma {:induction false} NoDeaths(v: View, calls: seq<Call>)
    requires ViewOk(v) && forall k :: 0 <= k < |calls| ==> !calls[k].Die?
    ensures AllStale(v, calls) == multiset{}
    decreases |calls|
  {
    if calls != [] {
      NoDeaths(v, calls[..|calls| - 1]);
    }
  }

  lemma Dies() returns (v: View)
    ensures ViewOk(Scene(0, 1, 7, 7, {0}, {})) && v == Effect(Scene(0, 1, 7, 7, {0}, {}), Die(0, 0)).0
    ensures ViewOk(v) && v.filp == Rows(-1, 1) && v.opening == Boot().opening && v.inode[1] == 7
  {
    var s := Scene(0, 1, 7, 7, {0}, {});
    v := Effect(s, Die(0, 0)).0;
    RowsPut(0, 1, -1);
    assert v.filp == Rows(-1, 1);
    assert v.opening == Boot().opening;
  }

  lemma OnlyOne(v: View)
    requires ViewOk(v) && v.filp == Rows(-1, 1) && v.opening == Boot().opening && v.inode[1] == 7
    ensures Owned(v) == multiset{7}
  {
    var none, ready := seq(NR_FILE, _ => false), Used(v);
    forall f | 0 <= f < NR_FILE
      ensures ready[f] == none[1 := true][f]
    {
      OnlyOneInUse(v, f);
    }
    assert ready == none[1 := true] && v.inode == v.inode[1 := 7];
    NothingHeld(v.inode, none);
    InodeChanges(v.inode, none, 1, 7, true);
    var x := Inodes(v.inode, ready);
    assert Owned(v) == x && x + multiset{} == multiset{} + multiset{7};
    assert x == x + multiset{};
  }

  lemma OnlyOneInUse(v: View, f: nat)
    requires ViewOk(v) && v.filp == Rows(-1, 1) && v.opening == Boot().opening && f < NR_FILE
    ensures InUse(v, f) <==> f == 1
  {
    assert v.filp[1][0] == 1 && 0 !in v.opening[1];
    RowsPut(-1, 1, -1);
  }
}

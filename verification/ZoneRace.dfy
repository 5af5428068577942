/**
  _bmap when tasks overlap.  It tests a zone number for zero, sleeps in
  new_block, and stores the new zone without testing again.  One action is the
  test with the bitmap search that follows it, the store, or a whole truncate.
  When the search finds no zone the code does not sleep, and stores zero at once.

  Reading a table block may sleep too; the cell a task is going to store into is
  the one it had found before it called new_block.
 */
module ZoneRace {
  import opened ZoneModel
  import opened ZoneSteps
  import opened ZoneTrees

  /** Where a zone number is stored: in an inode or in a table block. */
  datatype Cell = Root(n: nat, i: nat) | TableEntry(block: nat, k: nat)

  datatype Pc = Idle | Growing(p: Pos, cell: Cell, z: nat)

  datatype State = State(fs: Fs, pcs: seq<Pc>)

  datatype Action = Test(t: nat, p: Pos, z: nat) | Store(t: nat) | Full(t: nat, p: Pos) | Truncate(t: nat, n: nat)

  function CellOf(s: Fs, p: Pos): Cell
    requires Shape(s) && Storable(s, p)
  {
    if p.Direct? then Root(p.n, p.i) else TableEntry(TableOf(s, p), IndexOf(p))
  }

  predicate CellOk(s: Fs, c: Cell) {
    match c
    case Root(n, i) => n < |s.inodes| && i < 9
    case TableEntry(b, k) => 0 < b < ZONES && k < PER_BLOCK
  }

  function StoreCell(s: Fs, c: Cell, z: nat): (r: Fs)
    requires Shape(s) && CellOk(s, c)
    ensures Shape(r)
  {
    match c
    case Root(n, i) =>
      var zones: seq<nat> := s.inodes[n][i := z];
      Fs(s.first, s.nzones, s.bits, s.inodes[n := zones], s.table, s.data)
    case TableEntry(b, k) =>
      var entries: seq<nat> := s.table[b][k := z];
      Fs(s.first, s.nzones, s.bits, s.inodes, s.table[b := entries], s.data)
  }

  lemma StoreCellIsPut(s: Fs, p: Pos, z: nat)
    requires Shape(s) && Storable(s, p)
    ensures CellOk(s, CellOf(s, p)) && StoreCell(s, CellOf(s, p), z) == Put(s, p, z)
  {
  }

  predicate Enabled(s: State, a: Action) {
    && Shape(s.fs) && a.t < |s.pcs|
    && match a
       case Test(t, p, z) => s.pcs[t].Idle? && Storable(s.fs, p) && At(s.fs, p) == 0 && DataZone(s.fs, z)
           && !Used(s.fs, z)
       case Store(t) => s.pcs[t].Growing? && CellOk(s.fs, s.pcs[t].cell)
       case Full(t, p) => s.pcs[t].Idle? && Storable(s.fs, p) && At(s.fs, p) == 0
       case Truncate(t, n) => s.pcs[t].Idle? && n < |s.fs.inodes|
  }

  function Next(s: State, a: Action): State
    requires Enabled(s, a)
  {
    match a
    case Test(t, p, z) => State(Take(s.fs, z), s.pcs[t := Growing(p, CellOf(s.fs, p), z)])
    case Store(t) => State(StoreCell(s.fs, s.pcs[t].cell, s.pcs[t].z), s.pcs[t := Idle])
    case Full(t, p) => State(StoreCell(s.fs, CellOf(s.fs, p), 0), s.pcs)
    case Truncate(t, n) => State(Truncated(s.fs, n), s.pcs)
  }

  /** A full disk changes nothing: the test and the store of zero are one stretch of code. */
  lemma FullStores(s: State, a: Action)
    requires Enabled(s, a) && a.Full?
    ensures Next(s, a) == s
  {
    var c := CellOf(s.fs, a.p);
    if c.Root? {
      assert s.fs.inodes[c.n][c.i := 0] == s.fs.inodes[c.n];
    } else {
      assert s.fs.table[c.block][c.k := 0] == s.fs.table[c.block];
    }
  }

  // ----- runs without conflict -----------------------------------------------------

  /** A task tests a position that another task is about to store into, or truncates a file that another is growing. */
  predicate Conflicts(s: State, a: Action)
    requires Enabled(s, a)
  {
    || (a.Test? && exists u :: 0 <= u < |s.pcs| && s.pcs[u].Growing? && s.pcs[u].p == a.p)
    || (a.Truncate? && exists u :: 0 <= u < |s.pcs| && s.pcs[u].Growing? && s.pcs[u].p.n == a.n)
  }

  /** The position is still empty and its cell the same; the zone is taken, cleared and nowhere in a tree. */
  ghost predicate PcOk(s: State, t: nat)
    requires Shape(s.fs) && t < |s.pcs|
  {
    s.pcs[t].Growing? ==>
      var p, z := s.pcs[t].p, s.pcs[t].z;
      && Storable(s.fs, p) && s.pcs[t].cell == CellOf(s.fs, p) && At(s.fs, p) == 0
      && DataZone(s.fs, z) && Used(s.fs, z) && s.fs.table[z] == ZeroTable() && Nowhere(s.fs, z)
  }

  ghost predicate Nowhere(s: Fs, z: nat)
    requires Shape(s)
  {
    forall q | ValidPos(s, q) :: At(s, q) != z
  }

  ghost predicate Valid(s: State) {
    && Inv(s.fs) && (forall t :: 0 <= t < |s.pcs| ==> PcOk(s, t))
    && forall t, u :: 0 <= t < u < |s.pcs| && s.pcs[t].Growing? && s.pcs[u].Growing? ==>
         s.pcs[t].p != s.pcs[u].p && s.pcs[t].z != s.pcs[u].z
  }

  /** A position keeps its cell as long as the number of its table stays. */
  lemma SameCell(s: Fs, r: Fs, p: Pos)
    requires Shape(s) && Shape(r) && Storable(s, p) && |r.inodes| == |s.inodes|
    requires !p.Direct? ==> At(r, Parent(p)) == At(s, Parent(p))
    ensures Storable(r, p) && CellOf(r, p) == CellOf(s, p)
  {
    if !p.Direct? {
      assert TableOf(s, p) == At(s, Parent(p)) && TableOf(r, p) == At(r, Parent(p));
    }
  }

  lemma TestStep(s: State, a: Action)
    requires Valid(s) && Enabled(s, a) && a.Test? && !Conflicts(s, a)
    ensures Valid(Next(s, a)) && (forall q | ValidPos(s.fs, q) :: At(Next(s, a).fs, q) == At(s.fs, q))
  {
    var r := Next(s, a);
    TakeKeeps(s.fs, a.z);
    FreeZoneNowhere(s.fs, a.z);
    forall t | 0 <= t < |r.pcs|
      ensures PcOk(r, t)
    {
      if t == a.t {
        SameCell(s.fs, r.fs, a.p);
        assert forall q | ValidPos(r.fs, q) :: ValidPos(s.fs, q);
      } else if s.pcs[t].Growing? {
        OtherTakes(s, a, t);
      }
    }
    forall t, u | 0 <= t < u < |r.pcs| && r.pcs[t].Growing? && r.pcs[u].Growing?
      ensures r.pcs[t].p != r.pcs[u].p && r.pcs[t].z != r.pcs[u].z
    {
      assert t != a.t ==> PcOk(s, t);
      assert u != a.t ==> PcOk(s, u);
    }
  }

  lemma OtherTakes(s: State, a: Action, t: nat)
    requires Valid(s) && Enabled(s, a) && a.Test? && t < |s.pcs| && t != a.t && s.pcs[t].Growing?
    requires forall q | ValidPos(s.fs, q) :: At(Next(s, a).fs, q) == At(s.fs, q)
    ensures PcOk(Next(s, a), t)
  {
    assert PcOk(s, t);
    SameCell(s.fs, Next(s, a).fs, s.pcs[t].p);
    assert forall q | ValidPos(Next(s, a).fs, q) :: ValidPos(s.fs, q);
  }

  /** The store puts the zone at its position and changes the map nowhere else. */
  lemma StoreStep(s: State, a: Action)
    requires Valid(s) && Enabled(s, a) && a.Store?
    ensures Valid(Next(s, a))
    ensures forall q | ValidPos(s.fs, q) :: At(Next(s, a).fs, q) == if q == s.pcs[a.t].p then s.pcs[a.t].z
              else At(s.fs, q)
  {
    var p, z, r := s.pcs[a.t].p, s.pcs[a.t].z, Next(s, a);
    assert PcOk(s, a.t);
    StoreCellIsPut(s.fs, p, z);
    forall q | ValidPos(s.fs, q)
      ensures ValidPos(r.fs, q) && At(r.fs, q) == if q == p then z else At(s.fs, q)
    {
      PutAt(s.fs, p, z, q);
    }
    assert forall q | ValidPos(r.fs, q) :: ValidPos(s.fs, q);
    StoreInv(s.fs, r.fs, p, z);
    forall t | 0 <= t < |r.pcs|
      ensures PcOk(r, t)
    {
      if t != a.t && s.pcs[t].Growing? {
        OtherStores(s, a, t);
      }
    }
  }

  lemma StoreInv(s: Fs, r: Fs, p: Pos, z: nat)
    requires Inv(s) && Shape(r) && ValidPos(s, p) && DataZone(s, z) && Used(s, z) && Nowhere(s, z)
    requires r.first == s.first && r.nzones == s.nzones && r.bits == s.bits
    requires (forall q :: ValidPos(r, q) <==> ValidPos(s, q))
    requires forall q | ValidPos(s, q) :: At(r, q) == if q == p then z else At(s, q)
    ensures Inv(r)
  {
    forall q | ValidPos(r, q) && At(r, q) != 0
      ensures DataZone(r, At(r, q)) && Used(r, At(r, q))
    {
      assert ValidPos(s, q);
    }
  }

  lemma OtherStores(s: State, a: Action, t: nat)
    requires Valid(s) && Enabled(s, a) && a.Store? && t < |s.pcs| && t != a.t && s.pcs[t].Growing? && Inv(Next(s, a).fs)
    requires forall q | ValidPos(s.fs, q) :: At(Next(s, a).fs, q) == if q == s.pcs[a.t].p then s.pcs[a.t].z
              else At(s.fs, q)
    requires forall q | ValidPos(Next(s, a).fs, q) :: ValidPos(s.fs, q)
    ensures PcOk(Next(s, a), t)
  {
    var r, p, x := Next(s, a), s.pcs[t].p, s.pcs[a.t].p;
    assert PcOk(s, t) && PcOk(s, a.t);
    assert p != x && s.pcs[t].z != s.pcs[a.t].z;
    if !p.Direct? {
      assert At(s.fs, Parent(p)) == TableOf(s.fs, p) != 0;
    }
    SameCell(s.fs, r.fs, p);
    TableStays(s, a, t);
  }

  /** A pending zone is no table of a tree, so nobody stores into it. */
  lemma TableStays(s: State, a: Action, t: nat)
    requires Valid(s) && Enabled(s, a) && a.Store? && t < |s.pcs| && s.pcs[t].Growing? && s.pcs[t].z < ZONES
    ensures Next(s, a).fs.table[s.pcs[t].z] == s.fs.table[s.pcs[t].z]
  {
    assert PcOk(s, t) && PcOk(s, a.t);
    var x := s.pcs[a.t].p;
    if !x.Direct? {
      assert At(s.fs, Parent(x)) == TableOf(s.fs, x);
    }
  }

  // ----- no zone is lost -----------------------------------------------------------

  ghost predicate InTree(s: Fs, z: nat)
    requires Shape(s)
  {
    exists q :: ValidPos(s, q) && At(s, q) == z
  }

  predicate Pending(s: State, z: nat) { exists t :: 0 <= t < |s.pcs| && s.pcs[t].Growing? && s.pcs[t].z == z }

  /** Every zone whose bit is set is in a tree, or on its way into one. */
  ghost predicate Accounted(s: State)
    requires Shape(s.fs)
  {
    forall z :: DataZone(s.fs, z) && Used(s.fs, z) ==> InTree(s.fs, z) || Pending(s, z)
  }

  lemma TestAccounted(s: State, a: Action)
    requires Valid(s) && Enabled(s, a) && a.Test? && !Conflicts(s, a) && Accounted(s)
    ensures Shape(Next(s, a).fs) && Accounted(Next(s, a))
  {
    TestStep(s, a);
    var r := Next(s, a);
    forall z | DataZone(r.fs, z) && Used(r.fs, z)
      ensures InTree(r.fs, z) || Pending(r, z)
    {
      if z == a.z {
        assert r.pcs[a.t].z == z;
      } else {
        assert Used(s.fs, z);
        StaysAccounted(s, r, a.t, z);
      }
    }
  }

  lemma StaysAccounted(s: State, r: State, t: nat, z: nat)
    requires Shape(s.fs) && Shape(r.fs) && (InTree(s.fs, z) || Pending(s, z)) && |r.fs.inodes| == |s.fs.inodes|
    requires forall q | ValidPos(s.fs, q) :: At(s.fs, q) == z ==> At(r.fs, q) == z
    requires |r.pcs| == |s.pcs| && (forall u :: 0 <= u < |s.pcs| && u != t ==> r.pcs[u] == s.pcs[u])
    requires t < |s.pcs| && s.pcs[t].Growing? && s.pcs[t].z == z ==> InTree(r.fs, z)
    ensures InTree(r.fs, z) || Pending(r, z)
  {
    if InTree(s.fs, z) {
      var q :| ValidPos(s.fs, q) && At(s.fs, q) == z;
      assert ValidPos(r.fs, q) && At(r.fs, q) == z;
    } else {
      var u :| 0 <= u < |s.pcs| && s.pcs[u].Growing? && s.pcs[u].z == z;
      assert u != t ==> r.pcs[u].z == z;
    }
  }

  lemma StoreAccounted(s: State, a: Action)
    requires Valid(s) && Enabled(s, a) && a.Store? && Accounted(s)
    ensures Shape(Next(s, a).fs) && Accounted(Next(s, a))
  {
    StoreStep(s, a);
    var r, p := Next(s, a), s.pcs[a.t].p;
    assert PcOk(s, a.t);
    assert ValidPos(r.fs, p) && At(r.fs, p) == s.pcs[a.t].z;
    forall z | DataZone(r.fs, z) && Used(r.fs, z)
      ensures InTree(r.fs, z) || Pending(r, z)
    {
      assert Used(s.fs, z);
      StaysAccounted(s, r, a.t, z);
    }
  }

  /** truncate takes the file's zones out of its tree and off the bitmap, and leaves the other files alone. */
  lemma TruncateStep(s: State, a: Action)
    requires Valid(s) && Enabled(s, a) && a.Truncate? && !Conflicts(s, a)
    ensures Valid(Next(s, a)) && |Next(s, a).fs.inodes| == |s.fs.inodes|
    ensures forall q | ValidPos(s.fs, q) :: At(Next(s, a).fs, q) == if q.n == a.n then 0 else At(s.fs, q)
  {
    var r := Next(s, a);
    TruncatedKeeps(s.fs, a.n);
    forall t | 0 <= t < |r.pcs|
      ensures PcOk(r, t)
    {
      if s.pcs[t].Growing? {
        OtherTruncates(s, a, t);
      }
    }
  }

  lemma OtherTruncates(s: State, a: Action, t: nat)
    requires Valid(s) && Enabled(s, a) && a.Truncate? && !Conflicts(s, a) && t < |s.pcs| && s.pcs[t].Growing?
    requires Shape(Next(s, a).fs) && forall q :: ValidPos(Next(s, a).fs, q) <==> ValidPos(s.fs, q)
    requires forall q | ValidPos(s.fs, q) :: At(Next(s, a).fs, q) == if q.n == a.n then 0 else At(s.fs, q)
    requires forall z | DataZone(s.fs, z) :: Used(Next(s, a).fs, z) <==> Used(s.fs, z) && z !in TreeSet(s.fs, a.n)
    ensures PcOk(Next(s, a), t)
  {
    var p, z := s.pcs[t].p, s.pcs[t].z;
    assert PcOk(s, t) && p.n != a.n;
    SameCell(s.fs, Next(s, a).fs, p);
    if z in TreeSet(s.fs, a.n) {
      var q := Witness(s.fs, a.n, z);
    }
  }

  lemma TruncateAccounted(s: State, a: Action)
    requires Valid(s) && Enabled(s, a) && a.Truncate? && !Conflicts(s, a) && Accounted(s)
    ensures Shape(Next(s, a).fs) && Accounted(Next(s, a))
  {
    TruncateStep(s, a);
    TruncatedKeeps(s.fs, a.n);
    var r := Next(s, a);
    forall z | DataZone(r.fs, z) && Used(r.fs, z)
      ensures InTree(r.fs, z) || Pending(r, z)
    {
      assert DataZone(s.fs, z) && Used(s.fs, z) && z !in TreeSet(s.fs, a.n);
      if Pending(s, z) {
        assert Pending(r, z);
      } else {
        var q :| ValidPos(s.fs, q) && At(s.fs, q) == z;
        StaysInTree(s.fs, r.fs, a.n, q);
      }
    }
  }

  lemma StaysInTree(s: Fs, r: Fs, n: nat, q: Pos)
    requires Inv(s) && Shape(r) && n < |s.inodes| && ValidPos(s, q) && At(s, q) !in TreeSet(s, n)
    requires |r.inodes| == |s.inodes| && forall p | ValidPos(s, p) :: At(r, p) == if p.n == n then 0 else At(s, p)
    ensures InTree(r, At(s, q))
  {
    if q.n == n && At(s, q) != 0 {
      TreeIsPositions(s, n, At(s, q));
    }
    assert ValidPos(r, q) && At(r, q) == At(s, q);
  }

  predicate CanRun(s: State, run: seq<Action>)
    decreases |run|
  {
    run == [] || (Enabled(s, run[0]) && CanRun(Next(s, run[0]), run[1..]))
  }

  function End(s: State, run: seq<Action>): State
    requires CanRun(s, run)
    decreases |run|
  {
    if run == [] then s else End(Next(s, run[0]), run[1..])
  }

  predicate Undisturbed(s: State, run: seq<Action>)
    requires CanRun(s, run)
    decreases |run|
  {
    run == [] || (!Conflicts(s, run[0]) && Undisturbed(Next(s, run[0]), run[1..]))
  }

  /** What is mapped stays mapped to the same zone, in all files that are not truncated. */
  ghost predicate Grown(s: Fs, r: Fs, gone: set<nat>)
    requires Shape(s) && Shape(r)
  {
    |r.inodes| == |s.inodes| && forall q | ValidPos(s, q) :: At(s, q) != 0 && q.n !in gone ==> At(r, q) == At(s, q)
  }

  /** The files that a run truncates. */
  function Gone(run: seq<Action>): set<nat> { set a | a in run && a.Truncate? :: a.n }

  lemma GrownStep(s: State, a: Action)
    requires Valid(s) && Enabled(s, a) && !Conflicts(s, a) && Accounted(s)
    ensures Valid(Next(s, a)) && Accounted(Next(s, a))
    ensures Grown(s.fs, Next(s, a).fs, if a.Truncate? then {a.n} else {})
  {
    match a {
      case Test(_, _, _) =>
        TestStep(s, a);
        TestAccounted(s, a);
      case Store(_) =>
        assert PcOk(s, a.t);
        StoreStep(s, a);
        StoreAccounted(s, a);
      case Full(_, _) =>
        FullStores(s, a);
      case Truncate(_, _) =>
        TruncateStep(s, a);
        TruncateAccounted(s, a);
    }
  }

  lemma GrownTrans(s: Fs, m: Fs, r: Fs, a: set<nat>, b: set<nat>, c: set<nat>)
    requires Shape(s) && Shape(m) && Shape(r) && Grown(s, m, a) && Grown(m, r, b) && a + b <= c
    ensures Grown(s, r, c)
  {
    forall q | ValidPos(s, q) && At(s, q) != 0 && q.n !in c
      ensures At(r, q) == At(s, q)
    {
      assert ValidPos(m, q) && At(m, q) == At(s, q);
    }
  }

  /**
    Over every run in which no two tasks grow a file at the same position at
    once, and no file is truncated while it grows, the trees stay separate, no
    zone is lost, and whatever is mapped in a file that is not truncated stays
    mapped to its zone.
   */
  lemma {:induction false} UndisturbedRunsGrow(s: State, run: seq<Action>)
    requires Valid(s) && Accounted(s) && CanRun(s, run) && Undisturbed(s, run)
    ensures Valid(End(s, run)) && Accounted(End(s, run)) && Grown(s.fs, End(s, run).fs, Gone(run))
    decreases |run|
  {
    if run != [] {
      var m, a := Next(s, run[0]), run[0];
      GrownStep(s, a);
      UndisturbedRunsGrow(m, run[1..]);
      assert run == [a] + run[1..];
      GrownTrans(s.fs, m.fs, End(s, run).fs, if a.Truncate? then {a.n} else {}, Gone(run[1..]), Gone(run));
    }
  }

  // ----- the store of a second creator -----------------------------------------------

  /** Every zone that was in a tree still is. */
  ghost predicate KeepsZones(s: Fs, r: Fs)
    requires Shape(s) && Shape(r)
  {
    forall q :: ValidPos(s, q) && At(s, q) != 0 ==> InTree(r, At(s, q))
  }

  /** Storing a fresh empty table or block over something: other positions stay or become holes. */
  lemma PutOver(s: Fs, p: Pos, z: nat, q: Pos)
    requires Inv(s) && Storable(s, p) && ValidPos(s, q) && q != p
    requires 0 < z < ZONES && s.table[z] == ZeroTable() && Nowhere(s, z)
    ensures ValidPos(Put(s, p, z), q) && (At(Put(s, p, z), q) == At(s, q) || At(Put(s, p, z), q) == 0)
  {
    var r := Put(s, p, z);
    assert !p.Direct? ==> TableOf(s, p) == At(s, Parent(p));
    assert r.table[z] == s.table[z];
    if !q.Direct? {
      PutTable(s, p, z, q);
      if q.Leaf? && p != Dind(q.n, q.j) {
        PutTable(s, p, z, Dind(q.n, q.j));
      }
    }
  }

  /** The task's cell is still the one of its position, and the position is still empty. */
  predicate StillEmpty(s: Fs, p: Pos, c: Cell)
    requires Shape(s)
  {
    Storable(s, p) && CellOf(s, p) == c && At(s, p) == 0
  }

  /**
    Exactly when the store of _bmap maps its zone and loses no other, whatever
    happened since the test: if and only if the position is still empty and still
    has the same cell.  Neither is tested again.
   */
  lemma StoreKeepsIff(s: State, a: Action)
    requires Enabled(s, a) && a.Store? && Inv(s.fs)
    requires var z := s.pcs[a.t].z;
             0 < z < ZONES && s.fs.table[z] == ZeroTable() && Nowhere(s.fs, z)
    ensures var p, z, r := s.pcs[a.t].p, s.pcs[a.t].z, Next(s, a).fs;
            KeepsZones(s.fs, r) && ValidPos(r, p) && At(r, p) == z <==> StillEmpty(s.fs, p, s.pcs[a.t].cell)
  {
    var p, z, c, r := s.pcs[a.t].p, s.pcs[a.t].z, s.pcs[a.t].cell, Next(s, a).fs;
    assert c.Root? ==> Storable(s.fs, Direct(c.n, c.i)) && CellOf(s.fs, Direct(c.n, c.i)) == c;
    if exists q :: Storable(s.fs, q) && CellOf(s.fs, q) == c {
      var q :| Storable(s.fs, q) && CellOf(s.fs, q) == c;
      StoreCellIsPut(s.fs, q, z);
      PutThere(s.fs, q, z);
      PutKeepsIff(s.fs, q, z);
      if p != q && ValidPos(s.fs, p) {
        PutOver(s.fs, q, z, p);
      }
      if p != q && Storable(s.fs, p) && CellOf(s.fs, p) == c {
        SameCellSamePlace(s.fs, p, q);
      }
    } else {
      StrayStore(s.fs, c, z);
    }
  }

  lemma SameCellSamePlace(s: Fs, p: Pos, q: Pos)
    requires Inv(s) && Storable(s, p) && Storable(s, q) && CellOf(s, p) == CellOf(s, q)
    ensures p == q
  {
    if !p.Direct? && !q.Direct? {
      SameTable(s, p, q);
    }
  }

  /** A store into a block that is no table of any tree changes no map. */
  lemma StrayStore(s: Fs, c: Cell, z: nat)
    requires Inv(s) && CellOk(s, c) && c.TableEntry? && forall q :: Storable(s, q) ==> CellOf(s, q) != c
    ensures forall q | ValidPos(s, q) :: At(StoreCell(s, c, z), q) == At(s, q)
    ensures forall q :: ValidPos(StoreCell(s, c, z), q) <==> ValidPos(s, q)
  {
    var r := StoreCell(s, c, z);
    forall q | ValidPos(s, q)
      ensures At(r, q) == At(s, q)
    {
      assert Storable(s, q) ==> CellOf(s, q) != c;
      if q.Leaf? {
        assert Storable(s, Dind(q.n, q.j)) ==> CellOf(s, Dind(q.n, q.j)) != c;
      }
    }
  }

  lemma PutKeepsIff(s: Fs, p: Pos, z: nat)
    requires Inv(s) && Storable(s, p) && 0 < z < ZONES && s.table[z] == ZeroTable() && Nowhere(s, z)
    ensures KeepsZones(s, Put(s, p, z)) <==> At(s, p) == 0
  {
    var y, r := At(s, p), Put(s, p, z);
    if y == 0 {
      forall q | ValidPos(s, q) && At(s, q) != 0
        ensures InTree(r, At(s, q))
      {
        PutAt(s, p, z, q);
      }
    } else {
      PutThere(s, p, z);
      forall q | ValidPos(r, q)
        ensures At(r, q) != y
      {
        if q != p {
          PutOver(s, p, z, q);
        }
      }
      assert !InTree(r, y);
    }
  }

  lemma PutThere(s: Fs, p: Pos, z: nat)
    requires Inv(s) && Storable(s, p) && 0 < z < ZONES && Nowhere(s, z)
    ensures ValidPos(Put(s, p, z), p) && At(Put(s, p, z), p) == z
  {
    assert !p.Direct? ==> TableOf(s, p) == At(s, Parent(p));
    if p.Leaf? {
      PutTable(s, p, z, Dind(p.n, p.j));
    }
  }

  // ----- a run in which a table is lost ----------------------------------------------

  function BlankTables(): (t: seq<seq<nat>>)
    ensures |t| == ZONES && forall z :: 0 <= z < ZONES ==> t[z] == ZeroTable()
  {
    seq(ZONES, _ => ZeroTable())
  }

  function Start(): State {
    State(Fs(10, 20, seq(16, i => i == 0), [seq(9, _ => 0)], BlankTables(), seq(ZONES, _ => ZeroBlock())), [Idle, Idle])
  }

  lemma StartOk()
    ensures Valid(Start()) && Accounted(Start())
  {
    var s := Start().fs;
    assert forall p :: ValidPos(s, p) ==> At(s, p) == 0;
  }

  lemma Then(s: State, run: seq<Action>, m: State, a: Action)
    requires CanRun(s, run) && End(s, run) == m && Enabled(m, a)
    ensures CanRun(s, run + [a]) && End(s, run + [a]) == Next(m, a)
    decreases |run|
  {
    if run == [] {
      assert (run + [a])[1..] == [];
    } else {
      assert (run + [a])[1..] == run[1..] + [a];
      Then(Next(s, run[0]), run[1..], m, a);
    }
  }

  /** Both tasks want block 7 of the file, which needs a table: each takes a zone for it. */
  lemma BothTest() returns (run: seq<Action>, r: State)
    ensures CanRun(Start(), run) && r == End(Start(), run) && Inv(r.fs) && |r.fs.inodes| == 1
    ensures r.fs.inodes[0] == seq(9, _ => 0)
    ensures r.pcs == [Growing(Direct(0, 7), Root(0, 7), 10), Growing(Direct(0, 7), Root(0, 7), 11)]
    ensures r.fs.first == 10 && r.fs.nzones == 20 && !Used(r.fs, 12) && forall z :: 0 <= z < ZONES ==>
              r.fs.table[z] == ZeroTable()
  {
    var s := Start();
    StartOk();
    var m := Next(s, Test(0, Direct(0, 7), 10));
    TakeKeeps(s.fs, 10);
    r := Next(m, Test(1, Direct(0, 7), 11));
    TakeKeeps(m.fs, 11);
    Then(s, [], s, Test(0, Direct(0, 7), 10));
    Then(s, [] + [Test(0, Direct(0, 7), 10)], m, Test(1, Direct(0, 7), 11));
    run := [] + [Test(0, Direct(0, 7), 10)] + [Test(1, Direct(0, 7), 11)];
  }

  /** Block 7 of the file is in zone z; 0 is a hole. */
  predicate SeventhIs(s: State, z: nat) { Shape(s.fs) && |s.fs.inodes| > 0 && ZoneOf(s.fs, 0, 7) == z }

  /**
    The first stores its table and maps block 7; then the second stores its own
    table over it, and the block is a hole.
   */
  lemma TableLost() returns (before: seq<Action>, run: seq<Action>)
    ensures Valid(Start()) && Accounted(Start()) && CanRun(Start(), before) && CanRun(Start(), run) && before < run
    ensures SeventhIs(End(Start(), before), 12) && SeventhIs(End(Start(), run), 0)
  {
    var s := Start();
    StartOk();
    var head, m := BothTest();
    var m1 := Next(m, Store(0));
    assert m1.fs.inodes[0][7] == 10 && m1.pcs[0] == Idle && At(m1.fs, Ind(0, 0)) == 0;
    var m2 := Next(m1, Test(0, Ind(0, 0), 12));
    assert m2.pcs[0] == Growing(Ind(0, 0), TableEntry(10, 0), 12);
    var m3 := Next(m2, Store(0));
    assert m3.fs.inodes[0][7] == 10 && m3.fs.table[10][0] == 12 && m3.pcs[1] == m.pcs[1];
    var r := Next(m3, Store(1));
    assert r.fs.inodes[0][7] == 11 && r.fs.table[11] == ZeroTable();
    Then(s, head, m, Store(0));
    Then(s, head + [Store(0)], m1, Test(0, Ind(0, 0), 12));
    Then(s, head + [Store(0)] + [Test(0, Ind(0, 0), 12)], m2, Store(0));
    before := head + [Store(0)] + [Test(0, Ind(0, 0), 12)] + [Store(0)];
    Then(s, before, m3, Store(1));
    run := before + [Store(1)];
  }

  // ----- a run in which a growing file is truncated -----------------------------------

  /** The file has an indirect block, and task 0 takes a zone for its first entry. */
  lemma Indirect() returns (run: seq<Action>, r: State)
    ensures CanRun(Start(), run) && r == End(Start(), run) && Shape(r.fs) && |r.fs.inodes| == 1
    ensures r.fs.inodes[0] == seq(9, _ => 0)[7 := 10] && r.fs.table[10] == ZeroTable() && r.fs.table[11] == ZeroTable()
    ensures r.fs.first == 10 && r.fs.nzones == 20 && Used(r.fs, 11)
    ensures r.pcs == [Growing(Ind(0, 0), TableEntry(10, 0), 11), Idle]
  {
    var s := Start();
    var a := Next(s, Test(0, Direct(0, 7), 10));
    var b := Next(a, Store(0));
    assert b.fs.inodes[0] == seq(9, _ => 0)[7 := 10] && b.pcs == [Idle, Idle];
    assert At(b.fs, Ind(0, 0)) == 0;
    r := Next(b, Test(0, Ind(0, 0), 11));
    Then(s, [], s, Test(0, Direct(0, 7), 10));
    Then(s, [] + [Test(0, Direct(0, 7), 10)], a, Store(0));
    Then(s, [] + [Test(0, Direct(0, 7), 10)] + [Store(0)], b, Test(0, Ind(0, 0), 11));
    run := [] + [Test(0, Direct(0, 7), 10)] + [Store(0)] + [Test(0, Ind(0, 0), 11)];
  }

  /** Task 1 truncates the file; then task 0 stores into a block that is free by now, and its zone is lost. */
  lemma TruncateLosesZone() returns (run: seq<Action>)
    ensures Valid(Start()) && Accounted(Start()) && CanRun(Start(), run)
    ensures var r := End(Start(), run);
            Shape(r.fs) && DataZone(r.fs, 11) && Used(r.fs, 11) && !InTree(r.fs, 11) && !Pending(r, 11)
  {
    StartOk();
    var head, m := Indirect();
    var n := Next(m, Truncate(1, 0));
    assert n.fs.inodes[0] == seq(9, _ => 0) && 11 !in TreeSet(m.fs, 0);
    assert Used(n.fs, 11) && n.pcs == m.pcs;
    var r := Next(n, Store(0));
    assert r.pcs == [Idle, Idle] && r.fs.inodes == n.fs.inodes;
    assert forall q :: ValidPos(r.fs, q) ==> At(r.fs, q) == 0;
    Then(Start(), head, m, Truncate(1, 0));
    Then(Start(), head + [Truncate(1, 0)], n, Store(0));
    run := head + [Truncate(1, 0)] + [Store(0)];
  }
}

/**
  Stores of the kernel to a task's memory (put_fs_byte, put_fs_long).  The
  processor does not look at the writable bit in supervisor mode: a page that is
  there is stored to as it is, also when other tasks share it.  verify_area makes
  such a page the task's own first; sys_pipe does not call it.
 */
module KernelStores {
  import opened PageModel
  import opened PageCounting
  import opened PageSteps
  import opened PageFree
  import opened PageBounds
  import opened Paging
  import opened TaskMemory
  import E = EagerCopy

  /** The byte goes to the frame, whoever maps it. */
  function StoreThrough(s: Mem, d: nat, i: nat, o: nat, x: Byte): (r: Mem)
    requires Shape(s) && d < DIRS && i < ENTRIES && EntryAt(s, d, i).Entry? && EntryAt(s, d, i).frame < FRAMES
    requires o < PAGE_SIZE
    ensures Shape(r)
  {
    var f := EntryAt(s, d, i).frame;
    SetData(s, f, s.data[f][o := x])
  }

  lemma ThroughKeeps(s: Mem, k: set<nat>, d: nat, i: nat, o: nat, x: Byte)
    requires Inv(s, k) && UserDir(d) && i < ENTRIES && EntryAt(s, d, i).Entry? && o < PAGE_SIZE
    ensures EntryAt(s, d, i).frame < FRAMES && Inv(StoreThrough(s, d, i, o, x), k)
    ensures var r := StoreThrough(s, d, i, o, x);
            forall y, j :: 0 <= y < DIRS && 0 <= j < ENTRIES ==> EntryAt(r, y, j) == EntryAt(s, y, j)
  {
    assert SafeEntry(s, EntryAt(s, d, i));
    var f := EntryAt(s, d, i).frame;
    StoreKeeps(s, k, f, s.data[f][o := x]);
  }

  /** A frame with more than one reference is mapped at another place too. */
  lemma SharedElsewhere(s: Mem, k: set<nat>, d: nat, i: nat) returns (y: nat, j: nat)
    requires Inv(s, k) && UserDir(d) && i < ENTRIES && EntryAt(s, d, i).Entry? && High(EntryAt(s, d, i).frame)
    requires Count(s, EntryAt(s, d, i).frame) != 1
    ensures UserDir(y) && j < ENTRIES && (y != d || j != i)
    ensures EntryAt(s, y, j).Entry? && EntryAt(s, y, j).frame == EntryAt(s, d, i).frame
  {
    var f := EntryAt(s, d, i).frame;
    PresentEntry(s, k, d, i);
    if forall e, c :: UserDir(e) && 0 <= c < ENTRIES && (e != d || c != i) ==> Hit(EntryAt(s, e, c), f) == 0 {
      OneReference(s, k, d, i);
    }
    y, j :| UserDir(y) && 0 <= j < ENTRIES && (y != d || j != i) && Hit(EntryAt(s, y, j), f) != 0;
  }

  lemma OneReference(s: Mem, k: set<nat>, d: nat, i: nat)
    requires Inv(s, k) && UserDir(d) && i < ENTRIES && EntryAt(s, d, i).Entry? && High(EntryAt(s, d, i).frame)
    requires forall e, c :: UserDir(e) && 0 <= c < ENTRIES && (e != d || c != i) ==>
               Hit(EntryAt(s, e, c), EntryAt(s, d, i).frame) == 0
    ensures Count(s, EntryAt(s, d, i).frame) == 1
  {
    var f := EntryAt(s, d, i).frame;
    PresentEntry(s, k, d, i);
    SlotsWithoutHits(s, f, TASK_DIRS, DIRS, d);
    var row := s.table[s.dir[d].frame];
    forall c | 0 <= c < ENTRIES && c != i
      ensures Hit(row[c], f) == 0
    {
      assert Hit(EntryAt(s, d, c), f) == 0;
    }
    OneHit(row, f, i);
    RefsOfOne(s, f, d, TASK_DIRS, DIRS);
  }

  /**
    Exactly when a store of the kernel to a page that is there is the store of the
    eager machine: if and only if the frame is not one of the kernel's and nobody
    else has it, or the byte is there already.
   */
  lemma SupervisorStoreIff(s: Mem, k: set<nat>, t: nat, g: nat, o: nat, x: Byte)
    requires Inv(s, k) && E.InTask(t, g) && o < PAGE_SIZE && EntryAt(s, E.Dir(t, g), g % ENTRIES).Entry?
    ensures var d, i := E.Dir(t, g), g % ENTRIES;
            var f := EntryAt(s, d, i).frame;
            && f < FRAMES && Inv(StoreThrough(s, d, i, o, x), k)
            && (View(StoreThrough(s, d, i, o, x)) == E.Apply(View(s), E.Stored(t, g, o, x)) <==>
                High(f) && (Count(s, f) == 1 || s.data[f][o] == x))
  {
    var d, i := E.Dir(t, g), g % ENTRIES;
    var f := EntryAt(s, d, i).frame;
    ThroughKeeps(s, k, d, i, o, x);
    StoredPage(s, t, g, o, x);
    if !High(f) {
      assert ViewAt(StoreThrough(s, d, i, o, x), d, i) == Low(f);
    } else if Count(s, f) == 1 {
      UnsharedStore(s, k, t, g, o, x);
    } else if s.data[f][o] == x {
      SameByte(s, t, g, o, x);
    } else {
      var y, j := SharedElsewhere(s, k, d, i);
      SeenElsewhere(s, k, t, g, o, x, y, j);
    }
  }

  /** What the eager machine makes of the page. */
  lemma StoredPage(s: Mem, t: nat, g: nat, o: nat, x: Byte)
    requires Shape(s) && SafeEntries(s) && E.InTask(t, g) && o < PAGE_SIZE
    requires EntryAt(s, E.Dir(t, g), g % ENTRIES).Entry?
    ensures var d, i := E.Dir(t, g), g % ENTRIES;
            var f, w := EntryAt(s, d, i).frame, E.Apply(View(s), E.Stored(t, g, o, x));
            && f < FRAMES && w == E.Put(View(s), d, i, Private(s.data[f][o := x]))
            && w.pages[d][i] == Private(s.data[f][o := x])
            && forall y, j :: 0 <= y < DIRS && 0 <= j < ENTRIES && (y != d || j != i) ==>
                 w.pages[y][j] == View(s).pages[y][j]
  {
    var d, i := E.Dir(t, g), g % ENTRIES;
    assert SafeEntry(s, EntryAt(s, d, i));
    assert View(s).pages[d][i] == ViewAt(s, d, i);
    assert E.ShapedRow(View(s).pages[d]);
  }

  lemma UnsharedStore(s: Mem, k: set<nat>, t: nat, g: nat, o: nat, x: Byte)
    requires Inv(s, k) && E.InTask(t, g) && o < PAGE_SIZE
    requires var e := EntryAt(s, E.Dir(t, g), g % ENTRIES);
             e.Entry? && High(e.frame) && e.frame < FRAMES && Count(s, e.frame) == 1
    requires Inv(StoreThrough(s, E.Dir(t, g), g % ENTRIES, o, x), k)
    ensures View(StoreThrough(s, E.Dir(t, g), g % ENTRIES, o, x)) == E.Apply(View(s), E.Stored(t, g, o, x))
  {
    var d, i := E.Dir(t, g), g % ENTRIES;
    var r := StoreThrough(s, d, i, o, x);
    UnsharedEntry(s, k, d, i);
    StoredPage(s, t, g, o, x);
    forall y, j | UserDir(y) && 0 <= j < ENTRIES && (y != d || j != i)
      ensures ViewAt(r, y, j) == ViewAt(s, y, j)
    {
      assert Hit(EntryAt(s, y, j), EntryAt(s, d, i).frame) == 0;
    }
    ChangedPage(s, r, d, i, ViewAt(r, d, i));
  }

  lemma SameByte(s: Mem, t: nat, g: nat, o: nat, x: Byte)
    requires Shape(s) && SafeEntries(s) && E.InTask(t, g) && o < PAGE_SIZE
    requires var e := EntryAt(s, E.Dir(t, g), g % ENTRIES);
             e.Entry? && High(e.frame) && e.frame < FRAMES && s.data[e.frame][o] == x
    ensures StoreThrough(s, E.Dir(t, g), g % ENTRIES, o, x) == s
    ensures View(s) == E.Apply(View(s), E.Stored(t, g, o, x))
  {
    var d, i := E.Dir(t, g), g % ENTRIES;
    var f := EntryAt(s, d, i).frame;
    assert s.data[f][o := x] == s.data[f] && s.data[f := s.data[f]] == s.data;
    StoredPage(s, t, g, o, x);
    var w := E.Apply(View(s), E.Stored(t, g, o, x));
    assert View(s).pages[d][i] == ViewAt(s, d, i) == Private(s.data[f]);
    SameEager(View(s), w);
  }

  /** Another page of the same frame changes with it. */
  lemma SeenElsewhere(s: Mem, k: set<nat>, t: nat, g: nat, o: nat, x: Byte, y: nat, j: nat)
    requires Inv(s, k) && E.InTask(t, g) && o < PAGE_SIZE && UserDir(y) && j < ENTRIES
    requires var d, i := E.Dir(t, g), g % ENTRIES;
             var e := EntryAt(s, d, i);
             && e.Entry? && High(e.frame) && e.frame < FRAMES && s.data[e.frame][o] != x
             && (y != d || j != i) && EntryAt(s, y, j).Entry? && EntryAt(s, y, j).frame == e.frame
             && Inv(StoreThrough(s, d, i, o, x), k)
    ensures var d, i := E.Dir(t, g), g % ENTRIES;
            var f, r := EntryAt(s, d, i).frame, StoreThrough(s, d, i, o, x);
            && ViewAt(s, y, j) == Private(s.data[f]) && ViewAt(r, y, j) == Private(s.data[f][o := x])
            && View(r) != E.Apply(View(s), E.Stored(t, g, o, x))
  {
    var d, i := E.Dir(t, g), g % ENTRIES;
    var f, r := EntryAt(s, d, i).frame, StoreThrough(s, d, i, o, x);
    StoredPage(s, t, g, o, x);
    assert s.data[f][o := x][o] != s.data[f][o];
    assert View(r).pages[y][j] == ViewAt(r, y, j) && View(s).pages[y][j] == ViewAt(s, y, j);
  }

  /** A page that verify_area has seen to is the task's own. */
  lemma ReadyIsOwn(s: Mem, k: set<nat>, d: nat, i: nat)
    requires Inv(s, k) && UserDir(d) && i < ENTRIES && EntryAt(s, d, i).Entry? && EntryAt(s, d, i).writable
    ensures High(EntryAt(s, d, i).frame) && Count(s, EntryAt(s, d, i).frame) == 1
  {
    assert SafeEntry(s, EntryAt(s, d, i));
  }

  /** The page is absent, and will fault, or the task's own. */
  predicate Own(s: Mem, t: nat, page: nat)
    requires Shape(s) && E.InTask(t, page)
  {
    var e := EntryAt(s, E.Dir(t, page), page % ENTRIES);
    e.Absent? || e.writable
  }

  /** So are the pages of all bytes that verify_area has gone over. */
  lemma VerifiedIsOwn(s: Mem, t: nat, a: nat)
    requires Shape(s) && E.InTask(t, a / 4096) && Ready(s, LinearPage(t, a))
    ensures Own(s, t, a / 4096)
  {
    var x := 0x4000 * t + a / 4096;
    assert x / ENTRIES == E.Dir(t, a / 4096) && x % ENTRIES == a / 4096 % ENTRIES && LinearPage(t, a) == x;
  }

  /** The store to a page that is there. */
  method StoreFrame(k: Kernel, t: nat, page: nat, offset: nat, value: Byte)
    requires k.Valid() && E.InTask(t, page) && offset < PAGE_SIZE
    requires EntryAt(k.mem.State(), E.Dir(t, page), page % ENTRIES).Entry?
    modifies k.mem.frames
    ensures k.Valid() && k.task[..] == old(k.task[..])
    ensures var d, i := E.Dir(t, page), page % ENTRIES;
            && old(EntryAt(k.mem.State(), d, i)).frame < FRAMES
            && k.mem.State() == StoreThrough(old(k.mem.State()), d, i, offset, value)
  {
    var d, i := E.Dir(t, page), page % ENTRIES;
    ThroughKeeps(k.mem.State(), k.mem.owned, d, i, offset, value);
    var f := k.mem.tables[k.mem.pgDir[d].frame][i].frame;
    k.mem.StorePage(f, k.mem.frames[f][offset := value]);
  }

  lemma OwnStoreSettles(w: World, r: World, k: set<nat>, t: nat, page: nat, o: nat, x: Byte)
    requires Inv(w.mem, k) && E.InTask(t, page) && o < PAGE_SIZE && |w.task| == NR_TASKS && w.task[t].Live?
    requires var d, i := E.Dir(t, page), page % ENTRIES;
             && EntryAt(w.mem, d, i).Entry? && EntryAt(w.mem, d, i).writable && EntryAt(w.mem, d, i).frame < FRAMES
             && r == World(StoreThrough(w.mem, d, i, o, x), w.task, w.lost)
    ensures Inv(r.mem, k) && Settled(w, r, t, page, true, true)
    ensures View(r.mem) == E.Apply(View(w.mem), E.Stored(t, page, o, x))
  {
    ReadyIsOwn(w.mem, k, E.Dir(t, page), page % ENTRIES);
    SupervisorStoreIff(w.mem, k, t, page, o, x);
  }

  /**
    put_fs_byte: an absent page faults as for the task itself; one that is there is
    stored to.  After verify_area this is the store of the eager machine.
   */
  method PutByte(k: Kernel, t: nat, page: nat, offset: nat, value: Byte) returns (e: E.Event)
    requires k.Valid() && E.InTask(t, page) && Addressable(k.task[t], page) && offset < PAGE_SIZE
    modifies k.Parts()
    ensures k.Valid() && (e == E.Killed(t) || e == E.Stored(t, page, offset, value))
    ensures var d, i := E.Dir(t, page), page % ENTRIES;
            old(EntryAt(k.mem.State(), d, i)).Entry? ==>
              && e == E.Stored(t, page, offset, value) && k.task[..] == old(k.task[..]) && k.lost == old(k.lost)
              && old(EntryAt(k.mem.State(), d, i)).frame < FRAMES
              && k.mem.State() == StoreThrough(old(k.mem.State()), d, i, offset, value)
    ensures old(Own(k.mem.State(), t, page)) ==>
              && E.Legal(old(k.Seen()), e) && k.Seen() == E.Apply(old(k.Seen()), e)
              && Settled(old(k.Now()), k.Now(), t, page, true, !e.Killed?)
  {
    var d, i := E.Dir(t, page), page % ENTRIES;
    if k.mem.pgDir[d].Table? && k.mem.tables[k.mem.pgDir[d].frame][i].Entry? {
      ghost var w, own := k.Now(), k.mem.owned;
      e := E.Stored(t, page, offset, value);
      StoreFrame(k, t, page, offset, value);
      if Own(w.mem, t, page) {
        OwnStoreSettles(w, k.Now(), own, t, page, offset, value);
      }
    } else {
      e := k.Store(t, page, offset, value);
    }
  }

  // ----- a store seen by another task -----------------------------------------

  /** Task 1 has a page, and fork shares it with task 2. */
  method ShareAPage(contents: seq<Page>) returns (m: Memory)
    requires |contents| == FRAMES
    ensures fresh(m) && fresh(m.frames) && m.Valid()
    ensures EntryAt(m.State(), 16, 0).Entry? && EntryAt(m.State(), 32, 0).Entry?
    ensures var f := EntryAt(m.State(), 16, 0).frame;
            && High(f) && EntryAt(m.State(), 32, 0).frame == f && m.State().data[f] == ZeroPage()
  {
    m := new Memory.Boot(contents);
    NoneLeft(m.State());
    var ok, leaked := m.DoNoPage(16, 0);
    assert ok;
    ghost var s := m.State();
    CopyBegins(s, 16, 32);
    ok := m.CopySlot(16, 32, 0);
    assert ok && ViewAt(m.State(), 32 + 0, 0) == CopyView(s, 16, 0, 0) == Private(ZeroPage());
    assert MirrorsAt(m.State(), 16, 32, 0, 0);
  }

  /**
    sys_pipe stores the descriptors without verify_area: after a fork, the page of
    the other task changes too.
   */
  method PipeStoreIsSeen(contents: seq<Page>) returns (m: Memory, ghost s: Mem)
    requires |contents| == FRAMES
    ensures fresh(m) && m.Valid() && Inv(s, m.owned) && EntryAt(s, 16, 0).Entry? && EntryAt(s, 16, 0).frame < FRAMES
    ensures m.State() == StoreThrough(s, 16, 0, 0, 3)
    ensures E.PageAt(View(s), 2, 0) == Private(ZeroPage())
    ensures E.PageAt(View(m.State()), 2, 0) == Private(ZeroPage()[0 := 3])
    ensures View(m.State()) != E.Apply(View(s), E.Stored(1, 0, 0, 3))
  {
    m := ShareAPage(contents);
    s := m.State();
    ThroughKeeps(s, m.owned, 16, 0, 0, 3);
    SeenElsewhere(s, m.owned, 1, 0, 0, 3, 32, 0);
    var f := m.tables[m.pgDir[16].frame][0].frame;
    m.StorePage(f, m.frames[f][0 := 3]);
  }
}

/**
  Tasks over the paging code: fork (kernel/fork.c), loads and stores with their
  faults (mm/page.s), verify_area, exit and exec.  Every operation is proved to
  act on what the tasks see exactly as the eager machine of EagerCopy does.
 */
module TaskMemory {
  import opened PageModel
  import opened PageCounting
  import opened PageSteps
  import opened PageFree
  import opened PageBounds
  import opened Paging
  import E = EagerCopy

  const TASK_SIZE: nat := 0x4000000
  const TASK_0_SIZE: nat := 0xA0000

  /** A slot of task[]: the frame of its task structure and the limits of its code and data segments. */
  datatype Slot = NoTask | Live(page: nat, code: nat, limit: nat) | Zombie(page: nat)

  /** The limits that change_ldt sets: the text rounded up to pages, and the whole segment for data. */
  function Execed(slot: Slot, text: nat): Slot
    requires !slot.NoTask?
  {
    Live(slot.page, (text + PAGE_SIZE - 1) / PAGE_SIZE * PAGE_SIZE, TASK_SIZE)
  }

  /** *p = *current: the child has its parent's limits. */
  function ForkedSlot(parent: Slot, page: nat): Slot
    requires parent.Live?
  {
    Live(page, parent.code, parent.limit)
  }

  function SlotsOf(limit: nat): nat { (limit + 0x3fffff) / 0x400000 }

  /**
    What the task table promises: task structures are frames the kernel owns, and
    directory slots belong to live tasks.
   */
  ghost predicate Slots(s: Mem, task: seq<Slot>, owned: set<nat>)
    requires Shape(s)
  {
    && |task| == NR_TASKS && task[0] == Live(0, TASK_0_SIZE, TASK_0_SIZE)
    && (forall t :: 1 <= t < NR_TASKS && !task[t].NoTask? ==> task[t].page in owned)
    && (forall t :: 1 <= t < NR_TASKS && task[t].Live? ==> task[t].code <= task[t].limit <= TASK_SIZE)
    && (forall t, u :: 1 <= t < u < NR_TASKS && !task[t].NoTask? && !task[u].NoTask? ==> task[t].page != task[u].page)
    && (forall d :: UserDir(d) && s.dir[d].Table? ==>
         task[d / TASK_DIRS].Live? && d % TASK_DIRS < SlotsOf(task[d / TASK_DIRS].limit))
  }

  /** The frames of the task structures. */
  function TaskFrames(task: seq<Slot>): set<nat> {
    set t | 1 <= t < |task| && !task[t].NoTask? :: task[t].page
  }

  /** The kernel owns the task structures and what do_no_page has lost, and nothing else. */
  ghost predicate Owners(task: seq<Slot>, owned: set<nat>, lost: set<nat>) {
    owned == TaskFrames(task) + lost && TaskFrames(task) !! lost
  }

  lemma OwnersLost(task: seq<Slot>, owned: set<nat>, lost: set<nat>, leaked: set<nat>)
    requires Owners(task, owned, lost) && leaked !! owned
    ensures Owners(task, owned + leaked, lost + leaked) && leaked !! lost
  {
  }

  lemma SlotsOneDir(s: Mem, r: Mem, task: seq<Slot>, owned: set<nat>, leaked: set<nat>, d: nat)
    requires Shape(s) && Shape(r) && Slots(s, task, owned) && UserDir(d)
    requires r.dir == s.dir || (r.dir == s.dir[d := r.dir[d]] && task[d / TASK_DIRS].Live?
              && d % TASK_DIRS < SlotsOf(task[d / TASK_DIRS].limit))
    ensures Slots(r, task, owned + leaked)
  {
  }

  lemma FreeSlotNoTables(s: Mem, task: seq<Slot>, owned: set<nat>, nr: nat)
    requires Shape(s) && Slots(s, task, owned) && 1 <= nr < NR_TASKS && task[nr].NoTask?
    ensures forall d :: TASK_DIRS * nr <= d < TASK_DIRS * nr + TASK_DIRS ==> s.dir[d].NoTable?
  {
    forall d | TASK_DIRS * nr <= d < TASK_DIRS * nr + TASK_DIRS
      ensures s.dir[d].NoTable?
    {
      assert d / TASK_DIRS == nr;
    }
  }

  lemma SlotsSameDir(s: Mem, r: Mem, task: seq<Slot>, owned: set<nat>)
    requires Shape(s) && Shape(r) && Slots(s, task, owned) && r.dir == s.dir
    ensures Slots(r, task, owned)
  {
  }

  lemma OwnersAfterFork(task: seq<Slot>, owned: set<nat>, lost: set<nat>, nr: nat, slot: Slot)
    requires Owners(task, owned, lost) && 1 <= nr < |task| && task[nr].NoTask? && !slot.NoTask? && slot.page !in owned
    ensures Owners(task[nr := slot], owned + {slot.page}, lost)
  {
    var u := task[nr := slot];
    forall p | p in TaskFrames(task) + {slot.page}
      ensures p in TaskFrames(u)
    {
      if p == slot.page {
        assert u[nr].page == p;
      } else {
        var t :| 1 <= t < |task| && !task[t].NoTask? && task[t].page == p;
        assert u[t].page == p;
      }
    }
    assert TaskFrames(u) == TaskFrames(task) + {slot.page};
  }

  lemma OwnersAfterChange(task: seq<Slot>, owned: set<nat>, lost: set<nat>, t: nat, slot: Slot)
    requires Owners(task, owned, lost) && 1 <= t < |task| && !task[t].NoTask? && !slot.NoTask?
    requires slot.page == task[t].page
    ensures Owners(task[t := slot], owned, lost)
  {
    var u := task[t := slot];
    forall p | p in TaskFrames(task)
      ensures p in TaskFrames(u)
    {
      var v :| 1 <= v < |task| && !task[v].NoTask? && task[v].page == p;
      assert !u[v].NoTask? && u[v].page == p;
    }
    forall p | p in TaskFrames(u)
      ensures p in TaskFrames(task)
    {
      var v :| 1 <= v < |u| && !u[v].NoTask? && u[v].page == p;
      assert !task[v].NoTask? && task[v].page == p;
    }
  }

  lemma OwnersAfterRelease(task: seq<Slot>, owned: set<nat>, lost: set<nat>, t: nat)
    requires Owners(task, owned, lost) && 1 <= t < |task| && !task[t].NoTask?
    requires forall v, u :: 1 <= v < u < |task| && !task[v].NoTask? && !task[u].NoTask? ==> task[v].page != task[u].page
    ensures Owners(task[t := NoTask], owned - {task[t].page}, lost)
  {
    var u, q := task[t := NoTask], task[t].page;
    assert q in TaskFrames(task);
    forall p | p in TaskFrames(task) - {q}
      ensures p in TaskFrames(u)
    {
      var v :| 1 <= v < |task| && !task[v].NoTask? && task[v].page == p;
      assert !u[v].NoTask? && u[v].page == p;
    }
    forall p | p in TaskFrames(u)
      ensures p in TaskFrames(task) - {q}
    {
      var v :| 1 <= v < |u| && !u[v].NoTask? && u[v].page == p;
      assert v != t && task[v].page == p;
    }
    assert TaskFrames(u) == TaskFrames(task) - {q};
  }

  /** All that the tasks can see, in the shape of the eager machine. */
  ghost function View(s: Mem): (v: E.Eager)
    requires Shape(s) && SafeEntries(s)
    ensures E.Shaped(v) && v.low == s.data[..LOW_FRAMES]
    ensures forall d, i :: 0 <= d < DIRS && 0 <= i < ENTRIES ==> v.pages[d][i] == ViewAt(s, d, i)
  {
    var rows := seq(DIRS, d requires 0 <= d < DIRS => ViewRow(s, d));
    assert forall d :: 0 <= d < DIRS ==> rows[d] == ViewRow(s, d);
    E.Eager(rows, s.data[..LOW_FRAMES])
  }

  ghost function ViewRow(s: Mem, d: nat): (r: seq<PageView>)
    requires Shape(s) && SafeEntries(s) && d < DIRS
    ensures E.ShapedRow(r)
  {
    seq(ENTRIES, i requires 0 <= i < ENTRIES => ViewAt(s, d, i))
  }

  /** Two eager states that agree at every page and in low memory are equal. */
  lemma SameEager(v: E.Eager, w: E.Eager)
    requires E.Shaped(v) && E.Shaped(w) && v.low == w.low
    requires forall d, i :: 0 <= d < DIRS && 0 <= i < ENTRIES ==> v.pages[d][i] == w.pages[d][i]
    ensures v == w
  {
    forall d | 0 <= d < DIRS
      ensures v.pages[d] == w.pages[d]
    {
      assert E.ShapedRow(v.pages[d]) && E.ShapedRow(w.pages[d]);
    }
  }

  lemma SameViewIsSame(s: Mem, r: Mem)
    requires Shape(s) && SafeEntries(s) && Shape(r) && SafeEntries(r) && SameView(s, r)
    ensures View(r) == View(s)
  {
    SameEager(View(r), View(s));
  }

  lemma ChangedPage(s: Mem, r: Mem, d: nat, i: nat, p: PageView)
    requires Shape(s) && SafeEntries(s) && Shape(r) && SafeEntries(r) && UserDir(d) && i < ENTRIES
    requires SameViewExcept(s, r, d, i) && ViewAt(r, d, i) == p && !p.Low?
    ensures View(r) == E.Put(View(s), d, i, p)
  {
    assert E.ShapedRow(View(s).pages[d]);
    SameEager(View(r), E.Put(View(s), d, i, p));
  }

  lemma ForkedPage(s: Mem, r: Mem, parent: nat, child: nat, n: nat, d: nat, i: nat)
    requires Shape(s) && SafeEntries(s) && Shape(r) && SafeEntries(r)
    requires parent < NR_TASKS && 1 <= child < NR_TASKS && parent != child && n <= TASK_DIRS && d < DIRS && i < ENTRIES
    requires SameOutside(s, r, TASK_DIRS * child, TASK_DIRS * child + n)
    requires forall k :: 0 <= k < n ==> CopiedSlot(s, r, TASK_DIRS * parent, TASK_DIRS * child, k)
    ensures ViewAt(r, d, i) == E.CopyTask(View(s), parent, child, n).pages[d][i]
  {
    var k := d - TASK_DIRS * child;
    assert E.CopyTask(View(s), parent, child, n).pages[d] == E.CopyRow(View(s), parent, child, n, d);
    if 0 <= k < n {
      assert CopiedSlot(s, r, TASK_DIRS * parent, TASK_DIRS * child, k);
      assert ViewAt(r, TASK_DIRS * child + k, i) == CopyView(s, TASK_DIRS * parent, k, i);
    }
  }

  lemma ForkedView(s: Mem, r: Mem, parent: nat, child: nat, n: nat)
    requires Shape(s) && SafeEntries(s) && Shape(r) && SafeEntries(r)
    requires parent < NR_TASKS && 1 <= child < NR_TASKS && parent != child && n <= TASK_DIRS
    requires SameOutside(s, r, TASK_DIRS * child, TASK_DIRS * child + n)
    requires forall k :: 0 <= k < n ==> CopiedSlot(s, r, TASK_DIRS * parent, TASK_DIRS * child, k)
    ensures View(r) == E.CopyTask(View(s), parent, child, n)
  {
    var w := E.CopyTask(View(s), parent, child, n);
    forall d, i | 0 <= d < DIRS && 0 <= i < ENTRIES
      ensures ViewAt(r, d, i) == w.pages[d][i]
    {
      ForkedPage(s, r, parent, child, n, d, i);
    }
    SameEager(View(r), w);
  }

  /** The page that a forked child has at page i of its slot j. */
  lemma ForkedWhole(s: Mem, r: Mem, task: seq<Slot>, owned: set<nat>, parent: nat, child: nat, n: nat, j: nat, i: nat)
    requires Shape(s) && SafeEntries(s) && Shape(r) && SafeEntries(r) && Slots(s, task, owned)
    requires parent < NR_TASKS && 1 <= child < NR_TASKS && task[parent].Live? && task[child].NoTask?
    requires n == SlotsOf(task[parent].limit) <= TASK_DIRS && View(r) == E.CopyTask(View(s), parent, child, n)
    requires j < 16 && i < 1024
    ensures parent != 0 ==> ViewAt(r, 16 * child + j, i) == ViewAt(s, 16 * parent + j, i)
    ensures parent == 0 ==> ViewAt(r, 16 * child + j, i) == if j == 0 && i < 160 then Low(i) else Unmapped
  {
    var d := 16 * child + j;
    E.ForkedPages(View(s), parent, child, n);
    assert View(r).pages[d][i] == ViewAt(r, d, i) && View(s).pages[16 * parent + j][i] == ViewAt(s, 16 * parent + j, i);
    if j >= n {
      assert d / TASK_DIRS == child && View(s).pages[d][i] == ViewAt(s, d, i) == Unmapped;
      if parent != 0 {
        assert (16 * parent + j) / TASK_DIRS == parent && (16 * parent + j) % TASK_DIRS == j;
        assert s.dir[16 * parent + j].NoTable?;
      }
    }
  }

  /** Nobody else's pages are other than before. */
  lemma ForkedOthers(s: Mem, r: Mem, parent: nat, child: nat, n: nat, d: nat, i: nat)
    requires Shape(s) && SafeEntries(s) && Shape(r) && SafeEntries(r) && d < 1024 && i < 1024
    requires parent < NR_TASKS && 1 <= child < NR_TASKS && parent != child && n <= TASK_DIRS
    requires View(r) == E.CopyTask(View(s), parent, child, n) && !(16 * child <= d < 16 * child + 16)
    ensures ViewAt(r, d, i) == ViewAt(s, d, i)
  {
    E.ForkedPages(View(s), parent, child, n);
    assert View(r).pages[d][i] == ViewAt(r, d, i) && View(s).pages[d][i] == ViewAt(s, d, i);
  }

  lemma ForkedPagesAll(s: Mem, r: Mem, task: seq<Slot>, owned: set<nat>, parent: nat, child: nat, n: nat)
    requires Shape(s) && SafeEntries(s) && Shape(r) && SafeEntries(r) && Slots(s, task, owned)
    requires parent < NR_TASKS && 1 <= child < NR_TASKS && task[parent].Live? && task[child].NoTask?
    requires n == SlotsOf(task[parent].limit) <= TASK_DIRS && View(r) == E.CopyTask(View(s), parent, child, n)
    ensures parent != 0 ==> forall d, i :: 16 * child <= d < 16 * child + 16 && 0 <= i < 1024 ==>
              ViewAt(r, d, i) == ViewAt(s, d - 16 * child + 16 * parent, i)
    ensures parent == 0 ==> forall d, i :: 16 * child <= d < 16 * child + 16 && 0 <= i < 1024 ==>
              ViewAt(r, d, i) == if d == 16 * child && i < 160 then Low(i) else Unmapped
    ensures forall d, i :: 0 <= d < 1024 && 0 <= i < 1024 && !(16 * child <= d < 16 * child + 16) ==>
              ViewAt(r, d, i) == ViewAt(s, d, i)
  {
    forall d, i | 16 * child <= d < 16 * child + 16 && 0 <= i < 1024
      ensures parent != 0 ==> ViewAt(r, d, i) == ViewAt(s, d - 16 * child + 16 * parent, i)
      ensures parent == 0 ==> ViewAt(r, d, i) == if d == 16 * child && i < 160 then Low(i) else Unmapped
    {
      ForkedWhole(s, r, task, owned, parent, child, n, d - 16 * child, i);
    }
    forall d, i | 0 <= d < 1024 && 0 <= i < 1024 && !(16 * child <= d < 16 * child + 16)
      ensures ViewAt(r, d, i) == ViewAt(s, d, i)
    {
      ForkedOthers(s, r, parent, child, n, d, i);
    }
  }

  lemma ClearedView(s: Mem, r: Mem, t: nat, lo: nat, hi: nat)
    requires Shape(s) && SafeEntries(s) && Shape(r) && SafeEntries(r) && 1 <= t < NR_TASKS
    requires TASK_DIRS * t == lo <= hi <= lo + TASK_DIRS
    requires SameOutside(s, r, lo, hi)
    requires forall d :: lo <= d < lo + TASK_DIRS ==> r.dir[d].NoTable?
    ensures View(r) == E.ClearTask(View(s), t)
  {
    var w := E.ClearTask(View(s), t);
    forall d, i | 0 <= d < DIRS && 0 <= i < ENTRIES
      ensures ViewAt(r, d, i) == w.pages[d][i]
    {
      assert w.pages[d] == E.ClearRow(View(s), t, d);
    }
    SameEager(View(r), w);
  }

  /** Undoing a half-finished copy: the child's slots are empty again and every other slot names what it named. */
  lemma AbandonedCopy(s: Mem, m: Mem, r: Mem, k: set<nat>, to: nat, n: nat)
    requires Inv(s, k) && Inv(m, k) && Inv(r, k) && TASK_DIRS <= to && to + n <= DIRS
    requires SameOutside(s, m, to, to + n) && SameOutside(m, r, to, to + n)
    requires forall d :: to <= d < to + n ==> s.dir[d].NoTable? && r.dir[d].NoTable?
    ensures r.count == s.count && r.dir == s.dir && SameView(s, r)
  {
    forall d, i | 0 <= d < DIRS && 0 <= i < ENTRIES
      ensures SameNames(EntryAt(s, d, i), EntryAt(r, d, i)) && ViewAt(r, d, i) == ViewAt(s, d, i)
    {
      if !(to <= d < to + n) {
        assert SameNames(EntryAt(s, d, i), EntryAt(m, d, i)) && SameNames(EntryAt(m, d, i), EntryAt(r, d, i));
        assert ViewAt(m, d, i) == ViewAt(s, d, i);
      }
    }
    SameTablesSameCounts(s, r, k);
  }

  ghost predicate SlotsOutside(s: Mem, r: Mem, lo: nat, hi: nat)
    requires Shape(s) && Shape(r)
  {
    forall d :: 0 <= d < DIRS && !(lo <= d < hi) ==> r.dir[d] == s.dir[d]
  }

  lemma SlotsAfterFork(s: Mem, r: Mem, task: seq<Slot>, owned: set<nat>, nr: nat, slot: Slot, n: nat)
    requires Shape(s) && Shape(r) && Slots(s, task, owned)
    requires 1 <= nr < NR_TASKS && task[nr].NoTask? && slot.Live? && slot.page !in owned
    requires slot.code <= slot.limit <= TASK_SIZE && n == SlotsOf(slot.limit)
    requires SlotsOutside(s, r, TASK_DIRS * nr, TASK_DIRS * nr + n)
    ensures Slots(r, task[nr := slot], owned + {slot.page})
  {
    forall d | UserDir(d) && r.dir[d].Table?
      ensures task[nr := slot][d / TASK_DIRS].Live? && d % TASK_DIRS < SlotsOf(task[nr := slot][d / TASK_DIRS].limit)
    {
      if !(TASK_DIRS * nr <= d < TASK_DIRS * nr + n) {
        assert r.dir[d] == s.dir[d];
      }
    }
  }

  // ----- page addresses -------------------------------------------------------

  /** The page is inside the task's data segment. */
  predicate Addressable(slot: Slot, page: nat) { slot.Live? && page * PAGE_SIZE < slot.limit }

  /** Supervisor code may store to linear page x: it is absent (and will fault) or writable (and so unshared). */
  ghost predicate Ready(s: Mem, x: nat)
    requires Shape(s) && x < E.LINEAR_PAGES
  {
    var e := EntryAt(s, x / ENTRIES, x % ENTRIES);
    e.Absent? || e.writable
  }

  lemma WithinStep(x: nat, first: nat, k: nat)
    requires x < E.LINEAR_PAGES
    ensures E.Within(x, first, k + 1) <==> E.Within(x, first, k) || x == E.Wrap(first + k)
  {
    if E.Wrap(x - first) == k {
      assert x == E.Wrap(first + k);
    }
  }

  /** The linear page of byte addr of task t's segment. */
  function LinearPage(t: nat, addr: nat): (x: nat)
    ensures x < E.LINEAR_PAGES
  {
    E.Wrap(0x4000 * t + addr / 4096)
  }

  lemma WrapDistance(a: nat, k: nat)
    ensures E.Wrap(E.Wrap(a + k) - E.Wrap(a)) <= k
  {
    var q, p := a / 0x100000, (a + k) / 0x100000;
    assert E.Wrap(a + k) - E.Wrap(a) == k - 0x100000 * (p - q);
  }

  /** Every byte of addr..addr+size lies on one of the pages that verify_area goes through. */
  lemma VerifyCovers(t: nat, addr: nat, size: int, b: nat)
    requires addr <= b < addr + size
    ensures E.Within(LinearPage(t, b), LinearPage(t, addr), Pages(addr, size))
  {
    var a, k := 0x4000 * t + addr / 4096, b / 4096 - addr / 4096;
    assert 0 <= k < Pages(addr, size);
    WrapDistance(a, k);
  }

  /** How many pages `size` bytes from the beginning of a page take. */
  function PagesOf(size: int): nat { if size <= 0 then 0 else (size + 4095) / 4096 }

  /** How many pages verify_area(addr, size) visits. */
  function Pages(addr: nat, size: int): nat { PagesOf(size + addr % 4096) }

  /** The loop of verify_area has visited k pages: are there more? */
  lemma PagesLeft(size: int, k: nat)
    requires k <= PagesOf(size)
    ensures size - 4096 * k > 0 <==> k < PagesOf(size)
  {
  }

  predicate LeftAfter(size: int, left: int, k: nat) {
    left == size - 4096 * k && (left > 0 <==> k < PagesOf(size)) && k <= PagesOf(size)
  }

  lemma LeftStep(size: int, left: int, k: nat)
    requires LeftAfter(size, left, k) && left > 0
    ensures LeftAfter(size, left - 4096, k + 1)
  {
    PagesLeft(size, k + 1);
  }

  lemma VerifiedAll(s: Mem, t: nat, addr: nat, size: int)
    requires Shape(s)
    requires forall x :: 0 <= x < E.LINEAR_PAGES && E.Within(x, LinearPage(t, addr), Pages(addr, size)) ==> Ready(s, x)
    ensures forall a :: addr <= a < addr + size ==> Ready(s, LinearPage(t, a))
  {
    forall a | addr <= a < addr + size
      ensures Ready(s, LinearPage(t, a))
    {
      VerifyCovers(t, addr, size, a);
    }
  }

  lemma DetachStep(v: E.Eager, s: Mem, r: Mem, first: nat, k: nat)
    requires E.Shaped(v) && Shape(s) && SafeEntries(s) && Shape(r) && SafeEntries(r)
    requires View(s) == E.DetachRange(v, first, k)
    requires var x := E.Wrap(first + k);
             var d, i := x / ENTRIES, x % ENTRIES;
             && SameViewExcept(s, r, d, i)
             && ViewAt(r, d, i) == if UserDir(d) then Detach(s, ViewAt(s, d, i)) else ViewAt(s, d, i)
    ensures View(r) == E.DetachRange(v, first, k + 1)
  {
    var w := E.DetachRange(v, first, k + 1);
    var u := E.DetachRange(v, first, k);
    var x := E.Wrap(first + k);
    forall d, i | 0 <= d < DIRS && 0 <= i < ENTRIES
      ensures ViewAt(r, d, i) == w.pages[d][i]
    {
      WithinStep(ENTRIES * d + i, first, k);
      assert w.pages[d] == E.DetachRow(v, first, k + 1, d);
      assert u.pages[d] == E.DetachRow(v, first, k, d);
      assert E.ShapedRow(v.pages[d]);
      assert u.pages[d][i] == ViewAt(s, d, i);
      assert ENTRIES * d + i == x <==> d == x / ENTRIES && i == x % ENTRIES;
    }
    SameEager(View(r), w);
  }

  lemma ReadyStep(s: Mem, r: Mem, first: nat, k: nat)
    requires Shape(s) && Shape(r)
    requires forall x :: 0 <= x < E.LINEAR_PAGES && E.Within(x, first, k) ==> Ready(s, x)
    requires var x := E.Wrap(first + k);
             && Ready(r, x)
             && forall d, i :: 0 <= d < DIRS && 0 <= i < ENTRIES && (d != x / ENTRIES || i != x % ENTRIES) ==>
                  EntryAt(r, d, i) == EntryAt(s, d, i)
    ensures forall x :: 0 <= x < E.LINEAR_PAGES && E.Within(x, first, k + 1) ==> Ready(r, x)
  {
    forall x | 0 <= x < E.LINEAR_PAGES && E.Within(x, first, k + 1)
      ensures Ready(r, x)
    {
      WithinStep(x, first, k);
      if x != E.Wrap(first + k) {
        assert Ready(s, x);
        assert EntryAt(r, x / ENTRIES, x % ENTRIES) == EntryAt(s, x / ENTRIES, x % ENTRIES);
      }
    }
  }

  // ----- runs -----------------------------------------------------------------

  /** What tasks, and interrupts on their behalf, may ask for. */
  datatype Request =
    | DoFork(task: nat)
    | DoLoad(task: nat, page: nat, offset: nat)
    | DoStore(task: nat, page: nat, offset: nat, value: Byte)
    | DoVerify(task: nat, addr: nat, size: int)
    | DoExit(task: nat)
    | DoExec(task: nat, text: nat)
    | DoRelease(task: nat)
    | DoStoreLow(frame: nat, offset: nat, value: Byte)

  /** The event is an answer to the request. */
  predicate Answers(q: Request, e: E.Event) {
    match q
    case DoFork(t) => e == E.ForkFailed(t) || (e.Forked? && e.parent == t)
    case DoLoad(t, g, o) => e == E.Killed(t) || (e.Loaded? && e.task == t && e.page == g && e.offset == o)
    case DoStore(t, g, o, x) => e == E.Killed(t) || e == E.Stored(t, g, o, x)
    case DoVerify(t, a, n) =>
      || e == E.Verified(t, LinearPage(t, a), Pages(a, n))
      || (e.KilledVerifying? && e.task == t && e.first == LinearPage(t, a) && e.pages < Pages(a, n))
    case DoExit(t) => e == E.Exited(t)
    case DoExec(t, _) => e == E.Execed(t)
    case DoRelease(t) => e == E.Reaped(t)
    case DoStoreLow(f, o, x) => e == E.LowStored(f, o, x)
  }

  /** The request can be made in this state; anything else stops at the segment limits or at an error return. */
  predicate Possible(task: seq<Slot>, q: Request)
    requires |task| == NR_TASKS
  {
    match q
    case DoFork(t) => t < NR_TASKS && task[t].Live?
    case DoLoad(t, g, o) => E.InTask(t, g) && Addressable(task[t], g) && o < PAGE_SIZE
    case DoStore(t, g, o, _) => E.InTask(t, g) && Addressable(task[t], g) && o < PAGE_SIZE
    case DoVerify(t, _, _) => 1 <= t < NR_TASKS && task[t].Live?
    case DoExit(t) => 1 <= t < NR_TASKS && task[t].Live?
    case DoExec(t, n) => 1 <= t < NR_TASKS && task[t].Live? && n <= 0x3000000
    case DoRelease(t) => 1 <= t < NR_TASKS && task[t].Zombie?
    case DoStoreLow(f, o, _) => f < LOW_FRAMES && o < PAGE_SIZE
  }

  // ----- why a request fails ----------------------------------------------------

  predicate SlotFree(task: seq<Slot>) { exists t :: 1 <= t < |task| && task[t].NoTask? }

  /** c is the lowest free slot. */
  predicate FirstFree(task: seq<Slot>, c: nat) {
    1 <= c < |task| && task[c].NoTask? && forall t :: 1 <= t < c ==> !task[t].NoTask?
  }

  /** What fork needs: a slot, a frame for the task structure and one for each page table of the parent. */
  predicate CanFork(s: Mem, task: seq<Slot>, parent: nat)
    requires Shape(s) && parent < |task| == NR_TASKS && task[parent].Live? && task[parent].limit <= TASK_SIZE
  {
    SlotFree(task) && Free(s.count) >= 1 + TablesIn(s.dir, TASK_DIRS * parent, SlotsOf(task[parent].limit))
  }

  predicate PageNeedsCopy(s: Mem, x: nat)
    requires Shape(s) && x < E.LINEAR_PAGES
  {
    NeedsCopy(s, x / ENTRIES, x % ENTRIES)
  }

  function LinearEntry(s: Mem, x: nat): (e: Entry)
    requires Shape(s) && x < E.LINEAR_PAGES
  {
    EntryAt(s, x / ENTRIES, x % ENTRIES)
  }

  /**
    Page k of the range needs a copy when the frames in `done` have been copied
    for the pages before: it is there, read-only, and its frame is not left to it
    alone.
   */
  predicate TakesCopy(s: Mem, done: seq<nat>, first: nat, k: nat)
    requires Shape(s)
  {
    var e := LinearEntry(s, E.Wrap(first + k));
    && k < E.LINEAR_PAGES && e.Entry? && !e.writable
    && (High(e.frame) ==> Count(s, e.frame) - multiset(done)[e.frame] != 1)
  }

  /** The frames that verify_area copies for the k pages from `first` on. */
  function CopiedFrames(s: Mem, first: nat, k: nat): (done: seq<nat>)
    requires Shape(s)
  {
    if k == 0 then []
    else
      var done := CopiedFrames(s, first, k - 1);
      if TakesCopy(s, done, first, k - 1) then done + [LinearEntry(s, E.Wrap(first + k - 1)).frame] else done
  }

  /** verify_area runs out of frames at page k: it needs a copy, and the copies before it have taken all free frames. */
  predicate RunsShort(s: Mem, first: nat, k: nat)
    requires Shape(s)
  {
    TakesCopy(s, CopiedFrames(s, first, k), first, k) && |CopiedFrames(s, first, k)| == Free(s.count)
  }

  lemma CopiedNext(s: Mem, first: nat, k: nat)
    requires Shape(s)
    ensures var done := CopiedFrames(s, first, k);
            CopiedFrames(s, first, k + 1) ==
              if TakesCopy(s, done, first, k) then done + [LinearEntry(s, E.Wrap(first + k)).frame] else done
  {
  }

  lemma {:induction false} CopiedGrows(s: Mem, first: nat, k: nat, n: nat)
    requires Shape(s) && k <= n
    ensures |CopiedFrames(s, first, k)| <= |CopiedFrames(s, first, n)|
    decreases n - k
  {
    if k < n {
      CopiedNext(s, first, k);
      CopiedGrows(s, first, k + 1, n);
    }
  }

  /** Everything that the requests change. */
  datatype World = World(mem: Mem, task: seq<Slot>, lost: set<nat>)

  /**
    What one access by task t does besides the bytes: it succeeds if and only if
    there are frames for it, and takes them.
   */
  ghost predicate Settled(w: World, r: World, t: nat, page: nat, write: bool, ok: bool)
    requires Shape(w.mem) && Shape(r.mem) && E.InTask(t, page) && |w.task| == NR_TASKS && w.task[t].Live?
  {
    var d, i := E.Dir(t, page), page % ENTRIES;
    && r.task == (if ok then w.task else w.task[t := Zombie(w.task[t].page)])
    && (ok <==> Free(w.mem.count) >= Cost(w.mem, d, i, write))
    && (ok ==> Free(r.mem.count) == Free(w.mem.count) - Cost(w.mem, d, i, write))
    && (ok ==> r.mem.dir[d].Table? && r.mem.dir == w.mem.dir[d := r.mem.dir[d]])
    && w.lost <= r.lost && |r.lost| == |w.lost| + (if LosesFrame(w.mem, d) then 1 else 0)
  }

  /** A step that takes n frames, or has not got them; it touches at most directory slot d. */
  predicate Paid(s: Mem, r: Mem, d: nat, n: nat, ok: bool)
    requires Shape(s) && Shape(r) && d < DIRS
  {
    && (ok <==> Free(s.count) >= n)
    && (ok ==> Free(r.count) == Free(s.count) - n && r.dir == s.dir[d := r.dir[d]])
  }

  /** What the fault handlers of one access do besides the bytes; `leaked` is what do_no_page loses. */
  predicate Faulted(w: World, r: World, t: nat, page: nat, write: bool, ok: bool, leaked: set<nat>)
    requires Shape(w.mem) && Shape(r.mem) && E.InTask(t, page)
  {
    var d, i := E.Dir(t, page), page % ENTRIES;
    && Paid(w.mem, r.mem, d, Cost(w.mem, d, i, write), ok) && (ok ==> r.mem.dir[d].Table?)
    && (leaked != {} <==> LosesFrame(w.mem, d))
    && r.task == w.task && r.lost == w.lost + leaked && leaked !! w.lost && |leaked| <= 1
  }

  lemma NothingFaulted(w: World, t: nat, page: nat, write: bool)
    requires Shape(w.mem) && E.InTask(t, page) && Accessible(w.mem, t, page, write)
    ensures Faulted(w, w, t, page, write, true, {})
  {
  }

  lemma ProtectedTouch(s: Mem, r: Mem, t: nat, page: nat)
    requires Shape(s) && SafeEntries(s) && Shape(r) && SafeEntries(r) && E.InTask(t, page)
    requires var d, i := E.Dir(t, page), page % ENTRIES;
             EntryAt(s, d, i).Entry? && SameViewExcept(s, r, d, i) && ViewAt(r, d, i) == Detach(s, ViewAt(s, d, i))
    ensures View(r) == E.Touch(View(s), t, page, true)
  {
    var d, i := E.Dir(t, page), page % ENTRIES;
    assert E.PageAt(View(s), t, page) == ViewAt(s, d, i);
    assert SafeEntry(s, EntryAt(s, d, i));
    ChangedPage(s, r, d, i, ViewAt(r, d, i));
  }

  /** Storing the byte takes nothing more. */
  lemma StillSettled(w: World, m: World, r: World, t: nat, page: nat)
    requires Shape(w.mem) && Shape(m.mem) && Shape(r.mem) && E.InTask(t, page) && |w.task| == NR_TASKS
    requires w.task[t].Live? && Settled(w, m, t, page, true, true)
    requires r.mem.count == m.mem.count && r.mem.dir == m.mem.dir && r.task == m.task && r.lost == m.lost
    ensures Settled(w, r, t, page, true, true)
  {
  }

  ghost predicate Accessible(s: Mem, t: nat, page: nat, write: bool)
    requires Shape(s) && E.InTask(t, page)
  {
    var e := EntryAt(s, E.Dir(t, page), page % ENTRIES);
    e.Entry? && (write ==> e.writable)
  }

  /**
    What fork does besides the pages: it succeeds if and only if it can, in the
    lowest free slot, and takes what it needs.
   */
  ghost predicate ForkSettled(w: World, r: World, parent: nat, e: E.Event)
    requires Shape(w.mem) && Shape(r.mem) && parent < |w.task| == NR_TASKS && |r.task| == NR_TASKS
    requires w.task[parent].Live? && w.task[parent].limit <= TASK_SIZE
  {
    var n := SlotsOf(w.task[parent].limit);
    && (e.Forked? <==> CanFork(w.mem, w.task, parent)) && r.lost == w.lost
    && (!e.Forked? ==>
          e == E.ForkFailed(parent) && r.task == w.task && r.mem.count == w.mem.count && r.mem.dir == w.mem.dir)
    && (e.Forked? ==>
          && e.parent == parent && e.slots == n && FirstFree(w.task, e.child) && r.task[e.child].Live?
          && r.task == w.task[e.child := ForkedSlot(w.task[parent], r.task[e.child].page)]
          && Free(r.mem.count) == Free(w.mem.count) - 1 - TablesIn(w.mem.dir, TASK_DIRS * parent, n))
  }

  lemma NoSlotSettles(w: World, parent: nat)
    requires Shape(w.mem) && parent < |w.task| == NR_TASKS && w.task[parent].Live? && w.task[parent].limit <= TASK_SIZE
    requires forall t :: 1 <= t < NR_TASKS ==> !w.task[t].NoTask?
    ensures ForkSettled(w, w, parent, E.ForkFailed(parent))
  {
  }

  lemma ForkSettles(w: World, r: World, parent: nat, nr: nat, p: nat, e: E.Event)
    requires Shape(w.mem) && Shape(r.mem) && parent < |w.task| == NR_TASKS && w.task[parent].Live?
    requires w.task[parent].limit <= TASK_SIZE
    requires 1 <= nr < NR_TASKS && FirstFree(w.task, nr) && r.lost == w.lost
    requires r.task == if p == 0 then w.task else w.task[nr := ForkedSlot(w.task[parent], p)]
    requires var n := SlotsOf(w.task[parent].limit);
             && e == (if p == 0 then E.ForkFailed(parent) else E.Forked(parent, nr, n))
             && (p != 0 <==> Free(w.mem.count) >= 1 + TablesIn(w.mem.dir, TASK_DIRS * parent, n))
             && (p == 0 ==> r.mem.count == w.mem.count && r.mem.dir == w.mem.dir)
             && (p != 0 ==> Free(r.mem.count) == Free(w.mem.count) - 1 - TablesIn(w.mem.dir, TASK_DIRS * parent, n))
    ensures ForkSettled(w, r, parent, e)
  {
  }

  lemma AccessSettled(w: World, m: World, r: World, t: nat, page: nat, write: bool, ok: bool, leaked: set<nat>)
    requires Shape(w.mem) && Shape(m.mem) && Shape(r.mem) && E.InTask(t, page) && |w.task| == NR_TASKS
    requires w.task[t].Live?
    requires Faulted(w, m, t, page, write, ok, leaked)
    requires if ok then r == m else r.task == m.task[t := Zombie(m.task[t].page)] && r.lost == m.lost
    ensures Settled(w, r, t, page, write, ok)
  {
    assert leaked != {} ==> |leaked| == 1;
  }

  // ----- what a request comes to ------------------------------------------------

  ghost predicate Viewable(w: World) {
    && Shape(w.mem) && SafeEntries(w.mem) && |w.task| == NR_TASKS
    && forall t :: 0 <= t < NR_TASKS && w.task[t].Live? ==> w.task[t].limit <= TASK_SIZE
  }

  /** A fork fails and a task is killed exactly when there are too few frames or slots. */
  predicate Cause(w: World, q: Request, e: E.Event)
    requires Shape(w.mem) && |w.task| == NR_TASKS && Possible(w.task, q)
    requires forall t :: 0 <= t < NR_TASKS && w.task[t].Live? ==> w.task[t].limit <= TASK_SIZE
  {
    match q
    case DoFork(t) => e.Forked? <==> CanFork(w.mem, w.task, t)
    case DoLoad(t, g, _) => e.Killed? <==> Free(w.mem.count) < Cost(w.mem, E.Dir(t, g), g % ENTRIES, false)
    case DoStore(t, g, _, _) => e.Killed? <==> Free(w.mem.count) < Cost(w.mem, E.Dir(t, g), g % ENTRIES, true)
    case DoVerify(t, a, n) =>
      && (e.Verified? <==> |CopiedFrames(w.mem, LinearPage(t, a), Pages(a, n))| <= Free(w.mem.count))
      && (e.KilledVerifying? ==> RunsShort(w.mem, e.first, e.pages))
    case _ => true
  }

  predicate Becomes(task: seq<Slot>, r: seq<Slot>, t: nat, slot: Slot) { t < |task| && r == task[t := slot] }

  predicate IsZombie(task: seq<Slot>, r: seq<Slot>, t: nat) {
    t < |task| && !task[t].NoTask? && Becomes(task, r, t, Zombie(task[t].page))
  }

  /** The task table after the event. */
  predicate TasksAfter(task: seq<Slot>, r: seq<Slot>, q: Request, e: E.Event) {
    match e
    case Forked(p, c, n) =>
      && p < |task| && task[p].Live? && n == SlotsOf(task[p].limit) && FirstFree(task, c) && c < |r| && r[c].Live?
      && Becomes(task, r, c, ForkedSlot(task[p], r[c].page))
    case Killed(t) => IsZombie(task, r, t)
    case KilledVerifying(t, _, _) => IsZombie(task, r, t)
    case Exited(t) => IsZombie(task, r, t)
    case Execed(t) => q.DoExec? && t < |task| && !task[t].NoTask? && Becomes(task, r, t, Execed(task[t], q.text))
    case Reaped(t) => Becomes(task, r, t, NoTask)
    case _ => r == task
  }

  /** do_no_page loses a frame in this request. */
  predicate Leaks(w: World, q: Request)
    requires Shape(w.mem) && |w.task| == NR_TASKS && Possible(w.task, q)
  {
    match q
    case DoLoad(t, g, _) => LosesFrame(w.mem, E.Dir(t, g))
    case DoStore(t, g, _, _) => LosesFrame(w.mem, E.Dir(t, g))
    case _ => false
  }

  /** The event is what the request has to come to: to the tasks, to their memory and to the frames. */
  ghost predicate Justified(w: World, r: World, q: Request, e: E.Event)
    requires Viewable(w) && Viewable(r)
  {
    && E.Legal(View(w.mem), e) && View(r.mem) == E.Apply(View(w.mem), e)
    && if !Possible(w.task, q) then e == E.Refused && r == w
       else
         && Answers(q, e) && Cause(w, q, e) && TasksAfter(w.task, r.task, q, e)
         && w.lost <= r.lost && |r.lost| == |w.lost| + if Leaks(w, q) then 1 else 0
  }

  /** What holds between any two requests, and with it that no count passes the number of tasks. */
  ghost predicate Sound(w: World) {
    var owned := TaskFrames(w.task) + w.lost;
    Inv(w.mem, owned) && Slots(w.mem, w.task, owned) && TaskFrames(w.task) !! w.lost
  }

  lemma SoundCounts(w: World, f: nat)
    requires Sound(w) && High(f)
    ensures Count(w.mem, f) < NR_TASKS
  {
    CountsBounded(w.mem, TaskFrames(w.task) + w.lost, f);
  }

  /** Request k of a run leads from state k to the next. */
  ghost predicate Follows(worlds: seq<World>, k: nat, q: Request, e: E.Event) {
    k + 1 < |worlds| && Viewable(worlds[k]) && Viewable(worlds[k + 1]) && Justified(worlds[k], worlds[k + 1], q, e)
  }

  lemma RunStep(worlds: seq<World>, r: World, requests: seq<Request>, events: seq<E.Event>, n: nat, e: E.Event)
    requires n < |requests| && |events| == n && |worlds| == n + 1
    requires forall k :: 0 <= k <= n ==> Sound(worlds[k])
    requires forall k :: 0 <= k < n ==> Follows(worlds, k, requests[k], events[k])
    requires Sound(r) && Viewable(worlds[n]) && Viewable(r) && Justified(worlds[n], r, requests[n], e)
    ensures forall k :: 0 <= k <= n + 1 ==> Sound((worlds + [r])[k])
    ensures forall k :: 0 <= k < n + 1 ==> Follows(worlds + [r], k, requests[k], (events + [e])[k])
  {
    var ws, es := worlds + [r], events + [e];
    forall k | 0 <= k <= n + 1
      ensures Sound(ws[k])
    {
      if k <= n {
        assert ws[k] == worlds[k];
      }
    }
    forall k | 0 <= k < n + 1
      ensures Follows(ws, k, requests[k], es[k])
    {
      if k < n {
        assert ws[k] == worlds[k] && ws[k + 1] == worlds[k + 1] && es[k] == events[k];
        assert Follows(worlds, k, requests[k], events[k]);
      }
    }
  }

  lemma ForkJustified(w: World, r: World, t: nat, e: E.Event)
    requires Viewable(w) && Viewable(r) && Possible(w.task, DoFork(t))
    requires E.Legal(View(w.mem), e) && View(r.mem) == E.Apply(View(w.mem), e) && ForkSettled(w, r, t, e)
    ensures Justified(w, r, DoFork(t), e)
  {
  }

  lemma AccessJustified(w: World, r: World, q: Request, t: nat, g: nat, write: bool, e: E.Event)
    requires Viewable(w) && Viewable(r) && Possible(w.task, q) && Answers(q, e)
    requires if write then q.DoStore? && q.task == t && q.page == g else q.DoLoad? && q.task == t && q.page == g
    requires E.Legal(View(w.mem), e) && View(r.mem) == E.Apply(View(w.mem), e) && Settled(w, r, t, g, write, !e.Killed?)
    ensures Justified(w, r, q, e)
  {
  }

  lemma VerifyJustified(w: World, r: World, q: Request, e: E.Event)
    requires Viewable(w) && Viewable(r) && q.DoVerify? && Possible(w.task, q)
    requires VerifySettled(w, r, q.task, q.addr, q.size, e)
    ensures Justified(w, r, q, e)
  {
  }

  lemma ExitJustified(w: World, r: World, t: nat)
    requires Viewable(w) && Viewable(r) && Possible(w.task, DoExit(t)) && r.lost == w.lost
    requires View(r.mem) == E.ClearTask(View(w.mem), t) && r.task == w.task[t := Zombie(w.task[t].page)]
    ensures Justified(w, r, DoExit(t), E.Exited(t))
  {
  }

  lemma ExecJustified(w: World, r: World, t: nat, text: nat)
    requires Viewable(w) && Viewable(r) && Possible(w.task, DoExec(t, text)) && r.lost == w.lost
    requires View(r.mem) == E.ClearTask(View(w.mem), t) && r.task == w.task[t := Execed(w.task[t], text)]
    ensures Justified(w, r, DoExec(t, text), E.Execed(t))
  {
  }

  lemma ReleaseJustified(w: World, r: World, t: nat)
    requires Viewable(w) && Viewable(r) && Possible(w.task, DoRelease(t)) && r.lost == w.lost
    requires View(r.mem) == View(w.mem) && r.task == w.task[t := NoTask]
    ensures Justified(w, r, DoRelease(t), E.Reaped(t))
  {
  }

  lemma StoreLowJustified(w: World, r: World, f: nat, o: nat, x: Byte)
    requires Viewable(w) && Viewable(r) && Possible(w.task, DoStoreLow(f, o, x)) && r.lost == w.lost && r.task == w.task
    requires View(r.mem) == E.Apply(View(w.mem), E.LowStored(f, o, x))
    ensures Justified(w, r, DoStoreLow(f, o, x), E.LowStored(f, o, x))
  {
  }

  /** verify_area has visited k pages since the state s, and m is the state now. */
  ghost predicate VerifiedUpTo(s: Mem, m: Mem, v: E.Eager, first: nat, k: nat)
    requires Shape(s) && Shape(m) && SafeEntries(m) && E.Shaped(v)
  {
    && View(m) == E.DetachRange(v, first, k)
    && (forall x :: 0 <= x < E.LINEAR_PAGES && E.Within(x, first, k) ==> Ready(m, x))
    && (forall x :: 0 <= x < E.LINEAR_PAGES && !E.Within(x, first, k) ==> LinearEntry(m, x) == LinearEntry(s, x))
    && CountsAfter(s, m, CopiedFrames(s, first, k))
  }

  /** What the copies leave of the counts and of the free frames. */
  ghost predicate CountsAfter(s: Mem, m: Mem, done: seq<nat>)
    requires Shape(s) && Shape(m)
  {
    && (forall f :: High(f) && Count(s, f) > 0 ==> 0 < Count(m, f) == Count(s, f) - multiset(done)[f])
    && Free(m.count) == Free(s.count) - |done|
  }

  /** verify_area goes on after k pages, or has killed the task at page k. */
  ghost predicate Verdict(w: World, r: World, v: E.Eager, t: nat, first: nat, k: nat, ok: bool)
    requires Shape(w.mem) && Shape(r.mem) && SafeEntries(r.mem) && E.Shaped(v) && 1 <= t < |w.task| == NR_TASKS
    requires w.task[t].Live?
  {
    if ok then VerifiedUpTo(w.mem, r.mem, v, first, k) && r.task == w.task
    else
      && RunsShort(w.mem, first, k) && View(r.mem) == E.ClearTask(E.DetachRange(v, first, k), t)
      && r.task == w.task[t := Zombie(w.task[t].page)]
  }

  /** So n pages can be verified if and only if there are frames for all their copies. */
  lemma VerdictIff(w: World, r: World, v: E.Eager, t: nat, first: nat, k: nat, ok: bool, n: nat)
    requires Shape(w.mem) && Shape(r.mem) && SafeEntries(r.mem) && E.Shaped(v) && 1 <= t < |w.task| == NR_TASKS
    requires w.task[t].Live? && Verdict(w, r, v, t, first, k, ok) && if ok then k == n else k < n
    ensures ok <==> |CopiedFrames(w.mem, first, n)| <= Free(w.mem.count)
  {
    if !ok {
      CopiedNext(w.mem, first, k);
      CopiedGrows(w.mem, first, k + 1, n);
    }
  }

  /**
    What verify_area comes to: every byte of the range is safe to store to, or the
    task dies; it dies if and only if the pages that need a copy outnumber the
    free frames, and at the first page for which there is none.
   */
  ghost predicate VerifySettled(w: World, r: World, t: nat, addr: nat, size: int, e: E.Event)
    requires Viewable(w) && Viewable(r) && t < NR_TASKS && w.task[t].Live?
  {
    var first, n := LinearPage(t, addr), Pages(addr, size);
    && E.Legal(View(w.mem), e) && View(r.mem) == E.Apply(View(w.mem), e) && r.lost == w.lost
    && (if e.KilledVerifying? then e.task == t && e.first == first && e.pages < n else e == E.Verified(t, first, n))
    && (e.Verified? <==> |CopiedFrames(w.mem, first, n)| <= Free(w.mem.count))
    && (e.Verified? ==> r.task == w.task && forall a :: addr <= a < addr + size ==> Ready(r.mem, LinearPage(t, a)))
    && (e.KilledVerifying? ==> RunsShort(w.mem, first, e.pages) && r.task == w.task[t := Zombie(w.task[t].page)])
  }

  lemma VerdictSettles(w: World, r: World, t: nat, addr: nat, size: int, k: nat, ok: bool, e: E.Event)
    requires Viewable(w) && Viewable(r) && 1 <= t < NR_TASKS && w.task[t].Live? && r.lost == w.lost
    requires Verdict(w, r, View(w.mem), t, LinearPage(t, addr), k, ok)
    requires if ok then k == Pages(addr, size) else k < Pages(addr, size)
    requires var first := LinearPage(t, addr);
             e == if ok then E.Verified(t, first, k) else E.KilledVerifying(t, first, k)
    ensures VerifySettled(w, r, t, addr, size, e)
  {
    VerdictIff(w, r, View(w.mem), t, LinearPage(t, addr), k, ok, Pages(addr, size));
    if ok {
      VerifiedAll(r.mem, t, addr, size);
    }
  }

  lemma NoneVerified(s: Mem, v: E.Eager, first: nat)
    requires Shape(s) && SafeEntries(s) && v == View(s)
    ensures VerifiedUpTo(s, s, v, first, 0)
  {
    SameEager(v, E.DetachRange(v, first, 0));
  }

  /** The k-th page after `first` has been visited before exactly when the range has gone around. */
  lemma VisitedIff(first: nat, k: nat)
    ensures E.Within(E.Wrap(first + k), first, k) <==> k >= E.LINEAR_PAGES
  {
    var q, p := first / 0x100000, (first + k) / 0x100000;
    assert E.Wrap(first + k) - first == k - 0x100000 * p;
    assert E.Wrap(E.Wrap(first + k) - first) == E.Wrap(k);
  }

  /** Whether a page has to be copied when its turn comes can be told from the state at the beginning. */
  lemma TakesCopyNow(s: Mem, m: Mem, own: set<nat>, first: nat, k: nat)
    requires Inv(s, own) && Inv(m, own) && CountsAfter(s, m, CopiedFrames(s, first, k))
    requires var x := E.Wrap(first + k);
             if k < E.LINEAR_PAGES then LinearEntry(m, x) == LinearEntry(s, x) else Ready(m, x)
    ensures PageNeedsCopy(m, E.Wrap(first + k)) <==> TakesCopy(s, CopiedFrames(s, first, k), first, k)
  {
    var x := E.Wrap(first + k);
    var e := LinearEntry(s, x);
    if k < E.LINEAR_PAGES && e.Entry? && !e.writable {
      UserEntryCounted(s, own, x);
    }
  }

  lemma UserEntryCounted(s: Mem, own: set<nat>, x: nat)
    requires Inv(s, own) && x < E.LINEAR_PAGES && LinearEntry(s, x).Entry? && !LinearEntry(s, x).writable
    ensures High(LinearEntry(s, x).frame) ==> Count(s, LinearEntry(s, x).frame) > 0
  {
    if x / ENTRIES >= TASK_DIRS && High(LinearEntry(s, x).frame) {
      PresentEntry(s, own, x / ENTRIES, x % ENTRIES);
    }
  }

  lemma CountsStep(s: Mem, m: Mem, r: Mem, first: nat, k: nat)
    requires Shape(s) && Shape(m) && Shape(r) && CountsAfter(s, m, CopiedFrames(s, first, k))
    requires var e, takes := LinearEntry(s, E.Wrap(first + k)), TakesCopy(s, CopiedFrames(s, first, k), first, k);
             && Free(r.count) == Free(m.count) - (if takes then 1 else 0)
             && forall g :: High(g) && Count(m, g) > 0 ==>
                  Count(r, g) == Count(m, g) - if takes && g == e.frame then 1 else 0
    ensures CountsAfter(s, r, CopiedFrames(s, first, k + 1))
  {
    CopiedNext(s, first, k);
  }

  lemma UnvisitedStep(s: Mem, m: Mem, r: Mem, first: nat, k: nat)
    requires Shape(s) && Shape(m) && Shape(r)
    requires forall x :: 0 <= x < E.LINEAR_PAGES && !E.Within(x, first, k) ==> LinearEntry(m, x) == LinearEntry(s, x)
    requires var x := E.Wrap(first + k);
             forall d, i :: 0 <= d < DIRS && 0 <= i < ENTRIES && (d != x / ENTRIES || i != x % ENTRIES) ==>
               EntryAt(r, d, i) == EntryAt(m, d, i)
    ensures forall x :: 0 <= x < E.LINEAR_PAGES && !E.Within(x, first, k + 1) ==> LinearEntry(r, x) == LinearEntry(s, x)
  {
    forall x | 0 <= x < E.LINEAR_PAGES && !E.Within(x, first, k + 1)
      ensures LinearEntry(r, x) == LinearEntry(s, x)
    {
      WithinStep(x, first, k);
      assert EntryAt(r, x / ENTRIES, x % ENTRIES) == EntryAt(m, x / ENTRIES, x % ENTRIES);
    }
  }

  lemma VerifyStep(s: Mem, m: Mem, r: Mem, own: set<nat>, v: E.Eager, first: nat, k: nat)
    requires Inv(s, own) && Inv(m, own) && Inv(r, own) && E.Shaped(v) && VerifiedUpTo(s, m, v, first, k)
    requires var x := E.Wrap(first + k);
             var d, i := x / ENTRIES, x % ENTRIES;
             && SameViewExcept(m, r, d, i) && Ready(r, x)
             && ViewAt(r, d, i) == (if UserDir(d) then Detach(m, ViewAt(m, d, i)) else ViewAt(m, d, i))
             && Free(r.count) == Free(m.count) - (if PageNeedsCopy(m, x) then 1 else 0)
             && (forall y, j :: 0 <= y < DIRS && 0 <= j < ENTRIES && (y != d || j != i) ==>
                   EntryAt(r, y, j) == EntryAt(m, y, j))
             && forall f :: High(f) && Count(m, f) > 0 ==>
                  Count(r, f) == Count(m, f) - if PageNeedsCopy(m, x) && CopiesFrame(m, d, i, f) then 1 else 0
    ensures VerifiedUpTo(s, r, v, first, k + 1)
  {
    DetachStep(v, m, r, first, k);
    ReadyStep(m, r, first, k);
    UnvisitedStep(s, m, r, first, k);
    VisitedIff(first, k);
    TakesCopyNow(s, m, own, first, k);
    CountsStep(s, m, r, first, k);
  }

  class Kernel {
    const mem: Memory
    const task: array<Slot>
    /** The frames that do_no_page took and could not map. */
    ghost var lost: set<nat>

    ghost function Parts(): set<object>
    {
      {this, mem, mem.memMap, mem.pgDir, mem.tables, mem.frames, task}
    }

    ghost predicate Valid()
      reads Parts()
    {
      mem.Valid() && Slots(mem.State(), task[..], mem.owned) && Owners(task[..], mem.owned, lost)
    }

    ghost function Now(): World
      reads Parts()
    {
      World(mem.State(), task[..], lost)
    }

    ghost function Seen(): E.Eager
      reads Parts()
      requires Valid()
    {
      View(mem.State())
    }

    constructor Boot(contents: seq<Page>)
      requires |contents| == FRAMES
      ensures Valid() && fresh(Parts() - {this}) && lost == {} && Free(mem.memMap[..]) == PAGING_PAGES
      ensures task[..] == seq(NR_TASKS, t => if t == 0 then Live(0, TASK_0_SIZE, TASK_0_SIZE) else NoTask)
    {
      mem := new Memory.Boot(contents);
      task := new Slot[NR_TASKS](t => if t == 0 then Live(0, TASK_0_SIZE, TASK_0_SIZE) else NoTask);
      lost := {};
    }

    // ----- exit, exec, release ------------------------------------------------

    /** The two calls of free_page_tables in do_exit and do_execve. */
    method FreeTaskMemory(t: nat)
      requires Valid() && 1 <= t < NR_TASKS && task[t].Live?
      modifies mem.memMap, mem.pgDir, mem.tables
      ensures Valid() && task[..] == old(task[..]) && Free(mem.memMap[..]) >= Free(old(mem.memMap[..]))
      ensures forall d :: UserDir(d) && d / TASK_DIRS == t ==> mem.pgDir[d].NoTable?
      ensures Seen() == E.ClearTask(old(Seen()), t)
    {
      ghost var s := mem.State();
      var base := TASK_DIRS * t;
      mem.FreePageTables(base, SlotsOf(task[t].code));
      ghost var m := mem.State();
      mem.FreePageTables(base, SlotsOf(task[t].limit));
      ghost var r := mem.State();
      var n := SlotsOf(task[t].limit);
      forall d | base <= d < base + TASK_DIRS
        ensures r.dir[d].NoTable?
      {
        assert d / TASK_DIRS == t && d % TASK_DIRS == d - base;
      }
      assert SameOutside(s, r, base, base + n) by {
        forall d, i | 0 <= d < DIRS && !(base <= d < base + n) && 0 <= i < ENTRIES
          ensures SameNames(EntryAt(s, d, i), EntryAt(r, d, i)) && ViewAt(r, d, i) == ViewAt(s, d, i)
        {
          assert SameNames(EntryAt(s, d, i), EntryAt(m, d, i)) && SameNames(EntryAt(m, d, i), EntryAt(r, d, i));
          assert ViewAt(m, d, i) == ViewAt(s, d, i);
        }
      }
      ClearedView(s, r, t, base, base + n);
    }

    method Exit(t: nat)
      requires Valid() && 1 <= t < NR_TASKS && task[t].Live?
      modifies task, mem.memMap, mem.pgDir, mem.tables
      ensures Valid() && Seen() == E.ClearTask(old(Seen()), t)
      ensures task[..] == old(task[..])[t := Zombie(old(task[t].page))]
    {
      FreeTaskMemory(t);
      OwnersAfterChange(task[..], mem.owned, lost, t, Zombie(task[t].page));
      task[t] := Zombie(task[t].page);
      assert task[..] == old(task[..])[t := Zombie(old(task[t].page))];
    }

    /** do_exit(SIGSEGV), where a handler has given up. */
    method ExitUnless(t: nat, ok: bool)
      requires Valid() && 1 <= t < NR_TASKS && task[t].Live?
      modifies task, mem.memMap, mem.pgDir, mem.tables
      ensures Valid() && Seen() == if ok then old(Seen()) else E.ClearTask(old(Seen()), t)
      ensures task[..] == if ok then old(task[..]) else old(task[..])[t := Zombie(old(task[t].page))]
      ensures ok ==> mem.State() == old(mem.State())
    {
      if !ok {
        Exit(t);
      }
    }

    /** do_execve drops the old image and opens the whole 64 MB segment; a.out sizes are checked before this point. */
    method Exec(t: nat, text: nat)
      requires Valid() && 1 <= t < NR_TASKS && task[t].Live? && text <= 0x3000000
      modifies task, mem.memMap, mem.pgDir, mem.tables
      ensures Valid() && Seen() == E.ClearTask(old(Seen()), t)
      ensures task[..] == old(task[..])[t := Execed(old(task[t]), text)]
      ensures task[t].Live? && task[t].limit == 0x4000000 && task[t].page == old(task[t].page)
      ensures task[t].code % 4096 == 0 && text <= task[t].code < text + 4096
      ensures Free(mem.memMap[..]) >= Free(old(mem.memMap[..]))
      ensures forall d :: UserDir(d) && d / TASK_DIRS == t ==> mem.pgDir[d].NoTable?
    {
      FreeTaskMemory(t);
      OwnersAfterChange(task[..], mem.owned, lost, t, Execed(task[t], text));
      task[t] := Execed(task[t], text);
      assert task[..] == old(task[..])[t := task[t]];
    }

    /** free_page of a task structure. */
    method DropFrame(p: nat)
      requires mem.Valid() && p in mem.owned
      modifies mem, mem.memMap
      ensures mem.Valid() && mem.owned == old(mem.owned) - {p} && High(p)
      ensures mem.State() == SetCount(old(mem.State()), p, 0) && View(mem.State()) == View(old(mem.State()))
    {
      ghost var s := mem.State();
      FreeOwnedKeeps(s, mem.owned, p);
      mem.FreePage(p);
      mem.owned := mem.owned - {p};
      SameViewIsSame(s, mem.State());
    }

    /** release: the slot and the task structure's frame become free. */
    method Release(t: nat)
      requires Valid() && 1 <= t < NR_TASKS && task[t].Zombie?
      modifies mem, mem.memMap, task
      ensures Valid() && Seen() == old(Seen())
      ensures task[..] == old(task[..])[t := NoTask] && mem.owned == old(mem.owned) - {old(task[t].page)}
      ensures Count(mem.State(), old(task[t].page)) == 0
    {
      var p := task[t].page;
      OwnersAfterRelease(task[..], mem.owned, lost, t);
      task[t] := NoTask;
      assert task[..] == old(task[..])[t := NoTask];
      DropFrame(p);
    }

    // ----- fork ---------------------------------------------------------------

    /** The lowest free slot of task[], 0 when there is none. */
    method FindEmptyProcess() returns (nr: nat)
      requires task.Length == NR_TASKS
      ensures nr == 0 ==> forall t :: 1 <= t < NR_TASKS ==> !task[t].NoTask?
      ensures nr != 0 ==> nr < NR_TASKS && task[nr].NoTask? && forall t :: 1 <= t < nr ==> !task[t].NoTask?
    {
      var i := 1;
      while i < NR_TASKS
        invariant 1 <= i <= NR_TASKS
        invariant forall t :: 1 <= t < i ==> !task[t].NoTask?
      {
        if task[i].NoTask? {
          return i;
        }
        i := i + 1;
      }
      nr := 0;
    }

    /** copy_mem: share the parent's pages, or put everything back if memory runs out half way. */
    method CopyMem(parent: nat, nr: nat, n: nat) returns (ok: bool)
      requires mem.Valid() && parent < NR_TASKS && 1 <= nr < NR_TASKS && nr != parent && n <= TASK_DIRS
      requires (parent == 0 ==> n <= 1)
      requires forall d :: TASK_DIRS * nr <= d < TASK_DIRS * nr + TASK_DIRS ==> mem.pgDir[d].NoTable?
      modifies mem, mem.memMap, mem.pgDir, mem.tables, mem.frames
      ensures mem.Valid() && mem.owned == old(mem.owned)
      ensures ok ==> SameOutside(old(mem.State()), mem.State(), TASK_DIRS * nr, TASK_DIRS * nr + n)
      ensures ok ==> forall k :: 0 <= k < n ==>
                CopiedSlot(old(mem.State()), mem.State(), TASK_DIRS * parent, TASK_DIRS * nr, k)
      ensures !ok ==> mem.memMap[..] == old(mem.memMap[..]) && mem.pgDir[..] == old(mem.pgDir[..])
      ensures !ok ==> SameView(old(mem.State()), mem.State())
      ensures ok <==> Free(old(mem.memMap[..])) >= TablesIn(old(mem.pgDir[..]), TASK_DIRS * parent, n)
      ensures ok ==>
                Free(mem.memMap[..]) == Free(old(mem.memMap[..])) - TablesIn(old(mem.pgDir[..]), TASK_DIRS * parent, n)
    {
      ghost var s := mem.State();
      ok := mem.CopyPageTables(TASK_DIRS * parent, TASK_DIRS * nr, n);
      if !ok {
        ghost var m := mem.State();
        mem.FreePageTables(TASK_DIRS * nr, n);
        AbandonedCopy(s, m, mem.State(), mem.owned, TASK_DIRS * nr, n);
      }
    }

    /** copy_process up to the point where the slot is filled: a frame for the task structure, then the memory. */
    method CopyProcess(parent: nat, nr: nat, n: nat) returns (p: nat)
      requires mem.Valid() && parent < NR_TASKS && 1 <= nr < NR_TASKS && nr != parent && n <= TASK_DIRS
      requires (parent == 0 ==> n <= 1)
      requires forall d :: TASK_DIRS * nr <= d < TASK_DIRS * nr + TASK_DIRS ==> mem.pgDir[d].NoTable?
      modifies mem, mem.memMap, mem.pgDir, mem.tables, mem.frames
      ensures mem.Valid()
      ensures p != 0 ==> p !in old(mem.owned) && mem.owned == old(mem.owned) + {p}
      ensures p != 0 ==> SlotsOutside(old(mem.State()), mem.State(), TASK_DIRS * nr, TASK_DIRS * nr + n)
      ensures p != 0 ==> View(mem.State()) == E.CopyTask(View(old(mem.State())), parent, nr, n)
      ensures p == 0 ==> mem.owned == old(mem.owned) && mem.memMap[..] == old(mem.memMap[..])
      ensures p == 0 ==> mem.pgDir[..] == old(mem.pgDir[..])
      ensures p == 0 ==> View(mem.State()) == View(old(mem.State()))
      ensures p != 0 <==> Free(old(mem.memMap[..])) >= 1 + TablesIn(old(mem.pgDir[..]), TASK_DIRS * parent, n)
      ensures p != 0 ==>
                Free(mem.memMap[..]) == Free(old(mem.memMap[..])) - 1 - TablesIn(old(mem.pgDir[..]),
                    TASK_DIRS * parent, n)
    {
      ghost var s := mem.State();
      p := mem.GetFreePage();
      if p == 0 {
        return;
      }
      ghost var a := mem.State();
      SameViewIsSame(s, a);
      var ok := CopyMem(parent, nr, n);
      if ok {
        ForkedView(a, mem.State(), parent, nr, n);
      } else {
        SameViewIsSame(a, mem.State());
        DropFrame(p);
        p := 0;
      }
    }

    /** fork: the new task sees a copy of its parent, page by page, or nothing at all has happened. */
    method Fork(parent: nat) returns (e: E.Event)
      requires Valid() && parent < NR_TASKS && task[parent].Live?
      modifies Parts() - {this}
      ensures Valid() && E.Legal(old(Seen()), e) && Seen() == E.Apply(old(Seen()), e)
      ensures e.Forked? && parent != 0 ==> forall d, i :: 16 * e.child <= d < 16 * e.child + 16 && 0 <= i < 1024 ==>
                ViewAt(mem.State(), d, i) == ViewAt(old(mem.State()), d - 16 * e.child + 16 * parent, i)
      ensures e.Forked? && parent == 0 ==> forall d, i :: 16 * e.child <= d < 16 * e.child + 16 && 0 <= i < 1024 ==>
                ViewAt(mem.State(), d, i) == if d == 16 * e.child && i < 160 then Low(i) else Unmapped
      ensures e.Forked? ==> task[e.child].Live? && task[e.child].limit == old(task[parent].limit)
                            && task[e.child].code == old(task[parent].code)
      ensures e.Forked? ==> forall d, i ::
                0 <= d < 1024 && 0 <= i < 1024 && !(16 * e.child <= d < 16 * e.child + 16) ==>
                  ViewAt(mem.State(), d, i) == ViewAt(old(mem.State()), d, i)
      // a failed fork means no free slot or too few frames, and changes neither tasks nor counts
      ensures ForkSettled(old(Now()), Now(), parent, e) && (e.ForkFailed? ==> mem.owned == old(mem.owned))
    {
      var nr := FindEmptyProcess();
      if nr == 0 {
        NoSlotSettles(Now(), parent);
        return E.ForkFailed(parent);
      }
      ghost var w, own := Now(), mem.owned;
      e := ForkInto(parent, nr);
      if e.Forked? {
        assert task[..][e.child] == ForkedSlot(w.task[parent], task[e.child].page);
        ForkedPagesAll(w.mem, mem.State(), w.task, own, parent, e.child, e.slots);
      }
    }

    method ForkInto(parent: nat, nr: nat) returns (e: E.Event)
      requires Valid() && parent < NR_TASKS && task[parent].Live? && nr < NR_TASKS && FirstFree(task[..], nr)
      modifies Parts() - {this}
      ensures Valid() && E.Legal(old(Seen()), e) && Seen() == E.Apply(old(Seen()), e)
      ensures ForkSettled(old(Now()), Now(), parent, e) && (e.ForkFailed? ==> mem.owned == old(mem.owned))
    {
      ghost var w := Now();
      var n := SlotsOf(task[parent].limit);
      FreeSlotNoTables(w.mem, task[..], mem.owned, nr);
      var p := CopyProcess(parent, nr, n);
      ghost var v := View(mem.State());
      FillSlot(nr, p, parent, w.mem, old(mem.owned));
      assert Seen() == v;
      e := if p == 0 then E.ForkFailed(parent) else E.Forked(parent, nr, n);
      ForkSettles(w, Now(), parent, nr, p, e);
    }

    /** The last store of copy_process, if it has come so far: the new task is in the table. */
    method FillSlot(nr: nat, p: nat, parent: nat, ghost s: Mem, ghost was: set<nat>)
      requires mem.Valid() && Shape(s) && Slots(s, task[..], was) && Owners(task[..], was, lost)
      requires 1 <= nr < NR_TASKS && task[nr].NoTask? && parent < NR_TASKS && task[parent].Live?
      requires p != 0 ==> p !in was && mem.owned == was + {p}
      requires p != 0 ==> SlotsOutside(s, mem.State(), TASK_DIRS * nr, TASK_DIRS * nr + SlotsOf(task[parent].limit))
      requires p == 0 ==> mem.owned == was && mem.State().dir == s.dir
      modifies task
      ensures Valid()
      ensures task[..] == if p == 0 then old(task[..]) else old(task[..])[nr := ForkedSlot(old(task[parent]), p)]
    {
      if p == 0 {
        SlotsSameDir(s, mem.State(), task[..], mem.owned);
      } else {
        var slot := ForkedSlot(task[parent], p);
        SlotsAfterFork(s, mem.State(), task[..], was, nr, slot, SlotsOf(slot.limit));
        OwnersAfterFork(task[..], was, lost, nr, slot);
        task[nr] := slot;
        assert task[..] == old(task[..])[nr := slot];
      }
    }

    // ----- loads, stores and their faults -------------------------------------

    /** An access to an absent page: demand-zero, or giving up when the frames do not suffice. */
    method MissingPage(t: nat, page: nat, ghost write: bool) returns (ok: bool, ghost leaked: set<nat>)
      requires Valid() && E.InTask(t, page) && Addressable(task[t], page)
      requires EntryAt(mem.State(), E.Dir(t, page), page % ENTRIES).Absent?
      modifies Parts() - {task}
      ensures Valid() && Seen() == if ok then E.Put(old(Seen()), E.Dir(t, page), page % ENTRIES, Private(ZeroPage()))
                else old(Seen())
      ensures ok ==> Accessible(mem.State(), t, page, true)
      ensures Faulted(old(Now()), Now(), t, page, write, ok, leaked)
    {
      ghost var s := mem.State();
      var d, i := E.Dir(t, page), page % ENTRIES;
      NoneLeft(s);
      ok, leaked := mem.DoNoPage(d, i);
      SlotsOneDir(s, mem.State(), task[..], old(mem.owned), leaked, d);
      OwnersLost(task[..], old(mem.owned), lost, leaked);
      lost := lost + leaked;
      if ok {
        ChangedPage(s, mem.State(), d, i, Private(ZeroPage()));
      } else {
        SameViewIsSame(s, mem.State());
      }
    }

    /** A store to a write-protected page: a private copy, or giving up when it takes a frame and none is left. */
    method ProtectedPage(t: nat, page: nat) returns (ok: bool)
      requires Valid() && E.InTask(t, page) && task[t].Live?
      requires EntryAt(mem.State(), E.Dir(t, page), page % ENTRIES).Entry?
      requires !EntryAt(mem.State(), E.Dir(t, page), page % ENTRIES).writable
      modifies Parts() - {this, task}
      ensures Valid() && Seen() == if ok then E.Touch(old(Seen()), t, page, true) else old(Seen())
      ensures ok ==> Accessible(mem.State(), t, page, true)
      ensures Faulted(old(Now()), Now(), t, page, true, ok, {})
    {
      ghost var s := mem.State();
      var d, i := E.Dir(t, page), page % ENTRIES;
      ok := mem.UnWpPage(d, i);
      if ok {
        ProtectedTouch(s, mem.State(), t, page);
      }
    }

    /** The faults of one access, in the order the processor raises them. */
    method Fault(t: nat, page: nat, write: bool) returns (ok: bool, ghost leaked: set<nat>)
      requires Valid() && E.InTask(t, page) && Addressable(task[t], page)
      modifies Parts() - {task}
      ensures Valid() && Seen() == if ok then E.Touch(old(Seen()), t, page, write) else old(Seen())
      ensures ok ==> Accessible(mem.State(), t, page, write)
      ensures Faulted(old(Now()), Now(), t, page, write, ok, leaked)
    {
      ghost var s := mem.State();
      var d, i := E.Dir(t, page), page % ENTRIES;
      assert E.PageAt(View(s), t, page) == ViewAt(s, d, i);
      var entry := if mem.pgDir[d].NoTable? then Absent else mem.tables[mem.pgDir[d].frame][i];
      assert entry == EntryAt(s, d, i) && SafeEntry(s, EntryAt(s, d, i));
      if E.PageAt(View(s), t, page).Private? {
        E.TouchOwn(View(s), t, page, write);
      }
      leaked := {};
      ok := true;
      if entry.Absent? {
        ok, leaked := MissingPage(t, page, write);
      } else if write && !entry.writable {
        ok := ProtectedPage(t, page);
      } else {
        NothingFaulted(Now(), t, page, write);
      }
    }

    /** An access: a handler that gives up kills the task. */
    method Access(t: nat, page: nat, write: bool) returns (ok: bool)
      requires Valid() && E.InTask(t, page) && Addressable(task[t], page)
      modifies Parts()
      ensures Valid() && Settled(old(Now()), Now(), t, page, write, ok)
      ensures ok ==> Accessible(mem.State(), t, page, write)
      ensures Seen() == if ok then E.Touch(old(Seen()), t, page, write) else E.ClearTask(old(Seen()), t)
    {
      ghost var w := Now();
      ghost var leaked;
      ok, leaked := Fault(t, page, write);
      ghost var m := Now();
      ExitUnless(t, ok);
      AccessSettled(w, m, Now(), t, page, write, ok, leaked);
    }

    method Load(t: nat, page: nat, offset: nat) returns (e: E.Event)
      requires Valid() && E.InTask(t, page) && Addressable(task[t], page) && offset < PAGE_SIZE
      modifies Parts()
      ensures Valid() && E.Legal(old(Seen()), e) && Seen() == E.Apply(old(Seen()), e)
      ensures e == E.Killed(t) || (e.Loaded? && e.task == t && e.page == page && e.offset == offset)
      ensures Settled(old(Now()), Now(), t, page, false, !e.Killed?)
    {
      E.LoadAfterTouch(Seen(), t, page, offset);
      var ok := Access(t, page, false);
      e := E.Killed(t);
      if ok {
        var value := ReadByte(t, page, offset);
        e := E.Loaded(t, page, offset, value);
      }
    }

    /** The load itself, when the page is there. */
    method ReadByte(t: nat, page: nat, offset: nat) returns (value: Byte)
      requires Valid() && E.InTask(t, page) && offset < PAGE_SIZE && Accessible(mem.State(), t, page, false)
      ensures value == E.Bytes(Seen(), E.PageAt(Seen(), t, page))[offset]
    {
      var d, i := E.Dir(t, page), page % ENTRIES;
      ghost var s := mem.State();
      assert EntryAt(s, d, i).Entry? && SafeEntry(s, EntryAt(s, d, i));
      var f := mem.tables[mem.pgDir[d].frame][i].frame;
      assert EntryAt(s, d, i).frame == f;
      assert E.PageAt(View(s), t, page) == ViewAt(s, d, i);
      value := mem.frames[f][offset];
    }

    method Store(t: nat, page: nat, offset: nat, value: Byte) returns (e: E.Event)
      requires Valid() && E.InTask(t, page) && Addressable(task[t], page) && offset < PAGE_SIZE
      modifies Parts()
      ensures Valid() && E.Legal(old(Seen()), e) && Seen() == E.Apply(old(Seen()), e)
      ensures e == E.Killed(t) || e == E.Stored(t, page, offset, value)
      ensures Settled(old(Now()), Now(), t, page, true, !e.Killed?)
    {
      ghost var w, v := Now(), Seen();
      var ok := Access(t, page, true);
      if !ok {
        return E.Killed(t);
      }
      StoreThere(t, page, offset, value, w, v);
      e := E.Stored(t, page, offset, value);
    }

    /** After the faults, which began in the state w. */
    method StoreThere(t: nat, page: nat, offset: nat, value: Byte, ghost w: World, ghost v: E.Eager)
      requires Valid() && E.InTask(t, page) && offset < PAGE_SIZE && Accessible(mem.State(), t, page, true)
      requires E.Shaped(v) && Seen() == E.Touch(v, t, page, true)
      requires Shape(w.mem) && |w.task| == NR_TASKS && w.task[t].Live? && Settled(w, Now(), t, page, true, true)
      modifies mem.frames
      ensures Valid() && Seen() == E.Apply(v, E.Stored(t, page, offset, value))
      ensures Settled(w, Now(), t, page, true, true)
    {
      ghost var m := Now();
      E.StoreAfterTouch(v, t, page, offset, value);
      WriteByte(t, page, offset, value);
      StillSettled(w, m, Now(), t, page);
    }

    /** The store itself, when the page is there and writable. */
    method WriteByte(t: nat, page: nat, offset: nat, value: Byte)
      requires Valid() && E.InTask(t, page) && offset < PAGE_SIZE && Accessible(mem.State(), t, page, true)
      modifies mem.frames
      ensures Valid() && mem.memMap[..] == old(mem.memMap[..]) && mem.pgDir[..] == old(mem.pgDir[..])
      ensures task[..] == old(task[..])
      ensures E.PageAt(old(Seen()), t, page).Private?
      ensures var b := E.PageAt(old(Seen()), t, page).bytes;
              Seen() == E.Put(old(Seen()), E.Dir(t, page), page % ENTRIES, Private(b[offset := value]))
    {
      var d, i := E.Dir(t, page), page % ENTRIES;
      ghost var s := mem.State();
      assert EntryAt(s, d, i).Entry? && SafeEntry(s, EntryAt(s, d, i));
      var f := mem.tables[mem.pgDir[d].frame][i].frame;
      var bytes := mem.frames[f][offset := value];
      assert EntryAt(s, d, i).frame == f;
      assert E.PageAt(View(s), t, page) == ViewAt(s, d, i);
      StoreMappedKeeps(s, mem.owned, d, i, bytes);
      mem.StorePage(f, bytes);
      ChangedPage(s, mem.State(), d, i, Private(bytes));
    }

    /** The kernel or task 0 stores below LOW_MEM. */
    method StoreLow(f: nat, offset: nat, value: Byte)
      requires Valid() && f < LOW_FRAMES && offset < PAGE_SIZE
      modifies mem.frames
      ensures Valid() && task[..] == old(task[..])
      ensures Seen() == E.Apply(old(Seen()), E.LowStored(f, offset, value))
    {
      ghost var s := mem.State();
      var bytes := mem.frames[f][offset := value];
      StoreKeeps(s, mem.owned, f, bytes);
      mem.StorePage(f, bytes);
      ghost var w := E.Apply(View(s), E.LowStored(f, offset, value));
      assert mem.State().data[..LOW_FRAMES] == w.low;
      SameEager(View(mem.State()), w);
    }

    /** One turn of the loop in verify_area, which began in the state s. */
    method VerifyPage(t: nat, first: nat, k: nat, ghost v: E.Eager, ghost s: Mem) returns (ok: bool)
      requires Valid() && 1 <= t < NR_TASKS && task[t].Live?
      requires E.Shaped(v) && Inv(s, mem.owned) && VerifiedUpTo(s, mem.State(), v, first, k)
      modifies Parts() - {this}
      ensures Valid() && task[..] == if ok then old(task[..]) else old(task[..])[t := Zombie(old(task[t].page))]
      ensures ok <==> !PageNeedsCopy(old(mem.State()), E.Wrap(first + k)) || Free(old(mem.memMap[..])) > 0
      ensures ok ==> VerifiedUpTo(s, mem.State(), v, first, k + 1)
      ensures !ok ==> RunsShort(s, first, k) && Seen() == E.ClearTask(E.DetachRange(v, first, k), t)
      ensures ok ==> mem.owned == old(mem.owned)
    {
      ghost var m := mem.State();
      var start := E.Wrap(first + k);
      VisitedIff(first, k);
      TakesCopyNow(s, m, mem.owned, first, k);
      ok := mem.WriteVerify(start / ENTRIES, start % ENTRIES);
      if ok {
        VerifyStep(s, m, mem.State(), mem.owned, v, first, k);
      } else {
        Exit(t);
      }
    }

    method VerifyTurn(t: nat, first: nat, k: nat, ghost w: World, ghost v: E.Eager) returns (ok: bool)
      requires Valid() && 1 <= t < NR_TASKS && Viewable(w) && w.task[t].Live? && E.Shaped(v) && Inv(w.mem, mem.owned)
      requires Verdict(w, Now(), v, t, first, k, true)
      modifies Parts() - {this}
      ensures Valid() && Verdict(w, Now(), v, t, first, if ok then k + 1 else k, ok)
      ensures ok ==> mem.owned == old(mem.owned)
    {
      ok := VerifyPage(t, first, k, v, w.mem);
    }

    /** The loop of verify_area over `size` bytes from the beginning of page `first` on. */
    method VerifyPages(t: nat, first: nat, size: int) returns (ok: bool, k: nat)
      requires Valid() && 1 <= t < NR_TASKS && task[t].Live? && first < E.LINEAR_PAGES
      modifies Parts() - {this}
      ensures Valid() && Verdict(old(Now()), Now(), old(Seen()), t, first, k, ok)
      ensures if ok then k == PagesOf(size) else k < PagesOf(size)
    {
      ghost var w, v, own := Now(), Seen(), mem.owned;
      var left := size;
      k, ok := 0, true;
      NoneVerified(w.mem, v, first);
      PagesLeft(size, 0);
      while left > 0 && ok
        invariant Valid() && Verdict(w, Now(), v, t, first, k, ok) && (ok ==> mem.owned == own)
        invariant if ok then LeftAfter(size, left, k) else k < PagesOf(size)
        decreases left
      {
        LeftStep(size, left, k);
        left := left - 4096;
        ok := VerifyTurn(t, first, k, w, v);
        if ok {
          k := k + 1;
        }
      }
    }

    /** verify_area: afterwards every page of the range is safe to store to from supervisor mode. */
    method VerifyArea(t: nat, addr: nat, size: int) returns (e: E.Event)
      requires Valid() && 1 <= t < NR_TASKS && task[t].Live?
      modifies Parts() - {this}
      ensures Valid() && VerifySettled(old(Now()), Now(), t, addr, size, e)
    {
      var first := LinearPage(t, addr);
      var ok, k := VerifyPages(t, first, size + addr % 4096);
      e := if ok then E.Verified(t, first, k) else E.KilledVerifying(t, first, k);
      VerdictSettles(old(Now()), Now(), t, addr, size, k, ok, e);
    }

    // ----- runs ---------------------------------------------------------------

    /** Loads and stores. */
    method ServeAccess(q: Request) returns (e: E.Event)
      requires Valid() && (q.DoLoad? || q.DoStore?) && Possible(task[..], q)
      modifies Parts()
      ensures Valid() && Justified(old(Now()), Now(), q, e)
    {
      ghost var w := Now();
      if q.DoLoad? {
        e := Load(q.task, q.page, q.offset);
      } else {
        e := Store(q.task, q.page, q.offset, q.value);
      }
      AccessJustified(w, Now(), q, q.task, q.page, q.DoStore?, e);
    }

    method ServeVerify(q: Request) returns (e: E.Event)
      requires Valid() && q.DoVerify? && Possible(task[..], q)
      modifies Parts() - {this}
      ensures Valid() && Justified(old(Now()), Now(), q, e)
    {
      ghost var w := Now();
      e := VerifyArea(q.task, q.addr, q.size);
      VerifyJustified(w, Now(), q, e);
    }

    method ServeExit(q: Request) returns (e: E.Event)
      requires Valid() && q.DoExit? && Possible(task[..], q)
      modifies Parts() - {this}
      ensures Valid() && Justified(old(Now()), Now(), q, e)
    {
      ghost var w := Now();
      Exit(q.task);
      ExitJustified(w, Now(), q.task);
      e := E.Exited(q.task);
    }

    method ServeExec(q: Request) returns (e: E.Event)
      requires Valid() && q.DoExec? && Possible(task[..], q)
      modifies Parts() - {this}
      ensures Valid() && Justified(old(Now()), Now(), q, e)
    {
      ghost var w := Now();
      assert w.task[q.task] == task[q.task];
      Exec(q.task, q.text);
      ExecJustified(w, Now(), q.task, q.text);
      e := E.Execed(q.task);
    }

    method ServeRelease(q: Request) returns (e: E.Event)
      requires Valid() && q.DoRelease? && Possible(task[..], q)
      modifies Parts() - {this}
      ensures Valid() && Justified(old(Now()), Now(), q, e)
    {
      ghost var w := Now();
      Release(q.task);
      ReleaseJustified(w, Now(), q.task);
      e := E.Reaped(q.task);
    }

    method ServeStoreLow(q: Request) returns (e: E.Event)
      requires Valid() && q.DoStoreLow? && Possible(task[..], q)
      modifies Parts() - {this}
      ensures Valid() && Justified(old(Now()), Now(), q, e)
    {
      ghost var w := Now();
      StoreLow(q.frame, q.offset, q.value);
      e := E.LowStored(q.frame, q.offset, q.value);
      StoreLowJustified(w, Now(), q.frame, q.offset, q.value);
    }

    method ServeFork(q: Request) returns (e: E.Event)
      requires Valid() && q.DoFork? && Possible(task[..], q)
      modifies Parts() - {this}
      ensures Valid() && Justified(old(Now()), Now(), q, e)
    {
      ghost var w := Now();
      e := Fork(q.task);
      ForkJustified(w, Now(), q.task, e);
    }

    /** Any one request is one step of the eager machine, and what goes wrong has its cause. */
    method Step(q: Request) returns (e: E.Event)
      requires Valid()
      modifies Parts()
      ensures Valid() && Justified(old(Now()), Now(), q, e)
    {
      if !Possible(task[..], q) {
        return E.Refused;
      }
      match q {
        case DoFork(_) => e := ServeFork(q);
        case DoVerify(_, _, _) => e := ServeVerify(q);
        case DoExit(_) => e := ServeExit(q);
        case DoExec(_, _) => e := ServeExec(q);
        case DoRelease(_) => e := ServeRelease(q);
        case DoStoreLow(_, _, _) => e := ServeStoreLow(q);
        case _ => e := ServeAccess(q);
      }
    }

    /**
      Copy-on-write refines eager copy.  Over every sequence of requests, the
      events that happen are a run of the eager machine, so every load returns
      the byte it would have returned had each fork copied all pages at once.
      `worlds` are the states in between: a fork fails exactly when there is no
      slot or too few frames, a task dies exactly when there are too few frames,
      and a frame is lost only where do_no_page loses it.  All counts are exact
      and below the number of tasks throughout.
     */
    method Run(requests: seq<Request>) returns (events: seq<E.Event>, ghost worlds: seq<World>)
      requires Valid()
      modifies Parts()
      ensures Valid() && |events| == |requests| && |worlds| == |requests| + 1
      ensures worlds[0] == old(Now()) && worlds[|requests|] == Now()
      ensures forall k :: 0 <= k <= |requests| ==> Sound(worlds[k])
      ensures forall k :: 0 <= k < |requests| ==> Follows(worlds, k, requests[k], events[k])
      ensures E.Explains(old(Seen()), events) && Seen() == E.Replay(old(Seen()), events)
      ensures forall f :: High(f) ==> Count(mem.State(), f) < NR_TASKS
    {
      events, worlds := [], [Now()];
      ghost var v := Seen();
      for n := 0 to |requests|
        invariant Valid() && |events| == n && |worlds| == n + 1 && worlds[0] == old(Now()) && worlds[n] == Now()
        invariant forall k :: 0 <= k <= n ==> Sound(worlds[k])
        invariant forall k :: 0 <= k < n ==> Follows(worlds, k, requests[k], events[k])
        invariant E.Explains(v, events) && Seen() == E.Replay(v, events)
      {
        var e := Step(requests[n]);
        E.ReplayAppend(v, events, e);
        RunStep(worlds, Now(), requests, events, n, e);
        events, worlds := events + [e], worlds + [Now()];
      }
      forall f | High(f)
        ensures Count(mem.State(), f) < NR_TASKS
      {
        SoundCounts(Now(), f);
      }
    }
  }
}

/**
  The reference machine for fork: every task has pages of its own, fork copies
  them all at once, and a store changes one page of one task.  There are no
  frames, no counts and no page tables.  The only sharing left is the one the
  design wants: pages below LOW_MEM that task 0 lends to its children until
  they store to them.
 */
module EagerCopy {
  import opened PageModel

  datatype Eager = Eager(pages: seq<seq<PageView>>, low: seq<Page>)

  /** What happened, with the values a task observed. */
  datatype Event =
    | Forked(parent: nat, child: nat, slots: nat)
    | ForkFailed(parent: nat)
    | Loaded(task: nat, page: nat, offset: nat, value: Byte)
    | Stored(task: nat, page: nat, offset: nat, value: Byte)
    | Verified(task: nat, first: nat, pages: nat)
    | KilledVerifying(task: nat, first: nat, pages: nat)
    | Killed(task: nat)
    | Exited(task: nat)
    | Execed(task: nat)
    | Reaped(task: nat)
    | LowStored(frame: nat, offset: nat, value: Byte)
    | Refused

  const LINEAR_PAGES: nat := 0x100000     // DIRS * ENTRIES

  /** Linear addresses are 32-bit numbers: page numbers wrap around. */
  function Wrap(x: int): (r: nat)
    ensures r < LINEAR_PAGES
  {
    x % 0x100000
  }

  predicate ShapedRow(row: seq<PageView>) {
    |row| == ENTRIES && forall i :: 0 <= i < ENTRIES && row[i].Low? ==> row[i].frame < LOW_FRAMES
  }

  predicate Shaped(v: Eager) {
    |v.pages| == DIRS && |v.low| == LOW_FRAMES && forall d :: 0 <= d < DIRS ==> ShapedRow(v.pages[d])
  }

  predicate InTask(t: nat, page: nat) { 1 <= t < NR_TASKS && page < TASK_DIRS * ENTRIES }

  function Dir(t: nat, page: nat): (d: nat)
    requires InTask(t, page)
    ensures UserDir(d) && d / TASK_DIRS == t
  {
    TASK_DIRS * t + page / ENTRIES
  }

  /** The bytes of a page; an unmapped page reads as zeros once it is touched. */
  function Bytes(v: Eager, p: PageView): Page
    requires Shaped(v) && (p.Low? ==> p.frame < LOW_FRAMES)
  {
    match p
    case Unmapped => ZeroPage()
    case Low(f) => v.low[f]
    case Private(b) => b
  }

  function Put(v: Eager, d: nat, i: nat, p: PageView): (r: Eager)
    requires Shaped(v) && d < DIRS && i < ENTRIES && (p.Low? ==> p.frame < LOW_FRAMES)
    ensures Shaped(r)
  {
    assert ShapedRow(v.pages[d]);
    Eager(v.pages[d := v.pages[d][i := p]], v.low)
  }

  /** The page that a task sees at one of its page numbers. */
  function PageAt(v: Eager, t: nat, page: nat): (p: PageView)
    requires Shaped(v) && InTask(t, page)
    ensures p.Low? ==> p.frame < LOW_FRAMES
  {
    assert ShapedRow(v.pages[Dir(t, page)]);
    v.pages[Dir(t, page)][page % ENTRIES]
  }

  /** Once it is accessed, an absent page is there, and a page that is stored to is the task's own. */
  function Touch(v: Eager, t: nat, page: nat, write: bool): (r: Eager)
    requires Shaped(v) && InTask(t, page)
    ensures Shaped(r)
  {
    var p := PageAt(v, t, page);
    if write || p.Unmapped? then Put(v, Dir(t, page), page % ENTRIES, Private(Bytes(v, p))) else v
  }

  /** Task `child` gets a copy of the first n slots of `parent`; of task 0 only the first 640 kB. */
  function CopyTask(v: Eager, parent: nat, child: nat, n: nat): (r: Eager)
    requires Shaped(v) && parent < NR_TASKS && 1 <= child < NR_TASKS && n <= TASK_DIRS
    ensures Shaped(r)
  {
    var rows := seq(DIRS, d requires 0 <= d < DIRS => CopyRow(v, parent, child, n, d));
    assert forall d :: 0 <= d < DIRS ==> rows[d] == CopyRow(v, parent, child, n, d);
    Eager(rows, v.low)
  }

  function CopyRow(v: Eager, parent: nat, child: nat, n: nat, d: nat): (r: seq<PageView>)
    requires Shaped(v) && parent < NR_TASKS && 1 <= child < NR_TASKS && n <= TASK_DIRS && d < DIRS
    ensures ShapedRow(r)
  {
    var k := d - TASK_DIRS * child;
    if 0 <= k < n then
      var row := v.pages[TASK_DIRS * parent + k];
      assert ShapedRow(row);
      seq(ENTRIES, i requires 0 <= i < ENTRIES => if parent == 0 && i >= SHARED_KERNEL_PAGES then Unmapped else row[i])
    else
      assert ShapedRow(v.pages[d]);
      v.pages[d]
  }

  function ClearTask(v: Eager, t: nat): (r: Eager)
    requires Shaped(v) && 1 <= t < NR_TASKS
    ensures Shaped(r)
  {
    var rows := seq(DIRS, d requires 0 <= d < DIRS => ClearRow(v, t, d));
    assert forall d :: 0 <= d < DIRS ==> rows[d] == ClearRow(v, t, d);
    Eager(rows, v.low)
  }

  function ClearRow(v: Eager, t: nat, d: nat): (r: seq<PageView>)
    requires Shaped(v) && 1 <= t < NR_TASKS && d < DIRS
    ensures ShapedRow(r)
  {
    if d / TASK_DIRS == t then seq(ENTRIES, _ => Unmapped)
    else
      assert ShapedRow(v.pages[d]);
      v.pages[d]
  }

  /** Linear page x is one of the n pages from `first` on, counted modulo the address space. */
  predicate Within(x: int, first: nat, n: nat) { Wrap(x - first) < n }

  function OwnCopy(v: Eager, p: PageView): PageView
    requires Shaped(v) && (p.Low? ==> p.frame < LOW_FRAMES)
  {
    if p.Low? then Private(v.low[p.frame]) else p
  }

  /** verify_area turns lent pages in its range into copies and changes nothing else. */
  function DetachRange(v: Eager, first: nat, n: nat): (r: Eager)
    requires Shaped(v)
    ensures Shaped(r)
  {
    var rows := seq(DIRS, d requires 0 <= d < DIRS => DetachRow(v, first, n, d));
    assert forall d :: 0 <= d < DIRS ==> rows[d] == DetachRow(v, first, n, d);
    Eager(rows, v.low)
  }

  function DetachRow(v: Eager, first: nat, n: nat, d: nat): (r: seq<PageView>)
    requires Shaped(v) && d < DIRS
    ensures ShapedRow(r)
  {
    var row := v.pages[d];
    assert ShapedRow(row);
    seq(ENTRIES, i requires 0 <= i < ENTRIES =>
      if UserDir(d) && Within(ENTRIES * d + i, first, n) then OwnCopy(v, row[i]) else row[i])
  }

  /** The event can happen here; for a load, the value is the one the eager machine holds. */
  predicate Legal(v: Eager, e: Event)
    requires Shaped(v)
  {
    match e
    case Forked(p, c, n) => p < NR_TASKS && 1 <= c < NR_TASKS && p != c && n <= TASK_DIRS
    case Loaded(t, g, o, x) =>
      InTask(t, g) && o < PAGE_SIZE && Bytes(v, v.pages[Dir(t, g)][g % ENTRIES])[o] == x
    case Stored(t, g, o, x) => InTask(t, g) && o < PAGE_SIZE
    case LowStored(f, o, x) => f < LOW_FRAMES && o < PAGE_SIZE
    case KilledVerifying(t, _, _) => 1 <= t < NR_TASKS
    case Killed(t) => 1 <= t < NR_TASKS
    case Exited(t) => 1 <= t < NR_TASKS
    case Execed(t) => 1 <= t < NR_TASKS
    case _ => true
  }

  function Apply(v: Eager, e: Event): (r: Eager)
    requires Shaped(v) && Legal(v, e)
    ensures Shaped(r)
  {
    match e
    case Forked(p, c, n) => CopyTask(v, p, c, n)
    case Loaded(t, g, _, _) =>
      var p := v.pages[Dir(t, g)][g % ENTRIES];
      if p.Unmapped? then Put(v, Dir(t, g), g % ENTRIES, Private(ZeroPage())) else v
    case Stored(t, g, o, x) =>
      Put(v, Dir(t, g), g % ENTRIES, Private(Bytes(v, v.pages[Dir(t, g)][g % ENTRIES])[o := x]))
    case Verified(_, a, n) => DetachRange(v, a, n)
    case KilledVerifying(t, a, n) => ClearTask(DetachRange(v, a, n), t)
    case Killed(t) => ClearTask(v, t)
    case Exited(t) => ClearTask(v, t)
    case Execed(t) => ClearTask(v, t)
    case LowStored(f, o, x) => Eager(v.pages, v.low[f := v.low[f][o := x]])
    case _ => v
  }

  // ----- what the events do, page by page ---------------------------------------

  /** Byte k of a page: zero where nothing is mapped, the kernel's byte in a page it lends. */
  function ByteAt(v: Eager, d: nat, i: nat, k: nat): Byte
    requires Shaped(v) && d < 1024 && i < 1024 && k < 4096
  {
    assert ShapedRow(v.pages[d]);
    match v.pages[d][i]
    case Unmapped => 0
    case Low(f) => v.low[f][k]
    case Private(bytes) => bytes[k]
  }

  /** Nothing but page i of slot d differs. */
  predicate OnlyPage(v: Eager, w: Eager, d: nat, i: nat)
    requires Shaped(v) && Shaped(w)
  {
    && w.low == v.low
    && forall e, j :: 0 <= e < 1024 && 0 <= j < 1024 && (e != d || j != i) ==>
         ShapedRow(v.pages[e]) && ShapedRow(w.pages[e]) && w.pages[e][j] == v.pages[e][j]
  }

  /**
    After a fork every page of the child in the slots copied is the parent's, all
    1024 of each; of task 0 the first 160 of one slot.  Nobody else's pages change.
   */
  lemma ForkedPages(v: Eager, p: nat, c: nat, n: nat)
    requires Shaped(v) && Legal(v, Forked(p, c, n))
    ensures var w := Apply(v, Forked(p, c, n));
            && w.low == v.low && (forall d :: 0 <= d < 1024 && !(16 * c <= d < 16 * c + n) ==> w.pages[d] == v.pages[d])
            && (forall d :: 0 <= d < 1024 ==> |v.pages[d]| == |w.pages[d]| == 1024)
            && (p != 0 ==> forall d, i :: 16 * c <= d < 16 * c + n && 0 <= i < 1024 ==>
                  w.pages[d][i] == v.pages[d - 16 * c + 16 * p][i])
            && (p == 0 ==> forall d, i :: 16 * c <= d < 16 * c + n && 0 <= i < 1024 ==>
                  w.pages[d][i] == if i < 160 then v.pages[d - 16 * c][i] else Unmapped)
  {
    var w := Apply(v, Forked(p, c, n));
    forall d | 0 <= d < DIRS
      ensures w.pages[d] == CopyRow(v, p, c, n, d) && ShapedRow(v.pages[d]) && ShapedRow(w.pages[d])
    {
    }
  }

  /** A store changes one byte of one page of one task. */
  lemma StoredByte(v: Eager, t: nat, g: nat, o: nat, x: Byte)
    requires Shaped(v) && Legal(v, Stored(t, g, o, x))
    ensures var w, d, i := Apply(v, Stored(t, g, o, x)), 16 * t + g / 1024, g % 1024;
            && d < 1024 && OnlyPage(v, w, d, i) && ByteAt(w, d, i, o) == x && ShapedRow(w.pages[d])
            && w.pages[d][i].Private?
            && forall k :: 0 <= k < 4096 && k != o ==> ByteAt(w, d, i, k) == ByteAt(v, d, i, k)
  {
    assert ShapedRow(v.pages[Dir(t, g)]) && ShapedRow(Apply(v, Stored(t, g, o, x)).pages[Dir(t, g)]);
  }

  /** A load answers with the byte that is there, and changes no byte. */
  lemma LoadedByte(v: Eager, t: nat, g: nat, o: nat, x: Byte)
    requires Shaped(v) && InTask(t, g) && o < 4096
    ensures var d := 16 * t + g / 1024;
            d < 1024 && (Legal(v, Loaded(t, g, o, x)) <==> x == ByteAt(v, d, g % 1024, o))
    ensures Legal(v, Loaded(t, g, o, x)) ==>
              var w := Apply(v, Loaded(t, g, o, x));
              && w.low == v.low
              && forall d, i, k :: 0 <= d < 1024 && 0 <= i < 1024 && 0 <= k < 4096 ==>
                   ByteAt(w, d, i, k) == ByteAt(v, d, i, k)
  {
    assert ShapedRow(v.pages[Dir(t, g)]);
  }

  /** A task that ends or execs has no page left; all others keep theirs. */
  lemma ClearedPages(v: Eager, e: Event, t: nat)
    requires Shaped(v) && Legal(v, e) && (e == Killed(t) || e == Exited(t) || e == Execed(t))
    ensures var w := Apply(v, e);
            && w.low == v.low && forall d :: 0 <= d < 1024 ==>
                 && |w.pages[d]| == 1024
                 && if 16 * t <= d < 16 * t + 16 then forall i :: 0 <= i < 1024 ==> w.pages[d][i] == Unmapped
                    else w.pages[d] == v.pages[d]
  {
    var w := Apply(v, e);
    forall d | 0 <= d < DIRS
      ensures w.pages[d] == ClearRow(v, t, d) && ShapedRow(w.pages[d])
    {
    }
  }

  /** verify_area changes no byte; lent pages of its range are the task's own afterwards, and only those. */
  lemma VerifiedPages(v: Eager, t: nat, a: nat, n: nat, d: nat, i: nat)
    requires Shaped(v) && Legal(v, Verified(t, a, n)) && d < 1024 && i < 1024
    ensures var w := Apply(v, Verified(t, a, n));
            && w.low == v.low && ShapedRow(w.pages[d]) && ShapedRow(v.pages[d])
            && (forall k :: 0 <= k < 4096 ==> ByteAt(w, d, i, k) == ByteAt(v, d, i, k))
            && (w.pages[d][i] != v.pages[d][i] <==>
                v.pages[d][i].Low? && w.pages[d][i].Private? && 16 <= d && (1024 * d + i - a) % 0x100000 < n)
  {
    assert ShapedRow(v.pages[d]);
    assert Apply(v, Verified(t, a, n)).pages[d] == DetachRow(v, a, n, d);
  }

  /** A task killed in verify_area: the same to the others as if it had only been killed. */
  lemma KilledVerifyingPages(v: Eager, t: nat, a: nat, n: nat, d: nat, i: nat, k: nat)
    requires Shaped(v) && Legal(v, KilledVerifying(t, a, n)) && d < 1024 && i < 1024 && k < 4096
    ensures var w := Apply(v, KilledVerifying(t, a, n));
            && w.low == v.low && ShapedRow(w.pages[d])
            && if 16 * t <= d < 16 * t + 16 then w.pages[d][i] == Unmapped else ByteAt(w, d, i, k) == ByteAt(v, d, i, k)
  {
    var m := DetachRange(v, a, n);
    VerifiedPages(v, t, a, n, d, i);
    ClearedPages(m, Killed(t), t);
  }

  /** Task 0 stores into low memory: whoever has the page on loan sees it. */
  lemma LowStoredByte(v: Eager, f: nat, o: nat, x: Byte)
    requires Shaped(v) && Legal(v, LowStored(f, o, x))
    ensures var w := Apply(v, LowStored(f, o, x));
            && w.pages == v.pages && w.low[f][o] == x
            && forall g, k :: 0 <= g < 512 && 0 <= k < 4096 && (g != f || k != o) ==> w.low[g][k] == v.low[g][k]
  {
  }

  lemma TouchOwn(v: Eager, t: nat, page: nat, write: bool)
    requires Shaped(v) && InTask(t, page) && PageAt(v, t, page).Private?
    ensures Touch(v, t, page, write) == v
  {
    var d, i := Dir(t, page), page % ENTRIES;
    assert ShapedRow(v.pages[d]);
    assert v.pages[d][i := v.pages[d][i]] == v.pages[d];
    assert v.pages[d := v.pages[d]] == v.pages;
  }

  lemma LoadAfterTouch(v: Eager, t: nat, page: nat, o: nat)
    requires Shaped(v) && InTask(t, page) && o < PAGE_SIZE
    ensures var w := Touch(v, t, page, false);
            var e := Loaded(t, page, o, Bytes(w, PageAt(w, t, page))[o]);
            Legal(v, e) && Apply(v, e) == w
  {
  }

  lemma StoreAfterTouch(v: Eager, t: nat, page: nat, o: nat, x: Byte)
    requires Shaped(v) && InTask(t, page) && o < PAGE_SIZE
    ensures var w := Touch(v, t, page, true);
            && PageAt(w, t, page).Private?
            && Apply(v, Stored(t, page, o, x)) ==
               Put(w, Dir(t, page), page % ENTRIES, Private(PageAt(w, t, page).bytes[o := x]))
  {
    var d, i, w := Dir(t, page), page % ENTRIES, Touch(v, t, page, true);
    var b := PageAt(w, t, page).bytes;
    assert ShapedRow(v.pages[d]);
    assert v.pages[d][i := Private(b)][i := Private(b[o := x])] == v.pages[d][i := Private(b[o := x])];
  }

  /** A whole run of the eager machine: is every event legal where it happens, and where does the run end? */
  ghost predicate Explains(v: Eager, es: seq<Event>)
    requires Shaped(v)
    decreases |es|
  {
    es == [] || (Legal(v, es[0]) && Explains(Apply(v, es[0]), es[1..]))
  }

  ghost function Replay(v: Eager, es: seq<Event>): (r: Eager)
    requires Shaped(v) && Explains(v, es)
    ensures Shaped(r)
    decreases |es|
  {
    if es == [] then v else Replay(Apply(v, es[0]), es[1..])
  }

  lemma {:induction false} ReplayAppend(v: Eager, es: seq<Event>, e: Event)
    requires Shaped(v) && Explains(v, es) && Legal(Replay(v, es), e)
    ensures Explains(v, es + [e]) && Replay(v, es + [e]) == Apply(Replay(v, es), e)
    decreases |es|
  {
    if es == [] {
      assert es + [e] == [e];
      assert Explains(Apply(v, e), []);
    } else {
      assert (es + [e])[1..] == es[1..] + [e];
      ReplayAppend(Apply(v, es[0]), es[1..], e);
    }
  }

  /** The events that may change a private page of task t: its own, and being created. */
  predicate Concerns(e: Event, t: nat) {
    match e
    case Forked(_, c, _) => c == t
    case Stored(u, _, _, _) => u == t
    case KilledVerifying(u, _, _) => u == t
    case Killed(u) => u == t
    case Exited(u) => u == t
    case Execed(u) => u == t
    case _ => false
  }

  /** Isolation: whatever the other tasks do, over any run, a task's own pages keep their bytes. */
  lemma {:induction false} Isolation(v: Eager, es: seq<Event>, t: nat, page: nat)
    requires Shaped(v) && Explains(v, es) && InTask(t, page)
    requires forall k :: 0 <= k < |es| ==> !Concerns(es[k], t)
    requires v.pages[Dir(t, page)][page % ENTRIES].Private?
    ensures Replay(v, es).pages[Dir(t, page)][page % ENTRIES] == v.pages[Dir(t, page)][page % ENTRIES]
    decreases |es|
  {
    if es != [] {
      var e := es[0];
      assert !Concerns(e, t);
      var w := Apply(v, e);
      assert w.pages[Dir(t, page)][page % ENTRIES] == v.pages[Dir(t, page)][page % ENTRIES];
      Isolation(w, es[1..], t, page);
    }
  }

  /**
    A child starts with its parent's bytes, and has them whenever it looks, until
    it stores or ends itself: whatever the parent and all others do.
   */
  lemma ChildKeepsCopy(v: Eager, p: nat, c: nat, n: nat, es: seq<Event>, page: nat, bytes: Page)
    requires Shaped(v) && 1 <= p && Legal(v, Forked(p, c, n)) && Explains(Apply(v, Forked(p, c, n)), es)
    requires page < 1024 * n && InTask(p, page) && PageAt(v, p, page) == Private(bytes)
    requires forall k :: 0 <= k < |es| ==> !Concerns(es[k], c)
    ensures InTask(c, page) && PageAt(Replay(Apply(v, Forked(p, c, n)), es), c, page) == Private(bytes)
  {
    ForkedPages(v, p, c, n);
    assert ShapedRow(v.pages[16 * p + page / 1024]);
    Isolation(Apply(v, Forked(p, c, n)), es, c, page);
  }
}

/**
  Physical memory, page directory and page tables of the paging code
  (mm/memory.c), as values.  `Memory` in Paging.dfy holds the same parts as
  arrays that its methods update in place; the lemmas here speak about the
  values that those arrays hold between two updates.

  A frame is a physical page number (address >> 12).  A frame's contents are
  kept in two views, as a page table and as data bytes; `ExactCounts` together
  with `TableFrames` is what makes sure that no frame is ever used as both.
 */
module PageModel {

  const PAGE_SIZE: nat := 4096
  const LOW_FRAMES: nat := 512        // LOW_MEM >> 12
  const FRAMES: nat := 2048           // HIGH_MEMORY >> 12
  const PAGING_PAGES: nat := 1536
  const DIRS: nat := 1024             // page-directory entries
  const ENTRIES: nat := 1024          // entries of one page table
  const TASK_DIRS: nat := 16          // a task's 64 MB of linear addresses
  const NR_TASKS: nat := 64
  const SHARED_KERNEL_PAGES: nat := 160

  newtype Byte = b: int | 0 <= b < 256
  type Page = p: seq<Byte> | |p| == PAGE_SIZE witness seq(PAGE_SIZE, _ => 0)

  datatype Entry = Absent | Entry(frame: nat, writable: bool)
  datatype DirEntry = NoTable | Table(frame: nat)

  datatype Mem = Mem(count: seq<nat>, dir: seq<DirEntry>, table: seq<seq<Entry>>, data: seq<Page>)

  function ZeroPage(): Page { seq(PAGE_SIZE, _ => 0) }

  function EmptyTable(): seq<Entry> { seq(ENTRIES, _ => Absent) }

  predicate High(f: int) { LOW_FRAMES <= f < FRAMES }

  predicate UserDir(d: int) { TASK_DIRS <= d < DIRS }

  predicate Shape(s: Mem) {
    && |s.count| == PAGING_PAGES && |s.dir| == DIRS && |s.table| == FRAMES && |s.data| == FRAMES
    && (forall f :: 0 <= f < FRAMES ==> |s.table[f]| == ENTRIES)
    && (forall d :: 0 <= d < DIRS && s.dir[d].Table? ==> s.dir[d].frame < FRAMES)
  }

  function Count(s: Mem, f: nat): nat
    requires Shape(s) && High(f)
  {
    s.count[f - LOW_FRAMES]
  }

  /** The page-table entry that a walk of the two levels finds. */
  function EntryAt(s: Mem, d: nat, i: nat): Entry
    requires Shape(s) && d < DIRS && i < ENTRIES
  {
    if s.dir[d].NoTable? then Absent else s.table[s.dir[d].frame][i]
  }

  // ----- primitive updates ---------------------------------------------------

  function SetCount(s: Mem, f: nat, c: nat): (r: Mem)
    requires Shape(s) && High(f)
    ensures Shape(r)
  {
    Mem(s.count[f - LOW_FRAMES := c], s.dir, s.table, s.data)
  }

  function SetEntry(s: Mem, d: nat, i: nat, e: Entry): (r: Mem)
    requires Shape(s) && d < DIRS && i < ENTRIES && s.dir[d].Table?
    ensures Shape(r)
  {
    Mem(s.count, s.dir, s.table[s.dir[d].frame := s.table[s.dir[d].frame][i := e]], s.data)
  }

  function SetDir(s: Mem, d: nat, e: DirEntry): (r: Mem)
    requires Shape(s) && d < DIRS && (e.Table? ==> e.frame < FRAMES)
    ensures Shape(r)
  {
    Mem(s.count, s.dir[d := e], s.table, s.data)
  }

  function SetData(s: Mem, f: nat, p: Page): (r: Mem)
    requires Shape(s) && f < FRAMES
    ensures Shape(r)
  {
    Mem(s.count, s.dir, s.table, s.data[f := p])
  }

  /** get_free_page hands out a frame filled with zero words. */
  function ClearFrame(s: Mem, f: nat): (r: Mem)
    requires Shape(s) && f < FRAMES
    ensures Shape(r)
  {
    Mem(s.count, s.dir, s.table[f := EmptyTable()], s.data[f := ZeroPage()])
  }

  // ----- reference counting --------------------------------------------------

  function Hit(e: Entry, f: nat): nat { if e.Entry? && e.frame == f then 1 else 0 }

  /** How many entries of a page table name frame f. */
  ghost function TableRefs(t: seq<Entry>, f: nat): nat {
    if t == [] then 0 else TableRefs(t[..|t| - 1], f) + Hit(t[|t| - 1], f)
  }

  /** How often directory slot d names f: as its page table, or through the table. */
  ghost function DirRefs(s: Mem, d: nat, f: nat): nat
    requires Shape(s) && d < DIRS
  {
    match s.dir[d]
    case NoTable => 0
    case Table(t) => (if t == f then 1 else 0) + TableRefs(s.table[t], f)
  }

  /** References to f from the directory slots lo..hi. */
  ghost function Refs(s: Mem, f: nat, lo: nat, hi: nat): nat
    requires Shape(s) && lo <= hi <= DIRS
  {
    if lo == hi then 0 else Refs(s, f, lo, hi - 1) + DirRefs(s, hi - 1, f)
  }

  function Owned(k: set<nat>, f: int): nat { if f in k then 1 else 0 }

  // ----- the invariant -------------------------------------------------------

  /** mem_map is exact: entries, directory slots and kernel owners, and nothing else. */
  ghost predicate ExactCounts(s: Mem, k: set<nat>)
    requires Shape(s)
  {
    forall f :: High(f) ==> Count(s, f) == Refs(s, f, TASK_DIRS, DIRS) + Owned(k, f)
  }

  ghost predicate TableFrames(s: Mem)
    requires Shape(s)
  {
    forall d :: UserDir(d) && s.dir[d].Table? ==> High(s.dir[d].frame) && Count(s, s.dir[d].frame) == 1
  }

  /** A writable entry is the only reference to its frame; frames shared with the kernel are never writable. */
  ghost predicate SafeEntry(s: Mem, e: Entry)
    requires Shape(s)
  {
    e.Entry? ==> e.frame < FRAMES && (e.writable ==> High(e.frame) && Count(s, e.frame) == 1)
  }

  ghost predicate SafeEntries(s: Mem)
    requires Shape(s)
  {
    forall d, i :: UserDir(d) && 0 <= i < ENTRIES ==> SafeEntry(s, EntryAt(s, d, i))
  }

  ghost predicate KernelOwners(s: Mem, k: set<nat>)
    requires Shape(s)
  {
    forall f :: f in k ==> High(f) && Count(s, f) == 1
  }

  /** boot/head.s maps all of physical memory one to one through two tables in low memory. */
  ghost predicate IdentityMap(s: Mem)
    requires Shape(s)
  {
    && s.dir[0] == Table(1) && s.dir[1] == Table(2)
    && (forall d :: 2 <= d < TASK_DIRS ==> s.dir[d].NoTable?)
    && (forall i :: 0 <= i < ENTRIES ==> s.table[1][i] == Entry(i, true))
    && (forall i :: 0 <= i < ENTRIES ==> s.table[2][i] == Entry(ENTRIES + i, true))
  }

  /** Two entries that name the same counted frame. */
  predicate SameFrame(a: Entry, b: Entry) {
    a.Entry? && b.Entry? && High(a.frame) && a.frame == b.frame
  }

  /** No task maps a counted frame at two places. */
  ghost predicate MappedOnce(s: Mem)
    requires Shape(s)
  {
    forall d, i, e, j | UserDir(d) && UserDir(e) && d / TASK_DIRS == e / TASK_DIRS && 0 <= i < ENTRIES
        && 0 <= j < ENTRIES ::
      SameFrame(EntryAt(s, d, i), EntryAt(s, e, j)) ==> d == e && i == j
  }

  /** What holds between any two kernel steps; k are the frames that kernel code itself owns. */
  ghost predicate Inv(s: Mem, k: set<nat>) {
    && Shape(s) && ExactCounts(s, k) && TableFrames(s) && SafeEntries(s)
    && KernelOwners(s, k) && IdentityMap(s) && MappedOnce(s)
  }

  // ----- what a task sees ----------------------------------------------------

  /** A page as its owner sees it: unmapped, shared with the kernel, or bytes of its own. */
  datatype PageView = Unmapped | Low(frame: nat) | Private(bytes: Page)

  function ViewEntry(s: Mem, e: Entry): PageView
    requires Shape(s) && (e.Entry? ==> e.frame < FRAMES)
  {
    match e
    case Absent => Unmapped
    case Entry(f, _) => if f < LOW_FRAMES then Low(f) else Private(s.data[f])
  }

  function ViewAt(s: Mem, d: nat, i: nat): PageView
    requires Shape(s) && SafeEntries(s) && d < DIRS && i < ENTRIES
  {
    if UserDir(d) then ViewEntry(s, EntryAt(s, d, i))
    else if d == 0 && i < SHARED_KERNEL_PAGES then Low(i)
    else Unmapped
  }

  /** Every page except (d, i) looks the same before and after. */
  ghost predicate SameViewExcept(s: Mem, r: Mem, d: nat, i: nat)
    requires Shape(s) && SafeEntries(s) && Shape(r) && SafeEntries(r)
  {
    && r.data[..LOW_FRAMES] == s.data[..LOW_FRAMES]
    && forall e, j :: 0 <= e < DIRS && 0 <= j < ENTRIES && (e != d || j != i) ==> ViewAt(r, e, j) == ViewAt(s, e, j)
  }

  ghost predicate SameView(s: Mem, r: Mem)
    requires Shape(s) && SafeEntries(s) && Shape(r) && SafeEntries(r)
  {
    && r.data[..LOW_FRAMES] == s.data[..LOW_FRAMES]
    && forall e, j :: 0 <= e < DIRS && 0 <= j < ENTRIES ==> ViewAt(r, e, j) == ViewAt(s, e, j)
  }
}

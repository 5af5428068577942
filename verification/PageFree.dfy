/** How many frames are free, and what each step of the paging code takes: why an allocation can fail. */
module PageFree {
  import opened PageModel
  import opened PageCounting
  import opened PageSteps

  /** The free entries of mem_map, as calc_mem counts them. */
  function Free(count: seq<nat>): nat {
    if count == [] then 0 else Free(count[..|count| - 1]) + if count[|count| - 1] == 0 then 1 else 0
  }

  lemma {:induction false} FreeUpdate(count: seq<nat>, j: nat, c: nat)
    requires j < |count|
    ensures Free(count[j := c]) + (if count[j] == 0 then 1 else 0) == Free(count) + (if c == 0 then 1 else 0)
  {
    var n := |count| - 1;
    var r := count[j := c];
    if j == n {
      assert r[..n] == count[..n];
    } else {
      assert r[..n] == count[..n][j := c];
      FreeUpdate(count[..n], j, c);
    }
  }

  lemma {:induction false} FreeIsZeroIff(count: seq<nat>)
    ensures Free(count) == 0 <==> forall j :: 0 <= j < |count| ==> count[j] > 0
  {
    if count != [] {
      var n := |count| - 1;
      FreeIsZeroIff(count[..n]);
      assert forall j :: 0 <= j < n ==> count[j] == count[..n][j];
    }
  }

  lemma {:induction false} FreeAtMost(count: seq<nat>)
    ensures Free(count) <= |count|
  {
    if count != [] {
      FreeAtMost(count[..|count| - 1]);
    }
  }

  lemma {:induction false} FreeAll(count: seq<nat>)
    requires forall j :: 0 <= j < |count| ==> count[j] == 0
    ensures Free(count) == |count|
  {
    if count != [] {
      FreeAll(count[..|count| - 1]);
    }
  }

  lemma AllocTakesOne(s: Mem, f: nat)
    requires Shape(s) && High(f) && Count(s, f) == 0
    ensures Free(Alloc(s, f).count) == Free(s.count) - 1
  {
    FreeUpdate(s.count, f - LOW_FRAMES, 1);
  }

  /** How many of the n directory slots from lo on have a page table: what copy_page_tables allocates. */
  function TablesIn(dir: seq<DirEntry>, lo: nat, n: nat): nat
    requires lo + n <= |dir|
  {
    if n == 0 then 0 else TablesIn(dir, lo, n - 1) + if dir[lo + n - 1].Table? then 1 else 0
  }

  lemma {:induction false} SameTablesIn(dir: seq<DirEntry>, other: seq<DirEntry>, lo: nat, n: nat)
    requires lo + n <= |dir| == |other| && forall d :: lo <= d < lo + n ==> other[d] == dir[d]
    ensures TablesIn(other, lo, n) == TablesIn(dir, lo, n)
  {
    if n > 0 {
      SameTablesIn(dir, other, lo, n - 1);
    }
  }

  lemma {:induction false} TablesGrow(dir: seq<DirEntry>, lo: nat, k: nat, n: nat)
    requires k <= n && lo + n <= |dir|
    ensures TablesIn(dir, lo, k) <= TablesIn(dir, lo, n)
  {
    if k < n {
      TablesGrow(dir, lo, k, n - 1);
    }
  }

  lemma {:induction false} TablesAtMost(dir: seq<DirEntry>, lo: nat, n: nat)
    requires lo + n <= |dir|
    ensures TablesIn(dir, lo, n) <= n
  {
    if n > 0 {
      TablesAtMost(dir, lo, n - 1);
    }
  }

  lemma TablesNext(dir: seq<DirEntry>, lo: nat, k: nat, n: nat)
    requires k < n && lo + n <= |dir|
    ensures TablesIn(dir, lo, k + 1) == TablesIn(dir, lo, k) + if dir[lo + k].Table? then 1 else 0
    ensures TablesIn(dir, lo, k + 1) <= TablesIn(dir, lo, n)
  {
    TablesGrow(dir, lo, k + 1, n);
  }

  /** un_wp_page has to copy: somebody else, or the kernel, may see the frame. */
  predicate Copies(s: Mem, e: Entry)
    requires Shape(s)
  {
    e.Entry? && (High(e.frame) ==> Count(s, e.frame) != 1)
  }

  /** Frame f is the one that is copied for this entry. */
  predicate CopiesFrame(s: Mem, d: nat, i: nat, f: nat)
    requires Shape(s) && d < DIRS && i < ENTRIES
  {
    Copies(s, EntryAt(s, d, i)) && EntryAt(s, d, i).frame == f
  }

  /** write_verify has to copy. */
  predicate NeedsCopy(s: Mem, d: nat, i: nat)
    requires Shape(s) && d < DIRS && i < ENTRIES
  {
    Copies(s, EntryAt(s, d, i)) && !EntryAt(s, d, i).writable
  }

  /** The tables that mapping a page through this slot allocates. */
  function NewTables(e: DirEntry): nat { if e.NoTable? then 1 else 0 }

  /** The frames that one access to a page takes. */
  function Cost(s: Mem, d: nat, i: nat, write: bool): nat
    requires Shape(s) && d < DIRS && i < ENTRIES
  {
    if EntryAt(s, d, i).Absent? then 1 + NewTables(s.dir[d]) else if write && NeedsCopy(s, d, i) then 1 else 0
  }

  /** do_no_page loses a frame here: it takes the last one and then needs a table. */
  predicate LosesFrame(s: Mem, d: nat)
    requires Shape(s) && d < DIRS
  {
    s.dir[d].NoTable? && Free(s.count) == 1
  }

  lemma CopyTakesOne(s: Mem, k: set<nat>, d: nat, i: nat, n: nat)
    requires Inv(s, k) && UserDir(d) && i < ENTRIES && Copies(s, EntryAt(s, d, i)) && High(n) && Count(s, n) == 0
    requires EntryAt(Alloc(s, n), d, i) == EntryAt(s, d, i) && EntryAt(s, d, i).frame < FRAMES
    requires EntryAt(s, d, i).frame != n
    requires High(EntryAt(s, d, i).frame) ==> Count(Alloc(s, n), EntryAt(s, d, i).frame) >= 1
    ensures Free(Unshare(Alloc(s, n), d, i, n).count) == Free(s.count) - 1
  {
    AllocTakesOne(s, n);
    var f, a := EntryAt(s, d, i).frame, Alloc(s, n);
    if High(f) {
      PresentEntry(s, k, d, i);
      FreeUpdate(a.count, f - LOW_FRAMES, Count(a, f) - 1);
    }
  }

  /** Replacing one entry by a private copy lowers the count of its frame and of no other frame in use. */
  lemma CopyCounts(s: Mem, d: nat, i: nat, n: nat, f: nat)
    requires Shape(s) && d < DIRS && i < ENTRIES && EntryAt(s, d, i).Entry? && High(n) && Count(s, n) == 0
    requires EntryAt(Alloc(s, n), d, i) == EntryAt(s, d, i) && EntryAt(s, d, i).frame < FRAMES
    requires EntryAt(s, d, i).frame != n
    requires High(EntryAt(s, d, i).frame) ==> Count(Alloc(s, n), EntryAt(s, d, i).frame) >= 1
    requires High(f) && Count(s, f) > 0
    ensures Count(Unshare(Alloc(s, n), d, i, n), f) == Count(s, f) - if EntryAt(s, d, i).frame == f then 1 else 0
  {
  }
}

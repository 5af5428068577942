/** mm/memory.c: the frame allocator, page tables and fault handlers, updating arrays in place. */
module Paging {
  import opened PageModel
  import opened PageCounting
  import opened PageSteps
  import opened PageFree

  /** Directory slots outside lo..hi are untouched, and so are the pages seen through them. */
  ghost predicate SameOutside(s: Mem, r: Mem, lo: nat, hi: nat)
    requires Shape(s) && SafeEntries(s) && Shape(r) && SafeEntries(r)
  {
    && r.data[..LOW_FRAMES] == s.data[..LOW_FRAMES]
    && (forall d :: 0 <= d < DIRS && !(lo <= d < hi) ==> r.dir[d] == s.dir[d])
    && (forall d, i :: 0 <= d < DIRS && !(lo <= d < hi) && 0 <= i < ENTRIES ==>
         SameNames(EntryAt(s, d, i), EntryAt(r, d, i)))
    && (forall d, i :: 0 <= d < DIRS && !(lo <= d < hi) && 0 <= i < ENTRIES ==> ViewAt(r, d, i) == ViewAt(s, d, i))
  }

  /** Two entries that differ at most in the writable bit. */
  predicate SameNames(a: Entry, b: Entry) {
    a.Entry? == b.Entry? && (a.Entry? ==> a.frame == b.frame)
  }

  /** Whatever counted frame the child maps so far, its parent maps at the same place. */
  ghost predicate Mirrors(s: Mem, from: nat, to: nat)
    requires Shape(s) && from + TASK_DIRS <= DIRS && to + TASK_DIRS <= DIRS
  {
    forall k, i :: 0 <= k < TASK_DIRS && 0 <= i < ENTRIES ==> MirrorsAt(s, from, to, k, i)
  }

  ghost predicate MirrorsAt(s: Mem, from: nat, to: nat, k: nat, i: nat)
    requires Shape(s) && from + TASK_DIRS <= DIRS && to + TASK_DIRS <= DIRS && k < TASK_DIRS && i < ENTRIES
  {
    EntryAt(s, to + k, i).Entry? && High(EntryAt(s, to + k, i).frame) ==>
      UserDir(from + k) && SameFrame(EntryAt(s, to + k, i), EntryAt(s, from + k, i))
  }

  /** from and to are the first slots of two tasks, to an ordinary one. */
  predicate TwoTasks(from: nat, to: nat) {
    from % TASK_DIRS == 0 && to % TASK_DIRS == 0 && from != to && from + TASK_DIRS <= DIRS && TASK_DIRS <= to
        && to + TASK_DIRS <= DIRS
  }

  /** Slot number k of the two tasks: which of the parent's pages fork copies. */
  predicate Copied(from: nat, i: nat) { from != 0 || i < SHARED_KERNEL_PAGES }

  /** Only the entry (d, i) changed, apart from writable bits elsewhere. */
  ghost predicate OnlyEntryChanged(s: Mem, r: Mem, d: nat, i: nat)
    requires Shape(s) && SafeEntries(s) && Shape(r) && SafeEntries(r)
  {
    && r.dir == s.dir && SameViewExcept(s, r, d, i)
    && forall x, y :: 0 <= x < DIRS && 0 <= y < ENTRIES && (x != d || y != i) ==>
         SameNames(EntryAt(s, x, y), EntryAt(r, x, y))
  }

  lemma SlotsOfOneTask(base: nat, k: nat)
    requires base % TASK_DIRS == 0 && k < TASK_DIRS
    ensures (base + k) / TASK_DIRS == base / TASK_DIRS
    ensures forall x :: 0 <= x && x / TASK_DIRS == (base + k) / TASK_DIRS ==> base <= x < base + TASK_DIRS
  {
  }

  /** A frame that the parent maps at (k, i) and the child not yet, the child maps nowhere. */
  lemma NotYetShared(s: Mem, own: set<nat>, from: nat, to: nat, k: nat, i: nat)
    requires Inv(s, own) && TwoTasks(from, to) && Mirrors(s, from, to) && k < TASK_DIRS && i < ENTRIES
    requires UserDir(from + k)
    requires EntryAt(s, from + k, i).Entry? && High(EntryAt(s, from + k, i).frame) && EntryAt(s, to + k, i).Absent?
    ensures forall x, y :: UserDir(x) && x / TASK_DIRS == (to + k) / TASK_DIRS && 0 <= y < ENTRIES ==>
              Hit(EntryAt(s, x, y), EntryAt(s, from + k, i).frame) == 0
  {
    var f := EntryAt(s, from + k, i).frame;
    SlotsOfOneTask(from, k);
    SlotsOfOneTask(to, k);
    forall x, y | UserDir(x) && x / TASK_DIRS == (to + k) / TASK_DIRS && 0 <= y < ENTRIES
      ensures Hit(EntryAt(s, x, y), f) == 0
    {
      var j := x - to;
      SlotsOfOneTask(from, j);
      assert MirrorsAt(s, from, to, j, y);
      assert SameFrame(EntryAt(s, from + j, y), EntryAt(s, from + k, i)) ==> j == k && y == i;
    }
  }

  /** The effect of one turn of the inner loop of copy_page_tables on a present entry. */
  function ShareOnce(s: Mem, d: nat, e: nat, i: nat): (r: Mem)
    requires Shape(s) && d < DIRS && e < DIRS && i < ENTRIES && EntryAt(s, d, i).Entry? && s.dir[e].Table?
    requires EntryAt(s, d, i).frame < FRAMES
    ensures Shape(r)
  {
    var f := EntryAt(s, d, i).frame;
    Share(if High(f) then SetEntry(s, d, i, Entry(f, false)) else s, e, i, f)
  }

  /** Which entries one turn touches: the child's gets the frame, the parent's loses its writable bit. */
  lemma ShareOnceEffect(s: Mem, own: set<nat>, from: nat, to: nat, k: nat, i: nat)
    requires Inv(s, own) && TwoTasks(from, to) && k < TASK_DIRS && i < ENTRIES && (from == 0 ==> k == 0)
    requires Copied(from, i)
    requires EntryAt(s, from + k, i).Entry? && s.dir[to + k].Table? && EntryAt(s, to + k, i).Absent?
    ensures EntryAt(s, from + k, i).frame < FRAMES && s.dir[from + k].frame != s.dir[to + k].frame
    ensures var r := ShareOnce(s, from + k, to + k, i);
            && r.dir == s.dir && r.data == s.data && SameNames(EntryAt(s, from + k, i), EntryAt(r, to + k, i))
            && forall x, y :: 0 <= x < DIRS && 0 <= y < ENTRIES && (x != to + k || y != i) ==>
                 SameNames(EntryAt(s, x, y), EntryAt(r, x, y))
  {
    var d, e := from + k, to + k;
    var f := EntryAt(s, d, i).frame;
    if from != 0 {
      assert SafeEntry(s, EntryAt(s, d, i));
      TablesDistinct(s, own);
    }
    if High(f) {
      SetWritableKeeps(s, own, d, i, false);
      SetEntryEffect(s, own, d, i, Entry(f, false));
    }
    var p := if High(f) then SetEntry(s, d, i, Entry(f, false)) else s;
    SetEntryEffect(p, own, e, i, Entry(f, false));
    var q := SetEntry(p, e, i, Entry(f, false));
    var r := ShareOnce(s, d, e, i);
    assert forall x, y :: 0 <= x < DIRS && 0 <= y < ENTRIES ==> EntryAt(r, x, y) == EntryAt(q, x, y);
  }

  lemma ShareOnceMirrors(s: Mem, r: Mem, from: nat, to: nat, k: nat, i: nat)
    requires Shape(s) && Shape(r) && TwoTasks(from, to) && k < TASK_DIRS && i < ENTRIES && Mirrors(s, from, to)
    requires forall x, y :: 0 <= x < DIRS && 0 <= y < ENTRIES && (x != to + k || y != i) ==>
              SameNames(EntryAt(s, x, y), EntryAt(r, x, y))
    requires SameNames(EntryAt(s, from + k, i), EntryAt(r, to + k, i))
    requires EntryAt(s, from + k, i).Entry? && High(EntryAt(s, from + k, i).frame) ==> UserDir(from + k)
    ensures Mirrors(r, from, to)
  {
    forall j, y | 0 <= j < TASK_DIRS && 0 <= y < ENTRIES
      ensures MirrorsAt(r, from, to, j, y)
    {
      assert MirrorsAt(s, from, to, j, y);
      assert SameNames(EntryAt(s, from + j, y), EntryAt(r, from + j, y));
      assert j != k || y != i ==> SameNames(EntryAt(s, to + j, y), EntryAt(r, to + j, y));
    }
  }

  lemma ShareOnceKeeps(s: Mem, own: set<nat>, from: nat, to: nat, k: nat, i: nat)
    requires Inv(s, own) && TwoTasks(from, to) && k < TASK_DIRS && i < ENTRIES && (from == 0 ==> k == 0)
    requires Copied(from, i)
    requires EntryAt(s, from + k, i).Entry? && s.dir[to + k].Table? && EntryAt(s, to + k, i).Absent?
    requires Mirrors(s, from, to)
    ensures EntryAt(s, from + k, i).frame < FRAMES
    ensures var r := ShareOnce(s, from + k, to + k, i);
            && Inv(r, own) && SameViewExcept(s, r, to + k, i) && ViewAt(r, to + k, i) == ViewAt(s, from + k, i)
  {
    var d, e := from + k, to + k;
    var f := EntryAt(s, d, i).frame;
    if from == 0 {
      assert f == i;
      ShareKeeps(s, own, d, e, i, f);
    } else {
      assert SafeEntry(s, EntryAt(s, d, i));
      if High(f) {
        var p := SetEntry(s, d, i, Entry(f, false));
        NotYetShared(s, own, from, to, k, i);
        SetWritableKeeps(s, own, d, i, false);
        SetEntryEffect(s, own, d, i, Entry(f, false));
        ShareKeeps(p, own, d, e, i, f);
      } else {
        ShareKeeps(s, own, d, e, i, f);
      }
    }
  }

  /** The code stores the child's entry first; the order of the stores does not matter. */
  lemma ShareOnceStores(s: Mem, d: nat, e: nat, i: nat)
    requires Shape(s) && d < DIRS && e < DIRS && i < ENTRIES && EntryAt(s, d, i).Entry? && s.dir[e].Table?
    requires EntryAt(s, d, i).frame < FRAMES && s.dir[d].frame != s.dir[e].frame
    ensures var f := EntryAt(s, d, i).frame;
            var m := SetEntry(s, e, i, Entry(f, false));
            ShareOnce(s, d, e, i) == if High(f) then SetCount(SetEntry(m, d, i, Entry(f, false)), f, Count(s, f) + 1)
                else m
  {
    var f := EntryAt(s, d, i).frame;
    if High(f) {
      var m := SetEntry(SetEntry(s, e, i, Entry(f, false)), d, i, Entry(f, false));
      assert ShareOnce(s, d, e, i).table == m.table;
    }
  }

  /** Sharing a frame takes none. */
  lemma ShareOnceTakesNone(s: Mem, own: set<nat>, from: nat, to: nat, k: nat, i: nat)
    requires Inv(s, own) && TwoTasks(from, to) && k < TASK_DIRS && i < ENTRIES && (from == 0 ==> k == 0)
    requires Copied(from, i)
    requires EntryAt(s, from + k, i).Entry? && s.dir[to + k].Table? && EntryAt(s, from + k, i).frame < FRAMES
    ensures Free(ShareOnce(s, from + k, to + k, i).count) == Free(s.count)
  {
    var f := EntryAt(s, from + k, i).frame;
    if High(f) {
      assert UserDir(from + k);
      PresentEntry(s, own, from + k, i);
      FreeUpdate(s.count, f - LOW_FRAMES, Count(s, f) + 1);
    }
  }

  lemma ShareOnceAll(s: Mem, own: set<nat>, from: nat, to: nat, k: nat, i: nat)
    requires Inv(s, own) && TwoTasks(from, to) && k < TASK_DIRS && i < ENTRIES && (from == 0 ==> k == 0)
    requires Copied(from, i)
    requires EntryAt(s, from + k, i).Entry? && s.dir[to + k].Table? && EntryAt(s, to + k, i).Absent?
    requires Mirrors(s, from, to)
    ensures EntryAt(s, from + k, i).frame < FRAMES && s.dir[from + k].frame != s.dir[to + k].frame
    ensures var r := ShareOnce(s, from + k, to + k, i);
            && Inv(r, own) && Mirrors(r, from, to) && r.data == s.data && Free(r.count) == Free(s.count)
            && OnlyEntryChanged(s, r, to + k, i) && ViewAt(r, to + k, i) == ViewAt(s, from + k, i)
  {
    ShareOnceEffect(s, own, from, to, k, i);
    ShareOnceKeeps(s, own, from, to, k, i);
    ShareOnceTakesNone(s, own, from, to, k, i);
    assert High(EntryAt(s, from + k, i).frame) ==> UserDir(from + k);
    ShareOnceMirrors(s, ShareOnce(s, from + k, to + k, i), from, to, k, i);
  }

  ghost predicate CopiedSlot(s: Mem, r: Mem, from: nat, to: nat, k: nat)
    requires Shape(s) && SafeEntries(s) && Shape(r) && SafeEntries(r)
    requires from + TASK_DIRS <= DIRS && to + TASK_DIRS <= DIRS && k < TASK_DIRS
  {
    forall i :: 0 <= i < ENTRIES ==> ViewAt(r, to + k, i) == CopyView(s, from, k, i)
  }

  ghost predicate NoneFree(s: Mem)
    requires Shape(s)
  {
    forall g :: High(g) ==> Count(s, g) > 0
  }

  /** The highest free frame below LOW_FRAMES + n, or 0. */
  function TopFree(count: seq<nat>, n: nat): (f: nat)
    requires n <= |count|
    ensures f != 0 ==> LOW_FRAMES <= f < LOW_FRAMES + n
  {
    if n == 0 then 0 else if count[n - 1] == 0 then LOW_FRAMES + n - 1 else TopFree(count, n - 1)
  }

  lemma {:induction false} TopFreeMeaning(count: seq<nat>, n: nat)
    requires n <= |count|
    ensures TopFree(count, n) != 0 ==> count[TopFree(count, n) - LOW_FRAMES] == 0
    ensures forall j :: TopFree(count, n) - LOW_FRAMES < j < n && 0 <= j ==> count[j] > 0
  {
    if n > 0 && count[n - 1] != 0 {
      TopFreeMeaning(count, n - 1);
    }
  }

  /** Exactly one frame is free. */
  predicate OneFree(s: Mem)
    requires Shape(s)
  {
    var f := TopFree(s.count, PAGING_PAGES);
    f != 0 && TopFree(s.count, f - LOW_FRAMES) == 0
  }

  ghost predicate AbsentFrom(s: Mem, d: nat, i: nat)
    requires Shape(s) && d < DIRS
  {
    forall j :: i <= j < ENTRIES ==> EntryAt(s, d, j).Absent?
  }

  /** What the child sees at (k, i) after a complete copy of the parent's slot k. */
  function CopyView(s: Mem, from: nat, k: nat, i: nat): PageView
    requires Shape(s) && SafeEntries(s) && from + TASK_DIRS <= DIRS && k < TASK_DIRS && i < ENTRIES
  {
    if Copied(from, i) then ViewAt(s, from + k, i) else Unmapped
  }

  lemma CopyBegins(s: Mem, from: nat, to: nat)
    requires Shape(s) && SafeEntries(s) && TwoTasks(from, to)
    requires forall d :: to <= d < to + TASK_DIRS ==> s.dir[d].NoTable?
    ensures Mirrors(s, from, to) && SameOutside(s, s, to, to)
  {
  }

  lemma OutsideMore(s: Mem, r: Mem, lo: nat, k: nat, n: nat)
    requires Shape(s) && SafeEntries(s) && Shape(r) && SafeEntries(r) && SameOutside(s, r, lo, lo + k) && k <= n
    ensures SameOutside(s, r, lo, lo + n)
  {
  }

  lemma WidenOutside(s: Mem, m: Mem, r: Mem, to: nat, k: nat)
    requires Shape(s) && SafeEntries(s) && Shape(m) && SafeEntries(m) && Shape(r) && SafeEntries(r)
    requires SameOutside(s, m, to, to + k) && SameOutside(m, r, to + k, to + k + 1)
    ensures SameOutside(s, r, to, to + k + 1)
  {
    forall d, i | 0 <= d < DIRS && !(to <= d < to + k + 1) && 0 <= i < ENTRIES
      ensures SameNames(EntryAt(s, d, i), EntryAt(r, d, i)) && ViewAt(r, d, i) == ViewAt(s, d, i)
    {
      assert SameNames(EntryAt(s, d, i), EntryAt(m, d, i)) && SameNames(EntryAt(m, d, i), EntryAt(r, d, i));
      assert ViewAt(m, d, i) == ViewAt(s, d, i) && ViewAt(r, d, i) == ViewAt(m, d, i);
    }
  }

  /** Slots copied so far stay copied while the next one is. */
  lemma CopyStep(s: Mem, m: Mem, r: Mem, from: nat, to: nat, k: nat)
    requires Shape(s) && SafeEntries(s) && Shape(m) && SafeEntries(m) && Shape(r) && SafeEntries(r)
    requires TwoTasks(from, to) && k < TASK_DIRS
    requires SameOutside(s, m, to, to + k) && SameOutside(m, r, to + k, to + k + 1)
    requires forall j :: 0 <= j < k ==> CopiedSlot(s, m, from, to, j)
    requires CopiedSlot(m, r, from, to, k)
    ensures forall j :: 0 <= j < k + 1 ==> CopiedSlot(s, r, from, to, j)
  {
    forall j | 0 <= j < k + 1
      ensures CopiedSlot(s, r, from, to, j)
    {
      forall i | 0 <= i < ENTRIES
        ensures ViewAt(r, to + j, i) == CopyView(s, from, j, i)
      {
        assert CopyView(m, from, k, i) == CopyView(s, from, k, i);
        if j < k {
          assert CopiedSlot(s, m, from, to, j);
          assert ViewAt(m, to + j, i) == CopyView(s, from, j, i);
        }
      }
    }
  }

  /** A page of a slot that has been copied is the parent's; task 0 lends its first 160. */
  lemma CopiedPage(s: Mem, r: Mem, from: nat, to: nat, k: nat, i: nat)
    requires Shape(s) && SafeEntries(s) && Shape(r) && SafeEntries(r) && TwoTasks(from, to) && k < TASK_DIRS
    requires CopiedSlot(s, r, from, to, k) && i < 1024
    ensures from != 0 ==> ViewAt(r, to + k, i) == ViewAt(s, from + k, i)
    ensures from == 0 && k == 0 ==> ViewAt(r, to, i) == if i < 160 then Low(i) else Unmapped
  {
    assert ViewAt(r, to + k, i) == CopyView(s, from, k, i);
  }

  lemma CopiedPages(s: Mem, r: Mem, from: nat, to: nat, k: nat)
    requires Shape(s) && SafeEntries(s) && Shape(r) && SafeEntries(r) && TwoTasks(from, to) && k < TASK_DIRS
    requires CopiedSlot(s, r, from, to, k)
    ensures from != 0 ==> forall d, i :: d == to + k && 0 <= i < 1024 ==> ViewAt(r, d, i) == ViewAt(s, from + k, i)
    ensures from == 0 && k == 0 ==>
              forall i :: 0 <= i < 1024 ==> ViewAt(r, to, i) == if i < 160 then Low(i) else Unmapped
  {
    forall d, i | d == to + k && 0 <= i < 1024
      ensures from != 0 ==> ViewAt(r, d, i) == ViewAt(s, from + k, i)
      ensures from == 0 && k == 0 ==> ViewAt(r, to, i) == if i < 160 then Low(i) else Unmapped
    {
      CopiedPage(s, r, from, to, k, i);
    }
  }

  lemma CopiedSlots(s: Mem, r: Mem, from: nat, to: nat, n: nat)
    requires Shape(s) && SafeEntries(s) && Shape(r) && SafeEntries(r) && TwoTasks(from, to) && n <= TASK_DIRS
    requires forall k :: 0 <= k < n ==> CopiedSlot(s, r, from, to, k)
    ensures from != 0 ==> forall d, i :: to <= d < to + n && 0 <= i < 1024 ==>
              ViewAt(r, d, i) == ViewAt(s, d - to + from, i)
    ensures from == 0 && n >= 1 ==>
              forall i :: 0 <= i < 1024 ==> ViewAt(r, to, i) == if i < 160 then Low(i) else Unmapped
  {
    forall d, i | to <= d < to + n && 0 <= i < 1024
      ensures from != 0 ==> ViewAt(r, d, i) == ViewAt(s, d - to + from, i)
    {
      CopiedPage(s, r, from, to, d - to, i);
    }
    if n >= 1 {
      CopiedPages(s, r, from, to, 0);
    }
  }

  lemma NoneFreeIffZero(s: Mem)
    requires Shape(s)
    ensures NoneFree(s) <==> Free(s.count) == 0
  {
    FreeIsZeroIff(s.count);
    if NoneFree(s) {
      forall j | 0 <= j < PAGING_PAGES
        ensures s.count[j] > 0
      {
        assert Count(s, j + LOW_FRAMES) > 0;
      }
    }
  }

  lemma NoneFreeIffNoTop(s: Mem)
    requires Shape(s)
    ensures NoneFree(s) <==> TopFree(s.count, PAGING_PAGES) == 0
  {
    TopFreeMeaning(s.count, PAGING_PAGES);
    var f := TopFree(s.count, PAGING_PAGES);
    if f == 0 {
      assert forall g :: High(g) ==> Count(s, g) == s.count[g - LOW_FRAMES];
    } else {
      assert Count(s, f) == 0;
    }
  }

  lemma OneFreeIff(s: Mem, f: nat)
    requires Shape(s) && f == TopFree(s.count, PAGING_PAGES) != 0
    ensures High(f) && Count(s, f) == 0 && (OneFree(s) <==> NoneFree(Alloc(s, f)))
  {
    TopFreeMeaning(s.count, PAGING_PAGES);
    assert Count(s, f) == 0;
    TopFreeMeaning(s.count, f - LOW_FRAMES);
    var m := Alloc(s, f);
    assert forall g :: High(g) ==> Count(m, g) == if g == f then 1 else s.count[g - LOW_FRAMES];
    var h := TopFree(s.count, f - LOW_FRAMES);
    assert h != 0 ==> High(h) && Count(m, h) == 0;
  }

  lemma NoneLeft(s: Mem)
    requires Shape(s)
    ensures NoneFree(s) <==> TopFree(s.count, PAGING_PAGES) == 0
    ensures NoneFree(s) <==> Free(s.count) == 0
    ensures OneFree(s) <==> Free(s.count) == 1
    ensures var f := TopFree(s.count, PAGING_PAGES);
            f != 0 ==> High(f) && (OneFree(s) <==> NoneFree(Alloc(s, f)))
  {
    NoneFreeIffNoTop(s);
    NoneFreeIffZero(s);
    var f := TopFree(s.count, PAGING_PAGES);
    if f != 0 {
      OneFreeIff(s, f);
      AllocTakesOne(s, f);
      NoneFreeIffZero(Alloc(s, f));
    }
  }

  /** un_wp_page as a whole: take a frame, then replace the entry by a private copy. */
  lemma AllocUnshareKeeps(s: Mem, k: set<nat>, d: nat, i: nat, n: nat)
    requires Inv(s, k) && UserDir(d) && i < ENTRIES && EntryAt(s, d, i).Entry? && High(n) && Count(s, n) == 0
    ensures EntryAt(Alloc(s, n), d, i) == EntryAt(s, d, i) && SafeEntry(s, EntryAt(s, d, i))
    ensures EntryAt(s, d, i).frame != n
    ensures High(EntryAt(s, d, i).frame) ==> Count(Alloc(s, n), EntryAt(s, d, i).frame) >= 1
    ensures var r := Unshare(Alloc(s, n), d, i, n);
            && Inv(r, k + {n} - {n}) && k + {n} - {n} == k && SameViewExcept(s, r, d, i)
            && ViewAt(r, d, i) == Detach(s, ViewAt(s, d, i))
            && EntryAt(r, d, i) == Entry(n, true)
            && forall x, y :: 0 <= x < DIRS && 0 <= y < ENTRIES && (x != d || y != i) ==>
                 EntryAt(r, x, y) == EntryAt(s, x, y)
  {
    AllocKeeps(s, k, n);
    UnshareKeeps(Alloc(s, n), k + {n}, d, i, n);
    assert SafeEntry(s, EntryAt(s, d, i));
  }

  function BootTable(f: int): (t: seq<Entry>)
    ensures |t| == ENTRIES
  {
    if f == 1 then seq(ENTRIES, i requires 0 <= i < ENTRIES => Entry(i, true))
    else if f == 2 then seq(ENTRIES, i requires 0 <= i < ENTRIES => Entry(ENTRIES + i, true))
    else EmptyTable()
  }

  lemma {:induction false} NoTablesNoRefs(s: Mem, f: nat, hi: nat)
    requires Shape(s) && TASK_DIRS <= hi <= DIRS && forall d :: UserDir(d) ==> s.dir[d].NoTable?
    ensures Refs(s, f, TASK_DIRS, hi) == 0
  {
    if hi > TASK_DIRS {
      NoTablesNoRefs(s, f, hi - 1);
    }
  }

  function BootDir(d: int): DirEntry { if d == 0 then Table(1) else if d == 1 then Table(2) else NoTable }

  lemma BootKeeps(s: Mem)
    requires |s.count| == PAGING_PAGES && |s.dir| == DIRS && |s.table| == FRAMES && |s.data| == FRAMES
    requires forall j :: 0 <= j < PAGING_PAGES ==> s.count[j] == 0
    requires forall d :: 0 <= d < DIRS ==> s.dir[d] == BootDir(d)
    requires forall f :: 0 <= f < FRAMES ==> s.table[f] == BootTable(f)
    ensures Inv(s, {})
  {
    forall f | High(f)
      ensures Count(s, f) == Refs(s, f, TASK_DIRS, DIRS) + Owned({}, f)
    {
      NoTablesNoRefs(s, f, DIRS);
    }
    assert forall d, i :: UserDir(d) && 0 <= i < ENTRIES ==> EntryAt(s, d, i).Absent?;
  }

  class Memory {
    const memMap: array<nat>
    const pgDir: array<DirEntry>
    const tables: array<seq<Entry>>
    const frames: array<Page>
    /** The frames that kernel code holds: task structures, pipe buffers, pages being set up. */
    ghost var owned: set<nat>

    ghost function State(): Mem
      reads memMap, pgDir, tables, frames
    {
      Mem(memMap[..], pgDir[..], tables[..], frames[..])
    }

    ghost predicate Valid()
      reads this, memMap, pgDir, tables, frames
    {
      Inv(State(), owned)
    }

    /** boot/head.s: physical memory mapped one to one for the kernel, no frame in use. */
    constructor Boot(contents: seq<Page>)
      requires |contents| == FRAMES
      ensures Valid() && owned == {} && fresh(memMap) && fresh(pgDir) && fresh(tables) && fresh(frames)
      ensures frames[..] == contents && Free(memMap[..]) == PAGING_PAGES
      ensures forall d :: UserDir(d) ==> pgDir[d].NoTable?
    {
      memMap := new nat[PAGING_PAGES](_ => 0);
      pgDir := new DirEntry[DIRS](d => BootDir(d));
      tables := new seq<Entry>[FRAMES](f => BootTable(f));
      frames := new Page[FRAMES](f requires 0 <= f < FRAMES => contents[f]);
      owned := {};
      new;
      BootKeeps(State());
      FreeAll(memMap[..]);
    }

    // ----- single stores ------------------------------------------------------

    method StoreCount(f: nat, c: nat)
      requires Shape(State()) && High(f)
      modifies memMap
      ensures State() == SetCount(old(State()), f, c)
    {
      memMap[f - LOW_FRAMES] := c;
      assert memMap[..] == old(memMap[..])[f - LOW_FRAMES := c];
    }

    method StoreDir(d: nat, e: DirEntry)
      requires Shape(State()) && d < DIRS && (e.Table? ==> e.frame < FRAMES)
      modifies pgDir
      ensures State() == SetDir(old(State()), d, e)
    {
      pgDir[d] := e;
      assert pgDir[..] == old(pgDir[..])[d := e];
    }

    method StoreEntry(d: nat, i: nat, e: Entry)
      requires Shape(State()) && d < DIRS && i < ENTRIES && pgDir[d].Table?
      modifies tables
      ensures State() == SetEntry(old(State()), d, i, e)
    {
      var t := pgDir[d].frame;
      assert tables[..][t] == tables[t];
      tables[t] := tables[t][i := e];
      assert tables[..] == old(tables[..])[t := old(tables[t])[i := e]];
    }

    method StorePage(f: nat, p: Page)
      requires Shape(State()) && f < FRAMES
      modifies frames
      ensures State() == SetData(old(State()), f, p)
    {
      frames[f] := p;
      assert frames[..] == old(frames[..])[f := p];
    }

    // ----- the frame allocator ------------------------------------------------

    /** Takes the highest free frame, zero-filled; 0 when none is free. */
    method GetFreePage() returns (f: nat)
      requires Valid()
      modifies this, memMap, tables, frames
      ensures Valid()
      ensures f == 0 ==> State() == old(State()) && owned == old(owned)
      ensures f == TopFree(old(memMap[..]), PAGING_PAGES)
      ensures f == 0 <==> NoneFree(old(State()))
      ensures f == 0 <==> Free(old(memMap[..])) == 0
      ensures f != 0 ==> Free(memMap[..]) == Free(old(memMap[..])) - 1
      ensures f != 0 ==> High(f) && Count(old(State()), f) == 0 && f !in old(owned) && owned == old(owned) + {f}
      ensures f != 0 ==> State() == Alloc(old(State()), f)
      ensures SameView(old(State()), State()) && SameEntries(old(State()), State())
    {
      ghost var s := State();
      var i := PAGING_PAGES;
      while i > 0
        invariant 0 <= i <= PAGING_PAGES
        invariant TopFree(s.count, PAGING_PAGES) == TopFree(s.count, i)
        invariant State() == s && owned == old(owned)
      {
        i := i - 1;
        if memMap[i] == 0 {
          f := i + LOW_FRAMES;
          assert Count(s, f) == 0;
          AllocKeeps(s, owned, f);
          AllocTakesOne(s, f);
          FreeIsZeroIff(s.count);
          StoreCount(f, 1);
          tables[f] := EmptyTable();
          frames[f] := ZeroPage();
          assert tables[..] == s.table[f := EmptyTable()];
          assert frames[..] == s.data[f := ZeroPage()];
          owned := owned + {f};
          return;
        }
      }
      NoneLeft(s);
      f := 0;
    }

    /** Drops one reference; frames below LOW_MEM are not counted.  The two panics are ruled out by the precondition. */
    method FreePage(f: nat)
      requires Shape(State()) && f < FRAMES
      requires High(f) ==> Count(State(), f) > 0
      modifies memMap
      ensures State() == if High(f) then SetCount(old(State()), f, Count(old(State()), f) - 1) else old(State())
      ensures Free(memMap[..]) >= Free(old(memMap[..]))
    {
      if f < LOW_FRAMES {
        return;
      }
      FreeUpdate(memMap[..], f - LOW_FRAMES, memMap[f - LOW_FRAMES] - 1);
      StoreCount(f, memMap[f - LOW_FRAMES] - 1);
    }

    /** calc_mem counts the free frames. */
    method CalcMem() returns (free: nat)
      requires Shape(State())
      ensures free == Free(memMap[..])
    {
      free := 0;
      var i := 0;
      while i < PAGING_PAGES
        invariant 0 <= i <= PAGING_PAGES && free == Free(memMap[..i])
      {
        assert memMap[..i + 1][..i] == memMap[..i];
        if memMap[i] == 0 {
          free := free + 1;
        }
        i := i + 1;
      }
      assert memMap[..i] == memMap[..];
    }

    // ----- freeing a range of page tables -------------------------------------

    /** One turn of the inner loop of free_page_tables. */
    method FreeEntry(d: nat, i: nat)
      requires Valid() && UserDir(d) && pgDir[d].Table? && i < ENTRIES
      modifies memMap, tables
      ensures Valid() && pgDir[..] == old(pgDir[..]) && frames[..] == old(frames[..])
      ensures Free(memMap[..]) >= Free(old(memMap[..]))
      ensures EntryAt(State(), d, i).Absent? && SameViewExcept(old(State()), State(), d, i)
      ensures forall x, y :: 0 <= x < DIRS && 0 <= y < ENTRIES && (x != d || y != i) ==>
                EntryAt(State(), x, y) == EntryAt(old(State()), x, y)
    {
      ghost var m := State();
      var e := tables[pgDir[d].frame][i];
      assert e == EntryAt(m, d, i);
      SetEntryEffect(m, owned, d, i, Absent);
      if e.Entry? {
        UnmapKeeps(m, owned, d, i);
        FreePage(e.frame);
      }
      ghost var t := pgDir[d].frame;
      assert e.Absent? ==> m.table[t][i := Absent] == m.table[t] && m.table[t := m.table[t]] == m.table;
      StoreEntry(d, i, Absent);
      ghost var a := SetEntry(m, d, i, Absent);
      assert forall x, y :: 0 <= x < DIRS && 0 <= y < ENTRIES ==> EntryAt(State(), x, y) == EntryAt(a, x, y);
    }

    /** The inner loop of free_page_tables and the release of the table itself. */
    method FreeTable(d: nat)
      requires Valid() && UserDir(d) && pgDir[d].Table?
      modifies memMap, pgDir, tables
      ensures Valid() && pgDir[d].NoTable?
      ensures frames[..] == old(frames[..]) && Free(memMap[..]) >= Free(old(memMap[..]))
      ensures SameOutside(old(State()), State(), d, d + 1)
    {
      ghost var s := State();
      var t := pgDir[d].frame;
      var nr := 0;
      while nr < ENTRIES
        invariant 0 <= nr <= ENTRIES
        invariant Valid() && pgDir[..] == s.dir && frames[..] == s.data && Free(memMap[..]) >= Free(s.count)
        invariant forall i :: 0 <= i < nr ==> EntryAt(State(), d, i).Absent?
        invariant SameOutside(s, State(), d, d + 1)
      {
        FreeEntry(d, nr);
        nr := nr + 1;
      }
      ghost var m := State();
      RemoveTableKeeps(m, owned, d);
      FreePage(t);
      StoreDir(d, NoTable);
      assert SameOutside(m, State(), d, d + 1);
    }

    /** Releases the n directory slots from d0 on.  Never reached with the kernel's own slots. */
    method FreePageTables(d0: nat, n: nat)
      requires Valid() && TASK_DIRS <= d0 && d0 + n <= DIRS
      modifies memMap, pgDir, tables
      ensures Valid()
      ensures forall d :: d0 <= d < d0 + n ==> pgDir[d].NoTable?
      ensures frames[..] == old(frames[..]) && Free(memMap[..]) >= Free(old(memMap[..]))
      ensures SameOutside(old(State()), State(), d0, d0 + n)
    {
      var dir := d0;
      while dir < d0 + n
        invariant d0 <= dir <= d0 + n
        invariant Valid() && frames[..] == old(frames[..]) && Free(memMap[..]) >= Free(old(memMap[..]))
        invariant forall d :: d0 <= d < dir ==> State().dir[d].NoTable?
        invariant SameOutside(old(State()), State(), d0, dir)
      {
        if pgDir[dir].Table? {
          FreeTable(dir);
        }
        dir := dir + 1;
      }
    }

    // ----- sharing page tables (fork) -----------------------------------------

    /** One turn of the inner loop of copy_page_tables. */
    method ShareEntry(from: nat, to: nat, k: nat, i: nat)
      requires Valid() && TwoTasks(from, to) && k < TASK_DIRS && i < ENTRIES && (from == 0 ==> k == 0)
      requires Copied(from, i)
      requires pgDir[from + k].Table? && pgDir[to + k].Table? && EntryAt(State(), to + k, i).Absent?
      requires Mirrors(State(), from, to)
      modifies memMap, tables
      ensures Valid() && Mirrors(State(), from, to)
      ensures frames[..] == old(frames[..]) && Free(memMap[..]) == Free(old(memMap[..]))
      ensures OnlyEntryChanged(old(State()), State(), to + k, i)
      ensures ViewAt(State(), to + k, i) == ViewAt(old(State()), from + k, i)
    {
      ghost var s := State();
      var d, e := from + k, to + k;
      var thisPage := tables[pgDir[d].frame][i];
      assert thisPage == EntryAt(s, d, i);
      if thisPage.Absent? {
        return;
      }
      var f := thisPage.frame;
      ShareOnceAll(s, owned, from, to, k, i);
      ShareStores(d, e, i, f);
    }

    /** Its stores, the child's entry first. */
    method ShareStores(d: nat, e: nat, i: nat, f: nat)
      requires Shape(State()) && d < DIRS && e < DIRS && i < ENTRIES && pgDir[e].Table? && f < FRAMES
      requires EntryAt(State(), d, i).Entry? && EntryAt(State(), d, i).frame == f && pgDir[d].frame != pgDir[e].frame
      modifies memMap, tables
      ensures State() == ShareOnce(old(State()), d, e, i)
    {
      ShareOnceStores(State(), d, e, i);
      StoreEntry(e, i, Entry(f, false));
      if f >= LOW_FRAMES {
        StoreEntry(d, i, Entry(f, false));
        StoreCount(f, memMap[f - LOW_FRAMES] + 1);
      }
    }

    /** The inner loop of copy_page_tables: 160 pages of the kernel's table, all of any other. */
    method ShareTable(from: nat, to: nat, k: nat)
      requires Valid() && TwoTasks(from, to) && k < TASK_DIRS && (from == 0 ==> k == 0)
      requires pgDir[from + k].Table? && pgDir[to + k].Table?
      requires AbsentFrom(State(), to + k, 0)
      requires Mirrors(State(), from, to)
      modifies memMap, tables
      ensures Valid() && Mirrors(State(), from, to)
      ensures pgDir[..] == old(pgDir[..]) && frames[..] == old(frames[..]) && Free(memMap[..]) == Free(old(memMap[..]))
      ensures SameOutside(old(State()), State(), to + k, to + k + 1)
      ensures CopiedSlot(old(State()), State(), from, to, k)
      ensures from != 0 ==>
                forall d, i :: d == to + k && 0 <= i < 1024 ==>
                  ViewAt(State(), d, i) == ViewAt(old(State()), from + k, i)
      ensures from == 0 ==>
                forall i :: 0 <= i < 1024 ==> ViewAt(State(), to, i) == if i < 160 then Low(i) else Unmapped
    {
      ghost var s := State();
      var nr := if from == 0 then SHARED_KERNEL_PAGES else ENTRIES;
      var i := 0;
      while i < nr
        invariant 0 <= i <= nr
        invariant Valid() && Mirrors(State(), from, to)
        invariant pgDir[..] == s.dir && frames[..] == s.data && Free(memMap[..]) == Free(s.count)
        invariant AbsentFrom(State(), to + k, i)
        invariant forall j :: 0 <= j < i ==> ViewAt(State(), to + k, j) == CopyView(s, from, k, j)
        invariant SameOutside(s, State(), to + k, to + k + 1)
      {
        ShareEntry(from, to, k, i);
        i := i + 1;
      }
      CopiedPages(s, State(), from, to, k);
    }

    /** An empty page table for slot d, if a frame is free. */
    method NewTable(d: nat) returns (ok: bool)
      requires Valid() && UserDir(d) && pgDir[d].NoTable?
      modifies this, memMap, pgDir, tables, frames
      ensures Valid() && owned == old(owned)
      ensures SameView(old(State()), State()) && SameEntries(old(State()), State())
      ensures ok ==> pgDir[d].Table? && pgDir[..] == old(pgDir[..])[d := pgDir[d]]
      ensures !ok ==> State() == old(State()) && NoneFree(State())
      ensures ok <==> Free(old(memMap[..])) > 0
      ensures ok ==> Free(memMap[..]) == Free(old(memMap[..])) - 1
    {
      var t := GetFreePage();
      if t == 0 {
        return false;
      }
      InstallTableKeeps(State(), owned, d, t);
      StoreDir(d, Table(t));
      owned := owned - {t};
      ok := true;
    }

    /** One turn of the outer loop. */
    method CopySlot(from: nat, to: nat, k: nat) returns (ok: bool)
      requires Valid() && TwoTasks(from, to) && k < TASK_DIRS && (from == 0 ==> k == 0)
      requires pgDir[to + k].NoTable? && Mirrors(State(), from, to)
      modifies this, memMap, pgDir, tables, frames
      ensures Valid() && owned == old(owned) && Mirrors(State(), from, to)
      ensures SameOutside(old(State()), State(), to + k, to + k + 1)
      ensures ok ==> CopiedSlot(old(State()), State(), from, to, k)
      ensures ok && from != 0 ==>
                forall d, i :: d == to + k && 0 <= i < 1024 ==>
                  ViewAt(State(), d, i) == ViewAt(old(State()), from + k, i)
      ensures ok && from == 0 ==>
                forall i :: 0 <= i < 1024 ==> ViewAt(State(), to, i) == if i < 160 then Low(i) else Unmapped
      ensures !ok ==> NoneFree(State())
      // one frame for the table, if the parent has one
      ensures ok <==> Free(old(memMap[..])) >= if old(pgDir[from + k]).Table? then 1 else 0
      ensures ok ==> Free(memMap[..]) == Free(old(memMap[..])) - if old(pgDir[from + k]).Table? then 1 else 0
    {
      ghost var s := State();
      if pgDir[from + k].NoTable? {
        CopiedPages(s, s, from, to, k);
        return true;
      }
      ok := NewTable(to + k);
      if !ok {
        return;
      }
      assert Mirrors(State(), from, to) by {
        forall j, i | 0 <= j < TASK_DIRS && 0 <= i < ENTRIES
          ensures MirrorsAt(State(), from, to, j, i)
        {
          assert MirrorsAt(s, from, to, j, i);
        }
      }
      ghost var m := State();
      ShareTable(from, to, k);
      forall i | 0 <= i < ENTRIES
        ensures ViewAt(State(), to + k, i) == CopyView(s, from, k, i)
      {
        assert CopyView(m, from, k, i) == CopyView(s, from, k, i);
      }
      CopiedPages(s, State(), from, to, k);
      ok := true;
    }

    /** Slot k of n, after the first k are copied from the state s. */
    method CopyNext(ghost s: Mem, from: nat, to: nat, k: nat, ghost n: nat) returns (ok: bool)
      requires Valid() && TwoTasks(from, to) && k < n <= TASK_DIRS && (from == 0 ==> k == 0)
      requires Mirrors(State(), from, to)
      requires Shape(s) && SafeEntries(s) && SameOutside(s, State(), to, to + k) && s.dir[to + k].NoTable?
      requires forall j :: 0 <= j < k ==> CopiedSlot(s, State(), from, to, j)
      requires Free(memMap[..]) + TablesIn(s.dir, from, k) == Free(s.count)
      modifies this, memMap, pgDir, tables, frames
      ensures Valid() && owned == old(owned) && Mirrors(State(), from, to) && SameOutside(s, State(), to, to + k + 1)
      ensures ok ==> forall j :: 0 <= j < k + 1 ==> CopiedSlot(s, State(), from, to, j)
      ensures ok ==> Free(memMap[..]) + TablesIn(s.dir, from, k + 1) == Free(s.count)
      ensures !ok ==> NoneFree(State()) && Free(s.count) < TablesIn(s.dir, from, n)
    {
      ghost var m := State();
      assert m.dir[to + k] == s.dir[to + k] && m.dir[from + k] == s.dir[from + k];
      TablesNext(s.dir, from, k, n);
      ok := CopySlot(from, to, k);
      WidenOutside(s, m, State(), to, k);
      if ok {
        CopyStep(s, m, State(), from, to, k);
      }
    }

    /**
      Copies n directory slots of one task to another by sharing every page.
      `already exist` is unreachable because the child's slots are empty.
     */
    method CopyPageTables(from: nat, to: nat, n: nat) returns (ok: bool)
      requires Valid() && TwoTasks(from, to) && n <= TASK_DIRS && (from == 0 ==> n <= 1)
      requires forall d :: to <= d < to + TASK_DIRS ==> pgDir[d].NoTable?
      modifies this, memMap, pgDir, tables, frames
      ensures Valid() && owned == old(owned)
      ensures SameOutside(old(State()), State(), to, to + n)
      ensures ok ==> forall k :: 0 <= k < n ==> CopiedSlot(old(State()), State(), from, to, k)
      ensures ok && from != 0 ==> forall d, i :: to <= d < to + n && 0 <= i < 1024 ==>
                ViewAt(State(), d, i) == ViewAt(old(State()), d - to + from, i)
      ensures ok && from == 0 && n == 1 ==> forall i :: 0 <= i < 1024 ==>
                ViewAt(State(), to, i) == if i < 160 then Low(i) else Unmapped
      ensures !ok ==> NoneFree(State())
      ensures ok <==> Free(old(memMap[..])) >= TablesIn(old(pgDir[..]), from, n)
      ensures ok ==> Free(memMap[..]) == Free(old(memMap[..])) - TablesIn(old(pgDir[..]), from, n)
    {
      ghost var s := State();
      ok := CopySlots(from, to, n);
      if ok {
        CopiedSlots(s, State(), from, to, n);
      }
    }

    /** Its loop over the slots. */
    method CopySlots(from: nat, to: nat, n: nat) returns (ok: bool)
      requires Valid() && TwoTasks(from, to) && n <= TASK_DIRS && (from == 0 ==> n <= 1)
      requires forall d :: to <= d < to + TASK_DIRS ==> pgDir[d].NoTable?
      modifies this, memMap, pgDir, tables, frames
      ensures Valid() && owned == old(owned)
      ensures SameOutside(old(State()), State(), to, to + n)
      ensures ok ==> forall k :: 0 <= k < n ==> CopiedSlot(old(State()), State(), from, to, k)
      ensures !ok ==> NoneFree(State())
      ensures ok <==> Free(old(memMap[..])) >= TablesIn(old(pgDir[..]), from, n)
      ensures ok ==> Free(memMap[..]) == Free(old(memMap[..])) - TablesIn(old(pgDir[..]), from, n)
    {
      ghost var s := State();
      CopyBegins(s, from, to);
      var k := 0;
      while k < n
        invariant 0 <= k <= n
        invariant Valid() && owned == old(owned) && SameOutside(s, State(), to, to + k)
        invariant Mirrors(State(), from, to) && Free(memMap[..]) + TablesIn(s.dir, from, k) == Free(s.count)
        invariant forall j :: 0 <= j < k ==> CopiedSlot(s, State(), from, to, j)
      {
        ok := CopyNext(s, from, to, k, n);
        k := k + 1;
        if !ok {
          OutsideMore(s, State(), to, k, n);
          return;
        }
      }
      ok := true;
    }

    // ----- page faults --------------------------------------------------------

    /**
      Maps a frame that the kernel holds at (d, i); fails only when a new page table
      is needed and no frame is free.
     */
    method PutPage(f: nat, d: nat, i: nat) returns (ok: bool)
      requires Valid() && f in owned && UserDir(d) && i < ENTRIES && EntryAt(State(), d, i).Absent?
      modifies this, memMap, pgDir, tables, frames
      ensures Valid() && SameViewExcept(old(State()), State(), d, i)
      ensures ok ==> owned == old(owned) - {f} && EntryAt(State(), d, i) == Entry(f, true)
      ensures ok ==> ViewAt(State(), d, i) == Private(old(frames[f]))
      ensures ok ==> pgDir[d].Table? && pgDir[..] == old(pgDir[..])[d := pgDir[d]]
      ensures !ok ==> State() == old(State()) && owned == old(owned)
      ensures !ok <==> old(pgDir[d]).NoTable? && NoneFree(old(State()))
      ensures ok <==> Free(old(memMap[..])) >= NewTables(old(pgDir[d]))
      ensures ok ==> Free(memMap[..]) == Free(old(memMap[..])) - NewTables(old(pgDir[d]))
    {
      ghost var own := owned;
      if pgDir[d].NoTable? {
        var tmp := GetFreePage();
        if tmp == 0 {
          return false;
        }
        InstallTableKeeps(State(), owned, d, tmp);
        StoreDir(d, Table(tmp));
        owned := owned - {tmp};
        assert owned == own;
      }
      MapFrameKeeps(State(), owned, d, i, f);
      SetEntryEffect(State(), owned, d, i, Entry(f, true));
      StoreEntry(d, i, Entry(f, true));
      owned := owned - {f};
      ok := true;
    }

    /** Makes a present entry writable, copying the frame if anybody else may see it.  Out of memory kills the task. */
    method UnWpPage(d: nat, i: nat) returns (ok: bool)
      requires Valid() && UserDir(d) && i < ENTRIES && EntryAt(State(), d, i).Entry?
      modifies this, memMap, tables, frames
      ensures Valid() && owned == old(owned) && pgDir[..] == old(pgDir[..])
      ensures SameViewExcept(old(State()), State(), d, i)
      ensures forall x, y :: 0 <= x < DIRS && 0 <= y < ENTRIES && (x != d || y != i) ==>
                EntryAt(State(), x, y) == EntryAt(old(State()), x, y)
      ensures ok ==> ViewAt(State(), d, i) == Detach(old(State()), ViewAt(old(State()), d, i))
      ensures ok ==> EntryAt(State(), d, i).Entry? && EntryAt(State(), d, i).writable
      ensures !ok ==> State() == old(State()) && NoneFree(State())
      ensures ok <==> !Copies(old(State()), old(EntryAt(State(), d, i))) || Free(old(memMap[..])) > 0
      ensures ok ==>
                Free(memMap[..]) ==
                Free(old(memMap[..])) - if Copies(old(State()), old(EntryAt(State(), d, i))) then 1 else 0
      ensures forall f :: High(f) && Count(old(State()), f) > 0 ==>
                Count(State(), f) == Count(old(State()), f) - if ok && CopiesFrame(old(State()), d, i, f) then 1 else 0
    {
      ghost var s := State();
      var t := pgDir[d].frame;
      var oldPage := tables[t][i].frame;
      assert EntryAt(s, d, i).frame == oldPage;
      assert SafeEntry(s, EntryAt(s, d, i));
      if oldPage >= LOW_FRAMES && memMap[oldPage - LOW_FRAMES] == 1 {
        SetWritableKeeps(s, owned, d, i, true);
        SetEntryEffect(s, owned, d, i, Entry(oldPage, true));
        StoreEntry(d, i, Entry(oldPage, true));
        return true;
      }
      var newPage := GetFreePage();
      if newPage == 0 {
        return false;
      }
      AllocUnshareKeeps(s, old(owned), d, i, newPage);
      CopyTakesOne(s, old(owned), d, i, newPage);
      ReplacePage(d, i, newPage);
      owned := owned - {newPage};
      ok := true;
      forall f | High(f) && Count(s, f) > 0
        ensures Count(State(), f) == Count(s, f) - if EntryAt(s, d, i).frame == f then 1 else 0
      {
        CopyCounts(s, d, i, newPage, f);
      }
    }

    /** The copying half of un_wp_page. */
    method ReplacePage(d: nat, i: nat, newPage: nat)
      requires Shape(State()) && d < DIRS && i < ENTRIES && EntryAt(State(), d, i).Entry?
      requires EntryAt(State(), d, i).frame < FRAMES
      requires High(newPage)
      requires (High(EntryAt(State(), d, i).frame) ==> Count(State(), EntryAt(State(), d, i).frame) >= 1)
      modifies memMap, tables, frames
      ensures State() == Unshare(old(State()), d, i, newPage)
    {
      var oldPage := tables[pgDir[d].frame][i].frame;
      assert EntryAt(State(), d, i).frame == oldPage;
      if oldPage >= LOW_FRAMES {
        StoreCount(oldPage, memMap[oldPage - LOW_FRAMES] - 1);
      }
      StoreEntry(d, i, Entry(newPage, true));
      StorePage(newPage, frames[oldPage]);
    }

    /**
      Gives supervisor code a page it may store to: a present page becomes writable,
      an absent one is left to fault.
     */
    method WriteVerify(d: nat, i: nat) returns (ok: bool)
      requires Valid() && d < DIRS && i < ENTRIES
      modifies this, memMap, tables, frames
      ensures Valid() && owned == old(owned) && pgDir[..] == old(pgDir[..])
      ensures SameViewExcept(old(State()), State(), d, i)
      ensures forall x, y :: 0 <= x < DIRS && 0 <= y < ENTRIES && (x != d || y != i) ==>
                EntryAt(State(), x, y) == EntryAt(old(State()), x, y)
      ensures ok && UserDir(d) ==> ViewAt(State(), d, i) == Detach(old(State()), ViewAt(old(State()), d, i))
      ensures ok ==> EntryAt(State(), d, i).Absent? || EntryAt(State(), d, i).writable
      ensures !UserDir(d) || !ok ==> State() == old(State())
      ensures !ok ==> NoneFree(State())
      ensures ok <==> !NeedsCopy(old(State()), d, i) || Free(old(memMap[..])) > 0
      ensures ok ==> Free(memMap[..]) == Free(old(memMap[..])) - if NeedsCopy(old(State()), d, i) then 1 else 0
      ensures forall f :: High(f) && Count(old(State()), f) > 0 ==>
                Count(State(), f) == Count(old(State()), f) -
                  if ok && NeedsCopy(old(State()), d, i) && CopiesFrame(old(State()), d, i, f) then 1 else 0
    {
      if pgDir[d].NoTable? {
        return true;
      }
      var e := tables[pgDir[d].frame][i];
      assert e == EntryAt(State(), d, i);
      if e.Entry? && !e.writable {
        ok := UnWpPage(d, i);
      } else {
        assert UserDir(d) ==> SafeEntry(State(), EntryAt(State(), d, i));
        ok := true;
      }
    }

    /** Demand-zero: maps a fresh zero page at an absent entry.  Out of memory kills the task; see `leaked`. */
    method DoNoPage(d: nat, i: nat) returns (ok: bool, ghost leaked: set<nat>)
      requires Valid() && UserDir(d) && i < ENTRIES && EntryAt(State(), d, i).Absent?
      modifies this, memMap, pgDir, tables, frames
      ensures Valid() && SameViewExcept(old(State()), State(), d, i)
      ensures owned == old(owned) + leaked && leaked !! old(owned)
      ensures ok ==> leaked == {} && ViewAt(State(), d, i) == Private(ZeroPage())
      ensures ok ==> EntryAt(State(), d, i).Entry? && EntryAt(State(), d, i).writable
      ensures ok ==> pgDir[d].Table? && pgDir[..] == old(pgDir[..])[d := pgDir[d]]
      ensures !ok ==> pgDir[..] == old(pgDir[..]) && SameView(old(State()), State())
      ensures !ok ==> NoneFree(State())
      ensures ok <==> Free(old(memMap[..])) >= 1 + NewTables(old(pgDir[d]))
      ensures ok ==> Free(memMap[..]) == Free(old(memMap[..])) - 1 - NewTables(old(pgDir[d]))
      ensures |leaked| <= 1
      // the fresh page is lost exactly when it was the last free frame and a page table was needed too
      ensures leaked != {} <==> old(pgDir[d]).NoTable? && OneFree(old(State()))
    {
      leaked := {};
      NoneLeft(State());
      var tmp := GetFreePage();
      if tmp == 0 {
        return false, {};
      }
      ok := PutPage(tmp, d, i);
      if !ok {
        leaked := {tmp};
      }
    }
  }
}

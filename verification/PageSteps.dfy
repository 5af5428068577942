/**
  The elementary updates out of which mm/memory.c builds its operations.  Each
  keeps `Inv`, and each lemma says how it changes what the tasks see.
 */
module PageSteps {
  import opened PageModel
  import opened PageCounting

  // ----- how one entry or one slot changes the references ---------------------

  lemma SetEntryEffect(s: Mem, k: set<nat>, d: nat, i: nat, e: Entry)
    requires Inv(s, k) && UserDir(d) && i < ENTRIES && s.dir[d].Table?
    ensures var r := SetEntry(s, d, i, e);
            && EntryAt(r, d, i) == e
            && (forall x, y :: 0 <= x < DIRS && 0 <= y < ENTRIES && (x != d || y != i) ==>
                 EntryAt(r, x, y) == EntryAt(s, x, y))
  {
    TablesDistinct(s, k);
  }

  lemma SetEntryRefs(s: Mem, k: set<nat>, d: nat, i: nat, e: Entry, f: nat)
    requires Inv(s, k) && UserDir(d) && i < ENTRIES && s.dir[d].Table?
    ensures var r := SetEntry(s, d, i, e);
            Refs(r, f, TASK_DIRS, DIRS) + Hit(EntryAt(s, d, i), f) == Refs(s, f, TASK_DIRS, DIRS) + Hit(e, f)
  {
    TablesDistinct(s, k);
    var r := SetEntry(s, d, i, e);
    TableRefsUpdate(s.table[s.dir[d].frame], i, e, f);
    RefsChange(s, r, f, d, TASK_DIRS, DIRS);
  }

  lemma SameRefs(s: Mem, r: Mem, f: nat)
    requires Shape(s) && Shape(r) && r.dir == s.dir
    requires forall d :: UserDir(d) && s.dir[d].Table? ==> r.table[s.dir[d].frame] == s.table[s.dir[d].frame]
    ensures Refs(r, f, TASK_DIRS, DIRS) == Refs(s, f, TASK_DIRS, DIRS)
  {
    RefsChange(s, r, f, 0, TASK_DIRS, DIRS);
  }

  ghost predicate SameEntries(s: Mem, r: Mem)
    requires Shape(s) && Shape(r)
  {
    forall d, i :: 0 <= d < DIRS && 0 <= i < ENTRIES ==> EntryAt(r, d, i) == EntryAt(s, d, i)
  }

  // ----- get_free_page and free_page on a page the kernel owns ----------------

  function Alloc(s: Mem, f: nat): (r: Mem)
    requires Shape(s) && High(f)
    ensures Shape(r)
  {
    ClearFrame(SetCount(s, f, 1), f)
  }

  lemma AllocKeeps(s: Mem, k: set<nat>, f: nat)
    requires Inv(s, k) && High(f) && Count(s, f) == 0
    ensures Inv(Alloc(s, f), k + {f}) && f !in k
    ensures SameView(s, Alloc(s, f)) && SameEntries(s, Alloc(s, f))
  {
    var r := Alloc(s, f);
    NotNamed(s, f);
    forall d | UserDir(d) && s.dir[d].Table?
      ensures s.dir[d].frame != f
    {
      assert !NamedBy(s, d, f);
    }
    forall g | High(g)
      ensures Count(r, g) == Refs(r, g, TASK_DIRS, DIRS) + Owned(k + {f}, g)
    {
      SameRefs(s, r, g);
    }
    forall d, i | UserDir(d) && 0 <= i < ENTRIES
      ensures SafeEntry(r, EntryAt(r, d, i)) && EntryAt(r, d, i) == EntryAt(s, d, i) && Hit(EntryAt(r, d, i), f) == 0
    {
      assert SafeEntry(s, EntryAt(s, d, i));
      assert !NamedBy(s, d, f);
    }
  }

  lemma FreeOwnedKeeps(s: Mem, k: set<nat>, f: nat)
    requires Inv(s, k) && f in k
    ensures Inv(SetCount(s, f, 0), k - {f})
    ensures SameView(s, SetCount(s, f, 0))
  {
    var r := SetCount(s, f, 0);
    KernelFrame(s, k, f);
    forall g | High(g)
      ensures Count(r, g) == Refs(r, g, TASK_DIRS, DIRS) + Owned(k - {f}, g)
    {
      SameRefs(s, r, g);
    }
    forall d | UserDir(d) && s.dir[d].Table?
      ensures s.dir[d].frame != f
    {
      assert !NamedBy(s, d, f);
    }
    forall d, i | UserDir(d) && 0 <= i < ENTRIES
      ensures SafeEntry(r, EntryAt(r, d, i)) && EntryAt(r, d, i) == EntryAt(s, d, i)
    {
      assert SafeEntry(s, EntryAt(s, d, i));
      assert !NamedBy(s, d, f);
    }
  }

  // ----- page tables ----------------------------------------------------------

  lemma InstallTableKeeps(s: Mem, k: set<nat>, d: nat, t: nat)
    requires Inv(s, k) && UserDir(d) && s.dir[d].NoTable? && t in k && s.table[t] == EmptyTable()
    ensures Inv(SetDir(s, d, Table(t)), k - {t})
    ensures SameView(s, SetDir(s, d, Table(t))) && SameEntries(s, SetDir(s, d, Table(t)))
  {
    var r := SetDir(s, d, Table(t));
    KernelFrame(s, k, t);
    forall g | High(g)
      ensures Count(r, g) == Refs(r, g, TASK_DIRS, DIRS) + Owned(k - {t}, g)
    {
      EmptyTableRefs(r.table[t], g);
      RefsChange(s, r, g, d, TASK_DIRS, DIRS);
    }
    forall e, i | 0 <= e < DIRS && 0 <= i < ENTRIES
      ensures EntryAt(r, e, i) == EntryAt(s, e, i)
      ensures UserDir(e) ==> SafeEntry(r, EntryAt(r, e, i))
    {
      if UserDir(e) {
        assert SafeEntry(s, EntryAt(s, e, i));
      }
    }
  }

  lemma RemoveTableKeeps(s: Mem, k: set<nat>, d: nat)
    requires Inv(s, k) && UserDir(d) && s.dir[d].Table?
    requires forall i :: 0 <= i < ENTRIES ==> EntryAt(s, d, i).Absent?
    ensures var r := SetDir(SetCount(s, s.dir[d].frame, 0), d, NoTable);
            Inv(r, k) && SameView(s, r) && SameEntries(s, r)
  {
    var t := s.dir[d].frame;
    var r := SetDir(SetCount(s, t, 0), d, NoTable);
    TableFrame(s, k, d);
    forall i | 0 <= i < ENTRIES
      ensures s.table[t][i].Absent?
    {
      assert EntryAt(s, d, i).Absent?;
    }
    forall g | High(g)
      ensures Count(r, g) == Refs(r, g, TASK_DIRS, DIRS) + Owned(k, g)
    {
      EmptyTableRefs(s.table[t], g);
      RefsChange(s, r, g, d, TASK_DIRS, DIRS);
    }
    forall e | UserDir(e) && r.dir[e].Table?
      ensures High(r.dir[e].frame) && Count(r, r.dir[e].frame) == 1
    {
      assert !NamedBy(s, e, t);
    }
    forall e, i | 0 <= e < DIRS && 0 <= i < ENTRIES
      ensures EntryAt(r, e, i) == EntryAt(s, e, i)
      ensures UserDir(e) ==> SafeEntry(r, EntryAt(r, e, i))
    {
      if UserDir(e) {
        assert SafeEntry(s, EntryAt(s, e, i));
        assert e != d ==> !NamedBy(s, e, t);
      }
    }
  }

  // ----- page-table entries ---------------------------------------------------

  /** put_page: a kernel-owned frame becomes the task's own page. */
  lemma MapFrameKeeps(s: Mem, k: set<nat>, d: nat, i: nat, f: nat)
    requires Inv(s, k) && UserDir(d) && i < ENTRIES && s.dir[d].Table? && EntryAt(s, d, i).Absent? && f in k
    ensures var r := SetEntry(s, d, i, Entry(f, true));
            Inv(r, k - {f}) && SameViewExcept(s, r, d, i) && ViewAt(r, d, i) == Private(s.data[f])
  {
    var e := Entry(f, true);
    var r := SetEntry(s, d, i, e);
    SetEntryEffect(s, k, d, i, e);
    KernelFrame(s, k, f);
    forall g | High(g)
      ensures Count(r, g) == Refs(r, g, TASK_DIRS, DIRS) + Owned(k - {f}, g)
    {
      SetEntryRefs(s, k, d, i, e, g);
    }
    forall x, y | UserDir(x) && 0 <= y < ENTRIES
      ensures SafeEntry(r, EntryAt(r, x, y)) && ((x != d || y != i) ==> Hit(EntryAt(r, x, y), f) == 0)
    {
      assert SafeEntry(s, EntryAt(s, x, y));
      assert !NamedBy(s, x, f);
    }
  }

  /** Changing only the writable bit of an entry changes no reference and no view. */
  lemma SetWritableKeeps(s: Mem, k: set<nat>, d: nat, i: nat, w: bool)
    requires Inv(s, k) && UserDir(d) && i < ENTRIES && EntryAt(s, d, i).Entry?
    requires w ==> High(EntryAt(s, d, i).frame) && Count(s, EntryAt(s, d, i).frame) == 1
    ensures var r := SetEntry(s, d, i, Entry(EntryAt(s, d, i).frame, w));
            Inv(r, k) && SameView(s, r)
  {
    var e := Entry(EntryAt(s, d, i).frame, w);
    var r := SetEntry(s, d, i, e);
    SetEntryEffect(s, k, d, i, e);
    forall g | High(g)
      ensures Count(r, g) == Refs(r, g, TASK_DIRS, DIRS) + Owned(k, g)
    {
      SetEntryRefs(s, k, d, i, e, g);
    }
    forall x, y | UserDir(x) && 0 <= y < ENTRIES
      ensures SafeEntry(r, EntryAt(r, x, y))
      ensures EntryAt(r, x, y).Entry? == EntryAt(s, x, y).Entry?
      ensures EntryAt(r, x, y).Entry? ==> EntryAt(r, x, y).frame == EntryAt(s, x, y).frame
    {
      assert SafeEntry(s, EntryAt(s, x, y));
    }
  }

  /** free_page on a mapped frame, then clearing the entry. */
  function Unmap(s: Mem, d: nat, i: nat): (r: Mem)
    requires Shape(s) && d < DIRS && i < ENTRIES && EntryAt(s, d, i).Entry?
    requires High(EntryAt(s, d, i).frame) ==> Count(s, EntryAt(s, d, i).frame) >= 1
    ensures Shape(r)
  {
    var f := EntryAt(s, d, i).frame;
    SetEntry(if High(f) then SetCount(s, f, Count(s, f) - 1) else s, d, i, Absent)
  }

  lemma UnmapKeeps(s: Mem, k: set<nat>, d: nat, i: nat)
    requires Inv(s, k) && UserDir(d) && i < ENTRIES && EntryAt(s, d, i).Entry?
    ensures High(EntryAt(s, d, i).frame) ==> Count(s, EntryAt(s, d, i).frame) >= 1
    ensures var r := Unmap(s, d, i);
            Inv(r, k) && SameViewExcept(s, r, d, i) && ViewAt(r, d, i) == Unmapped
  {
    var f := EntryAt(s, d, i).frame;
    if High(f) {
      PresentEntry(s, k, d, i);
    }
    var r := Unmap(s, d, i);
    var m := SetEntry(s, d, i, Absent);
    assert r.dir == m.dir && r.table == m.table;
    SetEntryEffect(s, k, d, i, Absent);
    forall g | High(g)
      ensures Count(r, g) == Refs(r, g, TASK_DIRS, DIRS) + Owned(k, g)
    {
      SetEntryRefs(s, k, d, i, Absent, g);
      SameRefs(m, r, g);
    }
    if High(f) && Count(s, f) == 1 {
      UnsharedEntry(s, k, d, i);
    }
    forall x, y | UserDir(x) && 0 <= y < ENTRIES
      ensures SafeEntry(r, EntryAt(r, x, y)) && EntryAt(r, x, y) == EntryAt(m, x, y)
    {
      assert SafeEntry(s, EntryAt(s, x, y));
    }
  }

  /** copy_page_tables: slot (e, i) gets a read-only reference to the frame that (d, i) names. */
  function Share(s: Mem, e: nat, i: nat, f: nat): (r: Mem)
    requires Shape(s) && e < DIRS && i < ENTRIES && s.dir[e].Table? && f < FRAMES
    ensures Shape(r)
  {
    SetEntry(if High(f) then SetCount(s, f, Count(s, f) + 1) else s, e, i, Entry(f, false))
  }

  lemma ShareKeeps(s: Mem, k: set<nat>, d: nat, e: nat, i: nat, f: nat)
    requires Inv(s, k) && UserDir(e) && i < ENTRIES && s.dir[e].Table? && EntryAt(s, e, i).Absent? && f < FRAMES
    requires High(f) ==> UserDir(d) && EntryAt(s, d, i) == Entry(f, false)
    requires High(f) ==> forall x, y :: UserDir(x) && x / TASK_DIRS == e / TASK_DIRS && 0 <= y < ENTRIES ==>
              Hit(EntryAt(s, x, y), f) == 0
    ensures var r := Share(s, e, i, f);
            Inv(r, k) && SameViewExcept(s, r, e, i)
                && ViewAt(r, e, i) == (if f < LOW_FRAMES then Low(f) else Private(s.data[f]))
  {
    var r := Share(s, e, i, f);
    var m := SetEntry(s, e, i, Entry(f, false));
    assert r.dir == m.dir && r.table == m.table;
    SetEntryEffect(s, k, e, i, Entry(f, false));
    if High(f) {
      PresentEntry(s, k, d, i);
    }
    forall g | High(g)
      ensures Count(r, g) == Refs(r, g, TASK_DIRS, DIRS) + Owned(k, g)
    {
      SetEntryRefs(s, k, e, i, Entry(f, false), g);
      SameRefs(m, r, g);
    }
    if High(f) && Count(s, f) == 1 {
      UnsharedEntry(s, k, d, i);
    }
    forall x, y | UserDir(x) && 0 <= y < ENTRIES
      ensures SafeEntry(r, EntryAt(r, x, y)) && EntryAt(r, x, y) == EntryAt(m, x, y)
    {
      assert SafeEntry(s, EntryAt(s, x, y));
    }
  }

  // ----- bytes ----------------------------------------------------------------

  /** Filling a frame that nobody maps (a page being copied or read in) is invisible. */
  lemma StoreOwnedKeeps(s: Mem, k: set<nat>, f: nat, p: Page)
    requires Inv(s, k) && f in k
    ensures Inv(SetData(s, f, p), k) && SameView(s, SetData(s, f, p))
  {
    var r := SetData(s, f, p);
    KernelFrame(s, k, f);
    StoreKeeps(s, k, f, p);
    forall d, i | UserDir(d) && 0 <= i < ENTRIES
      ensures ViewAt(r, d, i) == ViewAt(s, d, i)
    {
      assert !NamedBy(s, d, f);
    }
  }

  lemma StoreKeeps(s: Mem, k: set<nat>, f: nat, p: Page)
    requires Inv(s, k) && f < FRAMES
    ensures Inv(SetData(s, f, p), k)
  {
    var r := SetData(s, f, p);
    forall g | High(g)
      ensures Count(r, g) == Refs(r, g, TASK_DIRS, DIRS) + Owned(k, g)
    {
      SameRefs(s, r, g);
    }
    forall d, i | UserDir(d) && 0 <= i < ENTRIES
      ensures SafeEntry(r, EntryAt(r, d, i)) && EntryAt(r, d, i) == EntryAt(s, d, i)
    {
      assert SafeEntry(s, EntryAt(s, d, i));
    }
  }

  /** A store through a writable entry is seen at that page and nowhere else. */
  lemma StoreMappedKeeps(s: Mem, k: set<nat>, d: nat, i: nat, p: Page)
    requires Inv(s, k) && UserDir(d) && i < ENTRIES && EntryAt(s, d, i).Entry? && EntryAt(s, d, i).writable
    ensures SafeEntry(s, EntryAt(s, d, i))
    ensures var r := SetData(s, EntryAt(s, d, i).frame, p);
            Inv(r, k) && SameViewExcept(s, r, d, i) && ViewAt(r, d, i) == Private(p)
  {
    assert SafeEntry(s, EntryAt(s, d, i));
    var f := EntryAt(s, d, i).frame;
    UnsharedEntry(s, k, d, i);
    StoreKeeps(s, k, f, p);
    var r := SetData(s, f, p);
    forall x, y | UserDir(x) && 0 <= y < ENTRIES && (x != d || y != i)
      ensures ViewAt(r, x, y) == ViewAt(s, x, y)
    {
      assert Hit(EntryAt(s, x, y), f) == 0;
    }
  }

  // ----- un_wp_page -----------------------------------------------------------

  /** A page shared with the kernel turned into a private copy; private pages stay as they are. */
  function Detach(s: Mem, v: PageView): PageView
    requires Shape(s) && (v.Low? ==> v.frame < FRAMES)
  {
    if v.Low? then Private(s.data[v.frame]) else v
  }

  /** The stores of un_wp_page when it has to copy: drop the old frame, map the new one, copy the bytes. */
  function Unshare(s: Mem, d: nat, i: nat, n: nat): (r: Mem)
    requires Shape(s) && d < DIRS && i < ENTRIES && EntryAt(s, d, i).Entry? && EntryAt(s, d, i).frame < FRAMES
    requires High(n)
    requires High(EntryAt(s, d, i).frame) ==> Count(s, EntryAt(s, d, i).frame) >= 1
    ensures Shape(r)
  {
    var f := EntryAt(s, d, i).frame;
    var m := if High(f) then SetCount(s, f, Count(s, f) - 1) else s;
    SetData(SetEntry(m, d, i, Entry(n, true)), n, s.data[f])
  }

  lemma UnshareKeeps(s: Mem, k: set<nat>, d: nat, i: nat, n: nat)
    requires Inv(s, k) && UserDir(d) && i < ENTRIES && EntryAt(s, d, i).Entry? && n in k
    ensures SafeEntry(s, EntryAt(s, d, i)) && EntryAt(s, d, i).frame != n
    ensures High(EntryAt(s, d, i).frame) ==> Count(s, EntryAt(s, d, i).frame) >= 1
    ensures var r := Unshare(s, d, i, n);
            && Inv(r, k - {n}) && SameViewExcept(s, r, d, i)
            && ViewAt(r, d, i) == Detach(s, ViewAt(s, d, i))
            && EntryAt(r, d, i) == Entry(n, true)
            && forall x, y :: 0 <= x < DIRS && 0 <= y < ENTRIES && (x != d || y != i) ==>
                 EntryAt(r, x, y) == EntryAt(s, x, y)
  {
    var f := EntryAt(s, d, i).frame;
    assert SafeEntry(s, EntryAt(s, d, i));
    KernelFrame(s, k, n);
    assert !NamedBy(s, d, n);
    StoreOwnedKeeps(s, k, n, s.data[f]);
    var b := SetData(s, n, s.data[f]);
    UnmapKeeps(b, k, d, i);
    var c := Unmap(b, d, i);
    MapFrameKeeps(c, k, d, i, n);
    SetEntryEffect(s, k, d, i, Entry(n, true));
    var r := Unshare(s, d, i, n);
    var t := s.dir[d].frame;
    assert s.table[t][i := Absent][i := Entry(n, true)] == s.table[t][i := Entry(n, true)];
    assert s.table[t := s.table[t][i := Absent]][t := s.table[t][i := Entry(n, true)]]
        == s.table[t := s.table[t][i := Entry(n, true)]];
    assert r == SetEntry(c, d, i, Entry(n, true));
    var m := SetEntry(s, d, i, Entry(n, true));
    assert forall x, y :: 0 <= x < DIRS && 0 <= y < ENTRIES ==> EntryAt(r, x, y) == EntryAt(m, x, y);
  }
}

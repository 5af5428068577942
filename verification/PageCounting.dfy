/** Counting arguments: from an exact count to what can and cannot name a frame. */
module PageCounting {
  import opened PageModel

  lemma {:induction false} TableRefsUpdate(t: seq<Entry>, i: nat, e: Entry, f: nat)
    requires i < |t|
    ensures TableRefs(t[i := e], f) + Hit(t[i], f) == TableRefs(t, f) + Hit(e, f)
  {
    var n := |t| - 1;
    var u := t[i := e];
    if i == n {
      assert u[..n] == t[..n];
    } else {
      assert u[..n] == t[..n][i := e];
      TableRefsUpdate(t[..n], i, e, f);
    }
  }

  lemma {:induction false} EmptyTableRefs(t: seq<Entry>, f: nat)
    requires forall i :: 0 <= i < |t| ==> t[i].Absent?
    ensures TableRefs(t, f) == 0
  {
    if t != [] {
      EmptyTableRefs(t[..|t| - 1], f);
    }
  }

  /** An entry that names f is counted; two entries are counted twice. */
  lemma TableRefsAtLeast(t: seq<Entry>, i: nat, j: nat, f: nat)
    requires i < |t| && j < |t| && Hit(t[i], f) == 1 && Hit(t[j], f) == 1
    ensures TableRefs(t, f) >= 1
    ensures i != j ==> TableRefs(t, f) >= 2
  {
    TableRefsUpdate(t, i, Absent, f);
    if i != j {
      TableRefsUpdate(t[i := Absent], j, Absent, f);
    }
  }

  /** If only slot d0 changed what it names, the sum changes by that slot's change. */
  lemma {:induction false} RefsChange(s: Mem, r: Mem, f: nat, d0: nat, lo: nat, hi: nat)
    requires Shape(s) && Shape(r) && lo <= hi <= DIRS && d0 < DIRS
    requires forall d :: lo <= d < hi && d != d0 ==> DirRefs(r, d, f) == DirRefs(s, d, f)
    ensures lo <= d0 < hi ==> Refs(r, f, lo, hi) + DirRefs(s, d0, f) == Refs(s, f, lo, hi) + DirRefs(r, d0, f)
    ensures !(lo <= d0 < hi) ==> Refs(r, f, lo, hi) == Refs(s, f, lo, hi)
  {
    if lo < hi {
      RefsChange(s, r, f, d0, lo, hi - 1);
    }
  }

  lemma {:induction false} RefsAtLeast(s: Mem, f: nat, d: nat, e: nat, lo: nat, hi: nat)
    requires Shape(s) && lo <= hi <= DIRS && lo <= d < hi && lo <= e < hi
    ensures Refs(s, f, lo, hi) >= DirRefs(s, d, f)
    ensures d != e ==> Refs(s, f, lo, hi) >= DirRefs(s, d, f) + DirRefs(s, e, f)
  {
    var n := hi - 1;
    if d < n && e < n {
      RefsAtLeast(s, f, d, e, lo, n);
    } else if d < n {
      RefsAtLeast(s, f, d, d, lo, n);
    } else if e < n {
      RefsAtLeast(s, f, e, e, lo, n);
    }
  }

  /** Slot d names f, as its table or through an entry. */
  ghost predicate NamedBy(s: Mem, d: nat, f: nat)
    requires Shape(s) && d < DIRS
  {
    s.dir[d].Table? && (s.dir[d].frame == f || exists i :: 0 <= i < ENTRIES && Hit(s.table[s.dir[d].frame][i], f) == 1)
  }

  lemma NamedIsCounted(s: Mem, d: nat, f: nat)
    requires Shape(s) && d < DIRS && NamedBy(s, d, f)
    ensures DirRefs(s, d, f) >= 1
  {
    var t := s.dir[d].frame;
    if t != f {
      var i :| 0 <= i < ENTRIES && Hit(s.table[t][i], f) == 1;
      TableRefsAtLeast(s.table[t], i, i, f);
    }
  }

  /** A frame with no references is named nowhere. */
  lemma NotNamed(s: Mem, f: nat)
    requires Shape(s) && Refs(s, f, TASK_DIRS, DIRS) == 0
    ensures forall d :: UserDir(d) ==> !NamedBy(s, d, f)
  {
    forall d | UserDir(d)
      ensures !NamedBy(s, d, f)
    {
      if NamedBy(s, d, f) {
        NamedIsCounted(s, d, f);
        RefsAtLeast(s, f, d, d, TASK_DIRS, DIRS);
      }
    }
  }

  /** A frame with one reference is named by at most one slot. */
  lemma NamedOnce(s: Mem, f: nat, d: nat)
    requires Shape(s) && Refs(s, f, TASK_DIRS, DIRS) <= 1 && UserDir(d) && NamedBy(s, d, f)
    ensures forall e :: UserDir(e) && e != d ==> !NamedBy(s, e, f)
    ensures Refs(s, f, TASK_DIRS, DIRS) == DirRefs(s, d, f) == 1
  {
    NamedIsCounted(s, d, f);
    RefsAtLeast(s, f, d, d, TASK_DIRS, DIRS);
    forall e | UserDir(e) && e != d
      ensures !NamedBy(s, e, f)
    {
      if NamedBy(s, e, f) {
        NamedIsCounted(s, e, f);
        RefsAtLeast(s, f, d, e, TASK_DIRS, DIRS);
      }
    }
  }

  /** Kernel-owned frames are not in any page table or directory slot. */
  lemma KernelFrame(s: Mem, k: set<nat>, f: nat)
    requires Inv(s, k) && f in k
    ensures forall d :: UserDir(d) ==> !NamedBy(s, d, f)
  {
    NotNamed(s, f);
  }

  /** A page table belongs to one slot and is never mapped. */
  lemma TableFrame(s: Mem, k: set<nat>, d: nat)
    requires Inv(s, k) && UserDir(d) && s.dir[d].Table?
    ensures s.dir[d].frame !in k
    ensures forall e :: UserDir(e) && e != d ==> !NamedBy(s, e, s.dir[d].frame)
    ensures forall i :: 0 <= i < ENTRIES ==> Hit(EntryAt(s, d, i), s.dir[d].frame) == 0
    ensures Refs(s, s.dir[d].frame, TASK_DIRS, DIRS) == 1 && DirRefs(s, d, s.dir[d].frame) == 1
  {
    var t := s.dir[d].frame;
    NamedOnce(s, t, d);
    forall i | 0 <= i < ENTRIES
      ensures Hit(EntryAt(s, d, i), t) == 0
    {
      if Hit(EntryAt(s, d, i), t) == 1 {
        TableRefsAtLeast(s.table[t], i, i, t);
      }
    }
  }

  /** Distinct slots have distinct tables, and no table lies in low memory. */
  lemma TablesDistinct(s: Mem, k: set<nat>)
    requires Inv(s, k)
    ensures forall d, e :: UserDir(d) && UserDir(e) && d != e && s.dir[d].Table? && s.dir[e].Table? ==>
              s.dir[d].frame != s.dir[e].frame
  {
    forall d, e | UserDir(d) && UserDir(e) && d != e && s.dir[d].Table? && s.dir[e].Table?
      ensures s.dir[d].frame != s.dir[e].frame
    {
      TableFrame(s, k, d);
      assert !NamedBy(s, e, s.dir[d].frame);
    }
  }

  /** The entry (d, i) is the only reference to f. */
  ghost predicate OnlyAt(s: Mem, d: nat, i: nat, f: nat)
    requires Shape(s)
  {
    && (forall e, j :: UserDir(e) && 0 <= j < ENTRIES && (e != d || j != i) ==> Hit(EntryAt(s, e, j), f) == 0)
    && (forall e :: UserDir(e) && s.dir[e].Table? ==> s.dir[e].frame != f)
  }

  lemma UnsharedEntry(s: Mem, k: set<nat>, d: nat, i: nat)
    requires Inv(s, k) && UserDir(d) && i < ENTRIES && EntryAt(s, d, i).Entry?
    requires High(EntryAt(s, d, i).frame) && Count(s, EntryAt(s, d, i).frame) == 1
    ensures OnlyAt(s, d, i, EntryAt(s, d, i).frame) && EntryAt(s, d, i).frame !in k
  {
    var f := EntryAt(s, d, i).frame;
    var t := s.dir[d].frame;
    assert Hit(s.table[t][i], f) == 1;
    NamedOnce(s, f, d);
    TableRefsAtLeast(s.table[t], i, i, f);
    assert t != f;
    forall e, j | UserDir(e) && 0 <= j < ENTRIES && (e != d || j != i)
      ensures Hit(EntryAt(s, e, j), f) == 0
    {
      if e != d {
        assert !NamedBy(s, e, f);
      } else if Hit(EntryAt(s, e, j), f) == 1 {
        TableRefsAtLeast(s.table[t], i, j, f);
      }
    }
    forall e | UserDir(e) && s.dir[e].Table?
      ensures s.dir[e].frame != f
    {
      assert e != d ==> !NamedBy(s, e, f);
    }
  }

  /** An entry that is present is counted, and its frame is neither a table nor kernel-owned. */
  lemma PresentEntry(s: Mem, k: set<nat>, d: nat, i: nat)
    requires Inv(s, k) && UserDir(d) && i < ENTRIES && EntryAt(s, d, i).Entry? && High(EntryAt(s, d, i).frame)
    ensures Count(s, EntryAt(s, d, i).frame) >= 1
    ensures EntryAt(s, d, i).frame !in k
    ensures forall e :: UserDir(e) && s.dir[e].Table? ==> s.dir[e].frame != EntryAt(s, d, i).frame
  {
    var f := EntryAt(s, d, i).frame;
    assert Hit(s.table[s.dir[d].frame][i], f) == 1;
    NamedIsCounted(s, d, f);
    RefsAtLeast(s, f, d, d, TASK_DIRS, DIRS);
    forall e | UserDir(e) && s.dir[e].Table?
      ensures s.dir[e].frame != f
    {
      if s.dir[e].frame == f {
        TableFrame(s, k, e);
      }
    }
  }
}

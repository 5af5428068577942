/** Two consequences of exact counts: no count outgrows the task table, and equal tables mean equal counts. */
module PageBounds {
  import opened PageModel
  import opened PageCounting

  lemma {:induction false} NoHits(t: seq<Entry>, f: nat)
    requires forall i :: 0 <= i < |t| ==> Hit(t[i], f) == 0
    ensures TableRefs(t, f) == 0
  {
    if t != [] {
      NoHits(t[..|t| - 1], f);
    }
  }

  lemma OneHit(t: seq<Entry>, f: nat, i: nat)
    requires i < |t| && forall j :: 0 <= j < |t| && j != i ==> Hit(t[j], f) == 0
    ensures TableRefs(t, f) <= 1
  {
    NoHits(t[i := Absent], f);
    TableRefsUpdate(t, i, Absent, f);
  }

  lemma {:induction false} RefsSplit(s: Mem, f: nat, lo: nat, mid: nat, hi: nat)
    requires Shape(s) && lo <= mid <= hi <= DIRS
    ensures Refs(s, f, lo, hi) == Refs(s, f, lo, mid) + Refs(s, f, mid, hi)
  {
    if mid < hi {
      RefsSplit(s, f, lo, mid, hi - 1);
    }
  }

  lemma {:induction false} RefsOfOne(s: Mem, f: nat, d: nat, lo: nat, hi: nat)
    requires Shape(s) && lo <= hi <= DIRS && d < DIRS && DirRefs(s, d, f) <= 1
    requires forall e :: lo <= e < hi && e != d ==> DirRefs(s, e, f) == 0
    ensures Refs(s, f, lo, hi) <= if lo <= d < hi then 1 else 0
  {
    if lo < hi {
      RefsOfOne(s, f, d, lo, hi - 1);
    }
  }

  /** A frame that is no page table is referenced at most once by each task. */
  lemma TaskRefs(s: Mem, f: nat, t: nat)
    requires Shape(s) && MappedOnce(s) && High(f) && 1 <= t < NR_TASKS
    requires forall d :: UserDir(d) && s.dir[d].Table? ==> s.dir[d].frame != f
    ensures Refs(s, f, TASK_DIRS * t, TASK_DIRS * t + TASK_DIRS) <= 1
  {
    var lo, hi := TASK_DIRS * t, TASK_DIRS * t + TASK_DIRS;
    if d, i :| lo <= d < hi && 0 <= i < ENTRIES && Hit(EntryAt(s, d, i), f) == 1 {
      forall e, j | lo <= e < hi && 0 <= j < ENTRIES && (e != d || j != i)
        ensures Hit(EntryAt(s, e, j), f) == 0
      {
        assert e / TASK_DIRS == d / TASK_DIRS;
        assert SameFrame(EntryAt(s, d, i), EntryAt(s, e, j)) ==> d == e && i == j;
      }
      var row := s.table[s.dir[d].frame];
      forall j | 0 <= j < ENTRIES && j != i
        ensures Hit(row[j], f) == 0
      {
        assert Hit(EntryAt(s, d, j), f) == 0;
      }
      OneHit(row, f, i);
      SlotsWithoutHits(s, f, lo, hi, d);
      RefsOfOne(s, f, d, lo, hi);
    } else {
      SlotsWithoutHits(s, f, lo, hi, 0);
      RefsOfOne(s, f, lo, lo, hi);
    }
  }

  lemma SlotsWithoutHits(s: Mem, f: nat, lo: nat, hi: nat, d: nat)
    requires Shape(s) && TASK_DIRS <= lo <= hi <= DIRS
    requires forall e :: UserDir(e) && s.dir[e].Table? ==> s.dir[e].frame != f
    requires forall e, j :: lo <= e < hi && e != d && 0 <= j < ENTRIES ==> Hit(EntryAt(s, e, j), f) == 0
    ensures forall e :: lo <= e < hi && e != d ==> DirRefs(s, e, f) == 0
  {
    forall e | lo <= e < hi && e != d
      ensures DirRefs(s, e, f) == 0
    {
      if s.dir[e].Table? {
        var row := s.table[s.dir[e].frame];
        forall j | 0 <= j < ENTRIES
          ensures Hit(row[j], f) == 0
        {
          assert Hit(EntryAt(s, e, j), f) == 0;
        }
        NoHits(row, f);
      }
    }
  }

  lemma {:induction false} TasksRefs(s: Mem, f: nat, n: nat)
    requires Shape(s) && MappedOnce(s) && High(f) && 1 <= n <= NR_TASKS
    requires forall d :: UserDir(d) && s.dir[d].Table? ==> s.dir[d].frame != f
    ensures Refs(s, f, TASK_DIRS, TASK_DIRS * n) <= n - 1
  {
    if n > 1 {
      TasksRefs(s, f, n - 1);
      TaskRefs(s, f, n - 1);
      RefsSplit(s, f, TASK_DIRS, TASK_DIRS * (n - 1), TASK_DIRS * n);
    }
  }

  /** mem_map holds 16-bit counters; none ever passes the number of tasks. */
  lemma CountsBounded(s: Mem, k: set<nat>, f: nat)
    requires Inv(s, k) && High(f)
    ensures Count(s, f) <= NR_TASKS - 1
  {
    if f !in k && forall d :: UserDir(d) && s.dir[d].Table? ==> s.dir[d].frame != f {
      TasksRefs(s, f, NR_TASKS);
    }
  }

  // ----- equal tables, equal counts -------------------------------------------

  lemma {:induction false} SameTableRefs(t: seq<Entry>, u: seq<Entry>, f: nat)
    requires |t| == |u| && forall i :: 0 <= i < |t| ==> Hit(t[i], f) == Hit(u[i], f)
    ensures TableRefs(t, f) == TableRefs(u, f)
  {
    if t != [] {
      SameTableRefs(t[..|t| - 1], u[..|u| - 1], f);
    }
  }

  /** If every slot has the same table and every entry names the same frame, mem_map is the same array. */
  lemma SameTablesSameCounts(s: Mem, r: Mem, k: set<nat>)
    requires Inv(s, k) && Inv(r, k) && forall d :: UserDir(d) ==> r.dir[d] == s.dir[d]
    requires forall d, i, f :: UserDir(d) && 0 <= i < ENTRIES && High(f) ==>
              Hit(EntryAt(r, d, i), f) == Hit(EntryAt(s, d, i), f)
    ensures r.count == s.count
  {
    forall f | High(f)
      ensures Count(r, f) == Count(s, f)
    {
      forall d | UserDir(d)
        ensures DirRefs(r, d, f) == DirRefs(s, d, f)
      {
        if s.dir[d].Table? {
          var t := s.dir[d].frame;
          forall i | 0 <= i < ENTRIES
            ensures Hit(s.table[t][i], f) == Hit(r.table[t][i], f)
          {
            assert Hit(EntryAt(r, d, i), f) == Hit(EntryAt(s, d, i), f);
          }
          SameTableRefs(s.table[t], r.table[t], f);
        }
      }
      RefsChange(s, r, f, 0, TASK_DIRS, DIRS);
    }
    forall j | 0 <= j < PAGING_PAGES
      ensures r.count[j] == s.count[j]
    {
      assert Count(r, j + LOW_FRAMES) == Count(s, j + LOW_FRAMES);
    }
  }
}

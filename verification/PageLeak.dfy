/**
  A run in which do_no_page loses a frame: one task fills memory until a single
  frame is free and then touches a page whose page table is missing.  The frame
  for the page is taken, none is left for the table, and the task dies with the
  frame neither mapped nor free.
 */
module PageLeak {
  import opened PageModel
  import opened PageFree
  import opened TaskMemory
  import E = EagerCopy

  /** Task 1 has no pages from page g on. */
  ghost predicate UntouchedFrom(v: E.Eager, g: nat)
    requires E.Shaped(v)
  {
    forall h :: g <= h < 0x4000 ==> Untouched(v, h)
  }

  ghost predicate Untouched(v: E.Eager, h: nat)
    requires E.Shaped(v) && h < 0x4000
  {
    E.PageAt(v, 1, h).Unmapped?
  }

  /** Slot j of task 1. */
  predicate HasTable(dir: seq<DirEntry>, j: nat)
    requires |dir| == DIRS && j < 16
  {
    dir[16 + j].Table?
  }

  /** Task 1 has accessed its pages 0 to g - 1 and nothing else, and no frame is lost yet. */
  ghost predicate Filling(w: World, g: nat) {
    && Shape(w.mem) && SafeEntries(w.mem) && |w.task| == NR_TASKS && w.task[1].Live? && w.task[1].limit == TASK_SIZE
    && w.lost == {} && UntouchedFrom(View(w.mem), g)
    && forall j :: 0 <= j < 16 ==> (HasTable(w.mem.dir, j) <==> 1024 * j < g)
  }

  /** The next page costs a frame, and the first of a slot one more. */
  lemma NextCost(w: World, g: nat, h: nat)
    requires Filling(w, g) && g <= h < 0x4000
    ensures Cost(w.mem, E.Dir(1, h), h % ENTRIES, false) == 1 + NewTables(w.mem.dir[16 + h / 1024])
    ensures E.Dir(1, h) == 16 + h / 1024
    ensures NewTables(w.mem.dir[16 + h / 1024]) == if 1024 * (h / 1024) < g then 0 else 1
  {
    assert Untouched(View(w.mem), h);
    assert HasTable(w.mem.dir, h / 1024) <==> 1024 * (h / 1024) < g;
    assert View(w.mem).pages[E.Dir(1, h)][h % ENTRIES] == ViewAt(w.mem, E.Dir(1, h), h % ENTRIES);
  }

  lemma StillUntouched(v: E.Eager, g: nat, x: Byte)
    requires E.Shaped(v) && g < 0x4000 && UntouchedFrom(v, g) && E.Legal(v, E.Loaded(1, g, 0, x))
    ensures UntouchedFrom(E.Apply(v, E.Loaded(1, g, 0, x)), g + 1)
  {
    var w := E.Apply(v, E.Loaded(1, g, 0, x));
    forall h | g + 1 <= h < 0x4000
      ensures Untouched(w, h)
    {
      assert Untouched(v, h);
      assert E.ShapedRow(v.pages[E.Dir(1, g)]);
    }
  }

  lemma FillStep(w: World, r: World, g: nat, x: Byte)
    requires Filling(w, g) && g < 0x4000 && Shape(r.mem) && SafeEntries(r.mem) && Settled(w, r, 1, g, false, true)
    requires E.Legal(View(w.mem), E.Loaded(1, g, 0, x)) && View(r.mem) == E.Apply(View(w.mem), E.Loaded(1, g, 0, x))
    requires !LosesFrame(w.mem, E.Dir(1, g))
    ensures Filling(r, g + 1)
  {
    StillUntouched(View(w.mem), g, x);
    assert |r.lost| == 0;
    forall j | 0 <= j < 16
      ensures HasTable(r.mem.dir, j) <==> 1024 * j < g + 1
    {
      assert HasTable(w.mem.dir, j) <==> 1024 * j < g;
      assert E.Dir(1, g) == 16 + g / 1024;
    }
  }

  /** One more page, while there are frames for it. */
  method TouchNext(k: Kernel, g: nat)
    requires k.Valid() && Filling(k.Now(), g) && g < 0x4000 && Free(k.mem.memMap[..]) >= 2
    modifies k.Parts()
    ensures k.Valid() && Filling(k.Now(), g + 1)
    ensures Free(k.mem.memMap[..]) == Free(old(k.mem.memMap[..])) - if g % 1024 == 0 then 2 else 1
  {
    ghost var w := k.Now();
    NextCost(w, g, g);
    var e := k.Load(1, g, 0);
    FillStep(w, k.Now(), g, e.value);
  }

  lemma ClearedUntouched(v: E.Eager)
    requires E.Shaped(v)
    ensures UntouchedFrom(E.ClearTask(v, 1), 0)
  {
    var w := E.ClearTask(v, 1);
    forall h | 0 <= h < 0x4000
      ensures Untouched(w, h)
    {
      assert E.Dir(1, h) / TASK_DIRS == 1;
      assert w.pages[E.Dir(1, h)] == E.ClearRow(v, 1, E.Dir(1, h));
    }
  }

  /** From boot: task 0 forks task 1. */
  method ForkFirst(contents: seq<Page>) returns (k: Kernel)
    requires |contents| == FRAMES
    ensures fresh(k) && fresh(k.Parts()) && k.Valid() && k.task[1].Live? && k.lost == {}
    ensures Free(k.mem.memMap[..]) >= 1534
  {
    k := new Kernel.Boot(contents);
    TablesAtMost(k.mem.pgDir[..], 0, 1);
    assert k.task[..][1].NoTask?;
    var e := k.Fork(0);
    assert e.child == 1;
  }

  /** It execs a small program. */
  method Begin(contents: seq<Page>) returns (k: Kernel)
    requires |contents| == FRAMES
    ensures fresh(k) && fresh(k.Parts()) && k.Valid() && Filling(k.Now(), 0)
    ensures 1534 <= Free(k.mem.memMap[..]) <= 1536
  {
    k := ForkFirst(contents);
    ghost var v := k.Seen();
    k.Exec(1, 0);
    ClearedUntouched(v);
    FreeAtMost(k.mem.memMap[..]);
    Cleared(k.mem.pgDir[..]);
  }

  lemma Cleared(dir: seq<DirEntry>)
    requires |dir| == DIRS && forall d :: UserDir(d) && d / TASK_DIRS == 1 ==> dir[d].NoTable?
    ensures forall j :: 0 <= j < 16 ==> !HasTable(dir, j)
  {
    forall j | 0 <= j < 16
      ensures !HasTable(dir, j)
    {
      assert UserDir(16 + j) && (16 + j) / TASK_DIRS == 1;
    }
  }

  /** What the first g pages take: their frames and those of their tables. */
  function Taken(g: nat): nat { g + (g + 1023) / 1024 }

  lemma TakenNext(g: nat)
    ensures Taken(g + 1) == Taken(g) + if g % 1024 == 0 then 2 else 1
  {
  }

  lemma TakenBounds(g: nat)
    ensures 1533 <= Taken(g) <= 1535 ==> 1024 < g <= 2048
    ensures g % 1024 == 0 && Taken(g) <= 1535 ==> Taken(g) <= 1025
  {
  }

  /** The task goes on page by page until one frame is left. */
  method FillUp(k: Kernel) returns (g: nat)
    requires k.Valid() && Filling(k.Now(), 0) && 1534 <= Free(k.mem.memMap[..]) <= 1536
    modifies k.Parts()
    ensures k.Valid() && Filling(k.Now(), g) && Free(k.mem.memMap[..]) == 1 && 1024 < g <= 2048
  {
    g := 0;
    var n := k.mem.CalcMem();
    ghost var n0 := n;
    while n > 1
      invariant k.Valid() && Filling(k.Now(), g) && n == Free(k.mem.memMap[..]) >= 1
      invariant n + Taken(g) == n0
      decreases n
    {
      TakenNext(g);
      TakenBounds(g);
      TouchNext(k, g);
      n := k.mem.CalcMem();
      g := g + 1;
    }
    TakenBounds(g);
  }

  /** Then one access to a slot without a table loses the last frame. */
  method LoseAFrame(contents: seq<Page>) returns (k: Kernel)
    requires |contents| == FRAMES
    ensures fresh(k) && k.Valid() && |k.lost| == 1
  {
    k := Begin(contents);
    var g := FillUp(k);
    NextCost(k.Now(), g, 2048);
    var e := k.Load(1, 2048, 0);
  }
}

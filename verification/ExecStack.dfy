/**
  The argument area of a new program (fs/exec.c): copy_strings fills pages from
  the top down, change_ldt maps them at the end of the data segment, and
  create_tables builds the pointer tables below the strings.  Strings are
  sequences of non-zero bytes.

  page[p / 4096][p % 4096] is bytes[p]: the pages are distinct fresh
  frames, so one array of 32 pages stands for them.  `free` is the number of
  frames that get_free_page can still hand out.
 */
module ExecStack {

  const MAX_ARG_PAGES: nat := 32
  const AREA: nat := 0x20000
  const TOP: nat := 0x1fffc
  const DATA_LIMIT: nat := 0x4000000
  const WORD: nat := 0x1_0000_0000

  function PageOf(p: nat): nat { p / 4096 }

  type Text = seq<nat>

  predicate NulFree(s: Text) { forall i :: 0 <= i < |s| ==> 0 < s[i] < 256 }

  predicate AllNulFree(ss: seq<Text>) { forall k :: 0 <= k < |ss| ==> NulFree(ss[k]) }

  /** The strings one after another, each with its NUL. */
  function Layout(ss: seq<Text>): Text {
    if ss == [] then [] else ss[0] + [0] + Layout(ss[1..])
  }

  lemma {:induction false} LayoutJoin(a: seq<Text>, b: seq<Text>)
    ensures Layout(a + b) == Layout(a) + Layout(b)
  {
    if a == [] {
      assert a + b == b;
    } else {
      assert (a + b)[1..] == a[1..] + b;
      LayoutJoin(a[1..], b);
    }
  }

  /** Where string k begins. */
  function Offset(ss: seq<Text>, k: nat): nat
    requires k <= |ss|
  {
    |Layout(ss[..k])|
  }

  lemma LayoutAt(ss: seq<Text>, k: nat)
    requires k < |ss|
    ensures Layout(ss) == Layout(ss[..k]) + (ss[k] + [0] + Layout(ss[k + 1..]))
    ensures Offset(ss, k + 1) == Offset(ss, k) + |ss[k]| + 1 <= |Layout(ss)|
  {
    assert ss == ss[..k] + ss[k..] && ss[k..][1..] == ss[k + 1..];
    LayoutJoin(ss[..k], ss[k..]);
    assert ss[..k + 1] == ss[..k] + [ss[k]];
    LayoutJoin(ss[..k], [ss[k]]);
    assert Layout([ss[k]]) == ss[k] + [0] + [];
  }

  // ----- memory ---------------------------------------------------------------

  /** The bytes from a up to before b, the lowest first. */
  function Bytes(m: seq<nat>, a: nat, b: nat): nat
    requires a <= b <= |m|
    decreases b - a
  {
    if a == b then 0 else m[a] + 0x100 * Bytes(m, a + 1, b)
  }

  /** get_fs_long. */
  function Long(m: seq<nat>, a: nat): nat
    requires a + 4 <= |m|
  {
    Bytes(m, a, a + 4)
  }

  lemma LowestByteFirst(m: seq<nat>, a: nat)
    requires a + 4 <= |m|
    ensures Long(m, a) == m[a] + 0x100 * m[a + 1] + 0x10000 * m[a + 2] + 0x1000000 * m[a + 3]
  {
    var b := a + 4;
    assert Bytes(m, a + 3, b) == m[a + 3] + 0x100 * Bytes(m, b, b);
    assert Bytes(m, a + 2, b) == m[a + 2] + 0x100 * Bytes(m, a + 3, b);
    assert Bytes(m, a + 1, b) == m[a + 1] + 0x100 * Bytes(m, a + 2, b);
  }

  /** put_fs_long. */
  function Stored(m: seq<nat>, v: nat, a: nat): (r: seq<nat>)
    requires a + 4 <= |m|
    ensures |r| == |m|
  {
    m[a := v % 0x100][a + 1 := v / 0x100 % 0x100][a + 2 := v / 0x10000 % 0x100][a + 3 := v / 0x1000000 % 0x100]
  }

  lemma LongStored(m: seq<nat>, v: nat, a: nat)
    requires a + 4 <= |m| && v < WORD
    ensures Long(Stored(m, v, a), a) == v
  {
    var r := Stored(m, v, a);
    var b := a + 4;
    assert Bytes(r, a + 3, b) == v / 0x1000000 % 0x100;
    assert Bytes(r, a + 2, b) == v / 0x10000 % 0x100 + 0x100 * Bytes(r, a + 3, b);
    assert Bytes(r, a + 1, b) == v / 0x100 % 0x100 + 0x100 * Bytes(r, a + 2, b);
    Digits(v);
  }

  lemma Digits(v: nat)
    requires v < WORD
    ensures v % 0x100 + 0x100 * (v / 0x100 % 0x100 + 0x100 * (v / 0x10000 % 0x100 + 0x100 * (v / 0x1000000 % 0x100)))
              == v
  {
  }

  lemma {:induction false} BytesSame(m: seq<nat>, r: seq<nat>, a: nat, b: nat)
    requires |r| == |m| && a <= b <= |m| && forall i :: a <= i < b ==> r[i] == m[i]
    ensures Bytes(r, a, b) == Bytes(m, a, b)
    decreases b - a
  {
    if a < b {
      BytesSame(m, r, a + 1, b);
    }
  }

  lemma StoredElsewhere(m: seq<nat>, v: nat, a: nat, b: nat)
    requires a + 4 <= |m| && b + 4 <= |m| && (b + 4 <= a || a + 4 <= b)
    ensures Long(Stored(m, v, a), b) == Long(m, b)
  {
    BytesSame(m, Stored(m, v, a), b, b + 4);
  }

  /** Entry k of a pointer table. */
  function Entry(m: seq<nat>, table: nat, k: nat): nat
    requires table + 4 * k + 4 <= |m|
  {
    Long(m, table + 4 * k)
  }

  /** l stands in m from address p on. */
  predicate StandsAt(m: seq<nat>, p: nat, l: seq<nat>) {
    p + |l| <= |m| && forall x :: p <= x < p + |l| ==> m[x] == l[x - p]
  }

  /** What is read at a, up to the first NUL, is s. */
  predicate ReadsBack(m: seq<nat>, a: nat, s: Text) { StandsAt(m, a, s + [0]) }

  predicate HasLayout(m: seq<nat>, p: nat, ss: seq<Text>) { StandsAt(m, p, Layout(ss)) }

  lemma PartStands(m: seq<nat>, p: nat, a: seq<nat>, b: seq<nat>, c: seq<nat>)
    requires StandsAt(m, p, a + (b + c))
    ensures StandsAt(m, p, a) && StandsAt(m, p + |a|, b)
  {
    var l := a + (b + c);
    forall x | p <= x < p + |a|
      ensures m[x] == a[x - p]
    {
      assert m[x] == l[x - p];
    }
    forall x | p + |a| <= x < p + |a| + |b|
      ensures m[x] == b[x - (p + |a|)]
    {
      assert m[x] == l[x - p];
    }
  }

  lemma LayoutReadsBack(m: seq<nat>, p: nat, ss: seq<Text>, k: nat)
    requires HasLayout(m, p, ss) && k < |ss|
    ensures ReadsBack(m, p + Offset(ss, k), ss[k])
  {
    LayoutAt(ss, k);
    PartStands(m, p, Layout(ss[..k]), ss[k] + [0], Layout(ss[k + 1..]));
  }

  predicate HeaderOk(m: seq<nat>, sp: nat, argc: nat, argTable: nat, envTable: nat) {
    sp + 12 <= |m| && Long(m, sp) == argc && Long(m, sp + 4) == argTable && Long(m, sp + 8) == envTable
  }

  /** The finished stack: argc, argv and envp at sp, then both tables, and the strings at p and above. */
  predicate Image(m: seq<nat>, sp: nat, p: nat, argv: seq<Text>, envp: seq<Text>) {
    && sp % 4 == 0 && sp + 12 + 4 * (|argv| + 1) + 4 * (|envp| + 1) <= p
    && StackOk(m, sp, sp + 12, sp + 12 + 4 * (|argv| + 1), p, argv, envp)
  }

  predicate StackOk(m: seq<nat>, sp: nat, argTable: nat, envTable: nat, p: nat, argv: seq<Text>, envp: seq<Text>) {
    && argTable + 4 * (|argv| + 1) <= |m| && envTable + 4 * (|envp| + 1) <= |m|
    && HeaderOk(m, sp, |argv|, argTable, envTable)
    && TableOk(m, argTable, argv, 0, p) && TableOk(m, envTable, envp, 0, p)
  }

  /** From entry k on: entry k reads back string k, from p or above, and a null pointer ends the table. */
  predicate TableOk(m: seq<nat>, table: nat, ss: seq<Text>, k: nat, p: nat)
    requires k <= |ss| && table + 4 * (|ss| + 1) <= |m|
    decreases |ss| - k
  {
    if k == |ss| then Entry(m, table, k) == 0
    else Entry(m, table, k) >= p && ReadsBack(m, Entry(m, table, k), ss[k]) && TableOk(m, table, ss, k + 1, p)
  }

  // ----- copy_strings ---------------------------------------------------------

  /** A string stands in the data segment of the caller. */
  predicate Given(ss: seq<Text>) { forall k :: 0 <= k < |ss| ==> NulFree(ss[k]) && |ss[k]| < DATA_LIMIT }

  /** The lowest page in use when the strings begin at p. */
  function Lowest(p: nat): nat { if p == TOP then MAX_ARG_PAGES else PageOf(p) }

  /**
    What becomes of copying: the place of the lowest byte and the frames left; no
    frame for a page; a store to a page of the table that is not there, at which
    the code panics; or a store below address zero, for which it looks up a page
    far outside the table.
   */
  datatype Copy = Done(p: nat, free: nat) | NoFrame | NoPage | BelowZero

  lemma LowestFalls(q: nat, p: nat)
    requires q <= p <= TOP
    ensures Lowest(q) <= Lowest(p) <= MAX_ARG_PAGES
  {
  }

  /** One string of len bytes, with its NUL, below p. */
  function CopyOne(len: nat, p: nat, free: nat): (c: Copy)
    requires p <= TOP
    ensures c.Done? ==> c.p <= p
  {
    if len > p then if Lowest(p) > 0 then NoPage else BelowZero
    else
      LowestFalls(p - len, p);
      var pages := Lowest(p) - Lowest(p - len);
      if pages > free then NoFrame else Done(p - len, free - pages)
  }

  /** copy_strings goes from the last string to the first. */
  function CopyAll(ss: seq<Text>, p: nat, free: nat): (c: Copy)
    requires p <= TOP
    ensures c.Done? ==> c.p <= p
    decreases |ss|
  {
    if ss == [] then Done(p, free)
    else
      var c := CopyOne(|ss[|ss| - 1]| + 1, p, free);
      if c.Done? then CopyAll(ss[..|ss| - 1], c.p, c.free) else c
  }

  lemma LayoutLast(ss: seq<Text>)
    requires ss != []
    ensures |Layout(ss)| == |Layout(ss[..|ss| - 1])| + |ss[|ss| - 1]| + 1
  {
    LayoutAt(ss, |ss| - 1);
    assert ss[|ss|..] == [];
  }

  lemma OneMore(ss: seq<Text>, k: nat, p: nat, free: nat)
    requires k < |ss| && p <= TOP
    ensures var c := CopyOne(|ss[k]| + 1, p, free);
            CopyAll(ss[..k + 1], p, free) == if c.Done? then CopyAll(ss[..k], c.p, c.free) else c
  {
    assert ss[..k + 1][..k] == ss[..k];
  }

  /** Exactly when all strings are copied: if and only if they fit and there are frames for their pages. */
  lemma {:induction false} CopiedIff(ss: seq<Text>, p: nat, free: nat)
    requires p <= TOP
    ensures var n := |Layout(ss)|;
            && (CopyAll(ss, p, free).Done? <==> n <= p && Lowest(p) - Lowest(p - n) <= free)
            && (CopyAll(ss, p, free).Done? ==> CopyAll(ss, p, free) == Done(p - n, free - (Lowest(p) - Lowest(p - n))))
    decreases |ss|
  {
    if ss != [] {
      LayoutLast(ss);
      var n, len := |Layout(ss)|, |ss[|ss| - 1]| + 1;
      if len <= p {
        LowestFalls(p - len, p);
        if n <= p {
          LowestFalls(p - n, p - len);
        }
        if Lowest(p) - Lowest(p - len) <= free {
          CopiedIff(ss[..|ss| - 1], p - len, free - (Lowest(p) - Lowest(p - len)));
        }
      }
    }
  }

  /** How many pages are allocated. */
  function Held(page: seq<bool>): nat {
    if page == [] then 0 else Held(page[..|page| - 1]) + if page[|page| - 1] then 1 else 0
  }

  lemma {:induction false} HeldOneMore(page: seq<bool>, i: nat)
    requires i < |page| && !page[i]
    ensures Held(page[i := true]) == Held(page) + 1
  {
    var n := |page| - 1;
    if i < n {
      assert page[i := true][..n] == page[..n][i := true];
      HeldOneMore(page[..n], i);
    } else {
      assert page[i := true][..n] == page[..n];
    }
  }

  lemma {:induction false} HeldNone(page: seq<bool>)
    requires forall i :: 0 <= i < |page| ==> !page[i]
    ensures Held(page) == 0
  {
    if page != [] {
      HeldNone(page[..|page| - 1]);
    }
  }

  class Loader {
    var page: array<bool>
    var bytes: array<nat>
    var user: seq<nat>
    var free: nat

    predicate Sized()
      reads this
    {
      page.Length == MAX_ARG_PAGES && bytes.Length == AREA
    }

    /** Exactly the pages from the one with the last string on are allocated. */
    ghost predicate Ready(p: nat)
      reads this, page
    {
      && Sized() && p <= TOP
      && forall i :: 0 <= i < MAX_ARG_PAGES ==> (page[i] <==> i >= Lowest(p))
    }

    /** All frames of the pool: those that are free and those that became pages. */
    ghost function Frames(): nat
      reads this, page
    {
      free + Held(page[..])
    }

    /** do_execve with no pages yet. */
    constructor (frames: nat)
      ensures Ready(TOP) && fresh(page) && fresh(bytes) && free == frames
    {
      page := new bool[MAX_ARG_PAGES](_ => false);
      bytes := new nat[AREA](_ => 0);
      user := [];
      free := frames;
    }

    /** get_free_page for page i: a cleared page. */
    method NewPage(i: nat) returns (ok: bool)
      requires i < MAX_ARG_PAGES && Sized() && !page[i]
      modifies page, bytes, this`free
      ensures ok == (old(free) > 0) && Frames() == old(Frames())
      ensures free == if ok then old(free) - 1 else 0
      ensures forall j :: 0 <= j < MAX_ARG_PAGES ==> page[j] == (old(page[j]) || (ok && j == i))
      ensures forall k :: 4096 * (i + 1) <= k < AREA ==> bytes[k] == old(bytes[k])
    {
      ok := free > 0;
      if ok {
        HeldOneMore(page[..], i);
        ghost var was := page[..];
        page[i] := true;
        forall k | 4096 * i <= k < 4096 * (i + 1) {
          bytes[k] := 0;
        }
        free := free - 1;
        assert page[..] == was[i := true];
      }
    }

    /** The loop that allocates the pages from `first`, the one with byte q, up to those that are there. */
    method Reserve(first: nat, ghost q: nat, ghost p: nat) returns (ok: bool)
      requires Ready(p) && q < p && first == PageOf(q)
      modifies page, bytes, this`free
      ensures Sized() && Frames() == old(Frames()) && ok == (Lowest(p) - Lowest(q) <= old(free))
      ensures ok ==> Ready(q) && free == old(free) - (Lowest(p) - Lowest(q)) && bytes[p..TOP] == old(bytes[p..TOP])
      ensures !ok ==> free == 0
    {
      LowestFalls(q, p);
      var i := first;
      while i < MAX_ARG_PAGES && !page[i]
        invariant first <= i <= Lowest(p) && Frames() == old(Frames()) && free == old(free) - (i - first)
        invariant forall j :: 0 <= j < MAX_ARG_PAGES ==> (page[j] <==> first <= j < i || j >= Lowest(p))
        invariant forall k :: p <= k < TOP ==> bytes[k] == old(bytes[k])
      {
        ok := NewPage(i);
        if !ok {
          return;
        }
        i := i + 1;
      }
      ok := true;
    }

    /** One string of copy_strings: its length, its pages, its bytes from the last to the first. */
    method CopyString(s: Text, p: nat) returns (c: Copy)
      requires Sized() && p <= TOP && (p > 0 ==> Ready(p)) && NulFree(s) && |s| < DATA_LIMIT
      modifies page, bytes, this`free
      ensures Sized() && Frames() == old(Frames()) && c == CopyOne(|s| + 1, p, old(free))
      ensures c.Done? ==> Ready(c.p) && free == c.free && bytes[c.p..TOP] == s + [0] + old(bytes[p..TOP])
      ensures c.NoFrame? ==> free == 0
    {
      var text := s + [0];
      var len := 1;
      while text[len - 1] != 0
        invariant 1 <= len <= |text|
        decreases |text| - len
      {
        len := len + 1;
      }
      assert len == |text|;
      // p - len is unsigned, so the test for a negative difference never fires
      var first := PageOf((p - len) % WORD);
      if first < MAX_ARG_PAGES {
        var ok := Reserve(first, p - len, p);
        if !ok {
          return NoFrame;
        }
      }
      c := CopyBytes(text, p);
    }

    /** Down from p; the pages are there as long as the bytes fit, and then down to the first one that is not. */
    method CopyBytes(text: Text, p: nat) returns (c: Copy)
      requires Sized() && p <= TOP && 0 < |text| <= DATA_LIMIT
      requires if |text| <= p then Ready(p - |text|) else p > 0 ==> Ready(p)
      modifies bytes
      ensures c == if |text| <= p then Done(p - |text|, free) else if Lowest(p) > 0 then NoPage else BelowZero
      ensures |text| <= p ==> bytes[p - |text|..TOP] == text + old(bytes[p..TOP])
    {
      var q, len, tmp := p, |text|, |text|;
      while len > 0
        invariant 0 <= len == tmp <= |text| && q == p - |text| + len && 0 <= q
        invariant |text| > p > q ==> PageOf(q) >= Lowest(p)
        invariant forall k :: q <= k < p ==> bytes[k] == text[k - (p - |text|)]
        invariant forall k :: p <= k < TOP ==> bytes[k] == old(bytes[p..TOP])[k - p]
      {
        var down := (q - 1) % WORD;
        if |text| <= p {
          PagesRise(p - |text|, q - 1);
        }
        if PageOf(down) >= MAX_ARG_PAGES {
          return BelowZero;
        }
        if !page[PageOf(down)] {
          return NoPage;
        }
        q := q - 1;
        tmp := tmp - 1;
        bytes[q] := text[tmp];
        len := len - 1;
      }
      c := Done(q, free);
    }

    /** copy_strings.  NoFrame is the result 0 of the code, which is also the place of strings that fill the area. */
    method CopyStrings(ss: seq<Text>, p: nat) returns (c: Copy)
      requires Sized() && p <= TOP && (p > 0 ==> Ready(p)) && Given(ss)
      modifies page, bytes, this`free
      ensures Sized() && Frames() == old(Frames()) && c == CopyAll(ss, p, old(free))
      ensures c.Done? && (ss != [] || p > 0) ==> Ready(c.p)
      ensures c.Done? ==>
                free == c.free && c.p == p - |Layout(ss)| && bytes[c.p..TOP] == Layout(ss) + old(bytes[p..TOP])
      ensures c.NoFrame? ==> free == 0
    {
      ghost var rest := bytes[p..TOP];
      var argc := |ss|;
      c := Done(p, free);
      assert ss[..argc] == ss;
      while argc > 0
        invariant 0 <= argc <= |ss| && Sized() && Frames() == old(Frames()) && c.Done? && free == c.free && c.p <= TOP
        invariant (c.p > 0 || argc < |ss| ==> Ready(c.p)) && c.p == p - |Layout(ss[argc..])|
        invariant bytes[c.p..TOP] == Layout(ss[argc..]) + rest
        invariant CopyAll(ss[..argc], c.p, c.free) == CopyAll(ss, p, old(free))
      {
        argc := argc - 1;
        Suffix(ss, argc, rest);
        OneMore(ss, argc, c.p, c.free);
        c := CopyString(ss[argc], c.p);
        if !c.Done? {
          return;
        }
      }
      assert ss[0..] == ss;
    }

    // ----- change_ldt and create_tables ---------------------------------------

    /** The pages are mapped at the end of an otherwise empty data segment, which reads as zero. */
    method ChangeLdt(ghost q: nat)
      requires Ready(q)
      modifies this`user
      ensures |user| == DATA_LIMIT && user[q + SHIFT..DATA_LIMIT - 4] == bytes[q..TOP]
    {
      user := seq(DATA_LIMIT, _ => 0);
      var i, base := MAX_ARG_PAGES, DATA_LIMIT;
      while i > 0
        invariant 0 <= i <= MAX_ARG_PAGES && base == SHIFT + 4096 * i && |user| == DATA_LIMIT
        invariant forall k :: base <= k < DATA_LIMIT && q <= k - SHIFT < TOP ==> user[k] == bytes[k - SHIFT]
      {
        i := i - 1;
        base := base - 4096;
        if page[i] {
          user := user[..base] + bytes[4096 * i..4096 * (i + 1)] + user[base + 4096..];
        }
      }
    }

    /** while (get_fs_byte(p++)). */
    method SkipString(a: nat, ghost s: Text) returns (b: nat)
      requires ReadsBack(user, a, s) && NulFree(s)
      ensures b == a + |s| + 1
    {
      b := a;
      ghost var n := 0;
      while user[b] != 0
        invariant b == a + n && 0 <= n <= |s|
        decreases |s| - n
      {
        assert user[b] == (s + [0])[b - a];
        b := b + 1;
        n := n + 1;
      }
      assert user[b] == (s + [0])[b - a];
      b := b + 1;
    }

    /** The loop that fills one pointer table while it walks over the strings at p. */
    method PutPointers(p: nat, table: nat, count: nat, ghost ss: seq<Text>, ghost low: nat) returns (next: nat)
      requires AllNulFree(ss) && count == |ss| && HasLayout(user, p, ss) && |user| <= DATA_LIMIT
      requires table + 4 * (|ss| + 1) <= low <= p
      modifies this`user
      ensures next == p + |Layout(ss)| && SameOutside(old(user), user, table, table + 4 * (|ss| + 1))
      ensures TableOk(user, table, ss, 0, low)
    {
      next := p;
      var k := 0;
      while k < count
        invariant 0 <= k <= count && next == p + Offset(ss, k)
        invariant SameOutside(old(user), user, table, table + 4 * (|ss| + 1))
        invariant PointsAt(user, table, ss, p, k)
      {
        OneEntry(old(user), user, table, ss, p, k);
        user := Stored(user, next, table + 4 * k);
        LayoutReadsBack(user, p, ss, k);
        LayoutAt(ss, k);
        next := SkipString(next, ss[k]);
        k := k + 1;
      }
      assert ss[..k] == ss;
      NullEntry(old(user), user, table, ss, p);
      user := Stored(user, 0, table + 4 * k);
      TableReads(user, table, ss, p, 0, low);
    }

    /** The three values pushed below the tables, from `top` down. */
    method PutHeader(top: nat, argc: nat, argTable: nat, envTable: nat) returns (sp: nat)
      requires 12 <= top <= |user| && argc < WORD && argTable < WORD && envTable < WORD
      modifies this`user
      ensures sp == top - 12 && HeaderOk(user, sp, argc, argTable, envTable)
      ensures SameFrom(old(user), user, top)
    {
      HeaderStored(user, top - 12, argc, argTable, envTable);
      sp := top - 4;
      user := Stored(user, envTable, sp);
      sp := sp - 4;
      user := Stored(user, argTable, sp);
      sp := sp - 4;
      user := Stored(user, argc, sp);
    }

    /** create_tables: `p` is where the strings begin. */
    method CreateTables(p: nat, argc: nat, envc: nat, ghost argv: seq<Text>, ghost envp: seq<Text>) returns (sp: nat)
      requires AllNulFree(argv) && AllNulFree(envp) && argc == |argv| && envc == |envp|
      requires HasLayout(user, p, argv + envp) && |user| <= DATA_LIMIT && 4 * (argc + envc + 6) <= p
      modifies this`user
      ensures |user| == |old(user)| && Image(user, sp, p, argv, envp)
    {
      sp := p - p % 4;
      sp := sp - 4 * (envc + 1);
      var envTable := sp;
      sp := sp - 4 * (argc + 1);
      var argTable := sp;
      ghost var m := user;
      Aligned(p, argc + envc + 5);
      sp := PutHeader(sp, argc, argTable, envTable);
      BothLaidOut(m, user, argTable, p, argv, envp);
      PutTables(p, sp, argTable, envTable, argc, envc, argv, envp);
    }

    method PutTables(p: nat, sp: nat, argTable: nat, envTable: nat, argc: nat, envc: nat,
            ghost argv: seq<Text>, ghost envp: seq<Text>)
      requires AllNulFree(argv) && AllNulFree(envp) && argc == |argv| && envc == |envp| && |user| <= DATA_LIMIT
      requires HasLayout(user, p, argv) && HasLayout(user, p + |Layout(argv)|, envp)
      requires argTable == sp + 12 && envTable == argTable + 4 * (argc + 1) && envTable + 4 * (envc + 1) <= p
      requires HeaderOk(user, sp, argc, argTable, envTable)
      modifies this`user
      ensures |user| == |old(user)| && StackOk(user, sp, argTable, envTable, p, argv, envp)
    {
      ghost var m0 := user;
      var next := PutPointers(p, argTable, argc, argv, p);
      ghost var m1 := user;
      HeaderKept(m0, m1, sp, argTable, argc, argTable, envTable);
      StillLaidOut(m0, m1, envTable, next, envp);
      next := PutPointers(next, envTable, envc, envp, p);
      HeaderKept(m1, user, sp, envTable, argc, argTable, envTable);
      TableOkKept(m1, user, argTable, argv, 0, p, envTable, envTable + 4 * (envc + 1));
    }

    /** Every page goes back; free_page ignores the pages that are not there. */
    method FreePages()
      requires Sized()
      modifies this`free
      ensures free == old(Frames())
    {
      var i := 0;
      while i < MAX_ARG_PAGES
        invariant 0 <= i <= MAX_ARG_PAGES && free == old(free) + Held(page[..i])
      {
        assert page[..i + 1] == page[..i] + [page[i]];
        if page[i] {
          free := free + 1;
        }
        i := i + 1;
      }
      assert page[..i] == page[..];
    }

    /**
      The strings of a new program in do_execve: from the two lists of strings
      to the stack it finds, or to the caller with every frame given back.
     */
    method SetUp(argv: seq<Text>, envp: seq<Text>) returns (r: Result, sp: nat, p: nat)
      requires Ready(TOP) && Given(argv) && Given(envp)
      modifies this`user, page, bytes, this`free
      ensures r == Outcome(argv, envp, old(free))
      ensures r.Started? ==> |user| == DATA_LIMIT && p <= DATA_LIMIT - 4 && Image(user, sp, p, argv, envp)
      ensures r.Refused? ==> user == old(user) && free == old(free)
    {
      HeldNone(page[..]);
      sp, p := 0, 0;
      var c := CopyStrings(envp, TOP);
      if c.NoPage? || c.BelowZero? {
        return if c.NoPage? then Panics else Astray, 0, 0;
      }
      assert bytes[TOP..TOP] == [];
      ghost var first := c;
      p := if c.Done? then c.p else 0;
      c := CopyStrings(argv, p);
      if c.NoPage? || c.BelowZero? {
        return if c.NoPage? then Panics else Astray, 0, 0;
      }
      p := if c.Done? then c.p else 0;
      if p == 0 {
        FreePages();
        return Refused, 0, 0;
      }
      sp, p := Arrange(p, argv, envp);
      r := Started;
    }

    /** The new data segment and its tables. */
    method Arrange(q: nat, argv: seq<Text>, envp: seq<Text>) returns (sp: nat, p: nat)
      requires Ready(q) && Given(argv) && Given(envp) && bytes[q..TOP] == Layout(argv) + Layout(envp)
      modifies this`user
      ensures |user| == DATA_LIMIT && p <= DATA_LIMIT - 4 && Image(user, sp, p, argv, envp)
    {
      LayoutJoin(argv, envp);
      ghost var strings := bytes[q..TOP];
      ChangeLdt(q);
      StringsBound(argv);
      StringsBound(envp);
      p := q + SHIFT;
      assert StandsAt(user, p, strings);
      sp := CreateTables(p, |argv|, |envp|, argv, envp);
    }
  }

  /** Astray: the code stores through whatever stands where page[0xfffff] would be, and need not stop. */
  datatype Result = Started | Refused | Panics | Astray

  /** The second call of copy_strings and the test that covers both. */
  function Second(argv: seq<Text>, p: nat, free: nat): Result
    requires p <= TOP
  {
    match CopyAll(argv, p, free)
    case NoPage => Panics
    case BelowZero => Astray
    case NoFrame => Refused
    case Done(q, _) => if q == 0 then Refused else Started
  }

  /** A first call that found no frame hands 0 to the second. */
  function Outcome(argv: seq<Text>, envp: seq<Text>, free: nat): Result {
    match CopyAll(envp, TOP, free)
    case NoPage => Panics
    case BelowZero => Astray
    case NoFrame => Second(argv, 0, 0)
    case Done(p, left) => Second(argv, p, left)
  }

  // ----- exactly what becomes of exec -------------------------------------------

  /** The bytes of the strings from k on, which are copied before string k - 1. */
  function Size(ss: seq<Text>, k: nat): nat
    requires k <= |ss|
  {
    |Layout(ss[k..])|
  }

  lemma SizeFalls(ss: seq<Text>, a: nat, b: nat)
    requires a <= b <= |ss|
    ensures Size(ss, b) <= Size(ss, a) && (a == |ss| ==> Size(ss, a) == 0) && Size(ss, 0) == |Layout(ss)|
  {
    assert ss[a..] == ss[a..b] + ss[b..] && ss[0..] == ss;
    LayoutJoin(ss[a..b], ss[b..]);
  }

  /** The strings from k on fit below p, and the pages they need are more than `free`. */
  predicate Short(ss: seq<Text>, p: nat, free: nat, k: nat) {
    k <= |ss| && Size(ss, k) <= p <= TOP && Lowest(p) - Lowest(p - Size(ss, k)) > free
  }

  /** The strings from k on fit and have their pages, and string k - 1 is the one that does not fit. */
  predicate Overflows(ss: seq<Text>, p: nat, free: nat, k: nat) {
    && 1 <= k <= |ss| && Size(ss, k) <= p < Size(ss, k - 1) && p <= TOP
    && Lowest(p) - Lowest(p - Size(ss, k)) <= free
  }

  /** The lowest page that is there when string k - 1 is found too long. */
  function LowestHeld(ss: seq<Text>, p: nat, k: nat): nat
    requires k <= |ss| && Size(ss, k) <= p
  {
    Lowest(p - Size(ss, k))
  }

  lemma Peeled(ss: seq<Text>, k: nat)
    requires k < |ss|
    ensures Size(ss, k) == Size(ss[..|ss| - 1], k) + |ss[|ss| - 1]| + 1 && Size(ss, |ss|) == 0
  {
    var last := |ss| - 1;
    assert ss[k..] == ss[..last][k..] + [ss[last]];
    LayoutJoin(ss[..last][k..], [ss[last]]);
    assert Layout([ss[last]]) == ss[last] + [0] + [];
  }

  /** What holds of the strings before the last one, from where the last one is copied, holds of all of them. */
  lemma Shifted(ss: seq<Text>, p: nat, free: nat, k: nat)
    requires ss != [] && p <= TOP && CopyOne(|ss[|ss| - 1]| + 1, p, free).Done?
    ensures var before, c := ss[..|ss| - 1], CopyOne(|ss[|ss| - 1]| + 1, p, free);
            && (Short(before, c.p, c.free, k) ==> Short(ss, p, free, k))
            && (Overflows(before, c.p, c.free, k) ==>
                  Overflows(ss, p, free, k) && LowestHeld(ss, p, k) == LowestHeld(before, c.p, k))
  {
    if k < |ss| {
      Peeled(ss, k);
      if k > 0 {
        Peeled(ss, k - 1);
      }
    }
  }

  /** Each way in which copying can stop comes with the string at which it does. */
  lemma {:induction false} StopsAt(ss: seq<Text>, p: nat, free: nat) returns (k: nat)
    requires p <= TOP
    ensures var c := CopyAll(ss, p, free);
            && (c.NoFrame? ==> Short(ss, p, free, k))
            && (c.NoPage? ==> Overflows(ss, p, free, k) && LowestHeld(ss, p, k) > 0)
            && (c.BelowZero? ==> Overflows(ss, p, free, k) && LowestHeld(ss, p, k) == 0)
    decreases |ss|
  {
    k := 0;
    if ss != [] {
      var last := |ss| - 1;
      var c := CopyOne(|ss[last]| + 1, p, free);
      if c.Done? {
        k := StopsAt(ss[..last], c.p, c.free);
        Shifted(ss, p, free, k);
      } else {
        Peeled(ss, last);
        SizeFalls(ss[..last], last, last);
        k := if c.NoFrame? then last else |ss|;
      }
    }
  }

  /** And each of these strings stops it in that way. */
  lemma CopyIff(ss: seq<Text>, p: nat, free: nat)
    requires p <= TOP
    ensures CopyAll(ss, p, free).NoFrame? <==> exists k: nat :: Short(ss, p, free, k)
    ensures CopyAll(ss, p, free).NoPage? <==>
            exists k: nat :: Overflows(ss, p, free, k) && LowestHeld(ss, p, k) > 0
    ensures CopyAll(ss, p, free).BelowZero? <==>
            exists k: nat :: Overflows(ss, p, free, k) && LowestHeld(ss, p, k) == 0
  {
    var k := StopsAt(ss, p, free);
    forall j: nat | Short(ss, p, free, j)
      ensures CopyAll(ss, p, free).NoFrame?
    {
      ShortStops(ss, p, free, j);
      NotBoth(ss, p, free, j, k);
    }
    forall j: nat | Overflows(ss, p, free, j)
      ensures CopyAll(ss, p, free).NoPage? <==> LowestHeld(ss, p, j) > 0
      ensures CopyAll(ss, p, free).BelowZero? <==> LowestHeld(ss, p, j) == 0
    {
      OverflowStops(ss, p, free, j);
      if Short(ss, p, free, k) {
        NotBoth(ss, p, free, k, j);
      } else {
        OneOverflow(ss, p, free, j, k);
      }
    }
  }

  lemma ShortStops(ss: seq<Text>, p: nat, free: nat, j: nat)
    requires Short(ss, p, free, j)
    ensures !CopyAll(ss, p, free).Done?
  {
    CopiedIff(ss, p, free);
    SizeFalls(ss, 0, j);
    if |Layout(ss)| <= p {
      LowestFalls(p - |Layout(ss)|, p - Size(ss, j));
    }
  }

  lemma OverflowStops(ss: seq<Text>, p: nat, free: nat, j: nat)
    requires Overflows(ss, p, free, j)
    ensures !CopyAll(ss, p, free).Done?
  {
    CopiedIff(ss, p, free);
    SizeFalls(ss, 0, j - 1);
  }

  lemma NotBoth(ss: seq<Text>, p: nat, free: nat, j: nat, k: nat)
    requires Short(ss, p, free, j)
    ensures !Overflows(ss, p, free, k)
  {
    if j < k <= |ss| {
      SizeFalls(ss, j, k - 1);
    } else if k <= j {
      SizeFalls(ss, k, j);
      if Size(ss, k) <= p {
        LowestFalls(p - Size(ss, k), p - Size(ss, j));
      }
    }
  }

  lemma OneOverflow(ss: seq<Text>, p: nat, free: nat, j: nat, k: nat)
    requires Overflows(ss, p, free, j) && Overflows(ss, p, free, k)
    ensures j == k
  {
    if j < k {
      SizeFalls(ss, j, k - 1);
    } else if k < j {
      SizeFalls(ss, k, j - 1);
    }
  }

  /** Both calls together copy the one list of arguments and environment, if the first finds its frames. */
  lemma {:induction false} CopyJoin(a: seq<Text>, b: seq<Text>, p: nat, free: nat)
    requires p <= TOP
    ensures var c := CopyAll(b, p, free);
            CopyAll(a + b, p, free) == if c.Done? then CopyAll(a, c.p, c.free) else c
    decreases |b|
  {
    if b == [] {
      assert a + b == a;
    } else {
      var last := |b| - 1;
      assert (a + b)[|a + b| - 1] == b[last] && (a + b)[..|a + b| - 1] == a + b[..last];
      var c := CopyOne(|b[last]| + 1, p, free);
      if c.Done? {
        CopyJoin(a, b[..last], c.p, c.free);
      }
    }
  }

  lemma OutcomeIs(argv: seq<Text>, envp: seq<Text>, free: nat)
    ensures var c := CopyAll(argv + envp, TOP, free);
            Outcome(argv, envp, free) ==
              match c
              case NoPage => Panics
              case BelowZero => Astray
              case NoFrame => if argv != [] && CopyAll(envp, TOP, free).NoFrame? then Astray else Refused
              case Done(q, _) => if q == 0 then Refused else Started
  {
    CopyJoin(argv, envp, TOP, free);
  }

  /**
    Exec starts the program if and only if the strings fit with a byte to spare
    and there is a frame for every page.
   */
  lemma StartedIff(argv: seq<Text>, envp: seq<Text>, free: nat)
    ensures var n := |Layout(argv)| + |Layout(envp)|;
            Outcome(argv, envp, free) == Started <==> n < TOP && MAX_ARG_PAGES - Lowest(TOP - n) <= free
  {
    OutcomeIs(argv, envp, free);
    LayoutJoin(argv, envp);
    CopiedIff(argv + envp, TOP, free);
  }

  /**
    Exactly when exec panics: if and only if a string does not fit, the ones
    behind it have their pages, and page 0 of the table is not among these.  The
    test that is meant to refuse such strings is on an unsigned difference and
    never fires.
   */
  lemma PanicsIff(argv: seq<Text>, envp: seq<Text>, free: nat)
    ensures Outcome(argv, envp, free) == Panics <==>
            exists k: nat :: Overflows(argv + envp, TOP, free, k) && LowestHeld(argv + envp, TOP, k) > 0
  {
    OutcomeIs(argv, envp, free);
    CopyIff(argv + envp, TOP, free);
  }

  /**
    Exactly when exec goes on outside its table of pages: if and only if a string
    does not fit when page 0 is in use, or memory runs out for the environment
    and there is an argument; then 0 is taken for the address to go on from.
   */
  lemma AstrayIff(argv: seq<Text>, envp: seq<Text>, free: nat)
    ensures Outcome(argv, envp, free) == Astray <==>
            || (exists k: nat :: Overflows(argv + envp, TOP, free, k) && LowestHeld(argv + envp, TOP, k) == 0)
            || (argv != [] && exists k: nat :: Short(envp, TOP, free, k))
  {
    OutcomeIs(argv, envp, free);
    CopyIff(argv + envp, TOP, free);
    CopyIff(envp, TOP, free);
    CopyJoin(argv, envp, TOP, free);
  }

  /**
    With a frame for every page, exec never returns to the caller for strings
    that are too long, only for those that fill the area to the last byte, whose
    address is taken for an error.
   */
  lemma RefusedIff(argv: seq<Text>, envp: seq<Text>, free: nat)
    requires free >= MAX_ARG_PAGES
    ensures var n := |Layout(argv)| + |Layout(envp)|;
            && (Outcome(argv, envp, free) == Refused <==> n == TOP)
            && (Outcome(argv, envp, free) in {Panics, Astray} <==> n > TOP)
  {
    OutcomeIs(argv, envp, free);
    LayoutJoin(argv, envp);
    CopiedIff(argv + envp, TOP, free);
    CopyIff(argv + envp, TOP, free);
  }

  const SHIFT: nat := 0x3fe0000

  lemma Aligned(p: nat, n: nat)
    requires 4 * n <= p - p % 4
    ensures (p - p % 4 - 4 * n) % 4 == 0
  {
    assert p - p % 4 - 4 * n == 4 * (p / 4 - n);
  }

  predicate SameBelow(m: seq<nat>, r: seq<nat>, low: nat) {
    low <= |m| && |r| == |m| && forall i :: 0 <= i < low ==> r[i] == m[i]
  }

  predicate SameFrom(m: seq<nat>, r: seq<nat>, high: nat) {
    high <= |m| && |r| == |m| && forall i :: high <= i < |m| ==> r[i] == m[i]
  }

  predicate SameOutside(m: seq<nat>, r: seq<nat>, low: nat, high: nat) {
    low <= high <= |m| && SameBelow(m, r, low) && SameFrom(m, r, high)
  }

  /** The first n entries of the table point at the strings laid out from p. */
  predicate PointsAt(m: seq<nat>, table: nat, ss: seq<Text>, p: nat, n: nat) {
    n <= |ss| && table + 4 * n <= |m| && forall k :: 0 <= k < n ==> Entry(m, table, k) == p + Offset(ss, k)
  }

  lemma StillLaidOut(m: seq<nat>, r: seq<nat>, high: nat, p: nat, ss: seq<Text>)
    requires HasLayout(m, p, ss) && high <= p && SameFrom(m, r, high)
    ensures HasLayout(r, p, ss)
  {
  }

  /** Storing entry k. */
  lemma OneEntry(old_: seq<nat>, m: seq<nat>, table: nat, ss: seq<Text>, p: nat, k: nat)
    requires k < |ss| && HasLayout(old_, p, ss) && |m| <= DATA_LIMIT && table + 4 * (|ss| + 1) <= p
    requires SameOutside(old_, m, table, table + 4 * (|ss| + 1)) && PointsAt(m, table, ss, p, k)
    ensures var r := Stored(m, p + Offset(ss, k), table + 4 * k);
            && SameOutside(old_, r, table, table + 4 * (|ss| + 1)) && PointsAt(r, table, ss, p, k + 1)
                 && HasLayout(r, p, ss)
  {
    LayoutAt(ss, k);
    var r := Stored(m, p + Offset(ss, k), table + 4 * k);
    LongStored(m, p + Offset(ss, k), table + 4 * k);
    forall j | 0 <= j < k + 1
      ensures Entry(r, table, j) == p + Offset(ss, j)
    {
      if j < k {
        assert Entry(m, table, j) == p + Offset(ss, j);
        StoredElsewhere(m, p + Offset(ss, k), table + 4 * k, table + 4 * j);
      }
    }
    StillSame(old_, m, p + Offset(ss, k), table, table + 4 * k, table + 4 * (|ss| + 1));
    StillLaidOut(old_, r, table + 4 * (|ss| + 1), p, ss);
  }

  lemma NullEntry(old_: seq<nat>, m: seq<nat>, table: nat, ss: seq<Text>, p: nat)
    requires HasLayout(old_, p, ss) && |m| <= DATA_LIMIT && table + 4 * (|ss| + 1) <= p
    requires SameOutside(old_, m, table, table + 4 * (|ss| + 1)) && PointsAt(m, table, ss, p, |ss|)
    ensures var r := Stored(m, 0, table + 4 * |ss|);
            && SameOutside(old_, r, table, table + 4 * (|ss| + 1)) && HasTable(r, table, ss, p) && HasLayout(r, p, ss)
  {
    var r := Stored(m, 0, table + 4 * |ss|);
    LongStored(m, 0, table + 4 * |ss|);
    forall j | 0 <= j < |ss|
      ensures Entry(r, table, j) == p + Offset(ss, j)
    {
      assert Entry(m, table, j) == p + Offset(ss, j);
      StoredElsewhere(m, 0, table + 4 * |ss|, table + 4 * j);
    }
    StillSame(old_, m, 0, table, table + 4 * |ss|, table + 4 * (|ss| + 1));
    StillLaidOut(old_, r, table + 4 * (|ss| + 1), p, ss);
  }

  lemma StillSame(old_: seq<nat>, m: seq<nat>, v: nat, low: nat, a: nat, high: nat)
    requires SameOutside(old_, m, low, high) && low <= a && a + 4 <= high
    ensures SameOutside(old_, Stored(m, v, a), low, high)
  {
  }

  /** The two lists of strings, after something below them changed. */
  lemma BothLaidOut(m: seq<nat>, r: seq<nat>, high: nat, p: nat, a: seq<Text>, b: seq<Text>)
    requires HasLayout(m, p, a + b) && high <= p && SameFrom(m, r, high)
    ensures HasLayout(r, p, a) && HasLayout(r, p + |Layout(a)|, b)
  {
    StillLaidOut(m, r, high, p, a + b);
    LayoutJoin(a, b);
    assert Layout(b) + [] == Layout(b);
    PartStands(r, p, Layout(a), Layout(b), []);
  }

  predicate HasTable(m: seq<nat>, table: nat, ss: seq<Text>, p: nat) {
    table + 4 * |ss| + 4 <= |m| && PointsAt(m, table, ss, p, |ss|) && Entry(m, table, |ss|) == 0
  }

  lemma HeaderStored(m: seq<nat>, sp: nat, argc: nat, argTable: nat, envTable: nat)
    requires sp + 12 <= |m| && argc < WORD && argTable < WORD && envTable < WORD
    ensures var r := Stored(Stored(Stored(m, envTable, sp + 8), argTable, sp + 4), argc, sp);
            HeaderOk(r, sp, argc, argTable, envTable) && SameFrom(m, r, sp + 12)
  {
    var a := Stored(m, envTable, sp + 8);
    var b := Stored(a, argTable, sp + 4);
    LongStored(m, envTable, sp + 8);
    LongStored(a, argTable, sp + 4);
    LongStored(b, argc, sp);
    StoredElsewhere(a, argTable, sp + 4, sp + 8);
    StoredElsewhere(b, argc, sp, sp + 8);
    StoredElsewhere(b, argc, sp, sp + 4);
  }

  lemma LongKept(m: seq<nat>, r: seq<nat>, low: nat, a: nat)
    requires SameBelow(m, r, low) && a + 4 <= low
    ensures Long(r, a) == Long(m, a)
  {
    BytesSame(m, r, a, a + 4);
  }

  lemma HeaderKept(m: seq<nat>, r: seq<nat>, sp: nat, low: nat, argc: nat, argTable: nat, envTable: nat)
    requires SameBelow(m, r, low) && sp + 12 <= low && HeaderOk(m, sp, argc, argTable, envTable)
    ensures HeaderOk(r, sp, argc, argTable, envTable)
  {
    LongKept(m, r, low, sp);
    LongKept(m, r, low, sp + 4);
    LongKept(m, r, low, sp + 8);
  }

  /** A finished table survives what is written between it and its strings. */
  lemma {:induction false} TableOkKept(m: seq<nat>, r: seq<nat>, table: nat, ss: seq<Text>, k: nat,
          p: nat, low: nat, high: nat)
    requires k <= |ss| && table + 4 * (|ss| + 1) <= |m| && TableOk(m, table, ss, k, p)
    requires table + 4 * (|ss| + 1) <= low && high <= p && SameBelow(m, r, low) && SameFrom(m, r, high)
    ensures TableOk(r, table, ss, k, p)
    decreases |ss| - k
  {
    LongKept(m, r, low, table + 4 * k);
    if k < |ss| {
      assert StandsAt(r, Entry(m, table, k), ss[k] + [0]);
      TableOkKept(m, r, table, ss, k + 1, p, low, high);
    }
  }

  lemma {:induction false} TableReads(m: seq<nat>, table: nat, ss: seq<Text>, p: nat, k: nat, strings: nat)
    requires table + 4 * (|ss| + 1) <= |m| && HasLayout(m, p, ss) && strings <= p && k <= |ss|
    requires HasTable(m, table, ss, p)
    ensures TableOk(m, table, ss, k, strings)
    decreases |ss| - k
  {
    if k < |ss| {
      assert Entry(m, table, k) == p + Offset(ss, k);
      LayoutReadsBack(m, p, ss, k);
      TableReads(m, table, ss, p, k + 1, strings);
    }
  }

  lemma {:induction false} StringsBound(ss: seq<Text>)
    ensures |ss| <= |Layout(ss)|
  {
    if ss != [] {
      StringsBound(ss[1..]);
    }
  }

  lemma PagesRise(a: nat, b: nat)
    requires a <= b < TOP
    ensures PageOf(a) <= PageOf(b) < MAX_ARG_PAGES
  {
  }

  lemma Suffix(ss: seq<Text>, k: nat, rest: Text)
    requires k < |ss|
    ensures |Layout(ss[k..])| <= |Layout(ss)| && |Layout(ss[k..])| == |ss[k]| + 1 + |Layout(ss[k + 1..])|
    ensures ss[k] + [0] + (Layout(ss[k + 1..]) + rest) == Layout(ss[k..]) + rest
  {
    assert ss == ss[..k] + ss[k..] && ss[k..][1..] == ss[k + 1..];
    LayoutJoin(ss[..k], ss[k..]);
  }
}

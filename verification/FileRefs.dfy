/**
  The inode references of the machine of FileMachine.dfy: what each call is handed
  and what it puts.  A reference is owned as long as its file is in use, which is
  as long as some open descriptor names the file.
 */
module FileRefs {
  import opened OpenFiles
  import opened FileMachine

  // ----- owning, getting and putting ------------------------------------------

  ghost function Used(v: View): (r: seq<bool>)
    requires ViewOk(v)
    ensures |r| == NR_FILE && forall f :: 0 <= f < NR_FILE ==> r[f] == InUse(v, f)
  {
    seq(NR_FILE, f => InUse(v, f))
  }

  /** One inode reference for each file in use. */
  ghost function Owned(v: View): multiset<nat>
    requires ViewOk(v)
  {
    Inodes(v.inode, Used(v))
  }

  function Minus(r: seq<bool>, q: seq<bool>): (d: seq<bool>)
    requires |r| == |q|
    ensures |d| == |r|
  {
    seq(|r|, f requires 0 <= f < |r| => r[f] && !q[f])
  }

  /** The inodes of the files in r that are not in q. */
  function Lost(inode: seq<nat>, r: seq<bool>, q: seq<bool>): multiset<nat>
    requires |inode| == |r| == |q|
  {
    Inodes(inode, Minus(r, q))
  }

  /** What the table is handed by open_namei or get_pipe_inode; the pipe's two files get a reference each. */
  function Gets(c: Call): multiset<nat> {
    match c
    case OpenEnd(_, _, Found(ino)) => multiset{ino}
    case PipeEnd(_, _, _, Found(ino)) => multiset{ino} + multiset{ino}
    case _ => multiset{}
  }

  /** The inode of each file whose last open descriptor goes. */
  ghost function Dropped(v: View, c: Call): multiset<nat>
    requires ViewOk(v) && Possible(v, c)
  {
    EffectOk(v, c);
    Lost(v.inode, Used(v), Used(Effect(v, c).0))
  }

  /** The inode that a reserved file had before, if it had one: do_exit takes it for that of the file. */
  function Stale(v: View, c: Call): multiset<nat>
    requires ViewOk(v) && Possible(v, c)
  {
    if Steals(v, c) then multiset{v.inode[v.filp[c.t][c.fd]]} else multiset{}
  }

  /** The call puts an inode reference that the table does not own. */
  predicate Steals(v: View, c: Call)
    requires ViewOk(v) && Possible(v, c)
  {
    c.Die? && v.inode[v.filp[c.t][c.fd]] != 0
  }

  /** The arguments of all calls of iput. */
  ghost function Puts(v: View, c: Call): multiset<nat>
    requires ViewOk(v) && Possible(v, c)
  {
    match c
    case Close(_, _) => Dropped(v, c)
    case Dup2(_, _, _) => Dropped(v, c)
    case Exit(_) => Dropped(v, c)
    case Die(_, _) => Dropped(v, c) + Stale(v, c)
    case _ => multiset{}
  }

  // ----- what becomes of the files in use --------------------------------------

  /** A file that is being opened is named by one descriptor. */
  ghost predicate Reserved(v: View)
    requires ViewOk(v)
  {
    forall t, d, u, e ::
      0 <= t < NR_TASKS && d in v.opening[t] && 0 <= u < NR_TASKS && 0 <= e < NR_OPEN ==>
        v.filp[u][e] != v.filp[t][d] || (u == t && e == d)
  }

  predicate Below(q: seq<bool>, r: seq<bool>) { |q| == |r| && forall f :: 0 <= f < |r| && q[f] ==> r[f] }

  lemma {:induction false} LostSplit(inode: seq<nat>, r: seq<bool>, q: seq<bool>)
    requires |inode| == |r| && Below(q, r)
    ensures Inodes(inode, r) == Inodes(inode, q) + Lost(inode, r, q)
  {
    if inode != [] {
      var n := |inode| - 1;
      assert Minus(r, q)[..n] == Minus(r[..n], q[..n]);
      InodesLast(inode, r, n);
      InodesLast(inode, q, n);
      InodesLast(inode, Minus(r, q), n);
      LostSplit(inode[..n], r[..n], q[..n]);
      assert One(inode[n], r[n]) == One(inode[n], q[n]) + One(inode[n], Minus(r, q)[n]);
    }
  }

  /** The step from r to q loses what the steps from r to m and from m to q lose. */
  lemma LostTrans(inode: seq<nat>, r: seq<bool>, m: seq<bool>, q: seq<bool>)
    requires |inode| == |r| && Below(m, r) && Below(q, m)
    ensures Below(q, r) && Lost(inode, r, q) == Lost(inode, r, m) + Lost(inode, m, q)
  {
    assert Minus(Minus(r, q), Minus(m, q)) == Minus(r, m);
    LostSplit(inode, Minus(r, q), Minus(m, q));
  }

  lemma LostNone(inode: seq<nat>, r: seq<bool>)
    requires |inode| == |r|
    ensures Lost(inode, r, r) == multiset{}
  {
    NothingHeld(inode, Minus(r, r));
  }

  lemma LostOne(inode: seq<nat>, r: seq<bool>, f: nat)
    requires |inode| == |r| && f < |r| && r[f]
    ensures Below(r[f := false], r) && Lost(inode, r, r[f := false]) == multiset{inode[f]}
  {
    var none := seq(|r|, _ => false);
    assert Minus(r, r[f := false]) == none[f := true] && inode[f := inode[f]] == inode;
    NothingHeld(inode, none);
    GetOne(inode, none, f, inode[f]);
    assert multiset{} + multiset{inode[f]} == multiset{inode[f]};
  }

  lemma GetOne(inode: seq<nat>, r: seq<bool>, f: nat, ino: nat)
    requires |inode| == |r| && f < |r| && !r[f]
    ensures Inodes(inode[f := ino], r[f := true]) == Inodes(inode, r) + multiset{ino}
  {
    InodeChanges(inode, r, f, ino, true);
    var x := Inodes(inode[f := ino], r[f := true]);
    assert x + multiset{} == x;
  }

  // ----- where a descriptor's file comes from -----------------------------------

  /** What a descriptor names after a call: what it did, nothing, a reserved file, or what another descriptor named. */
  predicate Comes(v: View, c: Call, w: View, t: nat, d: nat)
    requires ViewOk(v) && Possible(v, c) && ViewOk(w) && t < NR_TASKS && d < NR_OPEN
  {
    || w.filp[t][d] == v.filp[t][d]
    || w.filp[t][d] == -1
    || ((c.OpenStart? || c.PipeStart?) && t == c.t && d in w.opening[t])
    || (c.Dup? && c.fd < NR_OPEN && w.filp[t][d] == v.filp[c.t][c.fd])
    || (c.Dup2? && c.oldfd < NR_OPEN && w.filp[t][d] == v.filp[c.t][c.oldfd])
    || (c.Fork? && w.filp[t][d] == v.filp[c.t][d])
  }

  lemma Origin(v: View, c: Call, t: nat, d: nat)
    requires ViewOk(v) && Possible(v, c) && t < NR_TASKS && d < NR_OPEN
    ensures ViewOk(Effect(v, c).0) && Comes(v, c, Effect(v, c).0, t, d)
  {
    EffectOk(v, c);
    match c
    case OpenStart(_) => StartOrigin(v, c, t, d);
    case PipeStart(_) => StartOrigin(v, c, t, d);
    case OpenEnd(_, _, _) => EndOrigin(v, c, t, d);
    case PipeEnd(_, _, _, _) => EndOrigin(v, c, t, d);
    case _ => OtherOrigin(v, c, t, d);
  }

  lemma StartOrigin(v: View, c: Call, t: nat, d: nat)
    requires ViewOk(v) && Possible(v, c) && t < NR_TASKS && d < NR_OPEN && (c.OpenStart? || c.PipeStart?)
    requires ViewOk(Effect(v, c).0)
    ensures Comes(v, c, Effect(v, c).0, t, d)
  {
  }

  lemma EndOrigin(v: View, c: Call, t: nat, d: nat)
    requires ViewOk(v) && Possible(v, c) && t < NR_TASKS && d < NR_OPEN && (c.OpenEnd? || c.PipeEnd?)
    requires ViewOk(Effect(v, c).0)
    ensures Comes(v, c, Effect(v, c).0, t, d)
  {
  }

  lemma OtherOrigin(v: View, c: Call, t: nat, d: nat)
    requires ViewOk(v) && Possible(v, c) && t < NR_TASKS && d < NR_OPEN && ViewOk(Effect(v, c).0)
    requires !c.OpenStart? && !c.PipeStart? && !c.OpenEnd? && !c.PipeEnd?
    ensures Comes(v, c, Effect(v, c).0, t, d)
  {
  }

  /** Only open and pipe reserve. */
  lemma OpeningShrinks(v: View, c: Call, t: nat)
    requires ViewOk(v) && Possible(v, c) && t < NR_TASKS && !c.OpenStart? && !c.PipeStart?
    ensures |Effect(v, c).0.opening| == NR_TASKS && Effect(v, c).0.opening[t] == if t == c.t then {} else v.opening[t]
  {
  }

  /** Calls that close nothing and open nothing leave the same files in use. */
  lemma SameUse(v: View, c: Call)
    requires ViewOk(v) && Reserved(v) && Possible(v, c)
    requires c.OpenStart? || c.PipeStart? || c.Dup? || c.Fork? || ((c.OpenEnd? || c.PipeEnd?) && c.result.Failed?)
    ensures ViewOk(Effect(v, c).0) && Used(Effect(v, c).0) == Used(v)
  {
    EffectOk(v, c);
    var w := Effect(v, c).0;
    forall f | 0 <= f < NR_FILE
      ensures InUse(w, f) == InUse(v, f)
    {
      StillInUse(v, c, f);
      NotNewInUse(v, c, f);
    }
  }

  lemma StillInUse(v: View, c: Call, f: nat)
    requires ViewOk(v) && Possible(v, c) && ViewOk(Effect(v, c).0)
    requires c.OpenStart? || c.PipeStart? || c.Dup? || c.Fork? || ((c.OpenEnd? || c.PipeEnd?) && c.result.Failed?)
    ensures InUse(v, f) ==> InUse(Effect(v, c).0, f)
  {
    var w := Effect(v, c).0;
    if InUse(v, f) && f < NR_FILE {
      var t, d :| 0 <= t < NR_TASKS && 0 <= d < NR_OPEN && v.filp[t][d] == f && d !in v.opening[t];
      assert w.filp[t][d] == f && d !in w.opening[t];
    }
  }

  lemma NotNewInUse(v: View, c: Call, f: nat)
    requires ViewOk(v) && Possible(v, c) && ViewOk(Effect(v, c).0)
    requires c.OpenStart? || c.PipeStart? || c.Dup? || c.Fork? || ((c.OpenEnd? || c.PipeEnd?) && c.result.Failed?)
    ensures InUse(Effect(v, c).0, f) ==> InUse(v, f)
  {
    var w := Effect(v, c).0;
    if InUse(w, f) {
      var t, d :| 0 <= t < NR_TASKS && 0 <= d < NR_OPEN && w.filp[t][d] == f && d !in w.opening[t];
      NamedBefore(v, c, t, d);
    }
  }

  /** What an open descriptor names after a call that opens no file was in use before. */
  lemma NamedBefore(v: View, c: Call, t: nat, d: nat)
    requires ViewOk(v) && Possible(v, c) && t < NR_TASKS && d < NR_OPEN && ViewOk(Effect(v, c).0)
    requires d !in Effect(v, c).0.opening[t] && Effect(v, c).0.filp[t][d] >= 0
    requires !((c.OpenEnd? || c.PipeEnd?) && c.result.Found?)
    ensures InUse(v, Effect(v, c).0.filp[t][d])
  {
    var w := Effect(v, c).0;
    Origin(v, c, t, d);
    if w.filp[t][d] == v.filp[t][d] {
      if d in v.opening[t] {
        ClosedWhenOver(v, c, t, d);
      }
    } else if c.Dup? {
      assert c.fd !in v.opening[c.t];
    } else if c.Dup2? {
      assert c.oldfd !in v.opening[c.t];
    } else if c.Fork? {
      assert d !in v.opening[c.t];
    }
  }

  /** A reservation ends with its descriptor cleared, or with an inode. */
  lemma ClosedWhenOver(v: View, c: Call, t: nat, d: nat)
    requires ViewOk(v) && Possible(v, c) && t < NR_TASKS && d in v.opening[t] && ViewOk(Effect(v, c).0)
    requires d !in Effect(v, c).0.opening[t] && !((c.OpenEnd? || c.PipeEnd?) && c.result.Found?)
    ensures d < NR_OPEN && Effect(v, c).0.filp[t][d] == -1
  {
  }

  /** Calls that close descriptors bring no file into use. */
  lemma LessUse(v: View, c: Call)
    requires ViewOk(v) && Possible(v, c) && (c.Close? || c.Dup2? || c.Exit? || c.Die?)
    ensures ViewOk(Effect(v, c).0) && Below(Used(Effect(v, c).0), Used(v))
  {
    EffectOk(v, c);
    var w := Effect(v, c).0;
    forall f | 0 <= f < NR_FILE && InUse(w, f)
      ensures InUse(v, f)
    {
      var t, d :| 0 <= t < NR_TASKS && 0 <= d < NR_OPEN && w.filp[t][d] == f && d !in w.opening[t];
      NamedBefore(v, c, t, d);
    }
  }

  lemma NotInUse(v: View, t: nat, d: nat)
    requires ViewOk(v) && Reserved(v) && t < NR_TASKS && d in v.opening[t]
    ensures d < NR_OPEN && 0 <= v.filp[t][d] < NR_FILE && !InUse(v, v.filp[t][d])
  {
  }

  /** One reserved file gets its inode. */
  function WithInode(v: View, t: nat, d: nat, ino: nat): (w: View)
    requires ViewOk(v) && t < NR_TASKS && d in v.opening[t]
    ensures ViewOk(w)
  {
    View(v.filp, v.inode[v.filp[t][d] := ino], v.opening[t := v.opening[t] - {d}])
  }

  /** It comes into use, with the reference. */
  lemma CommitOwns(v: View, t: nat, d: nat, ino: nat)
    requires ViewOk(v) && Reserved(v) && t < NR_TASKS && d in v.opening[t]
    ensures Reserved(WithInode(v, t, d, ino)) && Owned(WithInode(v, t, d, ino)) == Owned(v) + multiset{ino}
  {
    var w, f := WithInode(v, t, d, ino), v.filp[t][d];
    NotInUse(v, t, d);
    forall g | 0 <= g < NR_FILE
      ensures InUse(w, g) == (InUse(v, g) || g == f)
    {
      CommitUses(v, t, d, ino, g);
    }
    assert Used(w) == Used(v)[f := true];
    GetOne(v.inode, Used(v), f, ino);
  }

  lemma CommitUses(v: View, t: nat, d: nat, ino: nat, g: nat)
    requires ViewOk(v) && Reserved(v) && t < NR_TASKS && d in v.opening[t]
    ensures InUse(WithInode(v, t, d, ino), g) <==> InUse(v, g) || g == v.filp[t][d]
  {
    var w := WithInode(v, t, d, ino);
    if InUse(v, g) {
      var u, e :| 0 <= u < NR_TASKS && 0 <= e < NR_OPEN && v.filp[u][e] == g && e !in v.opening[u];
      assert w.filp[u][e] == g && e !in w.opening[u];
    }
    if InUse(w, g) {
      var u, e :| 0 <= u < NR_TASKS && 0 <= e < NR_OPEN && w.filp[u][e] == g && e !in w.opening[u];
      assert v.filp[u][e] == g && (e !in v.opening[u] || (u == t && e == d));
    }
    assert w.filp[t][d] == v.filp[t][d] && d !in w.opening[t];
  }

  // ----- one call ---------------------------------------------------------------

  /** What a call puts and what the files in use own after it is what they owned, what it got and what it stole. */
  lemma CallBalances(v: View, c: Call)
    requires ViewOk(v) && Reserved(v) && Possible(v, c)
    ensures ViewOk(Effect(v, c).0)
    ensures Puts(v, c) + Owned(Effect(v, c).0) == Owned(v) + Gets(c) + Stale(v, c)
  {
    match c
    case Close(_, _) => ClosingBalances(v, c);
    case Dup2(_, _, _) => ClosingBalances(v, c);
    case Exit(_) => ClosingBalances(v, c);
    case Die(_, _) => ClosingBalances(v, c);
    case OpenEnd(_, _, Found(_)) => OpenBalances(v, c);
    case PipeEnd(_, _, _, Found(_)) => PipeBalances(v, c);
    case _ => OtherBalances(v, c);
  }

  lemma ClosingBalances(v: View, c: Call)
    requires ViewOk(v) && Possible(v, c) && (c.Close? || c.Dup2? || c.Exit? || c.Die?)
    ensures ViewOk(Effect(v, c).0)
    ensures Puts(v, c) + Owned(Effect(v, c).0) == Owned(v) + Gets(c) + Stale(v, c)
  {
    DropBalances(v, c);
    AddBoth(Dropped(v, c), Owned(Effect(v, c).0), Owned(v), Stale(v, c));
    assert Dropped(v, c) + multiset{} == Dropped(v, c);
  }

  lemma DropBalances(v: View, c: Call)
    requires ViewOk(v) && Possible(v, c) && (c.Close? || c.Dup2? || c.Exit? || c.Die?)
    ensures ViewOk(Effect(v, c).0) && Dropped(v, c) + Owned(Effect(v, c).0) == Owned(v)
  {
    LessUse(v, c);
    SameInodes(v, c);
    LostSplit(v.inode, Used(v), Used(Effect(v, c).0));
  }

  lemma SameInodes(v: View, c: Call)
    requires ViewOk(v) && Possible(v, c) && !c.OpenEnd? && !c.PipeEnd?
    ensures Effect(v, c).0.inode == v.inode
  {
  }

  lemma AddBoth(d: multiset<nat>, n: multiset<nat>, o: multiset<nat>, s: multiset<nat>)
    requires d + n == o
    ensures (d + s) + n == o + multiset{} + s
  {
  }

  lemma OpenBalances(v: View, c: Call)
    requires ViewOk(v) && Reserved(v) && Possible(v, c) && c.OpenEnd? && c.result.Found?
    ensures ViewOk(Effect(v, c).0)
    ensures Puts(v, c) + Owned(Effect(v, c).0) == Owned(v) + Gets(c) + Stale(v, c)
  {
    assert c.fd in v.opening[c.t] && {c.fd} - {c.fd} == {};
    CommitOwns(v, c.t, c.fd, c.result.inode);
    NothingPut(Owned(Effect(v, c).0), Owned(v), Gets(c));
  }

  lemma PipeBalances(v: View, c: Call)
    requires ViewOk(v) && Reserved(v) && Possible(v, c) && c.PipeEnd? && c.result.Found?
    ensures ViewOk(Effect(v, c).0)
    ensures Puts(v, c) + Owned(Effect(v, c).0) == Owned(v) + Gets(c) + Stale(v, c)
  {
    var ino := c.result.inode;
    CommitsTwice(v, c);
    CommitOwns(v, c.t, c.fd0, ino);
    CommitOwns(WithInode(v, c.t, c.fd0, ino), c.t, c.fd1, ino);
    NothingPut(Owned(Effect(v, c).0), Owned(v), Gets(c));
  }

  lemma CommitsTwice(v: View, c: Call)
    requires ViewOk(v) && Possible(v, c) && c.PipeEnd? && c.result.Found?
    ensures var ino := c.result.inode;
            && c.fd0 in v.opening[c.t] && c.fd1 in WithInode(v, c.t, c.fd0, ino).opening[c.t]
            && Effect(v, c).0 == WithInode(WithInode(v, c.t, c.fd0, ino), c.t, c.fd1, ino)
  {
    assert {c.fd0, c.fd1} - {c.fd0} == {c.fd1} && {c.fd1} - {c.fd1} == {};
  }

  lemma OtherBalances(v: View, c: Call)
    requires ViewOk(v) && Reserved(v) && Possible(v, c)
    requires c.OpenStart? || c.PipeStart? || c.Dup? || c.Fork? || ((c.OpenEnd? || c.PipeEnd?) && c.result.Failed?)
    ensures ViewOk(Effect(v, c).0)
    ensures Puts(v, c) + Owned(Effect(v, c).0) == Owned(v) + Gets(c) + Stale(v, c)
  {
    SameUse(v, c);
    assert Effect(v, c).0.inode == v.inode;
    NothingPut(Owned(Effect(v, c).0), Owned(v), Gets(c));
  }

  lemma NothingPut(n: multiset<nat>, o: multiset<nat>, g: multiset<nat>)
    ensures n == o + g ==> multiset{} + n == o + g + multiset{}
    ensures n == o && g == multiset{} ==> n == o + g
    ensures forall x :: g == multiset{x} + multiset{x} ==> o + multiset{x} + multiset{x} == o + g
  {
  }

  /**
    Exactly which calls put only references that the table owns: all but a death
    inside open that had reserved a file which had an inode before.
   */
  lemma CallConservesIff(v: View, c: Call)
    requires ViewOk(v) && Reserved(v) && Possible(v, c)
    ensures ViewOk(Effect(v, c).0)
    ensures Puts(v, c) + Owned(Effect(v, c).0) == Owned(v) + Gets(c) <==> !Steals(v, c)
  {
    CallBalances(v, c);
    Unequal(Owned(v) + Gets(c), Stale(v, c));
  }

  lemma Unequal(a: multiset<nat>, b: multiset<nat>)
    ensures a + b == a <==> b == multiset{}
  {
    if b != multiset{} {
      var x :| x in b;
      assert (a + b)[x] == a[x] + b[x];
    } else {
      assert a + b == a;
    }
  }

  lemma Cancel(p: multiset<nat>, a: multiset<nat>, b: multiset<nat>)
    ensures p + a == p + b <==> a == b
  {
    if p + a == p + b {
      assert (p + a) - p == a && (p + b) - p == b;
    }
  }

  /** Reserved files stay apart. */
  lemma ReservedStep(v: View, c: Call)
    requires ViewOk(v) && Reserved(v) && Possible(v, c)
    ensures ViewOk(Effect(v, c).0) && Reserved(Effect(v, c).0)
  {
    EffectOk(v, c);
    var w := Effect(v, c).0;
    forall t, d, u, e | 0 <= t < NR_TASKS && d in w.opening[t] && 0 <= u < NR_TASKS && 0 <= e < NR_OPEN
        && w.filp[u][e] == w.filp[t][d]
      ensures u == t && e == d
    {
      if c.OpenStart? || c.PipeStart? {
        StartReserved(v, c, t, d, u, e);
      } else {
        OthersReserved(v, c, t, d, u, e);
      }
    }
  }

  lemma StartReserved(v: View, c: Call, t: nat, d: nat, u: nat, e: nat)
    requires ViewOk(v) && Reserved(v) && Possible(v, c) && (c.OpenStart? || c.PipeStart?)
    requires t < NR_TASKS && d < NR_OPEN && u < NR_TASKS && e < NR_OPEN && ViewOk(Effect(v, c).0)
    requires var w := Effect(v, c).0;
             d in w.opening[t] && w.filp[u][e] == w.filp[t][d]
    ensures u == t && e == d
  {
    if c.OpenStart? {
      OpenStartReserved(v, c.t, t, d, u, e);
    } else {
      PipeStartReserved(v, c.t, t, d, u, e);
    }
  }

  lemma OpenStartReserved(v: View, o: nat, t: nat, d: nat, u: nat, e: nat)
    requires ViewOk(v) && Reserved(v) && o < NR_TASKS && v.opening[o] == {}
    requires t < NR_TASKS && d < NR_OPEN && u < NR_TASKS && e < NR_OPEN && ViewOk(Opens(v, o).0)
    requires d in Opens(v, o).0.opening[t] && Opens(v, o).0.filp[u][e] == Opens(v, o).0.filp[t][d]
    ensures u == t && e == d
  {
    OpenReserved(v, o, t, d);
    OpenReserved(v, o, u, e);
  }

  lemma PipeStartReserved(v: View, o: nat, t: nat, d: nat, u: nat, e: nat)
    requires ViewOk(v) && Reserved(v) && o < NR_TASKS && v.opening[o] == {}
    requires t < NR_TASKS && d < NR_OPEN && u < NR_TASKS && e < NR_OPEN && ViewOk(Pipes(v, o).0)
    requires d in Pipes(v, o).0.opening[t] && Pipes(v, o).0.filp[u][e] == Pipes(v, o).0.filp[t][d]
    ensures u == t && e == d
  {
    PipeReserved(v, o, t, d);
    PipeReserved(v, o, u, e);
  }

  /** The file that open reserves is named by nobody else. */
  lemma OpenReserved(v: View, o: nat, t: nat, d: nat)
    requires ViewOk(v) && o < NR_TASKS && v.opening[o] == {} && t < NR_TASKS && d < NR_OPEN
    ensures var w, fd, f := Opens(v, o).0, FirstFree(v.filp[o], 0), FirstUnnamed(v.filp, 0);
            if w == v then true
            else
              && v.filp[t][d] != f && (t == o && d == fd <==> w.filp[t][d] == f)
              && (t != o || d != fd ==> w.filp[t][d] == v.filp[t][d])
              && w.opening[t] == if t == o then {fd} else v.opening[t]
  {
    NamedThere(v.filp, t, d);
  }

  lemma PipeReserved(v: View, o: nat, t: nat, d: nat)
    requires ViewOk(v) && o < NR_TASKS && v.opening[o] == {} && t < NR_TASKS && d < NR_OPEN
    ensures Pipes(v, o).0 != v ==>
              var fd0, f0 := FirstFree(v.filp[o], 0), FirstUnnamed(v.filp, 0);
              && fd0 < NR_OPEN && f0 < NR_FILE
              && var w, fd1, f1 := Pipes(v, o).0, FirstFree(v.filp[o], fd0 + 1), FirstUnnamed(v.filp, f0 + 1);
                 && v.filp[t][d] != f0 && v.filp[t][d] != f1 && f0 != f1
                 && (t == o && d == fd0 <==> w.filp[t][d] == f0) && (t == o && d == fd1 <==> w.filp[t][d] == f1)
                 && (t != o || (d != fd0 && d != fd1) ==> w.filp[t][d] == v.filp[t][d])
                 && w.opening[t] == if t == o then {fd0, fd1} else v.opening[t]
  {
    NamedThere(v.filp, t, d);
  }

  lemma OthersReserved(v: View, c: Call, t: nat, d: nat, u: nat, e: nat)
    requires ViewOk(v) && Reserved(v) && Possible(v, c) && !c.OpenStart? && !c.PipeStart?
    requires t < NR_TASKS && d < NR_OPEN && u < NR_TASKS && e < NR_OPEN && ViewOk(Effect(v, c).0)
    requires var w := Effect(v, c).0;
             d in w.opening[t] && w.filp[u][e] == w.filp[t][d]
    ensures u == t && e == d
  {
    OpeningShrinks(v, c, t);
    StaysReserved(v, c, t, d);
    Origin(v, c, u, e);
  }

  lemma StaysReserved(v: View, c: Call, t: nat, d: nat)
    requires ViewOk(v) && Possible(v, c) && !c.OpenStart? && !c.PipeStart? && t < NR_TASKS && t != c.t
    requires d in v.opening[t] && |Effect(v, c).0.filp| == NR_TASKS
    ensures d < NR_OPEN && v.filp[t][d] >= 0 && Effect(v, c).0.filp[t] == v.filp[t]
  {
  }

  // ----- runs ---------------------------------------------------------------------

  function AllGets(v: View, calls: seq<Call>): multiset<nat>
    requires ViewOk(v)
    decreases |calls|
  {
    if calls == [] then multiset{}
    else
      var n := |calls| - 1;
      AllGets(v, calls[..n]) + if Possible(Effects(v, calls[..n]).0, calls[n]) then Gets(calls[n]) else multiset{}
  }

  ghost function AllPuts(v: View, calls: seq<Call>): multiset<nat>
    requires ViewOk(v)
    decreases |calls|
  {
    if calls == [] then multiset{}
    else
      var n := |calls| - 1;
      var m := Effects(v, calls[..n]).0;
      AllPuts(v, calls[..n]) + if Possible(m, calls[n]) then Puts(m, calls[n]) else multiset{}
  }

  function AllStale(v: View, calls: seq<Call>): multiset<nat>
    requires ViewOk(v)
    decreases |calls|
  {
    if calls == [] then multiset{}
    else
      var n := |calls| - 1;
      var m := Effects(v, calls[..n]).0;
      AllStale(v, calls[..n]) + if Possible(m, calls[n]) then Stale(m, calls[n]) else multiset{}
  }

  /** Every death inside open in the run finds a file that has never had an inode. */
  predicate Harmless(v: View, calls: seq<Call>)
    requires ViewOk(v)
    decreases |calls|
  {
    calls == [] ||
    var n := |calls| - 1;
    var m := Effects(v, calls[..n]).0;
    Harmless(v, calls[..n]) && (Possible(m, calls[n]) ==> !Steals(m, calls[n]))
  }

  lemma {:induction false} RunBalances(v: View, calls: seq<Call>)
    requires ViewOk(v) && Reserved(v)
    ensures Reserved(Effects(v, calls).0)
    ensures AllPuts(v, calls) + Owned(Effects(v, calls).0) == Owned(v) + AllGets(v, calls) + AllStale(v, calls)
    decreases |calls|
  {
    if calls != [] {
      var n := |calls| - 1;
      var m, c := Effects(v, calls[..n]).0, calls[n];
      RunBalances(v, calls[..n]);
      if Possible(m, c) {
        ReservedStep(m, c);
        CallBalances(m, c);
        Sums(AllPuts(v, calls[..n]), Owned(m), Owned(v) + AllGets(v, calls[..n]) + AllStale(v, calls[..n]),
             Puts(m, c), Owned(Effect(m, c).0), Gets(c), Stale(m, c));
        Regroup(Owned(v), AllGets(v, calls[..n]), AllStale(v, calls[..n]), Gets(c), Stale(m, c));
        assert AllPuts(v, calls) == AllPuts(v, calls[..n]) + Puts(m, c);
        assert AllGets(v, calls) == AllGets(v, calls[..n]) + Gets(c);
        assert AllStale(v, calls) == AllStale(v, calls[..n]) + Stale(m, c);
      } else {
        assert AllPuts(v, calls) == AllPuts(v, calls[..n]) && AllGets(v, calls) == AllGets(v, calls[..n]);
        assert AllStale(v, calls) == AllStale(v, calls[..n]);
      }
    }
  }

  lemma Sums(p: multiset<nat>, o: multiset<nat>, a: multiset<nat>,
             q: multiset<nat>, n: multiset<nat>, g: multiset<nat>, s: multiset<nat>)
    requires p + o == a && q + n == o + g + s
    ensures (p + q) + n == a + g + s
  {
    assert (p + q) + n == p + (q + n) == (p + o) + (g + s);
  }

  lemma Regroup(o: multiset<nat>, g: multiset<nat>, s: multiset<nat>, h: multiset<nat>, r: multiset<nat>)
    ensures (o + g + s) + h + r == o + (g + h) + (s + r)
  {
  }

  /**
    Exactly which runs put only references that the table owns, so that each
    reference it was handed has been put once or belongs to a file in use: those
    in which each task that dies inside open had reserved a file that was never
    used before.  sys_close leaves the inode pointer of a file in place, and
    do_exit takes it for that of the new one.
   */
  lemma {:induction false} ConservedIff(v: View, calls: seq<Call>)
    requires ViewOk(v) && Reserved(v)
    ensures AllPuts(v, calls) + Owned(Effects(v, calls).0) == Owned(v) + AllGets(v, calls) <==> Harmless(v, calls)
  {
    RunBalances(v, calls);
    HarmlessIff(v, calls);
    Unequal(Owned(v) + AllGets(v, calls), AllStale(v, calls));
  }

  lemma {:induction false} HarmlessIff(v: View, calls: seq<Call>)
    requires ViewOk(v)
    ensures AllStale(v, calls) == multiset{} <==> Harmless(v, calls)
    decreases |calls|
  {
    if calls != [] {
      var n := |calls| - 1;
      var m := Effects(v, calls[..n]).0;
      HarmlessIff(v, calls[..n]);
      if Possible(m, calls[n]) {
        Unequal(AllStale(v, calls[..n]), Stale(m, calls[n]));
      }
    }
  }
}

/**
  What each call on descriptors does, told from the descriptors, files and inodes
  before and after it; and where a descriptor leads over a run of calls.
 */
module FileCalls {
  import opened OpenFiles
  import opened FileMachine
  import opened FileRefs

  /** Some descriptor names file f, open or just being opened. */
  ghost predicate Taken(v: View, f: int)
    requires ViewOk(v)
  {
    exists t, d :: 0 <= t < NR_TASKS && 0 <= d < NR_OPEN && v.filp[t][d] == f
  }

  lemma TakenIff(v: View, f: nat)
    requires ViewOk(v)
    ensures Taken(v, f) <==> Named(v.filp)[f] > 0
  {
    if Named(v.filp)[f] > 0 {
      NamedSomewhere(v.filp, f);
      var t, d :| 0 <= t < |v.filp| && 0 <= d < |v.filp[t]| && v.filp[t][d] == f;
    }
    if Taken(v, f) {
      var t, d :| 0 <= t < NR_TASKS && 0 <= d < NR_OPEN && v.filp[t][d] == f;
      NamedThere(v.filp, t, d);
    }
  }

  /** What the search by counting finds. */
  lemma FirstUntaken(v: View, g: nat)
    requires ViewOk(v) && g <= NR_FILE
    ensures var f := FirstUnnamed(v.filp, g);
            (f < NR_FILE ==> !Taken(v, f)) && forall h :: g <= h < f ==> Taken(v, h)
  {
    var f := FirstUnnamed(v.filp, g);
    if f < NR_FILE {
      TakenIff(v, f);
    }
    forall h | g <= h < f
      ensures Taken(v, h)
    {
      TakenIff(v, h);
    }
  }

  predicate AllOpen(v: View, t: nat)
    requires ViewOk(v) && t < NR_TASKS
  {
    forall d :: 0 <= d < NR_OPEN ==> v.filp[t][d] >= 0
  }

  ghost predicate AllTaken(v: View)
    requires ViewOk(v)
  {
    forall f :: 0 <= f < NR_FILE ==> Taken(v, f)
  }

  /** The lowest descriptor of t from `from` on, and the lowest file from g on, that nobody has. */
  ghost predicate Lowest(v: View, t: nat, from: nat, d: nat, g: nat, f: int)
    requires ViewOk(v) && t < NR_TASKS
  {
    && from <= d < NR_OPEN && v.filp[t][d] == -1 && (forall e :: from <= e < d ==> v.filp[t][e] >= 0)
    && g <= f < NR_FILE && !Taken(v, f) && (forall h :: g <= h < f ==> Taken(v, h))
  }

  /** Nothing but the named descriptors of task t has changed. */
  predicate SameBut(v: View, w: View, t: nat, ds: set<nat>)
    requires ViewOk(v) && ViewOk(w)
  {
    && (forall u, e :: 0 <= u < NR_TASKS && 0 <= e < NR_OPEN && (u != t || e !in ds) ==> w.filp[u][e] == v.filp[u][e])
    && (forall u :: 0 <= u < NR_TASKS && u != t ==> w.opening[u] == v.opening[u])
  }

  // ----- one call -------------------------------------------------------------

  /** open fails exactly when all descriptors of the task are in use or all files. */
  lemma OpenFailsIff(v: View, t: nat)
    requires ViewOk(v) && Possible(v, OpenStart(t))
    ensures Effect(v, OpenStart(t)).1.Error? <==> AllOpen(v, t) || AllTaken(v)
  {
    AllOpenIff(v, t);
    AllTakenIff(v);
  }

  lemma AllOpenIff(v: View, t: nat)
    requires ViewOk(v) && t < NR_TASKS
    ensures AllOpen(v, t) <==> FirstFree(v.filp[t], 0) == NR_OPEN
  {
  }

  lemma AllTakenIff(v: View)
    requires ViewOk(v)
    ensures AllTaken(v) <==> FirstUnnamed(v.filp, 0) == NR_FILE
  {
    FirstUntaken(v, 0);
  }

  /** Otherwise it takes the lowest descriptor and the lowest file that nobody has. */
  lemma OpenStarts(v: View, t: nat)
    requires ViewOk(v) && Possible(v, OpenStart(t))
    ensures var (w, a) := Effect(v, OpenStart(t));
            && ViewOk(w) && w.inode == v.inode
            && if a.Error? then a == Error(22) && w == v
               else
                 && a.Fd? && a.fd < NR_OPEN && Lowest(v, t, 0, a.fd, 0, w.filp[t][a.fd])
                 && SameBut(v, w, t, {a.fd}) && w.opening[t] == {a.fd}
  {
    EffectOk(v, OpenStart(t));
    FirstUntaken(v, 0);
  }

  lemma PipedIs(v: View, t: nat, fd0: nat, fd1: nat, f0: nat, f1: nat)
    requires ViewOk(v) && t < NR_TASKS && fd0 < fd1 < NR_OPEN && ViewOk(Piped(v, t, fd0, fd1, f0, f1).0)
    ensures var w := Piped(v, t, fd0, fd1, f0, f1).0;
            && w.inode == v.inode && w.filp[t][fd0] == f0 && w.filp[t][fd1] == f1
            && SameBut(v, w, t, {fd0, fd1}) && w.opening[t] == {fd0, fd1}
  {
  }

  /** The lowest two of both. */
  lemma PipeStarts(v: View, t: nat)
    requires ViewOk(v) && Possible(v, PipeStart(t))
    ensures var (w, a) := Effect(v, PipeStart(t));
            && ViewOk(w) && w.inode == v.inode
            && if a.Error? then a == Error(1) && w == v
               else
                 && a.Both? && a.fd0 < NR_OPEN && a.fd1 < NR_OPEN
                 && Lowest(v, t, 0, a.fd0, 0, w.filp[t][a.fd0])
                 && Lowest(v, t, a.fd0 + 1, a.fd1, w.filp[t][a.fd0] + 1, w.filp[t][a.fd1])
                 && SameBut(v, w, t, {a.fd0, a.fd1}) && w.opening[t] == {a.fd0, a.fd1}
  {
    EffectOk(v, PipeStart(t));
    var fd0, f0 := FirstFree(v.filp[t], 0), FirstUnnamed(v.filp, 0);
    var fd1 := if fd0 < NR_OPEN then FirstFree(v.filp[t], fd0 + 1) else NR_OPEN;
    var f1 := if f0 < NR_FILE then FirstUnnamed(v.filp, f0 + 1) else NR_FILE;
    PipesTo(v, t, fd0, fd1, f0, f1);
    if f1 < NR_FILE && fd1 < NR_OPEN {
      FirstUntaken(v, 0);
      FirstUntaken(v, f0 + 1);
      PipedIs(v, t, fd0, fd1, f0, f1);
    }
  }

  lemma TwoFreeIff(row: Row)
    requires RowOk(row)
    ensures (FirstFree(row, 0) < NR_OPEN && FirstFree(row, FirstFree(row, 0) + 1) < NR_OPEN) <==>
            exists d, e :: 0 <= d < e < NR_OPEN && row[d] == -1 && row[e] == -1
  {
    var d := FirstFree(row, 0);
    if d < NR_OPEN && FirstFree(row, d + 1) < NR_OPEN {
      assert row[d] == -1 && row[FirstFree(row, d + 1)] == -1;
    }
  }

  lemma TwoUntakenIff(v: View)
    requires ViewOk(v)
    ensures var f := FirstUnnamed(v.filp, 0);
            (f < NR_FILE && FirstUnnamed(v.filp, f + 1) < NR_FILE) <==>
            exists f, g :: 0 <= f < g < NR_FILE && !Taken(v, f) && !Taken(v, g)
  {
    var f := FirstUnnamed(v.filp, 0);
    FirstUntaken(v, 0);
    FirstUntaken(v, if f < NR_FILE then f + 1 else 0);
  }

  lemma PipeFinds(v: View, t: nat)
    requires ViewOk(v) && t < NR_TASKS
    ensures var d, f := FirstFree(v.filp[t], 0), FirstUnnamed(v.filp, 0);
            Pipes(v, t).1.Both? <==>
            && d < NR_OPEN && FirstFree(v.filp[t], d + 1) < NR_OPEN
            && f < NR_FILE && FirstUnnamed(v.filp, f + 1) < NR_FILE
  {
  }

  /** It fails exactly when there are not two of each. */
  lemma PipeFailsIff(v: View, t: nat)
    requires ViewOk(v) && Possible(v, PipeStart(t))
    ensures Effect(v, PipeStart(t)).1.Both? <==>
            && (exists d, e :: 0 <= d < e < NR_OPEN && v.filp[t][d] == -1 && v.filp[t][e] == -1)
            && (exists f, g :: 0 <= f < g < NR_FILE && !Taken(v, f) && !Taken(v, g))
  {
    PipeFinds(v, t);
    TwoFreeIff(v.filp[t]);
    TwoUntakenIff(v);
  }

  /** The reserved file gets the inode that was found, or the descriptor is unused again. */
  lemma OpenEnds(v: View, t: nat, fd: nat, result: Lookup)
    requires ViewOk(v) && Possible(v, OpenEnd(t, fd, result))
    ensures var (w, a) := Effect(v, OpenEnd(t, fd, result));
            && ViewOk(w) && fd < NR_OPEN && w.opening[t] == {}
            && match result
               case Found(ino) =>
                 && a == Fd(fd) && SameBut(v, w, t, {}) && w.inode[v.filp[t][fd]] == ino
                 && forall f :: 0 <= f < NR_FILE && f != v.filp[t][fd] ==> w.inode[f] == v.inode[f]
               case Failed(e) =>
                 a == Error(e) && SameBut(v, w, t, {fd}) && w.filp[t][fd] == -1 && w.inode == v.inode
  {
    EffectOk(v, OpenEnd(t, fd, result));
  }

  lemma PipeEnds(v: View, t: nat, fd0: nat, fd1: nat, result: Lookup)
    requires ViewOk(v) && Possible(v, PipeEnd(t, fd0, fd1, result))
    ensures var (w, a) := Effect(v, PipeEnd(t, fd0, fd1, result));
            && ViewOk(w) && fd0 < NR_OPEN && fd1 < NR_OPEN && w.opening[t] == {}
            && match result
               case Found(ino) =>
                 && a == Both(fd0, fd1) && SameBut(v, w, t, {})
                 && w.inode[v.filp[t][fd0]] == w.inode[v.filp[t][fd1]] == ino
                 && forall f :: 0 <= f < NR_FILE && f != v.filp[t][fd0] && f != v.filp[t][fd1] ==>
                      w.inode[f] == v.inode[f]
               case Failed(_) =>
                 && a == Error(1) && SameBut(v, w, t, {fd0, fd1}) && w.filp[t][fd0] == w.filp[t][fd1] == -1
                 && w.inode == v.inode
  {
    EffectOk(v, PipeEnd(t, fd0, fd1, result));
  }

  /** close clears one descriptor, if it is open. */
  lemma CloseClears(v: View, t: nat, fd: nat)
    requires ViewOk(v) && Possible(v, Close(t, fd))
    ensures var (w, a) := Effect(v, Close(t, fd));
            && ViewOk(w) && w.inode == v.inode && w.opening == v.opening
            && if fd < NR_OPEN && v.filp[t][fd] >= 0 then a == Done && SameBut(v, w, t, {fd}) && w.filp[t][fd] == -1
               else a == Error(22) && w == v
  {
    EffectOk(v, Close(t, fd));
  }

  /** dup makes the lowest unused descriptor from arg on lead to the same file. */
  lemma DupShares(v: View, t: nat, fd: nat, arg: nat)
    requires ViewOk(v) && Possible(v, Dup(t, fd, arg))
    ensures var (w, a) := Effect(v, Dup(t, fd, arg));
            && ViewOk(w) && w.inode == v.inode && w.opening == v.opening
            && if fd >= NR_OPEN || v.filp[t][fd] == -1 then a == Error(9) && w == v
               else if arg >= NR_OPEN then a == Error(22) && w == v
               else if forall d :: arg <= d < NR_OPEN ==> v.filp[t][d] >= 0 then a == Error(24) && w == v
               else
                 && a.Fd? && arg <= a.fd < NR_OPEN && v.filp[t][a.fd] == -1
                 && (forall d :: arg <= d < a.fd ==> v.filp[t][d] >= 0)
                 && w.filp[t][a.fd] == v.filp[t][fd] && SameBut(v, w, t, {a.fd})
  {
    EffectOk(v, Dup(t, fd, arg));
  }

  /** dup2 closes newfd first and then makes it lead to oldfd's file, if that is still open. */
  lemma Dup2Shares(v: View, t: nat, oldfd: nat, newfd: nat)
    requires ViewOk(v) && Possible(v, Dup2(t, oldfd, newfd))
    ensures var (w, a) := Effect(v, Dup2(t, oldfd, newfd));
            && ViewOk(w) && w.inode == v.inode && w.opening == v.opening && SameBut(v, w, t, {newfd})
            && if oldfd < NR_OPEN && v.filp[t][oldfd] >= 0 && newfd < NR_OPEN && oldfd != newfd
               then a == Fd(newfd) && w.filp[t][newfd] == v.filp[t][oldfd]
               else
                 && a == Error(if newfd < NR_OPEN || oldfd >= NR_OPEN || v.filp[t][oldfd] == -1 then 9 else 22)
                 && (newfd < NR_OPEN ==> w.filp[t][newfd] == -1)
  {
    EffectOk(v, Dup2(t, oldfd, newfd));
  }

  /** The child's descriptors lead where the parent's do. */
  lemma ForkShares(v: View, t: nat, nr: nat)
    requires ViewOk(v) && Possible(v, Fork(t, nr))
    ensures var (w, a) := Effect(v, Fork(t, nr));
            && ViewOk(w) && a == Done && w.inode == v.inode && w.opening == v.opening
            && (forall d :: 0 <= d < NR_OPEN ==> w.filp[nr][d] == v.filp[t][d])
            && (forall u, d :: 0 <= u < NR_TASKS && u != nr && 0 <= d < NR_OPEN ==> w.filp[u][d] == v.filp[u][d])
  {
    EffectOk(v, Fork(t, nr));
  }

  /** A task that ends, also in the middle of open, has no descriptor any more. */
  lemma ExitCloses(v: View, c: Call)
    requires ViewOk(v) && Possible(v, c) && (c.Exit? || c.Die?)
    ensures var (w, a) := Effect(v, c);
            && ViewOk(w) && a == Done && w.inode == v.inode && w.opening[c.t] == {}
            && (forall d :: 0 <= d < NR_OPEN ==> w.filp[c.t][d] == -1)
            && (forall u, d :: 0 <= u < NR_TASKS && u != c.t && 0 <= d < NR_OPEN ==> w.filp[u][d] == v.filp[u][d])
            && (forall u :: 0 <= u < NR_TASKS && u != c.t ==> w.opening[u] == v.opening[u])
  {
    EffectOk(v, c);
  }

  // ----- runs -----------------------------------------------------------------

  /** Task t itself changes where its descriptor d leads. */
  predicate Redirects(c: Call, t: nat, d: nat) {
    c.t == t && ((c.Close? && c.fd == d) || (c.Dup2? && c.newfd == d) || c.Exit? || c.Die?)
  }

  predicate Untouched(calls: seq<Call>, t: nat, d: nat) {
    forall k :: 0 <= k < |calls| ==> !Redirects(calls[k], t, d)
  }

  /** Descriptor d of task t is open and leads to file f with its inode. */
  predicate LeadsTo(v: View, t: nat, d: nat, f: int, ino: nat)
    requires ViewOk(v) && t < NR_TASKS && d < NR_OPEN
  {
    0 <= f < NR_FILE && v.filp[t][d] == f && v.inode[f] == ino && d !in v.opening[t]
  }

  lemma LeadsStep(v: View, c: Call, t: nat, d: nat, f: int, ino: nat)
    requires ViewOk(v) && Reserved(v) && Possible(v, c) && t < NR_TASKS && d < NR_OPEN
    requires LeadsTo(v, t, d, f, ino) && !Redirects(c, t, d)
    ensures ViewOk(Effect(v, c).0) && Reserved(Effect(v, c).0) && LeadsTo(Effect(v, c).0, t, d, f, ino)
  {
    ReservedStep(v, c);
    match c
    case OpenStart(_) => LeadsPastOpen(v, c, t, d, f, ino);
    case PipeStart(_) => LeadsPastPipe(v, c, t, d, f, ino);
    case Dup(_, _, _) => LeadsPastDup(v, c, t, d, f, ino);
    case OpenEnd(_, _, _) => LeadsPastEnd(v, c, t, d, f, ino);
    case PipeEnd(_, _, _, _) => LeadsPastEnd(v, c, t, d, f, ino);
    case Dup2(_, _, _) => LeadsPastClose(v, c, t, d, f, ino);
    case Close(_, _) => LeadsPastClose(v, c, t, d, f, ino);
    case _ => LeadsPastTask(v, c, t, d, f, ino);
  }

  lemma LeadsPastOpen(v: View, c: Call, t: nat, d: nat, f: int, ino: nat)
    requires ViewOk(v) && Possible(v, c) && t < NR_TASKS && d < NR_OPEN && c.OpenStart?
    requires LeadsTo(v, t, d, f, ino) && ViewOk(Effect(v, c).0)
    ensures LeadsTo(Effect(v, c).0, t, d, f, ino)
  {
    OpenStarts(v, c.t);
  }

  lemma LeadsPastPipe(v: View, c: Call, t: nat, d: nat, f: int, ino: nat)
    requires ViewOk(v) && Possible(v, c) && t < NR_TASKS && d < NR_OPEN && c.PipeStart?
    requires LeadsTo(v, t, d, f, ino) && ViewOk(Effect(v, c).0)
    ensures LeadsTo(Effect(v, c).0, t, d, f, ino)
  {
    PipeStarts(v, c.t);
  }

  lemma LeadsPastDup(v: View, c: Call, t: nat, d: nat, f: int, ino: nat)
    requires ViewOk(v) && Possible(v, c) && t < NR_TASKS && d < NR_OPEN && c.Dup?
    requires LeadsTo(v, t, d, f, ino) && ViewOk(Effect(v, c).0)
    ensures LeadsTo(Effect(v, c).0, t, d, f, ino)
  {
    DupShares(v, c.t, c.fd, c.arg);
  }

  lemma LeadsPastEnd(v: View, c: Call, t: nat, d: nat, f: int, ino: nat)
    requires ViewOk(v) && Reserved(v) && Possible(v, c) && t < NR_TASKS && d < NR_OPEN && (c.OpenEnd? || c.PipeEnd?)
    requires LeadsTo(v, t, d, f, ino) && ViewOk(Effect(v, c).0)
    ensures LeadsTo(Effect(v, c).0, t, d, f, ino)
  {
    if c.OpenEnd? {
      assert c.fd in v.opening[c.t];
      OpenEnds(v, c.t, c.fd, c.result);
    } else {
      assert c.fd0 in v.opening[c.t] && c.fd1 in v.opening[c.t];
      PipeEnds(v, c.t, c.fd0, c.fd1, c.result);
    }
  }

  lemma LeadsPastClose(v: View, c: Call, t: nat, d: nat, f: int, ino: nat)
    requires ViewOk(v) && Possible(v, c) && t < NR_TASKS && d < NR_OPEN && (c.Close? || c.Dup2?)
    requires LeadsTo(v, t, d, f, ino) && !Redirects(c, t, d) && ViewOk(Effect(v, c).0)
    ensures LeadsTo(Effect(v, c).0, t, d, f, ino)
  {
    if c.Close? {
      CloseClears(v, c.t, c.fd);
    } else {
      Dup2Shares(v, c.t, c.oldfd, c.newfd);
    }
  }

  lemma LeadsPastTask(v: View, c: Call, t: nat, d: nat, f: int, ino: nat)
    requires ViewOk(v) && Possible(v, c) && t < NR_TASKS && d < NR_OPEN && (c.Fork? || c.Exit? || c.Die?)
    requires LeadsTo(v, t, d, f, ino) && !Redirects(c, t, d) && ViewOk(Effect(v, c).0)
    ensures LeadsTo(Effect(v, c).0, t, d, f, ino)
  {
    if c.Fork? {
      ForkShares(v, c.t, c.nr);
    } else {
      ExitCloses(v, c);
    }
  }

  /**
    An open descriptor leads to the same file with the same inode until its own
    task closes it or points it elsewhere, whatever else is opened, closed,
    duplicated and forked by it and by others.
   */
  lemma {:induction false} LeadsThroughout(v: View, calls: seq<Call>, t: nat, d: nat, f: int, ino: nat)
    requires ViewOk(v) && Reserved(v) && t < NR_TASKS && d < NR_OPEN
    requires LeadsTo(v, t, d, f, ino) && Untouched(calls, t, d)
    ensures Reserved(Effects(v, calls).0) && LeadsTo(Effects(v, calls).0, t, d, f, ino)
    decreases |calls|
  {
    if calls != [] {
      var n := |calls| - 1;
      LeadsThroughout(v, calls[..n], t, d, f, ino);
      if Possible(Effects(v, calls[..n]).0, calls[n]) {
        LeadsStep(Effects(v, calls[..n]).0, calls[n], t, d, f, ino);
      }
    }
  }

  /** After a fork parent and child share each open file, as long as neither gives up its own descriptor. */
  lemma ForkedDescriptors(v: View, t: nat, nr: nat, calls: seq<Call>, d: nat, f: int, ino: nat)
    requires ViewOk(v) && Reserved(v) && Possible(v, Fork(t, nr)) && d < NR_OPEN && LeadsTo(v, t, d, f, ino)
    requires ViewOk(Effect(v, Fork(t, nr)).0)
    ensures var w := Effects(Effect(v, Fork(t, nr)).0, calls).0;
            && (Untouched(calls, nr, d) ==> LeadsTo(w, nr, d, f, ino))
            && (Untouched(calls, t, d) ==> LeadsTo(w, t, d, f, ino))
  {
    var m := Effect(v, Fork(t, nr)).0;
    ReservedStep(v, Fork(t, nr));
    ForkShares(v, t, nr);
    assert nr != t && d !in v.opening[t];
    ChildNotOpening(v, nr, d);
    if Untouched(calls, nr, d) {
      LeadsThroughout(m, calls, nr, d, f, ino);
    }
    if Untouched(calls, t, d) {
      LeadsThroughout(m, calls, t, d, f, ino);
    }
  }

  lemma ChildNotOpening(v: View, nr: nat, d: nat)
    requires ViewOk(v) && nr < NR_TASKS && IsNull(v.filp[nr])
    ensures d !in v.opening[nr]
  {
  }

  /**
    An opened file: the descriptor that open answers with leads to the inode it
    found, from then on, unless its own task gives it up.
   */
  lemma OpenedDescriptor(v: View, t: nat, fd: nat, ino: nat, calls: seq<Call>)
    requires ViewOk(v) && Reserved(v) && Possible(v, OpenEnd(t, fd, Found(ino))) && Untouched(calls, t, fd)
    requires ViewOk(Effect(v, OpenEnd(t, fd, Found(ino))).0)
    ensures fd < NR_OPEN
            && LeadsTo(Effects(Effect(v, OpenEnd(t, fd, Found(ino))).0, calls).0, t, fd, v.filp[t][fd], ino)
  {
    var c := OpenEnd(t, fd, Found(ino));
    assert fd in v.opening[t];
    ReservedStep(v, c);
    OpenEnds(v, t, fd, Found(ino));
    LeadsThroughout(Effect(v, c).0, calls, t, fd, v.filp[t][fd], ino);
  }

  // ----- iput -----------------------------------------------------------------

  /** Another open descriptor than d of task t names the same file. */
  ghost predicate SharedDescriptor(v: View, t: nat, d: nat)
    requires ViewOk(v) && t < NR_TASKS && d < NR_OPEN
  {
    exists u, e :: 0 <= u < NR_TASKS && 0 <= e < NR_OPEN && (u != t || e != d) && v.filp[u][e] == v.filp[t][d]
                   && e !in v.opening[u]
  }

  /** close calls iput exactly when no other open descriptor, of this task or another, names the file. */
  lemma CloseReleasesIff(v: View, t: nat, d: nat)
    requires ViewOk(v) && Possible(v, Close(t, d)) && d < NR_OPEN && v.filp[t][d] >= 0
    ensures Puts(v, Close(t, d)) == if SharedDescriptor(v, t, d) then multiset{} else multiset{v.inode[v.filp[t][d]]}
  {
    var w, f := Effect(v, Close(t, d)).0, v.filp[t][d];
    CloseClears(v, t, d);
    assert InUse(v, f);
    forall g | 0 <= g < NR_FILE
      ensures InUse(w, g) == (InUse(v, g) && (g != f || SharedDescriptor(v, t, d)))
    {
      InUseAfterClose(v, t, d, g);
    }
    if SharedDescriptor(v, t, d) {
      assert Used(w) == Used(v);
      LostNone(v.inode, Used(v));
    } else {
      assert Used(w) == Used(v)[f := false];
      LostOne(v.inode, Used(v), f);
    }
  }

  lemma InUseAfterClose(v: View, t: nat, d: nat, g: nat)
    requires ViewOk(v) && Possible(v, Close(t, d)) && d < NR_OPEN && v.filp[t][d] >= 0 && g < NR_FILE
    ensures ViewOk(Effect(v, Close(t, d)).0)
    ensures InUse(Effect(v, Close(t, d)).0, g) == (InUse(v, g) && (g != v.filp[t][d] || SharedDescriptor(v, t, d)))
  {
    var w := Effect(v, Close(t, d)).0;
    CloseClears(v, t, d);
    if InUse(w, g) {
      var u, e :| 0 <= u < NR_TASKS && 0 <= e < NR_OPEN && w.filp[u][e] == g && e !in w.opening[u];
      assert v.filp[u][e] == g && e !in v.opening[u];
    }
    if InUse(v, g) && g != v.filp[t][d] {
      var u, e :| 0 <= u < NR_TASKS && 0 <= e < NR_OPEN && v.filp[u][e] == g && e !in v.opening[u];
      assert w.filp[u][e] == g && e !in w.opening[u];
    }
    if g == v.filp[t][d] && SharedDescriptor(v, t, d) {
      var u, e :| 0 <= u < NR_TASKS && 0 <= e < NR_OPEN && (u != t || e != d) && v.filp[u][e] == v.filp[t][d]
        && e !in v.opening[u];
      assert w.filp[u][e] == g && e !in w.opening[u];
    }
  }
}

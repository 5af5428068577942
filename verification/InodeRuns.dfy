/**
  Runs of the in-core inode table: a slot holds the last contents of its inode,
  a reference keeps its inode, when iput frees an inode cleanly, and when the
  bitmap and the table agree on the numbers in use.
 */
module InodeRuns {
  import opened InodeTable

  // ----- a reference keeps its inode ------------------------------------------

  /** References that a call of iput under way is about to give back. */
  function Underway(p: Pc, i: nat): nat {
    if (p.Put? || p.PutWrite? || p.PutAgain? || p.Freeing?) && p.i == i then 1
    else if (p.Blanked? || p.Found? || p.Drop? || p.Reading?) && p.e == i then 1 else 0
  }

  /** Task t has a reference to slot i that it is not giving back. */
  predicate Keeps(s: State, t: nat, i: nat) {
    t < |s.pcs| && i < |s.slots| && s.slots[i].users[t] > Underway(s.pcs[t], i)
  }

  predicate Puts(a: Action, t: nat, i: nat) { a == StartPut(t, i) }

  /** Whoever else does what, a reference pins the inode in its slot until iput is called on it. */
  lemma ReferenceStep(s: State, a: Action, t: nat, i: nat)
    requires Inv(s) && Enabled(s, a) && Clean(s, a) && Keeps(s, t, i) && !Puts(a, t, i)
    ensures Keeps(Next(s, a), t, i) && (s.slots[i].key.dev != 0 ==> Next(s, a).slots[i].key == s.slots[i].key)
  {
    if Mover(s, a) < |s.pcs| {
      assert PcOk(s, Mover(s, a)) && PcInRange(s.pcs[Mover(s, a)], |s.slots|);
    }
    assert SlotOk(s, i) && t in s.slots[i].users;
    if Mover(s, a) == t {
      OwnStep(s, a, t, i);
    } else {
      OtherStep(s, a, t, i);
    }
  }

  lemma OtherStep(s: State, a: Action, t: nat, i: nat)
    requires Inv(s) && Enabled(s, a) && Clean(s, a) && Keeps(s, t, i) && Mover(s, a) != t
    requires Mover(s, a) < |s.pcs| ==> PcOk(s, Mover(s, a))
    ensures Keeps(Next(s, a), t, i) && (s.slots[i].key.dev != 0 ==> Next(s, a).slots[i].key == s.slots[i].key)
  {
    assert SlotOk(s, i) && t in s.slots[i].users;
    if Target(s, a) == i {
      if a.PutReady? {
        TwoUsers(s.slots[i].users, t, a.t);
        OtherPut(s.slots[i], a.t, t, i);
      } else {
        OtherHere(s, a, t, i);
      }
    }
  }

  lemma TwoUsers(users: multiset<nat>, t: nat, u: nat)
    requires t in users && u in users && t != u
    ensures |users| >= 2
  {
    assert users == multiset{t, u} + (users - multiset{t, u});
  }

  lemma OtherPut(x: Slot, m: nat, t: nat, i: nat)
    requires |x.users| >= 2 && m != t
    ensures PutStep(x, m, i).0.users[t] == x.users[t] && PutStep(x, m, i).0.key == x.key
  {
  }

  lemma OtherHere(s: State, a: Action, t: nat, i: nat)
    requires Inv(s) && Enabled(s, a) && Clean(s, a) && Target(s, a) == i && t in s.slots[i].users && Mover(s, a) != t
    requires !a.PutReady?
    requires Mover(s, a) < |s.pcs| ==> PcOk(s, Mover(s, a))
    ensures NewSlot(s, a).users[t] >= s.slots[i].users[t]
    ensures s.slots[i].key.dev != 0 ==> NewSlot(s, a).key == s.slots[i].key
  {
  }

  lemma OwnStep(s: State, a: Action, t: nat, i: nat)
    requires Inv(s) && Enabled(s, a) && Clean(s, a) && Keeps(s, t, i) && Mover(s, a) == t && !Puts(a, t, i)
    requires t < |s.pcs| && PcOk(s, t) && SlotOk(s, i)
    ensures Keeps(Next(s, a), t, i) && (s.slots[i].key.dev != 0 ==> Next(s, a).slots[i].key == s.slots[i].key)
  {
    if Target(s, a) == i {
      OwnHere(s, a, t, i);
    } else {
      OwnElsewhere(s, a, t, i);
    }
  }

  lemma OwnElsewhere(s: State, a: Action, t: nat, i: nat)
    requires Inv(s) && Enabled(s, a) && Clean(s, a) && Keeps(s, t, i) && Mover(s, a) == t && !Puts(a, t, i)
    requires t < |s.pcs| && PcOk(s, t) && Target(s, a) != i
    ensures Underway(NewPc(s, a), i) <= Underway(s.pcs[t], i)
  {
  }

  lemma OwnHere(s: State, a: Action, t: nat, i: nat)
    requires Inv(s) && Enabled(s, a) && Clean(s, a) && Keeps(s, t, i) && Mover(s, a) == t
    requires t < |s.pcs| && PcOk(s, t) && SlotOk(s, i) && Target(s, a) == i
    ensures NewSlot(s, a).users[t] > Underway(NewPc(s, a), i)
    ensures s.slots[i].key.dev != 0 ==> NewSlot(s, a).key == s.slots[i].key
  {
  }

  // ----- contents -------------------------------------------------------------

  /** A slot holds the last contents of its inode, unless they are being read; if it is clean so does the disk. */
  ghost predicate Agrees(x: Slot, disk: imap<Key, Content>, flat: imap<Key, Content>)
    requires Total(disk) && Total(flat)
  {
    && (x.lock.Reads? ==> flat[x.key] == disk[x.key])
    && (!x.lock.Reads? ==> x.content == flat[x.key] && (!x.dirt ==> disk[x.key] == x.content))
  }

  ghost predicate Coherent(s: State)
    requires Shape(s)
  {
    && (forall i :: 0 <= i < |s.slots| && s.slots[i].key.dev != 0 ==> Agrees(s.slots[i], s.disk, s.flat))
    && (forall k: Key :: k.dev != 0 && Find(s, k) == -1 ==> s.disk[k] == s.flat[k])
  }

  lemma InitCoherent(s: State)
    requires Init(s)
    ensures Inv(s) && Coherent(s)
  {
    InitInv(s);
  }

  /** Inode k changed at most: the disk, the last contents, and which slot holds it. */
  ghost predicate OnlyKey(s: State, r: State, i: nat, k: Key)
    requires Shape(s) && Shape(r)
  {
    && |r.slots| == |s.slots| && i < |s.slots| && (s.slots[i].key == k || s.slots[i].key.dev == 0)
    && (r.slots[i].key == k || r.slots[i].key.dev == 0)
    && (forall c :: 0 <= c < |s.slots| && c != i ==> r.slots[c] == s.slots[c] && s.slots[c].key != k)
    && (forall l: Key :: l != k ==> r.disk[l] == s.disk[l] && r.flat[l] == s.flat[l])
  }

  lemma OnlyKeyCoherent(s: State, r: State, i: nat, k: Key)
    requires Shape(s) && Shape(r) && Coherent(s) && OnlyKey(s, r, i, k) && k.dev != 0
    requires if r.slots[i].key == k then Agrees(r.slots[i], r.disk, r.flat) else r.disk[k] == r.flat[k]
    ensures Coherent(r)
  {
    forall l: Key | l.dev != 0 && Find(r, l) == -1
      ensures r.disk[l] == r.flat[l]
    {
      forall c | 0 <= c < |s.slots| && l != k
        ensures s.slots[c].key != l
      {
        assert r.slots[c].key != l;
      }
    }
  }

  /** No contents, key or dirty bit changed. */
  ghost predicate Same(s: State, r: State) {
    && |r.slots| == |s.slots| && r.disk == s.disk && r.flat == s.flat
    && forall i :: 0 <= i < |s.slots| ==> SameSlot(s.slots[i], r.slots[i])
  }

  predicate SameSlot(x: Slot, y: Slot) {
    y.key == x.key && (x.key.dev == 0 || (y.content == x.content && y.dirt == x.dirt && y.lock.Reads? == x.lock.Reads?))
  }

  lemma SameCoherent(s: State, r: State)
    requires Shape(s) && Shape(r) && Coherent(s) && Same(s, r)
    ensures Coherent(r)
  {
    forall l: Key | l.dev != 0 && Find(r, l) == -1
      ensures Find(s, l) == -1
    {
      forall c | 0 <= c < |s.slots|
        ensures s.slots[c].key != l
      {
        assert SameSlot(s.slots[c], r.slots[c]);
      }
    }
    forall i | 0 <= i < |r.slots| && r.slots[i].key.dev != 0
      ensures Agrees(r.slots[i], r.disk, r.flat)
    {
      assert SameSlot(s.slots[i], r.slots[i]);
    }
  }

  /** Does the action touch contents, keys or dirty bits? */
  ghost predicate Changes(s: State, a: Action)
    requires Shape(s) && Enabled(s, a)
  {
    match a
    case ChosenReady(t) => !s.slots[s.pcs[t].i].dirt && s.slots[s.pcs[t].i].users == multiset{}
        && s.slots[s.pcs[t].i].key.dev != 0
    case Scan(t) => Find(s, s.pcs[t].why.want) == -1
    case NameNew(_, _) => true
    case FreeDone(_) => true
    case Modify(_, _, _) => true
    case IoDone(i) => true
    case _ => false
  }

  lemma CoherentStep(s: State, a: Action)
    requires Inv(s) && Enabled(s, a) && Clean(s, a) && Coherent(s)
    ensures Inv(Next(s, a)) && Coherent(Next(s, a))
  {
    InvStep(s, a);
    if Mover(s, a) < |s.pcs| {
      assert PcOk(s, Mover(s, a)) && PcInRange(s.pcs[Mover(s, a)], |s.slots|);
    }
    if Changes(s, a) {
      ChangeCoherent(s, a);
    } else {
      SameNext(s, a);
      SameCoherent(s, Next(s, a));
    }
  }

  lemma SameNext(s: State, a: Action)
    requires Inv(s) && Enabled(s, a) && Clean(s, a) && !Changes(s, a)
    ensures Same(s, Next(s, a))
  {
    SameBytes(s, a);
    var i := Target(s, a);
    if i != -1 {
      assert SlotOk(s, i);
      if a.PutReady? || a.Repeat? {
        SamePut(s.slots[i], a.t, i);
      } else {
        SameTarget(s, a);
      }
      SameBut(s, Next(s, a), i, NewSlot(s, a));
    }
  }

  lemma SameBytes(s: State, a: Action)
    requires Shape(s) && Enabled(s, a) && Clean(s, a) && !Changes(s, a) && s.stray == multiset{}
    ensures NewDisk(s, a) == s.disk && NewFlat(s, a) == s.flat
  {
  }

  lemma SameBut(s: State, r: State, i: nat, y: Slot)
    requires i < |s.slots| && r.slots == s.slots[i := y] && SameSlot(s.slots[i], y) && r.disk == s.disk
    requires r.flat == s.flat
    ensures Same(s, r)
  {
  }

  lemma SamePut(x: Slot, t: nat, i: nat)
    requires (x.key.dev == 0 ==> x.key == NOBODY && !x.dirt && x.lock.Open?) && (x.pipe ==> x.key.dev == 0)
    ensures SameSlot(x, Repeated(x, t, i).0) || x.lock.Reads?
    ensures SameSlot(x, PutStep(x, t, i).0) || x.lock.Reads?
  {
  }

  lemma SameTarget(s: State, a: Action)
    requires Shape(s) && Enabled(s, a) && !Changes(s, a) && !a.PutReady? && !a.Repeat? && Target(s, a) != -1
    requires SlotOk(s, Target(s, a)) && s.stray == multiset{}
    ensures SameSlot(s.slots[Target(s, a)], NewSlot(s, a))
  {
  }

  /** The inode an action is about. */
  ghost function Subject(s: State, a: Action): Key
    requires Shape(s) && Enabled(s, a) && Target(s, a) != -1
  {
    if a.Scan? || a.NameNew? then NewSlot(s, a).key else s.slots[Target(s, a)].key
  }

  lemma ChangeCoherent(s: State, a: Action)
    requires Inv(s) && Enabled(s, a) && Clean(s, a) && Inv(Next(s, a)) && Coherent(s) && Changes(s, a)
    requires Mover(s, a) < |s.pcs| ==> PcOk(s, Mover(s, a)) && PcInRange(s.pcs[Mover(s, a)], |s.slots|)
    ensures Coherent(Next(s, a))
  {
    var i, k, r := Target(s, a), Subject(s, a), Next(s, a);
    assert SlotOk(s, i);
    assert k.dev != 0 && OnlyKey(s, r, i, k);
    assert s.slots[i].key == k ==> Agrees(s.slots[i], s.disk, s.flat);
    OnlyKeyCoherent(s, r, i, k);
  }

  /** What iget hands out is the inode asked for, with its last contents: when it finds it, and when it has read it. */
  lemma IgetIsRight(s: State, a: Action)
    requires Inv(s) && Enabled(s, a) && Coherent(s)
    ensures a.FoundReady? && Next(s, a).pcs[a.t].Drop? ==>
              s.slots[s.pcs[a.t].i].key == s.pcs[a.t].want && s.slots[s.pcs[a.t].i].content == s.flat[s.pcs[a.t].want]
              && Keeps(Next(s, a), a.t, s.pcs[a.t].i)
    ensures a.IoDone? && s.slots[a.i].lock.Reads? ==>
              Next(s, a).slots[a.i].content == s.flat[s.slots[a.i].key] && s.slots[a.i].lock.task >= 0
              && Keeps(Next(s, a), s.slots[a.i].lock.task, a.i) && Next(s, a).pcs[s.slots[a.i].lock.task].Idle?
  {
    if a.FoundReady? {
      assert PcOk(s, a.t) && PcInRange(s.pcs[a.t], |s.slots|) && SlotOk(s, s.pcs[a.t].i);
    }
    if a.IoDone? {
      assert SlotOk(s, a.i);
    }
  }

  // ----- numbers outlive their inodes -----------------------------------------

  /** iget was called for inode k and has neither found nor named a slot yet. */
  predicate Wants(p: Pc, k: Key) {
    || ((p.Choose? || p.Chosen? || p.Cleaning? || p.Blanked?) && p.why == ForIget(k))
    || (p.Found? && p.want == k)
  }

  ghost predicate SomeoneWants(s: State, k: Key) { exists t :: 0 <= t < |s.pcs| && Wants(s.pcs[t], k) }

  /** iget is called with a number that is no longer allocated, or one that it was called with is freed under it. */
  ghost predicate Late(s: State, a: Action)
    requires Shape(s) && Enabled(s, a)
  {
    match a
    case Get(_, why) => why.ForIget? && why.want !in s.used
    case FreeDone(t) => SomeoneWants(s, s.slots[s.pcs[t].i].key)
    case _ => false
  }

  /** Whatever is in core, or on its way there, is allocated. */
  ghost predicate Named(s: State) {
    && (forall i :: 0 <= i < |s.slots| && s.slots[i].key.dev != 0 ==> s.slots[i].key in s.used)
    && (forall t, k :: 0 <= t < |s.pcs| && Wants(s.pcs[t], k) ==> k in s.used)
  }

  lemma InitNamed(s: State)
    requires Init(s)
    ensures Inv(s) && Named(s)
  {
    InitInv(s);
  }

  /** So new_inode takes a number that is not in core. */
  lemma NamedAfresh(s: State, a: Action)
    requires Inv(s) && Named(s) && Enabled(s, a) && a.NameNew?
    ensures NamesAfresh(s, a)
  {
    var k := Key(s.pcs[a.t].why.dev, a.num);
    assert PcInRange(s.pcs[a.t], |s.slots|);
    forall c | 0 <= c < |s.slots|
      ensures s.slots[c].key != k
    {
      assert s.slots[c].key.dev != 0 ==> s.slots[c].key in s.used;
    }
  }

  /** And free_inode finds the bit set. */
  lemma BitIsSet(s: State, t: nat)
    requires Inv(s) && Named(s) && Enabled(s, FreeDone(t))
    ensures s.slots[s.pcs[t].i].key in s.used
  {
    assert PcOk(s, t) && PcInRange(s.pcs[t], |s.slots|);
  }

  /** Exactly which actions leave a number in core, or on its way there, that is not allocated: the late ones. */
  lemma NamedStepIff(s: State, a: Action)
    requires Inv(s) && Named(s) && Enabled(s, a)
    ensures Named(Next(s, a)) <==> !Late(s, a)
  {
    if Mover(s, a) < |s.pcs| {
      assert PcOk(s, Mover(s, a)) && PcInRange(s.pcs[Mover(s, a)], |s.slots|);
    }
    if a.Get? {
      GetNamedIff(s, a);
    } else if a.FreeDone? {
      FreeNamedIff(s, a);
    } else {
      OtherNamed(s, a);
    }
  }

  lemma GetNamedIff(s: State, a: Action)
    requires Inv(s) && Named(s) && Enabled(s, a) && a.Get?
    ensures Named(Next(s, a)) <==> !Late(s, a)
  {
    if Late(s, a) {
      assert Wants(Next(s, a).pcs[a.t], a.why.want);
    }
  }

  lemma FreeNamedIff(s: State, a: Action)
    requires Inv(s) && Named(s) && Enabled(s, a) && a.FreeDone?
    ensures Named(Next(s, a)) <==> !Late(s, a)
  {
    var i, r := s.pcs[a.t].i, Next(s, a);
    var k := s.slots[i].key;
    assert PcOk(s, a.t) && PcInRange(s.pcs[a.t], |s.slots|);
    forall c | 0 <= c < |s.slots| && r.slots[c].key.dev != 0
      ensures r.slots[c].key in r.used
    {
      assert c != i && s.slots[c].key != k;
    }
    if Late(s, a) {
      var u :| 0 <= u < |s.pcs| && Wants(s.pcs[u], k);
      assert u != a.t && Wants(r.pcs[u], k);
    } else {
      forall u, l | 0 <= u < |r.pcs| && Wants(r.pcs[u], l)
        ensures l in r.used
      {
        assert Wants(s.pcs[u], l) && l != k;
      }
    }
  }

  lemma OtherNamed(s: State, a: Action)
    requires Inv(s) && Named(s) && Enabled(s, a) && !a.Get? && !a.FreeDone?
    requires Mover(s, a) < |s.pcs| ==> PcOk(s, Mover(s, a)) && PcInRange(s.pcs[Mover(s, a)], |s.slots|)
    ensures Named(Next(s, a))
  {
    var i, m, r := Target(s, a), Mover(s, a), Next(s, a);
    if m < |s.pcs| {
      OtherWant(s, a);
    }
    if i != -1 {
      assert SlotOk(s, i);
      OtherKey(s, a);
    }
    forall u, k | 0 <= u < |r.pcs| && Wants(r.pcs[u], k)
      ensures k in r.used
    {
      assert Wants(s.pcs[u], k);
    }
  }

  lemma OtherWant(s: State, a: Action)
    requires Shape(s) && Enabled(s, a) && !a.Get? && Mover(s, a) < |s.pcs|
    ensures forall k :: Wants(NewPc(s, a), k) ==> Wants(s.pcs[Mover(s, a)], k)
  {
  }

  lemma OtherKey(s: State, a: Action)
    requires Inv(s) && Named(s) && Enabled(s, a) && !a.Get? && !a.FreeDone? && Target(s, a) != -1
    requires SlotOk(s, Target(s, a))
    ensures var k := NewSlot(s, a).key;
            k.dev == 0 || k in NewUsed(s, a)
  {
    var x := s.slots[Target(s, a)];
    if a.PutReady? || a.Repeat? {
      assert NewSlot(s, a).key == x.key;
    } else if a.Scan? {
      assert Wants(s.pcs[a.t], s.pcs[a.t].why.want);
    }
  }

  // ----- freeing --------------------------------------------------------------

  /** Task t is past the reference count check of iput for slot i. */
  predicate Ending(p: Pc, i: nat) { (p.PutWrite? || p.PutAgain? || p.Freeing?) && p.i == i }

  ghost predicate SomeoneEnding(s: State, i: nat) { exists t :: 0 <= t < |s.pcs| && Ending(s.pcs[t], i) }

  ghost predicate SomeoneFreeing(s: State, i: nat) { exists t :: 0 <= t < |s.pcs| && s.pcs[t] == Freeing(i) }

  /** iget takes a reference, or someone starts writing the inode, while its last user is in the middle of iput. */
  ghost predicate Intrudes(s: State, a: Action)
    requires Shape(s) && Enabled(s, a)
  {
    match a
    case FoundReady(t) => s.slots[s.pcs[t].i].key == s.pcs[t].want && SomeoneEnding(s, s.pcs[t].i)
    case StartSync(i) => SomeoneFreeing(s, i)
    case ChosenReady(t) => s.slots[s.pcs[t].i].dirt && SomeoneFreeing(s, s.pcs[t].i)
    case _ => false
  }

  /** A task past the check is the only user still. */
  predicate AloneAt(s: State, t: nat)
    requires Pcs(s) && t < |s.pcs|
  {
    var p := s.pcs[t];
    && (p.PutWrite? || p.PutAgain? || p.Freeing? ==> s.slots[p.i].users == multiset{t})
    && (p.Freeing? ==> s.slots[p.i].content.nlinks == 0 && s.slots[p.i].lock.Open?)
  }

  predicate Quiet(s: State)
    requires Pcs(s)
  {
    forall t :: 0 <= t < |s.pcs| ==> AloneAt(s, t)
  }

  lemma OneUser(users: multiset<nat>, t: nat)
    requires t in users && |users| == 1
    ensures users == multiset{t}
  {
    assert users == multiset{t} + (users - multiset{t});
  }

  /** Without an intrusion free_inode finds what it expects, and the last user stays alone. */
  lemma QuietStep(s: State, a: Action)
    requires Inv(s) && Named(s) && Enabled(s, a) && Quiet(s) && !Intrudes(s, a)
    ensures Clean(s, a) && Inv(Next(s, a)) && Quiet(Next(s, a))
  {
    if a.FreeDone? {
      BitIsSet(s, a.t);
      assert PcOk(s, a.t) && AloneAt(s, a.t);
    }
    if a.NameNew? {
      NamedAfresh(s, a);
    }
    InvStep(s, a);
    forall t | 0 <= t < |s.pcs|
      ensures AloneAt(Next(s, a), t)
    {
      assert PcOk(s, t) && AloneAt(s, t);
      if Mover(s, a) < |s.pcs| {
        assert PcOk(s, Mover(s, a)) && AloneAt(s, Mover(s, a)) && PcInRange(s.pcs[Mover(s, a)], |s.slots|);
      }
      if t == Mover(s, a) {
        MoverAlone(s, a);
      } else {
        OthersAlone(s, a, t);
      }
    }
  }

  lemma MoverAlone(s: State, a: Action)
    requires Inv(s) && Enabled(s, a) && Clean(s, a) && Mover(s, a) < |s.pcs| && PcOk(s, Mover(s, a))
    requires AloneAt(s, Mover(s, a))
    requires Inv(Next(s, a))
    ensures AloneAt(Next(s, a), Mover(s, a))
  {
    if a.PutReady? {
      var x := s.slots[s.pcs[a.t].i];
      if |x.users| == 1 {
        OneUser(x.users, a.t);
      } else {
        assert |x.users| > 1;
      }
    }
  }

  lemma OthersAlone(s: State, a: Action, t: nat)
    requires Inv(s) && Enabled(s, a) && Clean(s, a) && !Intrudes(s, a) && t < |s.pcs| && t != Mover(s, a)
    requires PcOk(s, t) && AloneAt(s, t) && Inv(Next(s, a))
    requires Mover(s, a) < |s.pcs| ==> PcOk(s, Mover(s, a)) && AloneAt(s, Mover(s, a))
    ensures AloneAt(Next(s, a), t)
  {
    var p := s.pcs[t];
    if (p.PutWrite? || p.PutAgain? || p.Freeing?) && Target(s, a) == p.i {
      assert Ending(p, p.i) && SlotOk(s, p.i);
    }
  }

  /**
    Exactly when iput is right to go on freeing at `repeat`: if and only if the
    reference count is one, which the code checks before the write but not after,
    and the inode is allocated, which it takes for granted.
   */
  lemma RepeatFreesIff(s: State, t: nat)
    requires Inv(s) && Enabled(s, Repeat(t)) && s.slots[s.pcs[t].i].content.nlinks == 0
    ensures Next(s, Repeat(t)).pcs[t] == Freeing(s.pcs[t].i) && Inv(Next(s, Repeat(t)))
    ensures FreesCleanly(Next(s, Repeat(t)), t) <==>
            |s.slots[s.pcs[t].i].users| == 1 && s.slots[s.pcs[t].i].key in s.used
  {
    InvStep(s, Repeat(t));
    assert PcOk(s, t);
    var users := s.slots[s.pcs[t].i].users;
    if |users| == 1 {
      OneUser(users, t);
    }
  }

  // ----- runs -----------------------------------------------------------------

  /** Each action is possible where it comes and free_inode does not panic. */
  ghost predicate CanRun(s: State, es: seq<Action>)
    requires Shape(s)
    decreases |es|
  {
    || es == []
    || (Enabled(s, es[0]) && (es[0].FreeDone? ==> !Panics(s, es[0].t)) && CanRun(Next(s, es[0]), es[1..]))
  }

  ghost function End(s: State, es: seq<Action>): (r: State)
    requires Shape(s) && CanRun(s, es)
    ensures Shape(r)
    decreases |es|
  {
    if es == [] then s else End(Next(s, es[0]), es[1..])
  }

  /** free_inode clears a slot while the inode in it is being written. */
  ghost predicate CutsWrite(s: State, a: Action)
    requires Shape(s) && Enabled(s, a)
  {
    a.FreeDone? && UnderTransfer(s, a.t)
  }

  /** No iget carries a number over its free, and no inode is freed while it is being written. */
  ghost predicate Timely(s: State, es: seq<Action>)
    requires Shape(s) && CanRun(s, es)
    decreases |es|
  {
    es == [] || (!Late(s, es[0]) && !CutsWrite(s, es[0]) && Timely(Next(s, es[0]), es[1..]))
  }

  lemma TimelyStep(s: State, a: Action)
    requires Inv(s) && Coherent(s) && Named(s) && Enabled(s, a) && !Late(s, a) && !CutsWrite(s, a)
    requires a.FreeDone? ==> !Panics(s, a.t)
    ensures Clean(s, a) && Inv(Next(s, a)) && Coherent(Next(s, a)) && Named(Next(s, a))
  {
    if a.NameNew? {
      NamedAfresh(s, a);
    }
    CoherentStep(s, a);
    NamedStepIff(s, a);
  }

  /**
    Over every run of any number of tasks in which free_inode does not panic, no
    iget carries a number over its free, and no inode is freed while it is being
    written: one slot for each inode, holding its last contents, and allocated.
    That new_inode finds a number nobody has in core follows.
   */
  lemma {:induction false} AlwaysUniqueAndCoherent(s: State, es: seq<Action>)
    requires Inv(s) && Coherent(s) && Named(s) && CanRun(s, es) && Timely(s, es)
    ensures Inv(End(s, es)) && Unique(End(s, es)) && Coherent(End(s, es)) && Named(End(s, es))
    decreases |es|
  {
    if es != [] {
      TimelyStep(s, es[0]);
      AlwaysUniqueAndCoherent(Next(s, es[0]), es[1..]);
    }
  }

  /**
    Each action is possible where it comes, does not intrude and is not late;
    whether free_inode succeeds is not asked.
   */
  ghost predicate Undisturbed(s: State, es: seq<Action>)
    requires Shape(s)
    decreases |es|
  {
    es == [] || (Enabled(s, es[0]) && !Intrudes(s, es[0]) && !Late(s, es[0]) && Undisturbed(Next(s, es[0]), es[1..]))
  }

  /** Over every such run free_inode never panics and never clears an inode that is being written. */
  lemma {:induction false} UndisturbedRunsFreeCleanly(s: State, es: seq<Action>)
    requires Inv(s) && Named(s) && Quiet(s) && Undisturbed(s, es)
    ensures CanRun(s, es) && Timely(s, es) && Inv(End(s, es)) && Named(End(s, es)) && Quiet(End(s, es))
    decreases |es|
  {
    if es != [] {
      QuietStep(s, es[0]);
      NamedStepIff(s, es[0]);
      UndisturbedRunsFreeCleanly(Next(s, es[0]), es[1..]);
    }
  }

  /** Both theorems over runs from the empty table. */
  lemma RunsFromEmptyTable(s: State, es: seq<Action>)
    requires Init(s)
    ensures CanRun(s, es) && Timely(s, es) ==>
              Unique(End(s, es)) && Coherent(End(s, es)) && Named(End(s, es))
    ensures Undisturbed(s, es) ==> CanRun(s, es) && Timely(s, es)
  {
    InitNamed(s);
    InitCoherent(s);
    if CanRun(s, es) && Timely(s, es) {
      AlwaysUniqueAndCoherent(s, es);
    }
    if Undisturbed(s, es) {
      UndisturbedRunsFreeCleanly(s, es);
    }
  }
}

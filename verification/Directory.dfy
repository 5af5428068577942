/**
  Directories (fs/namei.c): entries of 16 bytes in blocks of 64, found by a
  linear search and reused when their inode number is zero.  To its callers a
  directory is a finite map from names, cut to 14 bytes, to inode numbers.

  The directory has no holes, as in a file system made by mkfs and this code.
 */
module Directory {

  const NAME_LEN: nat := 14

  datatype Entry = Entry(inode: nat, name: seq<nat>)

  const FREE := Entry(0, [])

  /** A path component: no NUL in it. */
  predicate NulFree(name: seq<nat>) { forall i :: 0 <= i < |name| ==> name[i] != 0 }

  function Cut(name: seq<nat>): seq<nat> { if |name| > NAME_LEN then name[..NAME_LEN] else name }

  /** What add_entry stores, and the key of the map: 14 bytes, filled up with NULs. */
  function Key(name: seq<nat>): (k: seq<nat>)
    ensures |k| == NAME_LEN
  {
    Cut(name) + seq(NAME_LEN - |Cut(name)|, _ => 0)
  }

  /** A stored name has nothing after its first NUL. */
  predicate Padded(k: seq<nat>) { |k| == NAME_LEN && forall i, j :: 0 <= i < j < NAME_LEN && k[i] == 0 ==> k[j] == 0 }

  predicate AllOk(es: seq<Entry>) { forall i :: 0 <= i < |es| ==> EntryOk(es[i]) }

  predicate EntryOk(e: Entry) { e.inode != 0 ==> Padded(e.name) }

  /** match, for a name already cut. */
  predicate Match(name: seq<nat>, e: Entry)
    requires EntryOk(e)
  {
    && e.inode != 0 && |name| <= NAME_LEN
    && (|name| < NAME_LEN ==> e.name[|name|] == 0)
    && name == e.name[..|name|]
  }

  lemma KeyPadded(name: seq<nat>)
    requires NulFree(name)
    ensures Padded(Key(name))
  {
  }

  /** match compares the stored names. */
  lemma MatchIffSame(name: seq<nat>, e: Entry)
    requires NulFree(name) && EntryOk(e)
    ensures Match(Cut(name), e) <==> e.inode != 0 && e.name == Key(name)
  {
    var c := Cut(name);
    if Match(c, e) {
      forall i | 0 <= i < NAME_LEN
        ensures e.name[i] == Key(name)[i]
      {
        if i < |c| {
          assert e.name[..|c|][i] == e.name[i];
        }
      }
    }
    if e.name == Key(name) {
      assert Key(name)[..|c|] == c;
    }
  }

  /** Two names are the same to a directory exactly when their first 14 bytes are. */
  lemma SameNameIff(a: seq<nat>, b: seq<nat>)
    requires NulFree(a) && NulFree(b)
    ensures Key(a) == Key(b) <==> (if |a| > 14 then a[..14] else a) == (if |b| > 14 then b[..14] else b)
    ensures forall i :: 0 <= i < 14 ==> Key(a)[i] == if i < |a| then a[i] else 0
  {
    var c, d := Cut(a), Cut(b);
    assert |c| < NAME_LEN ==> Key(a)[|c|] == 0;
    assert |d| < NAME_LEN ==> Key(b)[|d|] == 0;
    assert forall i :: 0 <= i < |c| ==> Key(a)[i] == a[i] && a[i] != 0;
    assert forall i :: 0 <= i < |d| ==> Key(b)[i] == b[i] && b[i] != 0;
    if Key(a) == Key(b) {
      assert Key(a)[..|c|] == c && Key(b)[..|d|] == d;
    }
  }

  // ----- the map --------------------------------------------------------------

  predicate Live(es: seq<Entry>, i: nat, k: seq<nat>) { i < |es| && es[i].inode != 0 && es[i].name == k }

  /** The first live entry with this name from i on, |es| if none. */
  function First(es: seq<Entry>, k: seq<nat>, i: nat): (j: nat)
    requires i <= |es|
    ensures i <= j <= |es| && (j < |es| ==> Live(es, j, k))
    ensures forall c :: i <= c < j ==> !Live(es, c, k)
    decreases |es| - i
  {
    if i == |es| || Live(es, i, k) then i else First(es, k, i + 1)
  }

  /** What one comparison of the search tells. */
  lemma Seen(es: seq<Entry>, name: seq<nat>, i: nat)
    requires AllOk(es) && NulFree(name) && i < |es|
    ensures Match(Cut(name), es[i]) <==> Live(es, i, Key(name))
    ensures First(es, Key(name), i) == if Live(es, i, Key(name)) then i else First(es, Key(name), i + 1)
  {
    MatchIffSame(name, es[i]);
  }

  function Names(es: seq<Entry>): set<seq<nat>> { set i | 0 <= i < |es| && es[i].inode != 0 :: es[i].name }

  /** The directory as a map: the first entry with a name counts. */
  function Contents(es: seq<Entry>): map<seq<nat>, nat> {
    map k | k in Names(es) && First(es, k, 0) < |es| :: es[First(es, k, 0)].inode
  }

  lemma ContentsAt(es: seq<Entry>, k: seq<nat>)
    ensures k in Contents(es) <==> First(es, k, 0) < |es|
    ensures k in Contents(es) ==> Contents(es)[k] == es[First(es, k, 0)].inode
  {
    if First(es, k, 0) < |es| {
      assert Live(es, First(es, k, 0), k);
    }
  }

  /** No name occurs twice. */
  predicate Unique(es: seq<Entry>) {
    forall i, j :: 0 <= i < j < |es| && es[i].inode != 0 && es[j].inode != 0 ==> es[i].name != es[j].name
  }

  /** Entry i changed, or added at the end. */
  function Put(es: seq<Entry>, i: nat, e: Entry): (r: seq<Entry>)
    requires i <= |es|
    ensures |r| >= |es| && i < |r| && r[i] == e && forall j :: 0 <= j < |r| && j != i ==> j < |es| && r[j] == es[j]
  {
    if i < |es| then es[i := e] else es + [e]
  }

  predicate Unused(es: seq<Entry>, i: nat) { i == |es| || (i < |es| && es[i].inode == 0) }

  lemma FirstIs(es: seq<Entry>, k: seq<nat>, j: nat)
    requires Live(es, j, k) && Unique(es)
    ensures First(es, k, 0) == j
  {
  }

  lemma NotThere(es: seq<Entry>, k: seq<nat>)
    requires k !in Contents(es)
    ensures forall j: nat :: !Live(es, j, k)
  {
    ContentsAt(es, k);
  }

  lemma PutKeepsUnique(es: seq<Entry>, i: nat, k: seq<nat>, ino: nat)
    requires i <= |es| && Unique(es) && (ino == 0 || forall j: nat :: !Live(es, j, k))
    ensures Unique(Put(es, i, Entry(ino, k)))
  {
    var r := Put(es, i, Entry(ino, k));
    forall a, b | 0 <= a < b < |r| && r[a].inode != 0 && r[b].inode != 0
      ensures r[a].name != r[b].name
    {
      assert a != i ==> ino == 0 || !Live(es, a, k);
      assert b != i ==> ino == 0 || !Live(es, b, k);
    }
  }

  /** Two maps agree on n. */
  predicate Agree(m: map<seq<nat>, nat>, r: map<seq<nat>, nat>, n: seq<nat>) {
    (n in r <==> n in m) && (n in m ==> r[n] == m[n])
  }

  lemma Inserted(m: map<seq<nat>, nat>, r: map<seq<nat>, nat>, k: seq<nat>, v: nat)
    requires k in r && r[k] == v && forall n :: n != k ==> Agree(m, r, n)
    ensures r == m[k := v]
  {
    assert forall n :: n != k && n in r ==> Agree(m, r, n);
    assert forall n :: n != k && n in m ==> Agree(m, r, n);
  }

  lemma Unchanged(m: map<seq<nat>, nat>, r: map<seq<nat>, nat>)
    requires forall n :: Agree(m, r, n)
    ensures r == m
  {
    assert forall n :: n in r ==> Agree(m, r, n);
    assert forall n :: n in m ==> Agree(m, r, n);
  }

  lemma Removed(m: map<seq<nat>, nat>, r: map<seq<nat>, nat>, k: seq<nat>)
    requires k !in r && forall n :: n != k ==> Agree(m, r, n)
    ensures r == m - {k}
  {
    assert forall n :: n in r ==> Agree(m, r, n);
    assert forall n :: n != k && n in m ==> Agree(m, r, n);
  }

  /** A name that is not in the directory is added to the map; nothing else changes. */
  lemma PutInserts(es: seq<Entry>, i: nat, k: seq<nat>, ino: nat)
    requires i <= |es| && Unused(es, i) && Unique(es) && k !in Contents(es) && ino != 0
    ensures Unique(Put(es, i, Entry(ino, k))) && Contents(Put(es, i, Entry(ino, k))) == Contents(es)[k := ino]
  {
    var r := Put(es, i, Entry(ino, k));
    NotThere(es, k);
    PutKeepsUnique(es, i, k, ino);
    assert Live(r, i, k);
    FirstIs(r, k, i);
    ContentsAt(r, k);
    forall n | n != k
      ensures Agree(Contents(es), Contents(r), n)
    {
      OthersStay(es, r, i, n);
    }
    Inserted(Contents(es), Contents(r), k, ino);
  }

  /** Names that entry i neither has nor had are found where they were. */
  lemma OthersStay(es: seq<Entry>, r: seq<Entry>, i: nat, n: seq<nat>)
    requires i <= |es| && |es| <= |r| <= |es| + 1 && i < |r| && Unique(es) && Unique(r) && !Live(es, i, n)
    requires !Live(r, i, n)
    requires forall j :: 0 <= j < |r| && j != i ==> j < |es| && r[j] == es[j]
    ensures Agree(Contents(es), Contents(r), n)
  {
    ContentsAt(es, n);
    ContentsAt(r, n);
    if n in Contents(es) {
      var j := First(es, n, 0);
      assert Live(r, j, n);
      FirstIs(r, n, j);
    }
    if n in Contents(r) {
      var j := First(r, n, 0);
      assert Live(es, j, n);
    }
  }

  /** Adding keeps names unique exactly when the caller has looked up first and found nothing. */
  lemma PutUniqueIff(es: seq<Entry>, i: nat, k: seq<nat>, ino: nat)
    requires i <= |es| && Unused(es, i) && Unique(es) && ino != 0
    ensures Unique(Put(es, i, Entry(ino, k))) <==> k !in Contents(es)
  {
    ContentsAt(es, k);
    if k in Contents(es) {
      var j := First(es, k, 0);
      var r := Put(es, i, Entry(ino, k));
      assert Live(es, j, k) && j != i && r[j] == es[j];
      assert r[i].name == r[j].name;
    } else {
      PutInserts(es, i, k, ino);
    }
  }

  lemma ClearKeepsUnique(es: seq<Entry>, i: nat)
    requires i < |es| && Unique(es)
    ensures Unique(es[i := Entry(0, es[i].name)])
  {
  }

  lemma ClearedIsGone(es: seq<Entry>, i: nat)
    requires i < |es| && es[i].inode != 0 && Unique(es)
    ensures es[i].name !in Contents(es[i := Entry(0, es[i].name)]) && es[i].name in Contents(es)
  {
    var r, k := es[i := Entry(0, es[i].name)], es[i].name;
    ContentsAt(r, k);
    ContentsAt(es, k);
    forall j: nat | j < |r|
      ensures !Live(r, j, k)
    {
      assert j != i ==> r[j] == es[j];
    }
    assert Live(es, i, k);
    FirstIs(es, k, i);
  }

  /** Clearing the entry of a name takes it off the map. */
  lemma ClearRemoves(es: seq<Entry>, i: nat)
    requires i < |es| && es[i].inode != 0 && Unique(es)
    ensures Unique(es[i := Entry(0, es[i].name)])
    ensures Contents(es[i := Entry(0, es[i].name)]) == Contents(es) - {es[i].name}
  {
    ClearKeepsUnique(es, i);
    ClearedIsGone(es, i);
    var r := es[i := Entry(0, es[i].name)];
    forall n | n != es[i].name
      ensures Agree(Contents(es), Contents(r), n)
    {
      OthersStay(es, r, i, n);
    }
    Removed(Contents(es), Contents(r), es[i].name);
  }

  /** Storing a name in an unused entry does not make it live. */
  lemma PutUnused(es: seq<Entry>, i: nat, k: seq<nat>)
    requires i <= |es| && Unused(es, i) && Unique(es)
    ensures Unique(Put(es, i, Entry(0, k))) && Contents(Put(es, i, Entry(0, k))) == Contents(es)
  {
    var r := Put(es, i, Entry(0, k));
    PutKeepsUnique(es, i, k, 0);
    forall n: seq<nat>
      ensures Agree(Contents(es), Contents(r), n)
    {
      OthersStay(es, r, i, n);
    }
    Unchanged(Contents(es), Contents(r));
  }

  /** The first unused entry, from i on. */
  function FirstFree(es: seq<Entry>, i: nat): (j: nat)
    requires i <= |es|
    ensures i <= j <= |es| && Unused(es, j) && forall c :: i <= c < j ==> es[c].inode != 0
    decreases |es| - i
  {
    if i == |es| || es[i].inode == 0 then i else FirstFree(es, i + 1)
  }

  lemma PutOk(es: seq<Entry>, i: nat, e: Entry)
    requires AllOk(es) && i <= |es| && EntryOk(e)
    ensures AllOk(Put(es, i, e))
  {
  }

  // ----- blocks ---------------------------------------------------------------

  predicate Full(blocks: seq<seq<Entry>>) { forall b :: 0 <= b < |blocks| ==> |blocks[b]| == 64 }

  /** The first n entries, block after block. */
  function Flat(blocks: seq<seq<Entry>>, n: nat): (es: seq<Entry>)
    requires Full(blocks) && n <= 64 * |blocks|
    ensures |es| == n && forall i :: 0 <= i < n ==> es[i] == blocks[i / 64][i % 64]
  {
    seq(n, i requires 0 <= i < n => blocks[i / 64][i % 64])
  }

  lemma Split(b: nat, d: nat)
    requires d < 64
    ensures (64 * b + d) / 64 == b && (64 * b + d) % 64 == d
  {
  }

  lemma FlatAt(blocks: seq<seq<Entry>>, n: nat, b: nat, d: nat)
    requires Full(blocks) && n <= 64 * |blocks| && d < 64 && 64 * b + d < n
    ensures b < |blocks| && Flat(blocks, n)[64 * b + d] == blocks[b][d]
  {
    Split(b, d);
  }

  lemma FlatStore(blocks: seq<seq<Entry>>, n: nat, b: nat, d: nat, e: Entry)
    requires Full(blocks) && n <= 64 * |blocks| && d < 64 && 64 * b + d < n
    ensures b < |blocks| && Full(blocks[b := blocks[b][d := e]])
    ensures Flat(blocks[b := blocks[b][d := e]], n) == Flat(blocks, n)[64 * b + d := e]
  {
    var r := blocks[b := blocks[b][d := e]];
    Split(b, d);
    forall i | 0 <= i < n
      ensures Flat(r, n)[i] == Flat(blocks, n)[64 * b + d := e][i]
    {
      assert i == 64 * (i / 64) + i % 64;
    }
  }

  /** One more entry of the blocks counts. */
  lemma FlatGrows(blocks: seq<seq<Entry>>, n: nat, b: nat, d: nat)
    requires Full(blocks) && n < 64 * |blocks| && d < 64 && n == 64 * b + d
    ensures b < |blocks| && Flat(blocks, n + 1) == Flat(blocks, n) + [blocks[b][d]]
  {
    Split(b, d);
  }

  lemma FlatMore(blocks: seq<seq<Entry>>, n: nat, more: seq<Entry>)
    requires Full(blocks) && n <= 64 * |blocks| && |more| == 64
    ensures Full(blocks + [more]) && Flat(blocks + [more], n) == Flat(blocks, n)
  {
  }

  function NewBlock(): (b: seq<Entry>)
    ensures |b| == 64
  {
    seq(64, _ => Entry(0, seq(NAME_LEN, _ => 0)))
  }

  // ----- the code -------------------------------------------------------------

  datatype Found = NotFound | At(block: nat, de: nat)

  class Dir {
    var blocks: seq<seq<Entry>>
    var size: nat

    /** i_size covers `size` entries. */
    ghost predicate Shape()
      reads this
    {
      blocks != [] && size <= 64 * |blocks| && Full(blocks)
    }

    ghost function Entries(): (es: seq<Entry>)
      requires Shape()
      reads this
      ensures |es| == size
    {
      Flat(blocks, size)
    }

    ghost predicate Valid()
      reads this
    {
      Shape() && AllOk(Entries()) && Unique(Entries())
    }

    /** mkdir: one cleared block and no entries yet. */
    constructor ()
      ensures Valid() && Contents(Entries()) == map[]
    {
      blocks := [NewBlock()];
      size := 0;
      new;
      assert Entries() == [];
    }

    /** find_entry. */
    method FindEntry(name: seq<nat>) returns (f: Found)
      requires Valid() && NulFree(name)
      ensures name == [] ==> f.NotFound?
      ensures name != [] ==> (f.At? <==> Key(name) in Contents(Entries()))
      ensures f.At? ==> f.de < 64 && 64 * f.block + f.de == First(Entries(), Key(name), 0)
      ensures f.At? ==> Live(Entries(), 64 * f.block + f.de, Key(name))
    {
      ghost var es, k := Entries(), Key(name);
      ContentsAt(es, k);
      var cut := Cut(name);
      if cut == [] {
        return NotFound;
      }
      var i, block, de := 0, 0, 0;
      while i < size
        invariant 0 <= i <= size && i == 64 * block + de && de <= 64
        invariant First(es, k, 0) == First(es, k, i)
        decreases size - i
      {
        if de >= 64 {
          block := i / 64;
          de := 0;
        }
        FlatAt(blocks, size, block, de);
        Seen(es, name, i);
        if Match(cut, blocks[block][de]) {
          assert First(es, k, 0) == i == 64 * block + de;
          return At(block, de);
        }
        de := de + 1;
        i := i + 1;
      }
      return NotFound;
    }

    /** The new block that create_block gives, if there is one. */
    method Grow()
      requires Shape()
      modifies this`blocks
      ensures Shape() && Entries() == old(Entries()) && |blocks| == |old(blocks)| + 1
    {
      FlatMore(blocks, size, NewBlock());
      blocks := blocks + [NewBlock()];
    }

    method Store(block: nat, de: nat, e: Entry)
      requires Shape() && de < 64 && 64 * block + de < size
      modifies this`blocks
      ensures Shape() && Entries() == old(Entries())[64 * block + de := e]
    {
      FlatStore(blocks, size, block, de, e);
      blocks := blocks[block := blocks[block][de := e]];
    }

    /** The entry just behind the last becomes part of the directory, unused. */
    method Extend(block: nat, de: nat)
      requires Shape() && de < 64 && block < |blocks| && 64 * block + de == size
      modifies this
      ensures Shape() && size == old(size) + 1 && Entries() == old(Entries()) + [Entry(0, old(blocks[block][de].name))]
    {
      FlatGrows(blocks, size, block, de);
      size := size + 1;
      Store(block, de, Entry(0, blocks[block][de].name));
    }

    /** The search of add_entry: the first unused entry, or the place behind the last one. */
    method FindFree() returns (block: nat, de: nat)
      requires Valid()
      ensures de < 64 && 64 * block + de == FirstFree(Entries(), 0)
    {
      ghost var es := Entries();
      var i := 0;
      block, de := 0, 0;
      while i < size
        invariant 0 <= i <= size && i == 64 * block + de && de <= 64
        invariant FirstFree(es, 0) == FirstFree(es, i)
      {
        if de >= 64 {
          block := i / 64;
          de := 0;
        }
        Split(block, de);
        assert es[i] == blocks[block][de];
        if blocks[block][de].inode == 0 {
          return;
        }
        de := de + 1;
        i := i + 1;
      }
      if de >= 64 {
        block := i / 64;
        de := 0;
      }
    }

    /**
      add_entry: the name goes to the first unused entry, if need be behind the
      last one or in a new block.  The caller fills in the inode number next.
     */
    method AddEntry(name: seq<nat>, diskFull: bool) returns (f: Found)
      requires Valid() && NulFree(name)
      modifies this
      ensures Valid() && Contents(Entries()) == Contents(old(Entries()))
      ensures f.NotFound? <==> name == [] || (diskFull && FirstFree(old(Entries()), 0) == 64 * old(|blocks|))
      ensures f.NotFound? ==> Entries() == old(Entries())
      ensures f.At? ==> f.de < 64 && 64 * f.block + f.de == FirstFree(old(Entries()), 0) < size
      ensures f.At? ==> Entries() == Put(old(Entries()), FirstFree(old(Entries()), 0), Entry(0, Key(name)))
    {
      if name == [] {
        return NotFound;
      }
      var block, de := FindFree();
      if block >= |blocks| {
        if diskFull {
          return NotFound;
        }
        Grow();
      }
      PutName(block, de, Key(name));
      f := At(block, de);
    }

    /** The rest of add_entry, once the block is there. */
    method PutName(block: nat, de: nat, k: seq<nat>)
      requires Valid() && de < 64 && block < |blocks| && 64 * block + de <= size && Unused(Entries(), 64 * block + de)
      modifies this
      ensures Valid() && Contents(Entries()) == Contents(old(Entries()))
      ensures Entries() == Put(old(Entries()), 64 * block + de, Entry(0, k)) && 64 * block + de < size
    {
      PutUnused(Entries(), 64 * block + de, k);
      PutOk(Entries(), 64 * block + de, Entry(0, k));
      ghost var r := Put(Entries(), 64 * block + de, Entry(0, k));
      if 64 * block + de >= size {
        Extend(block, de);
      }
      Store(block, de, Entry(0, k));
      assert Entries() == r;
    }

    /** The caller of add_entry stores the inode number. */
    method Fill(block: nat, de: nat, inode: nat)
      requires Valid() && de < 64 && 64 * block + de < size && inode != 0
      requires var e := Entries()[64 * block + de]; e.inode == 0 && Padded(e.name) && e.name !in Contents(Entries())
      modifies this
      ensures Valid() && Contents(Entries()) == Contents(old(Entries()))[old(Entries()[64 * block + de].name) := inode]
    {
      ghost var i, es := 64 * block + de, Entries();
      Split(block, de);
      PutInserts(es, i, es[i].name, inode);
      PutOk(es, i, Entry(inode, es[i].name));
      ghost var r := Put(es, i, Entry(inode, es[i].name));
      Store(block, de, Entry(inode, blocks[block][de].name));
      assert Entries() == r;
    }

    /** Clearing the inode number of a live entry. */
    method Clear(block: nat, de: nat)
      requires Valid() && de < 64 && 64 * block + de < size && Entries()[64 * block + de].inode != 0
      modifies this
      ensures Valid() && Contents(Entries()) == Contents(old(Entries())) - {old(Entries()[64 * block + de].name)}
    {
      ghost var i, es := 64 * block + de, Entries();
      Split(block, de);
      ClearRemoves(es, i);
      PutOk(es, i, Entry(0, es[i].name));
      ghost var r := es[i := Entry(0, es[i].name)];
      Store(block, de, Entry(0, blocks[block][de].name));
      assert Entries() == r;
    }

    /** sys_link and open with O_CREAT: look the name up, add it, fill in the inode number. */
    method Link(name: seq<nat>, inode: nat, diskFull: bool) returns (ok: bool)
      requires Valid() && NulFree(name) && inode != 0
      modifies this
      ensures Valid()
      ensures ok ==> Key(name) !in Contents(old(Entries()))
      ensures ok ==> Contents(Entries()) == Contents(old(Entries()))[Key(name) := inode]
      ensures !ok ==> Contents(Entries()) == Contents(old(Entries()))
      ensures !ok ==> name == [] || Key(name) in Contents(old(Entries())) || diskFull
    {
      var found := FindEntry(name);
      if found.At? {
        return false;
      }
      var f := AddEntry(name, diskFull);
      if f.NotFound? {
        return false;
      }
      KeyPadded(name);
      Fill(f.block, f.de, inode);
      ok := true;
    }

    /** sys_unlink and sys_rmdir: the entry is found and its inode number cleared. */
    method Unlink(name: seq<nat>) returns (ok: bool)
      requires Valid() && NulFree(name)
      modifies this
      ensures Valid()
      ensures ok <==> name != [] && Key(name) in Contents(old(Entries()))
      ensures Contents(Entries()) == if ok then Contents(old(Entries())) - {Key(name)} else Contents(old(Entries()))
    {
      var f := FindEntry(name);
      if f.NotFound? {
        return false;
      }
      Clear(f.block, f.de);
      ok := true;
    }
  }
}

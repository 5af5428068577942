/** fs/bitmap.c, _bmap of fs/inode.c and fs/truncate.c, updating the bitmap, inodes and blocks in place. */
module Volume {
  import opened ZoneModel
  import opened ZoneSteps
  import opened ZoneTrees

  const SLOT_BITS: nat := 8192
  const Z_MAP_SLOTS: nat := 8

  /** No data zone has a clear bit. */
  ghost predicate Full(s: Fs)
    requires Shape(s)
  {
    forall z :: DataZone(s, z) ==> Used(s, z)
  }

  /** Blocks of zones that were in use are untouched. */
  ghost predicate KeepsUsedBlocks(s: Fs, r: Fs)
    requires Shape(s) && |r.data| == ZONES
  {
    forall z :: DataZone(s, z) && Used(s, z) ==> r.data[z] == s.data[z]
  }

  ghost predicate UsedStays(s: Fs, r: Fs)
    requires Shape(s) && Shape(r) && r.first == s.first && r.nzones == s.nzones
  {
    forall z :: DataZone(s, z) && Used(s, z) ==> Used(r, z)
  }

  lemma GrowKeepsUsed(s: Fs, p: Pos, z: nat)
    requires Shape(s) && Storable(s, p) && DataZone(s, z) && Storable(Take(s, z), p) && !Used(s, z)
    ensures KeepsUsedBlocks(s, Grow(s, p, z)) && UsedStays(s, Grow(s, p, z))
  {
  }

  /** At most a bit beyond the last data zone changed. */
  ghost predicate SameButSpareBits(s: Fs, r: Fs)
    requires Shape(s)
  {
    && r.first == s.first && r.nzones == s.nzones && r.inodes == s.inodes && r.table == s.table && r.data == s.data
    && |r.bits| == |s.bits| && forall i :: 0 <= i <= s.nzones - s.first ==> r.bits[i] == s.bits[i]
  }

  /** new_block sets the bit before it looks whether the zone exists; the trees do not notice. */
  lemma SpareBitKeeps(s: Fs, bit: nat)
    requires Inv(s) && s.nzones - s.first < bit < |s.bits|
    ensures var r := Fs(s.first, s.nzones, s.bits[bit := true], s.inodes, s.table, s.data);
            Inv(r) && SameButSpareBits(s, r)
  {
    var r := Fs(s.first, s.nzones, s.bits[bit := true], s.inodes, s.table, s.data);
    assert forall p :: ValidPos(r, p) <==> ValidPos(s, p);
    assert forall p | ValidPos(s, p) :: At(r, p) == At(s, p);
  }

  function NoZones(): (t: seq<nat>)
    ensures |t| == 9 && forall i :: 0 <= i < 9 ==> t[i] == 0
  {
    seq(9, _ => 0)
  }

  lemma EmptyTrees(s: Fs)
    requires Shape(s)
    requires forall n :: 0 <= n < |s.inodes| ==> s.inodes[n] == NoZones()
    ensures Inv(s) && forall p | ValidPos(s, p) :: At(s, p) == 0
  {
    assert forall p | ValidPos(s, p) :: At(s, p) == 0;
  }

  /** The places of logical blocks, as opposed to those of table blocks. */
  predicate IsBlockPos(p: Pos) { (p.Direct? && p.i < DIRECT) || p.Ind? || p.Leaf? }

  ghost predicate SameBlocksExcept(s: Fs, r: Fs, p: Pos)
    requires Shape(s) && Shape(r) && |r.inodes| == |s.inodes|
  {
    forall q | ValidPos(s, q) && IsBlockPos(q) && q != p :: At(r, q) == At(s, q)
  }

  /** The logical-to-zone map of every file is unchanged except at block b of file n. */
  ghost predicate MapChangesOnly(s: Fs, r: Fs, n: nat, b: nat)
    requires Shape(s) && Shape(r) && |r.inodes| == |s.inodes|
  {
    forall m, c | 0 <= m < |s.inodes| && 0 <= c < MAX_BLOCKS && (m != n || c != b) :: ZoneOf(r, m, c) == ZoneOf(s, m, c)
  }

  lemma SameBlocksSameMap(s: Fs, r: Fs, n: nat, b: nat)
    requires Shape(s) && Shape(r) && |r.inodes| == |s.inodes| && n < |s.inodes| && b < MAX_BLOCKS
    requires SameBlocksExcept(s, r, BlockPos(n, b))
    ensures MapChangesOnly(s, r, n, b)
  {
    forall m, c | 0 <= m < |s.inodes| && 0 <= c < MAX_BLOCKS && (m != n || c != b)
      ensures ZoneOf(r, m, c) == ZoneOf(s, m, c)
    {
      BlockPosValid(s, n, b);
      BlockPosValid(s, m, c);
      assert BlockPos(m, c) != BlockPos(n, b);
    }
  }

  /** The zone numbers of the two table roots and of the tables under the second are zones of the disk. */
  lemma RootsInRange(s: Fs, n: nat)
    requires Inv(s) && n < |s.inodes|
    ensures s.inodes[n][7] < ZONES && s.inodes[n][8] < ZONES
    ensures forall j :: 0 <= j < PER_BLOCK ==> s.table[s.inodes[n][8]][j] < ZONES || s.inodes[n][8] == 0
  {
    assert At(s, Direct(n, 7)) == s.inodes[n][7] && At(s, Direct(n, 8)) == s.inodes[n][8];
    forall j | 0 <= j < PER_BLOCK
      ensures s.table[s.inodes[n][8]][j] < ZONES || s.inodes[n][8] == 0
    {
      assert At(s, Dind(n, j)) == InTable(s, s.inodes[n][8], j);
    }
  }

  /** The map of a file, first zone numbers, then one table, then the tables that a table names. */
  lemma MapOnFields(s: Fs, n: nat, b: nat)
    requires Inv(s) && n < |s.inodes| && b < MAX_BLOCKS
    ensures s.inodes[n][7] < ZONES && s.inodes[n][8] < ZONES
    ensures b < 7 ==> ZoneOf(s, n, b) == s.inodes[n][b]
    ensures 7 <= b < 519 ==> ZoneOf(s, n, b) == if s.inodes[n][7] == 0 then 0 else s.table[s.inodes[n][7]][b - 7]
    ensures 519 <= b && s.inodes[n][8] == 0 ==> ZoneOf(s, n, b) == 0
    ensures 519 <= b && s.inodes[n][8] != 0 ==>
              var t := s.table[s.inodes[n][8]][(b - 519) / 512];
              t < ZONES && ZoneOf(s, n, b) == if t == 0 then 0 else s.table[t][(b - 519) % 512]
  {
    RootsInRange(s, n);
    BlockPosValid(s, n, b);
  }

  /** The other way round: every entry of every table of a file is the zone of one block of it. */
  lemma EntryOnMap(s: Fs, n: nat, j: nat, k: nat)
    requires Inv(s) && n < |s.inodes| && j < 512 && k < 512
    ensures s.inodes[n][7] < ZONES && s.inodes[n][8] < ZONES
    ensures s.inodes[n][7] != 0 ==> s.table[s.inodes[n][7]][k] == ZoneOf(s, n, 7 + k)
    ensures s.inodes[n][8] != 0 ==>
              var t := s.table[s.inodes[n][8]][j];
              t != 0 ==> t < ZONES && s.table[t][k] == ZoneOf(s, n, 519 + 512 * j + k)
  {
    assert (512 * j + k) / 512 == j && (512 * j + k) % 512 == k;
    MapOnFields(s, n, 7 + k);
    MapOnFields(s, n, 519 + 512 * j + k);
  }

  /** What one call of _bmap for position p has done to the file system. */
  ghost predicate Placed(s: Fs, r: Fs, p: Pos, create: bool, z: nat)
    requires Shape(s) && Shape(r) && r.first == s.first && r.nzones == s.nzones && |r.inodes| == |s.inodes|
    requires ValidPos(s, p)
  {
    && z == At(r, p) && SameBlocksExcept(s, r, p) && (!create ==> r == s) && (At(s, p) != 0 ==> z == At(s, p))
    && (At(s, p) == 0 && z != 0 ==> DataZone(r, z) && !Used(s, z) && r.data[z] == ZeroBlock())
    && (create && z == 0 ==> Full(r)) && KeepsUsedBlocks(s, r) && UsedStays(s, r)
  }

  /** Blocks in use stay as they are, over two changes in a row. */
  lemma KeepsTwice(s: Fs, m: Fs, r: Fs)
    requires Shape(s) && Shape(m) && Shape(r) && m.first == s.first == r.first && m.nzones == s.nzones == r.nzones
    requires KeepsUsedBlocks(s, m) && UsedStays(s, m) && KeepsUsedBlocks(m, r) && UsedStays(m, r)
    ensures KeepsUsedBlocks(s, r) && UsedStays(s, r)
  {
  }

  lemma EntriesNext(t: seq<nat>, i: nat)
    requires i < |t|
    ensures Entries(t, i + 1) == Entries(t, i) + (if t[i] == 0 then {} else {t[i]})
  {
  }

  /** Entry i of the table that p names is still allocated when free_ind comes to it. */
  lemma NotYetFreed(s: Fs, p: Pos, i: nat, done: set<nat>)
    requires Inv(s) && ValidPos(s, p) && (p.Dind? || p == Direct(p.n, 7)) && At(s, p) != 0 && At(s, p) < ZONES
    requires i < PER_BLOCK
    requires At(s, Child(p, i)) != 0 && done !! IndSet(s, At(s, p))
    ensures var x := At(s, Child(p, i));
            DataZone(s, x) && Used(s, x) && x !in done + Entries(s.table[At(s, p)], i)
                && Minus(s, done + Entries(s.table[At(s, p)], i))[BitOf(s, x)]
  {
    var t := s.table[At(s, p)];
    var x := At(s, Child(p, i));
    assert t[i] == x;
    forall k | 0 <= k < i
      ensures t[k] != x
    {
      assert At(s, Child(p, k)) == t[k] && Child(p, k) != Child(p, i);
    }
  }

  lemma TableNotFreed(s: Fs, p: Pos, done: set<nat>)
    requires Inv(s) && ValidPos(s, p) && (p.Dind? || p == Direct(p.n, 7)) && At(s, p) != 0 && At(s, p) < ZONES
    requires done !! IndSet(s, At(s, p))
    ensures var z := At(s, p);
            DataZone(s, z) && Used(s, z) && z !in done + Entries(s.table[z], PER_BLOCK)
                && Minus(s, done + Entries(s.table[z], PER_BLOCK))[BitOf(s, z)]
  {
    var z := At(s, p);
    forall k | 0 <= k < PER_BLOCK
      ensures s.table[z][k] != z
    {
      assert At(s, Child(p, k)) == s.table[z][k];
    }
  }

  lemma TablesNext(s: Fs, z: nat, j: nat)
    requires Shape(s) && 0 < z < ZONES && j < PER_BLOCK
    ensures Tables(s, z, j + 1) == Tables(s, z, j) + IndSet(s, s.table[z][j])
  {
  }

  /** The tables of one double-indirect block share no zone. */
  lemma TablesDisjoint(s: Fs, n: nat, j: nat)
    requires Inv(s) && n < |s.inodes| && 0 < s.inodes[n][8] < ZONES && j < PER_BLOCK
    ensures Tables(s, s.inodes[n][8], j) !! IndSet(s, s.table[s.inodes[n][8]][j])
  {
    var z := s.inodes[n][8];
    forall x | x in Tables(s, z, j)
      ensures x !in IndSet(s, s.table[z][j])
    {
      var i :| 0 <= i < j && x in IndSet(s, s.table[z][i]);
      var p := IndWitness(s, x, s.table[z][i], Dind(n, i));
      if x in IndSet(s, s.table[z][j]) {
        var q := IndWitness(s, x, s.table[z][j], Dind(n, j));
      }
    }
  }

  /** The double-indirect block itself is still allocated when its tables are gone. */
  lemma RootNotFreed(s: Fs, n: nat, done: set<nat>)
    requires Inv(s) && n < |s.inodes| && 0 < s.inodes[n][8] < ZONES && done !! DindSet(s, s.inodes[n][8])
    ensures var z := s.inodes[n][8];
            DataZone(s, z) && z !in done + Tables(s, z, PER_BLOCK)
                && Minus(s, done + Tables(s, z, PER_BLOCK))[BitOf(s, z)]
  {
    var z := s.inodes[n][8];
    assert At(s, Direct(n, 8)) == z;
    if z in Tables(s, z, PER_BLOCK) {
      var i :| 0 <= i < PER_BLOCK && z in IndSet(s, s.table[z][i]);
      var p := IndWitness(s, z, s.table[z][i], Dind(n, i));
    }
  }

  /** The three parts of a file's tree share no zone. */
  lemma PartsDisjoint(s: Fs, n: nat)
    requires Inv(s) && n < |s.inodes|
    ensures Entries(s.inodes[n], DIRECT) !! IndSet(s, s.inodes[n][7])
    ensures Entries(s.inodes[n], DIRECT) + IndSet(s, s.inodes[n][7]) !! DindSet(s, s.inodes[n][8])
  {
    var direct, ind, dind := Entries(s.inodes[n], DIRECT), IndSet(s, s.inodes[n][7]), DindSet(s, s.inodes[n][8]);
    forall x | x in direct
      ensures x !in ind
    {
      var i :| 0 <= i < DIRECT && s.inodes[n][i] == x;
      assert At(s, Direct(n, i)) == x;
      if x in ind {
        var q := IndWitness(s, x, s.inodes[n][7], Direct(n, 7));
      }
    }
    forall x | x in direct + ind
      ensures x !in dind
    {
      var p: Pos;
      if x in direct {
        var i :| 0 <= i < DIRECT && s.inodes[n][i] == x;
        p := Direct(n, i);
      } else {
        p := IndWitness(s, x, s.inodes[n][7], Direct(n, 7));
      }
      assert At(s, p) == x && x != 0 && p != Direct(n, 8);
      assert At(s, Direct(n, 8)) != x;
      if x in dind {
        var j :| 0 <= j < PER_BLOCK && x in IndSet(s, s.table[s.inodes[n][8]][j]);
        var q := IndWitness(s, x, s.table[s.inodes[n][8]][j], Dind(n, j));
      }
    }
  }

  /** A direct zone is still allocated when truncate comes to it. */
  lemma DirectNotFreed(s: Fs, n: nat, i: nat)
    requires Inv(s) && n < |s.inodes| && i < DIRECT && s.inodes[n][i] != 0
    ensures var x := s.inodes[n][i];
            DataZone(s, x) && Minus(s, Entries(s.inodes[n], i))[BitOf(s, x)]
  {
    assert At(s, Direct(n, i)) == s.inodes[n][i];
    forall k | 0 <= k < i
      ensures s.inodes[n][k] != s.inodes[n][i]
    {
      assert At(s, Direct(n, k)) == s.inodes[n][k] && Direct(n, k) != Direct(n, i);
    }
  }

  class FileSystem {
    const first: nat
    const nzones: nat
    /** s_zmap, slot after slot. */
    const zmap: array<bool>
    const inodes: array<seq<nat>>
    const tables: array<seq<nat>>
    const blocks: array<Block>
    const sizes: array<nat>

    ghost function State(): Fs
      reads zmap, inodes, tables, blocks
    {
      Fs(first, nzones, zmap[..], inodes[..], tables[..], blocks[..])
    }

    ghost predicate Valid()
      reads zmap, inodes, tables, blocks
    {
      Inv(State()) && zmap.Length % SLOT_BITS == 0 && zmap.Length <= SLOT_BITS * Z_MAP_SLOTS
          && sizes.Length == inodes.Length
    }

    /** A freshly made file system: bit 0 set, no zone in use, no file with a block. */
    constructor (first: nat, nzones: nat, slots: nat, ninodes: nat, contents: seq<Block>)
      requires 1 <= first <= nzones <= ZONES && slots <= Z_MAP_SLOTS && nzones - first < SLOT_BITS * slots
      requires |contents| == ZONES
      ensures Valid() && this.first == first && this.nzones == nzones && inodes.Length == ninodes
      ensures fresh(zmap) && fresh(inodes) && fresh(tables) && fresh(blocks) && fresh(sizes)
      ensures forall n, b :: 0 <= n < ninodes && 0 <= b < MAX_BLOCKS ==> ZoneOf(State(), n, b) == 0
      ensures forall n :: 0 <= n < ninodes ==> sizes[n] == 0
    {
      this.first := first;
      this.nzones := nzones;
      zmap := new bool[SLOT_BITS * slots](i => i == 0);
      inodes := new seq<nat>[ninodes](_ => NoZones());
      tables := new seq<nat>[ZONES](_ => ZeroTable());
      blocks := new Block[ZONES](i requires 0 <= i < ZONES => contents[i]);
      sizes := new nat[ninodes](_ => 0);
      new;
      EmptyTrees(State());
      forall n, b | 0 <= n < ninodes && 0 <= b < MAX_BLOCKS
        ensures ZoneOf(State(), n, b) == 0
      {
        BlockPosValid(State(), n, b);
        assert At(State(), BlockPos(n, b)) == 0;
      }
    }

    // ----- single stores ------------------------------------------------------

    method StoreBit(i: nat, v: bool)
      requires i < zmap.Length
      modifies zmap
      ensures zmap[..] == old(zmap[..])[i := v]
    {
      zmap[i] := v;
    }

    /** The zone number at a position, and storing one there. */
    method Read(p: Pos) returns (z: nat)
      requires Shape(State()) && Storable(State(), p)
      ensures z == At(State(), p)
    {
      match p
      case Direct(n, i) => z := inodes[n][i];
      case Ind(n, j) => z := tables[inodes[n][7]][j];
      case Dind(n, j) => z := tables[inodes[n][8]][j];
      case Leaf(n, j, k) => z := tables[tables[inodes[n][8]][j]][k];
    }

    method Store(p: Pos, z: nat)
      requires Shape(State()) && Storable(State(), p)
      modifies inodes, tables
      ensures State() == Put(old(State()), p, z)
    {
      match p
      case Direct(n, i) =>
        inodes[n] := inodes[n][i := z];
        assert inodes[..] == old(inodes[..])[n := inodes[n]];
      case Ind(n, j) =>
        tables[inodes[n][7]] := tables[inodes[n][7]][j := z];
        assert tables[..] == old(tables[..])[inodes[n][7] := tables[inodes[n][7]]];
      case Dind(n, j) =>
        tables[inodes[n][8]] := tables[inodes[n][8]][j := z];
        assert tables[..] == old(tables[..])[inodes[n][8] := tables[inodes[n][8]]];
      case Leaf(n, j, k) =>
        var t := tables[inodes[n][8]][j];
        tables[t] := tables[t][k := z];
        assert tables[..] == old(tables[..])[t := tables[t]];
    }

    // ----- the zone bitmap ----------------------------------------------------

    /** find_first_zero: word by word through one slot; SLOT_BITS if all bits are set. */
    method FindFirstZero(slot: nat) returns (j: nat)
      requires SLOT_BITS * (slot + 1) <= zmap.Length
      ensures j <= SLOT_BITS
      ensures j < SLOT_BITS ==> !zmap[SLOT_BITS * slot + j]
      ensures forall k :: SLOT_BITS * slot <= k < SLOT_BITS * slot + j ==> zmap[k]
    {
      var base := SLOT_BITS * slot;
      j := 0;
      while j < SLOT_BITS
        invariant 0 <= j <= SLOT_BITS && j % 32 == 0
        invariant forall k :: base <= k < base + j ==> zmap[k]
      {
        var bit := 0;
        while bit < 32
          invariant 0 <= bit <= 32
          invariant forall k :: base <= k < base + j + bit ==> zmap[k]
        {
          if !zmap[base + j + bit] {
            j := j + bit;
            return;
          }
          bit := bit + 1;
        }
        j := j + 32;
      }
    }

    /** new_block: the lowest free data zone, its bit set and its block cleared; 0 when there is none. */
    method NewBlock() returns (z: nat)
      requires Valid()
      modifies zmap, tables, blocks
      ensures Valid()
      ensures z != 0 ==> DataZone(old(State()), z) && !Used(old(State()), z) && State() == Take(old(State()), z)
      ensures z != 0 ==> forall y :: DataZone(State(), y) && y < z ==> Used(old(State()), y)
      ensures z == 0 ==> Full(old(State())) && SameButSpareBits(old(State()), State())
    {
      ghost var s := State();
      var i := 0;
      var j := SLOT_BITS;
      while i < Z_MAP_SLOTS
        invariant 0 <= i <= Z_MAP_SLOTS && j == SLOT_BITS && State() == s
        invariant forall k :: 0 <= k < SLOT_BITS * i && k < zmap.Length ==> zmap[k]
      {
        if SLOT_BITS * (i + 1) <= zmap.Length {
          j := FindFirstZero(i);
          if j < SLOT_BITS {
            break;
          }
        }
        i := i + 1;
      }
      if i >= Z_MAP_SLOTS || j >= SLOT_BITS {
        assert forall k :: 0 <= k < |s.bits| ==> s.bits[k] == zmap[k];
        return 0;
      }
      var bit := SLOT_BITS * i + j;
      assert forall k :: 0 <= k < bit ==> s.bits[k] == zmap[k];
      StoreBit(bit, true);
      z := bit + first - 1;
      if z >= nzones {
        SpareBitKeeps(s, bit);
        return 0;
      }
      TakeKeeps(s, z);
      tables[z] := ZeroTable();
      blocks[z] := ZeroBlock();
      assert tables[..] == s.table[z := ZeroTable()];
      assert blocks[..] == s.data[z := ZeroBlock()];
      assert State() == Take(s, z);
    }

    /** free_block: clears the bit; "not in datazone" and "bit already cleared" are ruled out by the precondition. */
    method FreeBlock(z: nat)
      requires Shape(State()) && DataZone(State(), z) && Used(State(), z)
      modifies zmap
      ensures zmap[..] == old(zmap[..])[BitOf(State(), z) := false]
    {
      StoreBit(z - (first - 1), false);
    }

    // ----- _bmap --------------------------------------------------------------

    /** The zone at p, newly allocated if there is none; 0 only when the disk is full. */
    method Ensure(p: Pos) returns (z: nat)
      requires Valid() && Storable(State(), p)
      modifies zmap, inodes, tables, blocks
      ensures Valid() && z == At(State(), p) && Storable(State(), p)
      ensures forall q | ValidPos(old(State()), q) && q != p :: At(State(), q) == At(old(State()), q)
      ensures forall q :: ValidPos(State(), q) <==> ValidPos(old(State()), q)
      ensures At(old(State()), p) != 0 ==> z == At(old(State()), p) && State() == old(State())
      ensures At(old(State()), p) == 0 && z != 0 ==>
                DataZone(State(), z) && !Used(old(State()), z) && blocks[z] == ZeroBlock()
      ensures z == 0 ==> Full(old(State())) && At(old(State()), p) == 0
      ensures KeepsUsedBlocks(old(State()), State()) && UsedStays(old(State()), State())
    {
      z := Read(p);
      if z == 0 {
        z := Provide(p);
      }
    }

    /** A new zone at p, where there is none. */
    method Provide(p: Pos) returns (z: nat)
      requires Valid() && Storable(State(), p) && At(State(), p) == 0
      modifies zmap, inodes, tables, blocks
      ensures Valid() && z == At(State(), p) && Storable(State(), p)
      ensures forall q | ValidPos(old(State()), q) && q != p :: At(State(), q) == At(old(State()), q)
      ensures forall q :: ValidPos(State(), q) <==> ValidPos(old(State()), q)
      ensures z != 0 ==> DataZone(State(), z) && !Used(old(State()), z) && blocks[z] == ZeroBlock()
      ensures z == 0 ==> Full(old(State()))
      ensures KeepsUsedBlocks(old(State()), State()) && UsedStays(old(State()), State())
    {
      ghost var s := State();
      z := NewBlock();
      if z != 0 {
        GrowKeeps(s, p, z);
        GrowKeepsUsed(s, p, z);
        Store(p, z);
      }
    }

    /**
      _bmap: the zone of logical block b.  With `create` it also grows the tree,
      up to three levels, and the map changes at b and nowhere else.
     */
    method Bmap(n: nat, b: nat, create: bool) returns (z: nat)
      requires Valid() && n < inodes.Length && b < MAX_BLOCKS
      modifies zmap, inodes, tables, blocks
      ensures Valid() && z == ZoneOf(State(), n, b) && MapChangesOnly(old(State()), State(), n, b)
      ensures b < 7 ==> z == inodes[n][b]
      ensures 7 <= b < 519 ==>
                inodes[n][7] < ZONES && z == if inodes[n][7] == 0 then 0 else tables[inodes[n][7]][b - 7]
      ensures 519 <= b && inodes[n][8] == 0 ==> z == 0
      ensures 519 <= b && inodes[n][8] != 0 ==>
                && inodes[n][8] < ZONES && tables[inodes[n][8]][(b - 519) / 512] < ZONES
                && z == if tables[inodes[n][8]][(b - 519) / 512] == 0 then 0
                        else tables[tables[inodes[n][8]][(b - 519) / 512]][(b - 519) % 512]
      ensures !create ==> State() == old(State())
      ensures ZoneOf(old(State()), n, b) != 0 ==> z == ZoneOf(old(State()), n, b)
      ensures ZoneOf(old(State()), n, b) == 0 && z != 0 ==>
                DataZone(State(), z) && !Used(old(State()), z) && blocks[z] == ZeroBlock()
      ensures create && z == 0 ==> Full(State())
      ensures KeepsUsedBlocks(old(State()), State()) && UsedStays(old(State()), State())
    {
      ghost var s := State();
      BlockPosValid(s, n, b);
      if b < DIRECT {
        z := Entry(Direct(n, b), create);
      } else if b - DIRECT < PER_BLOCK {
        z := Indirect(n, b - DIRECT, create);
      } else {
        z := DoubleIndirect(n, b - DIRECT - PER_BLOCK, create);
      }
      SameBlocksSameMap(s, State(), n, b);
      MapOnFields(State(), n, b);
    }

    method Indirect(n: nat, k: nat, create: bool) returns (z: nat)
      requires Valid() && n < inodes.Length && k < PER_BLOCK
      modifies zmap, inodes, tables, blocks
      ensures Valid() && Placed(old(State()), State(), Ind(n, k), create, z)
    {
      ghost var s := State();
      var t := Entry(Direct(n, 7), create);
      assert At(State(), Ind(n, k)) == At(s, Ind(n, k));
      if t == 0 {
        return 0;
      }
      z := Leaves(s, Ind(n, k), create);
    }

    method DoubleIndirect(n: nat, k: nat, create: bool) returns (z: nat)
      requires Valid() && n < inodes.Length && k < PER_BLOCK * PER_BLOCK
      modifies zmap, inodes, tables, blocks
      ensures Valid() && Placed(old(State()), State(), Leaf(n, k / PER_BLOCK, k % PER_BLOCK), create, z)
    {
      ghost var s := State();
      ghost var p := Leaf(n, k / PER_BLOCK, k % PER_BLOCK);
      var d := Entry(Direct(n, 8), create);
      ghost var m := State();
      assert At(m, p) == At(s, p);
      if d == 0 {
        return 0;
      }
      var t := Entry(Dind(n, k / PER_BLOCK), create);
      KeepsTwice(s, m, State());
      assert At(State(), p) == At(s, p) && SameBlocksExcept(s, State(), p);
      if t == 0 {
        return 0;
      }
      z := Leaves(s, Leaf(n, k / PER_BLOCK, k % PER_BLOCK), create);
    }

    /** One level of _bmap. */
    method Entry(p: Pos, create: bool) returns (z: nat)
      requires Valid() && Storable(State(), p)
      modifies zmap, inodes, tables, blocks
      ensures Valid() && z == At(State(), p) && Storable(State(), p)
      ensures forall q | ValidPos(old(State()), q) && q != p :: At(State(), q) == At(old(State()), q)
      ensures forall q :: ValidPos(State(), q) <==> ValidPos(old(State()), q)
      ensures !create ==> State() == old(State())
      ensures At(old(State()), p) != 0 ==> z == At(old(State()), p)
      ensures At(old(State()), p) == 0 && z != 0 ==>
                DataZone(State(), z) && !Used(old(State()), z) && blocks[z] == ZeroBlock()
      ensures create && z == 0 ==> Full(State())
      ensures KeepsUsedBlocks(old(State()), State()) && UsedStays(old(State()), State())
    {
      if create {
        z := Ensure(p);
      } else {
        z := Read(p);
      }
    }

    /** The last level, after the tables above it have been found or made. */
    method Leaves(ghost s: Fs, p: Pos, create: bool) returns (z: nat)
      requires Valid() && Storable(State(), p) && IsBlockPos(p)
      requires Inv(s) && s.first == first && s.nzones == nzones && |s.inodes| == inodes.Length && ValidPos(s, p)
      requires SameBlocksExcept(s, State(), p) && At(State(), p) == At(s, p)
      requires KeepsUsedBlocks(s, State()) && UsedStays(s, State()) && (!create ==> State() == s)
      modifies zmap, inodes, tables, blocks
      ensures Valid() && Placed(s, State(), p, create, z)
    {
      ghost var m := State();
      z := Entry(p, create);
      KeepsTwice(s, m, State());
    }

    // ----- truncate -----------------------------------------------------------

    /** free_ind: every zone of one table, then the table block itself. */
    method FreeInd(z: nat, ghost s: Fs, ghost p: Pos, ghost done: set<nat>)
      requires Inv(s) && ValidPos(s, p) && (p.Dind? || p == Direct(p.n, 7)) && At(s, p) == z
      requires first == s.first && nzones == s.nzones && tables[..] == s.table && zmap[..] == Minus(s, done)
      requires Shape(State())
      requires done !! IndSet(s, z)
      modifies zmap
      ensures zmap[..] == Minus(s, done + IndSet(s, z)) && Shape(State())
    {
      if z == 0 {
        assert done + IndSet(s, z) == done;
        return;
      }
      assert DataZone(s, z);
      var i := 0;
      while i < PER_BLOCK
        invariant 0 <= i <= PER_BLOCK && tables[..] == s.table && Shape(State())
        invariant zmap[..] == Minus(s, done + Entries(s.table[z], i))
      {
        var x := tables[z][i];
        assert x == At(s, Child(p, i));
        if x != 0 {
          NotYetFreed(s, p, i, done);
          FreeBlock(x);
          MinusOne(s, done + Entries(s.table[z], i), x);
        }
        EntriesNext(s.table[z], i);
        assert done + Entries(s.table[z], i + 1) == done + Entries(s.table[z], i) + (if x == 0 then {} else {x});
        i := i + 1;
      }
      TableNotFreed(s, p, done);
      FreeBlock(z);
      MinusOne(s, done + Entries(s.table[z], PER_BLOCK), z);
      assert done + IndSet(s, z) == done + Entries(s.table[z], PER_BLOCK) + {z};
    }

    /** free_dind: every table of a double-indirect block, then the block itself. */
    method FreeDind(ghost s: Fs, n: nat, z: nat, ghost done: set<nat>)
      requires Inv(s) && n < |s.inodes| && s.inodes[n][8] == z
      requires first == s.first && nzones == s.nzones && tables[..] == s.table && zmap[..] == Minus(s, done)
      requires Shape(State())
      requires done !! DindSet(s, z)
      modifies zmap
      ensures zmap[..] == Minus(s, done + DindSet(s, z)) && Shape(State())
    {
      if z == 0 {
        assert done + DindSet(s, z) == done;
        return;
      }
      assert At(s, Direct(n, 8)) == z && DataZone(s, z);
      var j := 0;
      assert done + Tables(s, z, 0) == done;
      while j < PER_BLOCK
        invariant 0 <= j <= PER_BLOCK && tables[..] == s.table && Shape(State())
        invariant zmap[..] == Minus(s, done + Tables(s, z, j))
      {
        TablesDisjoint(s, n, j);
        TablesNext(s, z, j);
        assert At(s, Dind(n, j)) == tables[z][j];
        assert done + Tables(s, z, j) !! IndSet(s, tables[z][j]) by {
          assert IndSet(s, s.table[z][j]) <= DindSet(s, z);
        }
        FreeInd(tables[z][j], s, Dind(n, j), done + Tables(s, z, j));
        assert done + Tables(s, z, j + 1) == done + Tables(s, z, j) + IndSet(s, s.table[z][j]);
        j := j + 1;
      }
      RootNotFreed(s, n, done);
      FreeBlock(z);
      MinusOne(s, done + Tables(s, z, PER_BLOCK), z);
      assert done + DindSet(s, z) == done + Tables(s, z, PER_BLOCK) + {z};
    }

    /** The loop over the direct zones. */
    method FreeDirect(n: nat)
      requires Valid() && n < inodes.Length
      modifies zmap, inodes
      ensures Shape(State()) && zmap[..] == Minus(old(State()), Entries(old(inodes[n]), DIRECT))
      ensures inodes[n][7..] == old(inodes[n])[7..] && inodes[n][..7] == seq(7, _ => 0)
      ensures forall m :: 0 <= m < inodes.Length && m != n ==> inodes[m] == old(inodes[m])
    {
      ghost var s := State();
      MinusNone(s);
      assert Entries(s.inodes[n], 0) == {};
      var i := 0;
      while i < DIRECT
        invariant 0 <= i <= DIRECT && Shape(State()) && zmap[..] == Minus(s, Entries(s.inodes[n], i))
        invariant inodes[n][i..] == s.inodes[n][i..] && forall k :: 0 <= k < i ==> inodes[n][k] == 0
        invariant forall m :: 0 <= m < inodes.Length && m != n ==> inodes[m] == s.inodes[m]
      {
        assert inodes[n][i] == inodes[n][i..][0] == s.inodes[n][i];
        if inodes[n][i] != 0 {
          DirectNotFreed(s, n, i);
          FreeBlock(inodes[n][i]);
          MinusOne(s, Entries(s.inodes[n], i), s.inodes[n][i]);
          inodes[n] := inodes[n][i := 0];
        }
        EntriesNext(s.inodes[n], i);
        assert Entries(s.inodes[n], i + 1)
            == Entries(s.inodes[n], i) + (if s.inodes[n][i] == 0 then {} else {s.inodes[n][i]});
        i := i + 1;
      }
    }

    /** truncate: clears exactly the bits of the file's tree; devices and pipes are left alone. */
    method Truncate(n: nat, regularOrDirectory: bool)
      requires Valid() && n < inodes.Length
      modifies zmap, inodes, sizes
      ensures Valid()
      ensures State() == if regularOrDirectory then Truncated(old(State()), n) else old(State())
      ensures sizes[..] == if regularOrDirectory then old(sizes[..])[n := 0] else old(sizes[..])
    {
      if !regularOrDirectory {
        return;
      }
      ghost var s := State();
      PartsDisjoint(s, n);
      FreeDirect(n);
      ghost var done := Entries(s.inodes[n], DIRECT);
      assert inodes[n][7] == inodes[n][7..][0] == s.inodes[n][7];
      assert inodes[n][8] == inodes[n][7..][1] == s.inodes[n][8];
      assert At(s, Direct(n, 7)) == inodes[n][7];
      FreeInd(inodes[n][7], s, Direct(n, 7), done);
      FreeDind(s, n, inodes[n][8], done + IndSet(s, s.inodes[n][7]));
      inodes[n] := inodes[n][7 := 0][8 := 0];
      sizes[n] := 0;
      assert done + IndSet(s, s.inodes[n][7]) + DindSet(s, s.inodes[n][8]) == TreeSet(s, n);
      assert inodes[n] == seq(9, _ => 0);
      assert inodes[..] == s.inodes[n := seq(9, _ => 0)];
      assert State() == Truncated(s, n);
      TruncatedKeeps(s, n);
      assert sizes[..] == old(sizes[..])[n := 0];
    }
  }
}

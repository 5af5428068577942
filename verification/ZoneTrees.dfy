/** All zones of one file, and what is left when they are given back. */
module ZoneTrees {
  import opened ZoneModel

  /** The nonzero entries of the first n of t. */
  function Entries(t: seq<nat>, n: nat): (r: set<nat>)
    requires n <= |t|
  {
    set i | 0 <= i < n && t[i] != 0 :: t[i]
  }

  function IndSet(s: Fs, z: nat): set<nat>
    requires Shape(s)
  {
    if z == 0 || z >= ZONES then {} else {z} + Entries(s.table[z], PER_BLOCK)
  }

  /** The tables under the first n entries of double-indirect block z, with their entries. */
  function Tables(s: Fs, z: nat, n: nat): set<nat>
    requires Shape(s) && 0 < z < ZONES && n <= PER_BLOCK
  {
    set j, x | 0 <= j < n && x in IndSet(s, s.table[z][j]) :: x
  }

  function DindSet(s: Fs, z: nat): set<nat>
    requires Shape(s)
  {
    if z == 0 || z >= ZONES then {} else {z} + Tables(s, z, PER_BLOCK)
  }

  /** Every zone of file n: data, indirect and double-indirect blocks. */
  function TreeSet(s: Fs, n: nat): set<nat>
    requires Shape(s) && n < |s.inodes|
  {
    Entries(s.inodes[n], DIRECT) + IndSet(s, s.inodes[n][7]) + DindSet(s, s.inodes[n][8])
  }

  /** The tree is exactly what stands at the file's positions. */
  lemma TreeIsPositions(s: Fs, n: nat, z: nat)
    requires Inv(s) && n < |s.inodes|
    ensures z in TreeSet(s, n) <==> z != 0 && exists p :: ValidPos(s, p) && p.n == n && At(s, p) == z
  {
    if z in TreeSet(s, n) {
      var p := Witness(s, n, z);
    }
    if z != 0 && exists p :: ValidPos(s, p) && p.n == n && At(s, p) == z {
      var p :| ValidPos(s, p) && p.n == n && At(s, p) == z;
      InTree(s, p);
    }
  }

  lemma InTree(s: Fs, p: Pos)
    requires Inv(s) && ValidPos(s, p) && At(s, p) != 0
    ensures At(s, p) in TreeSet(s, p.n)
  {
    match p
    case Direct(n, i) =>
      assert DataZone(s, At(s, p));
    case Ind(n, j) =>
    case Dind(n, j) =>
      assert DataZone(s, At(s, p)) && At(s, p) in IndSet(s, s.table[s.inodes[n][8]][j]);
    case Leaf(n, j, k) =>
      assert At(s, p) in IndSet(s, s.table[s.inodes[n][8]][j]);
  }

  lemma Witness(s: Fs, n: nat, z: nat) returns (p: Pos)
    requires Shape(s) && n < |s.inodes| && z in TreeSet(s, n)
    ensures ValidPos(s, p) && p.n == n && At(s, p) == z && z != 0
  {
    var r7, r8 := s.inodes[n][7], s.inodes[n][8];
    if z in Entries(s.inodes[n], DIRECT) {
      var i :| 0 <= i < DIRECT && s.inodes[n][i] == z && z != 0;
      p := Direct(n, i);
    } else if z in IndSet(s, r7) {
      p := IndWitness(s, z, r7, Direct(n, 7));
    } else if z == r8 {
      p := Direct(n, 8);
    } else {
      var j :| 0 <= j < PER_BLOCK && z in IndSet(s, s.table[r8][j]);
      p := IndWitness(s, z, s.table[r8][j], Dind(n, j));
    }
  }

  /** The position of entry k of the table that p names. */
  function Child(p: Pos, k: nat): Pos
    requires p.Dind? || p == Direct(p.n, 7)
  {
    if p.Dind? then Leaf(p.n, p.j, k) else Ind(p.n, k)
  }

  lemma IndWitness(s: Fs, z: nat, t: nat, p: Pos) returns (q: Pos)
    requires Shape(s) && ValidPos(s, p) && (p.Dind? || p == Direct(p.n, 7)) && At(s, p) == t && z in IndSet(s, t)
    ensures ValidPos(s, q) && q.n == p.n && At(s, q) == z && z != 0
    ensures (q == p || exists k :: 0 <= k < PER_BLOCK && q == Child(p, k))
  {
    if z == t {
      q := p;
    } else {
      var k :| 0 <= k < PER_BLOCK && s.table[t][k] == z && z != 0;
      q := Child(p, k);
    }
  }

  // ----- giving zones back ----------------------------------------------------

  /** The bitmap with the bits of the zones in zs cleared. */
  function Minus(s: Fs, zs: set<nat>): (b: seq<bool>)
    requires Shape(s)
    ensures |b| == |s.bits|
  {
    seq(|s.bits|, i requires 0 <= i < |s.bits| => s.bits[i] && i + s.first - 1 !in zs)
  }

  lemma MinusOne(s: Fs, zs: set<nat>, z: nat)
    requires Shape(s) && DataZone(s, z)
    ensures Minus(s, zs)[BitOf(s, z) := false] == Minus(s, zs + {z})
  {
  }

  lemma MinusNone(s: Fs)
    requires Shape(s)
    ensures Minus(s, {}) == s.bits
  {
  }

  /** truncate: the file's bits are cleared and its zone numbers zeroed. */
  function Truncated(s: Fs, n: nat): (r: Fs)
    requires Shape(s) && n < |s.inodes|
    ensures r.first == s.first && r.nzones == s.nzones && r.table == s.table && r.data == s.data
  {
    Fs(s.first, s.nzones, Minus(s, TreeSet(s, n)), s.inodes[n := seq(9, _ => 0)], s.table, s.data)
  }

  /** Afterwards the file is all holes, every other file is what it was, and the invariant holds. */
  lemma TruncatedKeeps(s: Fs, n: nat)
    requires Inv(s) && n < |s.inodes|
    ensures var r := Truncated(s, n);
            && Inv(r) && (forall p :: ValidPos(r, p) <==> ValidPos(s, p))
            && (forall p | ValidPos(s, p) :: At(r, p) == if p.n == n then 0 else At(s, p))
            && (forall z | DataZone(s, z) :: Used(r, z) <==> Used(s, z) && z !in TreeSet(s, n))
  {
    var r := Truncated(s, n);
    assert 0 !in TreeSet(s, n) by {
      if 0 in TreeSet(s, n) {
        var p := Witness(s, n, 0);
      }
    }
    assert s.first - 1 !in TreeSet(s, n) by {
      if s.first - 1 in TreeSet(s, n) {
        var p := Witness(s, n, s.first - 1);
      }
    }
    assert Shape(r);
    forall p | ValidPos(s, p)
      ensures At(r, p) == if p.n == n then 0 else At(s, p)
    {
    }
    forall p | ValidPos(r, p) && At(r, p) != 0
      ensures DataZone(r, At(r, p)) && Used(r, At(r, p))
    {
      assert ValidPos(s, p);
      if At(s, p) in TreeSet(s, n) {
        var q := Witness(s, n, At(s, p));
      }
    }
  }
}

/** One zone enters a file's tree: how `_bmap` grows it. */
module ZoneSteps {
  import opened ZoneModel

  /** A zone whose bit is clear stands nowhere. */
  lemma FreeZoneNowhere(s: Fs, z: nat)
    requires Inv(s) && DataZone(s, z) && !Used(s, z)
    ensures forall p | ValidPos(s, p) :: At(s, p) != z
  {
  }

  /** Taking a zone off the bitmap changes nothing in any tree. */
  lemma TakeKeeps(s: Fs, z: nat)
    requires Inv(s) && DataZone(s, z) && !Used(s, z)
    ensures Inv(Take(s, z)) && (forall p :: ValidPos(Take(s, z), p) <==> ValidPos(s, p))
    ensures forall p | ValidPos(s, p) :: At(Take(s, z), p) == At(s, p)
  {
    FreeZoneNowhere(s, z);
    var r := Take(s, z);
    forall p | ValidPos(s, p)
      ensures At(r, p) == At(s, p)
    {
      match p
      case Direct(_, _) =>
      case Ind(n, _) => assert At(s, Direct(n, 7)) != z;
      case Dind(n, _) => assert At(s, Direct(n, 8)) != z;
      case Leaf(n, j, _) => assert At(s, Direct(n, 8)) != z && At(s, Dind(n, j)) != z;
    }
    forall p | ValidPos(r, p) && At(r, p) != 0
      ensures DataZone(r, At(r, p)) && Used(r, At(r, p))
    {
      assert ValidPos(s, p);
    }
  }

  /** Two positions in one table block belong to the same parent. */
  lemma SameTable(s: Fs, p: Pos, q: Pos)
    requires Inv(s) && Storable(s, p) && Storable(s, q) && !p.Direct? && !q.Direct? && TableOf(s, p) == TableOf(s, q)
    requires IndexOf(p) == IndexOf(q)
    ensures p == q
  {
    assert At(s, Parent(p)) == TableOf(s, p) && At(s, Parent(q)) == TableOf(s, q);
    assert Parent(p) == Parent(q);
  }

  function Parent(p: Pos): Pos
    requires !p.Direct?
  {
    match p
    case Ind(n, _) => Direct(n, 7)
    case Dind(n, _) => Direct(n, 8)
    case Leaf(n, j, _) => Dind(n, j)
  }

  /** Storing at p changes no entry of any other table, and no other entry of its own. */
  lemma PutTable(s: Fs, p: Pos, z: nat, q: Pos)
    requires Inv(s) && Storable(s, p) && ValidPos(s, q) && q != p && !q.Direct?
    ensures Storable(s, q) ==> Put(s, p, z).table[TableOf(s, q)][IndexOf(q)] == s.table[TableOf(s, q)][IndexOf(q)]
  {
    if Storable(s, q) && !p.Direct? && TableOf(s, p) == TableOf(s, q) && IndexOf(p) == IndexOf(q) {
      SameTable(s, p, q);
    }
  }

  /** Putting a zone where none was: p gets it, the rest of the trees stays. */
  lemma PutAt(s: Fs, p: Pos, z: nat, q: Pos)
    requires Inv(s) && Storable(s, p) && At(s, p) == 0 && ValidPos(s, q)
    requires 0 < z < ZONES && s.table[z] == ZeroTable() && forall x | ValidPos(s, x) :: At(s, x) != z
    ensures ValidPos(Put(s, p, z), q) && At(Put(s, p, z), q) == if q == p then z else At(s, q)
  {
    var r := Put(s, p, z);
    if q != p && !q.Direct? {
      PutTable(s, p, z, q);
    }
    match q
    case Direct(_, _) =>
    case Ind(n, j) =>
    case Dind(n, j) =>
    case Leaf(n, j, k) =>
      assert At(s, Direct(n, 8)) != z && At(s, Dind(n, j)) != z;
      if p != Dind(n, j) {
        PutTable(s, p, z, Dind(n, j));
      } else {
        assert At(r, Dind(n, j)) == z;
      }
  }

  /** What `_bmap` does for one level: a fresh cleared zone is taken and recorded at p. */
  function Grow(s: Fs, p: Pos, z: nat): (r: Fs)
    requires Shape(s) && Storable(s, p) && DataZone(s, z) && Storable(Take(s, z), p)
    ensures Shape(r)
  {
    Put(Take(s, z), p, z)
  }

  /** The map from logical blocks to zones gains p and is otherwise unchanged; separation and allocation hold again. */
  lemma GrowKeeps(s: Fs, p: Pos, z: nat)
    requires Inv(s) && Storable(s, p) && At(s, p) == 0 && DataZone(s, z) && !Used(s, z)
    ensures Storable(Take(s, z), p)
    ensures var r := Grow(s, p, z);
            && Inv(r) && (forall q :: ValidPos(r, q) <==> ValidPos(s, q))
            && (forall q | ValidPos(s, q) :: At(r, q) == if q == p then z else At(s, q))
            && r.bits == s.bits[BitOf(s, z) := true] && r.data == s.data[z := ZeroBlock()]
  {
    TakeKeeps(s, z);
    FreeZoneNowhere(s, z);
    var m := Take(s, z);
    if !p.Direct? {
      assert At(m, Parent(p)) == At(s, Parent(p));
    }
    var r := Grow(s, p, z);
    forall q | ValidPos(s, q)
      ensures At(r, q) == if q == p then z else At(s, q)
    {
      PutAt(m, p, z, q);
    }
    forall q | ValidPos(r, q) && At(r, q) != 0
      ensures DataZone(r, At(r, q)) && Used(r, At(r, q))
    {
      assert ValidPos(s, q);
    }
  }
}

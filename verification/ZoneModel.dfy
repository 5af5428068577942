/**
  The zones of one minix file system: the bitmap, the nine zone numbers of each
  inode, and the blocks, seen either as tables of 512 zone numbers or as 1024
  bytes.  `Volume` in Volume.dfy holds the same parts as arrays.
 */
module ZoneModel {

  const BLOCK_SIZE: nat := 1024
  const PER_BLOCK: nat := 512          // zone numbers in an indirect block
  const DIRECT: nat := 7
  const ZONES: nat := 0x10000          // zone numbers are 16 bits wide
  const MAX_BLOCKS: nat := 262663      // 7 + 512 + 512 * 512

  newtype Byte = b: int | 0 <= b < 256
  type Block = s: seq<Byte> | |s| == BLOCK_SIZE witness seq(BLOCK_SIZE, _ => 0)

  function ZeroBlock(): Block { seq(BLOCK_SIZE, _ => 0) }

  function ZeroTable(): (t: seq<nat>)
    ensures |t| == PER_BLOCK && forall i :: 0 <= i < PER_BLOCK ==> t[i] == 0
  {
    seq(PER_BLOCK, _ => 0)
  }

  /** first and nzones are s_firstdatazone and s_nzones; bit i of the bitmap is zone i + first - 1. */
  datatype Fs = Fs(first: nat, nzones: nat, bits: seq<bool>, inodes: seq<seq<nat>>, table: seq<seq<nat>>,
          data: seq<Block>)

  predicate DataZone(s: Fs, z: int) { s.first <= z < s.nzones }

  /** Bit 0 is never handed out: mkfs sets it. */
  predicate Shape(s: Fs) {
    && 1 <= s.first <= s.nzones <= ZONES && |s.table| == ZONES && |s.data| == ZONES
    && s.nzones - s.first < |s.bits| && s.bits[0]
    && (forall n :: 0 <= n < |s.inodes| ==> |s.inodes[n]| == 9)
    && (forall z :: 0 <= z < ZONES ==> |s.table[z]| == PER_BLOCK)
  }

  function BitOf(s: Fs, z: nat): nat
    requires s.first <= z
  {
    z - s.first + 1
  }

  predicate Used(s: Fs, z: nat)
    requires Shape(s) && DataZone(s, z)
  {
    s.bits[BitOf(s, z)]
  }

  /** Every place where a zone number of inode n can stand. */
  datatype Pos =
    | Direct(n: nat, i: nat)             // i_zone[i], the two table roots included
    | Ind(n: nat, j: nat)                // entry j of the indirect block
    | Dind(n: nat, j: nat)               // entry j of the double-indirect block
    | Leaf(n: nat, j: nat, k: nat)       // entry k of the table that Dind(n, j) names

  predicate ValidPos(s: Fs, p: Pos) {
    && p.n < |s.inodes|
    && match p
       case Direct(_, i) => i < 9
       case Ind(_, j) => j < PER_BLOCK
       case Dind(_, j) => j < PER_BLOCK
       case Leaf(_, j, k) => j < PER_BLOCK && k < PER_BLOCK
  }

  /** Entry k of table block z; there is no table at zone 0. */
  function InTable(s: Fs, z: nat, k: nat): nat
    requires Shape(s) && k < PER_BLOCK
  {
    if z == 0 || z >= ZONES then 0 else s.table[z][k]
  }

  function At(s: Fs, p: Pos): nat
    requires Shape(s) && ValidPos(s, p)
  {
    match p
    case Direct(n, i) => s.inodes[n][i]
    case Ind(n, j) => InTable(s, s.inodes[n][7], j)
    case Dind(n, j) => InTable(s, s.inodes[n][8], j)
    case Leaf(n, j, k) => InTable(s, InTable(s, s.inodes[n][8], j), k)
  }

  /** No zone stands at two places, of one file or of two. */
  ghost predicate Separate(s: Fs)
    requires Shape(s)
  {
    forall p, q | ValidPos(s, p) && ValidPos(s, q) :: At(s, p) != 0 && At(s, p) == At(s, q) ==> p == q
  }

  /** Every zone in a tree is a data zone whose bit is set. */
  ghost predicate Allocated(s: Fs)
    requires Shape(s)
  {
    forall p | ValidPos(s, p) :: At(s, p) != 0 ==> DataZone(s, At(s, p)) && Used(s, At(s, p))
  }

  ghost predicate Inv(s: Fs) { Shape(s) && Separate(s) && Allocated(s) }

  /** Where the zone of logical block b of file n stands. */
  function BlockPos(n: nat, b: nat): Pos {
    if b < DIRECT then Direct(n, b)
    else if b - DIRECT < PER_BLOCK then Ind(n, b - DIRECT)
    else Leaf(n, (b - DIRECT - PER_BLOCK) / PER_BLOCK, (b - DIRECT - PER_BLOCK) % PER_BLOCK)
  }

  lemma BlockPosValid(s: Fs, n: nat, b: nat)
    requires n < |s.inodes| && b < MAX_BLOCKS
    ensures ValidPos(s, BlockPos(n, b))
    ensures forall c :: 0 <= c < MAX_BLOCKS && BlockPos(n, c) == BlockPos(n, b) ==> c == b
  {
    assert b - DIRECT - PER_BLOCK < PER_BLOCK * PER_BLOCK;
  }

  /** The zone that holds logical block b of file n; 0 is a hole. */
  function ZoneOf(s: Fs, n: nat, b: nat): nat
    requires Shape(s) && n < |s.inodes| && b < MAX_BLOCKS
  {
    BlockPosValid(s, n, b);
    At(s, BlockPos(n, b))
  }

  // ----- allocating -----------------------------------------------------------

  /** new_block: the zone's bit is set and its block cleared. */
  function Take(s: Fs, z: nat): (r: Fs)
    requires Shape(s) && DataZone(s, z)
    ensures Shape(r)
  {
    Fs(s.first, s.nzones, s.bits[BitOf(s, z) := true], s.inodes, s.table[z := ZeroTable()], s.data[z := ZeroBlock()])
  }

  /** The table block whose entry p is, if it is one. */
  function TableOf(s: Fs, p: Pos): nat
    requires Shape(s) && ValidPos(s, p) && !p.Direct?
  {
    match p
    case Ind(n, _) => s.inodes[n][7]
    case Dind(n, _) => s.inodes[n][8]
    case Leaf(n, j, _) => InTable(s, s.inodes[n][8], j)
  }

  function IndexOf(p: Pos): nat
    requires !p.Direct?
  {
    if p.Leaf? then p.k else p.j
  }

  /** p can be stored into: its table exists. */
  predicate Storable(s: Fs, p: Pos)
    requires Shape(s)
  {
    ValidPos(s, p) && (p.Direct? || 0 < TableOf(s, p) < ZONES)
  }

  function Put(s: Fs, p: Pos, z: nat): (r: Fs)
    requires Shape(s) && Storable(s, p)
    ensures Shape(r)
  {
    if p.Direct? then
      var zones: seq<nat> := s.inodes[p.n][p.i := z];
      Fs(s.first, s.nzones, s.bits, s.inodes[p.n := zones], s.table, s.data)
    else
      var t := TableOf(s, p);
      var entries: seq<nat> := s.table[t][IndexOf(p) := z];
      Fs(s.first, s.nzones, s.bits, s.inodes, s.table[t := entries], s.data)
  }
}

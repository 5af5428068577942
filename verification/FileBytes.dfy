/** fs/file_dev.c: reading and writing a file block by block is reading and splicing a byte sequence. */
module FileBytes {
  import opened ZoneModel
  import opened ZoneTrees
  import opened Volume

  const MAX_BYTES: nat := 268966912     // MAX_BLOCKS * BLOCK_SIZE

  /** Byte `off` of file n; bytes of holes are zero. */
  ghost function ByteAt(s: Fs, n: nat, off: nat): Byte
    requires Inv(s) && n < |s.inodes| && off < MAX_BYTES
  {
    var z := ZoneOf(s, n, off / BLOCK_SIZE);
    if z == 0 then 0 else BlockByte(s, n, off / BLOCK_SIZE, off % BLOCK_SIZE)
  }

  ghost function BlockByte(s: Fs, n: nat, b: nat, i: nat): Byte
    requires Inv(s) && n < |s.inodes| && b < MAX_BLOCKS && i < BLOCK_SIZE && ZoneOf(s, n, b) != 0
  {
    ZoneInRange(s, n, b);
    s.data[ZoneOf(s, n, b)][i]
  }

  /** Byte 1024 * b + i of a file is byte i of the zone that holds block b; in a hole it is zero. */
  lemma ByteOfBlock(s: Fs, n: nat, b: nat, i: nat)
    requires Inv(s) && n < |s.inodes| && b < MAX_BLOCKS && i < 1024
    ensures 1024 * b + i < MAX_BYTES && (ZoneOf(s, n, b) != 0 ==> ZoneOf(s, n, b) < |s.data|)
    ensures ByteAt(s, n, 1024 * b + i) == if ZoneOf(s, n, b) == 0 then 0 else s.data[ZoneOf(s, n, b)][i]
  {
    assert (1024 * b + i) / 1024 == b && (1024 * b + i) % 1024 == i;
    if ZoneOf(s, n, b) != 0 {
      ZoneInRange(s, n, b);
    }
  }

  lemma ZoneInRange(s: Fs, n: nat, b: nat)
    requires Inv(s) && n < |s.inodes| && b < MAX_BLOCKS && ZoneOf(s, n, b) != 0
    ensures DataZone(s, ZoneOf(s, n, b)) && Used(s, ZoneOf(s, n, b))
  {
    BlockPosValid(s, n, b);
  }

  /** Two logical blocks never share a zone. */
  lemma ZonesDiffer(s: Fs, n: nat, b: nat, m: nat, c: nat)
    requires Inv(s) && n < |s.inodes| && m < |s.inodes| && b < MAX_BLOCKS && c < MAX_BLOCKS
    requires ZoneOf(s, n, b) != 0 && (n != m || b != c)
    ensures ZoneOf(s, n, b) != ZoneOf(s, m, c)
  {
    BlockPosValid(s, n, b);
    BlockPosValid(s, m, c);
    assert BlockPos(n, b) != BlockPos(m, c);
  }

  /** The file as a byte sequence of its length. */
  ghost function Content(s: Fs, n: nat, size: nat): (c: seq<Byte>)
    requires Inv(s) && n < |s.inodes| && size <= MAX_BYTES
    ensures |c| == size && forall i :: 0 <= i < size ==> c[i] == ByteAt(s, n, i)
  {
    seq(size, i requires 0 <= i < size => ByteAt(s, n, i))
  }

  /** Nothing but zeros is stored beyond the end of a file, so growing it later exposes only zeros. */
  ghost predicate TailZero(s: Fs, n: nat, size: nat)
    requires Inv(s) && n < |s.inodes|
  {
    forall off :: size <= off < MAX_BYTES ==> ByteAt(s, n, off) == 0
  }

  ghost predicate Files(s: Fs, sizes: seq<nat>)
    requires Inv(s)
  {
    |sizes| == |s.inodes| && forall n :: 0 <= n < |sizes| ==> sizes[n] <= MAX_BYTES && TailZero(s, n, sizes[n])
  }

  /** c with d written at pos; a gap between the end of c and pos is filled with zeros. */
  function Splice(c: seq<Byte>, pos: nat, d: seq<Byte>): seq<Byte> {
    if d == [] then c
    else
      var padded := if pos <= |c| then c else c + seq(pos - |c|, _ => 0 as Byte);
      padded[..pos] + d + (if pos + |d| <= |c| then c[pos + |d|..] else [])
  }

  /** Every byte of every file is as before, except that d stands at pos in file n. */
  ghost predicate Wrote(s: Fs, r: Fs, n: nat, pos: nat, d: seq<Byte>)
    requires Inv(s) && Inv(r) && |r.inodes| == |s.inodes|
  {
    forall m, off :: 0 <= m < |s.inodes| && 0 <= off < MAX_BYTES ==>
      ByteAt(r, m, off) == if m == n && pos <= off < pos + |d| then d[off - pos] else ByteAt(s, m, off)
  }

  /** The largest file has room for d at pos. */
  predicate Fits(pos: nat, d: seq<Byte>) { d == [] || pos + |d| <= MAX_BYTES }

  lemma WroteIsSplice(s: Fs, r: Fs, n: nat, pos: nat, d: seq<Byte>, size: nat)
    requires Inv(s) && Inv(r) && |r.inodes| == |s.inodes| && n < |s.inodes| && size <= MAX_BYTES
    requires Fits(pos, d) && TailZero(s, n, size) && Wrote(s, r, n, pos, d)
    ensures var size' := if d == [] then size else if pos + |d| > size then pos + |d| else size;
            Content(r, n, size') == Splice(Content(s, n, size), pos, d) && TailZero(r, n, size')
  {
    var size' := if d == [] then size else if pos + |d| > size then pos + |d| else size;
    var c := Content(s, n, size);
    var x, y := Content(r, n, size'), Splice(c, pos, d);
    assert |x| == |y|;
    forall i | 0 <= i < size'
      ensures x[i] == y[i]
    {
      assert ByteAt(r, n, i) == if pos <= i < pos + |d| then d[i - pos] else ByteAt(s, n, i);
    }
  }

  /** Another file's content is not affected. */
  lemma OthersKeepContent(s: Fs, r: Fs, n: nat, m: nat, pos: nat, d: seq<Byte>, size: nat)
    requires Inv(s) && Inv(r) && |r.inodes| == |s.inodes| && m < |s.inodes| && m != n && size <= MAX_BYTES
    requires Wrote(s, r, n, pos, d)
    ensures Content(r, m, size) == Content(s, m, size) && (TailZero(s, m, size) ==> TailZero(r, m, size))
  {
    assert Content(r, m, size) == Content(s, m, size);
  }

  /** Growing the map at one block does not change a byte: the new block is zero where there was a hole. */
  lemma MapGrowthKeepsBytes(s: Fs, r: Fs, n: nat, b: nat)
    requires Inv(s) && Inv(r) && |r.inodes| == |s.inodes| && n < |s.inodes| && b < MAX_BLOCKS
    requires r.first == s.first && r.nzones == s.nzones
    requires MapChangesOnly(s, r, n, b) && KeepsUsedBlocks(s, r)
    requires ZoneOf(s, n, b) != 0 ==> ZoneOf(r, n, b) == ZoneOf(s, n, b)
    requires ZoneOf(s, n, b) == 0 && ZoneOf(r, n, b) != 0 ==>
              DataZone(r, ZoneOf(r, n, b)) && r.data[ZoneOf(r, n, b)] == ZeroBlock()
    ensures Wrote(s, r, n, 0, [])
  {
    forall m, off | 0 <= m < |s.inodes| && 0 <= off < MAX_BYTES
      ensures ByteAt(r, m, off) == ByteAt(s, m, off)
    {
      var c := off / BLOCK_SIZE;
      assert (m == n && c == b) || ZoneOf(r, m, c) == ZoneOf(s, m, c);
      if ZoneOf(s, m, c) != 0 {
        ZoneInRange(s, m, c);
      }
    }
  }

  /** Storing into the block at b changes the bytes of that block only. */
  lemma StoreChangesBytes(s: Fs, r: Fs, n: nat, pos: nat, d: seq<Byte>)
    requires Inv(s) && n < |s.inodes| && pos + |d| <= MAX_BYTES && d != [] && pos % BLOCK_SIZE + |d| <= BLOCK_SIZE
    requires ZoneOf(s, n, pos / BLOCK_SIZE) != 0 && ZoneOf(s, n, pos / BLOCK_SIZE) < ZONES
    requires var z := ZoneOf(s, n, pos / BLOCK_SIZE);
             r == Fs(s.first, s.nzones, s.bits, s.inodes, s.table,
                 s.data[z := Overwrite(s.data[z], pos % BLOCK_SIZE, d)])
    ensures Inv(r) && Wrote(s, r, n, pos, d)
  {
    assert forall p :: ValidPos(r, p) <==> ValidPos(s, p);
    assert forall p | ValidPos(s, p) :: At(r, p) == At(s, p);
    var b := pos / BLOCK_SIZE;
    forall m, off | 0 <= m < |s.inodes| && 0 <= off < MAX_BYTES
      ensures ByteAt(r, m, off) == if m == n && pos <= off < pos + |d| then d[off - pos] else ByteAt(s, m, off)
    {
      var c := off / BLOCK_SIZE;
      assert ZoneOf(r, m, c) == ZoneOf(s, m, c);
      if m != n || c != b {
        ZonesDiffer(s, n, b, m, c);
      }
    }
  }

  function Overwrite(k: Block, i: nat, d: seq<Byte>): (r: Block)
    requires i + |d| <= BLOCK_SIZE
  {
    k[..i] + d + k[i + |d|..]
  }

  lemma WroteTwice(s: Fs, m: Fs, r: Fs, n: nat, pos: nat, d: seq<Byte>, e: seq<Byte>)
    requires Inv(s) && Inv(m) && Inv(r) && |m.inodes| == |s.inodes| == |r.inodes|
    requires Wrote(s, m, n, pos, d) && Wrote(m, r, n, pos + |d|, e)
    ensures Wrote(s, r, n, pos, d + e)
  {
    forall f, off | 0 <= f < |s.inodes| && 0 <= off < MAX_BYTES
      ensures ByteAt(r, f, off) ==
              if f == n && pos <= off < pos + |d + e| then (d + e)[off - pos] else ByteAt(s, f, off)
    {
      assert ByteAt(m, f, off) == if f == n && pos <= off < pos + |d| then d[off - pos] else ByteAt(s, f, off);
    }
  }

  lemma WroteNothing(s: Fs, r: Fs, n: nat, pos: nat)
    requires Inv(s) && Inv(r) && |r.inodes| == |s.inodes| && Wrote(s, r, n, 0, [])
    ensures Wrote(s, r, n, pos, [])
  {
  }

  /**
    After truncate the file is empty, every other file reads as before, and
    growing it again will expose only zeros.
   */
  lemma TruncatedFiles(s: Fs, n: nat, sizes: seq<nat>)
    requires Inv(s) && Files(s, sizes) && n < |sizes|
    ensures Inv(Truncated(s, n)) && Files(Truncated(s, n), sizes[n := 0])
    ensures Content(Truncated(s, n), n, 0) == []
    ensures forall m :: 0 <= m < |sizes| && m != n ==> Content(Truncated(s, n), m, sizes[m]) == Content(s, m, sizes[m])
  {
    TruncatedKeeps(s, n);
    var r := Truncated(s, n);
    forall m, off | 0 <= m < |sizes| && 0 <= off < MAX_BYTES
      ensures ByteAt(r, m, off) == if m == n then 0 else ByteAt(s, m, off)
    {
      BlockPosValid(s, m, off / BLOCK_SIZE);
    }
    forall m | 0 <= m < |sizes| && m != n
      ensures Content(r, m, sizes[m]) == Content(s, m, sizes[m])
    {
      assert forall i :: 0 <= i < sizes[m] ==> ByteAt(r, m, i) == ByteAt(s, m, i);
    }
  }

  // ----- the loops ------------------------------------------------------------

  /** One turn of the loop of file_write: the part of the data that falls into one block. */
  method WriteChunk(fs: FileSystem, n: nat, pos: nat, d: seq<Byte>) returns (ok: bool)
    requires fs.Valid() && n < fs.inodes.Length && d != [] && pos % BLOCK_SIZE + |d| <= BLOCK_SIZE
    requires pos + |d| <= MAX_BYTES
    modifies fs.zmap, fs.inodes, fs.tables, fs.blocks
    ensures fs.Valid() && Wrote(old(fs.State()), fs.State(), n, pos, if ok then d else [])
    ensures !ok ==> Full(fs.State())
  {
    ghost var s := fs.State();
    var b := pos / BLOCK_SIZE;
    var z := fs.Bmap(n, b, true);
    ghost var m := fs.State();
    MapGrowthKeepsBytes(s, m, n, b);
    WroteNothing(s, m, n, pos);
    if z == 0 {
      return false;
    }
    ZoneInRange(m, n, b);
    ghost var k := fs.blocks[z];
    fs.blocks[z] := Overwrite(fs.blocks[z], pos % BLOCK_SIZE, d);
    assert fs.blocks[..] == m.data[z := Overwrite(k, pos % BLOCK_SIZE, d)];
    StoreChangesBytes(m, fs.State(), n, pos, d);
    WroteTwice(s, m, fs.State(), n, pos, [], d);
    assert [] + d == d;
    ok := true;
  }

  /**
    file_write: the data, or as much of it as the disk has room for, is spliced
    into the file at the file position, or at the end with O_APPEND.  It panics in
    _bmap ("block>big") when it comes to the end of the largest file.
   */
  method FileWrite(fs: FileSystem, n: nat, fpos: nat, append: bool, data: seq<Byte>)
      returns (result: int, fpos': nat, panics: bool)
    requires fs.Valid() && Files(fs.State(), fs.sizes[..]) && n < fs.inodes.Length
    modifies fs.zmap, fs.inodes, fs.tables, fs.blocks, fs.sizes
    ensures fs.Valid() && Files(fs.State(), fs.sizes[..])
    ensures result == -1 || 0 < result <= |data|
    ensures var pos, done := if append then old(fs.sizes[n]) else fpos, if result == -1 then 0 else result;
            && Fits(pos, data[..done])
            && Content(fs.State(), n, fs.sizes[n])
                 == Splice(old(Content(fs.State(), n, fs.sizes[n])), pos, data[..done])
            && fpos' == (if append then fpos else pos + done)
            && (panics ==> done < |data| && pos + done >= MAX_BYTES)
            && (!panics && done < |data| ==> Full(fs.State()))
    ensures forall m :: 0 <= m < fs.inodes.Length && m != n ==>
              fs.sizes[m] == old(fs.sizes[m])
                  && Content(fs.State(), m, fs.sizes[m]) == old(Content(fs.State(), m, fs.sizes[m]))
  {
    ghost var s := fs.State();
    var start := if append then fs.sizes[n] else fpos;
    var i;
    i, panics := WriteBlocks(fs, n, start, data);
    WroteFiles(s, fs.State(), n, start, data[..i], old(fs.sizes[..]), fs.sizes[..]);
    fpos' := if append then fpos else start + i;
    result := if i == 0 then -1 else i;
  }

  /** One turn, as seen from the start of the loop. */
  method NextChunk(fs: FileSystem, ghost s: Fs, n: nat, start: nat, data: seq<Byte>, i: nat, c: nat) returns (ok: bool)
    requires fs.Valid() && n < fs.inodes.Length && start + i + c <= MAX_BYTES && i + c <= |data| && 0 < c
    requires (start + i) % BLOCK_SIZE + c <= BLOCK_SIZE
    requires Inv(s) && |s.inodes| == fs.inodes.Length && Wrote(s, fs.State(), n, start, data[..i])
    modifies fs.zmap, fs.inodes, fs.tables, fs.blocks
    ensures fs.Valid() && Wrote(s, fs.State(), n, start, data[..if ok then i + c else i])
    ensures !ok ==> Full(fs.State())
  {
    ghost var m := fs.State();
    ok := WriteChunk(fs, n, start + i, data[i..i + c]);
    WroteTwice(s, m, fs.State(), n, start, data[..i], if ok then data[i..i + c] else []);
    assert data[..i] + (if ok then data[i..i + c] else []) == data[..if ok then i + c else i];
  }

  /** A chunk that begins inside the largest file ends inside it. */
  lemma ChunkFits(pos: nat, c: nat)
    requires pos / BLOCK_SIZE < MAX_BLOCKS && c <= BLOCK_SIZE - pos % BLOCK_SIZE
    ensures pos + c <= MAX_BYTES
  {
    assert pos == BLOCK_SIZE * (pos / BLOCK_SIZE) + pos % BLOCK_SIZE;
  }

  lemma BeyondLargest(pos: nat)
    requires pos / BLOCK_SIZE >= MAX_BLOCKS
    ensures pos >= MAX_BYTES
  {
    assert pos == BLOCK_SIZE * (pos / BLOCK_SIZE) + pos % BLOCK_SIZE;
  }

  /** The loop of file_write. */
  method WriteBlocks(fs: FileSystem, n: nat, start: nat, data: seq<Byte>) returns (i: nat, panics: bool)
    requires fs.Valid() && n < fs.inodes.Length
    modifies fs.zmap, fs.inodes, fs.tables, fs.blocks, fs.sizes
    ensures fs.Valid() && i <= |data| && Wrote(old(fs.State()), fs.State(), n, start, data[..i])
    ensures Fits(start, data[..i])
    ensures panics ==> i < |data| && start + i >= MAX_BYTES
    ensures !panics && i < |data| ==> Full(fs.State())
    ensures fs.sizes[n] == if i > 0 && start + i > old(fs.sizes[n]) then start + i else old(fs.sizes[n])
    ensures forall m :: 0 <= m < fs.inodes.Length && m != n ==> fs.sizes[m] == old(fs.sizes[m])
  {
    ghost var s := fs.State();
    ghost var size := fs.sizes[n];
    var pos, count := start, |data|;
    i, panics := 0, false;
    WroteNothing(s, s, n, start);
    while i < count
      invariant 0 <= i <= count && pos == start + i && (i > 0 ==> pos <= MAX_BYTES)
      invariant fs.Valid() && Wrote(s, fs.State(), n, start, data[..i])
      invariant fs.sizes[n] == if i > 0 && pos > size then pos else size
      invariant forall m :: 0 <= m < fs.inodes.Length && m != n ==> fs.sizes[m] == old(fs.sizes[m])
      decreases count - i
    {
      if pos / BLOCK_SIZE >= MAX_BLOCKS {
        BeyondLargest(pos);
        return i, true;
      }
      var c := if BLOCK_SIZE - pos % BLOCK_SIZE > count - i then count - i else BLOCK_SIZE - pos % BLOCK_SIZE;
      ChunkFits(pos, c);
      var ok := NextChunk(fs, s, n, start, data, i, c);
      if !ok {
        return;
      }
      pos := pos + c;
      if pos > fs.sizes[n] {
        fs.sizes[n] := pos;
      }
      i := i + c;
    }
  }

  lemma WroteFiles(s: Fs, r: Fs, n: nat, pos: nat, d: seq<Byte>, old_sizes: seq<nat>, sizes: seq<nat>)
    requires Inv(s) && Inv(r) && |r.inodes| == |s.inodes| && n < |s.inodes| && Files(s, old_sizes)
    requires |sizes| == |old_sizes|
    requires Fits(pos, d) && Wrote(s, r, n, pos, d)
    requires sizes[n] == if d != [] && pos + |d| > old_sizes[n] then pos + |d| else old_sizes[n]
    requires forall m :: 0 <= m < |sizes| && m != n ==> sizes[m] == old_sizes[m]
    ensures Files(r, sizes) && Content(r, n, sizes[n]) == Splice(Content(s, n, old_sizes[n]), pos, d)
    ensures forall m :: 0 <= m < |sizes| && m != n ==> Content(r, m, sizes[m]) == Content(s, m, sizes[m])
  {
    WroteIsSplice(s, r, n, pos, d, old_sizes[n]);
    forall m | 0 <= m < |sizes|
      ensures sizes[m] <= MAX_BYTES && TailZero(r, m, sizes[m])
      ensures (m != n ==> Content(r, m, sizes[m]) == Content(s, m, sizes[m]))
    {
      if m != n {
        OthersKeepContent(s, r, n, m, pos, d, sizes[m]);
      }
    }
  }

  /** file_read: the bytes from the file position on, zeros for holes, up to the end of the largest file. */
  method FileRead(fs: FileSystem, n: nat, fpos: nat, count: int) returns (buf: seq<Byte>, fpos': nat, panics: bool)
    requires fs.Valid() && n < fs.inodes.Length
    modifies fs.zmap, fs.inodes, fs.tables, fs.blocks
    ensures fs.State() == old(fs.State()) && fs.Valid()
    ensures panics <==> count > 0 && fpos + count > MAX_BYTES
    ensures !panics ==> |buf| == if count < 0 then 0 else count
    ensures fpos' == fpos + |buf| && (buf != [] ==> fpos' <= MAX_BYTES)
    ensures forall i :: 0 <= i < |buf| ==> buf[i] == ByteAt(fs.State(), n, fpos + i)
  {
    buf, panics := [], false;
    fpos' := fpos;
    if count <= 0 {
      return;
    }
    ghost var s := fs.State();
    var left := count;
    while left > 0
      invariant 0 <= left <= count && |buf| == count - left && fpos' == fpos + |buf|
      invariant buf != [] ==> fpos' <= MAX_BYTES
      invariant fs.Valid() && fs.State() == s
      invariant forall i :: 0 <= i < |buf| ==> buf[i] == ByteAt(s, n, fpos + i)
    {
      var b, nr := fpos' / BLOCK_SIZE, fpos' % BLOCK_SIZE;
      if b >= MAX_BLOCKS {
        BeyondLargest(fpos');
        panics := true;
        return;
      }
      var chars := if BLOCK_SIZE - nr < left then BLOCK_SIZE - nr else left;
      ChunkFits(fpos', chars);
      var chunk := ReadChunk(fs, n, b, nr, chars);
      assert forall i :: 0 <= i < chars ==> chunk[i] == ByteAt(s, n, fpos' + i);
      buf := buf + chunk;
      fpos' := fpos' + chars;
      left := left - chars;
    }
  }

  /** The part of the bytes that falls into one block. */
  method ReadChunk(fs: FileSystem, n: nat, b: nat, nr: nat, chars: nat) returns (chunk: seq<Byte>)
    requires fs.Valid() && n < fs.inodes.Length && b < MAX_BLOCKS && nr + chars <= BLOCK_SIZE
    modifies fs.zmap, fs.inodes, fs.tables, fs.blocks
    ensures fs.State() == old(fs.State()) && fs.Valid() && |chunk| == chars
    ensures forall i :: 0 <= i < chars ==>
              BLOCK_SIZE * b + nr + i < MAX_BYTES && chunk[i] == ByteAt(fs.State(), n, BLOCK_SIZE * b + nr + i)
  {
    ghost var s := fs.State();
    var z := fs.Bmap(n, b, false);
    if z != 0 {
      ZoneInRange(s, n, b);
      chunk := fs.blocks[z][nr..nr + chars];
    } else {
      chunk := seq(chars, _ => 0 as Byte);
    }
    forall i | 0 <= i < chars
      ensures BLOCK_SIZE * b + nr + i < MAX_BYTES && chunk[i] == ByteAt(s, n, BLOCK_SIZE * b + nr + i)
    {
      var off := BLOCK_SIZE * b + nr + i;
      assert off / BLOCK_SIZE == b && off % BLOCK_SIZE == nr + i;
    }
  }

  /** sys_read on a file: a slice of its content, cut at the end of the file. */
  method ReadFile(fs: FileSystem, n: nat, fpos: nat, count: nat) returns (buf: seq<Byte>, fpos': nat)
    requires fs.Valid() && Files(fs.State(), fs.sizes[..]) && n < fs.inodes.Length
    modifies fs.zmap, fs.inodes, fs.tables, fs.blocks
    ensures fs.Valid() && fs.State() == old(fs.State())
    ensures var c := old(Content(fs.State(), n, fs.sizes[n]));
            && buf == (if fpos >= |c| then [] else if fpos + count > |c| then c[fpos..] else c[fpos..fpos + count])
            && fpos' == fpos + |buf|
  {
    var n' := count;
    assert fs.sizes[..][n] == fs.sizes[n];
    if count + fpos > fs.sizes[n] {
      if fpos >= fs.sizes[n] {
        return [], fpos;
      }
      n' := fs.sizes[n] - fpos;
    }
    var panics;
    buf, fpos', panics := FileRead(fs, n, fpos, n');
    assert !panics;
    ghost var c := Content(fs.State(), n, fs.sizes[n]);
    assert buf == c[fpos..fpos + n'];
  }
}

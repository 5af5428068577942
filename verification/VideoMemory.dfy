/**
  The screen as a window of 25 * 80 cells in video memory, and what block moves
  and fills in memory mean for it.  Addresses count 16-bit cells from
  SCREEN_START.
 */
module VideoMemory {
  import opened Terminal

  const SCREEN: nat := 2000
  const SIZE: nat := 16384

  /** The line that starts at address a. */
  function Line(m: seq<nat>, a: nat): (s: seq<nat>)
    requires a + COLUMNS <= |m|
    ensures |s| == COLUMNS
  {
    m[a..a + COLUMNS]
  }

  /** What is visible when the controller starts at `origin`. */
  function Grid(m: seq<nat>, origin: nat): (g: seq<seq<nat>>)
    requires origin + SCREEN <= |m|
    ensures IsGrid(g) && forall r :: 0 <= r < LINES ==> g[r] == Line(m, origin + 80 * r)
  {
    seq(LINES, r requires 0 <= r < LINES => Line(m, origin + 80 * r))
  }

  /** rep movs. */
  function Copied(m: seq<nat>, dst: nat, src: nat, n: nat): (r: seq<nat>)
    requires dst + n <= |m| && src + n <= |m|
    ensures |r| == |m|
    ensures forall i :: 0 <= i < |m| ==> r[i] == if dst <= i < dst + n then m[i - dst + src] else m[i]
  {
    seq(|m|, i requires 0 <= i < |m| => if dst <= i < dst + n then m[i - dst + src] else m[i])
  }

  /** rep stos of blanks. */
  function Filled(m: seq<nat>, start: nat, n: nat): (r: seq<nat>)
    requires start + n <= |m|
    ensures |r| == |m|
    ensures forall i :: 0 <= i < |m| ==> r[i] == if start <= i < start + n then BLANK else m[i]
  {
    seq(|m|, i requires 0 <= i < |m| => if start <= i < start + n then BLANK else m[i])
  }

  /** Only cells of the window at `origin` differ. */
  predicate Within(m: seq<nat>, r: seq<nat>, origin: nat) {
    |r| == |m| && forall i :: 0 <= i < |m| ==> r[i] == m[i] || origin <= i < origin + SCREEN
  }

  lemma SameLine(m: seq<nat>, a: nat, r: seq<nat>, b: nat)
    requires a + COLUMNS <= |m| && b + COLUMNS <= |r|
    requires forall i :: b <= i < b + COLUMNS ==> r[i] == m[i - b + a]
    ensures Line(r, b) == Line(m, a)
  {
  }

  lemma BlankLine(r: seq<nat>, b: nat)
    requires b + COLUMNS <= |r| && forall i :: b <= i < b + COLUMNS ==> r[i] == BLANK
    ensures Line(r, b) == Blanks(COLUMNS)
  {
  }

  /** A region of `size` cells at `start` moved one line up and its last line filled. */
  function MovedUp(m: seq<nat>, start: nat, size: nat): (r: seq<nat>)
    requires COLUMNS <= size && start + size <= |m|
    ensures |r| == |m|
    ensures forall i :: 0 <= i < |m| ==>
              r[i] == if start <= i < start + size - COLUMNS then m[i + COLUMNS]
                  else if start <= i < start + size then BLANK else m[i]
  {
    Filled(Copied(m, start, start + COLUMNS, size - COLUMNS), start + size - COLUMNS, COLUMNS)
  }

  function MovedDown(m: seq<nat>, start: nat, size: nat): (r: seq<nat>)
    requires COLUMNS <= size && start + size <= |m|
    ensures |r| == |m|
    ensures forall i :: 0 <= i < |m| ==>
              r[i] == if start <= i < start + COLUMNS then BLANK else if start <= i < start + size then m[i - COLUMNS]
                  else m[i]
  {
    Filled(Copied(m, start + COLUMNS, start, size - COLUMNS), start, COLUMNS)
  }

  /** scrup in a region: the lines move, the last one is filled. */
  lemma RegionUp(m: seq<nat>, origin: nat, top: nat, bottom: nat)
    requires origin + SCREEN <= |m| && top < bottom <= LINES
    ensures var f := MovedUp(m, origin + 80 * top, 80 * (bottom - top));
            Grid(f, origin) == ScrollUp(Grid(m, origin), top, bottom) && Within(m, f, origin)
  {
    var f := MovedUp(m, origin + 80 * top, 80 * (bottom - top));
    forall r | 0 <= r < LINES
      ensures Grid(f, origin)[r] == ScrollUp(Grid(m, origin), top, bottom)[r]
    {
      if r == bottom - 1 {
        BlankLine(f, origin + 80 * r);
      } else if top <= r < bottom {
        SameLine(m, origin + 80 * (r + 1), f, origin + 80 * r);
      } else {
        SameLine(m, origin + 80 * r, f, origin + 80 * r);
      }
    }
  }

  /** scrdown: the lines move the other way, the first one is filled. */
  lemma RegionDown(m: seq<nat>, origin: nat, top: nat, bottom: nat)
    requires origin + SCREEN <= |m| && top < bottom <= LINES
    ensures var f := MovedDown(m, origin + 80 * top, 80 * (bottom - top));
            Grid(f, origin) == ScrollDown(Grid(m, origin), top, bottom) && Within(m, f, origin)
  {
    var f := MovedDown(m, origin + 80 * top, 80 * (bottom - top));
    forall r | 0 <= r < LINES
      ensures Grid(f, origin)[r] == ScrollDown(Grid(m, origin), top, bottom)[r]
    {
      if r == top {
        BlankLine(f, origin + 80 * r);
      } else if top < r < bottom {
        SameLine(m, origin + 80 * (r - 1), f, origin + 80 * r);
      } else {
        SameLine(m, origin + 80 * r, f, origin + 80 * r);
      }
    }
  }

  /** scrup of the whole screen by moving the origin: only the new last line is filled. */
  lemma OriginUp(m: seq<nat>, origin: nat)
    requires origin + COLUMNS + SCREEN <= |m|
    ensures Grid(Filled(m, origin + SCREEN, COLUMNS), origin + COLUMNS) == ScrollUp(Grid(m, origin), 0, LINES)
    ensures Within(m, Filled(m, origin + SCREEN, COLUMNS), origin + COLUMNS)
  {
    var f := Filled(m, origin + SCREEN, COLUMNS);
    forall r | 0 <= r < LINES
      ensures Grid(f, origin + COLUMNS)[r] == ScrollUp(Grid(m, origin), 0, LINES)[r]
    {
      if r == LINES - 1 {
        BlankLine(f, origin + COLUMNS + 80 * r);
      } else {
        SameLine(m, origin + 80 * (r + 1), f, origin + COLUMNS + 80 * r);
      }
    }
  }

  /** scrup at the end of video memory: everything is copied to its start. */
  lemma WrapUp(m: seq<nat>, origin: nat)
    requires origin + SCREEN <= |m| && SCREEN <= |m|
    ensures Grid(Filled(Copied(m, 0, origin + COLUMNS, SCREEN - COLUMNS), SCREEN - COLUMNS, COLUMNS), 0)
            == ScrollUp(Grid(m, origin), 0, LINES)
    ensures Within(m, Filled(Copied(m, 0, origin + COLUMNS, SCREEN - COLUMNS), SCREEN - COLUMNS, COLUMNS), 0)
  {
    var f := Filled(Copied(m, 0, origin + COLUMNS, SCREEN - COLUMNS), SCREEN - COLUMNS, COLUMNS);
    forall r | 0 <= r < LINES
      ensures Grid(f, 0)[r] == ScrollUp(Grid(m, origin), 0, LINES)[r]
    {
      if r == LINES - 1 {
        BlankLine(f, 80 * r);
      } else {
        SameLine(m, origin + 80 * (r + 1), f, 80 * r);
      }
    }
  }

  /** Line y replaced within memory. */
  lemma LineChanged(m: seq<nat>, r: seq<nat>, origin: nat, y: nat, line: seq<nat>)
    requires |r| == |m| && origin + SCREEN <= |m| && y < LINES && |line| == COLUMNS
    requires forall i :: 0 <= i < |m| && !(origin + 80 * y <= i < origin + 80 * (y + 1)) ==> r[i] == m[i]
    requires forall c :: 0 <= c < COLUMNS ==> r[origin + 80 * y + c] == line[c]
    ensures Grid(r, origin) == SetLine(Grid(m, origin), y, line)
    ensures Within(m, r, origin)
  {
    forall k | 0 <= k < LINES
      ensures Grid(r, origin)[k] == SetLine(Grid(m, origin), y, line)[k]
    {
      if k == y {
        forall c | 0 <= c < COLUMNS
          ensures Line(r, origin + 80 * y)[c] == line[c]
        {
          assert r[origin + 80 * y + c] == line[c];
        }
        assert Line(r, origin + 80 * y) == line;
      } else {
        SameLine(m, origin + 80 * k, r, origin + 80 * k);
      }
    }
  }

  lemma CellChanged(m: seq<nat>, origin: nat, y: nat, x: nat, v: nat)
    requires origin + SCREEN <= |m| && y < LINES && x < COLUMNS
    ensures Grid(m[origin + 80 * y + x := v], origin) == SetCell(Grid(m, origin), y, x, v)
    ensures Within(m, m[origin + 80 * y + x := v], origin)
  {
    var line: seq<nat> := Grid(m, origin)[y][x := v];
    LineChanged(m, m[origin + 80 * y + x := v], origin, y, line);
  }

  /** Columns a to b - 1 of line y filled with blanks. */
  lemma LineWiped(m: seq<nat>, origin: nat, y: nat, a: nat, b: nat)
    requires origin + SCREEN <= |m| && y < LINES && a <= b <= COLUMNS
    ensures var f := Filled(m, origin + 80 * y + a, b - a);
            Within(m, f, origin) && Grid(f, origin) == SetLine(Grid(m, origin), y, Wipe(Grid(m, origin)[y], a, b))
  {
    LineChanged(m, Filled(m, origin + 80 * y + a, b - a), origin, y, Wipe(Grid(m, origin)[y], a, b));
  }

  /** From the cursor to the end of the window. */
  lemma TailErased(m: seq<nat>, origin: nat, y: nat, x: nat)
    requires origin + SCREEN <= |m| && y < LINES && x <= COLUMNS
    ensures var f := Filled(m, origin + (80 * y + x), SCREEN - (80 * y + x));
            Grid(f, origin) == EraseScreen(Grid(m, origin), x, y, 0) && Within(m, f, origin)
  {
    var f := Filled(m, origin + (80 * y + x), SCREEN - (80 * y + x));
    var g := EraseScreen(Grid(m, origin), x, y, 0);
    forall r | 0 <= r < LINES
      ensures Grid(f, origin)[r] == g[r]
    {
      if r < y {
        SameLine(m, origin + 80 * r, f, origin + 80 * r);
      } else if r > y {
        BlankLine(f, origin + 80 * r);
      }
    }
  }

  /** From the start of the window up to before the cursor. */
  lemma HeadErased(m: seq<nat>, origin: nat, y: nat, x: nat)
    requires origin + SCREEN <= |m| && y < LINES && x <= COLUMNS
    ensures var f := Filled(m, origin, 80 * y + x);
            Grid(f, origin) == EraseScreen(Grid(m, origin), x, y, 1) && Within(m, f, origin)
  {
    var f := Filled(m, origin, 80 * y + x);
    var g := EraseScreen(Grid(m, origin), x, y, 1);
    forall r | 0 <= r < LINES
      ensures Grid(f, origin)[r] == g[r]
    {
      if r < y {
        BlankLine(f, origin + 80 * r);
      } else if r > y {
        SameLine(m, origin + 80 * r, f, origin + 80 * r);
      }
    }
  }

  lemma AllErased(m: seq<nat>, origin: nat)
    requires origin + SCREEN <= |m|
    ensures Grid(Filled(m, origin, SCREEN), origin) == BlankLines(LINES) && Within(m, Filled(m, origin, SCREEN), origin)
  {
    forall r | 0 <= r < LINES
      ensures Grid(Filled(m, origin, SCREEN), origin)[r] == Blanks(COLUMNS)
    {
      BlankLine(Filled(m, origin, SCREEN), origin + 80 * r);
    }
  }

  // ----- shifting within a line -----------------------------------------------

  /** What the loop of insert_char leaves: the cells from the cursor on moved one to the right. */
  predicate ShiftedRight(m: seq<nat>, r: seq<nat>, pos: nat, end: nat) {
    && |r| == |m| && pos <= end <= |m|
    && (forall k :: 0 <= k < pos ==> r[k] == m[k]) && (forall k :: end <= k < |m| ==> r[k] == m[k])
    && (pos < end ==> r[pos] == BLANK) && (forall k :: pos < k < end ==> r[k] == m[k - 1])
  }

  predicate ShiftedLeft(m: seq<nat>, r: seq<nat>, pos: nat, end: nat) {
    && |r| == |m| && pos < end <= |m|
    && (forall k :: 0 <= k < pos ==> r[k] == m[k]) && (forall k :: end <= k < |m| ==> r[k] == m[k])
    && r[end - 1] == BLANK && (forall k :: pos <= k < end - 1 ==> r[k] == m[k + 1])
  }

  lemma CellInserted(m: seq<nat>, r: seq<nat>, origin: nat, y: nat, x: nat)
    requires origin + SCREEN <= |m| && y < LINES && x <= COLUMNS
    requires ShiftedRight(m, r, origin + 80 * y + x, origin + 80 * (y + 1))
    ensures Grid(r, origin) == SetLine(Grid(m, origin), y, InsertCells(Grid(m, origin)[y], x, 1))
    ensures Within(m, r, origin)
  {
    var line := Grid(m, origin)[y];
    forall c | 0 <= c < COLUMNS
      ensures r[origin + 80 * y + c] == InsertCells(line, x, 1)[c]
    {
    }
    LineChanged(m, r, origin, y, InsertCells(line, x, 1));
  }

  lemma CellDeleted(m: seq<nat>, r: seq<nat>, origin: nat, y: nat, x: nat)
    requires origin + SCREEN <= |m| && y < LINES && x < COLUMNS
    requires ShiftedLeft(m, r, origin + 80 * y + x, origin + 80 * (y + 1))
    ensures Grid(r, origin) == SetLine(Grid(m, origin), y, DeleteCells(Grid(m, origin)[y], x, 1))
    ensures Within(m, r, origin)
  {
    var line := Grid(m, origin)[y];
    forall c | 0 <= c < COLUMNS
      ensures r[origin + 80 * y + c] == DeleteCells(line, x, 1)[c]
    {
    }
    LineChanged(m, r, origin, y, DeleteCells(line, x, 1));
  }

  // ----- nothing to do --------------------------------------------------------

  lemma NothingDone(g: seq<seq<nat>>, y: nat)
    requires IsGrid(g) && y < LINES
    ensures SetLine(g, y, Wipe(g[y], COLUMNS, COLUMNS)) == g
    ensures SetLine(g, y, DeleteCells(g[y], COLUMNS, 1)) == g
    ensures Wipe(g[y], 0, COLUMNS) == Blanks(COLUMNS)
  {
    assert Wipe(g[y], COLUMNS, COLUMNS) == g[y];
    assert DeleteCells(g[y], COLUMNS, 1) == g[y];
  }

  lemma NoneInserted(g: seq<seq<nat>>, y: nat, x: nat)
    requires IsGrid(g) && y < LINES && x <= COLUMNS
    ensures SetLine(g, y, InsertCells(g[y], x, 0)) == g && SetLine(g, y, DeleteCells(g[y], x, 0)) == g
  {
    assert InsertCells(g[y], x, 0) == g[y] && DeleteCells(g[y], x, 0) == g[y];
  }

  lemma NoLines(g: seq<seq<nat>>, y: nat)
    requires IsGrid(g) && y < LINES
    ensures InsertLines(g, y, 0) == g && DeleteLines(g, y, 0) == g
  {
  }

  // ----- repetition -----------------------------------------------------------

  lemma InsertOneMore(line: seq<nat>, x: nat, n: nat)
    requires |line| == COLUMNS && x <= COLUMNS
    ensures InsertCells(InsertCells(line, x, n), x, 1) == InsertCells(line, x, n + 1)
  {
    var once := InsertCells(line, x, n);
    forall c | 0 <= c < COLUMNS
      ensures InsertCells(once, x, 1)[c] == InsertCells(line, x, n + 1)[c]
    {
      if c > x {
      } else {
      }
    }
  }

  lemma DeleteOneMore(line: seq<nat>, x: nat, n: nat)
    requires |line| == COLUMNS && x <= COLUMNS
    ensures DeleteCells(DeleteCells(line, x, n), x, 1) == DeleteCells(line, x, n + 1)
  {
    var once := DeleteCells(line, x, n);
    forall c | 0 <= c < COLUMNS
      ensures DeleteCells(once, x, 1)[c] == DeleteCells(line, x, n + 1)[c]
    {
      if c + 1 < COLUMNS {
      }
    }
  }

  /** insert_line and delete_line scroll the lines from the cursor down. */
  lemma OneLine(g: seq<seq<nat>>, y: nat)
    requires IsGrid(g) && y < LINES
    ensures ScrollDown(g, y, LINES) == InsertLines(g, y, 1) && ScrollUp(g, y, LINES) == DeleteLines(g, y, 1)
  {
    forall r | 0 <= r < LINES
      ensures ScrollDown(g, y, LINES)[r] == InsertLines(g, y, 1)[r]
      ensures ScrollUp(g, y, LINES)[r] == DeleteLines(g, y, 1)[r]
    {
    }
  }

  lemma InsertLineMore(g: seq<seq<nat>>, y: nat, n: nat)
    requires IsGrid(g) && y < LINES
    ensures InsertLines(InsertLines(g, y, n), y, 1) == InsertLines(g, y, n + 1)
  {
    var once := InsertLines(g, y, n);
    forall r | 0 <= r < LINES
      ensures InsertLines(once, y, 1)[r] == InsertLines(g, y, n + 1)[r]
    {
      if r > y {
      } else {
      }
    }
  }

  lemma DeleteLineMore(g: seq<seq<nat>>, y: nat, n: nat)
    requires IsGrid(g) && y < LINES
    ensures DeleteLines(DeleteLines(g, y, n), y, 1) == DeleteLines(g, y, n + 1)
  {
    var once := DeleteLines(g, y, n);
    forall r | 0 <= r < LINES
      ensures DeleteLines(once, y, 1)[r] == DeleteLines(g, y, n + 1)[r]
    {
      if r + 1 < LINES {
      }
    }
  }
}

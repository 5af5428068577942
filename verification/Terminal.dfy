/**
  What con_write (kernel/console.c) is meant to do: a plain grid of 25 lines of
  80 cells, a cursor, a scroll region and the escape sequence parser.  There is
  no video memory here and nothing moves but lines and cells.
 */
module Terminal {

  const LINES: nat := 25
  const COLUMNS: nat := 80
  const NPAR: nat := 16
  const BLANK: nat := 0x0720
  const WORD: nat := 0x1_0000_0000

  /** Rows of cells; a cell is a character with its attribute in the high byte. */
  datatype Term = Term(grid: seq<seq<nat>>, x: nat, y: nat, top: nat, bottom: nat, state: nat,
                       npar: nat, par: seq<nat>, ques: bool, attr: nat, savedX: nat, savedY: nat)

  predicate IsGrid(g: seq<seq<nat>>) { |g| == LINES && forall r :: 0 <= r < LINES ==> |g[r]| == COLUMNS }

  /** The cursor may stand just behind the last column. */
  predicate Ok(t: Term) {
    && IsGrid(t.grid) && t.x <= COLUMNS && t.y < LINES && t.top < t.bottom <= LINES
    && t.state <= 3 && t.npar < NPAR && |t.par| == NPAR && t.savedX <= COLUMNS && t.savedY < LINES
  }

  function Blanks(n: nat): (s: seq<nat>)
    ensures |s| == n && forall k :: 0 <= k < n ==> s[k] == BLANK
  {
    seq(n, _ => BLANK)
  }

  function BlankLines(n: nat): (s: seq<seq<nat>>)
    ensures |s| == n && forall k :: 0 <= k < n ==> s[k] == Blanks(COLUMNS)
  {
    seq(n, _ => Blanks(COLUMNS))
  }

  // ----- lines ----------------------------------------------------------------

  function LineAfterUp(g: seq<seq<nat>>, top: nat, bottom: nat, r: nat): (line: seq<nat>)
    requires IsGrid(g) && top < bottom <= LINES && r < LINES
    ensures |line| == COLUMNS
  {
    if r < top || r >= bottom then g[r] else if r == bottom - 1 then Blanks(COLUMNS) else g[r + 1]
  }

  /** The lines of the region move up by one; a blank line comes in at the bottom. */
  function ScrollUp(g: seq<seq<nat>>, top: nat, bottom: nat): (r: seq<seq<nat>>)
    requires IsGrid(g) && top < bottom <= LINES
    ensures IsGrid(r)
  {
    seq(LINES, r requires 0 <= r < LINES => LineAfterUp(g, top, bottom, r))
  }

  function LineAfterDown(g: seq<seq<nat>>, top: nat, bottom: nat, r: nat): (line: seq<nat>)
    requires IsGrid(g) && top < bottom <= LINES && r < LINES
    ensures |line| == COLUMNS
  {
    if r < top || r >= bottom then g[r] else if r == top then Blanks(COLUMNS) else g[r - 1]
  }

  function ScrollDown(g: seq<seq<nat>>, top: nat, bottom: nat): (r: seq<seq<nat>>)
    requires IsGrid(g) && top < bottom <= LINES
    ensures IsGrid(r)
  {
    seq(LINES, r requires 0 <= r < LINES => LineAfterDown(g, top, bottom, r))
  }

  function LineAfterInsert(g: seq<seq<nat>>, y: nat, n: nat, r: nat): (line: seq<nat>)
    requires IsGrid(g) && y < LINES && r < LINES
    ensures |line| == COLUMNS
  {
    if r < y then g[r] else if r < y + n then Blanks(COLUMNS) else g[r - n]
  }

  /** n blank lines before line y; what falls off the bottom is lost. */
  function InsertLines(g: seq<seq<nat>>, y: nat, n: nat): (r: seq<seq<nat>>)
    requires IsGrid(g) && y < LINES
    ensures IsGrid(r)
  {
    seq(LINES, r requires 0 <= r < LINES => LineAfterInsert(g, y, n, r))
  }

  function LineAfterDelete(g: seq<seq<nat>>, y: nat, n: nat, r: nat): (line: seq<nat>)
    requires IsGrid(g) && y < LINES && r < LINES
    ensures |line| == COLUMNS
  {
    if r < y then g[r] else if r + n < LINES then g[r + n] else Blanks(COLUMNS)
  }

  function DeleteLines(g: seq<seq<nat>>, y: nat, n: nat): (r: seq<seq<nat>>)
    requires IsGrid(g) && y < LINES
    ensures IsGrid(r)
  {
    seq(LINES, r requires 0 <= r < LINES => LineAfterDelete(g, y, n, r))
  }

  // ----- cells ----------------------------------------------------------------

  function SetCell(g: seq<seq<nat>>, y: nat, x: nat, v: nat): (r: seq<seq<nat>>)
    requires IsGrid(g) && y < LINES && x < COLUMNS
    ensures IsGrid(r)
  {
    var line: seq<nat> := g[y][x := v];
    g[y := line]
  }

  function SetLine(g: seq<seq<nat>>, y: nat, line: seq<nat>): (r: seq<seq<nat>>)
    requires IsGrid(g) && y < LINES && |line| == COLUMNS
    ensures IsGrid(r)
  {
    g[y := line]
  }

  function InsertCells(line: seq<nat>, x: nat, n: nat): (r: seq<nat>)
    requires |line| == COLUMNS && x <= COLUMNS
    ensures |r| == COLUMNS
  {
    seq(COLUMNS, c requires 0 <= c < COLUMNS => if c < x then line[c] else if c < x + n then BLANK else line[c - n])
  }

  function DeleteCells(line: seq<nat>, x: nat, n: nat): (r: seq<nat>)
    requires |line| == COLUMNS && x <= COLUMNS
    ensures |r| == COLUMNS
  {
    seq(COLUMNS, c requires 0 <= c < COLUMNS => if c < x then line[c] else if c + n < COLUMNS then line[c + n]
        else BLANK)
  }

  /** Columns a to b - 1 of a line made blank. */
  function Wipe(line: seq<nat>, a: nat, b: nat): (r: seq<nat>)
    requires |line| == COLUMNS && a <= b <= COLUMNS
    ensures |r| == COLUMNS
  {
    seq(COLUMNS, c requires 0 <= c < COLUMNS => if a <= c < b then BLANK else line[c])
  }

  function LineBefore(g: seq<seq<nat>>, x: nat, y: nat, r: nat): (line: seq<nat>)
    requires IsGrid(g) && x <= COLUMNS && y < LINES && r < LINES
    ensures |line| == COLUMNS
  {
    if r < y then g[r] else if r == y then Wipe(g[y], x, COLUMNS) else Blanks(COLUMNS)
  }

  function LineBehind(g: seq<seq<nat>>, x: nat, y: nat, r: nat): (line: seq<nat>)
    requires IsGrid(g) && x <= COLUMNS && y < LINES && r < LINES
    ensures |line| == COLUMNS
  {
    if r < y then Blanks(COLUMNS) else if r == y then Wipe(g[y], 0, x) else g[r]
  }

  /** CSI J: from the cursor on, up to before the cursor, or all. */
  function EraseScreen(g: seq<seq<nat>>, x: nat, y: nat, how: nat): (r: seq<seq<nat>>)
    requires IsGrid(g) && x <= COLUMNS && y < LINES
    ensures IsGrid(r)
  {
    match how
    case 0 => seq(LINES, r requires 0 <= r < LINES => LineBefore(g, x, y, r))
    case 1 => seq(LINES, r requires 0 <= r < LINES => LineBehind(g, x, y, r))
    case 2 => BlankLines(LINES)
    case _ => g
  }

  /** CSI K, the same within the line. */
  function EraseLine(g: seq<seq<nat>>, x: nat, y: nat, how: nat): (r: seq<seq<nat>>)
    requires IsGrid(g) && x <= COLUMNS && y < LINES
    ensures IsGrid(r)
  {
    match how
    case 0 => SetLine(g, y, Wipe(g[y], x, COLUMNS))
    case 1 => SetLine(g, y, Wipe(g[y], 0, x))
    case 2 => SetLine(g, y, Blanks(COLUMNS))
    case _ => g
  }

  // ----- the cursor -----------------------------------------------------------

  /** Arguments are 32-bit unsigned numbers; a place off the screen leaves the cursor where it is. */
  function Goto(t: Term, x: int, y: int): (r: Term)
    requires Ok(t)
    ensures Ok(r)
  {
    if x % WORD >= COLUMNS || y % WORD >= LINES then t else t.(x := x % WORD, y := y % WORD)
  }

  function LineFeed(t: Term): (r: Term)
    requires Ok(t)
    ensures Ok(r) && r.x == t.x
  {
    if t.y + 1 < t.bottom then t.(y := t.y + 1) else t.(grid := ScrollUp(t.grid, t.top, t.bottom))
  }

  function ReverseFeed(t: Term): (r: Term)
    requires Ok(t)
    ensures Ok(r)
  {
    if t.y > t.top then t.(y := t.y - 1) else t.(grid := ScrollDown(t.grid, t.top, t.bottom))
  }

  /** The cursor behind the last column goes to the start of the next line first. */
  function Wrap(t: Term): (r: Term)
    requires Ok(t)
    ensures Ok(r) && r.x < COLUMNS
  {
    if t.x >= COLUMNS then LineFeed(t.(x := t.x - COLUMNS)) else t
  }

  function Write(t: Term, v: nat): (r: Term)
    requires Ok(t) && t.x < COLUMNS
    ensures Ok(r)
  {
    t.(grid := SetCell(t.grid, t.y, t.x, v), x := t.x + 1)
  }

  function Delete(t: Term): (r: Term)
    requires Ok(t)
    ensures Ok(r)
  {
    if t.x > 0 then t.(grid := SetCell(t.grid, t.y, t.x - 1, BLANK), x := t.x - 1) else t
  }

  function Tab(t: Term): (r: Term)
    requires Ok(t)
    ensures Ok(r)
  {
    var x := t.x + 8 - t.x % 8;
    if x > COLUMNS then LineFeed(t.(x := x - COLUMNS)) else t.(x := x)
  }

  // ----- characters -----------------------------------------------------------

  /** State 0; `erase` is the terminal's erase character. */
  function Text(t: Term, c: nat, erase: nat): (r: Term)
    requires Ok(t)
    ensures Ok(r)
  {
    if 31 < c < 127 then Write(Wrap(t), t.attr * 256 + c)
    else if c == 27 then t.(state := 1)
    else if c == 10 || c == 11 || c == 12 then LineFeed(t)
    else if c == 13 then t.(x := 0)
    else if c == erase then Delete(t)
    else if c == 8 then (if t.x > 0 then t.(x := t.x - 1) else t)
    else if c == 9 then Tab(t)
    else t
  }

  function Save(t: Term): (r: Term)
    requires Ok(t)
    ensures Ok(r)
  {
    t.(savedX := t.x, savedY := t.y)
  }

  function Restore(t: Term): (r: Term)
    requires Ok(t)
    ensures Ok(r)
  {
    t.(x := t.savedX, y := t.savedY)
  }

  /** State 1, already left.  The last two tests look at the column, not at the character. */
  function Escape(t: Term, c: nat): (r: Term)
    requires Ok(t) && t.state == 0
    ensures Ok(r)
  {
    if c == '[' as nat then t.(state := 2)
    else if c == 'E' as nat then Goto(t, 0, t.y + 1)
    else if c == 'M' as nat then ReverseFeed(t)
    else if c == 'D' as nat then LineFeed(t)
    else if c == 'Z' as nat then t
    else if t.x == '7' as nat then Save(t)
    else if t.x == '8' as nat then Restore(t)
    else t
  }

  function AtLeastOne(p: nat): nat { if p == 0 then 1 else p }

  function LessOne(p: nat): nat { if p == 0 then 0 else p - 1 }

  /** How often csi_at and its like repeat. */
  function Times(p: nat, limit: nat): nat { if p > limit then limit else AtLeastOne(p) }

  function AttrOf(p: nat, attr: nat): nat {
    match p
    case 0 => 0x07
    case 1 => 0x0f
    case 4 => 0x0f
    case 7 => 0x70
    case 27 => 0x07
    case _ => attr
  }

  /** CSI m: the arguments 0 to n - 1 in turn. */
  function AttrAfter(par: seq<nat>, n: nat, attr: nat): nat
    requires n <= |par|
  {
    if n == 0 then attr else AttrOf(par[n - 1], AttrAfter(par, n - 1, attr))
  }

  function Region(t: Term, first: nat, last: nat): (r: Term)
    requires Ok(t)
    ensures Ok(r)
  {
    if first < last <= LINES then t.(top := first, bottom := last) else t
  }

  predicate IsRelative(c: nat) {
    c in {'A' as nat, 'B' as nat, 'e' as nat, 'C' as nat, 'a' as nat, 'D' as nat, 'E' as nat, 'F' as nat}
  }

  predicate IsMove(c: nat) { IsRelative(c) || c in {'G' as nat, '`' as nat, 'd' as nat, 'H' as nat, 'f' as nat} }

  /** The moves by n places. */
  function Relative(t: Term, c: nat, n: nat): (r: Term)
    requires Ok(t) && IsRelative(c)
    ensures Ok(r)
  {
    if c == 'A' as nat then Goto(t, t.x, t.y - n)
    else if c == 'B' as nat || c == 'e' as nat then Goto(t, t.x, t.y + n)
    else if c == 'C' as nat || c == 'a' as nat then Goto(t, t.x + n, t.y)
    else if c == 'D' as nat then Goto(t, t.x - n, t.y)
    else if c == 'E' as nat then Goto(t, 0, t.y + n)
    else Goto(t, 0, t.y - n)
  }

  function Setting(t: Term, c: nat): (r: Term)
    requires Ok(t)
    ensures Ok(r)
  {
    var p, q := t.par[0], t.par[1];
    if c == 'm' as nat then t.(attr := AttrAfter(t.par, t.npar + 1, t.attr))
    else if c == 'r' as nat then
      Region(t.(par := t.par[0 := LessOne(p)][1 := if q == 0 then LINES else q]), LessOne(p), if q == 0 then LINES
          else q)
    else if c == 's' as nat then Save(t)
    else if c == 'u' as nat then Restore(t)
    else t
  }

  /** The character that ends a CSI sequence; moves also change the arguments. */
  function Command(t: Term, c: nat): (r: Term)
    requires Ok(t) && t.state == 0
    ensures Ok(r)
  {
    var p, q := t.par[0], t.par[1];
    if c == 'G' as nat || c == '`' as nat then Goto(t.(par := t.par[0 := LessOne(p)]), LessOne(p), t.y)
    else if c == 'd' as nat then Goto(t.(par := t.par[0 := LessOne(p)]), t.x, LessOne(p))
    else if c == 'H' as nat || c == 'f' as nat then
      Goto(t.(par := t.par[0 := LessOne(p)][1 := LessOne(q)]), LessOne(q), LessOne(p))
    else if IsRelative(c) then Relative(t.(par := t.par[0 := AtLeastOne(p)]), c, AtLeastOne(p))
    else if c == 'J' as nat then t.(grid := EraseScreen(t.grid, t.x, t.y, p))
    else if c == 'K' as nat then t.(grid := EraseLine(t.grid, t.x, t.y, p))
    else if c == 'L' as nat then t.(grid := InsertLines(t.grid, t.y, Times(p, LINES)))
    else if c == 'M' as nat then t.(grid := DeleteLines(t.grid, t.y, Times(p, LINES)))
    else if c == 'P' as nat then t.(grid := SetLine(t.grid, t.y, DeleteCells(t.grid[t.y], t.x, Times(p, COLUMNS))))
    else if c == '@' as nat then t.(grid := SetLine(t.grid, t.y, InsertCells(t.grid[t.y], t.x, Times(p, COLUMNS))))
    else Setting(t, c)
  }

  /** State 3: the arguments, 32-bit numbers separated by semicolons. */
  function Arguments(t: Term, c: nat): (r: Term)
    requires Ok(t)
    ensures Ok(r)
  {
    if c == ';' as nat && t.npar < NPAR - 1 then t.(npar := t.npar + 1)
    else if '0' as nat <= c <= '9' as nat then t.(par := t.par[t.npar := (10 * t.par[t.npar] + c - '0' as nat) % WORD])
    else Command(t.(state := 0), c)
  }

  function NoPar(): (s: seq<nat>)
    ensures |s| == NPAR
  {
    seq(NPAR, _ => 0)
  }

  function NoArguments(t: Term, ques: bool): (r: Term)
    requires Ok(t)
    ensures Ok(r)
  {
    t.(state := 3, npar := 0, par := NoPar(), ques := ques)
  }

  function Step(t: Term, c: nat, erase: nat): (r: Term)
    requires Ok(t)
    ensures Ok(r)
  {
    match t.state
    case 0 => Text(t, c, erase)
    case 1 => Escape(t.(state := 0), c)
    case 2 => if c == '?' as nat then NoArguments(t, true) else Arguments(NoArguments(t, false), c)
    case _ => Arguments(t, c)
  }

  /** The terminal after any stream of characters. */
  function Steps(t: Term, s: seq<nat>, erase: nat): (r: Term)
    requires Ok(t)
    ensures Ok(r)
  {
    if s == [] then t else Step(Steps(t, s[..|s| - 1], erase), s[|s| - 1], erase)
  }

  // ----- what a caller sees ---------------------------------------------------

  /**
    ESC 7 is meant to save the cursor.  The code compares the column with the
    character '7', so it does so if and only if the cursor is in column 55.
   */
  lemma EscSevenSavesIff(t: Term, erase: nat)
    requires Ok(t) && t.state == 0 && (t.savedX, t.savedY) != (t.x, t.y)
    ensures var r := Steps(t, [27, '7' as nat], erase);
            (r.savedX, r.savedY) == (t.x, t.y) <==> t.x == 55
  {
    var s := [27, '7' as nat];
    assert s[..1] == [27] && [27][..0] == [];
    assert Steps(t, [], erase) == t && Steps(t, [27], erase) == t.(state := 1);
    assert Steps(t, s, erase) == Step(Steps(t, [27], erase), '7' as nat, erase);
  }

  /**
    ESC 8 is meant to restore it.  Any escape that the code does not know, ESC 8
    among them, does so if and only if the cursor is in column 56, and nothing else.
   */
  lemma EscEightRestoresIff(t: Term, c: nat, erase: nat)
    requires Ok(t) && t.state == 0 && (t.savedX, t.savedY) != (t.x, t.y)
    requires c !in {'[' as nat, 'E' as nat, 'M' as nat, 'D' as nat, 'Z' as nat}
    ensures var r := Steps(t, [27, c], erase);
            && ((r.x, r.y) == (t.savedX, t.savedY) <==> t.x == 56)
            && (t.x != 56 ==> (r.x, r.y) == (t.x, t.y))
            && r.grid == t.grid && r.state == 0
  {
    var s := [27, c];
    assert s[..1] == [27] && [27][..0] == [];
    assert Steps(t, [], erase) == t && Steps(t, [27], erase) == t.(state := 1);
    assert Steps(t, s, erase) == Step(Steps(t, [27], erase), c, erase);
  }
}

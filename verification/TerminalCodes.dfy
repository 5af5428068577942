/**
  The control sequences of the plain terminal as a user types them: what a whole
  sequence, its numbers written in decimal, does to cursor, cells and settings.
 */
module TerminalCodes {
  import opened Terminal

  /** n in decimal. */
  function Digits(n: nat): (s: seq<nat>)
    ensures |s| >= 1 && forall k :: 0 <= k < |s| ==> '0' as nat <= s[k] <= '9' as nat
  {
    if n < 10 then ['0' as nat + n] else Digits(n / 10) + ['0' as nat + n % 10]
  }

  predicate IsDigit(c: nat) { '0' as nat <= c <= '9' as nat }

  /** ESC [ n c, and ESC [ m ; n c. */
  function One(n: nat, c: nat): seq<nat> { [27, '[' as nat] + (Digits(n) + [c]) }

  function Two(m: nat, n: nat, c: nat): seq<nat> { [27, '[' as nat] + (Digits(m) + ([';' as nat] + (Digits(n) + [c]))) }

  // ----- reading a sequence -----------------------------------------------------

  lemma {:induction false} StepsJoin(t: Term, a: seq<nat>, b: seq<nat>, erase: nat)
    requires Ok(t)
    ensures Steps(t, a + b, erase) == Steps(Steps(t, a, erase), b, erase)
    decreases |b|
  {
    if b == [] {
      assert a + b == a;
    } else {
      StepsJoin(t, a, b[..|b| - 1], erase);
      assert (a + b)[..|a + b| - 1] == a + b[..|b| - 1];
    }
  }

  lemma OneStep(t: Term, c: nat, erase: nat)
    requires Ok(t)
    ensures Steps(t, [c], erase) == Step(t, c, erase)
  {
    assert [c][..0] == [];
    assert Steps(t, [], erase) == t;
  }

  lemma DigitModulo(n: nat)
    ensures (10 * (n / 10 % WORD) + n % 10) % WORD == n % WORD
  {
    var q, d := n / 10, n % 10;
    var k := q / WORD;
    assert q == k * WORD + q % WORD;
    assert n == 10 * q + d == 10 * (q % WORD) + d + WORD * (10 * k);
    ModuloMore(10 * (q % WORD) + d, 10 * k);
  }

  lemma ModuloMore(a: nat, k: nat)
    ensures (a + WORD * k) % WORD == a % WORD
  {
    if k > 0 {
      ModuloMore(a, k - 1);
      assert a + WORD * k == a + WORD * (k - 1) + WORD;
    }
  }

  lemma DigitStep(t: Term, d: nat, erase: nat)
    requires Ok(t) && t.state == 3 && d < 10
    ensures Steps(t, ['0' as nat + d], erase) == t.(par := t.par[t.npar := (10 * t.par[t.npar] + d) % WORD])
  {
    OneStep(t, '0' as nat + d, erase);
  }

  lemma LastDigit(t: Term, n: nat, erase: nat)
    requires Ok(t) && t.state == 3
    ensures Steps(t.(par := t.par[t.npar := n / 10 % WORD]), ['0' as nat + n % 10], erase)
            == t.(par := t.par[t.npar := n % WORD])
  {
    var m := t.(par := t.par[t.npar := n / 10 % WORD]);
    DigitStep(m, n % 10, erase);
    DigitModulo(n);
    assert m.par[t.npar := n % WORD] == t.par[t.npar := n % WORD];
  }

  lemma Small(n: nat)
    requires n < WORD
    ensures n % WORD == n
  {
  }

  /** Digits make up the argument, modulo the word size. */
  lemma {:induction false} NumberRead(t: Term, n: nat, erase: nat)
    requires Ok(t) && t.state == 3 && t.par[t.npar] == 0
    ensures Steps(t, Digits(n), erase) == t.(par := t.par[t.npar := n % WORD])
  {
    if n < 10 {
      DigitStep(t, n, erase);
    } else {
      NumberRead(t, n / 10, erase);
      StepsJoin(t, Digits(n / 10), ['0' as nat + n % 10], erase);
      LastDigit(t, n, erase);
    }
  }

  lemma {:induction false} AfterBracket(t: Term, s: seq<nat>, erase: nat)
    requires Ok(t) && t.state == 0 && s != [] && s[0] != '?' as nat
    ensures Steps(t, [27, '[' as nat] + s, erase) == Steps(NoArguments(t, false), s, erase)
  {
    var m, a := t.(state := 2), NoArguments(t, false);
    OneStep(t, 27, erase);
    OneStep(t.(state := 1), '[' as nat, erase);
    StepsJoin(t, [27], ['[' as nat], erase);
    assert [27] + ['[' as nat] == [27, '[' as nat];
    StepsJoin(t, [27, '[' as nat], s, erase);
    assert s == [s[0]] + s[1..];
    StepsJoin(m, [s[0]], s[1..], erase);
    StepsJoin(a, [s[0]], s[1..], erase);
    OneStep(m, s[0], erase);
    OneStep(a, s[0], erase);
  }

  predicate Final(c: nat) { !IsDigit(c) && c != ';' as nat && c != '?' as nat }

  /** The parser as it is after one number. */
  function Ready(t: Term, n: nat): (u: Term)
    requires Ok(t) && t.state == 0
    ensures Ok(u) && u.state == 0
  {
    t.(npar := 0, par := NoPar()[0 := n % WORD], ques := false)
  }

  /** The command sees the number, and state and arguments are as at the start of a sequence. */
  lemma OneArgument(t: Term, n: nat, c: nat, erase: nat)
    requires Ok(t) && t.state == 0 && Final(c)
    ensures Steps(t, One(n, c), erase) == Command(Ready(t, n), c)
  {
    var a := NoArguments(t, false);
    AfterBracket(t, Digits(n) + [c], erase);
    StepsJoin(a, Digits(n), [c], erase);
    NumberRead(a, n, erase);
    OneStep(a.(par := a.par[0 := n % WORD]), c, erase);
  }

  /** A missing number is zero. */
  lemma NoArgument(t: Term, c: nat, erase: nat)
    requires Ok(t) && t.state == 0 && Final(c)
    ensures Steps(t, [27, '[' as nat] + [c], erase) == Steps(t, One(0, c), erase)
  {
    AfterBracket(t, [c], erase);
    OneArgument(t, 0, c, erase);
    OneStep(NoArguments(t, false), c, erase);
    assert NoPar()[0 := 0] == NoPar();
  }

  lemma TwoArguments(t: Term, m: nat, n: nat, c: nat, erase: nat)
    requires Ok(t) && t.state == 0 && Final(c)
    ensures var u := t.(npar := 1, par := NoPar()[0 := m % WORD][1 := n % WORD], ques := false);
            Steps(t, Two(m, n, c), erase) == Command(u, c)
  {
    var a := NoArguments(t, false);
    var s := Digits(n) + [c];
    AfterBracket(t, Digits(m) + ([';' as nat] + s), erase);
    StepsJoin(a, Digits(m), [';' as nat] + s, erase);
    NumberRead(a, m, erase);
    var b := a.(par := a.par[0 := m % WORD]);
    StepsJoin(b, [';' as nat], s, erase);
    Semicolon(b, erase);
    var d := b.(npar := 1);
    StepsJoin(d, Digits(n), [c], erase);
    NumberRead(d, n, erase);
    OneStep(d.(par := d.par[1 := n % WORD]), c, erase);
  }

  /** Up to sixteen numbers, separated by semicolons. */
  function Joined(ns: seq<nat>): (s: seq<nat>)
    requires ns != []
  {
    var n := |ns| - 1;
    if n == 0 then Digits(ns[0]) else Joined(ns[..n]) + ([';' as nat] + Digits(ns[n]))
  }

  lemma NextNumber(m: Term, n: nat, erase: nat)
    requires Ok(m) && m.state == 3 && m.npar < 15 && m.par[m.npar + 1] == 0
    ensures Steps(m, [';' as nat] + Digits(n), erase)
            == m.(npar := m.npar + 1, par := m.par[m.npar + 1 := n % WORD])
  {
    StepsJoin(m, [';' as nat], Digits(n), erase);
    Semicolon(m, erase);
    NumberRead(m.(npar := m.npar + 1), n, erase);
  }

  lemma Semicolon(m: Term, erase: nat)
    requires Ok(m) && m.state == 3 && m.npar < 15
    ensures Steps(m, [';' as nat], erase) == m.(npar := m.npar + 1)
  {
    OneStep(m, ';' as nat, erase);
  }

  lemma {:induction false} NumbersRead(t: Term, ns: seq<nat>, erase: nat)
    requires Ok(t) && t.state == 3 && t.npar == 0 && t.par == NoPar() && 1 <= |ns| <= 16
    ensures var r := Steps(t, Joined(ns), erase);
            && r == t.(npar := |ns| - 1, par := r.par) && |r.par| == 16
            && forall k :: 0 <= k < 16 ==> r.par[k] == if k < |ns| then ns[k] % WORD else 0
  {
    var n := |ns| - 1;
    if n == 0 {
      NumberRead(t, ns[0], erase);
    } else {
      NumbersRead(t, ns[..n], erase);
      StepsJoin(t, Joined(ns[..n]), [';' as nat] + Digits(ns[n]), erase);
      NextNumber(Steps(t, Joined(ns[..n]), erase), ns[n], erase);
    }
  }

  /** A question mark behind the bracket is noted and makes no difference otherwise. */
  lemma QuestionMark(t: Term, s: seq<nat>, erase: nat)
    requires Ok(t) && t.state == 0
    ensures Steps(t, [27, '[' as nat, '?' as nat] + s, erase) == Steps(NoArguments(t, true), s, erase)
  {
    var q := [27, '[' as nat, '?' as nat];
    StepsJoin(t, q, s, erase);
    StepsJoin(t, [27], ['[' as nat, '?' as nat], erase);
    assert q == [27] + ['[' as nat, '?' as nat];
    OneStep(t, 27, erase);
    StepsJoin(t.(state := 1), ['[' as nat], ['?' as nat], erase);
    assert ['[' as nat, '?' as nat] == ['[' as nat] + ['?' as nat];
    OneStep(t.(state := 1), '[' as nat, erase);
    OneStep(t.(state := 2), '?' as nat, erase);
  }

  // ----- the commands one by one ------------------------------------------------

  lemma PositionCommand(u: Term, c: nat)
    requires Ok(u) && u.state == 0 && c in {'H' as nat, 'f' as nat}
    ensures var p, q := LessOne(u.par[0]), LessOne(u.par[1]);
            Command(u, c) == Goto(u.(par := u.par[0 := p][1 := q]), q, p)
  {
  }

  lemma AbsoluteCommand(u: Term, c: nat)
    requires Ok(u) && u.state == 0 && c in {'G' as nat, '`' as nat, 'd' as nat}
    ensures var p := LessOne(u.par[0]);
            Command(u, c) == Goto(u.(par := u.par[0 := p]), if c == 'd' as nat then u.x else p,
                                  if c == 'd' as nat then p else u.y)
  {
  }

  lemma EraseCommand(u: Term, c: nat)
    requires Ok(u) && u.state == 0 && c in {'J' as nat, 'K' as nat}
    ensures Command(u, c) == u.(grid := if c == 'J' as nat then EraseScreen(u.grid, u.x, u.y, u.par[0])
                                        else EraseLine(u.grid, u.x, u.y, u.par[0]))
  {
  }

  lemma LinesCommand(u: Term, c: nat)
    requires Ok(u) && u.state == 0 && c in {'L' as nat, 'M' as nat}
    ensures Command(u, c) == u.(grid := if c == 'L' as nat then InsertLines(u.grid, u.y, Times(u.par[0], LINES))
                                        else DeleteLines(u.grid, u.y, Times(u.par[0], LINES)))
  {
  }

  lemma CellsCommand(u: Term, c: nat)
    requires Ok(u) && u.state == 0 && c in {'@' as nat, 'P' as nat}
    ensures var n, line := Times(u.par[0], COLUMNS), u.grid[u.y];
            Command(u, c) == u.(grid := SetLine(u.grid, u.y, if c == '@' as nat then InsertCells(line, u.x, n)
                                                              else DeleteCells(line, u.x, n)))
  {
  }

  lemma RegionCommand(u: Term)
    requires Ok(u) && u.state == 0
    ensures var p, q := LessOne(u.par[0]), if u.par[1] == 0 then LINES else u.par[1];
            Command(u, 'r' as nat) == Region(u.(par := u.par[0 := p][1 := q]), p, q)
  {
  }

  lemma SaveCommands(u: Term)
    requires Ok(u) && u.state == 0
    ensures Command(u, 's' as nat) == Save(u) && Command(u, 'u' as nat) == Restore(u)
  {
  }

  // ----- the cursor -------------------------------------------------------------

  /** Everything but the place of the cursor, the parser and its arguments. */
  predicate SameScreen(t: Term, r: Term) {
    && r.grid == t.grid && r.top == t.top && r.bottom == t.bottom && r.attr == t.attr && r.state == 0
    && r.savedX == t.savedX && r.savedY == t.savedY
  }

  /** How far a move goes: a missing argument counts as one. */
  function Count(n: nat): (k: nat)
    ensures 1 <= k < WORD
  {
    if n % WORD == 0 then 1 else n % WORD
  }

  /** Coordinate v less k; what is before the first place comes back from the end of the 32-bit numbers. */
  function Back(v: nat, k: nat, limit: nat): nat
    requires k < WORD
  {
    if k <= v then v - k else if v + WORD - k < limit then v + WORD - k else v
  }

  function Forth(v: nat, k: nat, limit: nat): nat {
    if v + k < limit then v + k else if WORD <= v + k < WORD + limit then v + k - WORD else v
  }

  /** A coordinate as a 32-bit number. */
  function Wrapped(v: int): int { if v < 0 then v + WORD else if v >= WORD then v - WORD else v }

  lemma WrappedIs(v: int)
    requires 0 <= v + WORD && v < 2 * WORD
    ensures v % WORD == Wrapped(v)
  {
  }

  lemma GotoIs(t: Term, x: int, y: int)
    requires Ok(t) && 0 <= x + WORD && x < 2 * WORD && 0 <= y + WORD && y < 2 * WORD
    ensures Goto(t, x, y) ==
            if 0 <= Wrapped(x) < 80 && 0 <= Wrapped(y) < 25 then t.(x := Wrapped(x), y := Wrapped(y)) else t
  {
    WrappedIs(x);
    WrappedIs(y);
  }

  lemma RelativeMove(t: Term, n: nat, c: nat, erase: nat)
    requires Ok(t) && t.state == 0 && IsRelative(c)
    ensures var u := Ready(t, n);
            Steps(t, One(n, c), erase) == Relative(u.(par := u.par[0 := Count(n)]), c, Count(n))
  {
    OneArgument(t, n, c, erase);
  }

  /** ESC [ n A up, B and e down, with the column as it is if that is a column of the screen. */
  lemma VerticalMoves(t: Term, n: nat, c: nat, erase: nat)
    requires Ok(t) && t.state == 0 && c in {'A' as nat, 'B' as nat, 'e' as nat}
    ensures var r := Steps(t, One(n, c), erase);
            && SameScreen(t, r) && r.x == t.x
            && r.y == if t.x >= 80 then t.y else if c == 'A' as nat then Back(t.y, Count(n), 25)
                      else Forth(t.y, Count(n), 25)
  {
    RelativeMove(t, n, c, erase);
    var u := Ready(t, n);
    var v := u.(par := u.par[0 := Count(n)]);
    GotoIs(v, t.x, t.y - Count(n));
    GotoIs(v, t.x, t.y + Count(n));
  }

  /** C and a to the right, D to the left. */
  lemma HorizontalMoves(t: Term, n: nat, c: nat, erase: nat)
    requires Ok(t) && t.state == 0 && c in {'C' as nat, 'a' as nat, 'D' as nat}
    ensures var r := Steps(t, One(n, c), erase);
            && SameScreen(t, r) && r.y == t.y
            && r.x == if c == 'D' as nat then Back(t.x, Count(n), 80) else Forth(t.x, Count(n), 80)
  {
    RelativeMove(t, n, c, erase);
    var u := Ready(t, n);
    var v := u.(par := u.par[0 := Count(n)]);
    GotoIs(v, t.x - Count(n), t.y);
    GotoIs(v, t.x + Count(n), t.y);
  }

  /** E and F to the start of a line further down or up. */
  lemma LineMoves(t: Term, n: nat, c: nat, erase: nat)
    requires Ok(t) && t.state == 0 && c in {'E' as nat, 'F' as nat}
    ensures var r, k := Steps(t, One(n, c), erase), Count(n);
            && SameScreen(t, r)
            && r.y == (if c == 'E' as nat then Forth(t.y, k, 25) else Back(t.y, k, 25))
            && r.x == if r.y == t.y then t.x else 0
  {
    RelativeMove(t, n, c, erase);
    var u := Ready(t, n);
    var v := u.(par := u.par[0 := Count(n)]);
    GotoIs(v, 0, t.y - Count(n));
    GotoIs(v, 0, t.y + Count(n));
  }

  /** ESC [ row ; column H: counted from one; a place off the screen is ignored. */
  lemma Position(t: Term, row: nat, column: nat, c: nat, erase: nat)
    requires Ok(t) && t.state == 0 && c in {'H' as nat, 'f' as nat} && row < WORD && column < WORD
    ensures var r := Steps(t, Two(row, column, c), erase);
            && SameScreen(t, r)
            && (1 <= row <= 25 && 1 <= column <= 80 ==> (r.x, r.y) == (column - 1, row - 1))
            && (row > 25 || column > 80 ==> (r.x, r.y) == (t.x, t.y))
  {
    TwoArguments(t, row, column, c, erase);
    Small(row);
    Small(column);
    var u := t.(npar := 1, par := NoPar()[0 := row][1 := column], ques := false);
    var v := u.(par := u.par[0 := LessOne(row)][1 := LessOne(column)]);
    PositionCommand(u, c);
    GotoIs(v, LessOne(column), LessOne(row));
  }

  /** ESC [ n G and ` set the column, d the line. */
  lemma Absolute(t: Term, n: nat, c: nat, erase: nat)
    requires Ok(t) && t.state == 0 && c in {'G' as nat, '`' as nat, 'd' as nat} && 1 <= n < WORD
    ensures var r := Steps(t, One(n, c), erase);
            && SameScreen(t, r)
            && (c != 'd' as nat ==> r.y == t.y && r.x == if n <= 80 then n - 1 else t.x)
            && (c == 'd' as nat ==> r.x == t.x && r.y == if n <= 25 && t.x < 80 then n - 1 else t.y)
  {
    OneArgument(t, n, c, erase);
    var u := Ready(t, n);
    var v := u.(par := u.par[0 := LessOne(n)]);
    Small(n);
    AbsoluteCommand(u, c);
    GotoIs(v, t.x, n - 1);
    GotoIs(v, n - 1, t.y);
  }

  /** ESC [ s and, whatever cursor movements and text come in between, ESC [ u go together. */
  lemma SaveThenRestore(t: Term, u: Term, erase: nat)
    requires Ok(t) && t.state == 0 && Ok(u) && u.state == 0
    requires var m := Steps(t, One(0, 's' as nat), erase);
             u.savedX == m.savedX && u.savedY == m.savedY
    ensures var r := Steps(u, One(0, 'u' as nat), erase);
            (r.x, r.y) == (t.x, t.y) && r.grid == u.grid && Steps(t, One(0, 's' as nat), erase).grid == t.grid
  {
    OneArgument(t, 0, 's' as nat, erase);
    OneArgument(u, 0, 'u' as nat, erase);
    SaveCommands(Ready(t, 0));
    SaveCommands(Ready(u, 0));
  }

  // ----- cells ------------------------------------------------------------------

  /** Everything but the cells, the parser and its arguments. */
  predicate SamePlace(t: Term, r: Term) {
    && r.x == t.x && r.y == t.y && r.top == t.top && r.bottom == t.bottom && r.attr == t.attr && r.state == 0
    && r.savedX == t.savedX && r.savedY == t.savedY
  }

  /** ESC [ n J and K: cells from the cursor on, before the cursor, or all, of the screen or of its line. */
  lemma Erased(t: Term, n: nat, c: nat, erase: nat, row: nat, col: nat)
    requires Ok(t) && t.state == 0 && c in {'J' as nat, 'K' as nat} && row < 25 && col < 80 && n < WORD
    ensures var r := Steps(t, One(n, c), erase);
            && SamePlace(t, r) && IsGrid(r.grid)
            && r.grid[row][col] ==
               if (c == 'J' as nat || row == t.y)
                  && ((n == 0 && 80 * row + col >= 80 * t.y + t.x)
                      || (n == 1 && 80 * row + col < 80 * t.y + t.x) || n == 2)
               then 0x720 else t.grid[row][col]
  {
    OneArgument(t, n, c, erase);
    EraseCommand(Ready(t, n), c);
    Small(n);
  }

  /** ESC [ n L and M: n lines in and out at the cursor's line, the rest of the screen moving down or up. */
  lemma LinesShifted(t: Term, n: nat, c: nat, erase: nat, row: nat, col: nat)
    requires Ok(t) && t.state == 0 && c in {'L' as nat, 'M' as nat} && row < 25 && col < 80 && 1 <= n < WORD
    ensures var r := Steps(t, One(n, c), erase);
            && SamePlace(t, r) && IsGrid(r.grid)
            && r.grid[row][col] ==
               if row < t.y then t.grid[row][col]
               else if c == 'L' as nat then if row - t.y < n then 0x720 else t.grid[row - n][col]
               else if row + n < 25 then t.grid[row + n][col] else 0x720
  {
    OneArgument(t, n, c, erase);
    LinesCommand(Ready(t, n), c);
    Small(n);
  }

  lemma ShiftedCell(line: seq<nat>, x: nat, n: nat, col: nat)
    requires |line| == COLUMNS && x <= COLUMNS && col < 80 && n >= 1
    ensures InsertCells(line, x, Times(n, COLUMNS))[col] ==
            if col < x then line[col] else if col - x < n then 0x720 else line[col - n]
    ensures DeleteCells(line, x, Times(n, COLUMNS))[col] ==
            if col < x then line[col] else if col + n < 80 then line[col + n] else 0x720
  {
  }

  /** ESC [ n @ and P: n cells in and out at the cursor, the rest of the line moving right or left. */
  lemma CellsShifted(t: Term, n: nat, c: nat, erase: nat, row: nat, col: nat)
    requires Ok(t) && t.state == 0 && c in {'@' as nat, 'P' as nat} && row < 25 && col < 80 && 1 <= n < WORD
    ensures var r := Steps(t, One(n, c), erase);
            && SamePlace(t, r) && IsGrid(r.grid)
            && r.grid[row][col] ==
               if row != t.y || col < t.x then t.grid[row][col]
               else if c == '@' as nat then if col - t.x < n then 0x720 else t.grid[row][col - n]
               else if col + n < 80 then t.grid[row][col + n] else 0x720
  {
    OneArgument(t, n, c, erase);
    CellsCommand(Ready(t, n), c);
    Small(n);
    ShiftedCell(t.grid[t.y], t.x, n, col);
  }

  /** ESC [ 0 c, or no number at all, is ESC [ 1 c for these. */
  lemma ZeroIsOne(t: Term, c: nat, erase: nat)
    requires Ok(t) && t.state == 0 && c in {'L' as nat, 'M' as nat, '@' as nat, 'P' as nat}
    ensures Steps(t, One(0, c), erase).grid == Steps(t, One(1, c), erase).grid
  {
    OneArgument(t, 0, c, erase);
    OneArgument(t, 1, c, erase);
    if c == 'L' as nat || c == 'M' as nat {
      LinesCommand(Ready(t, 0), c);
      LinesCommand(Ready(t, 1), c);
    } else {
      CellsCommand(Ready(t, 0), c);
      CellsCommand(Ready(t, 1), c);
    }
  }

  // ----- settings -----------------------------------------------------------------

  /** ESC [ first ; last r: the lines that scroll, counted from one, both included. */
  lemma ScrollRegion(t: Term, first: nat, last: nat, erase: nat)
    requires Ok(t) && t.state == 0 && 1 <= first < WORD && 1 <= last < WORD
    ensures var r := Steps(t, Two(first, last, 'r' as nat), erase);
            && (r.x, r.y) == (t.x, t.y) && r.grid == t.grid
            && (r.top, r.bottom) == if first <= last <= 25 then (first - 1, last) else (t.top, t.bottom)
  {
    TwoArguments(t, first, last, 'r' as nat, erase);
    Small(first);
    Small(last);
    RegionCommand(t.(npar := 1, par := NoPar()[0 := first][1 := last], ques := false));
  }

  lemma SetsAttribute(u: Term)
    requires Ok(u) && u.state == 0
    ensures Command(u, 'm' as nat) == u.(attr := AttrAfter(u.par, u.npar + 1, u.attr))
  {
  }

  lemma AttributeSteps(par: seq<nat>, attr: nat)
    requires |par| >= 2
    ensures AttrAfter(par, 1, attr) == AttrOf(par[0], attr)
    ensures AttrAfter(par, 2, attr) == AttrOf(par[1], AttrOf(par[0], attr))
  {
    assert AttrAfter(par, 0, attr) == attr;
  }

  /** ESC [ m ; n m: the last of the attributes that the code knows counts. */
  lemma Attributes(t: Term, m: nat, n: nat, erase: nat)
    requires Ok(t) && t.state == 0 && m < WORD && n < WORD
    ensures var r := Steps(t, Two(m, n, 'm' as nat), erase);
            && r.grid == t.grid && (r.x, r.y) == (t.x, t.y)
            && (n == 0 || n == 27 ==> r.attr == 0x07) && (n == 1 || n == 4 ==> r.attr == 0x0f)
            && (n == 7 ==> r.attr == 0x70)
            && (n !in {0, 1, 4, 7, 27} ==> r.attr == Steps(t, One(m, 'm' as nat), erase).attr)
  {
    TwoArguments(t, m, n, 'm' as nat, erase);
    OneArgument(t, m, 'm' as nat, erase);
    Small(m);
    Small(n);
    var u := t.(npar := 1, par := NoPar()[0 := m][1 := n], ques := false);
    SetsAttribute(u);
    SetsAttribute(Ready(t, m));
    assert u.par[1] == n && u.par[0] == m == Ready(t, m).par[0];
    AttributeSteps(u.par, t.attr);
    AttributeSteps(Ready(t, m).par, t.attr);
  }

  lemma OneAttribute(t: Term, n: nat, erase: nat)
    requires Ok(t) && t.state == 0 && n < WORD
    ensures Steps(t, One(n, 'm' as nat), erase).attr ==
            if n == 0 || n == 27 then 0x07 else if n == 1 || n == 4 then 0x0f else if n == 7 then 0x70 else t.attr
  {
    OneArgument(t, n, 'm' as nat, erase);
    SetsAttribute(Ready(t, n));
    AttributeSteps(Ready(t, n).par, t.attr);
  }

  // ----- text ---------------------------------------------------------------------

  /** A printable character within a line: its cell, and the cursor one further. */
  lemma Printed(t: Term, c: nat, erase: nat)
    requires Ok(t) && t.state == 0 && 31 < c < 127 && t.x < 80
    ensures var r := Steps(t, [c], erase);
            && IsGrid(r.grid) && (r.x, r.y) == (t.x + 1, t.y) && r.grid[t.y][t.x] == 256 * t.attr + c
            && forall row, col :: 0 <= row < 25 && 0 <= col < 80 && (row != t.y || col != t.x) ==>
                 r.grid[row][col] == t.grid[row][col]
  {
    OneStep(t, c, erase);
  }

  /** Behind the last column it goes to the start of the next line, as if a line feed had come before it. */
  lemma PrintedNextLine(t: Term, c: nat, erase: nat)
    requires Ok(t) && t.state == 0 && 31 < c < 127 && t.x == 80
    ensures Steps(t, [c], erase) == Steps(Steps(t.(x := 0), [10], erase), [c], erase)
  {
    OneStep(t, c, erase);
    OneStep(t.(x := 0), 10, erase);
    OneStep(Steps(t.(x := 0), [10], erase), c, erase);
  }

  /** A line feed goes down a line, or scrolls the region up by one; ESC D does the same. */
  lemma LineFed(t: Term, c: nat, erase: nat, row: nat, col: nat)
    requires Ok(t) && t.state == 0 && 10 <= c <= 12 && row < 25 && col < 80
    ensures var r := Steps(t, [c], erase);
            && IsGrid(r.grid) && r.x == t.x && r.state == 0
            && if t.y + 1 < t.bottom then r.y == t.y + 1 && r.grid == t.grid
               else
                 && r.y == t.y
                 && r.grid[row][col] ==
                    if row < t.top || row >= t.bottom then t.grid[row][col]
                    else if row + 1 == t.bottom then 0x720 else t.grid[row + 1][col]
    ensures Steps(t, [27, 'D' as nat], erase) == Steps(t, [c], erase)
  {
    OneStep(t, c, erase);
    TwoSteps(t, 'D' as nat, erase);
  }

  /** ESC M is the reverse. */
  lemma LineBack(t: Term, erase: nat, row: nat, col: nat)
    requires Ok(t) && t.state == 0 && row < 25 && col < 80
    ensures var r := Steps(t, [27, 'M' as nat], erase);
            && IsGrid(r.grid) && r.x == t.x && r.state == 0
            && if t.y > t.top then r.y == t.y - 1 && r.grid == t.grid
               else
                 && r.y == t.y
                 && r.grid[row][col] ==
                    if row < t.top || row >= t.bottom then t.grid[row][col]
                    else if row == t.top then 0x720 else t.grid[row - 1][col]
  {
    TwoSteps(t, 'M' as nat, erase);
  }

  /** ESC E goes to the start of the next line, if there is one on the screen; it does not scroll. */
  lemma NextLine(t: Term, erase: nat)
    requires Ok(t) && t.state == 0
    ensures var r := Steps(t, [27, 'E' as nat], erase);
            SameScreen(t, r) && (r.x, r.y) == if t.y < 24 then (0, t.y + 1) else (t.x, t.y)
  {
    TwoSteps(t, 'E' as nat, erase);
    GotoIs(t, 0, t.y + 1);
  }

  /** ESC Z asks who is there and leaves the screen alone. */
  lemma Identify(t: Term, erase: nat)
    requires Ok(t) && t.state == 0
    ensures Steps(t, [27, 'Z' as nat], erase) == t
  {
    TwoSteps(t, 'Z' as nat, erase);
  }

  lemma TwoSteps(t: Term, c: nat, erase: nat)
    requires Ok(t) && t.state == 0
    ensures Steps(t, [27, c], erase) == Step(t.(state := 1), c, erase)
  {
    StepsJoin(t, [27], [c], erase);
    assert [27] + [c] == [27, c];
    OneStep(t, 27, erase);
    OneStep(t.(state := 1), c, erase);
  }

  /** Carriage return, backspace and tab. */
  lemma ControlCharacters(t: Term, erase: nat)
    requires Ok(t) && t.state == 0 && erase !in {8, 9, 13}
    ensures Steps(t, [13], erase) == t.(x := 0)
    ensures Steps(t, [8], erase) == if t.x > 0 then t.(x := t.x - 1) else t
    ensures var r := Steps(t, [9], erase);
            if t.x == 80 then r == Steps(t.(x := 8), [10], erase)
            else r.y == t.y && r.grid == t.grid && t.x < r.x <= t.x + 8 && r.x % 8 == 0
  {
    OneStep(t, 13, erase);
    OneStep(t, 8, erase);
    OneStep(t, 9, erase);
    OneStep(t.(x := 8), 10, erase);
  }

  /** The erase character goes back one cell and blanks it. */
  lemma EraseCharacter(t: Term, erase: nat)
    requires Ok(t) && t.state == 0 && erase !in {10, 11, 12, 13, 27} && !(31 < erase < 127)
    ensures var r := Steps(t, [erase], erase);
            if t.x == 0 then r == t
            else
              && IsGrid(r.grid) && (r.x, r.y) == (t.x - 1, t.y) && r.grid[t.y][t.x - 1] == 0x720
              && forall row, col :: 0 <= row < 25 && 0 <= col < 80 && (row != t.y || col != t.x - 1) ==>
                   r.grid[row][col] == t.grid[row][col]
  {
    OneStep(t, erase, erase);
  }
}

/**
  The console driver of kernel/console.c: a window that moves through video
  memory, with the address of the cursor kept beside its coordinates.  What is
  visible is always the plain terminal of Terminal.dfy.
 */
module Console {
  import opened Terminal
  import opened VideoMemory

  class Driver {
    var memory: array<nat>
    var origin: nat
    var scrEnd: nat
    var pos: nat
    var x: nat
    var y: nat
    var top: nat
    var bottom: nat
    var state: nat
    var npar: nat
    var par: seq<nat>
    var ques: bool
    var attr: nat
    var savedX: nat
    var savedY: nat

    /** The addresses agree with the coordinates, and the window is inside video memory. */
    ghost predicate Placed()
      reads this
    {
      && memory.Length == SIZE && scrEnd == origin + SCREEN && scrEnd <= SIZE && pos == origin + 80 * y + x
      && x <= COLUMNS && y < LINES && top < bottom <= LINES
    }

    ghost predicate Valid()
      reads this, memory
    {
      Placed() && Ok(View())
    }

    ghost function Visible(): (g: seq<seq<nat>>)
      requires Placed()
      reads this, memory
      ensures IsGrid(g)
    {
      Grid(memory[..], origin)
    }

    /** What is to be seen. */
    ghost function View(): Term
      requires Placed()
      reads this, memory
    {
      Term(Visible(), x, y, top, bottom, state, npar, par, ques, attr, savedX, savedY)
    }

    /** The static variables as they are at boot, with the cursor con_init finds. */
    constructor (initial: seq<nat>, cursorX: nat, cursorY: nat)
      requires |initial| == SIZE && cursorX < COLUMNS && cursorY < LINES
      ensures Valid() && fresh(memory)
      ensures View() == Term(Grid(initial, 0), cursorX, cursorY, 0, LINES, 0, 0, NoPar(), false, 0x07, 0, 0)
    {
      memory := new nat[SIZE](i requires 0 <= i < SIZE => initial[i]);
      origin, scrEnd, pos := 0, SCREEN, 80 * cursorY + cursorX;
      x, y, top, bottom, state, npar, par := cursorX, cursorY, 0, LINES, 0, 0, NoPar();
      ques, attr, savedX, savedY := false, 0x07, 0, 0;
      new;
      assert memory[..] == initial;
    }

    // ----- block operations ---------------------------------------------------

    /** cld; rep movs. */
    method Move(dst: nat, src: nat, n: nat)
      requires dst <= src && src + n <= memory.Length
      modifies memory
      ensures memory[..] == Copied(old(memory[..]), dst, src, n)
    {
      ghost var m := memory[..];
      var i := 0;
      while i < n
        invariant 0 <= i <= n
        invariant forall k :: dst <= k < dst + i ==> memory[k] == m[k - dst + src]
        invariant forall k :: 0 <= k < dst ==> memory[k] == m[k]
        invariant forall k :: dst + i <= k < memory.Length ==> memory[k] == m[k]
      {
        memory[dst + i] := memory[src + i];
        i := i + 1;
      }
    }

    /** std; rep movs: from the last cell down. */
    method MoveDown(dst: nat, src: nat, n: nat)
      requires src <= dst && dst + n <= memory.Length
      modifies memory
      ensures memory[..] == Copied(old(memory[..]), dst, src, n)
    {
      ghost var m := memory[..];
      var i := n;
      while i > 0
        invariant 0 <= i <= n
        invariant forall k :: dst + i <= k < dst + n ==> memory[k] == m[k - dst + src]
        invariant forall k :: 0 <= k < dst + i ==> memory[k] == m[k]
        invariant forall k :: dst + n <= k < memory.Length ==> memory[k] == m[k]
      {
        i := i - 1;
        memory[dst + i] := memory[src + i];
      }
    }

    /** rep stos. */
    method Fill(start: nat, n: nat)
      requires start + n <= memory.Length
      modifies memory
      ensures memory[..] == Filled(old(memory[..]), start, n)
    {
      ghost var m := memory[..];
      var i := 0;
      while i < n
        invariant 0 <= i <= n
        invariant forall k :: 0 <= k < memory.Length ==> memory[k] == if start <= k < start + i then BLANK else m[k]
      {
        memory[start + i] := BLANK;
        i := i + 1;
      }
    }

    // ----- scrolling ----------------------------------------------------------

    /** The first branch of scrup: the window moves on, or back to the start of video memory. */
    method ScrollScreen()
      requires Placed()
      modifies this`origin, this`pos, this`scrEnd, memory
      ensures Placed() && Visible() == ScrollUp(old(Visible()), 0, LINES)
      ensures Within(old(memory[..]), memory[..], origin)
    {
      ghost var m, o := memory[..], origin;
      origin := origin + COLUMNS;
      pos := pos + COLUMNS;
      scrEnd := scrEnd + COLUMNS;
      if scrEnd > SIZE {
        Move(0, origin, SCREEN - COLUMNS);
        Fill(SCREEN - COLUMNS, COLUMNS);
        scrEnd := scrEnd - origin;
        pos := pos - origin;
        origin := 0;
        WrapUp(m, o);
      } else {
        Fill(scrEnd - COLUMNS, COLUMNS);
        OriginUp(m, o);
      }
    }

    method Scrup()
      requires Placed()
      modifies this`origin, this`pos, this`scrEnd, memory
      ensures Placed() && Visible() == ScrollUp(old(Visible()), top, bottom)
      ensures Within(old(memory[..]), memory[..], origin)
    {
      if top == 0 && bottom == LINES {
        ScrollScreen();
      } else {
        RegionUp(memory[..], origin, top, bottom);
        ghost var f := MovedUp(memory[..], origin + 80 * top, 80 * (bottom - top));
        Move(origin + 80 * top, origin + 80 * (top + 1), 80 * (bottom - top - 1));
        Fill(origin + 80 * (bottom - 1), COLUMNS);
        assert memory[..] == f;
      }
    }

    method Scrdown()
      requires Placed()
      modifies memory
      ensures Visible() == ScrollDown(old(Visible()), top, bottom)
      ensures Within(old(memory[..]), memory[..], origin)
    {
      RegionDown(memory[..], origin, top, bottom);
      ghost var f := MovedDown(memory[..], origin + 80 * top, 80 * (bottom - top));
      MoveDown(origin + 80 * (top + 1), origin + 80 * top, 80 * (bottom - top - 1));
      Fill(origin + 80 * top, COLUMNS);
      assert memory[..] == f;
    }

    // ----- erasing ------------------------------------------------------------

    method CsiJ(how: nat)
      requires Placed()
      modifies memory
      ensures Visible() == EraseScreen(old(Visible()), x, y, how)
      ensures Within(old(memory[..]), memory[..], origin)
    {
      match how {
        case 0 =>
          TailErased(memory[..], origin, y, x);
          Fill(pos, scrEnd - pos);
        case 1 =>
          HeadErased(memory[..], origin, y, x);
          Fill(origin, pos - origin);
        case 2 =>
          AllErased(memory[..], origin);
          Fill(origin, SCREEN);
        case _ =>
      }
    }

    /** Columns a to b - 1 of the cursor's line made blank. */
    method WipeLine(a: nat, b: nat)
      requires Placed() && a <= b <= COLUMNS
      modifies memory
      ensures Visible() == SetLine(old(Visible()), y, Wipe(old(Visible())[y], a, b))
      ensures Within(old(memory[..]), memory[..], origin)
    {
      LineWiped(memory[..], origin, y, a, b);
      Fill(pos - x + a, b - a);
    }

    method CsiK(how: nat)
      requires Placed()
      modifies memory
      ensures Visible() == EraseLine(old(Visible()), x, y, how)
      ensures Within(old(memory[..]), memory[..], origin)
    {
      NothingDone(Visible(), y);
      match how {
        case 0 =>
          if x >= COLUMNS {
            return;
          }
          WipeLine(x, COLUMNS);
        case 1 =>
          WipeLine(0, x);
        case 2 =>
          WipeLine(0, COLUMNS);
        case _ =>
      }
    }

    // ----- inserting and deleting ---------------------------------------------

    method InsertChar()
      requires Placed()
      modifies memory
      ensures Visible() == SetLine(old(Visible()), y, InsertCells(old(Visible())[y], x, 1))
      ensures Within(old(memory[..]), memory[..], origin)
    {
      ghost var m := memory[..];
      var i, p, carry := x, pos, BLANK;
      while i < COLUMNS
        invariant x <= i <= COLUMNS && p == pos - x + i
        invariant carry == if i == x then BLANK else m[p - 1]
        invariant forall k :: 0 <= k < pos ==> memory[k] == m[k]
        invariant forall k :: p <= k < SIZE ==> memory[k] == m[k]
        invariant forall k :: pos < k < p ==> memory[k] == m[k - 1]
        invariant p > pos ==> memory[pos] == BLANK
      {
        var tmp := memory[p];
        memory[p] := carry;
        carry := tmp;
        p := p + 1;
        i := i + 1;
      }
      CellInserted(m, memory[..], origin, y, x);
    }

    method DeleteChar()
      requires Placed()
      modifies memory
      ensures Visible() == SetLine(old(Visible()), y, DeleteCells(old(Visible())[y], x, 1))
      ensures Within(old(memory[..]), memory[..], origin)
    {
      ghost var m := memory[..];
      if x >= COLUMNS {
        NothingDone(Visible(), y);
        return;
      }
      var i, p := x, pos;
      i := i + 1;
      while i < COLUMNS
        invariant x < i <= COLUMNS && p == pos - x + i - 1
        invariant forall k :: 0 <= k < pos ==> memory[k] == m[k]
        invariant forall k :: p <= k < SIZE ==> memory[k] == m[k]
        invariant forall k :: pos <= k < p ==> memory[k] == m[k + 1]
      {
        memory[p] := memory[p + 1];
        p := p + 1;
        i := i + 1;
      }
      memory[p] := BLANK;
      CellDeleted(m, memory[..], origin, y, x);
    }

    method InsertLine()
      requires Placed()
      modifies this`top, this`bottom, memory
      ensures top == old(top) && bottom == old(bottom)
      ensures Visible() == InsertLines(old(Visible()), y, 1)
      ensures Within(old(memory[..]), memory[..], origin)
    {
      OneLine(Visible(), y);
      var oldTop, oldBottom := top, bottom;
      top := y;
      bottom := LINES;
      Scrdown();
      top := oldTop;
      bottom := oldBottom;
    }

    method DeleteLine()
      requires Placed()
      modifies this`top, this`bottom, this`origin, this`pos, this`scrEnd, memory
      ensures Placed() && top == old(top) && bottom == old(bottom)
      ensures Visible() == DeleteLines(old(Visible()), y, 1)
      ensures Within(old(memory[..]), memory[..], origin)
    {
      OneLine(Visible(), y);
      var oldTop, oldBottom := top, bottom;
      top := y;
      bottom := LINES;
      Scrup();
      top := oldTop;
      bottom := oldBottom;
    }

    /** csi_at. */
    method InsertChars(nr: nat)
      requires Placed()
      modifies memory
      ensures Visible() == SetLine(old(Visible()), y, InsertCells(old(Visible())[y], x, Times(nr, COLUMNS)))
      ensures Within(old(memory[..]), memory[..], origin)
    {
      ghost var m, g, n := memory[..], Visible(), 0;
      var left := Times(nr, COLUMNS);
      NoneInserted(g, y, x);
      while left > 0
        invariant n + left == Times(nr, COLUMNS)
        invariant Visible() == SetLine(g, y, InsertCells(g[y], x, n))
        invariant Within(m, memory[..], origin)
      {
        InsertOneMore(g[y], x, n);
        InsertChar();
        left := left - 1;
        n := n + 1;
      }
    }

    /** csi_P. */
    method DeleteChars(nr: nat)
      requires Placed()
      modifies memory
      ensures Visible() == SetLine(old(Visible()), y, DeleteCells(old(Visible())[y], x, Times(nr, COLUMNS)))
      ensures Within(old(memory[..]), memory[..], origin)
    {
      ghost var m, g, n := memory[..], Visible(), 0;
      var left := Times(nr, COLUMNS);
      NoneInserted(g, y, x);
      while left > 0
        invariant n + left == Times(nr, COLUMNS)
        invariant Visible() == SetLine(g, y, DeleteCells(g[y], x, n))
        invariant Within(m, memory[..], origin)
      {
        DeleteOneMore(g[y], x, n);
        DeleteChar();
        left := left - 1;
        n := n + 1;
      }
    }

    /** One more insert_line, after n of them. */
    method InsertAgain(ghost g: seq<seq<nat>>, ghost n: nat)
      requires Placed() && IsGrid(g) && Visible() == InsertLines(g, y, n)
      modifies this`top, this`bottom, memory
      ensures top == old(top) && bottom == old(bottom) && Visible() == InsertLines(g, y, n + 1)
      ensures Within(old(memory[..]), memory[..], origin)
    {
      InsertLineMore(g, y, n);
      InsertLine();
    }

    /** One more delete_line, after n of them. */
    method DeleteAgain(ghost g: seq<seq<nat>>, ghost n: nat)
      requires Placed() && IsGrid(g) && Visible() == DeleteLines(g, y, n)
      modifies this`top, this`bottom, this`origin, this`pos, this`scrEnd, memory
      ensures Placed() && top == old(top) && bottom == old(bottom) && Visible() == DeleteLines(g, y, n + 1)
    {
      DeleteLineMore(g, y, n);
      DeleteLine();
    }

    /** csi_L. */
    method InsertManyLines(nr: nat)
      requires Placed()
      modifies this`top, this`bottom, memory
      ensures top == old(top) && bottom == old(bottom)
      ensures Visible() == InsertLines(old(Visible()), y, Times(nr, LINES))
      ensures Within(old(memory[..]), memory[..], origin)
    {
      ghost var m, g := memory[..], Visible();
      var times, n := Times(nr, LINES), 0;
      NoLines(g, y);
      while n < times
        invariant n <= times && top == old(top) && bottom == old(bottom)
        invariant Visible() == InsertLines(g, y, n)
        invariant Within(m, memory[..], origin)
      {
        InsertAgain(g, n);
        n := n + 1;
      }
    }

    /** csi_M.  Each deletion of the top line of the screen moves the window. */
    method DeleteManyLines(nr: nat)
      requires Placed()
      modifies this`top, this`bottom, this`origin, this`pos, this`scrEnd, memory
      ensures Placed() && top == old(top) && bottom == old(bottom)
      ensures Visible() == DeleteLines(old(Visible()), y, Times(nr, LINES))
    {
      ghost var g := Visible();
      var times, n := Times(nr, LINES), 0;
      NoLines(g, y);
      while n < times
        invariant n <= times && top == old(top) && bottom == old(bottom)
        invariant Placed() && Visible() == DeleteLines(g, y, n)
      {
        DeleteAgain(g, n);
        n := n + 1;
      }
    }

    /** csi_m. */
    method SetAttributes()
      requires npar < |par|
      modifies this`attr
      ensures attr == AttrAfter(par, npar + 1, old(attr))
    {
      var i := 0;
      while i <= npar
        invariant 0 <= i <= npar + 1
        invariant attr == AttrAfter(par, i, old(attr))
      {
        attr := AttrOf(par[i], attr);
        i := i + 1;
      }
    }

    // ----- the cursor ---------------------------------------------------------

    method Gotoxy(newX: int, newY: int)
      requires Valid()
      modifies this
      ensures Valid() && memory == old(memory) && origin == old(origin)
      ensures View() == Goto(old(View()), newX, newY)
    {
      if newX % WORD >= COLUMNS || newY % WORD >= LINES {
        return;
      }
      x := newX % WORD;
      y := newY % WORD;
      pos := origin + 80 * y + x;
    }

    method Lf()
      requires Valid()
      modifies this, memory
      ensures Valid() && memory == old(memory)
      ensures View() == LineFeed(old(View()))
      ensures Within(old(memory[..]), memory[..], origin)
    {
      if y + 1 < bottom {
        y := y + 1;
        pos := pos + COLUMNS;
        return;
      }
      Scrup();
    }

    method Ri()
      requires Valid()
      modifies this, memory
      ensures Valid() && memory == old(memory)
      ensures View() == ReverseFeed(old(View()))
      ensures Within(old(memory[..]), memory[..], origin)
    {
      if y > top {
        y := y - 1;
        pos := pos - COLUMNS;
        return;
      }
      Scrdown();
    }

    method Cr()
      requires Valid()
      modifies this
      ensures Valid() && memory == old(memory) && origin == old(origin)
      ensures View() == old(View()).(x := 0)
    {
      pos := pos - x;
      x := 0;
    }

    /** A cell written at the cursor. */
    method Store(cell: nat)
      requires Placed() && x < COLUMNS
      modifies memory
      ensures Visible() == SetCell(old(Visible()), y, x, cell)
      ensures Within(old(memory[..]), memory[..], origin)
    {
      CellChanged(memory[..], origin, y, x, cell);
      ghost var m: seq<nat> := memory[..];
      memory[pos] := cell;
      assert memory[..] == m[pos := cell];
    }

    method Del()
      requires Valid()
      modifies this, memory
      ensures Valid() && memory == old(memory)
      ensures View() == Delete(old(View()))
      ensures Within(old(memory[..]), memory[..], origin)
    {
      if x > 0 {
        pos := pos - 1;
        x := x - 1;
        Store(BLANK);
      }
    }

    method SaveCur()
      requires Valid()
      modifies this
      ensures Valid() && memory == old(memory) && origin == old(origin)
      ensures View() == Save(old(View()))
    {
      savedX := x;
      savedY := y;
    }

    method RestoreCur()
      requires Valid()
      modifies this
      ensures Valid() && memory == old(memory) && origin == old(origin)
      ensures View() == Restore(old(View()))
    {
      x := savedX;
      y := savedY;
      pos := origin + 80 * y + x;
    }

    // ----- characters ---------------------------------------------------------

    method WrapLine()
      requires Valid()
      modifies this, memory
      ensures Valid() && memory == old(memory) && attr == old(attr)
      ensures View() == Wrap(old(View()))
    {
      if x >= COLUMNS {
        x := x - COLUMNS;
        pos := pos - COLUMNS;
        Lf();
      }
    }

    /** A printable character goes to the cursor, on the next line if this one is full. */
    method Print(c: nat)
      requires Valid() && state == 0
      modifies this, memory
      ensures Valid() && memory == old(memory)
      ensures View() == Write(Wrap(old(View())), old(attr) * 256 + c)
    {
      WrapLine();
      Store(attr * 256 + c);
      pos := pos + 1;
      x := x + 1;
    }

    method Tabulate()
      requires Valid()
      modifies this, memory
      ensures Valid() && memory == old(memory)
      ensures View() == Tab(old(View()))
    {
      var c := 8 - x % 8;
      x := x + c;
      pos := pos + c;
      if x > COLUMNS {
        x := x - COLUMNS;
        pos := pos - COLUMNS;
        Lf();
      }
    }

    /** State 0 of con_write. */
    method PutText(c: nat, erase: nat)
      requires Valid() && state == 0
      modifies this, memory
      ensures Valid() && memory == old(memory)
      ensures View() == Text(old(View()), c, erase)
    {
      if 31 < c < 127 {
        Print(c);
      } else if c == 27 {
        state := 1;
      } else if c == 10 || c == 11 || c == 12 {
        Lf();
      } else if c == 13 {
        Cr();
      } else if c == erase {
        Del();
      } else if c == 8 {
        if x > 0 {
          x := x - 1;
          pos := pos - 1;
        }
      } else if c == 9 {
        Tabulate();
      }
    }

    /** State 1. */
    method PutEscape(c: nat)
      requires Valid() && state == 0
      modifies this, memory
      ensures Valid() && memory == old(memory)
      ensures View() == Escape(old(View()), c)
    {
      if c == '[' as nat {
        state := 2;
      } else if c == 'E' as nat {
        Gotoxy(0, y + 1);
      } else if c == 'M' as nat {
        Ri();
      } else if c == 'D' as nat {
        Lf();
      } else if c == 'Z' as nat {
      } else if x == '7' as nat {
        SaveCur();
      } else if x == '8' as nat {
        RestoreCur();
      }
    }

    /** The commands that move the cursor; the argument is changed in place first. */
    method PutMove(c: nat)
      requires Valid() && state == 0 && IsMove(c)
      modifies this
      ensures Valid() && memory == old(memory)
      ensures View() == Command(old(View()), c)
    {
      if c == 'G' as nat || c == '`' as nat {
        par := par[0 := LessOne(par[0])];
        Gotoxy(par[0], y);
      } else if c == 'd' as nat {
        par := par[0 := LessOne(par[0])];
        Gotoxy(x, par[0]);
      } else if c == 'H' as nat || c == 'f' as nat {
        par := par[0 := LessOne(par[0])];
        par := par[1 := LessOne(par[1])];
        Gotoxy(par[1], par[0]);
      } else {
        par := par[0 := AtLeastOne(par[0])];
        PutRelative(c);
      }
    }

    /** The relative moves, once par[0] is at least one. */
    method PutRelative(c: nat)
      requires Valid() && state == 0 && IsRelative(c) && par[0] > 0
      modifies this
      ensures Valid() && memory == old(memory)
      ensures View() == Relative(old(View()), c, old(par[0]))
    {
      if c == 'A' as nat {
        Gotoxy(x, y - par[0]);
      } else if c == 'B' as nat || c == 'e' as nat {
        Gotoxy(x, y + par[0]);
      } else if c == 'C' as nat || c == 'a' as nat {
        Gotoxy(x + par[0], y);
      } else if c == 'D' as nat {
        Gotoxy(x - par[0], y);
      } else if c == 'E' as nat {
        Gotoxy(0, y + par[0]);
      } else {
        Gotoxy(0, y - par[0]);
      }
    }

    /** The commands that change the screen. */
    method PutEdit(c: nat)
      requires Valid() && state == 0 && !IsMove(c)
      modifies this, memory
      ensures Valid() && memory == old(memory)
      ensures View() == Command(old(View()), c)
    {
      if c == 'J' as nat {
        CsiJ(par[0]);
      } else if c == 'K' as nat {
        CsiK(par[0]);
      } else if c == 'L' as nat {
        InsertManyLines(par[0]);
      } else if c == 'M' as nat {
        DeleteManyLines(par[0]);
      } else if c == 'P' as nat {
        DeleteChars(par[0]);
      } else if c == '@' as nat {
        InsertChars(par[0]);
      } else {
        PutSetting(c);
      }
    }

    method PutSetting(c: nat)
      requires Valid() && state == 0
      modifies this
      ensures Valid() && memory == old(memory)
      ensures View() == Setting(old(View()), c)
    {
      if c == 'm' as nat {
        SetAttributes();
      } else if c == 'r' as nat {
        par := par[0 := LessOne(par[0])];
        if par[1] == 0 {
          par := par[1 := LINES];
        }
        if par[0] < par[1] && par[1] <= LINES {
          top := par[0];
          bottom := par[1];
        }
      } else if c == 's' as nat {
        SaveCur();
      } else if c == 'u' as nat {
        RestoreCur();
      }
    }

    /** State 3 and, for any other character, state 4. */
    method PutArgument(c: nat)
      requires Valid()
      modifies this, memory
      ensures Valid() && memory == old(memory)
      ensures View() == Arguments(old(View()), c)
    {
      if c == ';' as nat && npar < NPAR - 1 {
        npar := npar + 1;
      } else if '0' as nat <= c <= '9' as nat {
        par := par[npar := (10 * par[npar] + c - '0' as nat) % WORD];
      } else {
        state := 0;
        if IsMove(c) {
          PutMove(c);
        } else {
          PutEdit(c);
        }
      }
    }

    /** One turn of the loop of con_write. */
    method Put(c: nat, erase: nat)
      requires Valid()
      modifies this, memory
      ensures Valid() && memory == old(memory)
      ensures View() == Step(old(View()), c, erase)
    {
      if state == 0 {
        PutText(c, erase);
      } else if state == 1 {
        state := 0;
        PutEscape(c);
      } else if state == 2 {
        par := NoPar();
        npar := 0;
        state := 3;
        ques := c == '?' as nat;
        if !ques {
          PutArgument(c);
        }
      } else {
        PutArgument(c);
      }
    }

    /** con_write: for every stream of characters the window shows what the plain terminal shows. */
    method ConWrite(queue: seq<nat>, erase: nat)
      requires Valid()
      modifies this, memory
      ensures Valid() && memory == old(memory)
      ensures View() == Steps(old(View()), queue, erase)
    {
      var i := 0;
      while i < |queue|
        invariant 0 <= i <= |queue| && Valid() && memory == old(memory)
        invariant View() == Steps(old(View()), queue[..i], erase)
      {
        assert queue[..i + 1][..i] == queue[..i];
        Put(queue[i], erase);
        i := i + 1;
      }
      assert queue[..i] == queue;
    }
  }
}

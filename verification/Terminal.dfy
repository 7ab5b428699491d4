/** The character terminal a console window is meant to be: one character at a time, on a
    grid of cells, with a cursor.  The window manager's batching renderer is proved against
    it in Surface. */
module Terminal {

  /** What a cell shows: a character, nothing (scrolled in), or whatever the cell at a given
      place showed when rendering started. */
  datatype Cell = Glyph(ch: int) | Blank | Was(row: int, col: int)

  type Grid = seq<seq<Cell>>

  datatype Term = Term(grid: Grid, col: int, row: int) {
    ghost predicate Ok(cols: int, rows: int) {
      |grid| == rows
      && (forall r :: 0 <= r < rows ==> |grid[r]| == cols)
      && 0 <= col < cols && 0 <= row < rows
    }
  }

  function BlankRow(cols: nat): seq<Cell> { seq(cols, _ => Blank) }

  function Put(g: Grid, r: int, c: int, cell: Cell): (h: Grid)
    requires 0 <= r < |g| && 0 <= c < |g[r]|
  {
    g[r := g[r][c := cell]]
  }

  /** Move to the next row, scrolling the grid when there is none. */
  function NextRow(t: Term, col: int, cols: nat): Term
    requires 0 < |t.grid|
  {
    if t.row + 1 < |t.grid| then Term(t.grid, col, t.row + 1)
    else Term(t.grid[1..] + [BlankRow(cols)], col, |t.grid| - 1)
  }

  function Advance(t: Term, cols: nat): Term
    requires 0 < |t.grid|
  {
    if t.col + 1 >= cols then NextRow(t, 0, cols) else t.(col := t.col + 1)
  }

  predicate Printable(ch: int) { 32 <= ch <= 126 }

  const NEWLINE := 10
  const RETURN := 13
  const BACKSPACE := 8
  const SPACE := 32

  function Step(t: Term, ch: int, cols: nat): (t': Term)
    requires t.Ok(cols, |t.grid|)
    ensures t'.Ok(cols, |t.grid|)
  {
    if ch == NEWLINE then NextRow(t, 0, cols)
    else if ch == RETURN then t.(col := 0)
    else if ch == BACKSPACE then
      var c := if t.col > 0 then t.col - 1 else t.col;
      Term(Put(t.grid, t.row, c, Glyph(SPACE)), c, t.row)
    else if !Printable(ch) then Advance(t, cols)
    else Advance(t.(grid := Put(t.grid, t.row, t.col, Glyph(ch))), cols)
  }

  /** The terminal after a whole string. */
  function Run(t: Term, s: seq<int>, cols: nat): (t': Term)
    requires t.Ok(cols, |t.grid|)
    ensures t'.Ok(cols, |t.grid|)
  {
    if s == [] then t else Step(Run(t, s[..|s| - 1], cols), s[|s| - 1], cols)
  }

  /** Rendering two strings in turn is rendering their concatenation. */
  lemma {:induction false} RunAppend(t: Term, a: seq<int>, b: seq<int>, cols: nat)
    requires t.Ok(cols, |t.grid|)
    ensures Run(t, a + b, cols) == Run(Run(t, a, cols), b, cols)
    decreases |b|
  {
    if b == [] {
      assert a + b == a;
    } else {
      var k := |b| - 1;
      assert (a + b)[..|a + b| - 1] == a + b[..k];
      RunAppend(t, a, b[..k], cols);
    }
  }

  /** The grid in which every cell still shows what it showed at the start. */
  function Fresh(cols: nat, rows: nat, col: int, row: int): (t: Term)
    ensures |t.grid| == rows
    ensures 0 <= col < cols && 0 <= row < rows ==> t.Ok(cols, rows)
  {
    Term(seq(rows, r => seq(cols, c => Was(r, c))), col, row)
  }

  /** A printed character that has just been backspaced over leaves a blank under the cursor
      and the cursor where it was, unless the character wrapped the line. */
  lemma PrintThenBackspace(t: Term, ch: int, cols: nat)
    requires t.Ok(cols, |t.grid|) && Printable(ch) && t.col + 1 < cols
    ensures Run(t, [ch, BACKSPACE], cols) == t.(grid := Put(t.grid, t.row, t.col, Glyph(SPACE)))
  {
    assert [ch, BACKSPACE] == [ch] + [BACKSPACE];
    RunAppend(t, [ch], [BACKSPACE], cols);
    assert [ch][..0] == [];
    var u := Run(t, [ch], cols);
    assert u == Step(t, ch, cols);
    assert Run(u, [BACKSPACE], cols) == Step(u, BACKSPACE, cols);
    var g := t.grid;
    var r := g[t.row];
    assert r[t.col := Glyph(ch)][t.col := Glyph(SPACE)] == r[t.col := Glyph(SPACE)];
    assert Put(Put(g, t.row, t.col, Glyph(ch)), t.row, t.col, Glyph(SPACE))
        == Put(g, t.row, t.col, Glyph(SPACE));
  }

  // ---------- what each character does ----------

  ghost predicate Rows(g: Grid, cols: nat) {
    forall r :: 0 <= r < |g| ==> |g[r]| == cols
  }

  // The grid before, but for one cell.
  ghost predicate OneCell(g: Grid, h: Grid, row: int, col: int, cell: Cell, cols: nat) {
    && |h| == |g| && Rows(g, cols) && Rows(h, cols)
    && forall r, c :: 0 <= r < |g| && 0 <= c < cols ==> h[r][c] == if r == row && c == col then cell else g[r][c]
  }

  // All rows moved up by one, with a blank row at the bottom.
  ghost predicate UpOne(g: Grid, h: Grid, cols: nat) {
    && |h| == |g| && Rows(g, cols) && Rows(h, cols)
    && forall r, c :: 0 <= r < |g| && 0 <= c < cols ==> h[r][c] == if r + 1 < |g| then g[r + 1][c] else Blank
  }

  // The cursor at the start of the row below; below the last row, the picture moves instead.
  ghost predicate DownOne(t: Term, u: Term, cols: nat) {
    u.col == 0
    && if t.row + 1 < |t.grid| then u.row == t.row + 1 && u.grid == t.grid
       else u.row == t.row && UpOne(t.grid, u.grid, cols)
  }

  // The cursor one cell on: to the right, or from the right edge to the next row.
  ghost predicate OneOn(t: Term, u: Term, cols: nat) {
    if t.col + 1 < cols then u == t.(col := t.col + 1) else DownOne(t, u, cols)
  }

  /** Newline goes to the start of the next row, return to that of this one; backspace goes left
      as far as the edge and leaves a blank there; a printable character is put under the cursor
      and moves it on, any other character only moves it on.  No other cell changes. */
  lemma EachCharacter(t: Term, ch: int, cols: nat)
    requires t.Ok(cols, |t.grid|)
    ensures ch == 10 ==> DownOne(t, Step(t, ch, cols), cols)
    ensures ch == 13 ==> Step(t, ch, cols) == Term(t.grid, 0, t.row)
    ensures ch == 8 ==> var u := Step(t, ch, cols);
            u.row == t.row && u.col == (if t.col == 0 then 0 else t.col - 1)
            && OneCell(t.grid, u.grid, u.row, u.col, Glyph(32), cols)
    ensures 32 <= ch <= 126 ==> exists g ::
            OneCell(t.grid, g, t.row, t.col, Glyph(ch), cols) && OneOn(t.(grid := g), Step(t, ch, cols), cols)
    ensures ch != 10 && ch != 13 && ch != 8 && !(32 <= ch <= 126) ==> OneOn(t, Step(t, ch, cols), cols)
  {
    if 32 <= ch <= 126 {
      var g := Put(t.grid, t.row, t.col, Glyph(ch));
      assert OneCell(t.grid, g, t.row, t.col, Glyph(ch), cols);
      assert OneOn(t.(grid := g), Step(t, ch, cols), cols);
    }
  }

  // ---------- lines of text ----------

  ghost predicate Text(l: seq<int>, cols: nat) {
    |l| < cols && forall i :: 0 <= i < |l| ==> 32 <= l[i] <= 126
  }

  ghost predicate Texts(ls: seq<seq<int>>, cols: nat) {
    forall l :: l in ls ==> Text(l, cols)
  }

  // The lines with a newline between any two.
  function Lines(ls: seq<seq<int>>): (s: seq<int>)
    requires ls != []
  {
    if |ls| == 1 then ls[0] else Lines(ls[..|ls| - 1]) + [10] + ls[|ls| - 1]
  }

  // Row q of an endless page: the lines from row t.row on, over what was there.
  function OnPage(t: Term, ls: seq<seq<int>>, q: int, c: int): Cell
    requires 0 <= q && 0 <= c && 0 <= t.row && forall r :: 0 <= r < |t.grid| ==> c < |t.grid[r]|
  {
    if t.row <= q < t.row + |ls| && c < |ls[q - t.row]| then Glyph(ls[q - t.row][c])
    else if q < |t.grid| then t.grid[q][c]
    else Blank
  }

  // How far the page has moved up once row q is shown.
  function Shift(t: Term, q: int): nat {
    if q < |t.grid| then 0 else q - |t.grid| + 1
  }

  // The screen shows the page as far as its row q, and the cursor is in that row.
  ghost predicate PageShown(t: Term, ls: seq<seq<int>>, u: Term, q: int, cols: nat)
    requires t.Ok(cols, |t.grid|)
  {
    && u.Ok(cols, |t.grid|) && u.row == q - Shift(t, q)
    && forall r, c :: 0 <= r < |t.grid| && 0 <= c < cols ==> u.grid[r][c] == OnPage(t, ls, r + Shift(t, q), c)
  }

  // The characters of l in one row, and everything else as before.
  ghost predicate Printed(g: Grid, h: Grid, row: int, col: int, l: seq<int>, cols: nat) {
    && |h| == |g| && Rows(g, cols) && Rows(h, cols)
    && forall r, c :: 0 <= r < |g| && 0 <= c < cols ==>
         h[r][c] == if r == row && col <= c < col + |l| then Glyph(l[c - col]) else g[r][c]
  }

  // Printing within a row.
  lemma {:induction false} PrintText(t: Term, l: seq<int>, cols: nat)
    requires t.Ok(cols, |t.grid|) && t.col + |l| < cols && forall i :: 0 <= i < |l| ==> 32 <= l[i] <= 126
    ensures var u := Run(t, l, cols);
            && u.row == t.row && u.col == t.col + |l|
            && Printed(t.grid, u.grid, t.row, t.col, l, cols)
    decreases |l|
  {
    if l != [] {
      var k := |l| - 1;
      PrintText(t, l[..k], cols);
      EachCharacter(Run(t, l[..k], cols), l[k], cols);
    }
  }

  /** Lines of text shorter than a row, joined by newlines and printed from the start of a row,
      stand one below the other from that row on, each from column 0, with everything else as it
      was; when they do not fit, all of that has moved up by as many rows as are missing. */
  lemma {:induction false} LinesStand(t: Term, ls: seq<seq<int>>, cols: nat)
    requires t.Ok(cols, |t.grid|) && t.col == 0 && ls != [] && Texts(ls, cols)
    ensures var u := Run(t, Lines(ls), cols);
            u.col == |ls[|ls| - 1]| && PageShown(t, ls, u, t.row + |ls| - 1, cols)
    decreases |ls|, 1
  {
    var k := |ls| - 1;
    if k == 0 {
      OneLine(t, ls, cols);
    } else {
      var u := LinesBefore(t, ls, cols);
      OneMore(t, ls, u, cols);
    }
  }

  lemma OneLine(t: Term, ls: seq<seq<int>>, cols: nat)
    requires t.Ok(cols, |t.grid|) && t.col == 0 && |ls| == 1 && Text(ls[0], cols)
    ensures var u := Run(t, ls[0], cols); u.col == |ls[0]| && PageShown(t, ls, u, t.row, cols)
  {
    PrintText(t, ls[0], cols);
  }

  lemma OneMore(t: Term, ls: seq<seq<int>>, u: Term, cols: nat)
    requires t.Ok(cols, |t.grid|) && |ls| > 1 && Text(ls[|ls| - 1], cols)
    requires PageShown(t, ls[..|ls| - 1], u, t.row + |ls| - 2, cols)
    ensures var l := ls[|ls| - 1];
            var w := Run(Step(u, 10, cols), l, cols);
            w.col == |l| && PageShown(t, ls, w, t.row + |ls| - 1, cols)
  {
    var v := Step(u, 10, cols);
    NewRow(t, ls, u, v, cols);
    PrintText(v, ls[|ls| - 1], cols);
    LastLine(t, ls, v, Run(v, ls[|ls| - 1], cols), cols);
  }

  lemma {:induction false} LinesBefore(t: Term, ls: seq<seq<int>>, cols: nat) returns (u: Term)
    requires t.Ok(cols, |t.grid|) && t.col == 0 && |ls| > 1 && Texts(ls, cols)
    ensures u.Ok(cols, |t.grid|) && PageShown(t, ls[..|ls| - 1], u, t.row + |ls| - 2, cols)
    ensures Run(t, Lines(ls), cols) == Run(Step(u, 10, cols), ls[|ls| - 1], cols)
    decreases |ls|, 0
  {
    var before := ls[..|ls| - 1];
    LinesStand(t, before, cols);
    LinesApart(t, ls, cols);
    u := Run(t, Lines(before), cols);
  }

  lemma LinesApart(t: Term, ls: seq<seq<int>>, cols: nat)
    requires t.Ok(cols, |t.grid|) && |ls| > 1
    ensures var k := |ls| - 1; Run(t, Lines(ls), cols) == Run(Step(Run(t, Lines(ls[..k]), cols), 10, cols), ls[k], cols)
  {
    var k := |ls| - 1;
    var u := Run(t, Lines(ls[..k]), cols);
    assert [10][..0] == [] && Run(u, [10], cols) == Step(u, 10, cols);
    RunAppend(t, Lines(ls[..k]), [10], cols);
    RunAppend(t, Lines(ls[..k]) + [10], ls[k], cols);
  }

  // The newline after all lines but the last brings up the next row of the page.
  lemma NewRow(t: Term, ls: seq<seq<int>>, u: Term, v: Term, cols: nat)
    requires t.Ok(cols, |t.grid|) && |ls| > 1 && PageShown(t, ls[..|ls| - 1], u, t.row + |ls| - 2, cols)
    requires v == Step(u, 10, cols)
    ensures v.col == 0 && PageShown(t, ls[..|ls| - 1], v, t.row + |ls| - 1, cols)
  {
    EachCharacter(u, 10, cols);
  }

  // The last line is printed over it.
  lemma LastLine(t: Term, ls: seq<seq<int>>, v: Term, w: Term, cols: nat)
    requires t.Ok(cols, |t.grid|) && |ls| > 1 && PageShown(t, ls[..|ls| - 1], v, t.row + |ls| - 1, cols)
    requires w.Ok(cols, |t.grid|) && w.row == v.row && Printed(v.grid, w.grid, v.row, 0, ls[|ls| - 1], cols)
    ensures PageShown(t, ls, w, t.row + |ls| - 1, cols)
  {
    var k, q := |ls| - 1, t.row + |ls| - 1;
    forall r, c | 0 <= r < |t.grid| && 0 <= c < cols
      ensures w.grid[r][c] == OnPage(t, ls, r + Shift(t, q), c)
    {
      var i := r + Shift(t, q) - t.row;
      assert v.grid[r][c] == OnPage(t, ls[..k], r + Shift(t, q), c);
      assert r == v.row <==> i == k;
      if 0 <= i < k { assert ls[..k][i] == ls[i]; }
    }
  }
}

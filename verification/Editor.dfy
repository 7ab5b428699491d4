/** The text editor's buffer: fixed arrays of lines, edited in place. */
module Editor {
  import opened EditorModel

  class Editor {
    const z: Size
    const lines: array2<Byte>
    const lens: array<int>

    var nLines: int
    var curRow: int
    var curCol: int
    var topRow: int
    var dirty: bool
    var truncated: bool

    ghost predicate Wired()
      reads lens
    {
      z.Ok() && lines.Length0 == lens.Length == z.lines && lines.Length1 == z.width + 1
      && forall i :: 0 <= i < z.lines ==> 0 <= lens[i] <= z.width
    }

    function Line(i: int): (l: seq<Byte>)
      requires Wired() && 0 <= i < z.lines
      reads lens, lines
      ensures |l| == lens[i] && forall j :: 0 <= j < lens[i] ==> l[j] == lines[i, j]
    {
      seq(lens[i], j requires 0 <= j < lens[i] <= lines.Length1 reads lens, lines => lines[i, j])
    }

    // The first n lines.
    ghost function First(n: int): (t: Text)
      requires Wired() && 0 <= n <= z.lines
      reads lens, lines
      ensures |t| == n && forall i :: 0 <= i < n ==> t[i] == Line(i)
      decreases n
    {
      if n == 0 then [] else First(n - 1) + [Line(n - 1)]
    }

    ghost function Lines(): (t: Text)
      requires Wired() && 0 <= nLines <= z.lines
      reads this`nLines, lens, lines
      ensures |t| == nLines && forall i :: 0 <= i < nLines ==> t[i] == Line(i)
    {
      First(nLines)
    }

    ghost predicate Valid()
      reads this, lens, lines
    {
      Wired() && 1 <= nLines <= z.lines && 0 <= curRow < nLines && 0 <= curCol && Ok(Now(), z)
    }

    ghost function Now(): Buf
      requires Wired() && 0 <= nLines <= z.lines && 0 <= curRow && 0 <= curCol
      reads this, lens, lines
    {
      Buf(Lines(), curRow, curCol, topRow, dirty)
    }

    constructor (z: Size)
      requires z.Ok()
      ensures Valid() && this.z == z && Now() == Buf([[]], 0, 0, 0, false) && !truncated
    {
      this.z := z;
      lines := new Byte[z.lines, z.width + 1]((_, _) => 0);
      lens := new int[z.lines](_ => 0);
      nLines, curRow, curCol, topRow, dirty, truncated := 1, 0, 0, 0, false, false;
      new;
      assert Lines() == [[]] by { assert |Lines()| == 1 && Lines()[0] == Line(0) == []; }
    }

    // ---------- rows ----------

    // Copy a whole line over another.
    method CopyLine(to: int, from: int)
      requires Wired() && 0 <= to < z.lines && 0 <= from < z.lines && to != from
      modifies lens, lines
      ensures Wired() && Line(to) == old(Line(from))
      ensures forall i :: 0 <= i < z.lines && i != to ==> Line(i) == old(Line(i))
    {
      var n, j := lens[from], 0;
      while j < n
        invariant 0 <= j <= n && lens[..] == old(lens[..])
        invariant forall a, b :: 0 <= a < z.lines && 0 <= b <= z.width ==>
          lines[a, b] == if a == to && b < j then old(lines[from, b]) else old(lines[a, b])
      {
        lines[to, j] := lines[from, j];
        j := j + 1;
      }
      lens[to] := n;
    }

    // ---------- editing ----------

    // Put a byte into a line that has room for it.
    method InsertAt(row: int, col: int, c: Byte)
      requires Wired() && 0 <= row < z.lines && 0 <= col <= lens[row] < z.width
      modifies lens, lines
      ensures Wired() && Line(row) == old(Line(row)[..col] + [c] + Line(row)[col..])
      ensures forall i :: 0 <= i < z.lines && i != row ==> Line(i) == old(Line(i))
    {
      var len := lens[row];
      var i := len;
      while i > col
        invariant col <= i <= len && lens[..] == old(lens[..])
        invariant forall a, b :: 0 <= a < z.lines && 0 <= b <= z.width ==>
          lines[a, b] == if a == row && i < b <= len then old(lines[a, b - 1]) else old(lines[a, b])
      {
        lines[row, i] := lines[row, i - 1];
        i := i - 1;
      }
      lines[row, col] := c;
      lens[row] := len + 1;
    }

    // Take the byte before col out of a line.
    method DeleteAt(row: int, col: int)
      requires Wired() && 0 <= row < z.lines && 0 < col <= lens[row]
      modifies lens, lines
      ensures Wired() && Line(row) == old(Line(row)[..col - 1] + Line(row)[col..])
      ensures forall i :: 0 <= i < z.lines && i != row ==> Line(i) == old(Line(i))
    {
      var len, i := lens[row], col - 1;
      while i < len - 1
        invariant col - 1 <= i <= len - 1 && lens[..] == old(lens[..])
        invariant forall a, b :: 0 <= a < z.lines && 0 <= b <= z.width ==>
          lines[a, b] == if a == row && col - 1 <= b < i then old(lines[a, b + 1]) else old(lines[a, b])
      {
        lines[row, i] := lines[row, i + 1];
        i := i + 1;
      }
      lens[row] := len - 1;
    }

    method InsertChar(c: Byte)
      requires Valid() && c != NL
      modifies this`curCol, this`dirty, lens, lines
      ensures Valid() && Now() == Inserted(old(Now()), z, c)
    {
      if lens[curRow] >= z.width { return; }
      InsertAt(curRow, curCol, c);
      curCol, dirty := curCol + 1, true;
      assert Lines() == Inserted(old(Now()), z, c).text;
    }

    method DeleteBefore()
      requires Valid() && curCol > 0
      modifies this`curCol, this`dirty, lens, lines
      ensures Valid() && Now() == Backspaced(old(Now()), z)
    {
      DeleteAt(curRow, curCol);
      curCol, dirty := curCol - 1, true;
      assert Lines() == Backspaced(old(Now()), z).text;
    }

    // Append as much of a line to the line above as fits.
    method JoinAbove(row: int)
      requires Wired() && 1 <= row < z.lines
      modifies lens, lines
      ensures Wired()
      ensures Line(row - 1) == old(Line(row - 1) + Line(row)[..EditorModel.Min(lens[row], z.width - lens[row - 1])])
      ensures forall i :: 0 <= i < z.lines && i != row - 1 ==> Line(i) == old(Line(i))
    {
      var prevLen, copy := lens[row - 1], lens[row];
      if prevLen + copy > z.width { copy := z.width - prevLen; }
      var i := 0;
      while i < copy
        invariant 0 <= i <= copy && lens[..] == old(lens[..])
        invariant forall a, b :: 0 <= a < z.lines && 0 <= b <= z.width ==>
          lines[a, b] == if a == row - 1 && prevLen <= b < prevLen + i then old(lines[row, b - prevLen]) else old(lines[a, b])
      {
        lines[row - 1, prevLen + i] := lines[row, i];
        i := i + 1;
      }
      lens[row - 1] := prevLen + copy;
    }

    // Move the lines after row up by one.
    method CloseGap(row: int)
      requires Wired() && 0 <= row < nLines <= z.lines
      modifies lens, lines
      ensures Wired()
      ensures forall i :: 0 <= i < nLines - 1 ==> Line(i) == old(Line(if i < row then i else i + 1))
    {
      var i := row;
      ghost var t := First(z.lines);
      while i < nLines - 1
        invariant row <= i <= nLines - 1 && Wired()
        invariant forall k :: row <= k < i ==> Line(k) == t[k + 1]
        invariant forall k :: 0 <= k < row || i <= k < z.lines ==> Line(k) == t[k]
      {
        CopyLine(i, i + 1);
        i := i + 1;
      }
    }

    // Join a line to the one above, and close the gap it leaves.
    method JoinLines(row: int)
      requires Wired() && 1 <= row < nLines <= z.lines
      modifies this`nLines, lens, lines
      ensures Wired() && nLines == old(nLines) - 1
      ensures Lines() == Join(old(Lines()), row, z.width)
    {
      ghost var joined := Join(Lines(), row, z.width);
      JoinAbove(row);
      assert Line(row - 1) == joined[row - 1];
      CloseGap(row);
      nLines := nLines - 1;
      assert forall i :: 0 <= i < nLines ==> Line(i) == joined[i];
    }

    method Backspace()
      requires Valid()
      modifies this`nLines, this`curRow, this`curCol, this`dirty, lens, lines
      ensures Valid() && Now() == Backspaced(old(Now()), z)
    {
      if curCol > 0 {
        DeleteBefore();
      } else if curRow > 0 {
        BackspacedOk(Now(), z);
        JoinBefore();
      }
    }

    method JoinBefore()
      requires Wired() && 0 < curRow < nLines <= z.lines
      modifies this`nLines, this`curRow, this`curCol, this`dirty, lens, lines
      ensures Wired() && nLines == old(nLines) - 1
      ensures Lines() == Join(old(Lines()), old(curRow), z.width)
      ensures curRow == old(curRow) - 1 && curCol == |old(Lines())[curRow]| && dirty
    {
      var row := curRow;
      ghost var joined := Join(Lines(), row, z.width);
      var prevLen := lens[row - 1];
      JoinLines(row);
      assert Lines() == joined;
      curRow, curCol, dirty := row - 1, prevLen, true;
    }

    // Move the lines after row down by one.
    method OpenGap(row: int)
      requires Wired() && 0 <= row < nLines < z.lines
      modifies lens, lines
      ensures Wired()
      ensures forall i :: 0 <= i <= nLines && i != row + 1 ==> Line(i) == old(Line(if i <= row then i else i - 1))
    {
      var i := nLines;
      ghost var t := First(z.lines);
      while i > row + 1
        invariant row + 1 <= i <= nLines && Wired()
        invariant forall k :: i < k <= nLines ==> Line(k) == t[k - 1]
        invariant forall k :: 0 <= k <= i || nLines < k < z.lines ==> Line(k) == t[k]
      {
        CopyLine(i, i - 1);
        i := i - 1;
      }
    }

    // Cut a line at col; the rest becomes the next line.
    method SplitLine(row: int, col: int)
      requires Wired() && 0 <= row < z.lines - 1 && 0 <= col <= lens[row]
      modifies lens, lines
      ensures Wired() && Line(row) == old(Line(row))[..col] && Line(row + 1) == old(Line(row))[col..]
      ensures forall i :: 0 <= i < z.lines && i != row && i != row + 1 ==> Line(i) == old(Line(i))
    {
      var tail, j := lens[row] - col, 0;
      while j < tail
        invariant 0 <= j <= tail && lens[..] == old(lens[..])
        invariant forall a, b :: 0 <= a < z.lines && 0 <= b <= z.width ==>
          lines[a, b] == if a == row + 1 && b < j then old(lines[row, col + b]) else old(lines[a, b])
      {
        lines[row + 1, j] := lines[row, col + j];
        j := j + 1;
      }
      lens[row + 1] := tail;
      lens[row] := col;
    }

    method BreakLine(row: int, col: int)
      requires Wired() && 0 <= row < nLines < z.lines && 0 <= col <= lens[row]
      modifies this`nLines, lens, lines
      ensures Wired() && nLines == old(nLines) + 1
      ensures Lines() == Cut(old(Lines()), row, col)
    {
      OpenGap(row);
      assert Line(row) == old(Line(row));
      nLines := nLines + 1;
      SplitLine(row, col);
    }

    method Newline()
      requires Valid()
      modifies this`nLines, this`curRow, this`curCol, this`dirty, lens, lines
      ensures Valid() && Now() == Newlined(old(Now()), z)
    {
      if nLines >= z.lines { return; }
      NewlinedOk(Now(), z);
      BreakHere();
    }

    method BreakHere()
      requires Wired() && 0 <= curRow < nLines < z.lines && 0 <= curCol <= lens[curRow]
      modifies this`nLines, this`curRow, this`curCol, this`dirty, lens, lines
      ensures Wired() && nLines == old(nLines) + 1 && Lines() == Cut(old(Lines()), old(curRow), old(curCol))
      ensures curRow == old(curRow) + 1 && curCol == 0 && dirty
    {
      BreakLine(curRow, curCol);
      curRow, curCol, dirty := curRow + 1, 0, true;
    }

    method ClampCurCol()
      requires Wired() && 0 <= curRow < z.lines
      modifies this`curCol
      ensures curCol == if old(curCol) > lens[curRow] then lens[curRow] else if old(curCol) < 0 then 0 else old(curCol)
    {
      var len := lens[curRow];
      if curCol > len { curCol := len; }
      if curCol < 0 { curCol := 0; }
    }

    method ScrollIntoView()
      requires Valid()
      modifies this`topRow
      ensures Valid() && Now() == Scrolled(old(Now()), z) && InView(Now(), z)
    {
      if curRow < topRow { topRow := curRow; }
      if curRow >= topRow + z.rows { topRow := curRow - z.rows + 1; }
      if topRow < 0 { topRow := 0; }
    }

    // The arrow keys.
    method MoveAcross(k: Key)
      requires Valid() && (k.Left? || k.Right?)
      modifies this`curRow, this`curCol
      ensures Valid() && Now() == Moved(old(Now()), z, k)
    {
      if k.Left? {
        if curCol > 0 {
          curCol := curCol - 1;
        } else if curRow > 0 {
          curRow := curRow - 1;
          curCol := lens[curRow];
        }
      } else if curCol < lens[curRow] {
        curCol := curCol + 1;
      } else if curRow < nLines - 1 {
        curRow, curCol := curRow + 1, 0;
      }
      assert Lines() == old(Lines());
    }

    method MoveDown(k: Key)
      requires Valid() && (k.Up? || k.Down?)
      modifies this`curRow, this`curCol
      ensures Valid() && Now() == Moved(old(Now()), z, k)
    {
      if k.Up? {
        if curRow > 0 {
          curRow := curRow - 1;
          ClampCurCol();
        }
      } else if curRow < nLines - 1 {
        curRow := curRow + 1;
        ClampCurCol();
      }
      assert Lines() == old(Lines());
    }

    // ---------- saving and loading ----------

    /** Write all lines, each ended by a newline.  Fails when the file cannot be opened, or when a
        write fails: after so many successful ones. */
    method SaveFile(opens: bool, writes: nat) returns (ok: bool, bytes: seq<Byte>)
      requires Valid()
      modifies this`dirty
      ensures Valid() && Now() == old(Now()).(dirty := if ok then false else old(dirty))
      ensures ok <==> opens && Writes(Lines()) <= writes
      ensures bytes <= Bytes(Lines()) && (ok ==> bytes == Bytes(Lines()))
    {
      ok, bytes := opens, [];
      if !opens { return; }
      var left;
      ok, left, bytes := WriteLines(writes);
      if ok { dirty := false; }
    }

    method WriteLines(writes: nat) returns (ok: bool, left: nat, bytes: seq<Byte>)
      requires Valid()
      ensures ok <==> Writes(Lines()) <= writes
      ensures bytes <= Bytes(Lines()) && (ok ==> bytes == Bytes(Lines()))
    {
      var i := 0;
      ok, left, bytes := true, writes, [];
      ghost var t := Lines();
      assert t[0..] == t;
      while i < nLines && ok
        invariant 0 <= i <= nLines && bytes <= Bytes(t)
        invariant ok ==> bytes + Bytes(t[i..]) == Bytes(t) && left + Writes(t) == writes + Writes(t[i..])
        invariant !ok ==> writes < Writes(t)
      {
        NextLine(t, i, bytes);
        assert t[i] == Line(i);
        ok, left, bytes := WriteLine(i, left, bytes);
        i := i + 1;
      }
    }

    method WriteLine(i: int, left: nat, bytes: seq<Byte>) returns (ok: bool, left': nat, bytes': seq<Byte>)
      requires Wired() && 0 <= i < z.lines
      ensures var cost := if Line(i) == [] then 1 else 2;
              if ok then bytes' == bytes + Line(i) + [NL] && left == left' + cost
              else left < cost && (bytes' == bytes || bytes' == bytes + Line(i))
    {
      ok, left', bytes' := true, left, bytes;
      if lens[i] > 0 {
        if left' == 0 { return false, left', bytes'; }
        left', bytes' := left' - 1, bytes' + Line(i);
      } else {
        assert Line(i) == [];
      }
      if left' == 0 { return false, left', bytes'; }
      left', bytes' := left' - 1, bytes' + [NL];
    }

    // The lines read so far, and the one being read.
    ghost predicate Reading(s: Loading, lineLen: int)
      requires Wired()
      reads this, lens, lines
    {
      1 <= nLines <= z.lines && 0 <= lineLen <= z.width && |s.done| == nLines - 1 && |s.cur| == lineLen
      && (forall i :: 0 <= i < nLines - 1 ==> Line(i) == s.done[i])
      && (forall j :: 0 <= j < lineLen ==> lines[nLines - 1, j] == s.cur[j])
      && truncated == s.truncated
    }

    // Take one byte of the file.
    method TakeByte(c: Byte, lineLen: int, ghost s: Loading) returns (len: int)
      requires Wired() && Reading(s, lineLen) && !truncated
      modifies this`nLines, this`truncated, lens, lines
      ensures Wired() && Reading(Feed(s, z, c), len)
    {
      len := lineLen;
      if c == NL {
        lens[nLines - 1] := len;
        len := 0;
        if nLines >= z.lines {
          truncated := true;
          return;
        }
        nLines := nLines + 1;
        lens[nLines - 1] := 0;
        return;
      }
      if len < z.width {
        lines[nLines - 1, len] := c;
        len := len + 1;
      }
    }

    /** Read a file, chunk by chunk: the same text however the bytes are cut into chunks. */
    method Load(opens: bool, chunks: seq<seq<Byte>>)
      requires Wired()
      modifies this, lens, lines
      ensures Valid() && Now() == Buf(if opens then Loaded(z, Joined(chunks)) else [[]], 0, 0, 0, false)
      ensures truncated <==> opens && FeedAll(EMPTY, z, Joined(chunks)).truncated
    {
      nLines, curRow, curCol, topRow, dirty, truncated := 1, 0, 0, 0, false, false;
      lens[0] := 0;
      if !opens { return; }
      var lineLen, k := 0, 0;
      ghost var s := EMPTY;
      assert chunks[0..] == chunks;
      while k < |chunks| && !truncated
        invariant 0 <= k <= |chunks| && Wired() && Reading(s, lineLen)
        invariant FeedAll(s, z, Joined(chunks[k..])) == FeedAll(EMPTY, z, Joined(chunks))
        invariant curRow == curCol == topRow == 0 && !dirty
      {
        assert chunks[k..][1..] == chunks[k + 1..];
        FeedApart(s, z, chunks[k], Joined(chunks[k + 1..]));
        lineLen := TakeChunk(chunks[k], lineLen, s);
        s := FeedAll(s, z, chunks[k]);
        k := k + 1;
      }
      if truncated { Ignored(s, z, Joined(chunks[k..])); }
      LoadedOk(EMPTY, z, Joined(chunks));
      assert s == FeedAll(EMPTY, z, Joined(chunks));
      FinishLoad(lineLen, s);
    }

    method TakeChunk(chunk: seq<Byte>, lineLen: int, ghost s: Loading) returns (len: int)
      requires Wired() && Reading(s, lineLen) && !truncated
      modifies this`nLines, this`truncated, lens, lines
      ensures Wired() && Reading(FeedAll(s, z, chunk), len)
    {
      len := lineLen;
      var i := 0;
      ghost var now := s;
      assert chunk[0..] == chunk;
      while i < |chunk| && !truncated
        invariant 0 <= i <= |chunk| && Wired() && Reading(now, len)
        invariant FeedAll(now, z, chunk[i..]) == FeedAll(s, z, chunk)
      {
        assert chunk[i..][1..] == chunk[i + 1..];
        len := TakeByte(chunk[i], len, now);
        now := Feed(now, z, chunk[i]);
        i := i + 1;
      }
      if truncated { Ignored(now, z, chunk[i..]); }
    }

    // The last line counts only if it is not empty, or the only one.
    method FinishLoad(lineLen: int, ghost s: Loading)
      requires Wired() && Reading(s, lineLen)
      modifies this`nLines, lens
      ensures Wired() && 1 <= nLines <= z.lines && Lines() == Finished(s)
    {
      lens[nLines - 1] := lineLen;
      assert Line(nLines - 1) == s.cur;
      ghost var n := nLines - 1;
      assert forall i :: 0 <= i < n ==> Line(i) == s.done[i];
      if nLines > 1 && lens[nLines - 1] == 0 { nLines := nLines - 1; }
      assert forall i :: 0 <= i < n ==> Line(i) == s.done[i];
      if nLines == n {
        assert s.done != [] && |s.cur| == 0;
        assert Lines() == s.done;
      } else {
        assert Lines() == s.done + [s.cur];
      }
    }

    // ---------- the key loop ----------

    method HandleKey(k: Key)
      requires Valid()
      modifies this, lens, lines
      ensures Valid() && Now() == Keyed(old(Now()), z, k)
    {
      if k.Save? {
        var _, _ := SaveFile(k.opens, k.writes);
      } else if k.Return? {
        Newline();
      } else if k.Backspace? {
        Backspace();
      } else if k.Char? {
        if 0x20 <= k.c < 0x7F { InsertChar(k.c); }
      } else if k.Left? || k.Right? {
        MoveAcross(k);
      } else if k.Up? || k.Down? {
        MoveDown(k);
      }
    }

    /** Any run of keys: each acts on the text as the list-of-lines model says, with the cursor
        scrolled into view before it. */
    method Run(ks: seq<Key>)
      requires Valid()
      modifies this, lens, lines
      ensures Valid() && Now() == Session(old(Now()), z, ks)
    {
      ghost var b := Now();
      var i := 0;
      assert ks[..0] == [];
      while i < |ks|
        invariant 0 <= i <= |ks| && Valid() && Now() == Session(b, z, ks[..i])
      {
        assert ks[..i + 1][..i] == ks[..i];
        ScrollIntoView();
        HandleKey(ks[i]);
        i := i + 1;
      }
      assert ks[..i] == ks;
    }
  }
}

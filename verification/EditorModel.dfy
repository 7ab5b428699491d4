/** The text editor as a list of lines with a cursor: what each key does, and what loading a
    saved file gives back. */
module EditorModel {

  type Byte = b: int | 0 <= b < 256

  const NL: Byte := 10

  /** Limits: lines in a buffer, bytes in a line, text rows on the screen. */
  datatype Size = Size(lines: nat, width: nat, rows: nat) {
    predicate Ok() { lines >= 1 && width >= 1 && rows >= 1 }
  }

  type Text = seq<seq<Byte>>

  datatype Buf = Buf(text: Text, row: nat, col: nat, top: int, dirty: bool)

  predicate Plain(l: seq<Byte>) {
    forall j :: 0 <= j < |l| ==> l[j] != NL
  }

  predicate TextOk(t: Text, z: Size) {
    1 <= |t| <= z.lines && forall i :: 0 <= i < |t| ==> |t[i]| <= z.width && Plain(t[i])
  }

  /** At least one line, none too long or containing a newline, and the cursor in its line. */
  predicate Ok(b: Buf, z: Size) {
    z.Ok() && TextOk(b.text, z) && b.row < |b.text| && b.col <= |b.text[b.row]|
  }

  // The cursor is on the screen.
  predicate InView(b: Buf, z: Size) {
    0 <= b.top <= b.row < b.top + z.rows
  }

  // ---------- keys ----------

  datatype Key = Char(c: Byte) | Return | Backspace | Left | Right | Up | Down | Save(opens: bool, writes: nat) | Other

  function Min(a: nat, b: nat): nat { if a < b then a else b }

  function Inserted(b: Buf, z: Size, c: Byte): Buf
    requires Ok(b, z)
  {
    var l := b.text[b.row];
    if |l| >= z.width then b
    else b.(text := b.text[b.row := l[..b.col] + [c] + l[b.col..]], col := b.col + 1, dirty := true)
  }

  // Line row is cut in two at col.
  function Cut(t: Text, row: nat, col: nat): Text
    requires row < |t| && col <= |t[row]|
  {
    t[..row] + [t[row][..col], t[row][col..]] + t[row + 1..]
  }

  // Line row is joined to the one above; what does not fit is lost.
  function Join(t: Text, row: nat, width: nat): (r: Text)
    requires 0 < row < |t| && |t[row - 1]| <= width
    ensures |r| == |t| - 1
    ensures forall i :: 0 <= i < |r| && i != row - 1 ==> r[i] == t[if i < row then i else i + 1]
  {
    var above := t[row - 1];
    t[..row - 1] + [above + t[row][..Min(|t[row]|, width - |above|)]] + t[row + 1..]
  }

  function Backspaced(b: Buf, z: Size): Buf
    requires Ok(b, z)
  {
    var l := b.text[b.row];
    if b.col > 0 then
      b.(text := b.text[b.row := l[..b.col - 1] + l[b.col..]], col := b.col - 1, dirty := true)
    else if b.row == 0 then b
    else b.(text := Join(b.text, b.row, z.width), row := b.row - 1, col := |b.text[b.row - 1]|, dirty := true)
  }

  function Newlined(b: Buf, z: Size): Buf
    requires Ok(b, z)
  {
    if |b.text| >= z.lines then b
    else b.(text := Cut(b.text, b.row, b.col), row := b.row + 1, col := 0, dirty := true)
  }

  /** Joining two lines keeps a prefix of the two, and all of them if and only if they fit. */
  lemma JoinLosesIff(b: Buf, z: Size)
    requires Ok(b, z) && b.col == 0 && 0 < b.row
    ensures var both, r := b.text[b.row - 1] + b.text[b.row], Backspaced(b, z).text[b.row - 1];
            r <= both && |r| == Min(|both|, z.width) && (r == both <==> |both| <= z.width)
  {
    var above, l, r := b.text[b.row - 1], b.text[b.row], Backspaced(b, z).text[b.row - 1];
    assert r == above + l[..Min(|l|, z.width - |above|)];
    if |above| + |l| <= z.width { assert l[..|l|] == l; }
  }

  function Moved(b: Buf, z: Size, k: Key): Buf
    requires Ok(b, z)
  {
    match k
    case Left =>
      if b.col > 0 then b.(col := b.col - 1)
      else if b.row > 0 then b.(row := b.row - 1, col := |b.text[b.row - 1]|)
      else b
    case Right =>
      if b.col < |b.text[b.row]| then b.(col := b.col + 1)
      else if b.row < |b.text| - 1 then b.(row := b.row + 1, col := 0)
      else b
    case Up => if b.row > 0 then b.(row := b.row - 1, col := Min(b.col, |b.text[b.row - 1]|)) else b
    case Down => if b.row < |b.text| - 1 then b.(row := b.row + 1, col := Min(b.col, |b.text[b.row + 1]|)) else b
    case _ => b
  }

  function Keyed(b: Buf, z: Size, k: Key): (r: Buf)
    requires Ok(b, z)
  {
    match k
    case Char(c) => if 0x20 <= c < 0x7F then Inserted(b, z, c) else b
    case Return => Newlined(b, z)
    case Backspace => Backspaced(b, z)
    case Save(opens, writes) => if opens && Writes(b.text) <= writes then b.(dirty := false) else b
    case _ => Moved(b, z, k)
  }

  function Scrolled(b: Buf, z: Size): (r: Buf) {
    var t := if b.row < b.top then b.row else b.top;
    var u := if b.row >= t + z.rows then b.row - z.rows + 1 else t;
    b.(top := if u < 0 then 0 else u)
  }

  /** How many write calls saving takes: none for an empty line's text, one for each newline. */
  function Writes(t: Text): nat {
    if t == [] then 0 else (if t[0] == [] then 1 else 2) + Writes(t[1..])
  }

  /** A session: before each key the cursor is scrolled into view. */
  function Session(b: Buf, z: Size, ks: seq<Key>): (r: Buf)
    requires Ok(b, z)
    ensures Ok(r, z)
    decreases |ks|
  {
    if ks == [] then b
    else
      KeyKeepsOk(Session(b, z, ks[..|ks| - 1]), z, ks[|ks| - 1]);
      Keyed(Scrolled(Session(b, z, ks[..|ks| - 1]), z), z, ks[|ks| - 1])
  }

  /** Every key keeps the buffer in order; scrolling brings the cursor into view. */
  lemma KeyKeepsOk(b: Buf, z: Size, k: Key)
    requires Ok(b, z)
    ensures Ok(Scrolled(b, z), z) && InView(Scrolled(b, z), z)
    ensures Ok(Keyed(Scrolled(b, z), z, k), z)
  {
    KeyedOk(Scrolled(b, z), z, k);
  }

  lemma KeyedOk(b: Buf, z: Size, k: Key)
    requires Ok(b, z)
    ensures Ok(Keyed(b, z, k), z)
  {
    if k.Return? {
      NewlinedOk(b, z);
    } else if k.Backspace? {
      BackspacedOk(b, z);
    }
  }

  lemma NewlinedOk(b: Buf, z: Size)
    requires Ok(b, z)
    ensures Ok(Newlined(b, z), z)
  {
  }

  lemma BackspacedOk(b: Buf, z: Size)
    requires Ok(b, z)
    ensures Ok(Backspaced(b, z), z)
  {
  }

  /** A text that changed since it was loaded or saved is marked: while the mark is off, no keys
      have changed it. */
  lemma {:induction false} CleanIsUnchanged(b: Buf, z: Size, ks: seq<Key>)
    requires Ok(b, z) && forall i :: 0 <= i < |ks| ==> !ks[i].Save?
    ensures !Session(b, z, ks).dirty ==> Session(b, z, ks).text == b.text
    ensures b.dirty ==> Session(b, z, ks).dirty
    decreases |ks|
  {
    if ks != [] {
      CleanIsUnchanged(b, z, ks[..|ks| - 1]);
      KeyMarks(Scrolled(Session(b, z, ks[..|ks| - 1]), z), z, ks[|ks| - 1]);
    }
  }

  lemma KeyMarks(b: Buf, z: Size, k: Key)
    requires Ok(b, z) && !k.Save?
    ensures !Keyed(b, z, k).dirty ==> !b.dirty && Keyed(b, z, k).text == b.text
  {
  }

  // ---------- keys that undo each other ----------

  /** Return, then Backspace: text and cursor are as before, whenever Return did anything. */
  lemma ReturnBackspace(b: Buf, z: Size)
    requires Ok(b, z) && |b.text| < z.lines
    ensures Ok(Newlined(b, z), z)
    ensures Backspaced(Newlined(b, z), z) == b.(dirty := true)
  {
    NewlinedOk(b, z);
    var n := Newlined(b, z);
    var l := b.text[b.row];
    assert n.text[n.row] == l[b.col..] && n.text[n.row - 1] == l[..b.col];
    assert l[..b.col] + l[b.col..][..|l| - b.col] == l;
    assert n.text[..n.row - 1] == b.text[..b.row] && n.text[n.row + 1..] == b.text[b.row + 1..];
    assert b.text[..b.row] + [l] + b.text[b.row + 1..] == b.text;
  }

  /** A character, then Backspace: the same, whenever the character was inserted. */
  lemma InsertBackspace(b: Buf, z: Size, c: Byte)
    requires Ok(b, z) && |b.text[b.row]| < z.width && c != NL
    ensures Ok(Inserted(b, z, c), z)
    ensures Backspaced(Inserted(b, z, c), z) == b.(dirty := true)
  {
    var l := b.text[b.row];
    var m := l[..b.col] + [c] + l[b.col..];
    assert m[..b.col] + m[b.col + 1..] == l;
  }

  // ---------- saving and loading ----------

  /** The bytes that saving writes. */
  function Bytes(t: Text): (bs: seq<Byte>) {
    if t == [] then [] else t[0] + [NL] + Bytes(t[1..])
  }

  /** Writing one more line. */
  lemma NextLine(t: Text, i: nat, done: seq<Byte>)
    requires i < |t| && done + Bytes(t[i..]) == Bytes(t)
    ensures done + t[i] + [NL] + Bytes(t[i + 1..]) == Bytes(t)
    ensures done <= Bytes(t) && done + t[i] <= Bytes(t) && done + t[i] + [NL] <= Bytes(t)
    ensures Writes(t[i..]) == (if t[i] == [] then 1 else 2) + Writes(t[i + 1..])
  {
    assert t[i..][0] == t[i] && t[i..][1..] == t[i + 1..];
    Regroup(done, t[i], [NL], Bytes(t[i + 1..]));
  }

  lemma Regroup(a: seq<Byte>, b: seq<Byte>, c: seq<Byte>, d: seq<Byte>)
    ensures a + (b + c + d) == a + b + c + d
    ensures a <= a + b + c + d && a + b <= a + b + c + d && a + b + c <= a + b + c + d
  {
  }

  /** Loading in progress: the complete lines, the current line, and whether a line too many was
      met. */
  datatype Loading = Loading(done: Text, cur: seq<Byte>, truncated: bool)

  function Feed(s: Loading, z: Size, c: Byte): (r: Loading) {
    if s.truncated then s
    else if c == NL then
      if |s.done| + 1 >= z.lines then s.(cur := [], truncated := true)
      else Loading(s.done + [s.cur], [], false)
    else if |s.cur| < z.width then s.(cur := s.cur + [c])
    else s
  }

  function FeedAll(s: Loading, z: Size, bs: seq<Byte>): (r: Loading)
    decreases |bs|
  {
    if bs == [] then s else FeedAll(Feed(s, z, bs[0]), z, bs[1..])
  }

  // A file's last line counts only if it is not empty, or the only one.
  function Finished(s: Loading): (t: Text) {
    if s.done != [] && s.cur == [] then s.done else s.done + [s.cur]
  }

  const EMPTY := Loading([], [], false)

  function Loaded(z: Size, bs: seq<Byte>): (t: Text) {
    Finished(FeedAll(EMPTY, z, bs))
  }

  lemma {:induction false} FeedApart(s: Loading, z: Size, a: seq<Byte>, b: seq<Byte>)
    ensures FeedAll(s, z, a + b) == FeedAll(FeedAll(s, z, a), z, b)
    decreases |a|
  {
    if a == [] {
      assert a + b == b;
    } else {
      assert (a + b)[1..] == a[1..] + b;
      FeedApart(Feed(s, z, a[0]), z, a[1..], b);
    }
  }

  lemma {:induction false} Ignored(s: Loading, z: Size, bs: seq<Byte>)
    requires s.truncated
    ensures FeedAll(s, z, bs) == s
    decreases |bs|
  {
    if bs != [] { Ignored(s, z, bs[1..]); }
  }

  // The bytes of one line extend the current line.
  lemma {:induction false} FeedLine(s: Loading, z: Size, l: seq<Byte>)
    requires !s.truncated && Plain(l) && |s.cur| + |l| <= z.width
    ensures FeedAll(s, z, l) == s.(cur := s.cur + l)
    decreases |l|
  {
    if l == [] {
      assert s.cur + l == s.cur;
    } else {
      FeedLine(Feed(s, z, l[0]), z, l[1..]);
      assert s.cur + l == s.cur + [l[0]] + l[1..];
    }
  }

  // Saved lines come back one by one, as long as there is room.
  lemma {:induction false} FeedLines(done: Text, z: Size, t: Text)
    requires forall i :: 0 <= i < |t| ==> |t[i]| <= z.width && Plain(t[i])
    ensures FeedAll(Loading(done, [], false), z, Bytes(t))
         == if |done| + |t| < z.lines || t == [] then Loading(done + t, [], false)
            else FeedAll(Loading(done + t[..Room(done, z, t)], [], true), z, [])
    decreases |t|
  {
    if t == [] {
      assert done + t == done;
    } else {
      var s := Loading(done, [], false);
      FeedApart(s, z, t[0] + [NL], Bytes(t[1..]));
      FeedApart(s, z, t[0], [NL]);
      FeedLine(s, z, t[0]);
      assert [] + t[0] == t[0];
      var s1 := Feed(s.(cur := t[0]), z, NL);
      assert FeedAll(s.(cur := t[0]), z, [NL]) == s1;
      if |done| + 1 >= z.lines {
        Ignored(s1, z, Bytes(t[1..]));
        assert t[..0] == [] && done + [] == done;
      } else {
        FeedLines(done + [t[0]], z, t[1..]);
        assert done + t == done + [t[0]] + t[1..];
        if |done| + |t| >= z.lines {
          var k := Room(done, z, t);
          assert done + t[..k] == done + [t[0]] + t[1..][..k - 1];
        }
      }
    }
  }

  // How many more complete lines a load takes.
  function Room(done: Text, z: Size, t: Text): (k: nat)
    ensures k <= |t|
  {
    if |done| + 1 >= z.lines then 0 else Min(z.lines - 1 - |done|, |t|)
  }

  /** Loading what was saved gives back the same lines if and only if there are fewer lines than
      the buffer holds; a full buffer loses its last line. */
  lemma SaveLoad(t: Text, z: Size)
    requires z.Ok() && TextOk(t, z)
    ensures Loaded(z, Bytes(t)) == t <==> |t| < z.lines || (z.lines == 1 && t == [[]])
    ensures |t| == z.lines && z.lines > 1 ==> Loaded(z, Bytes(t)) == t[..z.lines - 1]
    ensures FeedAll(EMPTY, z, Bytes(t)).truncated <==> |t| == z.lines
  {
    FeedLines([], z, t);
    assert [] + t == t;
    if |t| == z.lines {
      assert [] + t[..z.lines - 1] == t[..z.lines - 1];
    }
  }

  /** How the stream is cut into chunks does not matter. */
  function Joined(chunks: seq<seq<Byte>>): (bs: seq<Byte>) {
    if chunks == [] then [] else chunks[0] + Joined(chunks[1..])
  }

  function FeedChunks(s: Loading, z: Size, chunks: seq<seq<Byte>>): (r: Loading)
    decreases |chunks|
  {
    if chunks == [] then s else FeedChunks(FeedAll(s, z, chunks[0]), z, chunks[1..])
  }

  lemma {:induction false} ChunksDoNotMatter(s: Loading, z: Size, chunks: seq<seq<Byte>>)
    ensures FeedChunks(s, z, chunks) == FeedAll(s, z, Joined(chunks))
    decreases |chunks|
  {
    if chunks != [] {
      FeedApart(s, z, chunks[0], Joined(chunks[1..]));
      ChunksDoNotMatter(FeedAll(s, z, chunks[0]), z, chunks[1..]);
    }
  }

  /** A loaded text is always in order. */
  lemma {:induction false} LoadedOk(s: Loading, z: Size, bs: seq<Byte>)
    requires z.Ok() && |s.done| < z.lines && |s.cur| <= z.width && Plain(s.cur)
    requires forall i :: 0 <= i < |s.done| ==> |s.done[i]| <= z.width && Plain(s.done[i])
    ensures TextOk(Finished(FeedAll(s, z, bs)), z)
    decreases |bs|
  {
    if bs != [] { LoadedOk(Feed(s, z, bs[0]), z, bs[1..]); }
  }

  /** After any session, saving and loading again gives the text back, unless the buffer is full. */
  lemma SessionSurvives(b: Buf, z: Size, ks: seq<Key>)
    requires Ok(b, z) && |Session(b, z, ks).text| < z.lines
    ensures Loaded(z, Bytes(Session(b, z, ks).text)) == Session(b, z, ks).text
  {
    SaveLoad(Session(b, z, ks).text, z);
  }
}

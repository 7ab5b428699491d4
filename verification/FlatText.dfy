/** The editor's lines as the one byte string that saving writes, with the cursor as an offset in
    it: what each key is for. */
module FlatText {
  import opened EditorModel

  /** How many bytes stand before the cursor. */
  function Offset(b: Buf): (o: nat)
    requires b.row < |b.text|
  {
    |Bytes(b.text[..b.row])| + b.col
  }

  function Flat(b: Buf): seq<Byte> { Bytes(b.text) }

  lemma {:induction false} BytesJoin(s: Text, t: Text)
    ensures Bytes(s + t) == Bytes(s) + Bytes(t)
  {
    if s == [] {
      assert s + t == t;
    } else {
      assert (s + t)[1..] == s[1..] + t;
      BytesJoin(s[1..], t);
    }
  }

  lemma {:induction false} LineBytes(l: seq<Byte>)
    ensures Bytes([l]) == l + [NL]
  {
    assert [l][1..] == [];
  }

  // One line between the lines before and after it.
  lemma {:induction false} Around(s: Text, l: seq<Byte>, t: Text)
    ensures Bytes(s + [l] + t) == Bytes(s) + l + [NL] + Bytes(t)
  {
    BytesJoin(s + [l], t);
    BytesJoin(s, [l]);
    LineBytes(l);
  }

  lemma {:induction false} AtRow(t: Text, row: nat)
    requires row < |t|
    ensures Bytes(t) == Bytes(t[..row]) + t[row] + [NL] + Bytes(t[row + 1..])
  {
    assert t == t[..row] + [t[row]] + t[row + 1..];
    Around(t[..row], t[row], t[row + 1..]);
  }

  // Two lines joined by the newline between them.
  lemma {:induction false} AtRows(t: Text, row: nat)
    requires 0 < row < |t|
    ensures Bytes(t) == Bytes(t[..row - 1]) + t[row - 1] + [NL] + t[row] + [NL] + Bytes(t[row + 1..])
    ensures Bytes(t[..row]) == Bytes(t[..row - 1]) + t[row - 1] + [NL]
  {
    AtRow(t, row);
    assert t[..row][..row - 1] == t[..row - 1] && t[..row][row..] == [];
    AtRow(t[..row], row - 1);
  }

  // Where the bytes before a place end.
  lemma {:induction false} Split(a: seq<Byte>, b: seq<Byte>)
    ensures (a + b)[..|a|] == a && (a + b)[|a|..] == b
  {
  }

  // The flat text, taken apart at the cursor.
  lemma {:induction false} AtCursor(b: Buf, z: Size)
    requires Ok(b, z)
    ensures var a, l, c := Bytes(b.text[..b.row]), b.text[b.row], Bytes(b.text[b.row + 1..]);
            && Offset(b) <= |Flat(b)|
            && Flat(b)[..Offset(b)] == a + l[..b.col]
            && Flat(b)[Offset(b)..] == l[b.col..] + [NL] + c
  {
    var a, l, c := Bytes(b.text[..b.row]), b.text[b.row], Bytes(b.text[b.row + 1..]);
    AtRow(b.text, b.row);
    assert l == l[..b.col] + l[b.col..];
    assert Flat(b) == (a + l[..b.col]) + (l[b.col..] + [NL] + c);
    Split(a + l[..b.col], l[b.col..] + [NL] + c);
  }

  /** A character that there is room for goes in at the cursor, and the cursor past it. */
  lemma {:induction false} TypeFlat(b: Buf, z: Size, c: Byte)
    requires Ok(b, z) && 0x20 <= c < 0x7F && |b.text[b.row]| < z.width
    ensures var r, o := Keyed(b, z, Char(c)), Offset(b);
            r.row < |r.text| && o <= |Flat(b)| && Flat(r) == Flat(b)[..o] + [c] + Flat(b)[o..] && Offset(r) == o + 1
  {
    var r, l := Keyed(b, z, Char(c)), b.text[b.row];
    AtCursor(b, z);
    AtRow(r.text, b.row);
    assert r.text[..b.row] == b.text[..b.row] && r.text[b.row + 1..] == b.text[b.row + 1..];
    assert r.text[b.row] == l[..b.col] + [c] + l[b.col..];
  }

  /** Return puts a newline in at the cursor, and the cursor past it, unless the buffer is full. */
  lemma {:induction false} ReturnFlat(b: Buf, z: Size)
    requires Ok(b, z) && |b.text| < z.lines
    ensures var r, o := Keyed(b, z, Return), Offset(b);
            r.row < |r.text| && o <= |Flat(b)| && Flat(r) == Flat(b)[..o] + [NL] + Flat(b)[o..] && Offset(r) == o + 1
  {
    var r, l := Keyed(b, z, Return), b.text[b.row];
    AtCursor(b, z);
    AtRows(r.text, r.row);
    assert r.text[..r.row - 1] == b.text[..b.row] && r.text[r.row + 1..] == b.text[b.row + 1..];
    assert r.text[r.row - 1] == l[..b.col] && r.text[r.row] == l[b.col..];
  }

  /** Backspace takes out the byte before the cursor, a newline too, unless the two lines that
      would be joined do not fit one; at the start of the text it does nothing. */
  lemma {:induction false} BackspaceFlat(b: Buf, z: Size)
    requires Ok(b, z) && (b.col == 0 && 0 < b.row ==> |b.text[b.row - 1]| + |b.text[b.row]| <= z.width)
    ensures var r, o := Keyed(b, z, Backspace), Offset(b);
            && r.row < |r.text| && o <= |Flat(b)|
            && if o == 0 then r == b else Flat(r) == Flat(b)[..o - 1] + Flat(b)[o..] && Offset(r) == o - 1
  {
    AtCursor(b, z);
    if b.col > 0 {
      EraseFlat(b, z);
    } else if b.row > 0 {
      JoinFlat(b, z);
    } else {
      assert b.text[..0] == [] && Offset(b) == 0;
    }
  }

  lemma {:induction false} EraseFlat(b: Buf, z: Size)
    requires Ok(b, z) && 0 < b.col
    ensures var r, o := Backspaced(b, z), Offset(b);
            && r.row < |r.text| && 0 < o <= |Flat(b)|
            && Flat(r) == Flat(b)[..o - 1] + Flat(b)[o..] && Offset(r) == o - 1
  {
    var r, l := Backspaced(b, z), b.text[b.row];
    AtCursor(b, z);
    AtRow(r.text, b.row);
    assert r.text[..b.row] == b.text[..b.row] && r.text[b.row + 1..] == b.text[b.row + 1..];
    assert r.text[b.row] == l[..b.col - 1] + l[b.col..];
    assert (Bytes(b.text[..b.row]) + l[..b.col])[..Offset(b) - 1] == Bytes(b.text[..b.row]) + l[..b.col - 1];
  }

  lemma {:induction false} JoinedBytes(t: Text, row: nat, width: nat)
    requires 0 < row < |t| && |t[row - 1]| + |t[row]| <= width
    ensures Bytes(Join(t, row, width)) == Bytes(t[..row - 1]) + (t[row - 1] + t[row]) + [NL] + Bytes(t[row + 1..])
  {
    var l := t[row];
    assert l[..|l|] == l;
    Around(t[..row - 1], t[row - 1] + l, t[row + 1..]);
  }

  lemma {:induction false} TakeOut(a: seq<Byte>, n: Byte, c: seq<Byte>)
    ensures var s := a + [n] + c; s[..|a|] + s[|a| + 1..] == a + c
  {
  }

  lemma {:induction false} JoinFlat(b: Buf, z: Size)
    requires Ok(b, z) && b.col == 0 && 0 < b.row && |b.text[b.row - 1]| + |b.text[b.row]| <= z.width
    ensures var r, o := Backspaced(b, z), Offset(b);
            && r.row < |r.text| && 0 < o <= |Flat(b)|
            && Flat(r) == Flat(b)[..o - 1] + Flat(b)[o..] && Offset(r) == o - 1
  {
    var r, a, l := Backspaced(b, z), Bytes(b.text[..b.row - 1]) + b.text[b.row - 1], b.text[b.row];
    var c := l + [NL] + Bytes(b.text[b.row + 1..]);
    AtRows(b.text, b.row);
    JoinedBytes(b.text, b.row, z.width);
    assert r.text[..r.row] == b.text[..b.row - 1];
    assert Flat(b) == a + [NL] + c && Flat(r) == a + c;
    TakeOut(a, NL, c);
  }

  lemma {:induction false} LeftFlat(b: Buf, z: Size)
    requires Ok(b, z)
    ensures var r := Keyed(b, z, Left);
            r.row < |b.text| && Offset(r) == if Offset(b) == 0 then 0 else Offset(b) - 1
  {
    if b.row > 0 { AtRows(b.text, b.row); } else { assert b.text[..0] == []; }
  }

  lemma {:induction false} RightFlat(b: Buf, z: Size)
    requires Ok(b, z)
    ensures var r := Keyed(b, z, Right);
            r.row < |b.text| && Offset(r) == if Offset(b) + 1 == |Flat(b)| then Offset(b) else Offset(b) + 1
  {
    AtRow(b.text, b.row);
    if b.row + 1 < |b.text| {
      AtRows(b.text, b.row + 1);
      BelowIsMore(b.text, b.row + 1);
    } else {
      assert b.text[b.row + 1..] == [];
    }
  }

  /** The arrows: one byte left or right, as far as the first and the last place; one line up or
      down, to the same column or the end of a shorter line.  They change no text. */
  lemma {:induction false} ArrowsFlat(b: Buf, z: Size)
    requires Ok(b, z)
    ensures forall k :: k in {Left, Right, Up, Down} ==>
      Keyed(b, z, k).text == b.text && Keyed(b, z, k).row < |b.text| && Keyed(b, z, k).dirty == b.dirty
    ensures Offset(Keyed(b, z, Left)) == if Offset(b) == 0 then 0 else Offset(b) - 1
    ensures Offset(Keyed(b, z, Right)) == if Offset(b) + 1 == |Flat(b)| then Offset(b) else Offset(b) + 1
    ensures Goes(b, Keyed(b, z, Up), b.row - 1) && Goes(b, Keyed(b, z, Down), b.row + 1)
  {
    LeftFlat(b, z);
    RightFlat(b, z);
  }

  // After any line but the last come at least a newline's worth of bytes.
  lemma {:induction false} BelowIsMore(t: Text, row: nat)
    requires row < |t|
    ensures |Bytes(t[row..])| > 0
  {
  }

  // The cursor is in that row if there is one.
  predicate Goes(b: Buf, r: Buf, row: int)
    requires b.row < |b.text|
  {
    if 0 <= row < |b.text| then r.row == row && r.col == (if b.col < |b.text[row]| then b.col else |b.text[row]|)
    else r == b
  }

  /** Scrolling leaves a cursor that is in view where it is, and otherwise brings its row just into
      view. */
  lemma {:induction false} ScrollsLittle(b: Buf, z: Size)
    requires Ok(b, z) && 0 <= b.top
    ensures var r := Scrolled(b, z);
            && r == b.(top := r.top)
            && r.top == if b.row < b.top then b.row else if b.row >= b.top + z.rows then b.row - z.rows + 1 else b.top
  {
  }

  // ---------- loading lines that are too long ----------

  function CutTo(l: seq<Byte>, width: nat): seq<Byte> {
    if |l| <= width then l else l[..width]
  }

  function CutAll(t: Text, width: nat): (r: Text)
    ensures |r| == |t| && forall i :: 0 <= i < |t| ==> r[i] == CutTo(t[i], width)
  {
    seq(|t|, i requires 0 <= i < |t| => CutTo(t[i], width))
  }

  lemma {:induction false} FeedLong(s: Loading, z: Size, l: seq<Byte>)
    requires !s.truncated && Plain(l) && |s.cur| <= z.width
    ensures FeedAll(s, z, l) == s.(cur := CutTo(s.cur + l, z.width))
    decreases |l|
  {
    if l == [] {
      assert s.cur + l == s.cur;
    } else {
      var s1 := Feed(s, z, l[0]);
      FeedLong(s1, z, l[1..]);
      if |s.cur| < z.width {
        assert s.cur + l == s1.cur + l[1..];
      } else {
        assert (s.cur + l)[..z.width] == s.cur == (s.cur + l[1..])[..z.width];
      }
    }
  }

  lemma {:induction false} FeedLongLines(done: Text, z: Size, t: Text)
    requires (forall l :: l in t ==> Plain(l)) && |done| + |t| < z.lines
    ensures FeedAll(Loading(done, [], false), z, Bytes(t)) == Loading(done + CutAll(t, z.width), [], false)
    decreases |t|
  {
    if t == [] {
      assert done + CutAll(t, z.width) == done;
    } else {
      var s, l := Loading(done, [], false), t[0];
      FeedApart(s, z, l + [NL], Bytes(t[1..]));
      FeedApart(s, z, l, [NL]);
      FeedLong(s, z, l);
      assert [] + l == l;
      FeedNewline(Loading(done, CutTo(l, z.width), false), z);
      FeedLongLines(done + [CutTo(l, z.width)], z, t[1..]);
      assert done + CutAll(t, z.width) == done + [CutTo(l, z.width)] + CutAll(t[1..], z.width);
    }
  }

  lemma {:induction false} FeedNewline(s: Loading, z: Size)
    requires !s.truncated && |s.done| + 1 < z.lines
    ensures FeedAll(s, z, [NL]) == Loading(s.done + [s.cur], [], false)
  {
    assert [NL][1..] == [];
    assert FeedAll(Feed(s, z, NL), z, []) == Feed(s, z, NL);
  }

  /** A file of fewer lines than the buffer holds loads line by line, each cut to the width. */
  lemma {:induction false} LoadCuts(t: Text, z: Size)
    requires t != [] && (forall l :: l in t ==> Plain(l)) && |t| < z.lines
    ensures Loaded(z, Bytes(t)) == CutAll(t, z.width)
  {
    FeedLongLines([], z, t);
    assert [] + CutAll(t, z.width) == CutAll(t, z.width);
  }
}

/** The Markdown viewer: the document is split into lines in place, and its items are appended
    to a bounded display list. */
module Viewer {
  import opened Wrap
  import opened Layout

  const NUL: Byte := 0
  const FACES := 4

  /** Appending to a list that keeps its first cap items. */
  function Append(a: seq<Item>, b: seq<Item>, cap: nat): (c: seq<Item>) {
    Capped(a + b, cap)
  }

  lemma AppendAppend(a: seq<Item>, b: seq<Item>, c: seq<Item>, cap: nat)
    requires |a| <= cap
    ensures Append(Append(a, b, cap), c, cap) == Append(a, b + c, cap)
  {
    assert a + (b + c) == (a + b) + c;
    if |a + b| > cap {
      assert Append(Append(a, b, cap), c, cap) == (a + b)[..cap] == (a + (b + c))[..cap];
    }
  }

  // A line of n words that cannot take the next one ends there ...
  lemma Broken(sp: nat, max: int, all: seq<Word>, n: nat)
    requires 0 < n < |all| && Width(sp, all[..n]) + sp + all[n].w > max
    requires Fit(sp, max, all, 1) == Fit(sp, max, all, n)
    ensures Fit(sp, max, all, 1) == n
  {
    assert all[..n + 1][..n] == all[..n];
  }

  // ... one that can, goes on.
  lemma GoesOn(sp: nat, max: int, all: seq<Word>, n: nat)
    requires n < |all| && (n == 0 || Width(sp, all[..n]) + sp + all[n].w <= max)
    requires n != 0 ==> Fit(sp, max, all, 1) == Fit(sp, max, all, n)
    ensures Fit(sp, max, all, 1) == Fit(sp, max, all, n + 1)
    ensures Width(sp, all[..n + 1]) == if n == 0 then all[0].w else Width(sp, all[..n]) + sp + all[n].w
  {
    assert all[..n + 1][..n] == all[..n];
  }

  lemma FirstSlice(f: int, x: int, y: int, l: seq<Word>, ls: seq<seq<Word>>)
    ensures Slices(f, x, y, [l] + ls) == [Slice(f, x, y, l)] + Slices(f, x, y + LH, ls)
  {
    assert ([l] + ls)[1..] == ls;
  }

  // A complete line of n words, and then the lines of the rest.
  lemma FirstLine(sp: nat, max: int, all: seq<Word>, n: nat)
    requires 0 < n <= |all| && Fit(sp, max, all, 1) == Fit(sp, max, all, n)
    requires n == |all| || Width(sp, all[..n]) + sp + all[n].w > max
    ensures Lines(sp, max, all) == [all[..n]] + Lines(sp, max, all[n..])
  {
    if n < |all| { Broken(sp, max, all, n); }
  }

  // Emitting that line, and then the others.
  lemma LineDone(sp: nat, max: int, all: seq<Word>, n: nat, f: int, x: int, y: int, shown: seq<Item>, cap: nat)
    requires |shown| <= cap && 0 < n <= |all| && Fit(sp, max, all, 1) == Fit(sp, max, all, n)
    requires n == |all| || Width(sp, all[..n]) + sp + all[n].w > max
    ensures |Lines(sp, max, all)| == 1 + |Lines(sp, max, all[n..])|
    ensures Append(Append(shown, [Slice(f, x, y, all[..n])], cap), Slices(f, x, y + LH, Lines(sp, max, all[n..])), cap)
         == Append(shown, Slices(f, x, y, Lines(sp, max, all)), cap)
  {
    var ls := Lines(sp, max, all[n..]);
    FirstLine(sp, max, all, n);
    FirstSlice(f, x, y, all[..n], ls);
    AppendAppend(shown, [Slice(f, x, y, all[..n])], Slices(f, x, y + LH, ls), cap);
  }

  // With all these words to come and the first n of them on the line begun, the wrap will end with
  // the list `goal` and at y `bottom`.
  ghost predicate Ahead(shown: seq<Item>, cap: nat, sp: nat, f: int, x: int, y: int, maxW: int, all: seq<Word>, n: nat,
                        goal: seq<Item>, bottom: int) {
    n <= |all| && (n != 0 ==> Fit(sp, maxW, all, 1) == Fit(sp, maxW, all, n))
    && y + LH * |Lines(sp, maxW, all)| == bottom
    && Append(shown, Slices(f, x, y, Lines(sp, maxW, all)), cap) == goal
  }

  lemma AheadOfNext(shown: seq<Item>, cap: nat, sp: nat, f: int, x: int, y: int, maxW: int, all: seq<Word>, n: nat,
                    goal: seq<Item>, bottom: int)
    requires |shown| <= cap && Ahead(shown, cap, sp, f, x, y, maxW, all, n, goal, bottom) && n != 0
    requires n == |all| || Width(sp, all[..n]) + sp + all[n].w > maxW
    ensures Ahead(Append(shown, [Text(f, x, y, all[0].from, all[n - 1].to - all[0].from)], cap), cap,
                  sp, f, x, y + LH, maxW, all[n..], 0, goal, bottom)
  {
    LineDone(sp, maxW, all, n, f, x, y, shown, cap);
    assert Slice(f, x, y, all[..n]) == Text(f, x, y, all[0].from, all[n - 1].to - all[0].from);
  }

  class Viewer {
    const textW: int
    const viewH: int
    // What the window manager answers for one glyph; 0 or less is taken as 1.
    const measured: seq<seq<int>>
    const doc: array<Byte>
    const items: array<Item>
    // Advances measured so far, 0 when not yet measured.
    const cw: array2<int>
    // The document, without the terminating NUL.
    ghost const text: seq<Byte>

    var nItems: nat
    var layP: nat
    var layY: int
    var layInCode: bool
    var layDone: bool
    var totalPx: int

    ghost predicate Wired() {
      |measured| == FACES && (forall f :: 0 <= f < FACES ==> |measured[f]| == 256)
      && cw.Length0 == FACES && cw.Length1 == 256
      && |text| < doc.Length && forall i :: 0 <= i < |text| ==> text[i] != NUL
    }

    function Face(f: int): Advances
      requires Wired() && 0 <= f < FACES
    {
      seq(256, c requires 0 <= c < 256 => if measured[f][c] > 0 then measured[f][c] else 1)
    }

    ghost function Pg(): Page
      requires Wired()
    {
      Page(textW, viewH, items.Length, Face(PROP), Face(BOLD))
    }

    // The cache holds nothing but right advances.
    ghost predicate Cached()
      requires Wired()
      reads cw
    {
      forall f, c :: 0 <= f < FACES && 0 <= c < 256 ==> cw[f, c] == 0 || cw[f, c] == Face(f)[c]
    }

    // The text with the newlines before p replaced by NUL.
    ghost predicate Split(p: nat)
      requires Wired()
      reads doc
    {
      p <= |text| && doc[|text|] == NUL
      && forall i :: 0 <= i < |text| ==> doc[i] == if i < p && text[i] == NL then NUL else text[i]
    }

    function Shown(): seq<Item>
      requires nItems <= items.Length
      reads this`nItems, items
    {
      items[..nItems]
    }

    // The layout has come exactly as far as s.
    ghost predicate Has(p: nat, y: int, inCode: bool, s: Lay)
      reads this`nItems, doc, items, cw
    {
      Wired() && nItems <= items.Length && Cached() && Split(p)
      && (p, y, inCode) == (s.p, s.y, s.inCode) && Shown() == Capped(s.items, items.Length)
    }

    ghost predicate At(s: Lay)
      reads this, doc, items, cw
    {
      Has(layP, layY, layInCode, s)
    }

    // The document from a to b is the text, up to a NUL at b.
    ghost predicate Reads(a: nat, b: nat)
      requires Wired()
      reads doc
    {
      a <= b <= |text| && (forall i :: a <= i < b ==> doc[i] == text[i]) && doc[b] == NUL
    }

    // ---------- measuring ----------

    method TextWidth(f: int, a: nat, b: nat) returns (total: nat)
      requires Wired() && Cached() && 0 <= f < FACES
      requires a <= b <= |text| && forall i :: a <= i < b ==> doc[i] == text[i]
      modifies cw
      ensures Cached() && total == Span(text, Face(f), a, b)
    {
      total := 0;
      var i := a;
      while i < b
        invariant a <= i <= b && Cached()
        invariant total + Span(text, Face(f), i, b) == Span(text, Face(f), a, b)
      {
        var w := Advance(f, doc[i]);
        total := total + w;
        i := i + 1;
      }
    }

    // The advance of one glyph, measured at most once.
    method Advance(f: int, c: Byte) returns (w: nat)
      requires Wired() && Cached() && 0 <= f < FACES
      modifies cw
      ensures Cached() && w == Face(f)[c]
    {
      if cw[f, c] == 0 {
        cw[f, c] := if measured[f][c] > 0 then measured[f][c] else 1;
      }
      w := cw[f, c];
    }

    // ---------- the display list ----------

    method Emit(it: Item)
      requires nItems <= items.Length
      modifies this`nItems, items
      ensures nItems <= items.Length && Shown() == Append(old(Shown()), [it], items.Length)
    {
      if nItems >= items.Length { return; }
      items[nItems] := it;
      nItems := nItems + 1;
    }

    ghost predicate Going(sp: nat, f: int, x: int, y: int, maxW: int, all: seq<Word>, n: nat, goal: seq<Item>, bottom: int)
      reads this`nItems, items
    {
      nItems <= items.Length && Ahead(Shown(), items.Length, sp, f, x, y, maxW, all, n, goal, bottom)
    }

    // The line begun is complete.
    method EmitLine(ghost sp: nat, f: int, x: int, y: int, ghost maxW: int, lineOff: int, lineEnd: int,
                    ghost all: seq<Word>, ghost n: nat, ghost goal: seq<Item>, ghost bottom: int)
      requires Going(sp, f, x, y, maxW, all, n, goal, bottom)
      requires n != 0 && lineOff == all[0].from && lineEnd == all[n - 1].to
      requires n == |all| || Width(sp, all[..n]) + sp + all[n].w > maxW
      modifies items, this`nItems
      ensures Going(sp, f, x, y + LH, maxW, all[n..], 0, goal, bottom)
    {
      AheadOfNext(Shown(), items.Length, sp, f, x, y, maxW, all, n, goal, bottom);
      Emit(Text(f, x, y, lineOff, lineEnd - lineOff));
    }

    // A word that fits joins the line.
    lemma Joins(sp: nat, f: int, x: int, y: int, maxW: int, all: seq<Word>, n: nat, goal: seq<Item>, bottom: int)
      requires Going(sp, f, x, y, maxW, all, n, goal, bottom) && n < |all|
      requires n == 0 || Width(sp, all[..n]) + sp + all[n].w <= maxW
      ensures Going(sp, f, x, y, maxW, all, n + 1, goal, bottom)
      ensures Width(sp, all[..n + 1]) == if n == 0 then all[0].w else Width(sp, all[..n]) + sp + all[n].w
    {
      GoesOn(sp, maxW, all, n);
    }

    // Scan one word: past the spaces at p, then to the next space or the NUL at b.
    method NextWord(p: nat, ghost b: nat) returns (ws: nat, q: nat)
      requires Wired() && Reads(p, b)
      ensures ws == SkipSpaces(text, p, b) && q == WordEnd(text, ws, b)
    {
      ws := p;
      while doc[ws] == SP
        invariant p <= ws <= b && SkipSpaces(text, ws, b) == SkipSpaces(text, p, b)
        decreases b - ws
      {
        ws := ws + 1;
      }
      q := ws;
      while doc[q] != NUL && doc[q] != SP
        invariant ws <= q <= b && WordEnd(text, q, b) == WordEnd(text, ws, b)
        decreases b - q
      {
        q := q + 1;
      }
    }

    // The offsets and the running width are those of the line of the first n words.
    ghost predicate Tracks(sp: nat, all: seq<Word>, n: nat, lineOff: int, lineEnd: int, lineW: int) {
      n <= |all| && lineW == Width(sp, all[..n])
      && if n == 0 then lineOff == -1 else lineOff == all[0].from && lineEnd == all[n - 1].to
    }

    // Take one word: on the current line when it fits, else at the start of the next.
    method TakeWord(f: int, x: int, y: int, maxW: int, spaceW: nat, lineOff: int, lineEnd: int, lineW: int, ws: nat, q: nat,
                    wordW: nat, ghost all: seq<Word>, ghost n: nat, ghost goal: seq<Item>, ghost bottom: int)
      returns (y': int, off: int, w: int, ghost all': seq<Word>, ghost n': nat)
      requires Going(spaceW, f, x, y, maxW, all, n, goal, bottom) && Tracks(spaceW, all, n, lineOff, lineEnd, lineW)
      requires n < |all| && all[n] == Word(ws, q, wordW)
      modifies items, this`nItems
      ensures Going(spaceW, f, x, y', maxW, all', n', goal, bottom) && Tracks(spaceW, all', n', off, q, w)
      ensures all'[n'..] == all[n + 1..]
    {
      var sep := if lineOff >= 0 then spaceW else 0;
      if lineOff >= 0 && lineW + sep + wordW > maxW {
        EmitLine(spaceW, f, x, y, maxW, lineOff, lineEnd, all, n, goal, bottom);
        Joins(spaceW, f, x, y + LH, maxW, all[n..], 0, goal, bottom);
        return y + LH, ws, wordW, all[n..], 1;
      }
      Joins(spaceW, f, x, y, maxW, all, n, goal, bottom);
      return y, if lineOff < 0 then ws else lineOff, lineW + sep + wordW, all, n + 1;
    }

    // Greedy word wrap of the line from start to the NUL at b.
    method WrapEmit(f: int, start: nat, ghost b: nat, x: int, y: int, maxW: int) returns (y': int)
      requires Wired() && Cached() && nItems <= items.Length && 0 <= f < FACES && Reads(start, b)
      modifies cw, items, this`nItems
      ensures Cached() && nItems <= items.Length
      ensures y' == Wrapped(Face(f), f, text, start, b, x, y, maxW).y
      ensures Shown() == Append(old(Shown()), Wrapped(Face(f), f, text, start, b, x, y, maxW).items, items.Length)
    {
      var spaceW := Advance(f, SP);
      y' := y;
      var p, lineEnd, lineW := start, 0, 0;
      var lineOff: int := -1;
      ghost var done := Wrapped(Face(f), f, text, start, b, x, y, maxW);
      ghost var goal := Append(Shown(), done.items, items.Length);
      ghost var all, n: nat := Words(text, Face(f), start, b), 0;
      while doc[p] != NUL
        invariant start <= p <= b && Cached() && Tracks(spaceW, all, n, lineOff, lineEnd, lineW)
        invariant Going(spaceW, f, x, y', maxW, all, n, goal, done.y) && all[n..] == Words(text, Face(f), p, b)
        decreases b - p
      {
        var ws, q := NextWord(p, b);
        if ws != q {
          var wordW := TextWidth(f, ws, q);
          NextOf(all, n, Word(ws, q, wordW), Words(text, Face(f), q, b));
          y', lineOff, lineW, all, n := TakeWord(f, x, y', maxW, spaceW, lineOff, lineEnd, lineW, ws, q, wordW,
                                                 all, n, goal, done.y);
          lineEnd := q;
        }
        p := q;
      }
      if lineOff >= 0 {
        EmitLine(spaceW, f, x, y', maxW, lineOff, lineEnd, all, n, goal, done.y);
        y' := y' + LH;
      }
    }

    lemma NextOf(all: seq<Word>, n: nat, w: Word, rest: seq<Word>)
      requires n <= |all| && all[n..] == [w] + rest
      ensures n < |all| && all[n] == w && all[n + 1..] == rest
    {
      assert all[n..][0] == w && all[n..][1..] == rest;
    }

    // ---------- the layout ----------

    // Back to the start.  The document stays as it is, lines that were cut off included, so the
    // next layout starts afresh only while none has been.
    method LayoutReset()
      requires Wired() && Cached()
      modifies this
      ensures (layP, layY, layInCode) == (START.p, START.y, START.inCode)
      ensures nItems == 0 && totalPx == TOP && !layDone
      ensures Split(0) ==> At(START)
    {
      nItems, layY, layInCode, layP, layDone := 0, TOP, false, 0, false;
      totalPx := layY;
    }

    // Cut the line that starts at p off the text: replace its newline by NUL.
    method CutLine(p: nat) returns (e: nat, p': nat)
      requires Wired() && Split(p) && p < |text|
      modifies doc
      ensures e == LineEnd(text, p) && p' == (if e < |text| then e + 1 else e)
      ensures Split(p') && Reads(p, e)
    {
      e := p;
      while doc[e] != NUL && doc[e] != NL
        invariant p <= e <= |text| && LineEnd(text, e) == LineEnd(text, p)
        decreases |text| - e
      {
        e := e + 1;
      }
      p' := e;
      if doc[e] == NL {
        doc[e] := NUL;
        p' := e + 1;
      }
    }

    // What kind of line starts at a and ends with the NUL at b.
    method Classify(a: nat, ghost b: nat, inCode: bool) returns (k: Kind)
      requires Wired() && Reads(a, b)
      ensures k == KindOf(text, a, b, inCode)
    {
      if doc[a] == TICK && doc[a + 1] == TICK && doc[a + 2] == TICK { return FenceMark; }
      if inCode { return CodeLine; }
      if doc[a] == NUL { return Blank; }
      if doc[a] == HASH {
        var lv := a;
        while doc[lv] == HASH
          invariant a <= lv <= b && Hashes(text, lv, b) == Hashes(text, a, b)
          decreases b - lv
        {
          lv := lv + 1;
        }
        var h := lv;
        while doc[h] == SP
          invariant lv <= h <= b && SkipSpaces(text, h, b) == SkipSpaces(text, lv, b)
          decreases b - h
        {
          h := h + 1;
        }
        return Heading(lv - a, h);
      }
      if (doc[a] == DASH || doc[a] == STAR) && doc[a + 1] == SP { return BulletLine; }
      return Paragraph;
    }

    // Emit what the line from a to b adds.
    method EmitBlock(a: nat, b: nat, inCode: bool, y: int) returns (y': int, inCode': bool)
      requires Wired() && Cached() && nItems <= items.Length && Reads(a, b)
      modifies cw, items, this`nItems
      ensures Cached() && nItems <= items.Length
      ensures y' == Line(text, Pg(), a, b, inCode, y).y && inCode' == Line(text, Pg(), a, b, inCode, y).inCode
      ensures Shown() == Append(old(Shown()), Line(text, Pg(), a, b, inCode, y).items, items.Length)
    {
      y', inCode' := y, inCode;
      ghost var r := Line(text, Pg(), a, b, inCode, y);
      var kind := Classify(a, b, inCode);
      if kind.FenceMark? {
        inCode' := !inCode;
        AppendNothing();
        assert r.items == [];
      } else if kind.CodeLine? {
        Emit(Code(MARGIN, y, a, b - a));
        y' := y + LH;
        assert r.items == [Code(MARGIN, y, a, b - a)];
      } else if kind.Blank? {
        y' := y + 8;
        AppendNothing();
        assert r.items == [];
      } else if kind.Heading? {
        y' := EmitHeading(kind.level, kind.from, b, y);
        assert Shown() == Append(old(Shown()), r.items, items.Length);
      } else if kind.BulletLine? {
        y' := EmitBullet(a, b, y);
        assert Shown() == Append(old(Shown()), r.items, items.Length);
      } else {
        y' := WrapEmit(PROP, a, b, MARGIN, y, textW);
        assert Shown() == Append(old(Shown()), r.items, items.Length);
      }
    }

    lemma AppendNothing()
      requires nItems <= items.Length
      ensures Append(Shown(), [], items.Length) == Shown()
    {
      assert Shown() + [] == Shown();
    }

    method EmitBullet(a: nat, ghost b: nat, y: int) returns (y': int)
      requires Wired() && Cached() && nItems <= items.Length && a + 2 <= b && Reads(a, b)
      modifies cw, items, this`nItems
      ensures Cached() && nItems <= items.Length
      ensures var r := BulletBlock(text, Pg(), a + 2, b, y);
        y' == r.y && Shown() == Append(old(Shown()), r.items, items.Length)
    {
      AppendAppend(Shown(), [Disc(MARGIN, y)],
                   Wrapped(Pg().prop, PROP, text, a + 2, b, MARGIN + INDENT, y, textW - INDENT).items, items.Length);
      Emit(Disc(MARGIN, y));
      y' := WrapEmit(PROP, a + 2, b, MARGIN + INDENT, y, textW - INDENT);
    }

    method EmitHeading(level: nat, from: nat, ghost b: nat, y: int) returns (y': int)
      requires Wired() && Cached() && nItems <= items.Length && Reads(from, b)
      modifies cw, items, this`nItems
      ensures Cached() && nItems <= items.Length
      ensures var r := HeadingBlock(text, Pg(), level, from, b, y);
        y' == r.y && Shown() == Append(old(Shown()), r.items, items.Length)
    {
      y' := WrapEmit(BOLD, from, b, MARGIN, y, textW);
      if level == 1 {
        AppendAppend(old(Shown()), Wrapped(Pg().bold, BOLD, text, from, b, MARGIN, y, textW).items,
                     [Rule(MARGIN, y')], items.Length);
        Emit(Rule(MARGIN, y'));
        y' := y' + 8;
      } else {
        y' := y' + 4;
      }
    }

    // Lay out one source line.
    method LayLine(p: nat, y: int, inCode: bool, ghost s: Lay) returns (p': nat, y': int, inCode': bool)
      requires Has(p, y, inCode, s) && p < |text|
      modifies doc, cw, items, this`nItems
      ensures Has(p', y', inCode', Next(text, Pg(), s))
    {
      var e;
      e, p' := CutLine(p);
      y', inCode' := EmitBlock(p, e, inCode, y);
      AppendAppend([], s.items, Line(text, Pg(), p, e, inCode, y).items, items.Length);
    }

    /** Lay out more of the document, until y reaches the target or the document ends. */
    method LayoutUpto(target: int, ghost s: Lay)
      requires At(s)
      modifies this, doc, cw, items
      ensures At(Upto(text, Pg(), s, target)) && totalPx == layY
      ensures layP == |text| ==> layDone
    {
      var p, y, inCode := layP, layY, layInCode;
      ghost var now := s;
      while doc[p] != NUL && y < target
        invariant Has(p, y, inCode, now) && Upto(text, Pg(), now, target) == Upto(text, Pg(), s, target)
        decreases |text| - p
      {
        p, y, inCode := LayLine(p, y, inCode, now);
        now := Next(text, Pg(), now);
      }
      layP, layY, layInCode := p, y, inCode;
      if doc[p] == NUL { layDone := true; }
      totalPx := y;
    }

    /** The items drawn at a scroll offset. */
    method Render(offset: int) returns (drawn: seq<Item>)
      requires nItems <= items.Length
      ensures drawn == Drawn(Shown(), offset, viewH)
    {
      drawn := [];
      var i := 0;
      assert items[0..nItems] == Shown();
      while i < nItems
        invariant 0 <= i <= nItems && drawn + Drawn(items[i..nItems], offset, viewH) == Drawn(Shown(), offset, viewH)
      {
        assert items[i..nItems][1..] == items[i + 1..nItems];
        var sy := items[i].y - offset;
        if !(sy + LH <= 0 || sy >= viewH) { drawn := drawn + [items[i]]; }
        i := i + 1;
      }
    }

    /** Opening a document: lay out and paint the first screen, then lay out the rest.  What was
        painted early is what the finished layout shows there. */
    method Open(all: int) returns (first: seq<Item>)
      requires Wired() && Cached() && Split(0) && all >= viewH + LH
      modifies this, doc, cw, items
      ensures nItems <= items.Length && first == Drawn(Shown(), 0, viewH)
      ensures layP == |text| ==>
        var f := Full(text, Pg(), START);
        Shown() == Capped(f.items, items.Length) && totalPx == f.y && layInCode == f.inCode
    {
      LayoutReset();
      LayoutUpto(viewH + LH, START);
      first := Render(0);
      LayoutUpto(all, Upto(text, Pg(), START, viewH + LH));
      Resume(text, Pg(), START, viewH + LH, all);
      FirstScreenIsFinal(text, Pg(), viewH + LH);
      FirstScreenIsFinal(text, Pg(), all);
      EndIsFull(text, Pg(), START, all);
    }
  }

  // ---------- scrolling ----------

  datatype Key = Down | Up | PageDown | PageUp | Home | End | Quit | OtherKey

  /** The new offset for a key, or -1 to quit: always one the document can be scrolled to. */
  function ScrollKey(k: Key, offset: int, maxOff: nat, viewH: int): (r: int)
    ensures if k.Quit? then r == -1 else 0 <= r <= maxOff
    ensures 0 <= offset <= maxOff && k.OtherKey? ==> r == offset
    ensures k.Home? ==> r == 0
    ensures k.End? ==> r == maxOff
    // The arrows move by a line and the page keys by a screenful less a line, or up to the end.
    ensures 0 <= offset <= maxOff && k.Down? ==> r == offset + LH || (r == maxOff && r < offset + LH)
    ensures 0 <= offset <= maxOff && k.Up? ==> r == offset - LH || (r == 0 && r > offset - LH)
    ensures 0 <= offset <= maxOff && LH <= viewH && k.PageDown? ==>
      r == offset + viewH - LH || (r == maxOff && r < offset + viewH - LH)
    ensures 0 <= offset <= maxOff && LH <= viewH && k.PageUp? ==>
      r == offset - viewH + LH || (r == 0 && r > offset - viewH + LH)
  {
    if k.Quit? then -1
    else
      var n := match k
        case Down => offset + LH
        case Up => offset - LH
        case PageDown => offset + viewH - LH
        case PageUp => offset - (viewH - LH)
        case Home => 0
        case End => maxOff
        case _ => offset;
      if n < 0 then 0 else if n > maxOff then maxOff else n
  }
}

/** The Markdown viewer's layout: source lines become display items, one line at a time, as
    far down as asked for. */
module Layout {
  import opened Wrap

  const NL: Byte := 10
  const HASH: Byte := 35
  const STAR: Byte := 42
  const DASH: Byte := 45
  const TICK: Byte := 96
  const PROP := 0
  const BOLD := 3
  const MARGIN := 8
  const INDENT := 18
  const LH := 18
  const TOP := 6

  /** Wrap width, viewport height, the length of the display list, and the advances of the two
      faces that are wrapped. */
  datatype Page = Page(textW: int, viewH: int, cap: nat, prop: Advances, bold: Advances)

  datatype Item =
    | Text(face: int, x: int, y: int, off: int, len: int)
    | Code(x: int, y: int, off: int, len: int)
    | Rule(x: int, y: int)
    | Disc(x: int, y: int)

  // ---------- one source line ----------

  // The source slice from a line's first word to its last.
  function Slice(face: int, x: int, y: int, l: seq<Word>): Item {
    if l == [] then Text(face, x, y, 0, 0) else Text(face, x, y, l[0].from, l[|l| - 1].to - l[0].from)
  }

  /** The display items of wrapped lines, from y downwards. */
  function Slices(face: int, x: int, y: int, ls: seq<seq<Word>>): (its: seq<Item>)
    ensures |its| == |ls|
    decreases |ls|
  {
    if ls == [] then [] else [Slice(face, x, y, ls[0])] + Slices(face, x, y + LH, ls[1..])
  }

  lemma {:induction false} SliceAt(face: int, x: int, y: int, ls: seq<seq<Word>>, i: nat)
    requires i < |ls|
    ensures Slices(face, x, y, ls)[i] == Slice(face, x, y + i * LH, ls[i])
    decreases i
  {
    if i > 0 { SliceAt(face, x, y + LH, ls[1..], i - 1); }
  }

  /** What a source line adds: items and the y below them. */
  datatype Block = Block(items: seq<Item>, y: int, inCode: bool)

  /** A span of the text, wrapped. */
  ghost function Wrapped(adv: Advances, face: int, t: seq<Byte>, a: nat, b: nat, x: int, y: int, max: int): (r: Block)
    requires a <= b <= |t|
    ensures !r.inCode && r.y >= y
  {
    var ls := Lines(adv[SP], max, Words(t, adv, a, b));
    Block(Slices(face, x, y, ls), y + LH * |ls|, false)
  }

  lemma SpacedParts(t: seq<Byte>, adv: Advances, ws: seq<Word>, k: nat)
    requires Spaced(t, adv, ws) && k <= |ws|
    ensures Spaced(t, adv, ws[..k]) && Spaced(t, adv, ws[k..])
  {
    forall i | 0 < i < |ws[k..]|
      ensures Gap(t, ws[k..][i - 1], ws[k..][i])
    {
      assert Gap(t, ws[k + i - 1], ws[k + i]);
    }
  }

  /** The lines of spaced words are spaced. */
  lemma {:induction false} SpacedLines(t: seq<Byte>, adv: Advances, max: int, ws: seq<Word>)
    requires Spaced(t, adv, ws)
    ensures forall i :: 0 <= i < |Lines(adv[SP], max, ws)| ==> Spaced(t, adv, Lines(adv[SP], max, ws)[i])
    decreases |ws|
  {
    if ws != [] {
      var k := Fit(adv[SP], max, ws, 1);
      SpacedParts(t, adv, ws, k);
      SpacedLines(t, adv, max, ws[k..]);
    }
  }

  // Words in source order.
  ghost predicate InOrder(ws: seq<Word>) {
    (forall i :: 0 <= i < |ws| ==> ws[i].from < ws[i].to) && (forall i :: 0 < i < |ws| ==> ws[i - 1].to < ws[i].from)
  }

  lemma {:induction false} FirstIsFirst(ws: seq<Word>, i: nat)
    requires InOrder(ws) && i < |ws|
    ensures ws[0].from <= ws[i].from
  {
    if i > 0 { FirstIsFirst(ws, i - 1); }
  }

  ghost predicate Apart(ls: seq<seq<Word>>) {
    (forall i :: 0 <= i < |ls| ==> ls[i] != [])
    && (forall i, j :: 0 <= i < j < |ls| ==> ls[i][|ls[i]| - 1].to < ls[j][0].from)
  }

  /** The slices of the lines are in source order and do not overlap. */
  lemma {:induction false} LinesApart(sp: nat, max: int, ws: seq<Word>)
    requires InOrder(ws)
    ensures Apart(Lines(sp, max, ws))
    ensures forall j :: 0 <= j < |Lines(sp, max, ws)| ==> ws != [] && ws[0].from <= Lines(sp, max, ws)[j][0].from
    decreases |ws|
  {
    if ws != [] {
      var k := Fit(sp, max, ws, 1);
      var rest: seq<seq<Word>> := Lines(sp, max, ws[k..]);
      InOrderParts(ws, k);
      LinesApart(sp, max, ws[k..]);
      if k < |ws| { FirstIsFirst(ws, k); }
      assert forall j :: 0 <= j < |rest| ==> ws[k - 1].to < rest[j][0].from;
    }
  }

  lemma {:induction false} LastIsLast(ws: seq<Word>, i: nat)
    requires InOrder(ws) && i < |ws|
    ensures ws[i].to <= ws[|ws| - 1].to
    decreases |ws| - i
  {
    if i + 1 < |ws| { LastIsLast(ws, i + 1); }
  }

  lemma SpacedInOrder(t: seq<Byte>, adv: Advances, ws: seq<Word>)
    requires Spaced(t, adv, ws)
    ensures InOrder(ws)
  {
    forall i | 0 < i < |ws|
      ensures ws[i - 1].to < ws[i].from
    {
      assert Gap(t, ws[i - 1], ws[i]);
    }
  }

  lemma InOrderParts(ws: seq<Word>, k: nat)
    requires InOrder(ws) && k <= |ws|
    ensures InOrder(ws[..k]) && InOrder(ws[k..])
  {
    forall i | 0 < i < |ws| - k
      ensures ws[k..][i - 1].to < ws[k..][i].from
    {
      assert ws[k + i - 1].to < ws[k + i].from;
    }
  }

  // A line reaches from a to b.
  predicate Reaches(l: seq<Word>, a: nat, b: nat) {
    l != [] && l[0].from <= a && b <= l[|l| - 1].to
  }

  // Every word is within the slice of some line.
  lemma {:induction false} OnSomeLine(sp: nat, max: int, ws: seq<Word>, k: nat) returns (i: nat)
    requires InOrder(ws) && k < |ws|
    ensures i < |Lines(sp, max, ws)| && Reaches(Lines(sp, max, ws)[i], ws[k].from, ws[k].to)
    decreases |ws|
  {
    var n := Fit(sp, max, ws, 1);
    InOrderParts(ws, n);
    i := 0;
    if k < n {
      FirstIsFirst(ws, k);
      LastIsLast(ws[..n], k);
    } else {
      var j := OnSomeLine(sp, max, ws[n..], k - n);
      i := j + 1;
    }
  }

  // Lines of words of the span stay in the span.
  lemma {:induction false} LinesInside(sp: nat, max: int, ws: seq<Word>, a: nat, b: nat)
    requires forall k :: 0 <= k < |ws| ==> a <= ws[k].from && ws[k].to <= b
    ensures forall i :: 0 <= i < |Lines(sp, max, ws)| ==>
      var l := Lines(sp, max, ws)[i]; l != [] && a <= l[0].from && l[|l| - 1].to <= b
    decreases |ws|
  {
    if ws != [] { LinesInside(sp, max, ws[Fit(sp, max, ws, 1)..], a, b); }
  }

  lemma {:induction false} UnbrokenLines(t: seq<Byte>, sp: nat, max: int, ws: seq<Word>)
    requires Unbroken(t, ws)
    ensures forall i :: 0 <= i < |Lines(sp, max, ws)| ==> Unbroken(t, Lines(sp, max, ws)[i])
    decreases |ws|
  {
    if ws != [] {
      var k := Fit(sp, max, ws, 1);
      assert Unbroken(t, ws[k..]) by { assert forall i :: 0 <= i < |ws| - k ==> ws[k..][i] == ws[k + i]; }
      UnbrokenLines(t, sp, max, ws[k..]);
    }
  }

  // The lines of a span.
  function LinesOf(adv: Advances, t: seq<Byte>, a: nat, b: nat, max: int): seq<seq<Word>>
    requires a <= b <= |t|
  {
    Lines(adv[SP], max, Words(t, adv, a, b))
  }

  // One emitted item: the slice from a line's first word to its last.
  lemma ItemAt(adv: Advances, face: int, t: seq<Byte>, a: nat, b: nat, x: int, y: int, max: int, i: nat)
    requires a <= b <= |t| && i < |LinesOf(adv, t, a, b, max)|
    ensures var its, l := Wrapped(adv, face, t, a, b, x, y, max).items, LinesOf(adv, t, a, b, max)[i];
            |its| == |LinesOf(adv, t, a, b, max)| && l != [] && a <= l[0].from < l[|l| - 1].to <= b
            && its[i] == Text(face, x, y + i * LH, l[0].from, l[|l| - 1].to - l[0].from)
  {
    var ws, ls := Words(t, adv, a, b), LinesOf(adv, t, a, b, max);
    WordsAreSpaced(t, adv, a, b);
    LinesInside(adv[SP], max, ws, a, b);
    SpacedLines(t, adv, max, ws);
    SliceWidth(t, adv, ls[i]);
    SliceAt(face, x, y, ls, i);
  }

  lemma ItemsApart(adv: Advances, face: int, t: seq<Byte>, a: nat, b: nat, x: int, y: int, max: int, i: nat, j: nat)
    requires a <= b <= |t| && i < j < |LinesOf(adv, t, a, b, max)|
    ensures var its := Wrapped(adv, face, t, a, b, x, y, max).items;
            j < |its| && its[i].Text? && its[j].Text? && its[i].off + its[i].len < its[j].off
  {
    ItemAt(adv, face, t, a, b, x, y, max, i);
    ItemAt(adv, face, t, a, b, x, y, max, j);
    WordsAreSpaced(t, adv, a, b);
    SpacedInOrder(t, adv, Words(t, adv, a, b));
    LinesApart(adv[SP], max, Words(t, adv, a, b));
  }

  lemma ItemsCover(adv: Advances, face: int, t: seq<Byte>, a: nat, b: nat, x: int, y: int, max: int, p: nat)
    returns (i: nat)
    requires a <= p < b <= |t| && t[p] != SP
    ensures var its := Wrapped(adv, face, t, a, b, x, y, max).items;
            i < |its| && its[i].Text? && its[i].off <= p < its[i].off + its[i].len
  {
    var ws := Words(t, adv, a, b);
    WordsAreSpaced(t, adv, a, b);
    SpacedInOrder(t, adv, ws);
    var k := WordsCover(t, adv, a, b, p);
    i := OnSomeLine(adv[SP], max, ws, k);
    ItemAt(adv, face, t, a, b, x, y, max, i);
  }

  /** What is emitted for a span: one slice of the source for each line, a line height further
      down each time, all inside the span, in order, apart from each other, and leaving out
      nothing but spaces. */
  lemma WrappedSlices(adv: Advances, face: int, t: seq<Byte>, a: nat, b: nat, x: int, y: int, max: int)
    requires a <= b <= |t|
    ensures var its := Wrapped(adv, face, t, a, b, x, y, max).items;
      && (forall i :: 0 <= i < |its| ==> its[i].Text? && its[i] == Text(face, x, y + i * LH, its[i].off, its[i].len)
                                         && a <= its[i].off && 0 < its[i].len && its[i].off + its[i].len <= b)
      && (forall i, j :: 0 <= i < j < |its| ==> its[i].off + its[i].len < its[j].off)
      && (forall p :: a <= p < b && t[p] != SP ==>
            exists i :: 0 <= i < |its| && its[i].off <= p < its[i].off + its[i].len)
  {
    var its := Wrapped(adv, face, t, a, b, x, y, max).items;
    forall i | 0 <= i < |its|
      ensures its[i].Text? && its[i] == Text(face, x, y + i * LH, its[i].off, its[i].len)
      ensures a <= its[i].off && 0 < its[i].len && its[i].off + its[i].len <= b
    {
      ItemAt(adv, face, t, a, b, x, y, max, i);
    }
    forall i, j | 0 <= i < j < |its|
      ensures its[i].off + its[i].len < its[j].off
    {
      ItemsApart(adv, face, t, a, b, x, y, max, i, j);
    }
    forall p | a <= p < b && t[p] != SP
      ensures exists i :: 0 <= i < |its| && its[i].off <= p < its[i].off + its[i].len
    {
      var i := ItemsCover(adv, face, t, a, b, x, y, max, p);
    }
  }

  /** The width of an emitted slice: the running width, which fits unless the line is one word,
      exactly when the slice has no two spaces in a row; otherwise more. */
  lemma WrappedWidths(adv: Advances, face: int, t: seq<Byte>, a: nat, b: nat, x: int, y: int, max: int, i: nat)
    requires a <= b <= |t| && i < |LinesOf(adv, t, a, b, max)|
    ensures var its, l := Wrapped(adv, face, t, a, b, x, y, max).items, LinesOf(adv, t, a, b, max)[i];
      && |its| == |LinesOf(adv, t, a, b, max)| && its[i].Text?
      && 0 <= its[i].off <= its[i].off + its[i].len <= |t|
      && var w := Span(t, adv, its[i].off, its[i].off + its[i].len);
      && Width(adv[SP], l) <= w && (Width(adv[SP], l) <= max || |l| == 1)
      && (w == Width(adv[SP], l) <==> NoDoubleSpace(t, its[i].off, its[i].off + its[i].len))
  {
    var ws, ls := Words(t, adv, a, b), LinesOf(adv, t, a, b, max);
    WordsAreSpaced(t, adv, a, b);
    WordsUnbroken(t, adv, a, b);
    SpacedLines(t, adv, max, ws);
    UnbrokenLines(t, adv[SP], max, ws);
    LinesWhole(adv[SP], max, ws);
    SliceAt(face, x, y, ls, i);
    assert Whole(adv[SP], max, ls[i]);
    SliceWidth(t, adv, ls[i]);
    SingleSpacedIff(t, adv, ls[i]);
  }

  predicate Fence(t: seq<Byte>, a: nat, b: nat)
    requires a <= b <= |t|
  {
    b - a >= 3 && t[a] == TICK && t[a + 1] == TICK && t[a + 2] == TICK
  }

  // The end of the run of hashes at a.
  function Hashes(t: seq<Byte>, a: nat, b: nat): (h: nat)
    requires a <= b <= |t|
    ensures a <= h <= b
    ensures forall i :: a <= i < h ==> t[i] == HASH
    ensures h < b ==> t[h] != HASH
    decreases b - a
  {
    if a < b && t[a] == HASH then Hashes(t, a + 1, b) else a
  }

  predicate Bullet(t: seq<Byte>, a: nat, b: nat)
    requires a <= b <= |t|
  {
    b - a >= 2 && (t[a] == DASH || t[a] == STAR) && t[a + 1] == SP
  }

  /** What a source line is; a heading's text begins after its hashes and spaces. */
  datatype Kind = FenceMark | CodeLine | Blank | Heading(level: nat, from: nat) | BulletLine | Paragraph

  function KindOf(t: seq<Byte>, a: nat, b: nat, inCode: bool): (k: Kind)
    requires a <= b <= |t|
    ensures k.Heading? ==> k.from <= b
    ensures k.BulletLine? ==> a + 2 <= b
  {
    if Fence(t, a, b) then FenceMark
    else if inCode then CodeLine
    else if a == b then Blank
    else if t[a] == HASH then Heading(Hashes(t, a, b) - a, SkipSpaces(t, Hashes(t, a, b), b))
    else if Bullet(t, a, b) then BulletLine
    else Paragraph
  }

  /** What the source line [a, b) adds at y. */
  ghost function Line(t: seq<Byte>, pg: Page, a: nat, b: nat, inCode: bool, y: int): (r: Block)
    requires a <= b <= |t|
    ensures r.y >= y
  {
    BlockOf(t, pg, a, b, inCode, y, KindOf(t, a, b, inCode))
  }

  ghost function HeadingBlock(t: seq<Byte>, pg: Page, level: nat, from: nat, b: nat, y: int): (r: Block)
    requires from <= b <= |t|
    ensures r.y >= y
  {
    var w := Wrapped(pg.bold, BOLD, t, from, b, MARGIN, y, pg.textW);
    if level == 1 then Block(w.items + [Rule(MARGIN, w.y)], w.y + 8, false) else Block(w.items, w.y + 4, false)
  }

  ghost function BulletBlock(t: seq<Byte>, pg: Page, from: nat, b: nat, y: int): (r: Block)
    requires from <= b <= |t|
    ensures r.y >= y
  {
    var w := Wrapped(pg.prop, PROP, t, from, b, MARGIN + INDENT, y, pg.textW - INDENT);
    Block([Disc(MARGIN, y)] + w.items, w.y, false)
  }

  // What a line of a kind adds.
  ghost function BlockOf(t: seq<Byte>, pg: Page, a: nat, b: nat, inCode: bool, y: int, k: Kind): (r: Block)
    requires a <= b <= |t| && (k.Heading? ==> k.from <= b) && (k.BulletLine? ==> a + 2 <= b)
    ensures r.y >= y
  {
    match k
    case FenceMark => Block([], y, !inCode)
    case CodeLine => Block([Code(MARGIN, y, a, b - a)], y + LH, true)
    case Blank => Block([], y + 8, false)
    case Heading(level, from) => HeadingBlock(t, pg, level, from, b, y)
    case BulletLine => BulletBlock(t, pg, a + 2, b, y)
    case Paragraph => Wrapped(pg.prop, PROP, t, a, b, MARGIN, y, pg.textW)
  }

  // ---------- the document ----------

  function LineEnd(t: seq<Byte>, a: nat): (e: nat)
    requires a <= |t|
    ensures a <= e <= |t|
    ensures forall i :: a <= i < e ==> t[i] != NL
    ensures e < |t| ==> t[e] == NL
    decreases |t| - a
  {
    if a < |t| && t[a] != NL then LineEnd(t, a + 1) else a
  }

  /** How far the layout has come: the cursor, the y below the last item, and all items. */
  datatype Lay = Lay(p: nat, y: int, inCode: bool, items: seq<Item>)

  const START := Lay(0, TOP, false, [])

  ghost function Next(t: seq<Byte>, pg: Page, s: Lay): (s': Lay)
    requires s.p < |t|
    ensures s.p < s'.p <= |t| && s'.y >= s.y && s.items <= s'.items
  {
    var e := LineEnd(t, s.p);
    var r := Line(t, pg, s.p, e, s.inCode, s.y);
    Lay(if e < |t| then e + 1 else e, r.y, r.inCode, s.items + r.items)
  }

  /** Lay out line after line until y reaches the target or the text ends. */
  ghost function Upto(t: seq<Byte>, pg: Page, s: Lay, target: int): (s': Lay)
    requires s.p <= |t|
    ensures s.p <= s'.p <= |t| && (s'.p == |t| || s'.y >= target)
    decreases |t| - s.p
  {
    if s.p < |t| && s.y < target then Upto(t, pg, Next(t, pg, s), target) else s
  }

  /** Lay out the whole text. */
  ghost function Full(t: seq<Byte>, pg: Page, s: Lay): (s': Lay)
    requires s.p <= |t|
    ensures s'.p == |t|
    decreases |t| - s.p
  {
    if s.p < |t| then Full(t, pg, Next(t, pg, s)) else s
  }

  ghost function UptoEach(t: seq<Byte>, pg: Page, s: Lay, targets: seq<int>): (s': Lay)
    requires s.p <= |t|
    ensures s'.p <= |t|
    decreases |targets|
  {
    if targets == [] then s else UptoEach(t, pg, Upto(t, pg, s, targets[0]), targets[1..])
  }

  /** Going on from a lower target is as good as going for the higher one at once. */
  lemma {:induction false} Resume(t: seq<Byte>, pg: Page, s: Lay, low: int, high: int)
    requires s.p <= |t| && low <= high
    ensures Upto(t, pg, Upto(t, pg, s, low), high) == Upto(t, pg, s, high)
    decreases |t| - s.p
  {
    if s.p < |t| && s.y < low { Resume(t, pg, Next(t, pg, s), low, high); }
  }

  // A layout that reached the end of the text is the full one.
  lemma {:induction false} EndIsFull(t: seq<Byte>, pg: Page, s: Lay, target: int)
    requires s.p <= |t|
    ensures Full(t, pg, Upto(t, pg, s, target)) == Full(t, pg, s)
    decreases |t| - s.p
  {
    if s.p < |t| && s.y < target { EndIsFull(t, pg, Next(t, pg, s), target); }
  }

  /** Any targets in increasing order give what the last alone would give ... */
  lemma {:induction false} OnlyTheLastCounts(t: seq<Byte>, pg: Page, s: Lay, targets: seq<int>)
    requires s.p <= |t| && targets != []
    requires forall i :: 0 < i < |targets| ==> targets[i - 1] <= targets[i]
    ensures UptoEach(t, pg, s, targets) == Upto(t, pg, s, targets[|targets| - 1])
    decreases |targets|
  {
    if |targets| > 1 {
      var low := targets[0];
      OnlyTheLastCounts(t, pg, Upto(t, pg, s, low), targets[1..]);
      Ascending(targets, |targets| - 1);
      Resume(t, pg, s, low, targets[|targets| - 1]);
    }
  }

  lemma {:induction false} Ascending(targets: seq<int>, k: nat)
    requires k < |targets| && forall i :: 0 < i < |targets| ==> targets[i - 1] <= targets[i]
    ensures targets[0] <= targets[k]
  {
    if k > 0 { Ascending(targets, k - 1); }
  }

  /** ... and in any order, once the end is reached, exactly the full layout. */
  lemma {:induction false} ViewportFirstIsFull(t: seq<Byte>, pg: Page, s: Lay, targets: seq<int>)
    requires s.p <= |t| && UptoEach(t, pg, s, targets).p == |t|
    ensures UptoEach(t, pg, s, targets) == Full(t, pg, s)
    decreases |targets|
  {
    if targets != [] {
      ViewportFirstIsFull(t, pg, Upto(t, pg, s, targets[0]), targets[1..]);
      EndIsFull(t, pg, s, targets[0]);
    }
  }

  // ---------- the order of the items ----------

  /** The items go down the page, between top and bottom. */
  ghost predicate Falling(its: seq<Item>, top: int, bottom: int) {
    (forall i :: 0 <= i < |its| ==> top <= its[i].y <= bottom)
    && (forall i :: 0 < i < |its| ==> its[i - 1].y <= its[i].y)
  }

  lemma Falls(a: seq<Item>, b: seq<Item>, top: int, mid: int, bottom: int)
    requires Falling(a, top, mid) && Falling(b, mid, bottom) && top <= mid <= bottom
    ensures Falling(a + b, top, bottom)
  {
    var its := a + b;
    forall i | 0 < i < |its|
      ensures its[i - 1].y <= its[i].y
    {
      if i > |a| { assert its[i - 1] == b[i - 1 - |a|] && its[i] == b[i - |a|]; }
    }
  }

  lemma WrappedFalls(adv: Advances, face: int, t: seq<Byte>, a: nat, b: nat, x: int, y: int, max: int)
    requires a <= b <= |t|
    ensures var w := Wrapped(adv, face, t, a, b, x, y, max); Falling(w.items, y, w.y)
  {
    var ls := Lines(adv[SP], max, Words(t, adv, a, b));
    forall i | 0 <= i < |ls|
      ensures Slices(face, x, y, ls)[i].y == y + i * LH
    {
      SliceAt(face, x, y, ls, i);
    }
  }

  lemma HeadingFalls(t: seq<Byte>, pg: Page, level: nat, from: nat, b: nat, y: int)
    requires from <= b <= |t|
    ensures var r := HeadingBlock(t, pg, level, from, b, y); Falling(r.items, y, r.y)
  {
    WrappedFalls(pg.bold, BOLD, t, from, b, MARGIN, y, pg.textW);
    var w := Wrapped(pg.bold, BOLD, t, from, b, MARGIN, y, pg.textW);
    if level == 1 { Falls(w.items, [Rule(MARGIN, w.y)], y, w.y, w.y + 8); }
  }

  lemma LineFalls(t: seq<Byte>, pg: Page, a: nat, b: nat, inCode: bool, y: int)
    requires a <= b <= |t|
    ensures Falling(Line(t, pg, a, b, inCode, y).items, y, Line(t, pg, a, b, inCode, y).y)
  {
    KindFalls(t, pg, a, b, inCode, y, KindOf(t, a, b, inCode));
  }

  lemma KindFalls(t: seq<Byte>, pg: Page, a: nat, b: nat, inCode: bool, y: int, k: Kind)
    requires a <= b <= |t| && (k.Heading? ==> k.from <= b) && (k.BulletLine? ==> a + 2 <= b)
    ensures Falling(BlockOf(t, pg, a, b, inCode, y, k).items, y, BlockOf(t, pg, a, b, inCode, y, k).y)
  {
    if k.Heading? {
      HeadingFalls(t, pg, k.level, k.from, b, y);
    } else if k.BulletLine? {
      BulletFalls(t, pg, a + 2, b, y);
    } else if k.Paragraph? {
      WrappedFalls(pg.prop, PROP, t, a, b, MARGIN, y, pg.textW);
    }
  }

  lemma BulletFalls(t: seq<Byte>, pg: Page, from: nat, b: nat, y: int)
    requires from <= b <= |t|
    ensures var r := BulletBlock(t, pg, from, b, y); Falling(r.items, y, r.y)
  {
    WrappedFalls(pg.prop, PROP, t, from, b, MARGIN + INDENT, y, pg.textW - INDENT);
    var w := Wrapped(pg.prop, PROP, t, from, b, MARGIN + INDENT, y, pg.textW - INDENT);
    Falls([Disc(MARGIN, y)], w.items, y, y, w.y);
  }

  // One more line keeps the items in order.
  lemma NextFalls(t: seq<Byte>, pg: Page, s: Lay)
    requires s.p < |t| && s.y >= TOP && Falling(s.items, TOP, s.y)
    ensures var n := Next(t, pg, s);
      Falling(n.items, TOP, n.y) && Falling(n.items[|s.items|..], s.y, n.y) && n.y >= TOP
  {
    var e := LineEnd(t, s.p);
    LineFalls(t, pg, s.p, e, s.inCode, s.y);
    var r := Line(t, pg, s.p, e, s.inCode, s.y);
    Falls(s.items, r.items, TOP, s.y, r.y);
    assert (s.items + r.items)[|s.items|..] == r.items;
  }

  /** Items never go up the page, and whatever is still to come is at or below y. */
  lemma {:induction false} ItemsFall(t: seq<Byte>, pg: Page, s: Lay)
    requires s.p <= |t| && s.y >= TOP && Falling(s.items, TOP, s.y)
    ensures var f := Full(t, pg, s);
      Falling(f.items, TOP, f.y) && s.items <= f.items && Falling(f.items[|s.items|..], s.y, f.y) && s.y <= f.y
      && forall i :: |s.items| <= i < |f.items| ==> f.items[i].y >= s.y
    decreases |t| - s.p
  {
    if s.p < |t| {
      NextFalls(t, pg, s);
      var n, f := Next(t, pg, s), Full(t, pg, s);
      ItemsFall(t, pg, n);
      Falls(n.items[|s.items|..], f.items[|n.items|..], s.y, n.y, f.y);
      assert f.items[|s.items|..] == n.items[|s.items|..] + f.items[|n.items|..];
    }
  }

  // ---------- what is on the display list, and what is drawn ----------

  /** The display list holds the first cap items. */
  function Capped(its: seq<Item>, cap: nat): (c: seq<Item>)
    ensures |c| <= cap
  {
    if |its| <= cap then its else its[..cap]
  }

  // Items that are at least partly inside the viewport at a scroll offset.
  function Drawn(its: seq<Item>, offset: int, viewH: int): (ds: seq<Item>) {
    if its == [] then []
    else
      var sy := its[0].y - offset;
      (if sy + LH <= 0 || sy >= viewH then [] else [its[0]]) + Drawn(its[1..], offset, viewH)
  }

  /** An item is drawn exactly when some row of it is inside the viewport, and in its turn. */
  lemma {:induction false} DrawnInTurn(a: seq<Item>, b: seq<Item>, it: Item, offset: int, viewH: int)
    ensures Drawn(a + b, offset, viewH) == Drawn(a, offset, viewH) + Drawn(b, offset, viewH)
    ensures Drawn([it], offset, viewH) == if offset < it.y + 18 && it.y < offset + viewH then [it] else []
    decreases |a|
  {
    assert [it][1..] == [];
    if a == [] {
      assert a + b == b;
    } else {
      assert (a + b)[1..] == a[1..] + b;
      DrawnInTurn(a[1..], b, it, offset, viewH);
    }
  }

  lemma {:induction false} BelowIsNotDrawn(a: seq<Item>, b: seq<Item>, offset: int, viewH: int)
    requires forall i :: 0 <= i < |b| ==> b[i].y >= offset + viewH
    ensures Drawn(a + b, offset, viewH) == Drawn(a, offset, viewH)
    decreases |a| + |b|
  {
    if a != [] {
      assert (a + b)[1..] == a[1..] + b;
      BelowIsNotDrawn(a[1..], b, offset, viewH);
    } else {
      assert a + b == b;
      if b != [] {
        BelowIsNotDrawn(a, b[1..], offset, viewH);
        assert a + b[1..] == b[1..];
      }
    }
  }

  /** The first screen painted early is the first screen of the finished document. */
  lemma FirstScreenIsFinal(t: seq<Byte>, pg: Page, target: int)
    requires target >= pg.viewH
    ensures Drawn(Capped(Upto(t, pg, START, target).items, pg.cap), 0, pg.viewH)
         == Drawn(Capped(Full(t, pg, START).items, pg.cap), 0, pg.viewH)
  {
    var s := Upto(t, pg, START, target);
    UptoFalls(t, pg, START, target);
    ItemsFall(t, pg, s);
    EndIsFull(t, pg, START, target);
    if s.p < |t| { TailNotDrawn(s.items, Full(t, pg, START).items, pg.cap, pg.viewH); }
  }

  lemma TailNotDrawn(a: seq<Item>, b: seq<Item>, cap: nat, viewH: int)
    requires a <= b && forall i :: |a| <= i < |b| ==> b[i].y >= viewH
    ensures Drawn(Capped(a, cap), 0, viewH) == Drawn(Capped(b, cap), 0, viewH)
  {
    var c, d := Capped(a, cap), Capped(b, cap);
    assert d == c + d[|c|..];
    BelowIsNotDrawn(c, d[|c|..], 0, viewH);
  }

  lemma {:induction false} UptoFalls(t: seq<Byte>, pg: Page, s: Lay, target: int)
    requires s.p <= |t| && s.y >= TOP && Falling(s.items, TOP, s.y)
    ensures var u := Upto(t, pg, s, target); u.y >= TOP && Falling(u.items, TOP, u.y)
    decreases |t| - s.p
  {
    if s.p < |t| && s.y < target {
      NextFalls(t, pg, s);
      UptoFalls(t, pg, Next(t, pg, s), target);
    }
  }
}

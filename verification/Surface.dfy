/** One window's backing store and the operations that paint into it: the clipped row store,
    the vector rasterisers, the console renderer and the dirty box that remembers what has
    not yet been copied to the screen. */
module Surface {
  import opened Geometry
  import opened RasterSpec
  import Term = Terminal

  /** A bounding box [x0, x1) x [y0, y1); empty when x1 <= x0. */
  datatype Box = Box(x0: int, y0: int, x1: int, y1: int) {
    predicate Has(a: int, b: int) { x0 <= a < x1 && y0 <= b < y1 }

    predicate Ok(w: int, h: int) {
      x0 < x1 ==> 0 <= x0 && x1 <= w && 0 <= y0 < y1 <= h
    }

    /** The least box of the window holding both this box and the visible part of r. */
    function Grow(r: Rect, w: int, h: int): (d: Box)
      ensures Ok(w, h) ==> d.Ok(w, h)
    {
      var l, t, e, b := Max(r.x, 0), Max(r.y, 0), Min(r.x + r.w, w), Min(r.y + r.h, h);
      if r.w <= 0 || r.h <= 0 || e <= l || b <= t then this
      else if x1 <= x0 then Box(l, t, e, b)
      else Box(Min(l, x0), Min(t, y0), Max(e, x1), Max(b, y1))
    }

    /** Growing keeps every pixel already in the box and takes in every pixel of r ... */
    lemma GrowCovers(r: Rect, w: int, h: int)
      requires Ok(w, h)
      ensures forall a, b :: 0 <= a < w && 0 <= b < h && (Has(a, b) || r.Has(a, b)) ==> Grow(r, w, h).Has(a, b)
    {
    }

    /** ... and no other box that does so is smaller. */
    lemma GrowLeast(r: Rect, w: int, h: int, d: Box)
      requires Ok(w, h)
      requires forall a, b :: 0 <= a < w && 0 <= b < h && (Has(a, b) || r.Has(a, b)) ==> d.Has(a, b)
      ensures forall a, b :: Grow(r, w, h).Has(a, b) ==> d.Has(a, b)
    {
      var n := Grow(r, w, h);
      if n.x0 < n.x1 {
        if x0 < x1 {
          assert Has(x0, y0) && Has(x1 - 1, y1 - 1);
        }
        var l, t, e, b := Max(r.x, 0), Max(r.y, 0), Min(r.x + r.w, w), Min(r.y + r.h, h);
        if l < e && t < b {
          assert r.Has(l, t) && r.Has(e - 1, b - 1);
        }
      }
    }
  }

  /** Every visible pixel of a fill of r comes from the scratch row, not from what follows it. */
  ghost predicate Solid(g: Geo, r: Rect) {
    forall a, b :: g.Content(a, b) && r.Has(a - CONTENT_X, b - CONTENT_Y) ==> a - CONTENT_X - r.x < g.UW()
  }

  /** A fill is one solid colour exactly when its visible part ends within a scratch row's
      length of its left edge. */
  lemma SolidIff(g: Geo, r: Rect)
    requires g.Ok()
    ensures Solid(g, r) <==>
      (Min(r.x + r.w, g.CW()) <= Max(r.x + g.UW(), 0) || Min(r.y + r.h, g.CH()) <= Max(r.y, 0))
  {
    var px, py := Max(r.x + g.UW(), 0), Max(r.y, 0);
    if px < Min(r.x + r.w, g.CW()) && py < Min(r.y + r.h, g.CH()) {
      assert g.Content(px + CONTENT_X, py + CONTENT_Y);
    }
  }

  /** A fill wider than the screen from far left of the window is not solid. */
  lemma WideFillNotSolid()
    ensures SMALL.Ok() && !Solid(SMALL, Rect(-300, 100, 1000, 60))
  {
    SolidIff(SMALL, Rect(-300, 100, 1000, 60));
  }

  /** The frame of a rectangle: its two rows are stored from the scratch row. */
  predicate OnFrame(r: Rect, px: int, py: int) {
    r.Has(px, py) && (px == r.x || px == r.x + r.w - 1 || py == r.y || py == r.y + r.h - 1)
  }

  predicate OnFrameRows(r: Rect, px: int, py: int) {
    r.Has(px, py) && (py == r.y || py == r.y + r.h - 1)
  }

  ghost predicate SolidFrame(g: Geo, r: Rect) {
    forall a, b :: g.Content(a, b) && OnFrameRows(r, a - CONTENT_X, b - CONTENT_Y) ==> a - CONTENT_X - r.x < g.UW()
  }

  /** A frame is one solid colour exactly when neither of its rows is visible, or their visible
      part ends within a scratch row's length of their left end. */
  lemma SolidFrameIff(g: Geo, r: Rect)
    requires g.Ok()
    ensures SolidFrame(g, r) <==>
      || Min(r.x + r.w, g.CW()) <= Max(r.x + g.UW(), 0)
      || r.h <= 0 || !(0 <= r.y < g.CH() || 0 <= r.y + r.h - 1 < g.CH())
  {
    var px := Max(r.x + g.UW(), 0);
    if px < Min(r.x + r.w, g.CW()) && 0 < r.h {
      if 0 <= r.y < g.CH() {
        assert g.Content(px + CONTENT_X, r.y + CONTENT_Y) && OnFrameRows(r, px, r.y);
      } else if 0 <= r.y + r.h - 1 < g.CH() {
        assert g.Content(px + CONTENT_X, r.y + r.h - 1 + CONTENT_Y) && OnFrameRows(r, px, r.y + r.h - 1);
      }
    }
  }

  lemma WideFrameNotSolid()
    ensures SMALL.Ok() && !SolidFrame(SMALL, Rect(-300, 100, 1000, 60))
  {
    SolidFrameIff(SMALL, Rect(-300, 100, 1000, 60));
  }

  /** Every visible pixel of a filled oval comes from the scratch row. */
  ghost predicate SolidOval(g: Geo, c: Point, rx: nat, ry: nat) {
    forall a, b :: g.Content(a, b) && InRows(a - CONTENT_X - c.x, b - CONTENT_Y - c.y, rx, ry) ==>
      a - CONTENT_X - c.x + Reach(rx, b - CONTENT_Y - c.y, rx, ry) < g.UW()
  }

  /** The visible part of a row that reaches h to either side ends within a scratch row's length
      of its left end. */
  predicate SolidRow(g: Geo, c: Point, h: nat) {
    Min(c.x + h + 1, g.CW()) <= Max(c.x - h + g.UW(), 0)
  }

  predicate VisibleRow(g: Geo, c: Point, ry: nat, v: int) {
    Abs(v) <= ry && 0 <= c.y + v < g.CH()
  }

  // A visible row that is not solid has a pixel past the scratch row, and only such a row has one.
  lemma FarPixel(g: Geo, c: Point, rx: nat, ry: nat, v: int)
    requires g.Ok() && 0 < rx && VisibleRow(g, c, ry, v) && !SolidRow(g, c, Reach(rx, v, rx, ry))
    ensures !SolidOval(g, c, rx, ry)
  {
    var px := Max(c.x - Reach(rx, v, rx, ry) + g.UW(), 0);
    assert g.Content(px + CONTENT_X, c.y + v + CONTENT_Y);
    assert InRows(px - c.x, v, rx, ry);
  }

  lemma FarRow(g: Geo, c: Point, rx: nat, ry: nat) returns (v: int)
    requires g.Ok() && 0 < rx && !SolidOval(g, c, rx, ry)
    ensures VisibleRow(g, c, ry, v) && !SolidRow(g, c, Reach(rx, v, rx, ry))
  {
    var a, b :| g.Content(a, b) && InRows(a - CONTENT_X - c.x, b - CONTENT_Y - c.y, rx, ry)
                && a - CONTENT_X - c.x + Reach(rx, b - CONTENT_Y - c.y, rx, ry) >= g.UW();
    v := b - CONTENT_Y - c.y;
  }

  /** A filled oval is one solid colour exactly when each of its visible rows is. */
  lemma OvalSolidIff(g: Geo, c: Point, rx: nat, ry: nat)
    requires g.Ok() && 0 < rx && 0 < ry
    ensures SolidOval(g, c, rx, ry) <==>
      forall v :: VisibleRow(g, c, ry, v) ==> SolidRow(g, c, Reach(rx, v, rx, ry))
  {
    if v :| VisibleRow(g, c, ry, v) && !SolidRow(g, c, Reach(rx, v, rx, ry)) {
      FarPixel(g, c, rx, ry, v);
    } else if !SolidOval(g, c, rx, ry) {
      var _ := FarRow(g, c, rx, ry);
    }
  }

  /** The row nearest to the centre that the content area can show. */
  function NearestRow(g: Geo, c: Point): int { Max(-c.y, Min(0, g.CH() - 1 - c.y)) }

  /** Where the painted rows are the ellipse, the widest visible one decides. */
  lemma EllipseSolidIff(g: Geo, c: Point, rx: nat, ry: nat)
    requires g.Ok() && 0 < rx && 0 < ry && EllipseRight(rx, ry)
    ensures var v := NearestRow(g, c);
            SolidOval(g, c, rx, ry) <==> Abs(v) > ry || SolidRow(g, c, HalfWidth(rx, v, rx, ry))
  {
    OvalSolidIff(g, c, rx, ry);
    var v := NearestRow(g, c);
    forall w | Abs(w) <= ry
      ensures Reach(rx, w, rx, ry) == HalfWidth(rx, w, rx, ry)
    {
      ReachIff(w, rx, ry);
    }
    if Abs(v) <= ry {
      assert VisibleRow(g, c, ry, v);
      forall w | VisibleRow(g, c, ry, w)
        ensures HalfWidth(rx, w, rx, ry) <= HalfWidth(rx, v, rx, ry)
      {
        NearerIsWider(v, w, rx, ry);
      }
    }
  }

  /** An ellipse with small radii that is not. */
  lemma WideOvalNotSolid()
    ensures SMALL.Ok() && 500 * 30 <= 32767 && !SolidOval(SMALL, Point(200, 130), 500, 30)
  {
    SmallIsRight(500, 30);
    HalfWidthIs(500, 0, 500, 30, 500);
    EllipseSolidIff(SMALL, Point(200, 130), 500, 30);
  }

  datatype ShapeKind = RectFill | RectOutline | OvalFill | OvalOutline

  /** A vector request, in content coordinates; text is any ink inside a window rectangle. */
  datatype VecOp =
    | SetColor(index: int)
    | ClearPane
    | Text(area: Rect, ink: (int, int) -> Color)
    | Line(xa: int, ya: int, xb: int, yb: int)
    | Shape(kind: ShapeKind, x: int, y: int, w: int, h: int)
    | Unknown

  datatype PaintOp = Vector(v: VecOp) | Console(buf: seq<int>)

  /** What a window shows and what its next request starts from. */
  datatype Pane = Pane(image: seq<seq<Color>>, col: int, row: int, pen: Color)

  ghost predicate PaneOk(p: Pane, g: Geo) {
    && 0 <= p.col < g.cols && 0 <= p.row < g.rows
    && |p.image| == g.UW() && forall a :: 0 <= a < g.UW() ==> |p.image[a]| == g.UH()
  }

  class Surface {
    const g: Geo
    // The window framebuffer.
    const fb: array2<Color>
    // The scratch row used by the fills, and what follows it in the data segment.
    const scratch: array<Color>
    const beyond: nat -> Color
    // Pixel (i, j) of a character's 8 by 16 cell.
    const glyph: (int, int, int) -> Color

    // Dirty bounding box [x0, x1) x [y0, y1), empty when x1 <= x0.
    var x0: int
    var y0: int
    var x1: int
    var y1: int
    // Text cursor and pen colour.
    var curCol: int
    var curRow: int
    var color: Color

    ghost predicate Wired() {
      g.Ok() && fb.Length0 == g.UW() && fb.Length1 == g.UH() && scratch.Length == g.UW()
    }

    ghost predicate Valid()
      reads this
    {
      Wired()
      && (x0 < x1 ==> 0 <= x0 && x1 <= g.UW() && 0 <= y0 < y1 <= g.UH())
      && 0 <= curCol < g.cols && 0 <= curRow < g.rows
    }

    predicate Dirty(a: int, b: int)
      reads this
    {
      Bounds().Has(a, b)
    }

    // Nothing is waiting to be copied.
    predicate Clean()
      reads this
    {
      x1 <= x0
    }

    // Only content pixels changed, each of them is in the dirty box, and the box only grew.
    twostate predicate Painted()
      requires Wired()
      reads this, fb
    {
      forall a, b :: g.Local(a, b) ==>
        (fb[a, b] != old(fb[a, b]) ==> g.Content(a, b) && Dirty(a, b))
        && (old(Dirty(a, b)) ==> Dirty(a, b))
    }

    function Source(k: nat): Color
      reads scratch
    {
      if k < scratch.Length then scratch[k] else beyond(k)
    }

    constructor (g: Geo, beyond: nat -> Color, glyph: (int, int, int) -> Color)
      requires g.Ok()
      ensures Valid() && this.g == g && fresh(fb) && fresh(scratch)
      ensures Clean()
    {
      this.g := g;
      this.beyond := beyond;
      this.glyph := glyph;
      fb := new Color[g.UW(), g.UH()]((_, _) => 0);
      scratch := new Color[g.UW()](_ => 0);
      x0, y0, x1, y1 := 0, 0, 0, 0;
      curCol, curRow, color := 0, 0, 0;
    }

    // ---------- the dirty box ----------

    function Bounds(): Box
      reads this
    {
      Box(x0, y0, x1, y1)
    }

    method MarkDirty(x: int, y: int, w: int, h: int)
      requires Valid()
      modifies this`x0, this`y0, this`x1, this`y1
      ensures Valid() && Bounds() == old(Bounds()).Grow(Rect(x, y, w, h), g.UW(), g.UH())
    {
      if w <= 0 || h <= 0 { return; }
      var l, t, r, b := Max(x, 0), Max(y, 0), Min(x + w, g.UW()), Min(y + h, g.UH());
      if r <= l || b <= t { return; }
      if x1 <= x0 {
        x0, y0, x1, y1 := l, t, r, b;
      } else {
        x0, y0, x1, y1 := Min(l, x0), Min(t, y0), Max(r, x1), Max(b, y1);
      }
    }

    method ClearDirty()
      requires Valid()
      modifies this`x0, this`y0, this`x1, this`y1
      ensures Valid() && Clean()
    {
      x0, x1, y0, y1 := 0, 0, 0, 0;
    }

    // ---------- rows and pixels ----------

    // Store n bytes of the scratch row at content pixel (x, y), clipped to the content area.
    method BlitRow(y: int, x: int, n: int)
      requires Wired()
      modifies fb
      ensures forall a, b :: g.Local(a, b) ==>
        fb[a, b] == if g.Content(a, b) && b - CONTENT_Y == y && x <= a - CONTENT_X < x + n
                    then Source(a - CONTENT_X - x) else old(fb[a, b])
    {
      if y < 0 || y >= g.CH() { return; }
      if n <= 0 { return; }
      var px, skip, count := x, 0, n;
      if px < 0 {
        if count + px <= 0 { return; }
        skip := -px;
        count := count + px;
        px := 0;
      }
      if px >= g.CW() { return; }
      if px + count > g.CW() { count := g.CW() - px; }
      var row := y + CONTENT_Y;
      forall a | px + CONTENT_X <= a < px + count + CONTENT_X {
        fb[a, row] := Source(skip + a - CONTENT_X - px);
      }
    }

    method SetPixel(x: int, y: int)
      requires Wired()
      modifies fb, scratch
      ensures forall a, b :: g.Local(a, b) ==>
        fb[a, b] == if g.Content(a, b) && a - CONTENT_X == x && b - CONTENT_Y == y
                    then color else old(fb[a, b])
      ensures scratch[0] == color && forall k :: 0 < k < scratch.Length ==> scratch[k] == old(scratch[k])
    {
      scratch[0] := color;
      BlitRow(y, x, 1);
    }

    // Fill the first n bytes of the scratch row, or all of it.
    method PrepScratchRow(n: int)
      requires Wired()
      modifies scratch
      ensures forall k :: 0 <= k < Min(n, g.UW()) ==> scratch[k] == color
    {
      var m := n;
      if m > g.UW() { m := g.UW(); }
      var i := 0;
      while i < m
        invariant 0 <= i && (i <= m || i == 0)
        invariant forall k :: 0 <= k < i ==> scratch[k] == color
      {
        scratch[i] := color;
        i := i + 1;
      }
    }

    // ---------- lines ----------

    method DrawLine(xa: int, ya: int, xb: int, yb: int)
      requires Wired()
      modifies fb, scratch
      ensures forall a, b :: g.Local(a, b) ==>
        fb[a, b] == if g.Content(a, b)
                       && OnLine(xa, ya, xb, yb, LineLength(xa, ya, xb, yb) + 1, Point(a - CONTENT_X, b - CONTENT_Y))
                    then color else old(fb[a, b])
    {
      var dx := if xb > xa then xb - xa else xa - xb;
      var dy := if yb > ya then yb - ya else ya - yb;
      var sx := if xa < xb then 1 else -1;
      var sy := if ya < yb then 1 else -1;
      var pen := Pen.Start(xa, ya, dx, dy);
      ghost var n, k: nat := LineLength(xa, ya, xb, yb), 0;
      while true
        invariant k <= n && pen == PenAt(xa, ya, xb, yb, k)
        invariant forall a, b :: g.Local(a, b) ==>
          fb[a, b] == if g.Content(a, b) && Drawn(xa, ya, xb, yb, k, Point(a - CONTENT_X, b - CONTENT_Y))
                      then color else old(fb[a, b])
        decreases n - k
      {
        SetPixel(pen.x, pen.y);
        assert forall a, b :: g.Local(a, b) ==>
          fb[a, b] == if g.Content(a, b) && Drawn(xa, ya, xb, yb, k + 1, Point(a - CONTENT_X, b - CONTENT_Y))
                      then color else old(fb[a, b])
        by {
          forall p: Point { DrawnGrows(xa, ya, xb, yb, k, p); }
        }
        PenStops(xa, ya, xb, yb, k);
        if pen.x == xb && pen.y == yb { break; }
        pen := pen.Next(dx, dy, sx, sy);
        k := k + 1;
      }
      forall p: Point { DrawnIsLine(xa, ya, xb, yb, p); }
    }

    // ---------- rectangles ----------

    // What a fill of n or more pixels puts k pixels from its left edge: the pen colour as far
    // as the scratch row reaches, then whatever follows the row in the data segment.
    function Staged(k: int): Color
      reads this`color
    {
      StagedBy(color, k)
    }

    function StagedBy(pen: Color, k: int): Color {
      if k < g.UW() || k < 0 then pen else beyond(k)
    }

    method DrawRectFill(x: int, y: int, w: int, h: int)
      requires Wired()
      modifies fb, scratch
      ensures forall a, b :: g.Local(a, b) ==>
        fb[a, b] == if g.Content(a, b) && Rect(x, y, w, h).Has(a - CONTENT_X, b - CONTENT_Y)
                    then Staged(a - CONTENT_X - x) else old(fb[a, b])
    {
      if w <= 0 || h <= 0 { return; }
      PrepScratchRow(w);
      var dy := 0;
      while dy < h
        invariant 0 <= dy <= h
        invariant forall k :: 0 <= k < w ==> Source(k) == Staged(k)
        invariant forall a, b :: g.Local(a, b) ==>
          fb[a, b] == if g.Content(a, b) && Rect(x, y, w, dy).Has(a - CONTENT_X, b - CONTENT_Y)
                      then Staged(a - CONTENT_X - x) else old(fb[a, b])
      {
        BlitRow(y + dy, x, w);
        dy := dy + 1;
      }
    }

    // What content pixel (px, py) shows after r is filled, or its frame drawn.
    function FillBy(r: Rect, pen: Color, px: int, py: int, was: Color): Color {
      if r.Has(px, py) then StagedBy(pen, px - r.x) else was
    }

    function FrameBy(r: Rect, pen: Color, px: int, py: int, was: Color): Color {
      if !OnFrame(r, px, py) then was else if OnFrameRows(r, px, py) then StagedBy(pen, px - r.x) else pen
    }

    method DrawRectOutline(x: int, y: int, w: int, h: int)
      requires Wired()
      modifies fb, scratch
      ensures forall a, b :: g.Local(a, b) ==>
        fb[a, b] == if g.Content(a, b) then FrameBy(Rect(x, y, w, h), color, a - CONTENT_X, b - CONTENT_Y, old(fb[a, b]))
                    else old(fb[a, b])
    {
      if w <= 0 || h <= 0 { return; }
      var bottom, right := y + h - 1, x + w - 1;
      PrepScratchRow(w);
      BlitRow(y, x, w);
      if bottom != y { BlitRow(bottom, x, w); }
      var dy := 1;
      while dy < h - 1
        invariant 1 <= dy && (dy <= h - 1 || dy == 1)
        invariant forall a, b :: g.Local(a, b) ==>
          fb[a, b] == if !(g.Content(a, b) && Rect(x, y, w, h).Has(a - CONTENT_X, b - CONTENT_Y)) then old(fb[a, b])
                      else if b - CONTENT_Y == y || b - CONTENT_Y == bottom then Staged(a - CONTENT_X - x)
                      else if (a - CONTENT_X == x || a - CONTENT_X == right) && b - CONTENT_Y < y + dy then color
                      else old(fb[a, b])
      {
        SetPixel(x, y + dy);
        if right != x { SetPixel(right, y + dy); }
        dy := dy + 1;
      }
    }

    // ---------- ellipses ----------

    // Whether the pixel dx from the centre is in the ellipse, in 32-bit arithmetic.
    method OffsetFits(dx: nat, ry2: int, dyTerm: int, rxy2: int, ghost v: int, ghost rx: nat, ghost ry: nat)
      returns (fits: bool)
      requires ry2 == Word(Square(ry)) && rxy2 == Word(Word(Square(rx)) * Word(Square(ry)))
      requires dyTerm == Word(Word(Square(v)) * Word(Square(rx)))
      ensures fits <==> FitsWord(dx, v, rx, ry)
    {
      var term := Word(Word(Square(dx)) * ry2);
      fits := Word(term + dyTerm) <= rxy2;
    }

    // The largest hx for which every dx up to hx passes the fit test, in 32-bit arithmetic.
    method EllipseHx(v: int, rx: nat, ry: nat, dyTerm: int) returns (hx: nat)
      requires 0 < rx && 0 < ry && Abs(v) <= ry
      requires dyTerm == Word(Word(Square(v)) * Word(Square(rx)))
      ensures hx == Reach(rx, v, rx, ry)
    {
      var ry2, rxy2 := Word(Square(ry)), Word(Word(Square(rx)) * Word(Square(ry)));
      hx := 0;
      var dx := 0;
      while dx <= rx
        invariant 0 <= dx <= rx + 1 && hx == Max(dx - 1, 0) && FitUpTo(dx - 1, v, rx, ry)
      {
        var fits := OffsetFits(dx, ry2, dyTerm, rxy2, v, rx, ry);
        if !fits { break; }
        hx := dx;
        dx := dx + 1;
      }
      ReachIs(rx, v, rx, ry, hx);
    }

    // One row of the ellipse centred at (cx, cy), v rows from the centre.
    method OvalFillScanline(v: int, rx: nat, ry: nat, c: Point) returns (hx: nat)
      requires Wired() && 0 < rx && 0 < ry && Abs(v) <= ry
      modifies fb
      ensures hx == Reach(rx, v, rx, ry)
      ensures forall a, b :: g.Local(a, b) ==>
        fb[a, b] == if g.Content(a, b) && b - CONTENT_Y == c.y + v && Abs(a - CONTENT_X - c.x) <= hx
                    then Source(a - CONTENT_X - (c.x - hx)) else old(fb[a, b])
    {
      var dyTerm := Word(Word(Square(v)) * Word(Square(rx)));
      hx := EllipseHx(v, rx, ry, dyTerm);
      BlitRow(c.y + v, c.x - hx, 2 * hx + 1);
    }

    // All rows of the ellipse, through the scratch row.
    method FillEllipse(rx: nat, ry: nat, c: Point)
      requires Wired() && 0 < rx && 0 < ry
      modifies fb, scratch
      ensures forall a, b :: g.Local(a, b) ==>
        fb[a, b] == if g.Content(a, b) && InRows(a - CONTENT_X - c.x, b - CONTENT_Y - c.y, rx, ry)
                    then Staged(a - CONTENT_X - c.x + Reach(rx, b - CONTENT_Y - c.y, rx, ry))
                    else old(fb[a, b])
    {
      PrepScratchRow(2 * rx + 1);
      var v: int := 0 - ry;
      while v <= ry
        invariant 0 - ry <= v <= ry + 1
        invariant forall k :: 0 <= k < 2 * rx + 1 ==> Source(k) == Staged(k)
        invariant forall a, b :: g.Local(a, b) ==>
          fb[a, b] == if g.Content(a, b) && b - CONTENT_Y - c.y < v && InRows(a - CONTENT_X - c.x, b - CONTENT_Y - c.y, rx, ry)
                      then Staged(a - CONTENT_X - c.x + Reach(rx, b - CONTENT_Y - c.y, rx, ry))
                      else old(fb[a, b])
      {
        var _ := OvalFillScanline(v, rx, ry, c);
        v := v + 1;
      }
    }

    // Where the search is right, the rows are the ellipse.
    method FillOval(rx: nat, ry: nat, c: Point)
      requires Wired() && 0 < rx && 0 < ry
      modifies fb, scratch
      ensures forall a, b :: g.Local(a, b) ==>
        fb[a, b] == if g.Content(a, b) && InRows(a - CONTENT_X - c.x, b - CONTENT_Y - c.y, rx, ry)
                    then Staged(a - CONTENT_X - c.x + Reach(rx, b - CONTENT_Y - c.y, rx, ry))
                    else old(fb[a, b])
      ensures EllipseRight(rx, ry) ==> forall a, b :: g.Local(a, b) ==>
        fb[a, b] == if g.Content(a, b) && InEllipse(a - CONTENT_X - c.x, b - CONTENT_Y - c.y, rx, ry)
                    then Staged(a - CONTENT_X - c.x + HalfWidth(rx, b - CONTENT_Y - c.y, rx, ry))
                    else old(fb[a, b])
    {
      FillEllipse(rx, ry, c);
      if EllipseRight(rx, ry) { RowsAreEllipse(rx, ry); }
    }

    method DrawOvalFill(x: int, y: int, w: int, h: int)
      requires Wired()
      modifies fb, scratch
      // Too thin for a centre pixel: a rectangle.
      ensures w / 2 <= 0 || h / 2 <= 0 ==> forall a, b :: g.Local(a, b) ==>
        fb[a, b] == if g.Content(a, b) && Rect(x, y, w, h).Has(a - CONTENT_X, b - CONTENT_Y)
                    then Staged(a - CONTENT_X - x) else old(fb[a, b])
      // Whatever the radii, the rows that the search on words finds ...
      ensures w / 2 > 0 && h / 2 > 0 ==> forall a, b :: g.Local(a, b) ==>
        fb[a, b] == if g.Content(a, b) && InRows(a - CONTENT_X - (x + w / 2), b - CONTENT_Y - (y + h / 2), w / 2, h / 2)
                    then Staged(a - CONTENT_X - (x + w / 2) + Reach(w / 2, b - CONTENT_Y - (y + h / 2), w / 2, h / 2))
                    else old(fb[a, b])
      // ... and exactly the ellipse where that search is right.
      ensures w / 2 > 0 && h / 2 > 0 && EllipseRight(w / 2, h / 2) ==> forall a, b :: g.Local(a, b) ==>
        fb[a, b] == if g.Content(a, b) && InEllipse(a - CONTENT_X - (x + w / 2), b - CONTENT_Y - (y + h / 2), w / 2, h / 2)
                    then Staged(a - CONTENT_X - (x + w / 2) + HalfWidth(w / 2, b - CONTENT_Y - (y + h / 2), w / 2, h / 2))
                    else old(fb[a, b])
    {
      if w / 2 <= 0 || h / 2 <= 0 {
        DrawRectFill(x, y, w, h);
      } else {
        FillOval(w / 2, h / 2, Point(x + w / 2, y + h / 2));
      }
    }

    static lemma RowsAreEllipse(rx: nat, ry: nat)
      requires 0 < rx && 0 < ry && EllipseRight(rx, ry)
      ensures forall u, v :: InRows(u, v, rx, ry) <==> InEllipse(u, v, rx, ry)
      ensures forall u, v :: OnRowEnds(u, v, rx, ry) <==> OnEllipseEnds(u, v, rx, ry)
      ensures forall u, v :: InRows(u, v, rx, ry) ==> Reach(rx, v, rx, ry) == HalfWidth(rx, v, rx, ry)
    {
      RowsAreEllipseIff(rx, ry);
      forall v | Abs(v) <= ry
        ensures Reach(rx, v, rx, ry) == HalfWidth(rx, v, rx, ry)
      {
        ReachIff(v, rx, ry);
      }
    }

    // The two ends of one row of the ellipse.
    method OvalOutlineScanline(v: int, rx: nat, ry: nat, c: Point) returns (hx: nat)
      requires Wired() && 0 < rx && 0 < ry && Abs(v) <= ry
      modifies fb, scratch
      ensures hx == Reach(rx, v, rx, ry)
      ensures forall a, b :: g.Local(a, b) ==>
        fb[a, b] == if g.Content(a, b) && b - CONTENT_Y == c.y + v && Abs(a - CONTENT_X - c.x) == hx
                    then color else old(fb[a, b])
    {
      var dyTerm := Word(Word(Square(v)) * Word(Square(rx)));
      hx := EllipseHx(v, rx, ry, dyTerm);
      SetPixel(c.x - hx, c.y + v);
      if hx != 0 { SetPixel(c.x + hx, c.y + v); }
    }

    method DrawOvalOutline(x: int, y: int, w: int, h: int)
      requires Wired()
      modifies fb, scratch
      // Too thin for a centre pixel: a frame.
      ensures w / 2 <= 0 || h / 2 <= 0 ==> forall a, b :: g.Local(a, b) ==>
        fb[a, b] == if g.Content(a, b) then FrameBy(Rect(x, y, w, h), color, a - CONTENT_X, b - CONTENT_Y, old(fb[a, b]))
                    else old(fb[a, b])
      ensures w / 2 > 0 && h / 2 > 0 ==> forall a, b :: g.Local(a, b) ==>
        fb[a, b] == if g.Content(a, b) && OnRowEnds(a - CONTENT_X - (x + w / 2), b - CONTENT_Y - (y + h / 2), w / 2, h / 2)
                    then color else old(fb[a, b])
      // Exactly the leftmost and rightmost pixel of every row of the ellipse where the search is right.
      ensures w / 2 > 0 && h / 2 > 0 && EllipseRight(w / 2, h / 2) ==> forall a, b :: g.Local(a, b) ==>
        fb[a, b] == if g.Content(a, b) && OnEllipseEnds(a - CONTENT_X - (x + w / 2), b - CONTENT_Y - (y + h / 2), w / 2, h / 2)
                    then color else old(fb[a, b])
    {
      if w / 2 <= 0 || h / 2 <= 0 {
        DrawRectOutline(x, y, w, h);
      } else {
        OutlineEllipse(w / 2, h / 2, Point(x + w / 2, y + h / 2));
        if EllipseRight(w / 2, h / 2) { RowsAreEllipse(w / 2, h / 2); }
      }
    }

    method OutlineEllipse(rx: nat, ry: nat, c: Point)
      requires Wired() && 0 < rx && 0 < ry
      modifies fb, scratch
      ensures forall a, b :: g.Local(a, b) ==>
        fb[a, b] == if g.Content(a, b) && OnRowEnds(a - CONTENT_X - c.x, b - CONTENT_Y - c.y, rx, ry)
                    then color else old(fb[a, b])
    {
      var v: int := 0 - ry;
      while v <= ry
        invariant 0 - ry <= v <= ry + 1
        invariant forall a, b :: g.Local(a, b) ==>
          fb[a, b] == if g.Content(a, b) && b - CONTENT_Y - c.y < v && OnRowEnds(a - CONTENT_X - c.x, b - CONTENT_Y - c.y, rx, ry)
                      then color else old(fb[a, b])
      {
        var _ := OvalOutlineScanline(v, rx, ry, c);
        v := v + 1;
      }
    }

    // ---------- the console ----------

    function CellCol(a: int): int { (a - CONTENT_X) / 8 }
    function CellRow(b: int): int { (b - CONTENT_Y) / 16 }

    // Pixel (a, b) of the character ch, wherever its cell is.
    function Ink(ch: int, a: int, b: int): Color {
      glyph(ch, (a - CONTENT_X) % 8, (b - CONTENT_Y) % 16)
    }

    // Draw a run of characters at a cell, clipped at the end of the row.
    method FlushStrip(glyphs: seq<int>, cellRow: int, colStart: int)
      requires Valid()
      modifies fb, this`x0, this`y0, this`x1, this`y1
      ensures Valid() && Painted()
      ensures forall a, b :: g.Local(a, b) ==>
        fb[a, b] == if g.Content(a, b) && CellRow(b) == cellRow && 0 <= colStart <= CellCol(a) < colStart + |glyphs|
                    then Ink(glyphs[CellCol(a) - colStart], a, b) else old(fb[a, b])
    {
      var n := |glyphs|;
      if n <= 0 { return; }
      if cellRow < 0 || cellRow >= g.rows { return; }
      if colStart < 0 || colStart >= g.cols { return; }
      if n > g.cols - colStart { n := g.cols - colStart; }
      forall a, b | CONTENT_X + 8 * colStart <= a < CONTENT_X + 8 * (colStart + n)
                    && CONTENT_Y + 16 * cellRow <= b < CONTENT_Y + 16 * (cellRow + 1)
      {
        fb[a, b] := Ink(glyphs[CellCol(a) - colStart], a, b);
      }
      var r := Rect((colStart + 1) * 8, (cellRow + 2) * 16, n * 8, 16);
      ghost var box := Bounds();
      MarkDirty(r.x, r.y, r.w, r.h);
      box.GrowCovers(r, g.UW(), g.UH());
    }

    // Scroll the cell area up by one cell row and clear the last one.
    method ScrollUp()
      requires Valid()
      modifies fb, this`x0, this`y0, this`x1, this`y1
      ensures Valid() && Painted()
      ensures forall a, b :: g.Local(a, b) ==>
        fb[a, b] == if !g.Content(a, b) then old(fb[a, b])
                    else if CellRow(b) + 1 < g.rows then old(fb[a, b + 16])
                    else PANE_BG
    {
      forall a, b | CONTENT_X <= a < CONTENT_X + g.CW() && CONTENT_Y <= b < CONTENT_Y + g.CH() {
        fb[a, b] := if b + 16 < CONTENT_Y + g.CH() then fb[a, b + 16] else PANE_BG;
      }
      ghost var box := Bounds();
      MarkDirty(CONTENT_X, CONTENT_Y, g.CW(), g.CH());
      box.GrowCovers(Rect(CONTENT_X, CONTENT_Y, g.CW(), g.CH()), g.UW(), g.UH());
    }

    // Repaint the cell area in the background colour.
    method Clear()
      requires Valid()
      modifies fb, this`x0, this`y0, this`x1, this`y1
      ensures Valid() && Painted()
      ensures forall a, b :: g.Local(a, b) ==>
        fb[a, b] == if g.Content(a, b) then PANE_BG else old(fb[a, b])
    {
      forall a, b | CONTENT_X <= a < CONTENT_X + g.CW() && CONTENT_Y <= b < CONTENT_Y + g.CH() {
        fb[a, b] := PANE_BG;
      }
      ghost var box := Bounds();
      MarkDirty(CONTENT_X, CONTENT_Y, g.CW(), g.CH());
      box.GrowCovers(Rect(CONTENT_X, CONTENT_Y, g.CW(), g.CH()), g.UW(), g.UH());
    }

    // Bring the row back onto the grid, scrolling once for each row past the end.
    method MaybeScroll(row: int) returns (r: int)
      requires Valid() && row <= g.rows
      modifies fb, this`x0, this`y0, this`x1, this`y1
      ensures Valid() && Painted()
      ensures r == Min(row, g.rows - 1)
      ensures forall a, b :: g.Local(a, b) ==>
        fb[a, b] == if row < g.rows || !g.Content(a, b) then old(fb[a, b])
                    else if CellRow(b) + 1 < g.rows then old(fb[a, b + 16])
                    else PANE_BG
    {
      r := row;
      while r >= g.rows
        invariant Valid() && Painted()
        invariant r == row || (r == g.rows - 1 && row == g.rows)
        invariant forall a, b :: g.Local(a, b) ==>
          fb[a, b] == if r == row || !g.Content(a, b) then old(fb[a, b])
                      else if CellRow(b) + 1 < g.rows then old(fb[a, b + 16])
                      else PANE_BG
      {
        ScrollUp();
        r := r - 1;
      }
    }

    // The framebuffer as a value.
    ghost function Image(): (im: seq<seq<Color>>)
      requires Wired()
      reads fb
      ensures |im| == g.UW() && forall a :: 0 <= a < g.UW() ==> |im[a]| == g.UH()
      ensures forall a, b :: g.Local(a, b) ==> im[a][b] == fb[a, b]
    {
      seq(g.UW(), a requires 0 <= a < g.UW() reads fb =>
        seq(g.UH(), b requires 0 <= b < g.UH() reads fb => fb[a, b]))
    }

    // What pixel (a, b) looks like when its cell shows the given thing; base is the picture
    // that the cells of the initial grid refer to.
    function Look(base: seq<seq<Color>>, cell: Term.Cell, a: int, b: int): Color {
      match cell
      case Glyph(ch) => Ink(ch, a, b)
      case Blank => PANE_BG
      case Was(r, c) =>
        var u, v := CONTENT_X + 8 * c + (a - CONTENT_X) % 8, CONTENT_Y + 16 * r + (b - CONTENT_Y) % 16;
        if 0 <= u < |base| && 0 <= v < |base[u]| then base[u][v] else PANE_BG
    }

    // The cell area, overlaid with a strip that has not been drawn yet, shows the grid.
    ghost predicate Shows(base: seq<seq<Color>>, grid: Term.Grid, strip: seq<int>, row: int, col: int)
      requires Wired()
      requires |grid| == g.rows && forall r :: 0 <= r < g.rows ==> |grid[r]| == g.cols
      reads fb
    {
      forall a, b :: g.Content(a, b) ==>
        Look(base, grid[CellRow(b)][CellCol(a)], a, b) ==
          if CellRow(b) == row && col <= CellCol(a) < col + |strip| then Ink(strip[CellCol(a) - col], a, b)
          else fb[a, b]
    }

    // Draw the pending strip: the grid shows with nothing pending.
    method EndStrip(strip: seq<int>, row: int, col: int, ghost base: seq<seq<Color>>, ghost t: Term.Term)
      requires Valid() && t.Ok(g.cols, g.rows) && 0 <= col
      requires Shows(base, t.grid, strip, row, col)
      modifies this`x0, this`y0, this`x1, this`y1, fb
      ensures Valid() && Painted()
      ensures forall r, c :: Shows(base, t.grid, [], r, c)
    {
      FlushStrip(strip, row, col);
    }

    // Go to the next row, scrolling if need be.
    method NextLine(row: int, ghost base: seq<seq<Color>>, ghost t: Term.Term) returns (r: int)
      requires Valid() && t.Ok(g.cols, g.rows) && t.row == row
      requires Shows(base, t.grid, [], 0, 0)
      modifies this`x0, this`y0, this`x1, this`y1, fb
      ensures Valid() && Painted()
      ensures var t' := Term.NextRow(t, 0, g.cols);
              t'.Ok(g.cols, g.rows) && r == t'.row && forall r, c :: Shows(base, t'.grid, [], r, c)
    {
      ghost var grid' := Term.NextRow(t, 0, g.cols).grid;
      r := MaybeScroll(row + 1);
      if row + 1 >= g.rows {
        forall a, b | g.Content(a, b)
          ensures Look(base, grid'[CellRow(b)][CellCol(a)], a, b) == fb[a, b]
        {
          if CellRow(b) + 1 < g.rows {
            RowBelow(base, t.grid[CellRow(b) + 1][CellCol(a)], a, b);
          }
        }
      }
    }

    // The same cell one row further down.
    lemma RowBelow(base: seq<seq<Color>>, cell: Term.Cell, a: int, b: int)
      ensures CellRow(b + 16) == CellRow(b) + 1
      ensures Look(base, cell, a, b + 16) == Look(base, cell, a, b)
    {
      assert (b + 16 - CONTENT_Y) % 16 == (b - CONTENT_Y) % 16;
    }

    // Draw a blank at the cursor.
    method Erase(row: int, col: int, ghost base: seq<seq<Color>>, ghost t: Term.Term)
      requires Valid() && t.Ok(g.cols, g.rows) && t.row == row && 0 <= col < g.cols
      requires Shows(base, t.grid, [], 0, 0)
      modifies this`x0, this`y0, this`x1, this`y1, fb
      ensures Valid() && Painted()
      ensures forall r, c :: Shows(base, Term.Put(t.grid, row, col, Term.Glyph(Term.SPACE)), [], r, c)
    {
      FlushStrip([Term.SPACE], row, col);
    }

    // Add a printable character to the pending strip, ending the strip where the row ends.
    method AppendGlyph(ch: int, strip: seq<int>, row: int, stripCol: int, ghost base: seq<seq<Color>>, ghost t: Term.Term)
      returns (strip': seq<int>, row': int, stripCol': int)
      requires Valid() && t.Ok(g.cols, g.rows) && t.row == row && Term.Printable(ch)
      requires 0 <= stripCol && stripCol + |strip| == t.col
      requires Shows(base, t.grid, strip, row, stripCol)
      modifies this`x0, this`y0, this`x1, this`y1, fb
      ensures Valid() && Painted()
      ensures var t' := Term.Step(t, ch, g.cols);
              && t'.row == row' && 0 <= stripCol' && stripCol' + |strip'| == t'.col
              && Shows(base, t'.grid, strip', row', stripCol')
    {
      ghost var t1 := t.(grid := Term.Put(t.grid, t.row, t.col, Term.Glyph(ch)));
      assert Shows(base, t1.grid, strip + [ch], row, stripCol);
      if stripCol + |strip| + 1 >= g.cols {
        EndStrip(strip + [ch], row, stripCol, base, t1);
        row' := NextLine(row, base, t1);
        strip', stripCol' := [], 0;
      } else {
        strip', row', stripCol' := strip + [ch], row, stripCol;
      }
    }

    // Handle one character: the pending strip, its place and the cursor column after it.
    method RenderChar(ch: int, strip: seq<int>, row: int, stripCol: int, ghost base: seq<seq<Color>>, ghost t: Term.Term)
      returns (strip': seq<int>, row': int, stripCol': int)
      requires Valid() && t.Ok(g.cols, g.rows) && t.row == row
      requires 0 <= stripCol && stripCol + |strip| == t.col
      requires Shows(base, t.grid, strip, row, stripCol)
      modifies this`x0, this`y0, this`x1, this`y1, fb
      ensures Valid() && Painted()
      ensures var t' := Term.Step(t, ch, g.cols);
              && t'.row == row' && 0 <= stripCol' && stripCol' + |strip'| == t'.col
              && Shows(base, t'.grid, strip', row', stripCol')
    {
      var col := stripCol + |strip|;
      strip', row', stripCol' := [], row, 0;
      if ch == Term.NEWLINE {
        EndStrip(strip, row, stripCol, base, t);
        row' := NextLine(row, base, t);
      } else if ch == Term.RETURN {
        EndStrip(strip, row, stripCol, base, t);
      } else if ch == Term.BACKSPACE {
        EndStrip(strip, row, stripCol, base, t);
        if col > 0 { col := col - 1; }
        Erase(row, col, base, t);
        stripCol' := col;
      } else if !Term.Printable(ch) {
        EndStrip(strip, row, stripCol, base, t);
        if col + 1 >= g.cols {
          row' := NextLine(row, base, t);
        } else {
          stripCol' := col + 1;
        }
      } else {
        strip', row', stripCol' := AppendGlyph(ch, strip, row, stripCol, base, t);
      }
    }

    // Render a console write.  Runs of printable characters are gathered into strips; control
    // characters, other bytes and the end of a row end a strip.
    method RenderBuffer(buf: seq<int>)
      requires Valid()
      modifies this`x0, this`y0, this`x1, this`y1, this`curCol, this`curRow, fb
      ensures Valid() && Painted()
      ensures var t := Term.Run(Term.Fresh(g.cols, g.rows, old(curCol), old(curRow)), buf, g.cols);
              curCol == t.col && curRow == t.row && Shows(old(Image()), t.grid, [], 0, 0)
    {
      ghost var base, start := Image(), Term.Fresh(g.cols, g.rows, curCol, curRow);
      var strip: seq<int>, row, stripCol := [], curRow, curCol;
      FreshShows(curCol, curRow);
      var i := 0;
      while i < |buf|
        invariant 0 <= i <= |buf| && Valid() && Painted()
        invariant var t := Term.Run(start, buf[..i], g.cols);
                  && t.row == row && 0 <= stripCol && stripCol + |strip| == t.col
                  && Shows(base, t.grid, strip, row, stripCol)
      {
        assert buf[..i + 1][..i] == buf[..i];
        strip, row, stripCol := RenderChar(buf[i], strip, row, stripCol, base, Term.Run(start, buf[..i], g.cols));
        i := i + 1;
      }
      assert buf[..i] == buf;
      EndStrip(strip, row, stripCol, base, Term.Run(start, buf, g.cols));
      curCol, curRow := stripCol + |strip|, row;
    }

    // At first every cell shows what it shows.
    lemma FreshShows(col: int, row: int)
      requires Wired()
      ensures Shows(Image(), Term.Fresh(g.cols, g.rows, col, row).grid, [], row, col)
    {
      var base, grid := Image(), Term.Fresh(g.cols, g.rows, col, row).grid;
      forall a, b | g.Content(a, b)
        ensures Look(base, grid[CellRow(b)][CellCol(a)], a, b) == fb[a, b]
      {
        assert grid[CellRow(b)][CellCol(a)] == Term.Was(CellRow(b), CellCol(a));
        assert CONTENT_X + 8 * CellCol(a) + (a - CONTENT_X) % 8 == a;
        assert CONTENT_Y + 16 * CellRow(b) + (b - CONTENT_Y) % 16 == b;
        assert base[a][b] == fb[a, b];
      }
    }

    // ---------- requests from the window's client ----------

    // Paint arbitrary ink inside a rectangle of the window.
    method Stamp(area: Rect, ink: (int, int) -> Color)
      requires Wired()
      modifies fb
      ensures forall a, b :: g.Local(a, b) ==>
        fb[a, b] == if area.Has(a, b) then ink(a, b) else old(fb[a, b])
    {
      var l, t := Max(area.x, 0), Max(area.y, 0);
      var r, e := Min(area.x + area.w, g.UW()), Min(area.y + area.h, g.UH());
      forall a, b | l <= a < r && t <= b < e {
        fb[a, b] := ink(a, b);
      }
    }

    // Cursor home and pen black.
    predicate Home()
      reads this
    {
      curCol == 0 && curRow == 0 && color == PEN_BLACK
    }

    // A new window's store is all zero, its cursor home and its pen black.
    method Wipe()
      requires Valid()
      modifies fb, this`curCol, this`curRow, this`color
      ensures Valid() && Home()
      ensures forall a, b :: g.Local(a, b) ==> fb[a, b] == 0
    {
      forall a, b | 0 <= a < g.UW() && 0 <= b < g.UH() {
        fb[a, b] := 0;
      }
      curCol, curRow, color := 0, 0, PEN_BLACK;
    }

    // Paint part of a picture of the window.
    method StampPicture(area: Rect, picture: seq<seq<Color>>)
      requires Wired() && area.Inside(g.UW(), g.UH())
      requires |picture| == g.UW() && forall a :: 0 <= a < g.UW() ==> |picture[a]| == g.UH()
      modifies fb
      ensures forall a, b :: g.Local(a, b) ==>
        fb[a, b] == if area.Has(a, b) then picture[a][b] else old(fb[a, b])
    {
      forall a, b | area.x <= a < area.x + area.w && area.y <= b < area.y + area.h {
        fb[a, b] := picture[a][b];
      }
    }

    // Note that a rectangle of the window has been painted.
    method Touch(area: Rect)
      requires Valid()
      modifies this`x0, this`y0, this`x1, this`y1
      ensures Valid()
      ensures forall a, b :: g.Local(a, b) && (old(Dirty(a, b)) || area.Has(a, b)) ==> Dirty(a, b)
    {
      ghost var box := Bounds();
      MarkDirty(area.x, area.y, area.w, area.h);
      box.GrowCovers(area, g.UW(), g.UH());
    }

    // What window pixel (a, b) shows after a shape, at content pixel (px, py).
    ghost function ShapeShown(kind: ShapeKind, r: Rect, pen: Color, px: int, py: int, was: Color): Color {
      var rx, ry := r.w / 2, r.h / 2;
      var u, v := px - (r.x + rx), py - (r.y + ry);
      match kind
      case RectFill => FillBy(r, pen, px, py, was)
      case RectOutline => FrameBy(r, pen, px, py, was)
      case OvalFill =>
        if rx <= 0 || ry <= 0 then FillBy(r, pen, px, py, was)
        else if InRows(u, v, rx, ry) then StagedBy(pen, u + Reach(rx, v, rx, ry)) else was
      case OvalOutline =>
        if rx <= 0 || ry <= 0 then FrameBy(r, pen, px, py, was)
        else if OnRowEnds(u, v, rx, ry) then pen else was
    }

    // What window pixel (a, b) shows after a vector request.
    ghost function VectorShown(op: VecOp, pen: Color, a: int, b: int, was: Color): Color {
      if !g.Content(a, b) then was
      else
        var px, py := a - CONTENT_X, b - CONTENT_Y;
        match op
        case SetColor(_) => was
        case ClearPane => PANE_BG
        case Text(area, ink) => if area.Has(a, b) then ink(a, b) else was
        case Line(xa, ya, xb, yb) =>
          if OnLine(xa, ya, xb, yb, LineLength(xa, ya, xb, yb) + 1, Point(px, py)) then pen else was
        case Shape(kind, x, y, w, h) => ShapeShown(kind, Rect(x, y, w, h), pen, px, py, was)
        case Unknown => was
    }

    function PenAfter(op: VecOp, pen: Color): Color {
      if op.SetColor? then Max(0, Min(op.index, 255)) else pen
    }

    ghost function Contents(): (p: Pane)
      requires Wired()
      reads this`curCol, this`curRow, this`color, fb
    {
      Pane(Image(), curCol, curRow, color)
    }

    // The terminal that a console request leaves, started on a pane.
    function TermAfter(p: Pane, buf: seq<int>): (t: Term.Term)
      requires g.Ok() && PaneOk(p, g)
      ensures t.Ok(g.cols, g.rows)
    {
      Term.Run(Term.Fresh(g.cols, g.rows, p.col, p.row), buf, g.cols)
    }

    ghost function VectorImage(p: Pane, op: VecOp): (im: seq<seq<Color>>)
      requires g.Ok() && PaneOk(p, g)
      ensures |im| == g.UW() && forall a :: 0 <= a < g.UW() ==> |im[a]| == g.UH()
      ensures forall a, b :: g.Local(a, b) ==> im[a][b] == VectorShown(op, p.pen, a, b, p.image[a][b])
    {
      seq(g.UW(), a requires 0 <= a < g.UW() =>
        seq(g.UH(), b requires 0 <= b < g.UH() => VectorShown(op, p.pen, a, b, p.image[a][b])))
    }

    ghost function TermImage(p: Pane, t: Term.Term): (im: seq<seq<Color>>)
      requires g.Ok() && PaneOk(p, g) && t.Ok(g.cols, g.rows)
      ensures |im| == g.UW() && forall a :: 0 <= a < g.UW() ==> |im[a]| == g.UH()
      ensures forall a, b :: g.Local(a, b) ==>
        im[a][b] == if g.Content(a, b) then Look(p.image, t.grid[CellRow(b)][CellCol(a)], a, b) else p.image[a][b]
    {
      seq(g.UW(), a requires 0 <= a < g.UW() =>
        seq(g.UH(), b requires 0 <= b < g.UH() =>
          if g.Content(a, b) then Look(p.image, t.grid[CellRow(b)][CellCol(a)], a, b) else p.image[a][b]))
    }

    // What a request makes of a pane: vector requests by the geometry of their shapes, console
    // requests by the terminal that works one character at a time.
    ghost function After(p: Pane, op: PaintOp): (r: Pane)
      requires g.Ok() && PaneOk(p, g)
      ensures PaneOk(r, g)
    {
      match op
      case Vector(v) => Pane(VectorImage(p, v), p.col, p.row, PenAfter(v, p.pen))
      case Console(buf) => var t := TermAfter(p, buf); Pane(TermImage(p, t), t.col, t.row, p.pen)
    }

    ghost function AfterAll(p: Pane, ops: seq<PaintOp>): (r: Pane)
      requires g.Ok() && PaneOk(p, g)
      ensures PaneOk(r, g)
    {
      if ops == [] then p else After(AfterAll(p, ops[..|ops| - 1]), ops[|ops| - 1])
    }

    // Pictures with the same pixels are the same.
    lemma ImageIs(im: seq<seq<Color>>)
      requires Wired() && |im| == g.UW() && forall a :: 0 <= a < g.UW() ==> |im[a]| == g.UH()
      requires forall a, b :: g.Local(a, b) ==> fb[a, b] == im[a][b]
      ensures Image() == im
    {
      forall a | 0 <= a < g.UW()
        ensures Image()[a] == im[a]
      {
        forall b | 0 <= b < g.UH()
          ensures Image()[a][b] == im[a][b]
        {
          assert g.Local(a, b);
        }
      }
    }

    method DrawShape(kind: ShapeKind, x: int, y: int, w: int, h: int)
      requires Wired()
      modifies fb, scratch
      ensures forall a, b :: g.Local(a, b) ==>
        fb[a, b] == VectorShown(Shape(kind, x, y, w, h), color, a, b, old(fb[a, b]))
    {
      match kind {
        case RectFill => DrawRectFill(x, y, w, h);
        case RectOutline => DrawRectOutline(x, y, w, h);
        case OvalFill => DrawOvalFill(x, y, w, h);
        case OvalOutline => DrawOvalOutline(x, y, w, h);
      }
    }

    // A shape stays within its rectangle, widened by a pixel: an ellipse of even width is one
    // pixel wider than its box.
    lemma ShapeInBox(kind: ShapeKind, r: Rect, pen: Color, px: int, py: int, was: Color)
      requires ShapeShown(kind, r, pen, px, py, was) != was
      ensures Rect(r.x - 1, r.y - 1, r.w + 2, r.h + 2).Has(px, py)
    {
    }

    method PaintShape(kind: ShapeKind, x: int, y: int, w: int, h: int)
      requires Valid()
      modifies this`x0, this`y0, this`x1, this`y1, fb, scratch
      ensures Valid() && Painted()
      ensures forall a, b :: g.Local(a, b) ==>
        fb[a, b] == VectorShown(Shape(kind, x, y, w, h), color, a, b, old(fb[a, b]))
    {
      DrawShape(kind, x, y, w, h);
      Touch(Rect(x + CONTENT_X - 1, y + CONTENT_Y - 1, w + 2, h + 2));
      forall a, b | g.Local(a, b) && fb[a, b] != old(fb[a, b])
        ensures Rect(x + CONTENT_X - 1, y + CONTENT_Y - 1, w + 2, h + 2).Has(a, b)
      {
        ShapeInBox(kind, Rect(x, y, w, h), color, a - CONTENT_X, b - CONTENT_Y, old(fb[a, b]));
      }
    }

    method PaintLine(xa: int, ya: int, xb: int, yb: int)
      requires Valid()
      modifies this`x0, this`y0, this`x1, this`y1, fb, scratch
      ensures Valid() && Painted()
      ensures forall a, b :: g.Local(a, b) ==>
        fb[a, b] == VectorShown(Line(xa, ya, xb, yb), color, a, b, old(fb[a, b]))
    {
      DrawLine(xa, ya, xb, yb);
      var area := Rect(Min(xa, xb) + CONTENT_X, Min(ya, yb) + CONTENT_Y, Abs(xb - xa) + 1, Abs(yb - ya) + 1);
      Touch(area);
      forall p: Point | OnLine(xa, ya, xb, yb, LineLength(xa, ya, xb, yb) + 1, p)
        ensures area.Has(p.x + CONTENT_X, p.y + CONTENT_Y)
      {
        var k: nat :| k < LineLength(xa, ya, xb, yb) + 1 && LineAt(xa, ya, xb, yb, k) == p;
        LineInBox(xa, ya, xb, yb, k);
      }
    }

    // One vector request: paint, then mark the rectangle that was painted.
    method VectorWrite(op: VecOp)
      requires Valid()
      modifies this`x0, this`y0, this`x1, this`y1, this`color, fb, scratch
      ensures Valid() && Painted() && color == PenAfter(op, old(color))
      ensures forall a, b :: g.Local(a, b) ==> fb[a, b] == VectorShown(op, old(color), a, b, old(fb[a, b]))
    {
      match op
      case SetColor(index) =>
        color := if index < 0 then 0 else if index > 255 then 255 else index;
      case ClearPane =>
        Clear();
      case Text(area, ink) =>
        Stamp(Meet(area, Rect(CONTENT_X, CONTENT_Y, g.CW(), g.CH())), ink);
        Touch(area);
      case Line(xa, ya, xb, yb) =>
        PaintLine(xa, ya, xb, yb);
      case Shape(kind, x, y, w, h) =>
        PaintShape(kind, x, y, w, h);
      case Unknown =>
    }

    method Paint(op: PaintOp)
      requires Valid()
      modifies this`x0, this`y0, this`x1, this`y1, this`color, this`curCol, this`curRow, fb, scratch
      ensures Valid() && Painted() && Contents() == After(old(Contents()), op)
    {
      ghost var before := Contents();
      match op
      case Vector(v) =>
        VectorWrite(v);
        ImageIs(VectorImage(before, v));
      case Console(buf) =>
        RenderBuffer(buf);
        ImageIs(TermImage(before, TermAfter(before, buf)));
    }
  }
}

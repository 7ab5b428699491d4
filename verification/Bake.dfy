/** Baking bitmap glyphs into fixed cells, placed by baseline, or fitted to their ink. */
module Bake {
  import opened Arith
  import opened Font

  /** Advance, ink box (width, height, offset of its left edge and of its bottom from the
      baseline), and the scanlines: their value and length in bytes. */
  datatype Glyph = Glyph(dwidth: int, w: int, h: int, xoff: int, yoff: int, rows: seq<(nat, nat)>)

  /** The cell glyphs are placed in: size, row of the baseline, shift to the right. */
  datatype Frame = Frame(cellW: nat, cellH: nat, baseline: int, shift: int)

  // Whether source pixel (sx, sy) is set.
  predicate SrcBit(g: Glyph, sx: int, sy: int) {
    0 <= sy < |g.rows| && 0 <= sx < g.rows[sy].1 * 8 && Bit(g.rows[sy].0, g.rows[sy].1 * 8 - 1 - sx)
  }

  // Ink inside the glyph's box.
  predicate Ink(g: Glyph, sx: int, sy: int) {
    0 <= sx < g.w && 0 <= sy < g.h && SrcBit(g, sx, sy)
  }

  function CellX(g: Glyph, fr: Frame, sx: int): int { fr.shift + g.xoff + sx }
  function CellY(g: Glyph, fr: Frame, sy: int): int { fr.baseline - (g.yoff + g.h) + sy }

  predicate InCell(fr: Frame, x: int, y: int) {
    0 <= x < fr.cellW && 0 <= y < fr.cellH
  }

  /** Cell pixel (x, y) shows the source pixel that lies there. */
  predicate Shows(g: Glyph, fr: Frame, x: int, y: int) {
    Ink(g, x - fr.shift - g.xoff, y - fr.baseline + (g.yoff + g.h))
  }

  /** Some ink lies outside the cell. */
  ghost predicate Clips(g: Glyph, fr: Frame) {
    exists sx, sy :: Out(g, fr, sx, sy)
  }

  // ---------- setting bits ----------

  function SetBit(v: nat, k: nat): (r: nat) {
    if Bit(v, k) then v else v + Pow2(k)
  }

  // A multiple of two powers of 2 plus a remainder, read above and below.
  lemma SplitAt(v: nat, k: nat)
    ensures v == (v / Pow2(k)) * Pow2(k) + v % Pow2(k)
    ensures 0 <= v % Pow2(k) < Pow2(k)
  {
  }

  // Setting bit k changes bit k only ...
  lemma SetBitIs(v: nat, k: nat, j: nat)
    ensures Bit(SetBit(v, k), j) <==> j == k || Bit(v, j)
  {
    if !Bit(v, k) {
      if j < k {
        SetLower(v, k, j);
      } else if j == k {
        SetAbove(v, k);
      } else {
        SetHigher(v, k, j);
      }
    }
  }

  lemma SetLower(v: nat, k: nat, j: nat)
    requires j < k
    ensures Bit(v + Pow2(k), j) == Bit(v, j)
  {
    SetBelow(v, k, j);
    SameParity(v / Pow2(j), Pow2(k - j - 1));
  }

  lemma SameParity(q: int, m: int)
    ensures (q + 2 * m) % 2 == q % 2
  {
  }

  lemma SetHigher(v: nat, k: nat, j: nat)
    requires !Bit(v, k) && k < j
    ensures (v + Pow2(k)) / Pow2(j) == v / Pow2(j)
  {
    SetAbove(v, k);
    SameAbove(v, k, j);
  }

  // The bits above k + 1 of numbers that agree from bit k + 1 on.
  lemma SameAbove(v: nat, k: nat, j: nat)
    requires j > k && (v + Pow2(k)) / Pow2(k + 1) == v / Pow2(k + 1)
    ensures (v + Pow2(k)) / Pow2(j) == v / Pow2(j)
  {
    Shifts(v, k + 1, j - k - 1);
    Shifts(v + Pow2(k), k + 1, j - k - 1);
  }

  lemma SetBelow(v: nat, k: nat, j: nat)
    requires j < k
    ensures (v + Pow2(k)) / Pow2(j) == v / Pow2(j) + 2 * Pow2(k - j - 1)
  {
    var p, m := Pow2(j), Pow2(k - j - 1);
    Pow2Add(j, k - j);
    assert Pow2(k - j) == 2 * m;
    SplitAt(v, j);
    var q := v / p;
    assert (q + 2 * m) * p == q * p + p * (2 * m);
    QuotientIs(v + Pow2(k), p, q + 2 * m);
  }

  lemma SetAbove(v: nat, k: nat)
    requires !Bit(v, k)
    ensures (v + Pow2(k)) / Pow2(k) == v / Pow2(k) + 1
    ensures (v + Pow2(k)) / Pow2(k + 1) == v / Pow2(k + 1)
  {
    var p := Pow2(k);
    SplitAt(v, k);
    var q, r := v / p, v % p;
    assert (q + 1) * p == q * p + p;
    QuotientIs(v + p, p, q + 1);
    var h := q / 2;
    assert q == 2 * h;
    assert q * p == h * (2 * p);
    assert Pow2(k + 1) == 2 * p;
    QuotientIs(v, 2 * p, h);
    QuotientIs(v + p, 2 * p, h);
  }

  // ... and keeps a row within its width.
  lemma SetBitFits(v: nat, k: nat, n: nat)
    requires k < n && v < Pow2(n)
    ensures SetBit(v, k) < Pow2(n)
  {
    if !Bit(v, k) {
      SetAbove(v, k);
      SameAbove(v, k, n);
      QuotientIs(v, Pow2(n), 0);
      Floor(v + Pow2(k), Pow2(n));
    }
  }

  lemma NoBits(j: nat)
    ensures !Bit(0, j)
  {
    QuotientIs(0, Pow2(j), 0);
  }

  // ---------- one glyph ----------

  /** Pixel x of a row w pixels wide; nothing outside. */
  predicate Pixel(row: nat, w: nat, x: int) {
    0 <= x < w && Bit(row, w - 1 - x)
  }

  function SetPixel(row: nat, w: nat, x: int): nat
    requires 0 <= x < w
  {
    SetBit(row, w - 1 - x)
  }

  lemma SetPixelIs(row: nat, w: nat, x: int)
    requires 0 <= x < w && row < Pow2(w)
    ensures SetPixel(row, w, x) < Pow2(w)
    ensures forall a :: Pixel(SetPixel(row, w, x), w, a) <==> a == x || Pixel(row, w, a)
  {
    SetBitFits(row, w - 1 - x, w);
    forall a | 0 <= a < w
      ensures Pixel(SetPixel(row, w, x), w, a) <==> a == x || Pixel(row, w, a)
    {
      SetBitIs(row, w - 1 - x, w - 1 - a);
    }
  }

  ghost predicate Narrow(rows: seq<nat>, w: nat) {
    forall y :: 0 <= y < |rows| ==> rows[y] < Pow2(w)
  }

  /** The rows of a cell show the glyph's ink, pixel by pixel. */
  ghost predicate CellShows(rows: seq<nat>, g: Glyph, fr: Frame) {
    |rows| == fr.cellH && Narrow(rows, fr.cellW)
    && forall x, y :: InCell(fr, x, y) ==> (Pixel(rows[y], fr.cellW, x) <==> Shows(g, fr, x, y))
  }

  // Source pixel (sx, sy) is ink that falls outside the cell.
  predicate Out(g: Glyph, fr: Frame, sx: int, sy: int) {
    Ink(g, sx, sy) && !InCell(fr, CellX(g, fr, sx), CellY(g, fr, sy))
  }

  // What scanline sy, up to source column `end`, makes of a row.
  ghost predicate Drawn(was: nat, now: nat, g: Glyph, fr: Frame, sy: int, end: int) {
    forall x :: 0 <= x < fr.cellW ==>
      (Pixel(now, fr.cellW, x) <==> Pixel(was, fr.cellW, x) || (x - fr.shift - g.xoff < end && Ink(g, x - fr.shift - g.xoff, sy)))
  }

  // One scanline of a glyph, into the row it falls on.
  method PutScanline(g: Glyph, fr: Frame, sy: int, rows: array<nat>, clip: bool) returns (clip': bool)
    requires rows.Length == fr.cellH && 0 <= sy < g.h && Narrow(rows[..], fr.cellW)
    modifies rows
    ensures Narrow(rows[..], fr.cellW)
    ensures forall y :: 0 <= y < fr.cellH && y != CellY(g, fr, sy) ==> rows[y] == old(rows[y])
    ensures 0 <= CellY(g, fr, sy) < fr.cellH ==> Drawn(old(rows[CellY(g, fr, sy)]), rows[CellY(g, fr, sy)], g, fr, sy, g.w)
    ensures clip' <==> clip || exists sx :: Out(g, fr, sx, sy)
  {
    clip' := clip;
    var cy, sx := CellY(g, fr, sy), 0;
    while sx < g.w
      invariant 0 <= sx && (sx <= g.w || sx == 0) && Narrow(rows[..], fr.cellW)
      invariant forall y :: 0 <= y < fr.cellH && y != cy ==> rows[y] == old(rows[y])
      invariant 0 <= cy < fr.cellH ==> Drawn(old(rows[cy]), rows[cy], g, fr, sy, sx)
      invariant clip' <==> clip || exists s :: 0 <= s < sx && Out(g, fr, s, sy)
    {
      if SrcBit(g, sx, sy) {
        var cx := CellX(g, fr, sx);
        assert Ink(g, sx, sy);
        if InCell(fr, cx, cy) {
          SetPixelIs(rows[cy], fr.cellW, cx);
          rows[cy] := SetPixel(rows[cy], fr.cellW, cx);
        } else {
          assert Out(g, fr, sx, sy);
          clip' := true;
        }
      }
      sx := sx + 1;
    }
  }

  // The scanlines before sy have been drawn.
  ghost predicate DrawnTo(rows: seq<nat>, g: Glyph, fr: Frame, sy: int) {
    |rows| == fr.cellH && Narrow(rows, fr.cellW)
    && forall x, y :: InCell(fr, x, y) ==>
      (Pixel(rows[y], fr.cellW, x) <==> y - fr.baseline + (g.yoff + g.h) < sy && Shows(g, fr, x, y))
  }

  lemma NextScanline(was: seq<nat>, now: seq<nat>, g: Glyph, fr: Frame, sy: int)
    requires DrawnTo(was, g, fr, sy) && |now| == fr.cellH && Narrow(now, fr.cellW) && 0 <= sy < g.h
    requires forall y :: 0 <= y < fr.cellH && y != CellY(g, fr, sy) ==> now[y] == was[y]
    requires 0 <= CellY(g, fr, sy) < fr.cellH ==> Drawn(was[CellY(g, fr, sy)], now[CellY(g, fr, sy)], g, fr, sy, g.w)
    ensures DrawnTo(now, g, fr, sy + 1)
  {
    forall x, y | InCell(fr, x, y)
      ensures Pixel(now[y], fr.cellW, x) <==> y - fr.baseline + (g.yoff + g.h) < sy + 1 && Shows(g, fr, x, y)
    {
      assert Pixel(was[y], fr.cellW, x) <==> y - fr.baseline + (g.yoff + g.h) < sy && Shows(g, fr, x, y);
    }
  }

  /** Bake one glyph: its cell, and whether ink was clipped. */
  method BakeGlyph(g: Glyph, fr: Frame) returns (cell: seq<nat>, clip: bool)
    ensures CellShows(cell, g, fr) && (clip <==> Clips(g, fr))
  {
    var rows := new nat[fr.cellH](_ => 0);
    clip := false;
    Blank(rows[..], g, fr);
    var sy := 0;
    while sy < g.h
      invariant 0 <= sy && (sy <= g.h || sy == 0) && DrawnTo(rows[..], g, fr, sy)
      invariant clip <==> exists s, t :: t < sy && Out(g, fr, s, t)
    {
      ghost var was := rows[..];
      clip := PutScanline(g, fr, sy, rows, clip);
      NextScanline(was, rows[..], g, fr, sy);
      sy := sy + 1;
    }
    cell := rows[..];
    assert forall s, t :: Ink(g, s, t) ==> t < sy;
    assert clip <==> exists s, t :: Out(g, fr, s, t);
  }

  lemma Blank(rows: seq<nat>, g: Glyph, fr: Frame)
    requires |rows| == fr.cellH && forall y :: 0 <= y < |rows| ==> rows[y] == 0
    ensures DrawnTo(rows, g, fr, 0)
  {
    forall x, y | InCell(fr, x, y)
      ensures !Pixel(rows[y], fr.cellW, x)
    {
      NoBits(fr.cellW - 1 - x);
    }
  }

  // ---------- auto-fit ----------

  function Lo(a: int, b: int): int { if a < b then a else b }
  function Hi(a: int, b: int): int { if a < b then b else a }

  datatype Box = Box(left: int, right: int, top: int, bottom: int)

  /** The union of the glyphs' ink boxes. */
  function Union(gs: seq<Glyph>): (u: Box)
    requires gs != []
  {
    var g := gs[|gs| - 1];
    if |gs| == 1 then Box(g.xoff, g.xoff + g.w, g.yoff + g.h, g.yoff)
    else
      var u := Union(gs[..|gs| - 1]);
      Box(Lo(u.left, g.xoff), Hi(u.right, g.xoff + g.w), Hi(u.top, g.yoff + g.h), Lo(u.bottom, g.yoff))
  }

  /** The cell fitted to the selected glyphs' ink. */
  function Fitted(gs: seq<Glyph>, ascent: int, descent: int): (fr: Frame)
    ensures fr.cellW >= 1 && fr.cellH >= 1
  {
    var u := if gs == [] then Box(0, 1, ascent, 0 - descent) else Union(gs);
    Frame(Hi(1, u.right - u.left), Hi(1, u.top - u.bottom), u.top, 0 - u.left)
  }

  lemma {:induction false} UnionHolds(gs: seq<Glyph>, i: nat)
    requires i < |gs|
    ensures var (u, g) := (Union(gs), gs[i]);
      u.left <= g.xoff && g.xoff + g.w <= u.right && g.yoff + g.h <= u.top && u.bottom <= g.yoff
    decreases |gs|
  {
    if i < |gs| - 1 { UnionHolds(gs[..|gs| - 1], i); }
  }

  /** Auto-fit never clips a selected glyph. */
  lemma FittedNeverClips(gs: seq<Glyph>, ascent: int, descent: int, i: nat)
    requires i < |gs|
    ensures !Clips(gs[i], Fitted(gs, ascent, descent))
  {
    UnionHolds(gs, i);
  }

  // ---------- a face ----------

  function Advance8(n: int): (b: Byte) {
    Lo(255, Hi(0, n))
  }

  /** Glyph cp's cell and advance are right; a missing glyph is blank and as wide as the cell. */
  ghost predicate GlyphIs(glyphs: map<int, Glyph>, cp: int, fr: Frame, cell: seq<nat>, width: int) {
    if cp in glyphs then CellShows(cell, glyphs[cp], fr) && width == Advance8(glyphs[cp].dwidth)
    else cell == seq(fr.cellH, _ => 0) && width == Advance8(fr.cellW)
  }

  /** Bake a range of codepoints. */
  method BakeRange(glyphs: map<int, Glyph>, base: int, count: nat, fr: Frame)
    returns (cells: seq<seq<nat>>, widths: seq<Byte>, clipped: seq<int>)
    ensures |cells| == |widths| == count
    ensures forall i :: 0 <= i < count ==> GlyphIs(glyphs, base + i, fr, cells[i], widths[i])
    ensures forall cp :: cp in clipped <==> base <= cp < base + count && cp in glyphs && Clips(glyphs[cp], fr)
  {
    cells, widths, clipped := [], [], [];
    var i := 0;
    while i < count
      invariant 0 <= i <= count && |cells| == |widths| == i
      invariant forall j :: 0 <= j < i ==> GlyphIs(glyphs, base + j, fr, cells[j], widths[j])
      invariant forall cp :: cp in clipped <==> base <= cp < base + i && cp in glyphs && Clips(glyphs[cp], fr)
    {
      var cp := base + i;
      if cp in glyphs {
        var cell, clip := BakeGlyph(glyphs[cp], fr);
        cells, widths := cells + [cell], widths + [Advance8(glyphs[cp].dwidth)];
        if clip { clipped := clipped + [cp]; }
      } else {
        cells, widths := cells + [seq(fr.cellH, _ => 0)], widths + [Advance8(fr.cellW)];
      }
      i := i + 1;
    }
  }

  /** From glyphs to the object. */
  method MakeFace(glyphs: map<int, Glyph>, base: nat, count: nat, fr: Frame, flags: nat) returns (f: Face, blob: seq<Byte>)
    requires 1 <= fr.cellW < 0x1_0000 && 1 <= fr.cellH < 0x1_0000 && base < 0x1_0000 && flags < 0x1_0000
    requires 1 <= count < 0x1_0000
    ensures f.Ok() && blob == Blob(f) && DescOf(f) == Desc(fr.cellW, fr.cellH, base, count, flags)
    ensures forall i :: 0 <= i < count ==> GlyphIs(glyphs, base + i, fr, f.cells[i], f.widths[i])
  {
    var cells, widths, clipped := BakeRange(glyphs, base, count, fr);
    f := Face(fr.cellW, fr.cellH, base, flags, widths, cells);
    assert f.Ok() by {
      forall i | 0 <= i < count
        ensures |cells[i]| == fr.cellH && Narrow(cells[i], fr.cellW)
      {
        assert GlyphIs(glyphs, base + i, fr, cells[i], widths[i]);
      }
    }
    blob := FaceBlob(f);
  }

  /** Every pixel of every glyph of a baked face can be read back from the bytes of its object. */
  lemma InkRoundTrip(glyphs: map<int, Glyph>, f: Face, fr: Frame, i: nat, x: nat, y: nat)
    requires f.Ok() && f.cellW == fr.cellW && f.cellH == fr.cellH && i < f.Count() && InCell(fr, x, y)
    requires f.base + i in glyphs && GlyphIs(glyphs, f.base + i, fr, f.cells[i], f.widths[i])
    ensures 0 <= PixelByte(f, i, x, y) < |Blob(f)|
    ensures Bit(Blob(f)[PixelByte(f, i, x, y)], 7 - x % 8) <==> Shows(glyphs[f.base + i], fr, x, y)
  {
    PixelRoundTrip(f, i, x, y);
    assert Pixel(f.cells[i][y], fr.cellW, x) <==> Shows(glyphs[f.base + i], fr, x, y);
  }
}

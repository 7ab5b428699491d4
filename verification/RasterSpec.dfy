/** What the vector rasterisers should paint: the pixels of a line and of an ellipse,
    with the geometric facts that make them the right pixels. */
module RasterSpec {
  import opened Arith
  import opened Geometry

  function Abs(n: int): nat { if n < 0 then -n else n }

  function Max(a: int, b: int): int { if a > b then a else b }

  function Min(a: int, b: int): int { if a < b then a else b }

  // ---------- lines ----------

  /** How far the minor coordinate has moved after k steps along the major one. */
  function Minor(k: nat, major: nat, minor: nat): nat {
    if major == 0 then 0
    else
      var n := k * minor + (major - 1) / 2;
      assert 0 <= n / major by {
        Scale(0, k, minor);
        FloorMono(0, n, major);
      }
      n / major
  }

  /** What is left over after those steps. */
  function Residue(k: nat, major: nat, minor: nat): nat
    requires 0 < major
  {
    (k * minor + (major - 1) / 2) % major
  }

  function Toward(from: int, to: int, k: nat): int {
    if from < to then from + k else from - k
  }

  /** The k-th pixel of the line from (x1, y1) to (x2, y2). */
  function LineAt(x1: int, y1: int, x2: int, y2: int, k: nat): Point {
    var dx, dy := Abs(x2 - x1), Abs(y2 - y1);
    if dx > dy then Point(Toward(x1, x2, k), Toward(y1, y2, Minor(k, dx, dy)))
    else Point(Toward(x1, x2, Minor(k, dy, dx)), Toward(y1, y2, k))
  }

  function LineLength(x1: int, y1: int, x2: int, y2: int): nat {
    Max(Abs(x2 - x1), Abs(y2 - y1))
  }

  /** Whether p is one of the first n pixels of the line. */
  ghost predicate OnLine(x1: int, y1: int, x2: int, y2: int, n: nat, p: Point) {
    exists k: nat :: k < n && LineAt(x1, y1, x2, y2, k) == p
  }

  /** The minor coordinate is within half a pixel of the true line. */
  lemma MinorNear(k: nat, major: nat, minor: nat)
    requires 0 < major
    ensures 2 * Abs(major * Minor(k, major, minor) - k * minor) <= major
  {
    var n := k * minor + (major - 1) / 2;
    assert n == major * (n / major) + n % major;
  }

  /** One step along the major axis, by the leftover. */
  lemma ResidueStep(k: nat, major: nat, minor: nat)
    requires 0 < major && minor <= major
    ensures var e := Residue(k, major, minor) + minor;
            if e >= major then
              Minor(k + 1, major, minor) == Minor(k, major, minor) + 1
              && Residue(k + 1, major, minor) == e - major
            else
              Minor(k + 1, major, minor) == Minor(k, major, minor)
              && Residue(k + 1, major, minor) == e
  {
    var n := k * minor + (major - 1) / 2;
    assert (k + 1) * minor + (major - 1) / 2 == n + minor;
    StepDivide(n, major, minor);
  }

  lemma MinorEnds(major: nat, minor: nat)
    requires 0 < major
    ensures Minor(0, major, minor) == 0 && Minor(major, major, minor) == minor
  {
    QuotientIs((major - 1) / 2, major, 0);
    assert minor * major == major * minor;
    QuotientIs(major * minor + (major - 1) / 2, major, minor);
  }

  lemma {:induction false} MinorRange(k: nat, major: nat, minor: nat)
    requires 0 < major && minor <= major && k <= major
    ensures Minor(k, major, minor) <= minor
    decreases major - k
  {
    if k == major {
      MinorEnds(major, minor);
    } else {
      ResidueStep(k, major, minor);
      MinorRange(k + 1, major, minor);
    }
  }

  lemma LineEndpoints(x1: int, y1: int, x2: int, y2: int)
    ensures LineAt(x1, y1, x2, y2, 0) == Point(x1, y1)
    ensures LineAt(x1, y1, x2, y2, LineLength(x1, y1, x2, y2)) == Point(x2, y2)
  {
    var dx, dy := Abs(x2 - x1), Abs(y2 - y1);
    if dx > dy {
      MinorEnds(dx, dy);
    } else if dy > 0 {
      MinorEnds(dy, dx);
    }
  }

  /** The pixel and error term of the integer line loop. */
  datatype Pen = Pen(x: int, y: int, err: int) {
    function At(): Point { Point(x, y) }

    // C division truncates toward zero.
    static function Start(x1: int, y1: int, dx: int, dy: int): Pen {
      Pen(x1, y1, if dx > dy then dx / 2 else -(dy / 2))
    }

    function Next(dx: int, dy: int, sx: int, sy: int): Pen {
      Pen(if err > -dx then x + sx else x,
          if err < dy then y + sy else y,
          err - (if err > -dx then dy else 0) + (if err < dy then dx else 0))
    }
  }

  /** The loop's state after k rounds. */
  function PenAt(x1: int, y1: int, x2: int, y2: int, k: nat): Pen {
    var dx, dy := Abs(x2 - x1), Abs(y2 - y1);
    if k == 0 then Pen.Start(x1, y1, dx, dy)
    else PenAt(x1, y1, x2, y2, k - 1).Next(dx, dy, if x1 < x2 then 1 else -1, if y1 < y2 then 1 else -1)
  }

  ghost predicate Drawn(x1: int, y1: int, x2: int, y2: int, n: nat, p: Point) {
    exists k: nat :: k < n && PenAt(x1, y1, x2, y2, k).At() == p
  }

  // The pen is on pixel k of the line, its error term the leftover of the division it avoids.
  predicate Follows(p: Pen, x1: int, y1: int, x2: int, y2: int, k: nat) {
    var dx, dy := Abs(x2 - x1), Abs(y2 - y1);
    && p.At() == LineAt(x1, y1, x2, y2, k)
    && (dx > dy ==> p.err == dx - 1 - Residue(k, dx, dy))
    && (dy >= dx && dy > 0 ==> p.err == Residue(k, dy, dx) - (dy - 1))
  }

  lemma FollowsOn(p: Pen, x1: int, y1: int, x2: int, y2: int, k: nat)
    requires k < LineLength(x1, y1, x2, y2) && Follows(p, x1, y1, x2, y2, k)
    ensures Follows(p.Next(Abs(x2 - x1), Abs(y2 - y1), if x1 < x2 then 1 else -1, if y1 < y2 then 1 else -1),
                    x1, y1, x2, y2, k + 1)
  {
    var dx, dy := Abs(x2 - x1), Abs(y2 - y1);
    if dx > dy {
      ResidueStep(k, dx, dy);
    } else {
      ResidueStep(k, dy, dx);
    }
  }

  /** The loop visits exactly the pixels of the line, in order. */
  lemma {:induction false} PenFollowsLine(x1: int, y1: int, x2: int, y2: int, k: nat)
    requires k <= LineLength(x1, y1, x2, y2)
    ensures Follows(PenAt(x1, y1, x2, y2, k), x1, y1, x2, y2, k)
  {
    if k == 0 {
      LineEndpoints(x1, y1, x2, y2);
    } else {
      PenFollowsLine(x1, y1, x2, y2, k - 1);
      FollowsOn(PenAt(x1, y1, x2, y2, k - 1), x1, y1, x2, y2, k - 1);
    }
  }

  /** The loop's test finds the second endpoint after the right number of rounds, and not before. */
  lemma PenStops(x1: int, y1: int, x2: int, y2: int, k: nat)
    requires k <= LineLength(x1, y1, x2, y2)
    ensures PenAt(x1, y1, x2, y2, k).At() == Point(x2, y2) <==> k == LineLength(x1, y1, x2, y2)
  {
    PenFollowsLine(x1, y1, x2, y2, k);
    LineEndpoints(x1, y1, x2, y2);
  }

  lemma DrawnGrows(x1: int, y1: int, x2: int, y2: int, k: nat, p: Point)
    ensures Drawn(x1, y1, x2, y2, k + 1, p) <==>
            Drawn(x1, y1, x2, y2, k, p) || PenAt(x1, y1, x2, y2, k).At() == p
  {
    if Drawn(x1, y1, x2, y2, k + 1, p) {
      var j: nat :| j < k + 1 && PenAt(x1, y1, x2, y2, j).At() == p;
    }
  }

  lemma DrawnIsLine(x1: int, y1: int, x2: int, y2: int, p: Point)
    ensures var n := LineLength(x1, y1, x2, y2) + 1;
            Drawn(x1, y1, x2, y2, n, p) <==> OnLine(x1, y1, x2, y2, n, p)
  {
    var n := LineLength(x1, y1, x2, y2) + 1;
    if Drawn(x1, y1, x2, y2, n, p) {
      var k: nat :| k < n && PenAt(x1, y1, x2, y2, k).At() == p;
      PenFollowsLine(x1, y1, x2, y2, k);
    }
    if OnLine(x1, y1, x2, y2, n, p) {
      var k: nat :| k < n && LineAt(x1, y1, x2, y2, k) == p;
      PenFollowsLine(x1, y1, x2, y2, k);
    }
  }

  /** Consecutive pixels are distinct king-move neighbours. */
  lemma LineConnected(x1: int, y1: int, x2: int, y2: int, k: nat)
    requires k < LineLength(x1, y1, x2, y2)
    ensures var p, q := LineAt(x1, y1, x2, y2, k), LineAt(x1, y1, x2, y2, k + 1);
            Max(Abs(q.x - p.x), Abs(q.y - p.y)) == 1
  {
    var dx, dy := Abs(x2 - x1), Abs(y2 - y1);
    if dx > dy {
      ResidueStep(k, dx, dy);
    } else {
      ResidueStep(k, dy, dx);
    }
  }

  /** Signs factor out of the cross product that measures the distance to the true line. */
  lemma SignedCross(sx: int, sy: int, a: int, b: int, dx: int, dy: int)
    requires (sx == 1 || sx == -1) && (sy == 1 || sy == -1)
    ensures (sx * a) * (sy * dy) - (sy * b) * (sx * dx) == (sx * sy) * (a * dy - b * dx)
    ensures Abs((sx * sy) * (a * dy - b * dx)) == Abs(a * dy - b * dx)
  {
    if sx == 1 && sy == 1 {
    } else if sx == 1 {
      assert (sy * dy) == -dy && (sy * b) == -b;
    } else if sy == 1 {
      assert (sx * a) == -a && (sx * dx) == -dx;
    } else {
      assert (sx * a) * (sy * dy) == (-a) * (-dy) == a * dy;
      assert (sy * b) * (sx * dx) == (-b) * (-dx) == b * dx;
    }
  }

  /** Every pixel lies in the endpoints' bounding box. */
  lemma LineInBox(x1: int, y1: int, x2: int, y2: int, k: nat)
    requires k <= LineLength(x1, y1, x2, y2)
    ensures var p := LineAt(x1, y1, x2, y2, k);
            Min(x1, x2) <= p.x <= Max(x1, x2) && Min(y1, y2) <= p.y <= Max(y1, y2)
  {
    var dx, dy := Abs(x2 - x1), Abs(y2 - y1);
    if dx > dy {
      MinorRange(k, dx, dy);
    } else if dy > 0 {
      MinorRange(k, dy, dx);
    }
  }

  /** Every pixel is within half a pixel of the true line, measured along the minor axis. */
  lemma LineNear(x1: int, y1: int, x2: int, y2: int, k: nat)
    requires k <= LineLength(x1, y1, x2, y2)
    ensures var p := LineAt(x1, y1, x2, y2, k);
            2 * Abs((p.x - x1) * (y2 - y1) - (p.y - y1) * (x2 - x1)) <= LineLength(x1, y1, x2, y2)
  {
    var dx, dy := Abs(x2 - x1), Abs(y2 - y1);
    var p := LineAt(x1, y1, x2, y2, k);
    var sx: int, sy: int := if x1 < x2 then 1 else -1, if y1 < y2 then 1 else -1;
    assert x2 - x1 == sx * dx && y2 - y1 == sy * dy;
    if dx > dy {
      var m := Minor(k, dx, dy);
      MinorNear(k, dx, dy);
      assert p.x - x1 == sx * k && p.y - y1 == sy * m;
      SignedCross(sx, sy, k, m, dx, dy);
    } else if dy > 0 {
      var m := Minor(k, dy, dx);
      MinorNear(k, dy, dx);
      assert p.x - x1 == sx * m && p.y - y1 == sy * k;
      SignedCross(sx, sy, m, k, dx, dy);
    }
  }

  // ---------- ellipses ----------

  function Square(n: int): int { n * n }

  /** Whether offset (u, v) from the centre is in the closed ellipse with radii rx and ry. */
  predicate InEllipse(u: int, v: int, rx: nat, ry: nat) {
    Square(u) * Square(ry) + Square(v) * Square(rx) <= Square(rx) * Square(ry)
  }

  /** The largest u in [0, n] for which (u, v) is in the ellipse; 0 when there is none. */
  function HalfWidth(n: nat, v: int, rx: nat, ry: nat): (u: nat)
    ensures u <= n
    ensures forall w: nat :: u < w <= n ==> !InEllipse(w, v, rx, ry)
    ensures u == 0 || InEllipse(u, v, rx, ry)
  {
    if n == 0 || InEllipse(n, v, rx, ry) then n else HalfWidth(n - 1, v, rx, ry)
  }

  lemma SquareMono(a: nat, b: nat)
    requires a <= b
    ensures a * a <= b * b
  {
    assert a * a <= a * b <= b * b;
  }

  lemma TimesMono(a: nat, b: nat, c: nat)
    requires a <= b
    ensures a * c <= b * c
  {
  }

  lemma SquareOfAbs(u: int)
    ensures u * u == Abs(u) * Abs(u)
  {
  }

  lemma SquareGap(u: int, r: nat, s2: nat)
    requires r < Abs(u)
    ensures r * r * s2 + s2 <= u * u * s2
  {
    SquareOfAbs(u);
    SquareMono(r + 1, Abs(u));
    assert (r + 1) * (r + 1) == r * r + 2 * r + 1;
    TimesMono(r * r + 1, u * u, s2);
    assert (r * r + 1) * s2 == r * r * s2 + s2;
  }

  /** One coordinate of an ellipse point is bounded by its radius. */
  lemma EllipseSide(u: int, rest: nat, r: nat, s2: nat)
    requires 0 < s2 && u * u * s2 + rest <= r * r * s2
    ensures Abs(u) <= r
  {
    if Abs(u) > r {
      SquareGap(u, r, s2);
    }
  }

  /** The ellipse fits its box. */
  lemma EllipseBox(u: int, v: int, rx: nat, ry: nat)
    requires 0 < rx && 0 < ry && InEllipse(u, v, rx, ry)
    ensures Abs(u) <= rx && Abs(v) <= ry
  {
    var rx2, ry2 := rx * rx, ry * ry;
    assert rx2 > 0 && ry2 > 0;
    assert v * v >= 0 && u * u >= 0;
    assert v * v * rx2 >= 0 && u * u * ry2 >= 0;
    EllipseSide(u, v * v * rx2, rx, ry2);
    assert rx2 * ry2 == ry2 * rx2;
    EllipseSide(v, u * u * ry2, ry, rx2);
  }

  /** Rows of the ellipse are intervals symmetric about the centre. */
  lemma EllipseRow(u: int, w: int, v: int, rx: nat, ry: nat)
    requires Abs(u) <= Abs(w) && InEllipse(w, v, rx, ry)
    ensures InEllipse(u, v, rx, ry)
  {
    SquareMono(Abs(u), Abs(w));
    assert u * u == Abs(u) * Abs(u) && w * w == Abs(w) * Abs(w);
    TimesMono(u * u, w * w, ry * ry);
  }

  /** Every product the scanline search forms fits a signed 32-bit word when the product of
      the radii does not exceed 32767. */
  lemma EllipseFits(u: nat, v: int, rx: nat, ry: nat)
    requires rx * ry <= 32767 && u <= rx && Abs(v) <= ry
    ensures u * u * (ry * ry) + v * v * (rx * rx) <= 0x7FFF_FFFF
    ensures 0 <= u * u * (ry * ry) && 0 <= v * v * (rx * rx)
    ensures rx * rx * (ry * ry) <= 0x3FFF_FFFF
  {
    SquareMono(u, rx);
    SquareMono(Abs(v), ry);
    SquareOfAbs(v);
    RadiiFit(rx, ry);
    ProductsFit(u * u, ry * ry, v * v, rx * rx);
  }

  lemma RadiiFit(rx: nat, ry: nat)
    requires rx * ry <= 32767
    ensures rx * rx * (ry * ry) <= 0x3FFF_FFFF
  {
    var n := rx * ry;
    SquareOfProduct(rx, ry);
    SquareMono(n, 32767);
  }

  lemma ProductsFit(p: nat, q: nat, r: nat, s: nat)
    requires p <= s && r <= q && s * q <= 0x3FFF_FFFF
    ensures 0 <= p * q && 0 <= r * s && p * q + r * s <= 0x7FFF_FFFF
  {
    TimesMono(p, s, q);
    TimesMono(r, q, s);
  }

  lemma SquareOfProduct(a: nat, b: nat)
    ensures a * a * (b * b) == (a * b) * (a * b)
  {
    assert a * a * (b * b) == a * (a * b) * b;
  }

  /** A row of the ellipse is the interval given by its half-width. */
  lemma RowInterval(u: int, v: int, rx: nat, ry: nat)
    requires 0 < rx && 0 < ry && Abs(v) <= ry
    ensures InEllipse(u, v, rx, ry) <==> Abs(u) <= HalfWidth(rx, v, rx, ry)
  {
    var h := HalfWidth(rx, v, rx, ry);
    SquareMono(Abs(v), ry);
    SquareOfAbs(v);
    TimesMono(v * v, ry * ry, rx * rx);
    assert InEllipse(0, v, rx, ry);
    if Abs(u) <= h {
      EllipseRow(u, h, v, rx, ry);
    }
    if InEllipse(u, v, rx, ry) {
      EllipseBox(u, v, rx, ry);
      EllipseRow(Abs(u), u, v, rx, ry);
    }
  }

  lemma EllipseRows(u: int, v: int, rx: nat, ry: nat)
    requires 0 < rx && 0 < ry
    ensures InEllipse(u, v, rx, ry) <==> Abs(v) <= ry && Abs(u) <= HalfWidth(rx, v, rx, ry)
  {
    if InEllipse(u, v, rx, ry) {
      EllipseBox(u, v, rx, ry);
    }
    if Abs(v) <= ry {
      RowInterval(u, v, rx, ry);
    }
  }

  // ---------- 32-bit arithmetic ----------

  /** The signed 32-bit word that n wraps to. */
  function Word(n: int): (w: int)
    ensures -0x8000_0000 <= w <= 0x7FFF_FFFF
    ensures -0x8000_0000 <= n <= 0x7FFF_FFFF ==> w == n
  {
    (n + 0x8000_0000) % 0x1_0000_0000 - 0x8000_0000
  }

  lemma WordShift(n: int, k: int)
    ensures Word(n + k * 0x1_0000_0000) == Word(n)
  {
  }

  // What a number loses when it wraps.
  function Wraps(n: int): (k: int)
    ensures n == Word(n) + k * 0x1_0000_0000
  {
    (n + 0x8000_0000) / 0x1_0000_0000
  }

  lemma WordSum(a: int, b: int)
    ensures Word(Word(a) + Word(b)) == Word(a + b)
  {
    WordShift(Word(a) + Word(b), Wraps(a) + Wraps(b));
  }

  lemma WordTimes(a: int, b: int)
    ensures Word(Word(a) * Word(b)) == Word(a * b)
  {
    var x, y, i, j := Word(a), Word(b), Wraps(a), Wraps(b);
    var m := 0x1_0000_0000;
    assert (x + i * m) * (y + j * m) == x * y + (i * y + j * x + i * j * m) * m;
    WordShift(x * y, i * y + j * x + i * j * m);
  }

  lemma HalfWidthIs(n: nat, v: int, rx: nat, ry: nat, u: nat)
    requires u <= n && (u == 0 || InEllipse(u, v, rx, ry))
    requires u < n ==> !InEllipse(u + 1, v, rx, ry)
    ensures HalfWidth(n, v, rx, ry) == u
  {
    var h := HalfWidth(n, v, rx, ry);
    if u < h {
      EllipseRow(u + 1, h, v, rx, ry);
    }
  }

  // ---------- the search on words ----------

  /** The fit test as the code makes it, on words that may wrap. */
  predicate FitsWord(u: int, v: int, rx: nat, ry: nat) {
    Word(Word(Word(Square(u)) * Word(Square(ry))) + Word(Word(Square(v)) * Word(Square(rx))))
      <= Word(Word(Square(rx)) * Word(Square(ry)))
  }

  ghost predicate FitUpTo(n: int, v: int, rx: nat, ry: nat) {
    forall u :: 0 <= u <= n ==> FitsWord(u, v, rx, ry)
  }

  /** The largest u in [0, n] such that every offset up to u passes the test; 0 when there is none. */
  ghost function Reach(n: nat, v: int, rx: nat, ry: nat): (u: nat)
    ensures u <= n
    ensures u > 0 ==> FitUpTo(u, v, rx, ry)
    ensures forall w: nat :: u < w <= n ==> !FitUpTo(w, v, rx, ry)
  {
    if n == 0 || FitUpTo(n, v, rx, ry) then n else Reach(n - 1, v, rx, ry)
  }

  lemma ReachIs(n: nat, v: int, rx: nat, ry: nat, u: nat)
    requires u <= n && (u == 0 || FitUpTo(u, v, rx, ry))
    requires u < n ==> !FitUpTo(u + 1, v, rx, ry)
    ensures Reach(n, v, rx, ry) == u
  {
    var h := Reach(n, v, rx, ry);
    assert u < h ==> FitUpTo(h, v, rx, ry);
  }

  /** The sum that the fit test compares with the product of the squared radii. */
  function Sum(u: int, v: int, rx: nat, ry: nat): (n: nat) {
    SumNat(u, v, rx, ry);
    Square(u) * Square(ry) + Square(v) * Square(rx)
  }

  lemma SumNat(u: int, v: int, rx: nat, ry: nat)
    ensures 0 <= Square(u) * Square(ry) + Square(v) * Square(rx)
  {
    SquareOfAbs(u);
    SquareOfAbs(v);
    TimesMono(0, Abs(u) * Abs(u), ry * ry);
    TimesMono(0, Abs(v) * Abs(v), rx * rx);
  }

  function Full(rx: nat, ry: nat): int { Square(rx) * Square(ry) }

  /** However often its words wrap, the test compares the wrapped sum with the wrapped product. */
  lemma FitsIsWrapped(u: int, v: int, rx: nat, ry: nat)
    ensures FitsWord(u, v, rx, ry) <==> Word(Sum(u, v, rx, ry)) <= Word(Full(rx, ry))
  {
    WordTimes(Square(u), Square(ry));
    WordTimes(Square(v), Square(rx));
    WordTimes(Square(rx), Square(ry));
    WordSum(Square(u) * Square(ry), Square(v) * Square(rx));
  }

  // No sum of the search exceeds twice the product.
  lemma SumBelow(u: nat, v: int, rx: nat, ry: nat)
    requires u <= rx && Abs(v) <= ry
    ensures Sum(u, v, rx, ry) <= 2 * Full(rx, ry)
  {
    SquareMono(u, rx);
    SquareMono(Abs(v), ry);
    SquareOfAbs(v);
    TimesMono(u * u, rx * rx, ry * ry);
    TimesMono(v * v, ry * ry, rx * rx);
  }

  lemma FullIs(rx: nat, ry: nat)
    ensures Full(rx, ry) == (rx * ry) * (rx * ry)
  {
    SquareOfProduct(rx, ry);
  }

  lemma FullBelow(rx: nat, ry: nat, n: nat)
    requires rx * ry <= n
    ensures 0 <= Full(rx, ry) <= n * n
  {
    var k := rx * ry;
    FullIs(rx, ry);
    SquareMono(k, n);
  }

  lemma FullAbove(rx: nat, ry: nat, n: nat)
    requires n <= rx * ry
    ensures n * n <= Full(rx, ry)
  {
    FullIs(rx, ry);
    SquareMono(n, rx * ry);
  }

  /** With rx*ry at most 32767 nothing wraps and the test decides membership in the ellipse. */
  lemma FitTest(u: nat, v: int, rx: nat, ry: nat)
    requires rx * ry <= 32767 && u <= rx && Abs(v) <= ry
    ensures FitsWord(u, v, rx, ry) <==> InEllipse(u, v, rx, ry)
  {
    FitsIsWrapped(u, v, rx, ry);
    SumBelow(u, v, rx, ry);
    FullBelow(rx, ry, 32767);
  }

  // ---------- when the search finds the ellipse ----------

  /** The wrapped sums of a row are no larger than the wrapped product as far as the ellipse
      goes, and larger just behind it. */
  ghost predicate RowFits(v: int, rx: nat, ry: nat) {
    var h, f := HalfWidth(rx, v, rx, ry), Word(Full(rx, ry));
    (h == 0 || forall u: nat :: u <= h ==> Word(Sum(u, v, rx, ry)) <= f)
    && (h == rx || Word(Sum(h + 1, v, rx, ry)) > f || (h == 0 && Word(Sum(0, v, rx, ry)) > f))
  }

  /** For all radii, the search finds a row of the ellipse exactly when its sums say so. */
  lemma ReachIff(v: int, rx: nat, ry: nat)
    requires 0 < rx
    ensures Reach(rx, v, rx, ry) == HalfWidth(rx, v, rx, ry) <==> RowFits(v, rx, ry)
  {
    var h := HalfWidth(rx, v, rx, ry);
    forall u: nat
      ensures FitsWord(u, v, rx, ry) <==> Word(Sum(u, v, rx, ry)) <= Word(Full(rx, ry))
    {
      FitsIsWrapped(u, v, rx, ry);
    }
    assert FitUpTo(h, v, rx, ry) <==> forall u: nat :: u <= h ==> Word(Sum(u, v, rx, ry)) <= Word(Full(rx, ry));
    assert FitUpTo(h + 1, v, rx, ry) <==> FitUpTo(h, v, rx, ry) && FitsWord(h + 1, v, rx, ry);
    if RowFits(v, rx, ry) {
      assert h < rx ==> !FitsWord(h + 1, v, rx, ry) || !FitsWord(0, v, rx, ry);
      ReachIs(rx, v, rx, ry, h);
    }
  }

  const MAX_WORD := 0x7FFF_FFFF

  /** The first sum behind the ellipse does not wrap. */
  predicate EdgeFits(v: int, rx: nat, ry: nat) {
    var h := HalfWidth(rx, v, rx, ry);
    h == rx || Sum(h + 1, v, rx, ry) <= MAX_WORD
  }

  /** While the product itself does not wrap, a row is right exactly when the first sum behind it
      does not; where it does, it turns negative and the row runs to the full radius. */
  lemma EdgeDecides(v: int, rx: nat, ry: nat)
    requires 0 < rx && 0 < ry && rx * ry <= 46340 && Abs(v) <= ry
    ensures RowFits(v, rx, ry) <==> EdgeFits(v, rx, ry)
    ensures Reach(rx, v, rx, ry) == if EdgeFits(v, rx, ry) then HalfWidth(rx, v, rx, ry) else rx
  {
    var h := HalfWidth(rx, v, rx, ry);
    FullBelow(rx, ry, 46340);
    forall u: nat | u <= rx
      ensures Word(Sum(u, v, rx, ry)) <= Word(Full(rx, ry)) <==> u <= h || Sum(u, v, rx, ry) > MAX_WORD
    {
      SumBelow(u, v, rx, ry);
      RowInterval(u, v, rx, ry);
    }
    ReachIff(v, rx, ry);
    if !EdgeFits(v, rx, ry) {
      forall u: nat | u <= rx
        ensures FitsWord(u, v, rx, ry)
      {
        FitsIsWrapped(u, v, rx, ry);
        if u > h { SumMono(h + 1, u, v, rx, ry); }
      }
      assert FitUpTo(rx, v, rx, ry);
    }
  }

  lemma SumMono(u: nat, w: nat, v: int, rx: nat, ry: nat)
    requires u <= w
    ensures Sum(u, v, rx, ry) <= Sum(w, v, rx, ry)
  {
    SquareMono(u, w);
    TimesMono(u * u, w * w, ry * ry);
  }

  /** When the product wraps to a negative word, the centre row is a single pixel. */
  lemma NegativeFails(rx: nat, ry: nat)
    requires 0 < rx && Word(Full(rx, ry)) < 0
    ensures Reach(rx, 0, rx, ry) == 0 && HalfWidth(rx, 0, rx, ry) == rx && !RowFits(0, rx, ry)
  {
    HalfWidthIs(rx, 0, rx, ry, rx);
    FitsIsWrapped(0, 0, rx, ry);
    assert Sum(0, 0, rx, ry) == 0;
  }

  /** The search finds every row of the ellipse. */
  ghost predicate EllipseRight(rx: nat, ry: nat) {
    forall v :: Abs(v) <= ry ==> RowFits(v, rx, ry)
  }

  /** The exact condition, in the numbers as they are, for every product of radii below 2^16. */
  lemma EllipseRightIff(rx: nat, ry: nat)
    requires 0 < rx && 0 < ry && rx * ry <= 65535
    ensures EllipseRight(rx, ry) <==> rx * ry <= 46340 && forall v :: Abs(v) <= ry ==> EdgeFits(v, rx, ry)
  {
    if rx * ry <= 46340 {
      forall v | Abs(v) <= ry
        ensures RowFits(v, rx, ry) <==> EdgeFits(v, rx, ry)
      {
        EdgeDecides(v, rx, ry);
      }
    } else {
      FullAbove(rx, ry, 46341);
      FullBelow(rx, ry, 65535);
      NegativeFails(rx, ry);
      assert Abs(0) <= ry;
    }
  }

  /** With rx*ry at most 32767 it always holds. */
  lemma SmallIsRight(rx: nat, ry: nat)
    requires 0 < rx && 0 < ry && rx * ry <= 32767
    ensures EllipseRight(rx, ry)
  {
    FullBelow(rx, ry, 32767);
    forall v | Abs(v) <= ry
      ensures EdgeFits(v, rx, ry)
    {
      var h := HalfWidth(rx, v, rx, ry);
      if h < rx { SumBelow(h + 1, v, rx, ry); }
    }
    EllipseRightIff(rx, ry);
  }

  /** The ellipse that fills a pane of 640 by 384 pixels: its centre row is a single pixel. */
  lemma PaneOvalWrong()
    ensures Reach(320, 0, 320, 192) == 0 && HalfWidth(320, 0, 320, 192) == 320 && !EllipseRight(320, 192)
  {
    assert Full(320, 192) == 3774873600;
    NegativeFails(320, 192);
    assert Abs(0) <= 192;
  }

  /** What the scanlines fill, and what they outline. */
  ghost predicate InRows(u: int, v: int, rx: nat, ry: nat) {
    Abs(v) <= ry && Abs(u) <= Reach(rx, v, rx, ry)
  }

  ghost predicate OnRowEnds(u: int, v: int, rx: nat, ry: nat) {
    Abs(v) <= ry && Abs(u) == Reach(rx, v, rx, ry)
  }

  /** The two ends of a row of the ellipse. */
  predicate OnEllipseEnds(u: int, v: int, rx: nat, ry: nat) {
    Abs(v) <= ry && Abs(u) == HalfWidth(rx, v, rx, ry)
  }

  /** Filled and outlined is the ellipse, exactly when every row is right. */
  lemma RowsAreEllipseIff(rx: nat, ry: nat)
    requires 0 < rx && 0 < ry
    ensures (forall u, v :: InRows(u, v, rx, ry) <==> InEllipse(u, v, rx, ry)) <==> EllipseRight(rx, ry)
    ensures (forall u, v :: OnRowEnds(u, v, rx, ry) <==> OnEllipseEnds(u, v, rx, ry)) <==> EllipseRight(rx, ry)
  {
    forall u, v
      ensures InEllipse(u, v, rx, ry) <==> Abs(v) <= ry && Abs(u) <= HalfWidth(rx, v, rx, ry)
    {
      EllipseRows(u, v, rx, ry);
    }
    forall v | Abs(v) <= ry
      ensures Reach(rx, v, rx, ry) == HalfWidth(rx, v, rx, ry) <==> RowFits(v, rx, ry)
    {
      ReachIff(v, rx, ry);
    }
    if !EllipseRight(rx, ry) {
      var v :| Abs(v) <= ry && !RowFits(v, rx, ry);
      var r, h := Reach(rx, v, rx, ry), HalfWidth(rx, v, rx, ry);
      var u := if r < h then h else r;
      assert InRows(u, v, rx, ry) != InEllipse(u, v, rx, ry);
      assert OnRowEnds(r, v, rx, ry) != OnEllipseEnds(r, v, rx, ry);
    }
  }

  /** Rows nearer to the centre are no narrower. */
  lemma NearerIsWider(v: int, w: int, rx: nat, ry: nat)
    requires 0 < rx && 0 < ry && Abs(v) <= Abs(w) <= ry
    ensures HalfWidth(rx, w, rx, ry) <= HalfWidth(rx, v, rx, ry)
  {
    var h := HalfWidth(rx, w, rx, ry);
    RowInterval(h, w, rx, ry);
    SquareMono(Abs(v), Abs(w));
    SquareOfAbs(v);
    SquareOfAbs(w);
    TimesMono(v * v, w * w, rx * rx);
    RowInterval(h, v, rx, ry);
  }
}

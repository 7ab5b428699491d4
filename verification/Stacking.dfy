/** The z-stack of windows, bottom first, and which window is on top at a pixel. */
module Stacking {
  import opened Geometry

  /** Whether window w's footprint holds screen pixel (x, y). */
  predicate Covers(pos: seq<Point>, g: Geo, w: int, x: int, y: int) {
    1 <= w <= |pos| && Rect(pos[w - 1].x, pos[w - 1].y, g.UW(), g.UH()).Has(x, y)
  }

  /** The topmost window at a pixel; 0 when only the workspace is there. */
  function TopAt(z: seq<int>, pos: seq<Point>, g: Geo, x: int, y: int): (t: int)
    ensures t != 0 ==> t in z && Covers(pos, g, t, x, y)
    ensures t == 0 ==> forall w :: w in z ==> !Covers(pos, g, w, x, y)
  {
    if z == [] then 0
    else if Covers(pos, g, z[|z| - 1], x, y) then z[|z| - 1]
    else TopAt(z[..|z| - 1], pos, g, x, y)
  }

  ghost predicate Distinct(z: seq<int>) {
    forall i, j :: 0 <= i < j < |z| ==> z[i] != z[j]
  }

  /** The stack with its first occurrence of w taken out. */
  function Without(z: seq<int>, w: int): (r: seq<int>)
    ensures w !in z ==> r == z
    ensures forall v :: v in r ==> v in z
    ensures forall v :: v in z && v != w ==> v in r
  {
    if z == [] then []
    else if z[0] == w then z[1..]
    else [z[0]] + Without(z[1..], w)
  }

  lemma {:induction false} WithoutAt(z: seq<int>, i: nat)
    requires i < |z| && z[i] !in z[..i]
    ensures Without(z, z[i]) == z[..i] + z[i + 1..]
  {
    if i > 0 {
      assert z[0] in z[..i];
      assert z[1..][..i - 1] == z[..i][1..];
      WithoutAt(z[1..], i - 1);
      assert z[..i] + z[i + 1..] == [z[0]] + (z[1..][..i - 1] + z[1..][i..]);
    }
  }

  /** Raising the top changes nothing. */
  lemma TopRaised(z: seq<int>, w: int)
    requires z != [] && z[|z| - 1] == w && Distinct(z)
    ensures Without(z, w) + [w] == z
  {
    WithoutAt(z, |z| - 1);
    assert z[|z| - 1 + 1..] == [];
    assert z == z[..|z| - 1] + [w];
  }

  lemma WithoutDistinct(z: seq<int>, w: int)
    requires Distinct(z)
    ensures Distinct(Without(z, w)) && w !in Without(z, w)
    ensures |Without(z, w)| == if w in z then |z| - 1 else |z|
  {
    if w in z {
      var i :| 0 <= i < |z| && z[i] == w;
      WithoutAt(z, i);
    }
  }

  lemma {:induction false} WithoutLast(z: seq<int>, v: int, w: int)
    ensures Without(z + [v], w) == if w in z then Without(z, w) + [v] else if v == w then z else z + [v]
  {
    if z != [] {
      assert (z + [v])[1..] == z[1..] + [v];
      if z[0] != w {
        WithoutLast(z[1..], v, w);
      }
    } else {
      assert [v][1..] == [];
    }
  }

  /** A window that does not cover the pixel does not matter to it. */
  lemma {:induction false} WithoutElsewhere(z: seq<int>, w: int, pos: seq<Point>, g: Geo, x: int, y: int)
    requires !Covers(pos, g, w, x, y)
    ensures TopAt(Without(z, w), pos, g, x, y) == TopAt(z, pos, g, x, y)
  {
    if z != [] {
      var k := |z| - 1;
      assert z == z[..k] + [z[k]];
      WithoutLast(z[..k], z[k], w);
      if w in z[..k] {
        WithoutElsewhere(z[..k], w, pos, g, x, y);
        assert (Without(z[..k], w) + [z[k]])[..|Without(z[..k], w)|] == Without(z[..k], w);
      }
    }
  }

  /** Putting w on top shows w where it is and changes nothing elsewhere. */
  lemma PushTop(z: seq<int>, w: int, pos: seq<Point>, g: Geo, x: int, y: int)
    ensures TopAt(z + [w], pos, g, x, y) == if Covers(pos, g, w, x, y) then w else TopAt(z, pos, g, x, y)
  {
    assert (z + [w])[..|z|] == z;
  }

  lemma RaiseTop(z: seq<int>, w: int, pos: seq<Point>, g: Geo, x: int, y: int)
    ensures TopAt(Without(z, w) + [w], pos, g, x, y) == if Covers(pos, g, w, x, y) then w else TopAt(z, pos, g, x, y)
  {
    PushTop(Without(z, w), w, pos, g, x, y);
    if !Covers(pos, g, w, x, y) {
      WithoutElsewhere(z, w, pos, g, x, y);
    }
  }

  /** Where a window lies matters only inside its old and its new footprint. */
  lemma {:induction false} MoveElsewhere(z: seq<int>, w: int, pos: seq<Point>, p: Point, g: Geo, x: int, y: int)
    requires 1 <= w <= |pos|
    requires !Covers(pos, g, w, x, y) && !Covers(pos[w - 1 := p], g, w, x, y)
    ensures TopAt(z, pos[w - 1 := p], g, x, y) == TopAt(z, pos, g, x, y)
  {
    if z != [] {
      MoveElsewhere(z[..|z| - 1], w, pos, p, g, x, y);
    }
  }

  /** The position of a window that is not on the stack does not matter. */
  lemma {:induction false} OthersDecide(z: seq<int>, w: int, pos: seq<Point>, p: Point, g: Geo, x: int, y: int)
    requires 1 <= w <= |pos| && w !in z
    ensures TopAt(z, pos[w - 1 := p], g, x, y) == TopAt(z, pos, g, x, y)
  {
    if z != [] {
      OthersDecide(z[..|z| - 1], w, pos, p, g, x, y);
    }
  }

  lemma {:induction false} DistinctSize(z: seq<int>)
    requires Distinct(z)
    ensures |set v | v in z| == |z|
  {
    if z == [] {
      assert (set v | v in z) == {};
    } else {
      var k := |z| - 1;
      DistinctSize(z[..k]);
      assert (set v | v in z) == (set v | v in z[..k]) + {z[k]};
    }
  }

  function UpTo(n: nat): (s: set<int>)
    ensures |s| == n && forall v :: v in s <==> 1 <= v <= n
  {
    if n == 0 then {} else UpTo(n - 1) + {n}
  }

  lemma SubsetSize(s: set<int>, t: set<int>)
    requires s <= t
    ensures |s| <= |t|
  {
    assert t * s == s;
    assert |t - s| == |t| - |t * s|;
  }

  /** There is room on the stack while some slot is not on it. */
  lemma Room(z: seq<int>, w: int, n: nat)
    requires Distinct(z) && w !in z && 1 <= w <= n
    requires forall v :: v in z ==> 1 <= v <= n
    ensures |z| < n
  {
    DistinctSize(z);
    SubsetSize((set v | v in z), UpTo(n) - {w});
  }
}

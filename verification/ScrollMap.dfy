/** The two maps between a document's scroll offset and the elevator's position. */
module ScrollMap {
  import opened Arith
  import opened Geometry
  import opened Desk

  function Travel(g: Geo): int { g.ElevMax() - g.ElevMin() }

  lemma ElevUnclamped(o: int, m: int, g: Geo)
    requires g.Ok() && 0 < m && 0 <= o <= m
    ensures ElevOf(o, m, g) == g.ElevMin() + (Travel(g) * o) / m
    ensures 0 <= (Travel(g) * o) / m <= Travel(g)
  {
    var s := Travel(g);
    Scale(0, s, o);
    FloorMono(0, s * o, m);
    Scale(o, m, s);
    assert s * o == o * s && s * m == m * s;
    FloorMono(s * o, s * m, m);
    QuotientIs(s * m, m, s);
  }

  lemma OffsetUnclamped(e: int, m: int, g: Geo)
    requires g.Ok() && 0 < m && g.ElevMin() <= e <= g.ElevMax()
    ensures OffsetOf(e, m, g) == ((e - g.ElevMin()) * m) / Travel(g)
    ensures 0 <= ((e - g.ElevMin()) * m) / Travel(g) <= m
  {
    var s, t := Travel(g), e - g.ElevMin();
    Scale(0, t, m);
    FloorMono(0, t * m, s);
    Scale(t, s, m);
    assert s * m == m * s;
    FloorMono(t * m, m * s, s);
    QuotientIs(m * s, s, m);
  }

  /** Both maps meet at both ends ... */
  lemma MapsExactAtEnds(m: int, g: Geo)
    requires g.Ok() && 0 < m
    ensures ElevOf(0, m, g) == g.ElevMin() && ElevOf(m, m, g) == g.ElevMax()
    ensures OffsetOf(g.ElevMin(), m, g) == 0 && OffsetOf(g.ElevMax(), m, g) == m
  {
    var s := Travel(g);
    ElevUnclamped(0, m, g);
    ElevUnclamped(m, m, g);
    OffsetUnclamped(g.ElevMin(), m, g);
    OffsetUnclamped(g.ElevMax(), m, g);
    QuotientIs(s * m, m, s);
    QuotientIs(s * m, s, m);
  }

  /** ... stay in range and never turn back. */
  lemma ElevMonotone(o: int, p: int, m: int, g: Geo)
    requires g.Ok() && 0 < m && 0 <= o <= p
    ensures g.ElevMin() <= ElevOf(o, m, g) <= ElevOf(p, m, g) <= g.ElevMax()
  {
    var a, b := if o > m then m else o, if p > m then m else p;
    ElevUnclamped(a, m, g);
    ElevUnclamped(b, m, g);
    Scale(a, b, Travel(g));
    assert Travel(g) * a == a * Travel(g) && Travel(g) * b == b * Travel(g);
    FloorMono(Travel(g) * a, Travel(g) * b, m);
  }

  lemma OffsetMonotone(e: int, f: int, m: int, g: Geo)
    requires g.Ok() && 0 < m && g.ElevMin() <= e <= f <= g.ElevMax()
    ensures 0 <= OffsetOf(e, m, g) <= OffsetOf(f, m, g) <= m
  {
    OffsetUnclamped(e, m, g);
    OffsetUnclamped(f, m, g);
    Scale(e - g.ElevMin(), f - g.ElevMin(), m);
    FloorMono((e - g.ElevMin()) * m, (f - g.ElevMin()) * m, Travel(g));
  }

  // Dividing s * o by m and multiplying back, then the same the other way round.
  lemma ThereAndBack(o: int, m: int, s: int)
    requires 0 < m && 0 < s
    ensures var back := ((s * o) / m * m) / s; back <= o && (o - back) * s < m + s
  {
    var t := (s * o) / m;
    var back := (t * m) / s;
    Floor(s * o, m);
    Floor(t * m, s);
    assert s * o == o * s;
    assert (o - back) * s == o * s - back * s;
    Below(back, o, s, o * s);
  }

  lemma LosesAtMostOne(t: int, m: int, s: int)
    requires 0 < s <= m
    ensures t - 1 <= (s * ((t * m) / s)) / m <= t
  {
    var o := (t * m) / s;
    var back := (s * o) / m;
    Floor(t * m, s);
    Floor(s * o, m);
    assert s * o == o * s;
    Below(back, t, m, s * o);
    assert (t - 1) * m == t * m - m;
    Below(t - 1, back, m, s * o);
  }

  /** Offset to elevator and back loses less than one elevator step, and never gains. */
  lemma OffsetRoundTrip(o: int, m: int, g: Geo)
    requires g.Ok() && 0 < m && 0 <= o <= m
    ensures var back := OffsetOf(ElevOf(o, m, g), m, g);
            back <= o && (o - back) * Travel(g) < m + Travel(g)
  {
    ElevUnclamped(o, m, g);
    OffsetUnclamped(ElevOf(o, m, g), m, g);
    ThereAndBack(o, m, Travel(g));
  }

  /** Elevator to offset and back loses at most one pixel when the document has at least as
      many offsets as the elevator has positions. */
  lemma ElevRoundTrip(e: int, m: int, g: Geo)
    requires g.Ok() && Travel(g) <= m && g.ElevMin() <= e <= g.ElevMax()
    ensures e - 1 <= ElevOf(OffsetOf(e, m, g), m, g) <= e
  {
    OffsetUnclamped(e, m, g);
    ElevUnclamped(OffsetOf(e, m, g), m, g);
    LosesAtMostOne(e - g.ElevMin(), m, Travel(g));
  }
}

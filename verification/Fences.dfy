/** Which source lines of a document are code, told from the source alone, and what each line adds
    to the layout. */
module Fences {
  import opened Wrap
  import opened Layout

  predicate LineStart(t: seq<Byte>, a: nat) {
    a <= |t| && (a == 0 || t[a - 1] == NL)
  }

  /** Three backticks stand at a. */
  predicate Ticks(t: seq<Byte>, a: nat) {
    a + 2 < |t| && t[a] == TICK && t[a + 1] == TICK && t[a + 2] == TICK
  }

  /** How many lines that start before p start with three backticks. */
  function FenceCount(t: seq<Byte>, p: nat): (n: nat)
    requires p <= |t|
  {
    if p == 0 then 0 else FenceCount(t, p - 1) + if LineStart(t, p - 1) && Ticks(t, p - 1) then 1 else 0
  }

  /** An odd number of fence lines stands before p. */
  predicate Odd(t: seq<Byte>, p: nat)
    requires p <= |t|
  {
    FenceCount(t, p) % 2 == 1
  }

  // No line starts within a line.
  lemma {:induction false} SameCount(t: seq<Byte>, a: nat, p: nat)
    requires a < p <= |t| && LineStart(t, a) && forall i :: a <= i < p - 1 ==> t[i] != NL
    ensures FenceCount(t, p) == FenceCount(t, a) + if Ticks(t, a) then 1 else 0
    decreases p
  {
    if p > a + 1 { SameCount(t, a, p - 1); }
  }

  lemma TicksAreFence(t: seq<Byte>, a: nat)
    requires a < |t|
    ensures Ticks(t, a) <==> Fence(t, a, LineEnd(t, a))
  {
    var e := LineEnd(t, a);
    assert e == |t| || t[e] == NL;
  }

  // The layout has come to a line start, or the end, and is in code after an odd number of fences.
  ghost predicate AtLine(t: seq<Byte>, s: Lay) {
    s.p <= |t| && (LineStart(t, s.p) || s.p == |t|) && (s.inCode <==> Odd(t, s.p))
  }

  lemma NextLine(t: seq<Byte>, pg: Page, s: Lay)
    requires s.p < |t| && AtLine(t, s)
    ensures AtLine(t, Next(t, pg, s))
    ensures forall i :: s.p < i < Next(t, pg, s).p ==> !LineStart(t, i)
  {
    var e, s' := LineEnd(t, s.p), Next(t, pg, s);
    TicksAreFence(t, s.p);
    SameCount(t, s.p, s'.p);
    assert s'.inCode == if Ticks(t, s.p) then !s.inCode else s.inCode;
  }

  /** However far a document has been laid out from the start: it is in code exactly when an odd
      number of fence lines has been passed. */
  lemma InCodeIsOdd(t: seq<Byte>, pg: Page, target: int)
    ensures var s := Upto(t, pg, START, target); s.p <= |t| && (s.inCode <==> Odd(t, s.p))
  {
    UptoAtLine(t, pg, START, target);
  }

  lemma {:induction false} UptoAtLine(t: seq<Byte>, pg: Page, s: Lay, target: int)
    requires AtLine(t, s)
    ensures AtLine(t, Upto(t, pg, s, target))
    decreases |t| - s.p
  {
    if s.p < |t| && s.y < target {
      NextLine(t, pg, s);
      UptoAtLine(t, pg, Next(t, pg, s), target);
    }
  }

  // ---------- what each line adds ----------

  /** The layout when it comes to place a. */
  ghost function Till(t: seq<Byte>, pg: Page, s: Lay, a: nat): (s': Lay)
    requires s.p <= |t| && a <= |t|
    ensures s'.p <= |t|
    decreases |t| - s.p
  {
    if s.p < a then Till(t, pg, Next(t, pg, s), a) else s
  }

  lemma {:induction false} TillStops(t: seq<Byte>, pg: Page, s: Lay, a: nat)
    requires AtLine(t, s) && s.p <= a <= |t| && LineStart(t, a)
    ensures AtLine(t, Till(t, pg, s, a)) && Till(t, pg, s, a).p == a
    ensures Full(t, pg, Till(t, pg, s, a)) == Full(t, pg, s)
    decreases |t| - s.p
  {
    if s.p < a {
      NextLine(t, pg, s);
      TillStops(t, pg, Next(t, pg, s), a);
    }
  }

  // Level and text of a heading: the number of hashes, and the first place behind hashes and spaces.
  ghost predicate HeadingAt(t: seq<Byte>, a: nat, e: nat, level: nat, from: nat) {
    && 0 < level && a + level <= from <= e <= |t|
    && (forall i :: a <= i < a + level ==> t[i] == HASH) && (a + level < e ==> t[a + level] != HASH)
    && (forall i :: a + level <= i < from ==> t[i] == SP) && (from < e ==> t[from] != SP)
  }

  // A heading's text, and a rule below it at level 1.
  ghost predicate HeadingAdds(t: seq<Byte>, pg: Page, level: nat, from: nat, e: nat, y: int, its: seq<Item>, y': int)
    requires from <= e <= |t|
  {
    var w := Wrapped(pg.bold, BOLD, t, from, e, MARGIN, y, pg.textW);
    if level == 1 then its == w.items + [Rule(MARGIN, w.y)] && y' == w.y + 8 else its == w.items && y' == w.y + 4
  }

  /** What a source line [a, e) adds at y, in a code block or not. */
  ghost predicate Adds(t: seq<Byte>, pg: Page, a: nat, e: nat, code: bool, y: int, its: seq<Item>, y': int)
    requires a <= e <= |t|
  {
    if Ticks(t, a) then its == [] && y' == y
    else if code then its == [Code(MARGIN, y, a, e - a)] && y' == y + 18
    else if a == e then its == [] && y' == y + 8
    else if t[a] == HASH then
      exists level: nat, from: nat :: HeadingAt(t, a, e, level, from) && HeadingAdds(t, pg, level, from, e, y, its, y')
    else if (t[a] == DASH || t[a] == STAR) && a + 1 < e && t[a + 1] == SP then
      var w := Wrapped(pg.prop, PROP, t, a + 2, e, MARGIN + INDENT, y, pg.textW - INDENT);
      its == [Disc(MARGIN, y)] + w.items && y' == w.y
    else
      var w := Wrapped(pg.prop, PROP, t, a, e, MARGIN, y, pg.textW);
      its == w.items && y' == w.y
  }

  lemma LineAdds(t: seq<Byte>, pg: Page, a: nat, code: bool, y: int)
    requires a < |t|
    ensures var e := LineEnd(t, a); var r := Line(t, pg, a, e, code, y); Adds(t, pg, a, e, code, y, r.items, r.y)
  {
    var e := LineEnd(t, a);
    TicksAreFence(t, a);
    if !Ticks(t, a) && !code && a < e && t[a] == HASH {
      var level, from := Hashes(t, a, e) - a, SkipSpaces(t, Hashes(t, a, e), e);
      SkipsSpaces(t, Hashes(t, a, e), e);
      assert HeadingAt(t, a, e, level, from);
    }
  }

  lemma {:induction false} SkipsSpaces(t: seq<Byte>, a: nat, b: nat)
    requires a <= b <= |t|
    ensures var f := SkipSpaces(t, a, b);
            a <= f <= b && (forall i :: a <= i < f ==> t[i] == SP) && (f < b ==> t[f] != SP)
    decreases b - a
  {
    if a < b && t[a] == SP { SkipsSpaces(t, a + 1, b); }
  }

  /** In the finished document each source line has added just what it is for: nothing for a fence,
      one item of its whole span between an odd fence and the next, and otherwise the wrapped text,
      rule or disc of its kind. */
  lemma LineInDocument(t: seq<Byte>, pg: Page, a: nat) returns (i: nat, y: int, its: seq<Item>, y': int)
    requires a < |t| && LineStart(t, a)
    ensures Adds(t, pg, a, LineEnd(t, a), Odd(t, a), y, its, y')
    ensures Between(Full(t, pg, START).items, i, y, its, y')
  {
    var s := Till(t, pg, START, a);
    TillStops(t, pg, START, a);
    TillFalls(t, pg, START, a);
    LineAdds(t, pg, a, s.inCode, s.y);
    var r := Line(t, pg, a, LineEnd(t, a), s.inCode, s.y);
    i, y, its, y' := |s.items|, s.y, r.items, r.y;
    StandsBetween(t, pg, s);
  }

  // The items its stand in a document from the i-th on, those before at or above y, those after
  // at or below y'.
  ghost predicate Between(all: seq<Item>, i: nat, y: int, its: seq<Item>, y': int) {
    && i + |its| <= |all| && all[i..i + |its|] == its
    && (forall k :: 0 <= k < i ==> all[k].y <= y) && (forall k :: i + |its| <= k < |all| ==> y' <= all[k].y)
  }

  lemma StandsBetween(t: seq<Byte>, pg: Page, s: Lay)
    requires s.p < |t| && s.y >= TOP && Falling(s.items, TOP, s.y)
    ensures var r := Line(t, pg, s.p, LineEnd(t, s.p), s.inCode, s.y);
            Between(Full(t, pg, s).items, |s.items|, s.y, r.items, r.y)
  {
    var r, s', all := Line(t, pg, s.p, LineEnd(t, s.p), s.inCode, s.y), Next(t, pg, s), Full(t, pg, s).items;
    NextFalls(t, pg, s);
    ItemsFall(t, pg, s');
    assert s'.items == s.items + r.items && s'.items <= all;
    Stacked(s.items, r.items, all);
    forall k | 0 <= k < |s.items|
      ensures all[k].y <= s.y
    {
      assert all[k] == s.items[k];
    }
  }

  lemma Stacked(a: seq<Item>, b: seq<Item>, all: seq<Item>)
    requires a + b <= all
    ensures all[..|a|] == a && |a| + |b| <= |all| && all[|a|..|a| + |b|] == b
  {
    assert all[..|a| + |b|] == a + b;
  }

  lemma {:induction false} TillFalls(t: seq<Byte>, pg: Page, s: Lay, a: nat)
    requires s.p <= |t| && a <= |t| && s.y >= TOP && Falling(s.items, TOP, s.y)
    ensures var u := Till(t, pg, s, a); u.y >= TOP && Falling(u.items, TOP, u.y)
    decreases |t| - s.p
  {
    if s.p < a {
      NextFalls(t, pg, s);
      TillFalls(t, pg, Next(t, pg, s), a);
    }
  }
}

/** Greedy word wrap over a span of a byte text: the words, the lines, and why no other way of
    breaking the words into lines that fit needs fewer of them. */
module Wrap {

  type Byte = b: int | 0 <= b < 256

  const SP: Byte := 32

  /** The bytes [from, to) of the text, w pixels wide. */
  datatype Word = Word(from: nat, to: nat, w: nat)

  /** The advance of each byte in a face; every glyph advances by at least one pixel. */
  type Advances = a: seq<int> | |a| == 256 && forall c :: 0 <= c < 256 ==> a[c] >= 1
    witness seq(256, _ => 1)

  // ---------- words and widths ----------

  function SkipSpaces(t: seq<Byte>, a: nat, b: nat): (s: nat)
    requires a <= b <= |t|
    ensures a <= s <= b && (s < b ==> t[s] != SP) && forall i :: a <= i < s ==> t[i] == SP
    decreases b - a
  {
    if a < b && t[a] == SP then SkipSpaces(t, a + 1, b) else a
  }

  function WordEnd(t: seq<Byte>, a: nat, b: nat): (e: nat)
    requires a <= b <= |t|
    ensures a <= e <= b && (e < b ==> t[e] == SP) && forall i :: a <= i < e ==> t[i] != SP
    decreases b - a
  {
    if a < b && t[a] != SP then WordEnd(t, a + 1, b) else a
  }

  function Span(t: seq<Byte>, adv: Advances, a: nat, b: nat): (w: nat)
    requires a <= b <= |t|
    decreases b - a
  {
    if a == b then 0 else adv[t[a]] + Span(t, adv, a + 1, b)
  }

  /** The maximal runs of non-spaces of [a, b), in order. */
  function Words(t: seq<Byte>, adv: Advances, a: nat, b: nat): (ws: seq<Word>)
    requires a <= b <= |t|
    decreases b - a
  {
    var s := SkipSpaces(t, a, b);
    if s == b then []
    else
      var e := WordEnd(t, s, b);
      [Word(s, e, Span(t, adv, s, e))] + Words(t, adv, e, b)
  }

  /** The running width of a line: its words and a space sp pixels wide between any two. */
  function Width(sp: nat, ws: seq<Word>): (w: nat) {
    if ws == [] then 0
    else if |ws| == 1 then ws[0].w
    else Width(sp, ws[..|ws| - 1]) + sp + ws[|ws| - 1].w
  }

  // ---------- the lines ----------

  // How many words the first line takes, given that it takes k.
  function Fit(sp: nat, max: int, ws: seq<Word>, k: nat): (n: nat)
    requires 1 <= k <= |ws|
    ensures k <= n <= |ws|
    decreases |ws| - k
  {
    if k < |ws| && Width(sp, ws[..k + 1]) <= max then Fit(sp, max, ws, k + 1) else k
  }

  lemma {:induction false} FitStops(sp: nat, max: int, ws: seq<Word>, k: nat)
    requires 1 <= k <= |ws|
    ensures var n := Fit(sp, max, ws, k);
      (n < |ws| ==> Width(sp, ws[..n + 1]) > max) && (n == k || Width(sp, ws[..n]) <= max)
    decreases |ws| - k
  {
    if k < |ws| && Width(sp, ws[..k + 1]) <= max { FitStops(sp, max, ws, k + 1); }
  }

  /** Each line takes as many words as fit, at least one. */
  function Lines(sp: nat, max: int, ws: seq<Word>): (ls: seq<seq<Word>>)
    decreases |ws|
  {
    if ws == [] then []
    else
      var k := Fit(sp, max, ws, 1);
      [ws[..k]] + Lines(sp, max, ws[k..])
  }

  function Flat(ls: seq<seq<Word>>): (ws: seq<Word>) {
    if ls == [] then [] else ls[0] + Flat(ls[1..])
  }

  lemma FlatCons(l: seq<Word>, ls: seq<seq<Word>>)
    ensures Flat([l] + ls) == l + Flat(ls)
  {
    assert ([l] + ls)[1..] == ls;
  }

  // A line is not empty, and fits unless it is one word.
  predicate Whole(sp: nat, max: int, l: seq<Word>) { l != [] && (Width(sp, l) <= max || |l| == 1) }

  lemma {:induction false} FlatLines(sp: nat, max: int, ws: seq<Word>)
    ensures Flat(Lines(sp, max, ws)) == ws
    decreases |ws|
  {
    if ws != [] {
      var k := Fit(sp, max, ws, 1);
      var l, r := ws[..k], ws[k..];
      FlatLines(sp, max, r);
      FlatCons(l, Lines(sp, max, r));
      assert l + r == ws;
    }
  }

  lemma {:induction false} LinesWhole(sp: nat, max: int, ws: seq<Word>)
    ensures forall i :: 0 <= i < |Lines(sp, max, ws)| ==> Whole(sp, max, Lines(sp, max, ws)[i])
    decreases |ws|
  {
    if ws != [] {
      var k := Fit(sp, max, ws, 1);
      FitStops(sp, max, ws, 1);
      LinesWhole(sp, max, ws[k..]);
      assert Whole(sp, max, ws[..k]);
    }
  }

  /** Every word is on exactly one line, in order, and every line fits unless it is one word. */
  lemma LinesHoldTheWords(sp: nat, max: int, ws: seq<Word>)
    ensures Flat(Lines(sp, max, ws)) == ws
    ensures forall i :: 0 <= i < |Lines(sp, max, ws)| ==> Whole(sp, max, Lines(sp, max, ws)[i])
  {
    FlatLines(sp, max, ws);
    LinesWhole(sp, max, ws);
  }

  // Dropping the first word makes a line no wider, and so does dropping the last.
  lemma {:induction false} Narrower(sp: nat, ws: seq<Word>)
    requires |ws| >= 2
    ensures Width(sp, ws[1..]) <= Width(sp, ws) && Width(sp, ws[..|ws| - 1]) <= Width(sp, ws)
    decreases |ws|
  {
    var front := ws[..|ws| - 1];
    if |ws| > 2 {
      Narrower(sp, front);
      assert front[1..] == ws[1..][..|ws| - 2];
      assert ws[1..][|ws| - 2] == ws[|ws| - 1];
    }
  }

  lemma {:induction false} PrefixNarrower(sp: nat, ws: seq<Word>, k: nat, n: nat)
    requires 1 <= k <= n <= |ws|
    ensures Width(sp, ws[..k]) <= Width(sp, ws[..n])
    decreases n
  {
    if k < n {
      Narrower(sp, ws[..n]);
      assert ws[..n][..n - 1] == ws[..n - 1];
      PrefixNarrower(sp, ws, k, n - 1);
    }
  }

  lemma {:induction false} TailNarrower(sp: nat, ws: seq<Word>, i: nat)
    requires i < |ws|
    ensures Width(sp, ws[i..]) <= Width(sp, ws)
    decreases i
  {
    if i == 0 {
      assert ws[0..] == ws;
    } else {
      Narrower(sp, ws);
      TailNarrower(sp, ws[1..], i - 1);
      assert ws[1..][i - 1..] == ws[i..];
    }
  }

  // The first line takes every prefix that fits.
  lemma FitIsLargest(sp: nat, max: int, ws: seq<Word>, n: nat)
    requires 1 <= n <= |ws| && Width(sp, ws[..n]) <= max
    ensures n <= Fit(sp, max, ws, 1)
  {
    var k := Fit(sp, max, ws, 1);
    FitStops(sp, max, ws, 1);
    if k < n { PrefixNarrower(sp, ws, k + 1, n); }
  }

  // A line begun at word i of the first line takes at least the rest of that line.
  lemma RestFits(sp: nat, max: int, ws: seq<Word>, i: nat)
    requires 0 < i < |ws| && i < Fit(sp, max, ws, 1)
    ensures i + Fit(sp, max, ws[i..], 1) >= Fit(sp, max, ws, 1)
  {
    var k := Fit(sp, max, ws, 1);
    FitStops(sp, max, ws, 1);
    TailNarrower(sp, ws[..k], i);
    assert ws[i..][..k - i] == ws[..k][i..];
    FitIsLargest(sp, max, ws[i..], k - i);
  }

  lemma DropDrop(ws: seq<Word>, a: nat, b: nat)
    requires a + b <= |ws|
    ensures ws[a..][b..] == ws[a + b..]
  {
  }

  // Where the line begun at word i ends.
  function NextStart(sp: nat, max: int, ws: seq<Word>, i: nat): (n: nat)
    requires i < |ws|
    ensures i < n <= |ws|
  {
    i + Fit(sp, max, ws[i..], 1)
  }

  lemma OneLine(sp: nat, max: int, ws: seq<Word>, i: nat)
    requires i < |ws|
    ensures |Lines(sp, max, ws[i..])| == 1 + |Lines(sp, max, ws[NextStart(sp, max, ws, i)..])|
  {
    DropDrop(ws, i, Fit(sp, max, ws[i..], 1));
  }

  // A line begun later ends no earlier.
  lemma NextMono(sp: nat, max: int, ws: seq<Word>, i: nat, j: nat)
    requires i < j < |ws| && j < NextStart(sp, max, ws, i)
    ensures NextStart(sp, max, ws, i) <= NextStart(sp, max, ws, j)
  {
    RestFits(sp, max, ws[i..], j - i);
    DropDrop(ws, i, j - i);
  }

  // Starting later never needs more lines.
  lemma {:induction false} FewerFromLater(sp: nat, max: int, ws: seq<Word>, i: nat, j: nat)
    requires i <= j <= |ws|
    ensures |Lines(sp, max, ws[j..])| <= |Lines(sp, max, ws[i..])|
    decreases |ws| - i
  {
    if i < j {
      OneLine(sp, max, ws, i);
      if NextStart(sp, max, ws, i) <= j {
        FewerFromLater(sp, max, ws, NextStart(sp, max, ws, i), j);
      } else {
        OneLine(sp, max, ws, j);
        NextMono(sp, max, ws, i, j);
        FewerFromLater(sp, max, ws, NextStart(sp, max, ws, i), NextStart(sp, max, ws, j));
      }
    }
  }

  /** A way of breaking the words into lines that all fit. */
  ghost predicate Breaks(sp: nat, max: int, ws: seq<Word>, ls: seq<seq<Word>>) {
    Flat(ls) == ws && forall i :: 0 <= i < |ls| ==> ls[i] != [] && Width(sp, ls[i]) <= max
  }

  /** Greedy is optimal: no breaking of the words into fitting lines has fewer lines. */
  lemma {:induction false} GreedyIsOptimal(sp: nat, max: int, ws: seq<Word>, ls: seq<seq<Word>>)
    requires Breaks(sp, max, ws, ls)
    ensures |Lines(sp, max, ws)| <= |ls|
    decreases |ls|
  {
    if ls != [] {
      var n := |ls[0]|;
      assert ws[..n] == ls[0] && ws[n..] == Flat(ls[1..]);
      GreedyIsOptimal(sp, max, ws[n..], ls[1..]);
      FitIsLargest(sp, max, ws, n);
      var k := Fit(sp, max, ws, 1);
      FewerFromLater(sp, max, ws, n, k);
    }
  }

  // ---------- slices of the source ----------

  lemma {:induction false} SpanSplit(t: seq<Byte>, adv: Advances, a: nat, m: nat, b: nat)
    requires a <= m <= b <= |t|
    ensures Span(t, adv, a, b) == Span(t, adv, a, m) + Span(t, adv, m, b)
    decreases m - a
  {
    if a < m { SpanSplit(t, adv, a + 1, m, b); }
  }

  lemma {:induction false} SpanPositive(t: seq<Byte>, adv: Advances, a: nat, b: nat)
    requires a <= b <= |t|
    ensures Span(t, adv, a, b) >= b - a
    decreases b - a
  {
    if a < b { SpanPositive(t, adv, a + 1, b); }
  }

  /** Consecutive words of the text, with nothing but spaces between them. */
  ghost predicate Spaced(t: seq<Byte>, adv: Advances, ws: seq<Word>) {
    (forall i :: 0 <= i < |ws| ==> ws[i].from < ws[i].to <= |t| && ws[i].w == Span(t, adv, ws[i].from, ws[i].to))
    && (forall i :: 0 < i < |ws| ==> Gap(t, ws[i - 1], ws[i]))
  }

  ghost predicate Gap(t: seq<Byte>, v: Word, w: Word)
    requires w.from <= |t|
  {
    v.to < w.from && forall j :: v.to <= j < w.from ==> t[j] == SP
  }

  lemma {:induction false} WordsAreSpaced(t: seq<Byte>, adv: Advances, a: nat, b: nat)
    requires a <= b <= |t|
    ensures Spaced(t, adv, Words(t, adv, a, b))
    ensures forall i :: 0 <= i < |Words(t, adv, a, b)| ==> a <= Words(t, adv, a, b)[i].from && Words(t, adv, a, b)[i].to <= b
    decreases b - a
  {
    var s := SkipSpaces(t, a, b);
    if s < b {
      var e := WordEnd(t, s, b);
      WordsAreSpaced(t, adv, e, b);
      var rest, ws := Words(t, adv, e, b), Words(t, adv, a, b);
      assert forall i :: 0 < i < |ws| ==> ws[i] == rest[i - 1];
      if rest != [] {
        assert rest[0].from == SkipSpaces(t, e, b);
        assert Gap(t, ws[0], ws[1]);
      }
    }
  }

  // Only single spaces between the words.
  ghost predicate SingleSpaced(ws: seq<Word>) {
    forall i :: 0 < i < |ws| ==> ws[i].from == ws[i - 1].to + 1
  }

  /** The slice of the source that shows a line is exactly as wide as the wrap counted if and
      only if the words are separated by single spaces; otherwise it is wider. */
  lemma {:induction false} SliceWidth(t: seq<Byte>, adv: Advances, l: seq<Word>)
    requires Spaced(t, adv, l) && l != []
    ensures l[0].from <= l[|l| - 1].from < l[|l| - 1].to <= |t|
    ensures Width(adv[SP], l) <= Span(t, adv, l[0].from, l[|l| - 1].to)
    ensures Width(adv[SP], l) == Span(t, adv, l[0].from, l[|l| - 1].to) <==> SingleSpaced(l)
    decreases |l|
  {
    if |l| > 1 {
      var n := |l| - 1;
      SliceWidth(t, adv, l[..n]);
      assert Gap(t, l[n - 1], l[n]);
      WiderByGap(t, adv, l[0].from, l[n - 1].to, l[n].from, l[n].to);
      OneMoreSpace(l);
    }
  }

  lemma OneMoreSpace(l: seq<Word>)
    requires |l| > 1
    ensures var n := |l| - 1; SingleSpaced(l) <==> SingleSpaced(l[..n]) && l[n].from == l[n - 1].to + 1
  {
  }

  // A slice that ends in a gap and a word.
  lemma WiderByGap(t: seq<Byte>, adv: Advances, a: nat, g: nat, w: nat, b: nat)
    requires a <= g < w <= b <= |t| && forall j :: g <= j < w ==> t[j] == SP
    ensures Span(t, adv, a, b) >= Span(t, adv, a, g) + adv[SP] + Span(t, adv, w, b)
    ensures Span(t, adv, a, b) == Span(t, adv, a, g) + adv[SP] + Span(t, adv, w, b) <==> w == g + 1
  {
    SpanSplit(t, adv, a, g, b);
    SpanSplit(t, adv, g, w, b);
    SpanPositive(t, adv, g + 1, w);
  }

  // ---------- words and spaces ----------

  // No space inside a word.
  ghost predicate Solid(t: seq<Byte>, w: Word) {
    w.to <= |t| && forall j :: w.from <= j < w.to ==> t[j] != SP
  }

  ghost predicate Unbroken(t: seq<Byte>, ws: seq<Word>) {
    forall i :: 0 <= i < |ws| ==> Solid(t, ws[i])
  }

  lemma {:induction false} WordsUnbroken(t: seq<Byte>, adv: Advances, a: nat, b: nat)
    requires a <= b <= |t|
    ensures Unbroken(t, Words(t, adv, a, b))
    decreases b - a
  {
    var s := SkipSpaces(t, a, b);
    if s < b {
      var e := WordEnd(t, s, b);
      WordsUnbroken(t, adv, e, b);
      var rest, ws := Words(t, adv, e, b), Words(t, adv, a, b);
      assert Solid(t, ws[0]);
      assert forall i :: 0 < i < |ws| ==> ws[i] == rest[i - 1];
    }
  }

  /** Everything between the spaces is in a word. */
  lemma {:induction false} WordsCover(t: seq<Byte>, adv: Advances, a: nat, b: nat, p: nat) returns (k: nat)
    requires a <= p < b <= |t| && t[p] != SP
    ensures k < |Words(t, adv, a, b)| && Words(t, adv, a, b)[k].from <= p < Words(t, adv, a, b)[k].to
    decreases b - a
  {
    var s := SkipSpaces(t, a, b);
    var e := WordEnd(t, s, b);
    k := 0;
    if p >= e {
      var i := WordsCover(t, adv, e, b, p);
      k := i + 1;
    }
  }

  /** Nowhere two spaces in a row. */
  predicate NoDoubleSpace(t: seq<Byte>, a: nat, b: nat)
    requires a <= b <= |t|
  {
    forall p :: a < p < b ==> !(t[p - 1] == SP && t[p] == SP)
  }

  /** Words are separated by single spaces exactly when their slice has no double space. */
  lemma {:induction false} SingleSpacedIff(t: seq<Byte>, adv: Advances, l: seq<Word>)
    requires Spaced(t, adv, l) && Unbroken(t, l) && l != []
    ensures l[0].from <= l[|l| - 1].from < l[|l| - 1].to
    ensures SingleSpaced(l) <==> NoDoubleSpace(t, l[0].from, l[|l| - 1].to)
    decreases |l|
  {
    var n := |l| - 1;
    if n > 0 {
      var front := l[..n];
      assert front[0] == l[0] && front[|front| - 1] == l[n - 1];
      SingleSpacedIff(t, adv, front);
      OneMoreSpace(l);
      assert Gap(t, l[n - 1], l[n]) && Solid(t, l[n]) && Solid(t, l[n - 1]);
      DoubleSpaceAt(t, l[0].from, l[n - 1].to, l[n].from, l[n].to);
    } else {
      assert Solid(t, l[0]);
    }
  }

  // A slice followed by a gap and a word.
  lemma DoubleSpaceAt(t: seq<Byte>, a: nat, g: nat, w: nat, b: nat)
    requires a < g < w < b <= |t| && (forall j :: g <= j < w ==> t[j] == SP)
    requires (forall j :: w <= j < b ==> t[j] != SP) && t[g - 1] != SP
    ensures NoDoubleSpace(t, a, b) <==> NoDoubleSpace(t, a, g) && w == g + 1
  {
    if w > g + 1 {
      assert t[g + 1 - 1] == SP && t[g + 1] == SP;
    }
  }
}

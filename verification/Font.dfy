/** The WMF1 font object: glyph cells laid out as a byte stream, and header, advances and
    pixels read back from it. */
module Font {
  import opened Arith

  type Byte = b: int | 0 <= b < 256

  // ---------- bits ----------

  function Pow2(k: nat): (p: nat)
    ensures p >= 1
  {
    if k == 0 then 1 else 2 * Pow2(k - 1)
  }

  lemma {:induction false} Pow2Add(a: nat, b: nat)
    ensures Pow2(a + b) == Pow2(a) * Pow2(b)
    decreases a
  {
    if a > 0 {
      Pow2Add(a - 1, b);
      assert Pow2(a + b) == 2 * (Pow2(a - 1) * Pow2(b));
    }
  }

  /** Bit k of a number. */
  predicate Bit(v: int, k: nat) {
    (v / Pow2(k)) % 2 == 1
  }

  lemma DivDiv(n: nat, a: nat, b: nat)
    requires a > 0 && b > 0
    ensures a * b > 0 && (n / a) / b == n / (a * b)
  {
    var q := n / a;
    var r := q / b;
    assert q * a <= n < q * a + a;
    assert r * b <= q <= r * b + b - 1;
    assert a * b > 0;
    Scale(r * b, q, a);
    Scale(q + 1, r * b + b, a);
    assert r * (a * b) == r * b * a;
    assert (r * b + b) * a == r * (a * b) + a * b;
    QuotientIs(n, a * b, r);
  }

  function Shl(v: nat, s: nat): (r: nat) {
    v * Pow2(s)
  }

  // Shifting left and reading further left is the same bit.
  lemma BitShift(v: nat, s: nat, k: nat)
    ensures Bit(Shl(v, s), k + s) == Bit(v, k)
  {
    Pow2Add(s, k);
    DivDiv(v * Pow2(s), Pow2(s), Pow2(k));
    QuotientIs(v * Pow2(s), Pow2(s), v);
  }

  // A bit of one byte of a number.
  lemma BitOfByte(v: nat, p: nat, k: nat)
    requires k < 8
    ensures Bit(ByteAt(v, p), k) == Bit(v, p + k)
  {
    Shifts(v, p, k);
    LowByte(v / Pow2(p), k);
  }

  // The byte of v whose lowest bit is bit p.
  function ByteAt(v: nat, p: nat): (b: Byte) {
    v / Pow2(p) % 256
  }

  lemma Shifts(v: nat, p: nat, k: nat)
    ensures v / Pow2(p) / Pow2(k) == v / Pow2(p + k)
  {
    Pow2Add(p, k);
    DivDiv(v, Pow2(p), Pow2(k));
  }

  // The byte keeps the bits below 8: its multiple of 256 is an even multiple of 2 to the k.
  lemma LowByte(n: int, k: nat)
    requires k < 8
    ensures Bit(n % 256, k) == Bit(n, k)
  {
    var p, m := Pow2(k), Pow2(7 - k);
    Pow2Add(k, 7 - k);
    Pow2Is128();
    var q, r := n / 256, n % 256;
    var h := r / p;
    Floor(r, p);
    assert n == q * 256 + r;
    assert (h + 2 * (m * q)) * p == h * p + 2 * q * (p * m);
    QuotientIs(n, p, h + 2 * (m * q));
  }

  lemma Pow2Is128()
    ensures Pow2(7) == 128 && Pow2(8) == 256
  {
    assert Pow2(3) == 8 && Pow2(4) == 16;
    Pow2Add(3, 4);
    Pow2Add(4, 4);
  }

  // ---------- bytes and words ----------

  /** The k low bytes of v, most significant first. */
  function Big(v: nat, k: nat): (b: seq<Byte>)
    ensures |b| == k
    decreases k
  {
    if k == 0 then [] else Big(v / 256, k - 1) + [v % 256]
  }

  lemma {:induction false} BigAt(v: nat, k: nat, j: nat)
    requires j < k
    ensures Big(v, k)[j] == ByteAt(v, 8 * (k - 1 - j))
    decreases k
  {
    if j < k - 1 {
      BigAt(v / 256, k - 1, j);
      Pow2Is128();
      Pow2Add(8, 8 * (k - 2 - j));
      DivDiv(v, 256, Pow2(8 * (k - 2 - j)));
    }
  }

  /** The i-th 32-bit word of a big-endian byte stream. */
  function Word(b: seq<Byte>, i: nat): (w: nat)
    requires 4 * i + 4 <= |b|
  {
    var b0: int, b1: int, b2: int, b3: int := b[4 * i], b[4 * i + 1], b[4 * i + 2], b[4 * i + 3];
    ((b0 * 256 + b1) * 256 + b2) * 256 + b3
  }

  /** A 32-bit word as four bytes, most significant first. */
  function U32(v: nat): (b: seq<Byte>)
    ensures |b| == 4
  {
    [v / 0x100_0000 % 256, v / 0x1_0000 % 256, v / 256 % 256, v % 256]
  }

  lemma WordOfU32(b: seq<Byte>, i: nat, v: nat)
    requires 4 * i + 4 <= |b| && v < 0x1_0000_0000 && b[4 * i..4 * i + 4] == U32(v)
    ensures Word(b, i) == v
  {
    var w := b[4 * i..4 * i + 4];
    assert b[4 * i] == w[0] && b[4 * i + 1] == w[1] && b[4 * i + 2] == w[2] && b[4 * i + 3] == w[3];
    FourBytes(v);
  }

  lemma FourBytes(v: nat)
    requires v < 0x1_0000_0000
    ensures ((v / 0x100_0000 % 256 * 256 + v / 0x1_0000 % 256) * 256 + v / 256 % 256) * 256 + v % 256 == v
  {
    var x, y := v / 256, v / 0x1_0000;
    assert y == x / 256 && v / 0x100_0000 == y / 256;
  }

  /** The bytes of a word are read most significant first. */
  lemma ByteOfWord(b: seq<Byte>, i: nat, k: nat)
    requires 4 * i + 4 <= |b| && k < 4
    ensures ByteAt(Word(b, i), 8 * (3 - k)) == b[4 * i + k]
  {
    Pow2OfBytes();
    BytesOfWord(b[4 * i], b[4 * i + 1], b[4 * i + 2], b[4 * i + 3]);
  }

  lemma BytesOfWord(b0: int, b1: int, b2: int, b3: int)
    requires 0 <= b0 < 256 && 0 <= b1 < 256 && 0 <= b2 < 256 && 0 <= b3 < 256
    ensures var w := ((b0 * 256 + b1) * 256 + b2) * 256 + b3;
      w / 0x100_0000 % 256 == b0 && w / 0x1_0000 % 256 == b1 && w / 256 % 256 == b2 && w / 1 % 256 == b3
  {
    var w := ((b0 * 256 + b1) * 256 + b2) * 256 + b3;
    assert w / 256 == (b0 * 256 + b1) * 256 + b2;
    assert w / 0x1_0000 == b0 * 256 + b1;
  }

  lemma Pow2OfBytes()
    ensures Pow2(0) == 1 && Pow2(8) == 256 && Pow2(16) == 65536 && Pow2(24) == 16777216
  {
    Pow2Is128();
    Pow2Add(8, 8);
    Pow2Add(8, 16);
  }

  // ---------- the object ----------

  const MAGIC := 0x574D4631

  /** A baked face: cell size, first codepoint, flags, and for each glyph its advance and the
      rows of its cell, whose bit cellW - 1 - x is pixel x. */
  datatype Face = Face(cellW: nat, cellH: nat, base: nat, flags: nat, widths: seq<Byte>, cells: seq<seq<nat>>) {
    function Count(): nat { |widths| }
    // Bytes per row, and the unused bits in them.
    function Bpr(): nat { (cellW + 7) / 8 }
    function Shift(): nat { (cellW + 7) / 8 * 8 - cellW }

    /** Everything fits its field. */
    ghost predicate Ok() {
      1 <= cellW < 0x1_0000 && 1 <= cellH < 0x1_0000 && base < 0x1_0000 && flags < 0x1_0000
      && 1 <= |widths| == |cells| < 0x1_0000
      && forall g :: 0 <= g < |cells| ==> |cells[g]| == cellH && forall y :: 0 <= y < cellH ==> cells[g][y] < Pow2(cellW)
    }
  }

  // How many bytes to the next word boundary.
  function Gap(n: nat): (g: nat)
    ensures g < 4 && (n + g) % 4 == 0
  {
    (4 - n % 4) % 4
  }

  function Padded(b: seq<Byte>): (p: seq<Byte>)
    ensures b <= p
  {
    b + seq(Gap(|b|), _ => 0)
  }

  function Header(f: Face): (b: seq<Byte>)
    ensures |b| == 16
  {
    U32(MAGIC) + U32(f.cellW * 0x1_0000 + f.cellH) + U32(f.base * 0x1_0000 + f.Count()) + U32(f.flags * 0x1_0000 + f.Bpr())
  }

  // The rows of a cell, each shifted so that its pixels begin at the top bit of its first byte.
  function Rows(bpr: nat, shift: nat, rows: seq<nat>): (b: seq<Byte>) {
    if rows == [] then []
    else Rows(bpr, shift, rows[..|rows| - 1]) + Big(Shl(rows[|rows| - 1], shift), bpr)
  }

  function Bitmaps(bpr: nat, shift: nat, cells: seq<seq<nat>>): (b: seq<Byte>) {
    if cells == [] then []
    else Bitmaps(bpr, shift, cells[..|cells| - 1]) + Rows(bpr, shift, cells[|cells| - 1])
  }

  function Blob(f: Face): (b: seq<Byte>) {
    Padded(Padded(Header(f) + f.widths) + Bitmaps(f.Bpr(), f.Shift(), f.cells))
  }

  method Pad(b: seq<Byte>) returns (p: seq<Byte>)
    ensures p == Padded(b)
  {
    p := b;
    var i: nat := 0;
    while |p| % 4 != 0
      invariant i <= Gap(|b|) && p == b + seq(i, _ => 0)
      decreases Gap(|b|) - i
    {
      p := p + [0];
      i := i + 1;
    }
  }

  /** The encoder. */
  method FaceBlob(f: Face) returns (blob: seq<Byte>)
    requires f.Ok()
    ensures blob == Blob(f)
  {
    var bpr := f.Bpr();
    blob := U32(MAGIC);
    blob := blob + U32(f.cellW * 0x1_0000 + f.cellH);
    blob := blob + U32(f.base * 0x1_0000 + |f.widths|);
    blob := blob + U32(f.flags * 0x1_0000 + bpr);
    blob := blob + f.widths;
    assert blob == Header(f) + f.widths;
    blob := PutTables(blob, bpr, bpr * 8 - f.cellW, f.cells);
  }

  method PutTables(b: seq<Byte>, bpr: nat, shift: nat, cells: seq<seq<nat>>) returns (blob: seq<Byte>)
    ensures blob == Padded(Padded(b) + Bitmaps(bpr, shift, cells))
  {
    blob := Pad(b);
    blob := PutCells(blob, bpr, shift, cells);
    blob := Pad(blob);
  }

  method PutCells(b: seq<Byte>, bpr: nat, shift: nat, cells: seq<seq<nat>>) returns (blob: seq<Byte>)
    ensures blob == b + Bitmaps(bpr, shift, cells)
  {
    blob := b;
    var g := 0;
    while g < |cells|
      invariant 0 <= g <= |cells| && blob == b + Bitmaps(bpr, shift, cells[..g])
    {
      assert cells[..g + 1][..g] == cells[..g];
      blob := PutRows(blob, bpr, shift, cells[g]);
      g := g + 1;
    }
    assert cells[..g] == cells;
  }

  method PutRows(b: seq<Byte>, bpr: nat, shift: nat, rows: seq<nat>) returns (blob: seq<Byte>)
    ensures blob == b + Rows(bpr, shift, rows)
  {
    blob := b;
    var y := 0;
    while y < |rows|
      invariant 0 <= y <= |rows| && blob == b + Rows(bpr, shift, rows[..y])
    {
      assert rows[..y + 1][..y] == rows[..y];
      blob := blob + Big(Shl(rows[y], shift), bpr);
      y := y + 1;
    }
    assert rows[..y] == rows;
  }

  // ---------- reading it back ----------

  const CACHE := 256
  const WIDTHS_OFF := 16

  /** What the window manager keeps of a loaded face. */
  datatype Desc = Desc(cellW: int, cellH: int, base: int, count: int, flags: int)

  datatype Loaded = Proportional(d: Desc) | Failsafe

  function High(w: nat): nat { w / 0x1_0000 % 0x1_0000 }
  function Low(w: nat): nat { w % 0x1_0000 }

  /** Parse the cached header; a bad one leaves the failsafe face. */
  function Load(cache: seq<Byte>): (l: Loaded)
    requires |cache| >= CACHE
  {
    var d := Desc(High(Word(cache, 1)), Low(Word(cache, 1)), High(Word(cache, 2)), Low(Word(cache, 2)), High(Word(cache, 3)));
    if Word(cache, 0) != MAGIC || d.cellW <= 0 || d.cellH <= 0 || d.count <= 0 then Failsafe else Proportional(d)
  }

  /** The advance of a codepoint; `mem` is the cached header and what lies behind it. */
  function Advance(mem: seq<Byte>, d: Desc, cp: int): (w: int)
    requires d.count >= 0 && WIDTHS_OFF + d.count + 3 <= |mem|
  {
    var gi := cp - d.base;
    if gi < 0 || gi >= d.count then d.cellW
    else
      var off := WIDTHS_OFF + gi;
      ByteAt(Word(mem, off / 4), 8 * (3 - off % 4))
  }

  // The cache row, filled from the loaded object, and the memory behind it.
  function Memory(obj: seq<Byte>, beyond: seq<Byte>): seq<Byte>
    requires |obj| >= CACHE
  {
    obj[..CACHE] + beyond
  }

  lemma HeaderBytes(f: Face, b: seq<Byte>)
    requires Blob(f) <= b
    ensures |b| >= 16 + f.Count()
    ensures b[..16] == Header(f) && b[16..16 + f.Count()] == f.widths
  {
    var h := Header(f) + f.widths;
    assert h <= Padded(h) <= Padded(h) + Bitmaps(f.Bpr(), f.Shift(), f.cells) <= Blob(f);
    assert h <= b;
    assert b[..|h|] == h;
    assert b[..16] == h[..16] == Header(f);
    assert b[16..|h|] == h[16..] == f.widths;
  }

  lemma Fields(a: nat, b: nat)
    requires a < 0x1_0000 && b < 0x1_0000
    ensures High(a * 0x1_0000 + b) == a && Low(a * 0x1_0000 + b) == b && a * 0x1_0000 + b < 0x1_0000_0000
  {
  }

  // The words of the header.
  lemma HeaderWords(f: Face, m: seq<Byte>)
    requires f.Ok() && |m| >= 16 && m[..16] == Header(f)
    ensures Word(m, 0) == MAGIC && Word(m, 1) == f.cellW * 0x1_0000 + f.cellH
    ensures Word(m, 2) == f.base * 0x1_0000 + f.Count() && Word(m, 3) == f.flags * 0x1_0000 + f.Bpr()
  {
    Fields(f.cellW, f.cellH);
    Fields(f.base, f.Count());
    Fields(f.flags, f.Bpr());
    HeaderIs(m, MAGIC, f.cellW * 0x1_0000 + f.cellH, f.base * 0x1_0000 + f.Count(), f.flags * 0x1_0000 + f.Bpr());
  }

  lemma HeaderIs(m: seq<Byte>, v0: nat, v1: nat, v2: nat, v3: nat)
    requires v0 < 0x1_0000_0000 && v1 < 0x1_0000_0000 && v2 < 0x1_0000_0000 && v3 < 0x1_0000_0000
    requires |m| >= 16 && m[..16] == U32(v0) + U32(v1) + U32(v2) + U32(v3)
    ensures Word(m, 0) == v0 && Word(m, 1) == v1 && Word(m, 2) == v2 && Word(m, 3) == v3
  {
    var a, b, c, d := U32(v0), U32(v1), U32(v2), U32(v3);
    Quarters(a, b, c, d, m);
    assert Word(m, 0) == v0 by { WordOfU32(m, 0, v0); }
    assert Word(m, 1) == v1 by { WordOfU32(m, 1, v1); }
    assert Word(m, 2) == v2 by { WordOfU32(m, 2, v2); }
    assert Word(m, 3) == v3 by { WordOfU32(m, 3, v3); }
  }

  lemma Quarters(a: seq<Byte>, b: seq<Byte>, c: seq<Byte>, d: seq<Byte>, m: seq<Byte>)
    requires |a| == |b| == |c| == |d| == 4 && |m| >= 16 && m[..16] == a + b + c + d
    ensures m[0..4] == a && m[4..8] == b && m[8..12] == c && m[12..16] == d
  {
    var s := m[..16];
    assert m[0..4] == s[0..4] && m[4..8] == s[4..8] && m[8..12] == s[8..12] && m[12..16] == s[12..16];
  }

  /** Parsing the encoded header gives back the cell size, first codepoint, count and flags. */
  lemma HeaderRoundTrip(f: Face, obj: seq<Byte>, beyond: seq<Byte>)
    requires f.Ok() && Blob(f) <= obj && |obj| >= CACHE
    ensures Load(Memory(obj, beyond)) == Proportional(DescOf(f))
  {
    HeaderBytes(f, obj);
    var m := Memory(obj, beyond);
    assert m[..16] == obj[..16];
    HeaderWords(f, m);
    Fields(f.cellW, f.cellH);
    Fields(f.base, f.Count());
    Fields(f.flags, f.Bpr());
  }

  ghost predicate HasWidths(f: Face, obj: seq<Byte>) {
    |obj| >= CACHE && |obj| >= 16 + f.Count() && obj[16..16 + f.Count()] == f.widths
  }

  /** Exactly what the advance of glyph gi is: the encoded width for the first 240 glyphs, and for
      the others whatever lies behind the 256-byte cache row. */
  lemma AdvanceIs(f: Face, obj: seq<Byte>, beyond: seq<Byte>, gi: nat)
    requires HasWidths(f, obj) && WIDTHS_OFF + f.Count() + 3 <= CACHE + |beyond|
    requires gi < f.Count()
    ensures Advance(Memory(obj, beyond), DescOf(f), f.base + gi) ==
      if gi < CACHE - WIDTHS_OFF then f.widths[gi] else beyond[gi - (CACHE - WIDTHS_OFF)]
  {
    AdvanceAt(Memory(obj, beyond), DescOf(f), gi);
    MemoryAt(f, obj, beyond, gi);
  }

  function DescOf(f: Face): Desc {
    Desc(f.cellW, f.cellH, f.base, f.Count(), f.flags)
  }

  lemma AdvanceAt(mem: seq<Byte>, d: Desc, gi: nat)
    requires gi < d.count && WIDTHS_OFF + d.count + 3 <= |mem|
    ensures Advance(mem, d, d.base + gi) == mem[WIDTHS_OFF + gi]
  {
    var off := WIDTHS_OFF + gi;
    ByteOfWord(mem, off / 4, off % 4);
    assert 4 * (off / 4) + off % 4 == off;
  }

  lemma MemoryAt(f: Face, obj: seq<Byte>, beyond: seq<Byte>, gi: nat)
    requires HasWidths(f, obj) && gi < f.Count() && WIDTHS_OFF + f.Count() <= CACHE + |beyond|
    ensures Memory(obj, beyond)[WIDTHS_OFF + gi] ==
      if gi < CACHE - WIDTHS_OFF then f.widths[gi] else beyond[gi - (CACHE - WIDTHS_OFF)]
  {
    assert obj[WIDTHS_OFF + gi] == obj[16..16 + f.Count()][gi];
  }

  // Every glyph advances as encoded.
  ghost predicate AdvancesRight(f: Face, obj: seq<Byte>, beyond: seq<Byte>)
    requires |obj| >= CACHE && WIDTHS_OFF + f.Count() + 3 <= CACHE + |beyond|
  {
    forall gi :: 0 <= gi < f.Count() ==> Advance(Memory(obj, beyond), DescOf(f), f.base + gi) == f.widths[gi]
  }

  lemma EnoughCache(f: Face, obj: seq<Byte>, beyond: seq<Byte>)
    requires HasWidths(f, obj) && f.Count() <= CACHE - WIDTHS_OFF && |beyond| >= f.Count() + 3
    ensures AdvancesRight(f, obj, beyond)
  {
    forall gi: nat | gi < f.Count()
      ensures Advance(Memory(obj, beyond), DescOf(f), f.base + gi) == f.widths[gi]
    {
      AdvanceIs(f, obj, beyond, gi);
    }
  }

  // With more than 240 glyphs, some memory behind the cache gives a wrong advance.
  lemma CacheTooSmall(f: Face, obj: seq<Byte>) returns (beyond: seq<Byte>)
    requires HasWidths(f, obj) && f.Count() > CACHE - WIDTHS_OFF
    ensures |beyond| >= f.Count() + 3 && !AdvancesRight(f, obj, beyond)
  {
    var other: Byte := if f.widths[240] == 0 then 1 else 0;
    beyond := seq(f.Count() + 3, _ => other);
    WrongAt(f, obj, beyond, 240);
  }

  lemma WrongAt(f: Face, obj: seq<Byte>, beyond: seq<Byte>, gi: nat)
    requires HasWidths(f, obj) && WIDTHS_OFF + f.Count() + 3 <= CACHE + |beyond|
    requires CACHE - WIDTHS_OFF <= gi < f.Count() && beyond[gi - (CACHE - WIDTHS_OFF)] != f.widths[gi]
    ensures !AdvancesRight(f, obj, beyond)
  {
    AdvanceIs(f, obj, beyond, gi);
  }

  /** All advances are right, whatever lies behind the cache, if and only if there are at most
      240 glyphs. */
  lemma AdvancesRightIff(f: Face, obj: seq<Byte>)
    requires f.Ok() && Blob(f) <= obj && |obj| >= CACHE
    ensures (forall beyond :: |beyond| >= f.Count() + 3 ==> AdvancesRight(f, obj, beyond)) <==> f.Count() <= 240
  {
    HeaderBytes(f, obj);
    WidthsRightIff(f, obj);
  }

  lemma WidthsRightIff(f: Face, obj: seq<Byte>)
    requires HasWidths(f, obj)
    ensures (forall beyond :: |beyond| >= f.Count() + 3 ==> AdvancesRight(f, obj, beyond)) <==> f.Count() <= 240
  {
    if f.Count() <= CACHE - WIDTHS_OFF {
      forall beyond: seq<Byte> | |beyond| >= f.Count() + 3
        ensures AdvancesRight(f, obj, beyond)
      {
        EnoughCache(f, obj, beyond);
      }
    } else {
      var beyond := CacheTooSmall(f, obj);
    }
  }

  // ---------- pixels ----------

  lemma Next(n: int, d: int)
    ensures (n + 1) * d == n * d + d
  {
  }

  lemma {:induction false} RowsLength(bpr: nat, shift: nat, rows: seq<nat>)
    ensures |Rows(bpr, shift, rows)| == |rows| * bpr
    decreases |rows|
  {
    if rows != [] {
      RowsLength(bpr, shift, rows[..|rows| - 1]);
      Next(|rows| - 1, bpr);
    }
  }

  lemma {:induction false} RowsAt(bpr: nat, shift: nat, rows: seq<nat>, y: nat, j: nat)
    requires y < |rows| && j < bpr
    ensures 0 <= y * bpr + j < |rows| * bpr == |Rows(bpr, shift, rows)|
    ensures Rows(bpr, shift, rows)[y * bpr + j] == Big(Shl(rows[y], shift), bpr)[j]
    decreases |rows|
  {
    var n := |rows| - 1;
    RowsLength(bpr, shift, rows);
    RowsLength(bpr, shift, rows[..n]);
    Next(n, bpr);
    if y < n { RowsAt(bpr, shift, rows[..n], y, j); }
  }

  lemma {:induction false} BitmapsLength(bpr: nat, shift: nat, cells: seq<seq<nat>>, size: nat)
    requires forall c :: 0 <= c < |cells| ==> |Rows(bpr, shift, cells[c])| == size
    ensures |Bitmaps(bpr, shift, cells)| == |cells| * size
    decreases |cells|
  {
    if cells != [] {
      BitmapsLength(bpr, shift, cells[..|cells| - 1], size);
      Next(|cells| - 1, size);
    }
  }

  lemma {:induction false} BitmapsAt(bpr: nat, shift: nat, cells: seq<seq<nat>>, size: nat, g: nat, i: nat)
    requires g < |cells| && i < size
    requires forall c :: 0 <= c < |cells| ==> |Rows(bpr, shift, cells[c])| == size
    ensures 0 <= g * size + i < |cells| * size == |Bitmaps(bpr, shift, cells)|
    ensures Bitmaps(bpr, shift, cells)[g * size + i] == Rows(bpr, shift, cells[g])[i]
    decreases |cells|
  {
    var n := |cells| - 1;
    BitmapsLength(bpr, shift, cells, size);
    BitmapsLength(bpr, shift, cells[..n], size);
    Next(n, size);
    if g < n { BitmapsAt(bpr, shift, cells[..n], size, g, i); }
  }

  // Where the byte with pixel (x, y) of glyph g is laid out.
  function PixelByte(f: Face, g: nat, x: nat, y: nat): (i: int) {
    |Padded(Header(f) + f.widths)| + (g * (f.cellH * f.Bpr()) + (y * f.Bpr() + x / 8))
  }

  // One bit of a shifted row.
  lemma RowBit(cellW: nat, bpr: nat, shift: nat, row: nat, x: nat)
    requires shift == bpr * 8 - cellW && x < cellW
    ensures x / 8 < bpr && (Bit(Big(Shl(row, shift), bpr)[x / 8], 7 - x % 8) <==> Bit(row, cellW - 1 - x))
  {
    var p := 8 * (bpr - 1 - x / 8);
    BigAt(Shl(row, shift), bpr, x / 8);
    BitOfByte(Shl(row, shift), p, 7 - x % 8);
    BitShift(row, shift, cellW - 1 - x);
    assert p + (7 - x % 8) == (cellW - 1 - x) + shift;
  }

  /** Each pixel of each cell can be read back at its laid-out byte, most significant bit first. */
  lemma PixelRoundTrip(f: Face, g: nat, x: nat, y: nat)
    requires f.Ok() && g < f.Count() && x < f.cellW && y < f.cellH
    ensures 0 <= PixelByte(f, g, x, y) < |Blob(f)|
    ensures Bit(Blob(f)[PixelByte(f, g, x, y)], 7 - x % 8) <==> Bit(f.cells[g][y], f.cellW - 1 - x)
  {
    PixelIn(f, g, x, y, x / 8, PixelByte(f, g, x, y));
    RowBit(f.cellW, f.Bpr(), f.Shift(), f.cells[g][y], x);
  }

  lemma PixelIn(f: Face, g: nat, x: nat, y: nat, j: nat, i: int)
    requires f.Ok() && g < f.Count() && y < f.cellH && j == x / 8 && j < f.Bpr() && i == PixelByte(f, g, x, y)
    ensures 0 <= i < |Blob(f)| && Blob(f)[i] == Big(Shl(f.cells[g][y], f.Shift()), f.Bpr())[j]
  {
    CellByte(f, g, y, j);
    InBlob(f, g * (f.cellH * f.Bpr()) + (y * f.Bpr() + j));
  }

  // Where byte j of row y of glyph g is.
  lemma CellByte(f: Face, g: nat, y: nat, j: nat)
    requires f.Ok() && g < f.Count() && y < f.cellH && j < f.Bpr()
    ensures var i := g * (f.cellH * f.Bpr()) + (y * f.Bpr() + j);
      0 <= i < |Bitmaps(f.Bpr(), f.Shift(), f.cells)|
      && Bitmaps(f.Bpr(), f.Shift(), f.cells)[i] == Big(Shl(f.cells[g][y], f.Shift()), f.Bpr())[j]
  {
    var bpr, shift := f.Bpr(), f.Shift();
    var size := f.cellH * bpr;
    forall c | 0 <= c < |f.cells|
      ensures |Rows(bpr, shift, f.cells[c])| == size
    {
      RowsLength(bpr, shift, f.cells[c]);
    }
    RowsAt(bpr, shift, f.cells[g], y, j);
    BitmapsAt(bpr, shift, f.cells, size, g, y * bpr + j);
  }

  lemma InBlob(f: Face, i: nat)
    requires i < |Bitmaps(f.Bpr(), f.Shift(), f.cells)|
    ensures |Padded(Header(f) + f.widths)| + i < |Blob(f)|
    ensures Blob(f)[|Padded(Header(f) + f.widths)| + i] == Bitmaps(f.Bpr(), f.Shift(), f.cells)[i]
  {
  }
}

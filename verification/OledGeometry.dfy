/** Lines, columns and blocks of a display, and where a glyph has room. */
module OledGeometry {
  import opened Arithmetic

  const FONT_WIDTH := 6

  /** Two controllers, which are addressed differently; the display may start at a later column of the second. */
  datatype Chip = SSD1306 | SH1106(offset: nat)

  function Offset(chip: Chip): nat { if chip.SSD1306? then 0 else chip.offset }

  datatype Geometry = Geometry(width: nat, lines: nat, blockSize: nat, blockCount: nat, chip: Chip)

  function Size(g: Geometry): nat { g.width * g.lines }

  /** Columns are addressed with eight bits, pages with four; blocks tile the buffer, none is longer than a
      line, and a glyph meets at most two of them. */
  predicate Tiled(g: Geometry) {
    && FONT_WIDTH <= g.width && g.width + Offset(g.chip) < 0x100 && 0 < g.lines <= 16
    && g.blockSize * g.blockCount == Size(g) && FONT_WIDTH - 1 <= g.blockSize <= g.width
  }

  predicate Divides(p: nat, n: nat)
    requires p > 0
  {
    n == 0 || (n >= p && Divides(p, n - p))
  }

  /** Moreover every line consists of whole blocks. */
  predicate Suits(g: Geometry) { Tiled(g) && Divides(g.blockSize, g.width) }

  lemma SuitsBounds(g: Geometry)
    requires Suits(g)
    ensures FONT_WIDTH <= g.width && g.width + Offset(g.chip) < 0x100 && 0 < g.lines <= 16
    ensures FONT_WIDTH - 1 <= g.blockSize <= g.width
  {}

  // ---- places: line and column of a position in the buffer

  function Line(g: Geometry, c: nat): nat
    requires g.width > 0
  {
    c / g.width
  }

  function Column(g: Geometry, c: nat): (col: nat)
    requires g.width > 0
    ensures col < g.width
  {
    c % g.width
  }

  /** The first place of a line. */
  function LineAt(g: Geometry, line: nat): nat { line * g.width }

  lemma PlaceIs(g: Geometry, c: nat)
    requires g.width > 0
    ensures c == LineAt(g, Line(g, c)) + Column(g, c)
    ensures c < Size(g) ==> Line(g, c) < g.lines
  {
    QuotientRest(c, g.width);
    if c < Size(g) { PageBelow(c, g.width, g.lines); }
  }

  lemma PlaceUnique(g: Geometry, c: nat, line: nat, col: nat)
    requires c == LineAt(g, line) + col && col < g.width
    ensures Line(g, c) == line && Column(g, c) == col
  {
    DivUnique(c, g.width, line, col);
  }

  lemma LineStep(g: Geometry, line: nat)
    ensures LineAt(g, 0) == 0 && LineAt(g, line + 1) == LineAt(g, line) + g.width
  {
    MulNext(line, g.width);
  }

  lemma LineInside(g: Geometry, line: nat)
    requires line < g.lines
    ensures LineAt(g, line) + g.width <= Size(g)
    ensures line + 1 == g.lines ==> LineAt(g, line) + g.width == Size(g)
  {
    MulMono(g.lines, line + 1, g.width);
    MulNext(line, g.width);
    Commute(g.width, g.lines);
  }

  /** Lines add to the line number only. */
  lemma LinesAdd(g: Geometry, line: nat, x: nat)
    requires g.width > 0
    ensures Line(g, LineAt(g, line) + x) == line + Line(g, x) && Column(g, LineAt(g, line) + x) == Column(g, x)
  {
    QuotientRest(x, g.width);
    Distribute(line, x / g.width, g.width);
    DivUnique(line * g.width + x, g.width, line + x / g.width, x % g.width);
  }

  // ---- room for a glyph

  /** Room for one glyph inside the buffer. */
  predicate HasRoom(g: Geometry, c: nat) { c + FONT_WIDTH <= Size(g) }

  /** Room for one glyph, inside the line and inside the buffer. */
  predicate CursorFits(g: Geometry, c: nat)
    requires g.width > 0
  {
    HasRoom(g, c) && Column(g, c) + FONT_WIDTH <= g.width
  }

  /** A glyph that fits in a line of the display fits in the buffer. */
  lemma LineRoom(g: Geometry, c: nat)
    requires g.width > 0 && c < Size(g) && Column(g, c) + FONT_WIDTH <= g.width
    ensures CursorFits(g, c)
  {
    hide Line;
    hide Column;
    hide LineAt;
    hide Size;
    PlaceIs(g, c);
    LineInside(g, Line(g, c));
  }

  /** There is room at the beginning of every line. */
  lemma LineStart(g: Geometry, line: nat)
    requires FONT_WIDTH <= g.width && line < g.lines
    ensures CursorFits(g, LineAt(g, line))
  {
    hide Line;
    hide Column;
    hide LineAt;
    hide Size;
    PlaceUnique(g, LineAt(g, line), line, 0);
    LineInside(g, line);
  }

  lemma StartFits(g: Geometry)
    requires FONT_WIDTH <= g.width && 0 < g.lines
    ensures CursorFits(g, 0) && 0 < Size(g)
  {
    LineStep(g, 0);
    LineStart(g, 0);
  }

  // ---- blocks

  function Below(n: nat): (s: set<nat>)
    ensures forall i: nat :: i in s <==> i < n
    ensures |s| == n
  {
    if n == 0 then {} else Below(n - 1) + {n - 1}
  }

  function Blocks(g: Geometry): set<nat> { Below(g.blockCount) }

  function Block(g: Geometry, i: nat): nat
    requires g.blockSize > 0
  {
    i / g.blockSize
  }

  /** The first place of a block. */
  function BlockStart(g: Geometry, b: nat): nat { g.blockSize * b }

  lemma InBlock(g: Geometry, b: nat, i: nat)
    requires g.blockSize > 0
    ensures Block(g, i) == b <==> BlockStart(g, b) <= i < BlockStart(g, b) + g.blockSize
  {
    DivRange(i, b, g.blockSize);
    Commute(g.blockSize, b);
  }

  lemma BlockInside(g: Geometry, b: nat)
    requires Tiled(g) && b < g.blockCount
    ensures BlockStart(g, b) + g.blockSize <= Size(g)
  {
    MulMono(g.blockCount, b + 1, g.blockSize);
    MulNext(b, g.blockSize);
    Commute(g.blockSize, b);
    Commute(g.blockSize, g.blockCount);
  }

  lemma BlockBound(g: Geometry, i: nat)
    requires Tiled(g) && i < Size(g)
    ensures Block(g, i) in Blocks(g)
  {
    Commute(g.blockSize, g.blockCount);
    DivBelow(i, g.blockCount, g.blockSize);
  }

  /** A glyph lies in the blocks of its first and its last byte. */
  lemma TwoBlocks(g: Geometry, c: nat, i: nat)
    requires g.blockSize >= FONT_WIDTH - 1 && c <= i < c + FONT_WIDTH
    ensures Block(g, i) == Block(g, c) || Block(g, i) == Block(g, c + FONT_WIDTH - 1)
  {
    TwoBlocksIff(g.blockSize);
    assert InTwoBlocks(g.blockSize, c, i);
  }

  /** The block size at which marking two blocks is enough, whatever the cursor. */
  lemma TwoBlocksIff(p: nat)
    requires p > 0
    ensures p >= FONT_WIDTH - 1 <==> forall c: nat, i: nat :: c <= i < c + FONT_WIDTH ==> InTwoBlocks(p, c, i)
  {
    if p >= FONT_WIDTH - 1 {
      forall c: nat, i: nat | c <= i < c + FONT_WIDTH
        ensures InTwoBlocks(p, c, i)
      {
        DivMono(i, c + FONT_WIDTH - 1, p);
        DivMono(c, i, p);
        DivNear(c, c + FONT_WIDTH - 1, p);
      }
    } else {
      DivUnique(p, p, 1, 0);
      DivUnique(p - 1, p, 0, p - 1);
      DivMono(2 * p, p - 1 + FONT_WIDTH - 1, p);
      DivUnique(2 * p, p, 2, 0);
      assert !InTwoBlocks(p, p - 1, p);
    }
  }

  /** Byte `i` of a glyph at `c` is in the block of the glyph's first or last byte. */
  predicate InTwoBlocks(p: nat, c: nat, i: nat)
    requires p > 0
  {
    i / p == c / p || i / p == (c + FONT_WIDTH - 1) / p
  }

  // ---- blocks and lines

  /** A position that is a multiple of the block size leaves room for a block before the next multiple. */
  lemma WholeBlocks(p: nat, n: nat, b: nat, q: nat, r: nat)
    requires p > 0 && p * b == q * (n * p) + r && r < n * p
    ensures r + p <= n * p
  {
    assert q * (n * p) == (q * n) * p;
    var k: int := b - q * n;
    assert r == k * p by { assert k * p == b * p - (q * n) * p; }
    if k >= n { MulMono(k, n, p); }
    if k < n && k >= 0 { MulMono(n, k + 1, p); MulNext(k, p); }
  }

  lemma OneLess(p: nat, n: nat)
    requires 0 < p <= n
    ensures n % p == (n - p) % p
  {
    QuotientRest(n - p, p);
    MulNext((n - p) / p, p);
    DivUnique(n, p, (n - p) / p + 1, (n - p) % p);
  }

  lemma {:induction false} DividesMeans(p: nat, n: nat)
    requires p > 0
    ensures Divides(p, n) <==> n % p == 0
  {
    if n >= p {
      DividesMeans(p, n - p);
      OneLess(p, n);
    } else {
      DivUnique(n, p, 0, n);
    }
  }

  /** A block lies inside one line. */
  lemma BlockInLine(g: Geometry, b: nat)
    requires g.blockSize > 0 && g.width > 0 && Divides(g.blockSize, g.width)
    ensures Column(g, BlockStart(g, b)) + g.blockSize <= g.width
  {
    var at, n := BlockStart(g, b), g.width / g.blockSize;
    DividesMeans(g.blockSize, g.width);
    QuotientRest(g.width, g.blockSize);
    PlaceIs(g, at);
    hide Divides;
    hide Line;
    hide Column;
    BlockEnds(g.blockSize, n, g.width, b, Line(g, at), Column(g, at));
  }

  lemma BlockEnds(p: nat, n: nat, width: nat, b: nat, q: nat, r: nat)
    requires p > 0 && width == n * p && p * b == q * width + r && r < width
    ensures r + p <= width
  {
    WholeBlocks(p, n, b, q, r);
  }

  lemma LessFactor(p: nat, a: nat, b: nat)
    requires p * a < p * b
    ensures a < b
  {}

  /** The first block that does not end with the first line. */
  lemma PartialBlock(p: nat, width: nat, lines: nat, count: nat)
    requires 0 < p <= width && lines > 0 && width % p != 0 && p * count == width * lines
    ensures var at := p * (width / p);
            width / p < count && at < width && at < width * lines && at + width % p == width
  {
    var b := width / p;
    var at := p * b;
    QuotientRest(width, p);
    assert at == b * p;
    MulAtLeast(lines, width);
    assert p * b < p * count;
    LessFactor(p, b, count);
  }
}

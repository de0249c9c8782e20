/** The addressing window of a block, as the controller understands it, is the block. */
module OledAddressing {
  import opened Arithmetic
  import opened Common
  import opened OledGeometry
  import opened OledModel

  lemma Halves(column: nat)
    requires column < 0x100
    ensures column / 16 < 16 && column == column / 16 * 16 + column % 16
  {}

  lemma LowHalf(base: nat, n: nat)
    requires base % 16 == 0 && n < 16
    ensures (base + n) % 16 == n && n % 16 == n
  {}

  /** The chip puts the two halves of a column address together again. */
  lemma CommandsMean(chip: Chip, page: nat, column: nat, last: nat, lastPage: nat)
    requires page < 16 && Offset(chip) + column < 0x100
    ensures var w := Understood(chip, Commands(chip, page, column, last, lastPage));
            w.first == Offset(chip) + column && w.page == page && w.last == if chip.SSD1306? then last else 0x100
  {
    var c := Offset(chip) + column;
    Halves(c);
    LowHalf(PAM_PAGE_ADDR, page);
    LowHalf(PAM_SETCOLUMN_LSB, c % 16);
    LowHalf(PAM_SETCOLUMN_MSB, c / 16);
  }

  /** What the chip understands: the column and the page of the first byte; in horizontal addressing the
      column of the last byte of the block. */
  lemma WindowMeans(g: Geometry, page: nat, column: nat)
    requires 0 < g.blockSize <= g.width && g.width + Offset(g.chip) < 0x100 && page < 16 && column < g.width
    ensures var w := Understood(g.chip, BoundsOn(g, page, column));
            && w.first == Offset(g.chip) + column && w.page == page
            && w.last == (if g.chip.SSD1306? then (g.blockSize - 1 + column) % 0x100 else 0x100)
  {
    hide Commands;
    hide Understood;
    hide LastColumn;
    hide LastPage;
    SmallBytes(page, column);
    LastColumnIs(g, column);
    CommandsMean(g.chip, page, column, LastColumn(g, column), LastPage(g));
  }

  lemma LastColumnIs(g: Geometry, column: nat)
    requires 0 < g.blockSize <= g.width
    ensures LastColumn(g, column) == (g.blockSize - 1 + column) % 0x100
  {
    BlockColumns(g.blockSize, g.width);
  }

  lemma SmallBytes(page: nat, column: nat)
    requires page < 0x100 && column < 0x100
    ensures page % 0x100 == page && column % 0x100 == column
  {}

  lemma VisibleAt(g: Geometry, page: nat, column: nat)
    requires page < g.lines
    ensures Visible(g, Pointer(page, Offset(g.chip) + column))
            == if column < g.width then Some(LineAt(g, page) + column) else None
  {
    hide LineAt;
  }

  lemma BlockColumns(p: nat, width: nat)
    requires 0 < p <= width
    ensures (p + width - 1) % width == p - 1
  {
    DivUnique(p + width - 1, width, 1, p - 1);
  }

  /** As long as the last column is not met, the pointer moves along the page. */
  lemma {:induction false} PointerRuns(w: Window, k: nat)
    requires !(w.first <= w.last < w.first + k)
    ensures PointerAt(w, k) == Pointer(w.page, w.first + k)
  {
    if k > 0 { PointerRuns(w, k - 1); }
  }

  /** Byte `k` of a transfer to block `b` appears at place `k` of that block. */
  predicate Lands(g: Geometry, b: nat, k: nat)
    requires g.width > 0
  {
    Visible(g, PointerAt(WindowOf(g, b), k)) == Some(BlockStart(g, b) + k)
  }

  /** Byte `k` of a transfer to a window that begins at a page and a column and ends no earlier. */
  lemma LandsIn(g: Geometry, w: Window, page: nat, column: nat, k: nat)
    requires w.first == Offset(g.chip) + column && w.page == page < g.lines
    requires w.last == if g.chip.SSD1306? then (g.blockSize - 1 + column) % 0x100 else 0x100
    requires k < g.blockSize < 0x100 && Offset(g.chip) + column + k < 0x100
    ensures Visible(g, PointerAt(w, k)) == if column + k < g.width then Some(LineAt(g, page) + column + k) else None
  {
    hide PointerAt;
    hide LineAt;
    PointerRuns(w, k);
    hide Visible;
    VisibleAt(g, page, column + k);
  }

  lemma LandsOn(g: Geometry, page: nat, column: nat, k: nat)
    requires 0 < g.blockSize <= g.width && g.width + Offset(g.chip) < 0x100 && page < g.lines <= 16
    requires k < g.blockSize && column < g.width && column + k <= g.width
    ensures Visible(g, PointerAt(Understood(g.chip, BoundsOn(g, page, column)), k))
            == if column + k < g.width then Some(LineAt(g, page) + column + k) else None
  {
    hide BoundsOn;
    hide Understood;
    hide Visible;
    hide PointerAt;
    hide LineAt;
    WindowMeans(g, page, column);
    LandsIn(g, Understood(g.chip, BoundsOn(g, page, column)), page, column, k);
  }

  /** The addressing window of a block is exactly the block: each byte of a transfer lands at its own place. */
  lemma WindowIsBlock(g: Geometry, b: nat, k: nat)
    requires Suits(g) && b < g.blockCount && k < g.blockSize
    ensures Lands(g, b, k)
  {
    SuitsBounds(g);
    BlockInside(g, b);
    BlockInLine(g, b);
    hide BoundsOn;
    hide Visible;
    hide PointerAt;
    hide BlockStart;
    hide Line;
    hide Column;
    hide LineAt;
    hide Size;
    hide Suits;
    var at := BlockStart(g, b);
    PlaceIs(g, at);
    LandsOn(g, Line(g, at), Column(g, at), k);
  }

  /** Where the configuration goes wrong: a block that does not end with its line is cut off. */
  lemma BlockCutOff(g: Geometry) returns (b: nat, k: nat)
    requires Tiled(g) && !Suits(g)
    ensures b < g.blockCount && k < g.blockSize && !Lands(g, b, k)
  {
    b := g.width / g.blockSize;
    k := g.width % g.blockSize;
    DividesMeans(g.blockSize, g.width);
    PartialBlock(g.blockSize, g.width, g.lines, g.blockCount);
    var at := BlockStart(g, b);
    LineStep(g, 0);
    PlaceUnique(g, at, 0, at);
    hide BoundsOn;
    hide Visible;
    hide PointerAt;
    hide Line;
    hide Column;
    hide LineAt;
    LandsOn(g, 0, at, k);
  }

  /** The exact condition, for blocks no longer than a line: every byte of every transfer lands at its own
      place if and only if a line consists of whole blocks. */
  lemma WindowIsBlockIff(g: Geometry)
    requires Tiled(g)
    ensures Suits(g) <==> g.width % g.blockSize == 0
    ensures Suits(g) <==>
            forall b, k :: 0 <= b < g.blockCount && 0 <= k < g.blockSize ==> Lands(g, b, k)
  {
    DividesMeans(g.blockSize, g.width);
    if Suits(g) {
      forall b, k | 0 <= b < g.blockCount && 0 <= k < g.blockSize
        ensures Lands(g, b, k)
      {
        WindowIsBlock(g, b, k);
      }
    } else {
      var b, k := BlockCutOff(g);
    }
  }

  /** A transfer, whole or in part, overwrites the bytes of its block. */
  lemma {:induction false} ReceiveIsOverwrite(g: Geometry, ram: seq<bv8>, b: nat, at: nat, data: seq<bv8>)
    requires Suits(g) && b < g.blockCount && |data| <= g.blockSize
    requires at == BlockStart(g, b) && at + g.blockSize <= |ram|
    ensures Receive(g, ram, WindowOf(g, b), data) == Overwrite(ram, at, data)
  {
    hide WindowOf;
    hide PointerAt;
    hide Visible;
    hide Suits;
    hide BlockStart;
    if data != [] {
      var n := |data| - 1;
      ReceiveIsOverwrite(g, ram, b, at, data[..n]);
      WindowIsBlock(g, b, n);
    }
  }
}

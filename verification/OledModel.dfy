/**
The OLED driver over values: the frame buffer, the display's own memory, and the set of blocks
whose dirty bit is set. Bytes are columns of eight pixels, so they are bit vectors.
*/
module OledModel {
  import opened Arithmetic
  import opened Common
  import opened OledGeometry

  const FONT_START := 0
  const FONT_END := 223
  const NEWLINE := 10
  const RETURN := 13
  const SPACE := 32

  datatype State = State(
    buffer: seq<bv8>, cursor: nat, dirty: set<nat>, ram: seq<bv8>, initialized: bool, active: bool, scrolling: bool)

  predicate Shaped(g: Geometry, s: State)
    requires Suits(g)
  {
    |s.buffer| == Size(g) && |s.ram| == Size(g) && s.dirty <= Blocks(g) && s.cursor < Size(g)
  }

  /** Wherever the dirty bit is clear the display shows the buffer. */
  predicate Coherent(g: Geometry, s: State)
    requires Suits(g) && Shaped(g, s)
  {
    s.initialized && !s.scrolling ==>
      forall i :: 0 <= i < Size(g) && Block(g, i) !in s.dirty ==> s.ram[i] == s.buffer[i]
  }

  // ---- cursor

  function AdvanceChar(g: Geometry, c: nat): nat
    requires Suits(g)
  {
    var next := c + FONT_WIDTH;
    var space := g.width - Column(g, next);
    var next' := if space < FONT_WIDTH then next + space else next;
    if next' >= Size(g) then 0 else next'
  }

  /** The beginning of the next line, or of the buffer after the last line. */
  function NextLine(g: Geometry, c: nat): nat
    requires Suits(g)
  {
    var remaining := g.width - Column(g, c);
    if c + remaining >= Size(g) then 0 else c + remaining
  }

  /** Column and line are bytes, the index has 16 bits. */
  function CursorIndex(g: Geometry, col: nat, line: nat): nat { (LineAt(g, line) + col * FONT_WIDTH) % 0x1_0000 }

  function CursorAt(g: Geometry, col: nat, line: nat): nat {
    if CursorIndex(g, col, line) >= Size(g) then 0 else CursorIndex(g, col, line)
  }

  // ---- writers

  function Overwrite(b: seq<bv8>, at: nat, data: seq<bv8>): (b': seq<bv8>)
    requires at + |data| <= |b|
    ensures |b'| == |b|
    ensures forall i :: 0 <= i < |b| ==> b'[i] == if at <= i < at + |data| then data[i - at] else b[i]
  {
    b[..at] + data + b[at + |data|..]
  }

  function Glyph(font: seq<bv8>, c: nat, invert: bool): (glyph: seq<bv8>)
    requires |font| >= (FONT_END + 1 - FONT_START) * FONT_WIDTH
    ensures |glyph| == FONT_WIDTH
  {
    seq(FONT_WIDTH, i requires 0 <= i < FONT_WIDTH =>
      var b := if FONT_START <= c <= FONT_END then font[(c - FONT_START) * FONT_WIDTH + i] else 0;
      if invert then !b else b)
  }

  /** The blocks marked for a glyph drawn at `c`. */
  function Touched(g: Geometry, before: seq<bv8>, glyph: seq<bv8>, c: nat): set<nat>
    requires g.blockSize > 0
  {
    if before == glyph then {} else {Block(g, c), Block(g, c + FONT_WIDTH - 1)}
  }

  function PutGlyph(g: Geometry, s: State, glyph: seq<bv8>): State
    requires Suits(g) && Shaped(g, s) && HasRoom(g, s.cursor) && |glyph| == FONT_WIDTH
  {
    var c := s.cursor;
    var touched := Touched(g, s.buffer[c..c + FONT_WIDTH], glyph, c);
    s.(buffer := Overwrite(s.buffer, c, glyph), dirty := s.dirty + touched, cursor := AdvanceChar(g, c))
  }

  /** Bytes that differ are stored and their blocks marked; the cursor stays. */
  function WriteRaw(g: Geometry, s: State, data: seq<bv8>): State
    requires Suits(g) && Shaped(g, s)
  {
    var n := if s.cursor + |data| > Size(g) then Size(g) - s.cursor else |data|;
    StoreBytes(g, s, s.cursor, data[..n])
  }

  function StoreByte(g: Geometry, s: State, i: nat, b: bv8): State
    requires g.blockSize > 0 && i < |s.buffer|
  {
    if s.buffer[i] == b then s else s.(buffer := s.buffer[i := b], dirty := s.dirty + {Block(g, i)})
  }

  function StoreBytes(g: Geometry, s: State, at: nat, data: seq<bv8>): (s': State)
    requires g.blockSize > 0 && at + |data| <= |s.buffer|
    ensures |s'.buffer| == |s.buffer|
  {
    if data == [] then s
    else
      var n := |data| - 1;
      StoreByte(g, StoreBytes(g, s, at, data[..n]), at + n, data[n])
  }

  function PixelMask(y: nat): bv8 { Bit(y % 8) }

  function WithPixel(b: bv8, y: nat, on: bool): bv8 { if on then b | PixelMask(y) else b & !PixelMask(y) }

  function WritePixel(g: Geometry, s: State, x: nat, y: nat, on: bool): State
    requires g.blockSize > 0
  {
    var i := x + y / 8 * g.width;
    if x >= g.width || i >= |s.buffer| then s else StoreByte(g, s, i, WithPixel(s.buffer[i], y, on))
  }

  /** Every line moved one column; the column left behind keeps its old contents. */
  function Panned(b: seq<bv8>, width: nat, left: bool): (b': seq<bv8>)
    requires width > 0
    ensures |b'| == |b|
  {
    seq(|b|, i requires 0 <= i < |b| => PannedByte(b, width, left, i))
  }

  function PannedByte(b: seq<bv8>, width: nat, left: bool, i: nat): bv8
    requires width > 0 && i < |b|
  {
    if left then if i % width + 1 < width && i + 1 < |b| then b[i + 1] else b[i]
    else if i % width > 0 then b[i - 1] else b[i]
  }

  function Pan(g: Geometry, s: State, left: bool): State
    requires g.width > 0
  {
    s.(buffer := Panned(s.buffer, g.width, left), dirty := Blocks(g))
  }

  function Clear(g: Geometry, s: State): State {
    s.(buffer := seq(Size(g), _ => 0), cursor := 0, dirty := Blocks(g))
  }

  // ---- addressing

  const COLUMN_ADDR := 0x21
  const PAGE_ADDR := 0x22
  const PAM_SETCOLUMN_LSB := 0x00
  const PAM_SETCOLUMN_MSB := 0x10
  const PAM_PAGE_ADDR := 0xB0
  const NOP := 0xE3

  /** The bytes by which a window is addressed: first and last column and page in horizontal addressing; page
      and the two halves of the first column in page addressing. */
  function Commands(chip: Chip, page: nat, column: nat, last: nat, lastPage: nat): (cmds: seq<nat>)
    ensures |cmds| == 6
  {
    match chip
    case SSD1306 => [COLUMN_ADDR, column, last, PAGE_ADDR, page, lastPage]
    case SH1106(offset) =>
      [PAM_PAGE_ADDR + page, PAM_SETCOLUMN_LSB + (offset + column) % 16,
       PAM_SETCOLUMN_MSB + (offset + column) / 16 % 16, NOP, NOP, NOP]
  }

  /** The column of the last byte of a block that begins at `column`. */
  function LastColumn(g: Geometry, column: nat): nat
    requires g.width > 0
  {
    ((g.blockSize + g.width - 1) % g.width + column) % 0x100
  }

  function LastPage(g: Geometry): nat
    requires g.width > 0
  {
    ((g.blockSize + g.width - 1) / g.width - 1) % 0x100
  }

  /** The bytes sent for a block that begins at a page and a column. */
  function BoundsOn(g: Geometry, page: nat, column: nat): (cmds: seq<nat>)
    requires g.width > 0
    ensures |cmds| == 6
  {
    Commands(g.chip, page % 0x100, column % 0x100, LastColumn(g, column % 0x100), LastPage(g))
  }

  function Bounds(g: Geometry, b: nat): (cmds: seq<nat>)
    requires g.width > 0
    ensures |cmds| == 6
  {
    BoundsOn(g, Line(g, BlockStart(g, b)), Column(g, BlockStart(g, b)))
  }

  datatype Window = Window(first: nat, last: nat, page: nat, lastPage: nat)

  /** What the chip makes of them. In page addressing the column just runs on. */
  function Understood(chip: Chip, cmds: seq<nat>): Window
    requires |cmds| == 6
  {
    match chip
    case SSD1306 => Window(cmds[1], cmds[2], cmds[4], cmds[5])
    case SH1106(_) => Window(cmds[2] % 16 * 16 + cmds[1] % 16, 0x100, cmds[0] % 16, 0)
  }

  function WindowOf(g: Geometry, b: nat): Window
    requires g.width > 0
  {
    Understood(g.chip, Bounds(g, b))
  }

  datatype Pointer = Pointer(page: nat, column: nat)

  /** Where the chip stores byte `k` of a transfer: from column to column, then from page to page. */
  function PointerAt(w: Window, k: nat): Pointer {
    if k == 0 then Pointer(w.page, w.first)
    else
      var p := PointerAt(w, k - 1);
      if p.column != w.last then Pointer(p.page, p.column + 1)
      else Pointer(if p.page == w.lastPage then w.page else p.page + 1, w.first)
  }

  /** The place on the display, if it is one. */
  function Visible(g: Geometry, p: Pointer): Option<nat> {
    if Offset(g.chip) <= p.column < Offset(g.chip) + g.width && p.page < g.lines
    then Some(LineAt(g, p.page) + p.column - Offset(g.chip))
    else None
  }

  /** One byte stored by the chip. */
  function StoreAt(g: Geometry, ram: seq<bv8>, p: Pointer, b: bv8): (ram': seq<bv8>)
    ensures |ram'| == |ram|
  {
    var i := Visible(g, p);
    if i.Some? && i.value < |ram| then ram[i.value := b] else ram
  }

  /** The memory of the display after `data` was sent to the window. */
  function Receive(g: Geometry, ram: seq<bv8>, w: Window, data: seq<bv8>): (ram': seq<bv8>)
    ensures |ram'| == |ram|
  {
    if data == [] then ram
    else
      var n := |data| - 1;
      StoreAt(g, Receive(g, ram, w, data[..n]), PointerAt(w, n), data[n])
  }

  // ---- transmissions

  /** What happens on the wire: whether the addressing command arrives, whether the data transfer
      succeeds, and how much of it reaches the display if it fails. */
  datatype Wire = Wire(command: bool, data: bool, sent: nat, on: bool)

  function FirstDirty(dirty: set<nat>, k: nat, count: nat): (b: nat)
    requires exists i :: k <= i < count && i in dirty
    ensures k <= b < count && b in dirty && forall i :: k <= i < b ==> i !in dirty
    decreases count - k
  {
    if k in dirty then k else FirstDirty(dirty, k + 1, count)
  }

  /** The bytes of the block from place `at` are sent to window `v`. */
  function SendBlock(g: Geometry, s: State, w: Wire, v: Window, at: nat): (ram': seq<bv8>)
    requires at + g.blockSize <= |s.buffer|
    ensures |ram'| == |s.ram|
  {
    var n := if w.data || w.sent >= g.blockSize then g.blockSize else w.sent;
    Receive(g, s.ram, v, s.buffer[at..at + n])
  }

  /** The block to be sent. */
  function NextBlock(g: Geometry, s: State): (b: nat)
    requires Suits(g) && Shaped(g, s) && s.dirty != {}
    ensures b < g.blockCount && b in s.dirty && BlockStart(g, b) + g.blockSize <= |s.buffer|
  {
    DirtyExists(g, s.dirty);
    var b := FirstDirty(s.dirty, 0, g.blockCount);
    BlockInside(g, b);
    b
  }

  function Render(g: Geometry, s: State, w: Wire): State
    requires Suits(g) && Shaped(g, s)
  {
    if !s.initialized || s.dirty == {} || s.scrolling || !w.command then s
    else
      var b := NextBlock(g, s);
      var s' := s.(ram := SendBlock(g, s, w, WindowOf(g, b), BlockStart(g, b)));
      if w.data then s'.(active := s.active || w.on, dirty := s.dirty - {b}) else s'
  }

  lemma DirtyExists(g: Geometry, dirty: set<nat>)
    requires dirty <= Blocks(g) && dirty != {}
    ensures exists i :: 0 <= i < g.blockCount && i in dirty
  {
    var i :| i in dirty;
    assert i in Blocks(g);
  }

  /** Scrolling starts only from a clean buffer. */
  function StartScroll(s: State, ok: bool): State {
    if s.initialized && s.dirty == {} && !s.scrolling && ok then s.(scrolling := true) else s
  }

  function StopScroll(g: Geometry, s: State, ok: bool): State {
    if s.initialized && s.scrolling && ok then s.(scrolling := false, dirty := Blocks(g)) else s
  }
}

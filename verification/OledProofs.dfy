/** Display coherence over every run, convergence of rendering, and the cursor. */
module OledProofs {
  import opened Arithmetic
  import opened Common
  import opened OledAddressing
  import opened OledGeometry
  import opened OledModel

  // ---- the cursor

  /** After a glyph drawn anywhere inside the buffer the next one fits in its line. */
  lemma AdvanceFits(g: Geometry, c: nat)
    requires Suits(g) && HasRoom(g, c)
    ensures CursorFits(g, AdvanceChar(g, c))
  {
    hide Suits;
    hide Line;
    hide Column;
    hide LineAt;
    hide Size;
    SuitsBounds(g);
    StartFits(g);
    var next := c + FONT_WIDTH;
    PlaceIs(g, next);
    var line := Line(g, next);
    LineStep(g, line);
    if next < Size(g) {
      LineInside(g, line);
      if line + 1 < g.lines { LineStart(g, line + 1); }
    }
  }

  /** The next glyph goes beside this one if it fits in the line, otherwise to the next line. */
  lemma AdvanceMeans(g: Geometry, c: nat)
    requires Suits(g) && CursorFits(g, c)
    ensures CursorFits(g, AdvanceChar(g, c))
    ensures AdvanceChar(g, c) == if Column(g, c) + 2 * FONT_WIDTH <= g.width then c + FONT_WIDTH else NextLine(g, c)
  {
    hide Suits;
    hide Line;
    hide Column;
    hide LineAt;
    hide Size;
    SuitsBounds(g);
    AdvanceFits(g, c);
    PlaceIs(g, c);
    var line, col := Line(g, c), Column(g, c);
    LineStep(g, line);
    LineInside(g, line);
    if col + FONT_WIDTH < g.width {
      PlaceUnique(g, c + FONT_WIDTH, line, col + FONT_WIDTH);
    } else {
      PlaceUnique(g, c + FONT_WIDTH, line + 1, 0);
    }
  }

  lemma NextLineFits(g: Geometry, c: nat)
    requires Suits(g) && c < Size(g)
    ensures CursorFits(g, NextLine(g, c))
    ensures NextLine(g, c) == if Line(g, c) + 1 < g.lines then LineAt(g, Line(g, c) + 1) else 0
  {
    hide Suits;
    hide Line;
    hide Column;
    hide LineAt;
    hide Size;
    SuitsBounds(g);
    StartFits(g);
    PlaceIs(g, c);
    var line := Line(g, c);
    LineStep(g, line);
    LineInside(g, line);
    if line + 1 < g.lines {
      LineStart(g, line + 1);
      LineInside(g, line + 1);
    }
  }

  /** Exactly which columns and lines leave room for a glyph: the position counted on from line to line lies
      behind the display, which sets the cursor to the beginning, or it has room in its line. */
  lemma CursorFitsIff(g: Geometry, col: nat, line: nat)
    requires Suits(g)
    ensures var i := CursorIndex(g, col, line);
            CursorFits(g, CursorAt(g, col, line)) <==>
            Line(g, i) >= g.lines || Column(g, i) + FONT_WIDTH <= g.width
    ensures var x := col * FONT_WIDTH;
            LineAt(g, line) + x < 0x1_0000 ==>
              (CursorFits(g, CursorAt(g, col, line)) <==>
               line + Line(g, x) >= g.lines || Column(g, x) + FONT_WIDTH <= g.width)
  {
    hide Suits;
    hide Line;
    hide Column;
    hide LineAt;
    hide Size;
    SuitsBounds(g);
    StartFits(g);
    IndexExact(g, col, line);
    hide CursorIndex;
    var i := CursorIndex(g, col, line);
    LinesAdd(g, line, col * FONT_WIDTH);
    PlaceIs(g, i);
    if i < Size(g) {
      LineInside(g, Line(g, i));
    } else if Line(g, i) < g.lines {
      LineInside(g, Line(g, i));
    }
  }

  lemma IndexExact(g: Geometry, col: nat, line: nat)
    ensures LineAt(g, line) + col * FONT_WIDTH < 0x1_0000 ==>
            CursorIndex(g, col, line) == LineAt(g, line) + col * FONT_WIDTH
  {
    hide LineAt;
  }

  /** A cursor set inside the characters and lines of the display has room for a glyph. */
  lemma CursorAtFits(g: Geometry, col: nat, line: nat)
    requires Suits(g) && col < g.width / FONT_WIDTH && line < g.lines
    ensures CursorFits(g, CursorAt(g, col, line)) && CursorAt(g, col, line) == LineAt(g, line) + col * FONT_WIDTH
  {
    SuitsBounds(g);
    var x := col * FONT_WIDTH;
    assert x + FONT_WIDTH <= g.width;
    hide Suits;
    hide Line;
    hide Column;
    LineStep(g, 0);
    PlaceUnique(g, x, 0, x);
    LineInside(g, line);
    LinesBelow(g, line);
    hide LineAt;
    hide Size;
    IndexExact(g, col, line);
    CursorFitsIff(g, col, line);
  }

  lemma LinesBelow(g: Geometry, line: nat)
    requires line < 16 && g.width < 0x100
    ensures LineAt(g, line) + g.width <= 0x1000
  {
    MulMono(16, line + 1, g.width);
    MulNext(line, g.width);
  }

  /** A cursor the code accepts although no glyph fits behind it: column 21 of the last line of a display of
      128 by 32 pixels. The next glyph would be drawn past the end of the buffer. */
  lemma CursorOverflows()
    ensures var g := Geometry(128, 4, 32, 16, SSD1306);
            Suits(g) && CursorAt(g, 21, 3) == 510 && !HasRoom(g, CursorAt(g, 21, 3))
  {
    DividesMeans(32, 128);
  }

  // ---- every operation keeps coherence

  ghost predicate Good(g: Geometry, s: State)
    requires Suits(g)
  {
    Shaped(g, s) && Coherent(g, s)
  }

  lemma GoodBounds(g: Geometry, s: State)
    requires Suits(g) && Good(g, s)
    ensures |s.buffer| == Size(g) && |s.ram| == Size(g) && s.cursor < Size(g)
    ensures g.width > 0 && g.blockSize > 0 && Shaped(g, s) && s.dirty <= Blocks(g)
  {}

  /** Writers touch neither the display nor a clean block without marking it. */
  lemma MarkedKeepsCoherent(g: Geometry, s: State, s': State)
    requires Suits(g) && Good(g, s) && Shaped(g, s')
    requires s'.ram == s.ram && s'.initialized == s.initialized && s'.scrolling == s.scrolling && s.dirty <= s'.dirty
    requires forall i :: 0 <= i < Size(g) && Block(g, i) !in s'.dirty ==> s'.buffer[i] == s.buffer[i]
    ensures Good(g, s')
  {}

  lemma PutGlyphGood(g: Geometry, s: State, glyph: seq<bv8>)
    requires Suits(g) && Good(g, s) && HasRoom(g, s.cursor) && |glyph| == FONT_WIDTH
    ensures Good(g, PutGlyph(g, s, glyph)) && CursorFits(g, PutGlyph(g, s, glyph).cursor)
  {
    hide AdvanceChar;
    hide Divides;
    var s', c := PutGlyph(g, s, glyph), s.cursor;
    AdvanceFits(g, c);
    BlockBound(g, c);
    BlockBound(g, c + FONT_WIDTH - 1);
    forall i | 0 <= i < Size(g) && Block(g, i) !in s'.dirty
      ensures s'.buffer[i] == s.buffer[i]
    {
      if c <= i < c + FONT_WIDTH {
        TwoBlocks(g, c, i);
        assert s.buffer[c..c + FONT_WIDTH][i - c] == s.buffer[i];
      }
    }
    MarkedKeepsCoherent(g, s, s');
  }

  lemma StoreByteGood(g: Geometry, s: State, i: nat, b: bv8)
    requires Suits(g) && Good(g, s) && i < Size(g)
    ensures Good(g, StoreByte(g, s, i, b)) && StoreByte(g, s, i, b).buffer == s.buffer[i := b]
  {
    BlockBound(g, i);
    MarkedKeepsCoherent(g, s, StoreByte(g, s, i, b));
  }

  /** A raw write stores all bytes that fit and keeps the display coherent. */
  lemma {:induction false} StoreBytesGood(g: Geometry, s: State, at: nat, data: seq<bv8>)
    requires Suits(g) && Good(g, s) && at + |data| <= Size(g)
    ensures var s' := StoreBytes(g, s, at, data);
            Good(g, s') && s'.cursor == s.cursor && s'.buffer == Overwrite(s.buffer, at, data)
  {
    hide Good;
    hide Suits;
    hide Block;
    hide Blocks;
    hide CursorFits;
    hide Coherent;
    GoodBounds(g, s);
    if data != [] {
      var n := |data| - 1;
      StoreBytesGood(g, s, at, data[..n]);
      StoreByteGood(g, StoreBytes(g, s, at, data[..n]), at + n, data[n]);
    }
  }

  lemma WritePixelGood(g: Geometry, s: State, x: nat, y: nat, on: bool)
    requires Suits(g) && Good(g, s)
    ensures Good(g, WritePixel(g, s, x, y, on))
  {
    hide Suits;
    hide WithPixel;
    hide StoreByte;
    var i := x + y / 8 * g.width;
    if x < g.width && i < |s.buffer| { StoreByteGood(g, s, i, WithPixel(s.buffer[i], y, on)); }
  }

  predicate Pixel(b: bv8, y: nat) { b & PixelMask(y) != 0 }

  /** Setting a pixel of a column sets that one and no other. */
  lemma PixelSet(b: bv8, y: nat, on: bool, z: nat)
    ensures Pixel(WithPixel(b, y, on), z) == if z % 8 == y % 8 then on else Pixel(b, z)
  {
    BitsApart(y % 8, z % 8);
    var m, n := PixelMask(y), PixelMask(z);
    assert b | m == (b | m) && (b & !m) & m == 0;
    if y % 8 != z % 8 { assert m & n == 0; OtherBits(b, m, n); }
  }

  lemma OtherBits(b: bv8, m: bv8, n: bv8)
    requires m & n == 0
    ensures (b | m) & n == b & n && (b & !m) & n == b & n
  {}

  /** Bytes of a block are sent, and its bit is cleared only if all of them were. */
  lemma SentKeepsCoherent(g: Geometry, s: State, s': State, b: nat, at: nat, n: nat)
    requires Suits(g) && Good(g, s) && Shaped(g, s')
    requires at == BlockStart(g, b) && n <= g.blockSize && at + g.blockSize <= Size(g)
    requires s'.ram == Overwrite(s.ram, at, s.buffer[at..at + n])
    requires s'.buffer == s.buffer && s'.initialized == s.initialized && s'.scrolling == s.scrolling
    requires s'.dirty == s.dirty || (n == g.blockSize && s'.dirty == s.dirty - {b})
    ensures Good(g, s')
  {
    assert g.blockSize > 0;
    hide Suits;
    hide CursorFits;
    hide Blocks;
    forall i | 0 <= i < Size(g)
      ensures Block(g, i) == b <==> at <= i < at + g.blockSize
    {
      InBlock(g, b, i);
    }
    hide Block;
    hide Size;
  }

  lemma RenderGood(g: Geometry, s: State, w: Wire)
    requires Suits(g) && Good(g, s)
    ensures Good(g, Render(g, s, w))
  {
    hide Receive;
    hide WindowOf;
    hide Overwrite;
    hide Coherent;
    hide CursorFits;
    hide Divides;
    hide BlockStart;
    GoodBounds(g, s);
    var s' := Render(g, s, w);
    if s' != s {
      var b := NextBlock(g, s);
      var at := BlockStart(g, b);
      hide NextBlock;
      hide Tiled;
      var n := if w.data || w.sent >= g.blockSize then g.blockSize else w.sent;
      ReceiveIsOverwrite(g, s.ram, b, at, s.buffer[at..at + n]);
      SentKeepsCoherent(g, s, s', b, at, n);
    }
  }

  /** A successful render cleans one block and leaves the buffer alone. */
  lemma RenderCleans(g: Geometry, s: State, w: Wire)
    requires Suits(g) && Shaped(g, s) && s.initialized && !s.scrolling && w.command && w.data && s.dirty != {}
    ensures var s' := Render(g, s, w);
            |s'.dirty| == |s.dirty| - 1 && s'.dirty < s.dirty && s'.buffer == s.buffer &&
            s'.initialized && !s'.scrolling
  {
    DirtyExists(g, s.dirty);
  }

  function Renders(g: Geometry, s: State, ws: seq<Wire>): (s': State)
    requires Suits(g) && Good(g, s)
    ensures Good(g, s')
  {
    if ws == [] then s
    else
      var s1 := Renders(g, s, ws[..|ws| - 1]);
      RenderGood(g, s1, ws[|ws| - 1]);
      Render(g, s1, ws[|ws| - 1])
  }

  lemma {:induction false} RendersProgress(g: Geometry, s: State, ws: seq<Wire>)
    requires Suits(g) && Good(g, s) && s.initialized && !s.scrolling
    requires forall i :: 0 <= i < |ws| ==> ws[i].command && ws[i].data
    ensures var s' := Renders(g, s, ws);
            && s'.buffer == s.buffer && s'.initialized && !s'.scrolling
            && (s'.dirty == {} || |s'.dirty| + |ws| <= |s.dirty|)
  {
    if ws != [] {
      var n := |ws| - 1;
      RendersProgress(g, s, ws[..n]);
      var s1 := Renders(g, s, ws[..n]);
      if s1.dirty != {} { RenderCleans(g, s1, ws[n]); }
    }
  }

  /** With no writes in between, as many successful renders as there are blocks bring the whole buffer
      to the display. */
  lemma RendersConverge(g: Geometry, s: State, ws: seq<Wire>)
    requires Suits(g) && Good(g, s) && s.initialized && !s.scrolling && |ws| >= g.blockCount
    requires forall i :: 0 <= i < |ws| ==> ws[i].command && ws[i].data
    ensures Renders(g, s, ws).ram == s.buffer
  {
    RendersProgress(g, s, ws);
    SubsetSize(s.dirty, Blocks(g));
    var s' := Renders(g, s, ws);
    assert s'.dirty == {} by { if |s'.dirty| == 0 { assert s'.dirty == {}; } }
    assert s'.ram == s'.buffer;
  }

  // ---- newline

  /** A newline writes blanks to the end of the line. */
  function Blanks(g: Geometry, s: State, blank: seq<bv8>, n: nat): (s': State)
    requires Suits(g) && Good(g, s) && |blank| == FONT_WIDTH && (n > 0 ==> HasRoom(g, s.cursor))
    ensures Good(g, s') && if n > 0 then CursorFits(g, s'.cursor) else s' == s
  {
    if n == 0 then s
    else
      var s1 := Blanks(g, s, blank, n - 1);
      PutGlyphGood(g, s1, blank);
      PutGlyph(g, s1, blank)
  }

  function AdvancePage(g: Geometry, s: State, blank: seq<bv8>, clear: bool): (s': State)
    requires Suits(g) && Good(g, s) && |blank| == FONT_WIDTH
    ensures Good(g, s') && (CursorFits(g, s.cursor) ==> CursorFits(g, s'.cursor))
  {
    if clear then
      var n := (g.width - Column(g, s.cursor)) / FONT_WIDTH;
      if n > 0 then
        LineRoom(g, s.cursor);
        Blanks(g, s, blank, n)
      else s
    else
      NextLineFits(g, s.cursor);
      s.(cursor := NextLine(g, s.cursor))
  }

  /** Characters other than newline and return are drawn, and need room in the buffer. */
  predicate Writable(g: Geometry, cursor: nat, c: nat) { c == NEWLINE || c == RETURN || HasRoom(g, cursor) }

  function WriteChar(g: Geometry, s: State, font: seq<bv8>, c: nat, invert: bool): (s': State)
    requires Suits(g) && Good(g, s) && |font| >= (FONT_END + 1 - FONT_START) * FONT_WIDTH && Writable(g, s.cursor, c)
    ensures Good(g, s') && (CursorFits(g, s.cursor) ==> CursorFits(g, s'.cursor))
  {
    if c == NEWLINE then AdvancePage(g, s, Glyph(font, SPACE, false), true)
    else if c == RETURN then AdvancePage(g, s, Glyph(font, SPACE, false), false)
    else
      PutGlyphGood(g, s, Glyph(font, c, invert));
      PutGlyph(g, s, Glyph(font, c, invert))
  }

  lemma PutGlyphMeans(g: Geometry, s: State, glyph: seq<bv8>, i: nat)
    requires Suits(g) && Shaped(g, s) && HasRoom(g, s.cursor) && |glyph| == FONT_WIDTH
    ensures PutGlyph(g, s, glyph).cursor == AdvanceChar(g, s.cursor) && |PutGlyph(g, s, glyph).buffer| == |s.buffer|
    ensures i < Size(g) && !(s.cursor <= i < s.cursor + FONT_WIDTH) ==> PutGlyph(g, s, glyph).buffer[i] == s.buffer[i]
  {}

  /** The first blanks of a newline stay in the line; bytes before the cursor and beyond the line stay. */
  lemma {:induction false} BlanksInLine(g: Geometry, s: State, blank: seq<bv8>, n: nat)
    requires Suits(g) && Good(g, s) && |blank| == FONT_WIDTH && CursorFits(g, s.cursor)
    requires Column(g, s.cursor) + n * FONT_WIDTH <= g.width
    ensures var s', c := Blanks(g, s, blank, n), s.cursor;
            && s'.cursor == (if Column(g, c) + n * FONT_WIDTH + FONT_WIDTH <= g.width then c + n * FONT_WIDTH
                             else NextLine(g, c))
            && forall i :: 0 <= i < Size(g) && !(c <= i < LineAt(g, Line(g, c)) + g.width) ==>
                 s'.buffer[i] == s.buffer[i]
  {
    hide PutGlyph;
    hide Coherent;
    hide Blocks;
    hide AdvanceChar;
    hide NextLine;
    hide Suits;
    hide Line;
    hide Column;
    hide LineAt;
    hide Size;
    if n > 0 {
      var c := s.cursor;
      BlanksInLine(g, s, blank, n - 1);
      var s1 := Blanks(g, s, blank, n - 1);
      PlaceIs(g, c);
      BlankPlace(g, c, n - 1);
      AdvanceMeans(g, s1.cursor);
      forall i | 0 <= i < Size(g)
        ensures PutGlyph(g, s1, blank).cursor == AdvanceChar(g, s1.cursor) && |PutGlyph(g, s1, blank).buffer| == Size(g)
        ensures !(s1.cursor <= i < s1.cursor + FONT_WIDTH) ==> PutGlyph(g, s1, blank).buffer[i] == s1.buffer[i]
      {
        PutGlyphMeans(g, s1, blank, i);
      }
      PutGlyphMeans(g, s1, blank, 0);
    }
  }

  /** The place `n` blanks further in a line, if there is room for another one. */
  lemma BlankPlace(g: Geometry, c: nat, n: nat)
    requires Suits(g) && c < Size(g) && Column(g, c) + n * FONT_WIDTH + FONT_WIDTH <= g.width
    ensures var d := c + n * FONT_WIDTH;
            && Line(g, d) == Line(g, c) && Column(g, d) == Column(g, c) + n * FONT_WIDTH
            && CursorFits(g, d) && NextLine(g, d) == NextLine(g, c)
  {
    hide Suits;
    hide Line;
    hide Column;
    hide LineAt;
    hide Size;
    SuitsBounds(g);
    PlaceIs(g, c);
    PlaceUnique(g, c + n * FONT_WIDTH, Line(g, c), Column(g, c) + n * FONT_WIDTH);
    LineInside(g, Line(g, c));
  }

  /** A newline ends at the beginning of the following line, or of the display after the last line, and
      changes only the rest of its own line; unless not even one blank fits in the line, when it does nothing. */
  lemma NewlineEnds(g: Geometry, s: State, font: seq<bv8>)
    requires Suits(g) && Good(g, s) && |font| >= (FONT_END + 1 - FONT_START) * FONT_WIDTH
    ensures var s', line := WriteChar(g, s, font, NEWLINE, false), Line(g, s.cursor);
            if Column(g, s.cursor) + FONT_WIDTH > g.width then s' == s
            else
              && s'.cursor == (if line + 1 < g.lines then LineAt(g, line + 1) else 0)
              && forall i :: 0 <= i < Size(g) && !(s.cursor <= i < LineAt(g, line) + g.width) ==>
                   s'.buffer[i] == s.buffer[i]
  {
    hide Blanks;
    hide Glyph;
    hide Coherent;
    hide Blocks;
    hide Suits;
    hide Line;
    hide Column;
    hide LineAt;
    hide Size;
    hide NextLine;
    SuitsBounds(g);
    var col := Column(g, s.cursor);
    if col + FONT_WIDTH <= g.width {
      LineRoom(g, s.cursor);
      NextLineFits(g, s.cursor);
      BlanksInLine(g, s, Glyph(font, SPACE, false), (g.width - col) / FONT_WIDTH);
    }
  }

  // ---- whole runs

  datatype Op =
    | OpChar(c: nat, invert: bool)
    | OpCursor(col: nat, line: nat)
    | OpRaw(data: seq<bv8>)
    | OpPixel(x: nat, y: nat, on: bool)
    | OpPan(left: bool)
    | OpClear
    | OpRender(wire: Wire)
    | OpStartScroll(ok: bool)
    | OpStopScroll(ok: bool)
    | OpScrolled(ram: seq<bv8>)

  /** A glyph would be drawn past the end of the buffer. */
  predicate DrawsPast(g: Geometry, s: State, op: Op) { op.OpChar? && !Writable(g, s.cursor, op.c) }

  lemma CursorInside(g: Geometry, col: nat, line: nat)
    requires Suits(g)
    ensures CursorAt(g, col, line) < Size(g)
  {
    hide CursorIndex;
    SuitsBounds(g);
    StartFits(g);
  }

  /** One operation. While the display scrolls its own memory may change in any way. */
  function Step(g: Geometry, font: seq<bv8>, s: State, op: Op): (s': State)
    requires Suits(g) && Good(g, s) && |font| >= (FONT_END + 1 - FONT_START) * FONT_WIDTH
    requires !DrawsPast(g, s, op)
    ensures Good(g, s')
  {
    match op
    case OpChar(c, invert) => WriteChar(g, s, font, c, invert)
    case OpCursor(col, line) =>
      CursorInside(g, col, line);
      s.(cursor := CursorAt(g, col, line))
    case OpRaw(data) =>
      var n := if s.cursor + |data| > Size(g) then Size(g) - s.cursor else |data|;
      StoreBytesGood(g, s, s.cursor, data[..n]);
      WriteRaw(g, s, data)
    case OpPixel(x, y, on) =>
      WritePixelGood(g, s, x, y, on);
      WritePixel(g, s, x, y, on)
    case OpPan(left) =>
      AllDirtyGood(g, Pan(g, s, left));
      Pan(g, s, left)
    case OpClear =>
      StartFits(g);
      AllDirtyGood(g, Clear(g, s));
      Clear(g, s)
    case OpRender(w) =>
      RenderGood(g, s, w);
      Render(g, s, w)
    case OpStartScroll(ok) => StartScroll(s, ok)
    case OpStopScroll(ok) =>
      AllDirtyGood(g, s.(dirty := Blocks(g)));
      StopScroll(g, s, ok)
    case OpScrolled(ram) => if s.scrolling && |ram| == Size(g) then s.(ram := ram) else s
  }

  lemma AllDirtyGood(g: Geometry, s: State)
    requires Suits(g) && Shaped(g, s) && s.dirty == Blocks(g)
    ensures Good(g, s) && Good(g, s.(scrolling := false))
  {
    forall i | 0 <= i < Size(g) ensures Block(g, i) in s.dirty { BlockBound(g, i); }
  }

  /** The state after a run; none once a glyph would be drawn past the end of the buffer. */
  function Run(g: Geometry, font: seq<bv8>, s: State, ops: seq<Op>): (r: Option<State>)
    requires Suits(g) && Good(g, s) && |font| >= (FONT_END + 1 - FONT_START) * FONT_WIDTH
    ensures r.Some? ==> Good(g, r.value)
  {
    if ops == [] then Some(s)
    else
      var n := |ops| - 1;
      var before := Run(g, font, s, ops[..n]);
      if before.None? || DrawsPast(g, before.value, ops[n]) then None
      else Some(Step(g, font, before.value, ops[n]))
  }

  /** The run goes well up to operation `i`, which draws past the end of the buffer. */
  ghost predicate DrawsPastAt(g: Geometry, font: seq<bv8>, s: State, ops: seq<Op>, i: nat)
    requires Suits(g) && Good(g, s) && |font| >= (FONT_END + 1 - FONT_START) * FONT_WIDTH && i < |ops|
  {
    var before := Run(g, font, s, ops[..i]);
    before.Some? && DrawsPast(g, before.value, ops[i])
  }

  /** A run ends early exactly at such an operation. */
  lemma {:induction false} RunStopsIff(g: Geometry, font: seq<bv8>, s: State, ops: seq<Op>)
    requires Suits(g) && Good(g, s) && |font| >= (FONT_END + 1 - FONT_START) * FONT_WIDTH
    ensures Run(g, font, s, ops).None? <==> exists i :: 0 <= i < |ops| && DrawsPastAt(g, font, s, ops, i)
  {
    hide Good;
    hide Suits;
    hide Step;
    if ops != [] {
      var n := |ops| - 1;
      var before := ops[..n];
      RunStopsIff(g, font, s, before);
      forall i | 0 <= i < n
        ensures DrawsPastAt(g, font, s, before, i) <==> DrawsPastAt(g, font, s, ops, i)
      {
        assert before[..i] == ops[..i];
      }
      if Run(g, font, s, ops).None? && Run(g, font, s, before).Some? { assert DrawsPastAt(g, font, s, ops, n); }
    }
  }

  /** Display coherence: after initialization, wherever cursors are set and whatever is written, scrolled or
      lost on the wire, as long as no glyph is drawn past the end of the buffer: every block whose dirty bit
      is clear shows the buffer whenever the display is not scrolling; and then the display shows the whole
      buffer as soon as nothing is dirty. */
  lemma AlwaysCoherent(g: Geometry, font: seq<bv8>, ram: seq<bv8>, ops: seq<Op>)
    requires Suits(g) && |font| >= (FONT_END + 1 - FONT_START) * FONT_WIDTH && |ram| == Size(g)
    ensures var s0 := Started(g, ram);
            Good(g, s0) &&
            var r := Run(g, font, s0, ops);
            (r.Some? ==>
               var s := r.value;
               && (s.initialized && !s.scrolling ==>
                     forall i :: 0 <= i < Size(g) && i / g.blockSize !in s.dirty ==> s.ram[i] == s.buffer[i])
               && (s.initialized && !s.scrolling && s.dirty == {} ==> s.ram == s.buffer))
  {
    StartFits(g);
    AllDirtyGood(g, Started(g, ram));
  }

  /** Cursors are set where a glyph fits. */
  predicate Inside(g: Geometry, op: Op)
    requires Suits(g)
  {
    match op
    case OpCursor(col, line) => CursorFits(g, CursorAt(g, col, line))
    case _ => true
  }

  lemma StepFits(g: Geometry, font: seq<bv8>, s: State, op: Op)
    requires Suits(g) && Good(g, s) && |font| >= (FONT_END + 1 - FONT_START) * FONT_WIDTH
    requires CursorFits(g, s.cursor) && Inside(g, op)
    ensures !DrawsPast(g, s, op) && CursorFits(g, Step(g, font, s, op).cursor)
  {
    hide Divides;
    StartFits(g);
    if op.OpRaw? {
      var n := if s.cursor + |op.data| > Size(g) then Size(g) - s.cursor else |op.data|;
      StoreBytesGood(g, s, s.cursor, op.data[..n]);
    }
  }

  /** If every cursor is set where a glyph fits, no glyph is ever drawn past the buffer, and at every moment
      there is room for a full glyph in the current line. */
  lemma {:induction false} RunFits(g: Geometry, font: seq<bv8>, s: State, ops: seq<Op>)
    requires Suits(g) && Good(g, s) && |font| >= (FONT_END + 1 - FONT_START) * FONT_WIDTH
    requires CursorFits(g, s.cursor) && forall i :: 0 <= i < |ops| ==> Inside(g, ops[i])
    ensures var r := Run(g, font, s, ops); r.Some? && CursorFits(g, r.value.cursor)
  {
    hide Good;
    hide Suits;
    hide Step;
    hide CursorFits;
    if ops != [] {
      var n := |ops| - 1;
      RunFits(g, font, s, ops[..n]);
      StepFits(g, font, Run(g, font, s, ops[..n]).value, ops[n]);
    }
  }

  /** After a successful initialization: cleared, everything dirty, the display showing anything. */
  function Started(g: Geometry, ram: seq<bv8>): State {
    Clear(g, State([], 0, {}, ram, true, true, false))
  }
}

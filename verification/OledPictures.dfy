/** What the writers of the OLED driver put into the frame buffer, byte by byte and pixel by pixel. */
module OledPictures {
  import opened Arithmetic
  import opened OledGeometry
  import opened OledModel
  import opened OledProofs

  const FONT_BYTES := (FONT_END + 1 - FONT_START) * FONT_WIDTH

  // ---- characters

  /** Column `k` of a character: six bytes of the font each, in order; characters beyond the font are blank. */
  function FontColumn(font: seq<bv8>, c: nat, k: nat, invert: bool): bv8
    requires |font| >= FONT_BYTES && k < 6
  {
    var b := if c <= 223 then font[6 * c + k] else 0;
    if invert then !b else b
  }

  /** What `s'` shows if a glyph was drawn at the cursor of `s`. */
  ghost predicate Drawn(g: Geometry, s: State, s': State, glyph: seq<bv8>)
    requires |glyph| == 6 && g.blockSize > 0
  {
    && |s'.buffer| == |s.buffer|
    && (forall i :: 0 <= i < |s.buffer| ==>
          s'.buffer[i] == if s.cursor <= i < s.cursor + 6 then glyph[i - s.cursor] else s.buffer[i])
    && s'.dirty == s.dirty + (if s'.buffer == s.buffer then {} else {Block(g, s.cursor), Block(g, s.cursor + 5)})
  }

  lemma GlyphDrawn(g: Geometry, s: State, glyph: seq<bv8>)
    requires Suits(g) && Shaped(g, s) && HasRoom(g, s.cursor) && |glyph| == 6 && g.blockSize > 0
    ensures Drawn(g, s, PutGlyph(g, s, glyph), glyph)
  {
    hide Suits;
    hide AdvanceChar;
    hide Block;
    hide Blocks;
    var c, s' := s.cursor, PutGlyph(g, s, glyph);
    if s.buffer[c..c + 6] == glyph {
      assert forall k :: 0 <= k < 6 ==> glyph[k] == s.buffer[c..c + 6][k];
      assert s'.buffer == s.buffer;
    } else {
      var k :| 0 <= k < 6 && s.buffer[c..c + 6][k] != glyph[k];
      assert s'.buffer[c + k] != s.buffer[c + k];
    }
  }

  lemma GlyphColumns(font: seq<bv8>, c: nat, invert: bool)
    requires |font| >= FONT_BYTES
    ensures forall k :: 0 <= k < 6 ==> Glyph(font, c, invert)[k] == FontColumn(font, c, k, invert)
  {}

  /** A character puts its six columns at the cursor, from left to right, and changes no other byte. Its blocks
      are marked only if that changed something. */
  lemma CharacterDrawn(g: Geometry, s: State, font: seq<bv8>, c: nat, invert: bool)
    requires Suits(g) && Good(g, s) && |font| >= FONT_BYTES
    requires c != NEWLINE && c != RETURN && HasRoom(g, s.cursor)
    ensures var s' := WriteChar(g, s, font, c, invert);
            && |s'.buffer| == |s.buffer| == Size(g)
            && (forall i :: 0 <= i < Size(g) ==>
                  s'.buffer[i] == if s.cursor <= i < s.cursor + 6 then FontColumn(font, c, i - s.cursor, invert)
                                  else s.buffer[i])
            && g.blockSize > 0
            && s'.dirty == s.dirty + (if s'.buffer == s.buffer then {}
                                      else {Block(g, s.cursor), Block(g, s.cursor + 5)})
  {
    hide Suits;
    hide Coherent;
    hide Glyph;
    hide FontColumn;
    hide PutGlyph;
    hide Block;
    hide Blocks;
    hide Size;
    SuitsBounds(g);
    GlyphColumns(font, c, invert);
    GlyphDrawn(g, s, Glyph(font, c, invert));
  }

  /** Blanks are spaces drawn one after the other. */
  lemma {:induction false} BlanksDrawn(g: Geometry, s: State, font: seq<bv8>, n: nat, i: nat)
    requires Suits(g) && Good(g, s) && |font| >= FONT_BYTES && CursorFits(g, s.cursor)
    requires Column(g, s.cursor) + n * FONT_WIDTH <= g.width && i < n * FONT_WIDTH
    ensures var s' := Blanks(g, s, Glyph(font, SPACE, false), n);
            s.cursor + i < |s'.buffer| && s'.buffer[s.cursor + i] == font[6 * 32 + i % 6]
  {
    hide Suits;
    hide Coherent;
    hide Column;
    hide Blocks;
    hide NextLine;
    hide PutGlyph;
    hide Glyph;
    hide Block;
    hide Size;
    SuitsBounds(g);
    var glyph := Glyph(font, SPACE, false);
    var s1 := Blanks(g, s, glyph, n - 1);
    BlanksInLine(g, s, glyph, n - 1);
    GlyphDrawn(g, s1, glyph);
    GlyphColumns(font, SPACE, false);
    assert s1.cursor == s.cursor + (n - 1) * FONT_WIDTH;
    if i < (n - 1) * FONT_WIDTH {
      BlanksDrawn(g, s, font, n - 1, i);
    } else {
      SixMod(i, n - 1);
    }
  }

  lemma SixMod(i: nat, m: nat)
    requires 6 * m <= i < 6 * m + 6
    ensures i % 6 == i - 6 * m
  {
    DivUnique(i, 6, m, i - 6 * m);
  }

  /** A newline fills its line with as many spaces as fit from the cursor on. */
  lemma NewlineBlanks(g: Geometry, s: State, font: seq<bv8>, i: nat)
    requires Suits(g) && Good(g, s) && |font| >= FONT_BYTES && g.width > 0
    requires i < (g.width - Column(g, s.cursor)) / FONT_WIDTH * FONT_WIDTH
    ensures var s' := WriteChar(g, s, font, NEWLINE, false);
            s.cursor + i < |s'.buffer| && s'.buffer[s.cursor + i] == font[6 * 32 + i % 6]
  {
    hide Suits;
    hide Coherent;
    hide Column;
    hide Blanks;
    hide Glyph;
    LineRoom(g, s.cursor);
    BlanksDrawn(g, s, font, (g.width - Column(g, s.cursor)) / FONT_WIDTH, i);
  }

  /** A return moves the cursor to the beginning of the next line, after the last one of the first, and writes
      nothing. */
  lemma ReturnMoves(g: Geometry, s: State, font: seq<bv8>)
    requires Suits(g) && Good(g, s) && |font| >= FONT_BYTES
    ensures var s' := WriteChar(g, s, font, RETURN, false);
            s' == s.(cursor := if Line(g, s.cursor) + 1 < g.lines then LineAt(g, Line(g, s.cursor) + 1) else 0)
  {
    hide Coherent;
    hide Line;
    hide LineAt;
    hide NextLine;
    NextLineFits(g, s.cursor);
  }

  // ---- raw bytes

  ghost predicate Changed(g: Geometry, a: seq<bv8>, b: seq<bv8>, block: nat)
    requires g.blockSize > 0 && |a| == |b|
  {
    exists i :: 0 <= i < |a| && a[i] != b[i] && Block(g, i) == block
  }

  lemma StoreByteMarks(g: Geometry, s: State, i: nat, b: bv8, block: nat)
    requires g.blockSize > 0 && i < |s.buffer|
    ensures var s' := StoreByte(g, s, i, b);
            block in s'.dirty <==> block in s.dirty || (s.buffer[i] != b && Block(g, i) == block)
  {}

  lemma {:induction false} StoreBytesStores(g: Geometry, s: State, at: nat, data: seq<bv8>)
    requires g.blockSize > 0 && at + |data| <= |s.buffer|
    ensures var s' := StoreBytes(g, s, at, data);
            && (forall i :: 0 <= i < |s.buffer| ==>
                  s'.buffer[i] == if at <= i < at + |data| then data[i - at] else s.buffer[i])
            && s' == s.(buffer := s'.buffer, dirty := s'.dirty)
  {
    hide Block;
    if data != [] { StoreBytesStores(g, s, at, data[..|data| - 1]); }
  }

  /** One more byte stored: the blocks changed so far, and its own if it changes. */
  lemma ChangedMore(g: Geometry, a: seq<bv8>, b: seq<bv8>, i: nat, x: bv8, block: nat)
    requires g.blockSize > 0 && |a| == |b| && i < |a| && a[i] == b[i]
    ensures Changed(g, a, b[i := x], block) <==>
            Changed(g, a, b, block) || (a[i] != x && Block(g, i) == block)
  {
    hide Block;
    var c := b[i := x];
    if Changed(g, a, b, block) {
      var j :| 0 <= j < |a| && a[j] != b[j] && Block(g, j) == block;
      assert a[j] != c[j];
    }
    if a[i] != x && Block(g, i) == block { assert a[i] != c[i]; }
    if Changed(g, a, c, block) {
      var j :| 0 <= j < |a| && a[j] != c[j] && Block(g, j) == block;
      assert j != i ==> a[j] != b[j];
    }
  }

  lemma {:induction false} StoreBytesMarks(g: Geometry, s: State, at: nat, data: seq<bv8>, block: nat)
    requires g.blockSize > 0 && at + |data| <= |s.buffer|
    ensures var s' := StoreBytes(g, s, at, data);
            block in s'.dirty <==> block in s.dirty || Changed(g, s.buffer, s'.buffer, block)
  {
    hide Block;
    hide Changed;
    if data == [] {
      NothingChanged(g, s.buffer, block);
    } else {
      var n := |data| - 1;
      var s1 := StoreBytes(g, s, at, data[..n]);
      StoreBytesMarks(g, s, at, data[..n], block);
      StoreBytesStores(g, s, at, data[..n]);
      StoreByteMarks(g, s1, at + n, data[n], block);
      ChangedMore(g, s.buffer, s1.buffer, at + n, data[n], block);
      assert s1.buffer[at + n := data[n]] == StoreByte(g, s1, at + n, data[n]).buffer;
    }
  }

  lemma NothingChanged(g: Geometry, a: seq<bv8>, block: nat)
    requires g.blockSize > 0
    ensures !Changed(g, a, a, block)
  {}

  /** A raw write stores the bytes that fit from the cursor on, leaves all others and the cursor alone, and marks
      exactly the blocks in which a byte changed. */
  lemma RawWritten(g: Geometry, s: State, data: seq<bv8>, block: nat)
    requires Suits(g) && Good(g, s)
    ensures var s' := WriteRaw(g, s, data);
            && |s'.buffer| == |s.buffer| == Size(g) && s'.cursor == s.cursor && s'.ram == s.ram
            && (forall i :: 0 <= i < Size(g) ==>
                  s'.buffer[i] == if s.cursor <= i < s.cursor + |data| then data[i - s.cursor] else s.buffer[i])
            && g.blockSize > 0
            && (block in s'.dirty <==> block in s.dirty || Changed(g, s.buffer, s'.buffer, block))
  {
    hide Suits;
    hide Coherent;
    hide Block;
    hide StoreBytes;
    hide Changed;
    SuitsBounds(g);
    var n := if s.cursor + |data| > Size(g) then Size(g) - s.cursor else |data|;
    StoreBytesStores(g, s, s.cursor, data[..n]);
    StoreBytesMarks(g, s, s.cursor, data[..n], block);
  }

  // ---- pixels

  /** Pixel (x, y): eight rows to a line, the lowest bit on top. */
  predicate Lit(g: Geometry, buffer: seq<bv8>, x: nat, y: nat)
    requires LineAt(g, y / 8) + x < |buffer|
  {
    buffer[LineAt(g, y / 8) + x] & Bit(y % 8) != 0
  }

  predicate OnDisplay(g: Geometry, x: nat, y: nat) { x < g.width && y / 8 < g.lines }

  lemma PixelPlace(g: Geometry, x: nat, y: nat)
    requires OnDisplay(g, x, y)
    ensures LineAt(g, y / 8) + x < Size(g)
  {
    LineInside(g, y / 8);
  }

  /** Storing the byte of pixel (x, y). */
  lemma PixelStored(g: Geometry, s: State, x: nat, y: nat, on: bool, px: nat, py: nat, i: nat, p: nat)
    requires i < |s.buffer| && p < |s.buffer| && g.blockSize > 0
    requires i == LineAt(g, y / 8) + x && p == LineAt(g, py / 8) + px
    requires i == p <==> x == px && y / 8 == py / 8
    ensures var s' := StoreByte(g, s, i, WithPixel(s.buffer[i], y, on));
            |s'.buffer| == |s.buffer| &&
            Lit(g, s'.buffer, px, py) == if px == x && py == y then on else Lit(g, s.buffer, px, py)
  {
    hide LineAt;
    hide StoreByte;
    hide WithPixel;
    hide Bit;
    Stored(g, s, i, WithPixel(s.buffer[i], y, on));
    PixelSet(s.buffer[i], y, on, py);
    EightRows(y, py);
  }

  /** Where a pixel is written, if it is on the display. */
  lemma PixelGoes(g: Geometry, s: State, x: nat, y: nat, on: bool)
    requires Suits(g) && Good(g, s)
    ensures g.blockSize > 0
    ensures OnDisplay(g, x, y) ==>
              LineAt(g, y / 8) + x < |s.buffer| &&
              var i := LineAt(g, y / 8) + x;
              WritePixel(g, s, x, y, on) == StoreByte(g, s, i, WithPixel(s.buffer[i], y, on))
    ensures !OnDisplay(g, x, y) ==> WritePixel(g, s, x, y, on) == s
  {
    hide Suits;
    hide Coherent;
    hide WithPixel;
    hide StoreByte;
    SuitsBounds(g);
    PixelIndex(g, x, y);
    if y / 8 >= g.lines { LineBeyond(g, y / 8); } else { LineInside(g, y / 8); }
  }

  /** Writing a pixel of the display sets that pixel as asked and no other; writing beside it does nothing. */
  lemma PixelWritten(g: Geometry, s: State, x: nat, y: nat, on: bool, px: nat, py: nat)
    requires Suits(g) && Good(g, s) && OnDisplay(g, px, py)
    ensures var s' := WritePixel(g, s, x, y, on);
            && LineAt(g, py / 8) + px < |s.buffer| == |s'.buffer|
            && Lit(g, s'.buffer, px, py) == (if px == x && py == y then on else Lit(g, s.buffer, px, py))
            && (!OnDisplay(g, x, y) ==> s' == s)
  {
    hide Suits;
    hide Coherent;
    hide WithPixel;
    hide WritePixel;
    hide StoreByte;
    hide LineAt;
    hide Lit;
    hide Size;
    PixelPlace(g, px, py);
    PixelGoes(g, s, x, y, on);
    if OnDisplay(g, x, y) {
      SamePlace(g, x, y, px, py);
      PixelStored(g, s, x, y, on, px, py, LineAt(g, y / 8) + x, LineAt(g, py / 8) + px);
    }
  }

  lemma Stored(g: Geometry, s: State, i: nat, b: bv8)
    requires g.blockSize > 0 && i < |s.buffer|
    ensures StoreByte(g, s, i, b).buffer == s.buffer[i := b]
  {}

  lemma PixelIndex(g: Geometry, x: nat, y: nat)
    ensures x + y / 8 * g.width == LineAt(g, y / 8) + x
  {}

  lemma LineBeyond(g: Geometry, line: nat)
    requires line >= g.lines
    ensures LineAt(g, line) >= Size(g)
  {
    MulMono(line, g.lines, g.width);
    Commute(g.width, g.lines);
  }

  /** Two pixels share a byte exactly if they share column and line. */
  lemma SamePlace(g: Geometry, x: nat, y: nat, px: nat, py: nat)
    requires x < g.width && px < g.width
    ensures LineAt(g, y / 8) + x == LineAt(g, py / 8) + px <==> x == px && y / 8 == py / 8
  {
    PlaceUnique(g, LineAt(g, y / 8) + x, y / 8, x);
    PlaceUnique(g, LineAt(g, py / 8) + px, py / 8, px);
  }

  lemma EightRows(y: nat, z: nat)
    ensures y == z <==> y / 8 == z / 8 && y % 8 == z % 8
  {}

  /** Panning moves every line one column, to the left or to the right; the column left behind stays. */
  lemma PanMoves(g: Geometry, s: State, left: bool, line: nat, x: nat, i: nat)
    requires Suits(g) && Good(g, s) && line < g.lines && x < g.width && i == LineAt(g, line) + x
    ensures var s' := Pan(g, s, left);
            && i < |s.buffer| == |s'.buffer| && s'.cursor == s.cursor && s'.dirty == Blocks(g)
            && (left && x + 1 < g.width ==> i + 1 < |s.buffer| && s'.buffer[i] == s.buffer[i + 1])
            && (!left && x > 0 ==> i > 0 && s'.buffer[i] == s.buffer[i - 1])
            && (x == (if left then g.width - 1 else 0) ==> s'.buffer[i] == s.buffer[i])
  {
    hide Suits;
    hide Coherent;
    SuitsBounds(g);
    LineInside(g, line);
    PlaceUnique(g, i, line, x);
    hide LineAt;
    hide Size;
  }

  // ---- rendering

  /** A successful render sends the first dirty block, and turns the display on if the command for that
      arrives. */
  lemma RenderFirst(g: Geometry, s: State, w: Wire)
    requires Suits(g) && Good(g, s) && s.initialized && !s.scrolling && s.dirty != {} && w.command && w.data
    ensures var s' := Render(g, s, w);
            && s'.active == (s.active || w.on) && s'.cursor == s.cursor
            && exists b :: b in s.dirty && (forall d :: d in s.dirty ==> b <= d) && s'.dirty == s.dirty - {b}
  {
    hide Suits;
    hide Coherent;
    hide SendBlock;
    var b := NextBlock(g, s);
    FirstIsLeast(g, s);
    assert Render(g, s, w).dirty == s.dirty - {b};
  }

  lemma FirstIsLeast(g: Geometry, s: State)
    requires Suits(g) && Shaped(g, s) && s.dirty != {}
    ensures forall d :: d in s.dirty ==> NextBlock(g, s) <= d
  {
    DirtyExists(g, s.dirty);
    forall d | d in s.dirty
      ensures NextBlock(g, s) <= d
    {
      assert d in Blocks(g);
    }
  }
}

/** The OLED driver as it runs: one frame buffer, the display's memory, a cursor and dirty bits. */
module Oled {
  import opened OledGeometry
  import opened OledModel
  import opened OledPictures
  import opened OledProofs

  /** A byte of line `y` after the line was moved. */
  lemma PannedAt(g: Geometry, was: seq<bv8>, left: bool, y: nat, x: nat)
    requires x < g.width && LineAt(g, y) + g.width <= |was|
    ensures var i := LineAt(g, y) + x;
            PannedByte(was, g.width, left, i)
            == if left then if x + 1 < g.width then was[i + 1] else was[i] else if x > 0 then was[i - 1] else was[i]
  {
    PlaceUnique(g, LineAt(g, y) + x, y, x);
    hide LineAt;
  }

  lemma GlyphInverts(font: seq<bv8>, c: nat)
    requires |font| >= FONT_BYTES
    ensures forall i :: 0 <= i < FONT_WIDTH ==> Glyph(font, c, true)[i] == !Glyph(font, c, false)[i]
  {}

  lemma BlockFits(g: Geometry, b: nat)
    requires Suits(g) && b < g.blockCount
    ensures BlockStart(g, b) + g.blockSize <= Size(g)
  {
    BlockInside(g, b);
  }

  class Driver {
    const g: Geometry
    const font: seq<bv8>
    const buffer: array<bv8>
    /** The memory of the display itself. */
    const ram: array<bv8>
    var cursor: nat
    var dirty: set<nat>
    var initialized: bool
    var active: bool
    var scrolling: bool

    ghost function Abs(): State
      reads this, buffer, ram
    {
      State(buffer[..], cursor, dirty, ram[..], initialized, active, scrolling)
    }

    ghost predicate Valid()
      reads this, buffer, ram
    {
      Suits(g) && |font| >= FONT_BYTES && buffer != ram && Good(g, Abs())
    }

    /** Power-up followed by a successful initialization. */
    constructor (g: Geometry, font: seq<bv8>, ram: array<bv8>)
      requires Suits(g) && |font| >= FONT_BYTES && ram.Length == Size(g)
      ensures Valid() && this.g == g && this.font == font && this.ram == ram && fresh(buffer)
      ensures Abs() == Started(g, ram[..])
    {
      this.g, this.font, this.ram := g, font, ram;
      buffer := new bv8[Size(g)](_ => 0);
      cursor, dirty, initialized, active, scrolling := 0, Blocks(g), true, true, false;
      new;
      StartFits(g);
      AllDirtyGood(g, Started(g, ram[..]));
    }

    method OledClear()
      requires Valid()
      modifies this`cursor, this`dirty, buffer
      ensures Valid() && Abs() == Clear(g, old(Abs()))
      ensures (forall i :: 0 <= i < buffer.Length ==> buffer[i] == 0) && cursor == 0 && dirty == Blocks(g)
    {
      StartFits(g);
      AllDirtyGood(g, Clear(g, Abs()));
      for i := 0 to buffer.Length
        invariant forall k :: 0 <= k < i ==> buffer[k] == 0
      {
        buffer[i] := 0;
      }
      cursor := 0;
      dirty := Blocks(g);
    }

    method FirstDirtyBlock() returns (b: nat)
      requires dirty <= Blocks(g) && dirty != {}
      ensures (exists i :: 0 <= i < g.blockCount && i in dirty) && b == FirstDirty(dirty, 0, g.blockCount)
    {
      DirtyExists(g, dirty);
      b := 0;
      while b !in dirty
        invariant b <= g.blockCount && forall i :: 0 <= i < b ==> i !in dirty
        invariant exists i :: b <= i < g.blockCount && i in dirty
        invariant FirstDirty(dirty, b, g.blockCount) == FirstDirty(dirty, 0, g.blockCount)
        decreases g.blockCount - b
      {
        b := b + 1;
      }
    }

    /** One step of the render task: the first dirty block is sent, if all goes well. */
    method OledRender(w: Wire)
      requires Valid()
      modifies this`active, this`dirty, ram
      ensures Valid() && Abs() == Render(g, old(Abs()), w)
      ensures !initialized || scrolling || old(dirty) == {} || !w.command ==> Abs() == old(Abs())
      ensures !w.data ==> dirty == old(dirty) && active == old(active)
    {
      hide Good;
      hide Suits;
      hide Shaped;
      hide FirstDirty;
      hide Receive;
      hide Bounds;
      ghost var s := Abs();
      GoodBounds(g, s);
      RenderGood(g, s, w);
      if !initialized { return; }
      if dirty == {} || scrolling { return; }
      var b := FirstDirtyBlock();
      BlockFits(g, b);
      var cmds := CalcBounds(b);
      if !w.command { return; }
      var window := Understood(g.chip, cmds);
      Transfer(window, BlockStart(g, b), if w.data || w.sent >= g.blockSize then g.blockSize else w.sent);
      if !w.data { return; }
      active := active || w.on;
      dirty := dirty - {b};
    }

    /** The bytes that address a block. */
    method CalcBounds(updateStart: nat) returns (cmds: seq<nat>)
      requires Suits(g) && updateStart < g.blockCount
      ensures cmds == Bounds(g, updateStart)
    {
      var startPage := Line(g, BlockStart(g, updateStart)) % 0x100;
      var startColumn := Column(g, BlockStart(g, updateStart)) % 0x100;
      if g.chip.SH1106? {
        cmds := Commands(g.chip, startPage, startColumn, 0, 0);
      } else {
        cmds := [COLUMN_ADDR, 0, g.width - 1, PAGE_ADDR, 0, g.lines - 1];
        cmds := cmds[1 := startColumn][4 := startPage];
        cmds := cmds[2 := ((g.blockSize + g.width - 1) % g.width + cmds[1]) % 0x100];
        cmds := cmds[5 := ((g.blockSize + g.width - 1) / g.width - 1) % 0x100];
      }
    }

    /** `n` bytes of the buffer from `at` are sent; the chip stores them where its pointer goes. */
    method Transfer(w: Window, at: nat, n: nat)
      requires buffer != ram && at + n <= buffer.Length
      modifies ram
      ensures ram[..] == Receive(g, old(ram[..]), w, buffer[at..at + n])
    {
      hide Visible;
      ghost var was := ram[..];
      var p := Pointer(w.page, w.first);
      for i := 0 to n
        invariant p == PointerAt(w, i)
        invariant ram[..] == Receive(g, was, w, buffer[at..at + i])
      {
        assert buffer[at..at + i + 1][..i] == buffer[at..at + i];
        var place := Visible(g, p);
        if place.Some? && place.value < ram.Length { ram[place.value] := buffer[at + i]; }
        if p.column != w.last {
          p := Pointer(p.page, p.column + 1);
        } else {
          p := Pointer(if p.page == w.lastPage then w.page else p.page + 1, w.first);
        }
      }
    }

    /** The code accepts every column and line. There may be no room for a glyph at the cursor then;
        CursorFitsIff says when. */
    method OledSetCursor(col: nat, line: nat)
      requires Valid()
      modifies this`cursor
      ensures Valid() && Abs() == old(Abs()).(cursor := CursorAt(g, col, line))
    {
      CursorInside(g, col, line);
      var index := (LineAt(g, line) + col * FONT_WIDTH) % 0x1_0000;
      if index >= Size(g) { index := 0; }
      cursor := index;
    }

    method OledAdvanceChar()
      requires Suits(g)
      modifies this`cursor
      ensures cursor == AdvanceChar(g, old(cursor))
    {
      var next := cursor + FONT_WIDTH;
      var space := g.width - Column(g, next);
      if space < FONT_WIDTH { next := next + space; }
      if next >= Size(g) { next := 0; }
      cursor := next;
    }

    /** One column of a character; characters outside the font are blank. */
    function Pixels(c: nat, i: nat): bv8
      requires |font| >= FONT_BYTES && i < FONT_WIDTH
    {
      if c < FONT_START || c > FONT_END then 0 else font[(c - FONT_START) * FONT_WIDTH + i]
    }

    /** Draws the glyph at the cursor. */
    method Draw(c: nat, invert: bool)
      requires |font| >= FONT_BYTES && cursor + FONT_WIDTH <= buffer.Length
      modifies buffer
      ensures buffer[..] == Overwrite(old(buffer[..]), cursor, Glyph(font, c, invert))
      ensures buffer[cursor..cursor + FONT_WIDTH] == Glyph(font, c, invert)
    {
      ghost var was, glyph := buffer[..], Glyph(font, c, false);
      assert forall i :: 0 <= i < FONT_WIDTH ==> glyph[i] == Pixels(c, i);
      hide Glyph;
      for i := 0 to FONT_WIDTH
        invariant forall k :: 0 <= k < buffer.Length ==>
                    buffer[k] == if cursor <= k < cursor + i then glyph[k - cursor] else was[k]
      {
        buffer[cursor + i] := Pixels(c, i);
      }
      assert buffer[..] == Overwrite(was, cursor, glyph);
      if invert { InvertCharacter(was, c); }
    }

    /** Draws, and marks the blocks of the first and last byte if anything changed. */
    method DrawAndMark(c: nat, invert: bool)
      requires |font| >= FONT_BYTES && cursor + FONT_WIDTH <= buffer.Length && g.blockSize > 0
      modifies this`dirty, buffer
      ensures buffer[..] == Overwrite(old(buffer[..]), cursor, Glyph(font, c, invert))
      ensures dirty == old(dirty) + Touched(g, old(buffer[cursor..cursor + FONT_WIDTH]), Glyph(font, c, invert), cursor)
    {
      hide Glyph;
      hide Overwrite;
      hide Block;
      var before := buffer[cursor..cursor + FONT_WIDTH];
      Draw(c, invert);
      if buffer[cursor..cursor + FONT_WIDTH] != before {
        dirty := dirty + {Block(g, cursor)};
        dirty := dirty + {Block(g, cursor + FONT_WIDTH - 1)};
      }
    }

    /** A character that is not a control character. */
    method PutChar(c: nat, invert: bool)
      requires Valid() && HasRoom(g, cursor)
      modifies this`cursor, this`dirty, buffer
      ensures Valid() && Abs() == PutGlyph(g, old(Abs()), Glyph(font, c, invert))
    {
      hide Good;
      hide Suits;
      hide Shaped;
      hide Glyph;
      hide Overwrite;
      hide AdvanceChar;
      hide Touched;
      ghost var s := Abs();
      GoodBounds(g, s);
      PutGlyphGood(g, s, Glyph(font, c, invert));
      assert buffer[cursor..cursor + FONT_WIDTH] == s.buffer[s.cursor..s.cursor + FONT_WIDTH];
      DrawAndMark(c, invert);
      OledAdvanceChar();
      assert Abs() == PutGlyph(g, s, Glyph(font, c, invert));
    }

    method InvertCharacter(ghost was: seq<bv8>, ghost c: nat)
      requires |font| >= FONT_BYTES && |was| == buffer.Length && cursor + FONT_WIDTH <= |was|
      requires buffer[..] == Overwrite(was, cursor, Glyph(font, c, false))
      modifies buffer
      ensures buffer[..] == Overwrite(was, cursor, Glyph(font, c, true))
    {
      hide Glyph;
      GlyphInverts(font, c);
      for i := 0 to FONT_WIDTH
        invariant forall k :: 0 <= k < buffer.Length ==>
                    buffer[k] == if cursor <= k < cursor + i then !old(buffer[k]) else old(buffer[k])
      {
        buffer[cursor + i] := !buffer[cursor + i];
      }
      assert buffer[..] == Overwrite(was, cursor, Glyph(font, c, true));
    }

    method OledAdvancePage(clear: bool)
      requires Valid()
      modifies this`cursor, this`dirty, buffer
      ensures Valid() && Abs() == AdvancePage(g, old(Abs()), Glyph(font, SPACE, false), clear)
    {
      hide Good;
      hide Suits;
      hide Shaped;
      hide Blanks;
      hide Glyph;
      hide NextLine;
      ghost var s := Abs();
      GoodBounds(g, s);
      if clear {
        var remaining := g.width - Column(g, cursor);
        if remaining / FONT_WIDTH > 0 { LineRoom(g, cursor); }
        WriteBlanks(remaining / FONT_WIDTH);
      } else {
        NextLineFits(g, cursor);
        CarriageReturn();
      }
      assert Abs() == AdvancePage(g, s, Glyph(font, SPACE, false), clear);
    }

    method CarriageReturn()
      requires Suits(g) && cursor < Size(g)
      modifies this`cursor
      ensures cursor == NextLine(g, old(cursor))
    {
      var index, remaining := cursor, g.width - Column(g, cursor);
      if index + remaining >= Size(g) { index, remaining := 0, 0; }
      cursor := index + remaining;
    }

    method WriteBlanks(n: nat)
      requires Valid() && (n > 0 ==> HasRoom(g, cursor))
      modifies this`cursor, this`dirty, buffer
      ensures Valid() && Abs() == Blanks(g, old(Abs()), Glyph(font, SPACE, false), n)
    {
      hide Good;
      hide Suits;
      hide Glyph;
      ghost var s := Abs();
      var remaining := n;
      while remaining > 0
        invariant 0 <= remaining <= n && Valid()
        invariant Abs() == Blanks(g, s, Glyph(font, SPACE, false), n - remaining)
      {
        remaining := remaining - 1;
        PutChar(SPACE, false);
      }
    }

    method OledWriteChar(c: nat, invert: bool)
      requires Valid() && Writable(g, cursor, c)
      modifies this`cursor, this`dirty, buffer
      ensures Valid() && Abs() == WriteChar(g, old(Abs()), font, c, invert)
      ensures c != NEWLINE && c != RETURN ==>
                forall i :: 0 <= i < buffer.Length ==>
                  buffer[i] == if old(cursor) <= i < old(cursor) + 6 then FontColumn(font, c, i - old(cursor), invert)
                               else old(buffer[i])
    {
      hide Good;
      hide Suits;
      hide FontColumn;
      hide PutGlyph;
      hide Glyph;
      hide AdvancePage;
      hide Block;
      ghost var s := Abs();
      if c == NEWLINE {
        OledAdvancePage(true);
      } else if c == RETURN {
        OledAdvancePage(false);
      } else {
        PutChar(c, invert);
        CharacterDrawn(g, s, font, c, invert);
        assert buffer[..] == WriteChar(g, s, font, c, invert).buffer;
        assert forall i :: 0 <= i < buffer.Length ==> buffer[i] == buffer[..][i] && s.buffer[i] == old(buffer[i]);
      }
    }

    method OledWriteRaw(data: seq<bv8>)
      requires Valid()
      modifies this`dirty, buffer
      ensures Valid() && Abs() == WriteRaw(g, old(Abs()), data)
    {
      hide Good;
      hide Suits;
      hide Shaped;
      ghost var s := Abs();
      GoodBounds(g, s);
      var size := |data|;
      if size + cursor > Size(g) { size := Size(g) - cursor; }
      StoreBytesGood(g, s, cursor, data[..size]);
      StoreAll(cursor, data[..size]);
    }

    method StoreAll(at: nat, data: seq<bv8>)
      requires at + |data| <= buffer.Length && g.blockSize > 0 && buffer != ram
      modifies this`dirty, buffer
      ensures Abs() == StoreBytes(g, old(Abs()), at, data)
    {
      hide StoreByte;
      ghost var s := Abs();
      for i := 0 to |data|
        invariant Abs() == StoreBytes(g, s, at, data[..i])
      {
        assert data[..i + 1][..i] == data[..i];
        Store(at + i, data[i]);
      }
      assert data[..|data|] == data;
    }

    method Store(i: nat, b: bv8)
      requires i < buffer.Length && g.blockSize > 0 && buffer != ram
      modifies this`dirty, buffer
      ensures Abs() == StoreByte(g, old(Abs()), i, b)
    {
      if buffer[i] == b { return; }
      buffer[i] := b;
      dirty := dirty + {Block(g, i)};
    }

    method OledWritePixel(x: nat, y: nat, on: bool)
      requires Valid()
      modifies this`dirty, buffer
      ensures Valid() && Abs() == WritePixel(g, old(Abs()), x, y, on)
    {
      hide Good;
      hide Suits;
      hide WithPixel;
      ghost var s := Abs();
      GoodBounds(g, s);
      WritePixelGood(g, s, x, y, on);
      if x >= g.width { return; }
      var index := x + y / 8 * g.width;
      if index >= buffer.Length { return; }
      Store(index, WithPixel(buffer[index], y, on));
    }

    /** Moves every line one column, in place. */
    method OledPan(left: bool)
      requires Valid()
      modifies this`dirty, buffer
      ensures Valid() && Abs() == Pan(g, old(Abs()), left)
    {
      hide Coherent;
      hide CursorFits;
      AllDirtyGood(g, Pan(g, Abs(), left));
      PanLines(left);
      dirty := Blocks(g);
    }

    method PanLines(left: bool)
      requires Suits(g) && buffer.Length == Size(g)
      modifies buffer
      ensures buffer[..] == Panned(old(buffer[..]), g.width, left)
    {
      SuitsBounds(g);
      hide PannedByte;
      hide Suits;
      hide Size;
      hide LineAt;
      ghost var was := buffer[..];
      ghost var done := 0;
      LineStep(g, 0);
      for y := 0 to g.lines
        invariant done == LineAt(g, y) && (y == g.lines ==> done == Size(g))
        invariant forall i :: 0 <= i < buffer.Length ==>
                    buffer[i] == if i < done then PannedByte(was, g.width, left, i) else was[i]
      {
        LineInside(g, y);
        LineStep(g, y);
        if left { PanLeft(y, was); } else { PanRight(y, was); }
        done := done + g.width;
      }
    }

    method PanLeft(y: nat, ghost was: seq<bv8>)
      requires g.width > 0 && buffer.Length == Size(g) == |was| && y < g.lines && LineAt(g, y) + g.width <= Size(g)
      requires forall i :: LineAt(g, y) <= i < buffer.Length ==> buffer[i] == was[i]
      modifies buffer
      ensures forall i :: 0 <= i < buffer.Length ==>
                buffer[i] == if LineAt(g, y) <= i < LineAt(g, y) + g.width then PannedByte(was, g.width, true, i)
                             else old(buffer[i])
    {
      hide LineAt;
      hide Size;
      hide PannedByte;
      var start := LineAt(g, y);
      for x := 0 to g.width - 1
        invariant forall i :: 0 <= i < buffer.Length ==>
                    buffer[i] == if start <= i < start + x then was[i + 1] else old(buffer[i])
      {
        var i := start + x;
        buffer[i] := buffer[i + 1];
      }
      forall i | start <= i < start + g.width
        ensures buffer[i] == PannedByte(was, g.width, true, i)
      {
        PannedAt(g, was, true, y, i - start);
      }
    }

    method PanRight(y: nat, ghost was: seq<bv8>)
      requires g.width > 0 && buffer.Length == Size(g) == |was| && y < g.lines && LineAt(g, y) + g.width <= Size(g)
      requires forall i :: LineAt(g, y) <= i < buffer.Length ==> buffer[i] == was[i]
      modifies buffer
      ensures forall i :: 0 <= i < buffer.Length ==>
                buffer[i] == if LineAt(g, y) <= i < LineAt(g, y) + g.width then PannedByte(was, g.width, false, i)
                             else old(buffer[i])
    {
      hide LineAt;
      hide Size;
      hide PannedByte;
      var start := LineAt(g, y);
      var x := g.width - 1;
      while x > 0
        invariant 0 <= x < g.width
        invariant forall i :: 0 <= i < buffer.Length ==>
                    buffer[i] == if start + x < i < start + g.width then was[i - 1] else old(buffer[i])
      {
        var i := start + x;
        buffer[i] := buffer[i - 1];
        x := x - 1;
      }
      forall i | start <= i < start + g.width
        ensures buffer[i] == PannedByte(was, g.width, false, i)
      {
        PannedAt(g, was, false, y, i - start);
      }
    }

    /** `ok` says whether the command reaches the display. */
    method OledScrollStart(ok: bool) returns (on: bool)
      requires Valid()
      modifies this`scrolling
      ensures Valid() && Abs() == StartScroll(old(Abs()), ok) && on == scrolling
      ensures scrolling == old(scrolling || (initialized && dirty == {} && ok))
    {
      if initialized && dirty == {} && !scrolling {
        if !ok { return scrolling; }
        scrolling := true;
      }
      return scrolling;
    }

    /** The result is as in the source: on failure it is the scrolling flag itself. */
    method OledScrollOff(ok: bool) returns (off: bool)
      requires Valid()
      modifies this`scrolling, this`dirty
      ensures Valid() && Abs() == StopScroll(g, old(Abs()), ok)
      ensures scrolling == old(scrolling && !(initialized && ok))
      ensures dirty == if old(scrolling) && !scrolling then Blocks(g) else old(dirty)
      ensures off == if old(initialized && scrolling) && !ok then true else !scrolling
    {
      AllDirtyGood(g, Abs().(dirty := Blocks(g)));
      if initialized && scrolling {
        if !ok { return scrolling; }
        scrolling := false;
        dirty := Blocks(g);
      }
      return !scrolling;
    }
  }
}

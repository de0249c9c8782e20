/** The two views of the keymap: single keys and chunks of bytes. */
module KeymapViews {
  import opened Arithmetic
  import opened Common
  import opened KeymapModel
  import opened KeymapProofs

  // ---- key addresses

  lemma AddressIsIndex(l: Layout, layer: nat, row: nat, col: nat)
    ensures KeyAddress(l, layer, row, col) == l.keymap + 2 * KeyIndex(l, layer, row, col)
  {
    assert (layer * l.rows + row) * l.cols == layer * l.rows * l.cols + row * l.cols;
  }

  /** Numbers below `a * b` are pairs: quotient below `a`, rest below `b`. */
  lemma PairBound(a: nat, b: nat, i: nat, j: nat)
    requires i < a && j < b
    ensures i * b + j < a * b
  {
    assert (i + 1) * b <= a * b;
  }

  lemma IndexInRange(l: Layout, layer: nat, row: nat, col: nat)
    requires IsKey(l, layer, row, col)
    ensures KeyIndex(l, layer, row, col) < Keys(l)
  {
    PairBound(l.layers, l.rows, layer, row);
    PairBound(l.layers * l.rows, l.cols, layer * l.rows + row, col);
  }

  lemma PairUnique(b: nat, i: nat, j: nat, i': nat, j': nat)
    requires j < b && j' < b && i * b + j == i' * b + j'
    ensures i == i' && j == j'
  {
    DivUnique(i * b + j, b, i, j);
    DivUnique(i' * b + j', b, i', j');
  }

  /** Distinct keys of the keymap have distinct numbers, hence disjoint pairs of bytes. */
  lemma KeysDisjoint(l: Layout, a: (nat, nat, nat), b: (nat, nat, nat))
    requires IsKey(l, a.0, a.1, a.2) && IsKey(l, b.0, b.1, b.2) && a != b
    ensures KeyIndex(l, a.0, a.1, a.2) != KeyIndex(l, b.0, b.1, b.2)
    ensures Disjoint(KeyAddress(l, a.0, a.1, a.2), 2, KeyAddress(l, b.0, b.1, b.2), 2)
  {
    AddressIsIndex(l, a.0, a.1, a.2);
    AddressIsIndex(l, b.0, b.1, b.2);
    if KeyIndex(l, a.0, a.1, a.2) == KeyIndex(l, b.0, b.1, b.2) {
      PairUnique(l.cols, a.0 * l.rows + a.1, a.2, b.0 * l.rows + b.1, b.2);
      PairUnique(l.rows, a.0, a.1, b.0, b.1);
    }
  }

  /** Every position of the keymap is the number of some key. */
  lemma EveryIndexIsKey(l: Layout, i: nat) returns (layer: nat, row: nat, col: nat)
    requires i < Keys(l)
    ensures IsKey(l, layer, row, col) && KeyIndex(l, layer, row, col) == i
  {
    DivBelow(i, l.layers * l.rows, l.cols);
    var q := i / l.cols;
    DivBelow(q, l.layers, l.rows);
    layer, row, col := q / l.rows, q % l.rows, i % l.cols;
  }

  lemma KeyAt(l: Layout, mem: seq<byte>, i: nat, code: keycode)
    requires Fits(l, |mem|) && i < Keys(l)
    ensures var ws := KeyWrites(l.keymap + 2 * i, code);
            && InRange(ws, |mem|)
            && ReadKey(mem, l.keymap + 2 * i) == Keymap(l, mem)[i]
            && Keymap(l, Apply(mem, ws)) == Keymap(l, mem)[i := code]
            && SameOutside(mem, Apply(mem, ws), l.keymap, 2 * Keys(l))
  {
    hide Keys;
    hide Apply;
    KeyStored(mem, l.keymap + 2 * i, code);
  }

  /** Reading a key reads the list of keycodes at its number; setting a key updates the list there and
      changes no byte outside the keymap. */
  lemma KeyView(l: Layout, mem: seq<byte>, layer: nat, row: nat, col: nat, code: keycode)
    requires Fits(l, |mem|) && IsKey(l, layer, row, col)
    ensures var a, i := KeyAddress(l, layer, row, col), KeyIndex(l, layer, row, col);
            var ws := KeyWrites(a, code);
            && i < Keys(l) && l.keymap <= a && a + 1 < |mem| && InRange(ws, |mem|)
            && ReadKey(mem, a) == Keymap(l, mem)[i]
            && Keymap(l, Apply(mem, ws)) == Keymap(l, mem)[i := code]
            && SameOutside(mem, Apply(mem, ws), l.keymap, 2 * Keys(l))
  {
    hide Keys;
    hide KeyIndex;
    hide KeyAddress;
    hide Apply;
    IndexInRange(l, layer, row, col);
    AddressIsIndex(l, layer, row, col);
    KeyAt(l, mem, KeyIndex(l, layer, row, col), code);
  }

  /** The address arithmetic carries: a column past the end of its row is the key of a later row. */
  lemma ColumnCarries(l: Layout, layer: nat, row: nat, q: nat, r: nat)
    ensures KeyAddress(l, layer, row, q * l.cols + r) == KeyAddress(l, layer, row + q, r)
  {
    hide KeyAddress;
    AddressIsIndex(l, layer, row, q * l.cols + r);
    AddressIsIndex(l, layer, row + q, r);
    CarryIndex(layer * l.rows + row, q, r, l.cols);
  }

  lemma CarryIndex(base: nat, q: nat, r: nat, cols: nat)
    ensures base * cols + (q * cols + r) == (base + q) * cols + r
  {}

  const KC_NO: keycode := 0

  /** The keycode of a key; no key out of range. */
  function KeycodeOf(l: Layout, mem: seq<byte>, layer: nat, row: nat, col: nat): keycode
    requires Fits(l, |mem|)
  {
    if IsKey(l, layer, row, col) then
      IndexInRange(l, layer, row, col);
      Keymap(l, mem)[KeyIndex(l, layer, row, col)]
    else KC_NO
  }

  lemma KeyRead(l: Layout, mem: seq<byte>, layer: nat, row: nat, col: nat)
    requires Fits(l, |mem|) && IsKey(l, layer, row, col)
    ensures var a, i := KeyAddress(l, layer, row, col), KeyIndex(l, layer, row, col);
            a + 1 < |mem| && i < Keys(l) && ReadKey(mem, a) == KeycodeOf(l, mem, layer, row, col)
  {
    KeyView(l, mem, layer, row, col, 0);
  }

  // ---- chunks

  /** The keycodes as bytes, most significant first. */
  function Dump(codes: seq<keycode>): (data: seq<byte>)
    ensures |data| == 2 * |codes|
  {
    seq(2 * |codes|, j requires 0 <= j < 2 * |codes| =>
      if j % 2 == 0 then codes[j / 2] / 0x100 else codes[j / 2] % 0x100)
  }

  function Sum(sizes: seq<nat>): nat { if sizes == [] then 0 else sizes[0] + Sum(sizes[1..]) }

  /** Successive bulk reads. */
  function ReadChunks(mem: seq<byte>, addr: nat, length: nat, offset: nat, sizes: seq<nat>): seq<byte>
    requires addr + length <= |mem|
    decreases sizes
  {
    if sizes == [] then []
    else ReadRegion(mem, addr, length, offset, sizes[0]) + ReadChunks(mem, addr, length, offset + sizes[0], sizes[1..])
  }

  function Concat(chunks: seq<seq<byte>>): seq<byte> { if chunks == [] then [] else chunks[0] + Concat(chunks[1..]) }

  /** Successive bulk writes. */
  function ChunkWrites(addr: nat, length: nat, offset: nat, chunks: seq<seq<byte>>): seq<Write>
    decreases chunks
  {
    if chunks == [] then []
    else RegionWrites(addr, length, offset, chunks[0]) + ChunkWrites(addr, length, offset + |chunks[0]|, chunks[1..])
  }

  lemma ReadRegionJoin(mem: seq<byte>, addr: nat, length: nat, offset: nat, a: nat, b: nat)
    requires addr + length <= |mem|
    ensures ReadRegion(mem, addr, length, offset, a) + ReadRegion(mem, addr, length, offset + a, b)
            == ReadRegion(mem, addr, length, offset, a + b)
  {}

  lemma {:induction false} ReadChunksJoin(mem: seq<byte>, addr: nat, length: nat, offset: nat, sizes: seq<nat>)
    requires addr + length <= |mem|
    ensures ReadChunks(mem, addr, length, offset, sizes) == ReadRegion(mem, addr, length, offset, Sum(sizes))
    decreases sizes
  {
    hide ReadRegion;
    if sizes != [] {
      ReadChunksJoin(mem, addr, length, offset + sizes[0], sizes[1..]);
      ReadRegionJoin(mem, addr, length, offset, sizes[0], Sum(sizes[1..]));
    } else {
      assert ReadRegion(mem, addr, length, offset, 0) == [];
    }
  }

  /** However a bulk read is cut into chunks, it yields the keycodes big-endian in row-major order, with
      zeros past the end. */
  lemma BulkRead(l: Layout, mem: seq<byte>, offset: nat, sizes: seq<nat>)
    requires Fits(l, |mem|)
    ensures var data := ReadChunks(mem, l.keymap, 2 * Keys(l), offset, sizes);
            var dump := Dump(Keymap(l, mem));
            |data| == Sum(sizes) &&
            forall i :: 0 <= i < |data| ==> data[i] == if offset + i < |dump| then dump[offset + i] else 0
  {
    ReadChunksJoin(mem, l.keymap, 2 * Keys(l), offset, sizes);
    DumpBytes(l, mem);
  }

  lemma DumpBytes(l: Layout, mem: seq<byte>)
    requires Fits(l, |mem|)
    ensures Dump(Keymap(l, mem)) == mem[l.keymap..l.keymap + 2 * Keys(l)]
  {
    var dump := Dump(Keymap(l, mem));
    forall j | 0 <= j < 2 * Keys(l)
      ensures dump[j] == mem[l.keymap + j]
    {
      var code := Keymap(l, mem)[j / 2];
      assert code == ReadKey(mem, l.keymap + 2 * (j / 2));
      assert j == 2 * (j / 2) + j % 2;
    }
  }

  lemma {:induction false} RegionWritesJoin(addr: nat, length: nat, offset: nat, a: seq<byte>, b: seq<byte>)
    ensures RegionWrites(addr, length, offset, a + b)
            == RegionWrites(addr, length, offset, a) + RegionWrites(addr, length, offset + |a|, b)
  {
    if b == [] {
      assert a + b == a;
    } else {
      var n := |b| - 1;
      assert (a + b)[..|a| + n] == a + b[..n];
      RegionWritesJoin(addr, length, offset, a, b[..n]);
    }
  }

  lemma {:induction false} ChunkWritesJoin(addr: nat, length: nat, offset: nat, chunks: seq<seq<byte>>)
    ensures ChunkWrites(addr, length, offset, chunks) == RegionWrites(addr, length, offset, Concat(chunks))
    decreases chunks
  {
    if chunks != [] {
      ChunkWritesJoin(addr, length, offset + |chunks[0]|, chunks[1..]);
      RegionWritesJoin(addr, length, offset, chunks[0], Concat(chunks[1..]));
    }
  }

  /** The byte at `x` after a bulk write. */
  function RegionByte(mem: seq<byte>, addr: nat, length: nat, offset: nat, data: seq<byte>, x: nat): byte
    requires x < |mem|
  {
    if addr + offset <= x < addr + length && x < addr + offset + |data| then data[x - addr - offset] else mem[x]
  }

  lemma RegionByteStep(mem: seq<byte>, addr: nat, length: nat, offset: nat, data: seq<byte>, x: nat)
    requires x < |mem| && data != []
    ensures var n := |data| - 1;
            RegionByte(mem, addr, length, offset, data, x)
            == if offset + n < length && x == addr + offset + n then data[n]
               else RegionByte(mem, addr, length, offset, data[..n], x)
  {}

  /** A bulk write stores its bytes inside the region and touches nothing else. */
  lemma {:induction false} RegionStored(mem: seq<byte>, addr: nat, length: nat, offset: nat, data: seq<byte>)
    requires addr + length <= |mem|
    ensures var ws := RegionWrites(addr, length, offset, data);
            Within(ws, addr, length) && InRange(ws, |mem|) &&
            forall x :: 0 <= x < |mem| ==> Apply(mem, ws)[x] == RegionByte(mem, addr, length, offset, data, x)
  {
    if data != [] {
      hide RegionByte;
      hide Apply;
      var n := |data| - 1;
      var ws := RegionWrites(addr, length, offset, data[..n]);
      RegionStored(mem, addr, length, offset, data[..n]);
      if offset + n < length {
        var w := Write(addr + offset + n, data[n]);
        ApplySplit(mem, ws, [w]);
        ApplyOne(Apply(mem, ws), w);
      } else {
        assert RegionWrites(addr, length, offset, data) == ws;
      }
      forall x | 0 <= x < |mem|
        ensures Apply(mem, RegionWrites(addr, length, offset, data))[x]
                == RegionByte(mem, addr, length, offset, data, x)
      {
        RegionByteStep(mem, addr, length, offset, data, x);
        assert Apply(mem, ws)[x] == RegionByte(mem, addr, length, offset, data[..n], x);
      }
    }
  }

  lemma DumpAt(codes: seq<keycode>, i: nat)
    requires i < |codes|
    ensures Dump(codes)[2 * i] == codes[i] / 0x100 && Dump(codes)[2 * i + 1] == codes[i] % 0x100
  {}

  lemma KeyRestored(mem: seq<byte>, mem': seq<byte>, addr: nat, codes: seq<keycode>, data: seq<byte>, i: nat)
    requires |mem'| == |mem| && addr + 2 * |codes| <= |mem| && Dump(codes) <= data && i < |codes|
    requires forall x :: 0 <= x < |mem| ==> mem'[x] == RegionByte(mem, addr, 2 * |codes|, 0, data, x)
    ensures ReadKey(mem', addr + 2 * i) == codes[i]
  {
    hide Dump;
    DumpAt(codes, i);
    assert mem'[addr + 2 * i] == data[2 * i] && mem'[addr + 2 * i + 1] == data[2 * i + 1];
    assert data[2 * i] == Dump(codes)[2 * i] && data[2 * i + 1] == Dump(codes)[2 * i + 1];
  }

  /** Writing a dump back in chunks of any sizes restores every keycode, on any memory; bytes sent past
      the end of the keymap are dropped. */
  lemma BulkRestore(l: Layout, mem: seq<byte>, codes: seq<keycode>, chunks: seq<seq<byte>>)
    requires Fits(l, |mem|) && |codes| == Keys(l) && Dump(codes) <= Concat(chunks)
    ensures var ws := ChunkWrites(l.keymap, 2 * Keys(l), 0, chunks);
            InRange(ws, |mem|) && Keymap(l, Apply(mem, ws)) == codes &&
            SameOutside(mem, Apply(mem, ws), l.keymap, 2 * Keys(l))
  {
    hide Apply;
    hide Keys;
    hide RegionByte;
    hide Dump;
    hide ReadKey;
    var data := Concat(chunks);
    var ws := RegionWrites(l.keymap, 2 * Keys(l), 0, data);
    ChunkWritesJoin(l.keymap, 2 * Keys(l), 0, chunks);
    RegionStored(mem, l.keymap, 2 * Keys(l), 0, data);
    Frame(mem, ws, l.keymap, 2 * Keys(l));
    forall i | 0 <= i < Keys(l)
      ensures ReadKey(Apply(mem, ws), l.keymap + 2 * i) == codes[i]
    {
      KeyRestored(mem, Apply(mem, ws), l.keymap, codes, data, i);
    }
    assert Keymap(l, Apply(mem, ws)) == codes;
  }
}

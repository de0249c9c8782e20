/**
The persistent keymap over values: a flat memory, the regions in it, and the byte updates each
operation makes, in order.
*/
module KeymapModel {
  import opened Common

  type keycode = x: nat | x < 0x1_0000

  datatype Write = Write(addr: nat, val: byte)

  /** Where things are: three magic bytes with the layout options behind them, the keymap, the macros. */
  datatype Layout = Layout(
    magic: nat, optionBytes: nat, keymap: nat, layers: nat, rows: nat, cols: nat, macros: nat, macroBytes: nat)

  predicate Disjoint(a: nat, n: nat, b: nat, m: nat) { a + n <= b || b + m <= a }

  function Keys(l: Layout): nat { l.layers * l.rows * l.cols }

  function Options(l: Layout): nat { l.magic + 3 }

  predicate Fits(l: Layout, size: nat) {
    && l.optionBytes <= 4
    && l.magic + 3 + l.optionBytes <= size && l.keymap + 2 * Keys(l) <= size && l.macros + l.macroBytes <= size
    && Disjoint(l.magic, 3 + l.optionBytes, l.keymap, 2 * Keys(l))
    && Disjoint(l.magic, 3 + l.optionBytes, l.macros, l.macroBytes)
    && Disjoint(l.keymap, 2 * Keys(l), l.macros, l.macroBytes)
  }

  predicate InRange(ws: seq<Write>, size: nat) { forall i :: 0 <= i < |ws| ==> ws[i].addr < size }

  function Apply(mem: seq<byte>, ws: seq<Write>): (mem': seq<byte>)
    requires InRange(ws, |mem|)
    ensures |mem'| == |mem|
  {
    if ws == [] then mem
    else
      var n := |ws| - 1;
      Apply(mem, ws[..n])[ws[n].addr := ws[n].val]
  }

  // ---- the magic

  /** Three bytes of the build date "YYYY-MM-DD-...", two digits packed into each. */
  function Packed(date: seq<nat>, i: nat): byte
    requires i + 1 < |date|
  {
    date[i] % 16 * 16 + date[i + 1] % 16
  }

  function Magic(date: seq<nat>): (m: seq<byte>)
    requires |date| >= 10
    ensures |m| == 3
  {
    [Packed(date, 2), Packed(date, 5), Packed(date, 8)]
  }

  const INVALID: seq<byte> := [0xFF, 0xFF, 0xFF]

  function MagicWrites(l: Layout, m: seq<byte>): seq<Write>
    requires |m| == 3
  {
    [Write(l.magic, m[0]), Write(l.magic + 1, m[1]), Write(l.magic + 2, m[2])]
  }

  predicate IsValid(l: Layout, mem: seq<byte>, m: seq<byte>)
    requires Fits(l, |mem|) && |m| == 3
  {
    mem[l.magic] == m[0] && mem[l.magic + 1] == m[1] && mem[l.magic + 2] == m[2]
  }

  // ---- layout options: big-endian, written from the least significant byte down

  function OptionWrites(addr: nat, n: nat, value: nat): seq<Write> {
    if n == 0 then [] else [Write(addr + n - 1, value % 0x100)] + OptionWrites(addr, n - 1, value / 0x100)
  }

  function ReadOptions(mem: seq<byte>, addr: nat, n: nat): nat
    requires addr + n <= |mem|
  {
    if n == 0 then 0 else ReadOptions(mem, addr, n - 1) * 0x100 + mem[addr + n - 1]
  }

  // ---- the keymap: big-endian keycodes in row-major order

  /** Number of a key, counting along rows, rows along layers. */
  function KeyIndex(l: Layout, layer: nat, row: nat, col: nat): nat { (layer * l.rows + row) * l.cols + col }

  function KeyAddress(l: Layout, layer: nat, row: nat, col: nat): nat {
    l.keymap + layer * l.rows * l.cols * 2 + row * l.cols * 2 + col * 2
  }

  predicate IsKey(l: Layout, layer: nat, row: nat, col: nat) { layer < l.layers && row < l.rows && col < l.cols }

  function KeyWrites(addr: nat, code: keycode): seq<Write> {
    [Write(addr, code / 0x100), Write(addr + 1, code % 0x100)]
  }

  function ReadKey(mem: seq<byte>, addr: nat): keycode
    requires addr + 1 < |mem|
  {
    var hi: nat, lo: nat := mem[addr], mem[addr + 1];
    hi * 0x100 + lo
  }

  function KeymapWrites(addr: nat, codes: seq<keycode>): seq<Write> {
    if codes == [] then []
    else
      var n := |codes| - 1;
      KeymapWrites(addr, codes[..n]) + KeyWrites(addr + 2 * n, codes[n])
  }

  function ZeroWrites(addr: nat, n: nat): seq<Write> {
    if n == 0 then [] else ZeroWrites(addr, n - 1) + [Write(addr + n - 1, 0)]
  }

  /** The keycodes stored, in row-major order. */
  function Keymap(l: Layout, mem: seq<byte>): (codes: seq<keycode>)
    requires Fits(l, |mem|)
    ensures |codes| == Keys(l)
  {
    seq(Keys(l), i requires 0 <= i < Keys(l) => ReadKey(mem, l.keymap + 2 * i))
  }

  /** Bulk view: byte `i` from `addr`, and zero past the end of the region. */
  function ReadRegion(mem: seq<byte>, addr: nat, length: nat, offset: nat, size: nat): (data: seq<byte>)
    requires addr + length <= |mem|
    ensures |data| == size
  {
    seq(size, i requires 0 <= i < size => if offset + i < length then mem[addr + offset + i] else 0)
  }

  /** Bulk write: bytes past the end of the region are dropped. */
  function RegionWrites(addr: nat, length: nat, offset: nat, data: seq<byte>): seq<Write> {
    if data == [] then []
    else
      var n := |data| - 1;
      RegionWrites(addr, length, offset, data[..n]) +
      if offset + n < length then [Write(addr + offset + n, data[n])] else []
  }

  /** All updates of a factory reset, in order. */
  function ResetWrites(l: Layout, date: seq<nat>, options: uint32, flash: seq<keycode>): seq<Write>
    requires |date| >= 10
  {
    MagicWrites(l, INVALID) + ResetBody(l, options, flash) + MagicWrites(l, Magic(date))
  }

  function ResetBody(l: Layout, options: uint32, flash: seq<keycode>): seq<Write> {
    OptionWrites(Options(l), l.optionBytes, options) + KeymapWrites(l.keymap, flash) +
    ZeroWrites(l.macros, l.macroBytes)
  }
}

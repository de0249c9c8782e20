/**
The source-layer cache over values: for each group of eight keys one byte per bit of the layer
number, one bit per key.
*/
module LayerModel {
  import opened Arithmetic

  /** The configured width of the layer state. */
  datatype Width = Layers8 | Layers16 | Layers32

  function Bits(w: Width): nat {
    match w case Layers8 => 3 case Layers16 => 4 case Layers32 => 5
  }

  function Pow2(n: nat): (p: nat)
    ensures p > 0
  {
    if n == 0 then 1 else 2 * Pow2(n - 1)
  }

  function MaxLayer(w: Width): nat { Pow2(Bits(w)) }

  type Row = seq<bv8>

  type Table = seq<Row>

  predicate HasBit(b: bv8, i: nat)
    requires i < 8
  {
    b & Bit(i) != 0
  }

  /** Bit `n` of a layer number. */
  predicate LayerBit(layer: nat, n: nat) { layer / Pow2(n) % 2 == 1 }

  /** The branch-free update of the bits selected by `m`. */
  function SetBits(c: bv8, m: bv8, on: bool): bv8 { c ^ (((if on then 0xFF else 0) ^ c) & m) }

  function UpdateRow(row: Row, slot: nat, layer: nat): (row': Row)
    requires slot < 8
    ensures |row'| == |row|
  {
    seq(|row|, n requires 0 <= n < |row| => SetBits(row[n], Bit(slot), LayerBit(layer, n)))
  }

  /** The layer number put together from the first `n` bytes of a row, each bit one place higher. */
  function ReadRow(row: Row, slot: nat, n: nat): nat
    requires slot < 8 && n <= |row|
  {
    if n == 0 then 0 else ReadRow(row, slot, n - 1) + (if HasBit(row[n - 1], slot) then Pow2(n - 1) else 0)
  }

  predicate IsTable(w: Width, t: Table, keys: nat) {
    |t| == (keys + 7) / 8 && forall r :: 0 <= r < |t| ==> |t[r]| == Bits(w)
  }

  function Update(w: Width, t: Table, keys: nat, k: nat, layer: nat): (t': Table)
    requires IsTable(w, t, keys) && k < keys
    ensures IsTable(w, t', keys)
  {
    t[k / 8 := UpdateRow(t[k / 8], k % 8, layer)]
  }

  function Read(w: Width, t: Table, keys: nat, k: nat): nat
    requires IsTable(w, t, keys) && k < keys
  {
    ReadRow(t[k / 8], k % 8, Bits(w))
  }

  // ---- keys and layers

  datatype Key = Key(row: nat, col: nat)

  datatype Matrix = Matrix(rows: nat, cols: nat)

  predicate OnMatrix(x: Matrix, k: Key) { k.row < x.rows && k.col < x.cols }

  /** An 8-bit number: it wraps on matrices of more than 256 keys. */
  function KeyNumber(x: Matrix, k: Key): nat { (k.col + k.row * x.cols) % 0x100 }

  const TRANSPARENT := 1

  /** The keymap: the action code of a key on a layer. */
  type Actions = (nat, Key) -> nat

  /** The topmost layer below `top` that is on and not transparent for the key; layer 0 if there is none.
      `layers` are the layers that are on, of the current and of the default state. */
  function SwitchLayer(layers: set<nat>, f: Actions, k: Key, top: nat): nat {
    if top == 0 then 0
    else if top - 1 in layers && f(top - 1, k) != TRANSPARENT then top - 1
    else SwitchLayer(layers, f, k, top - 1)
  }
}

/** The cache refines a map from keys to layers; releases find the layer of their press. */
module LayerProofs {
  import opened Arithmetic
  import opened LayerModel

  // ---- bits

  lemma SetBitsSelected(c: bv8, m: bv8, on: bool)
    ensures SetBits(c, m, on) & m == if on then m else 0
  {}

  lemma SetBitsOther(c: bv8, m: bv8, n: bv8, on: bool)
    requires m & n == 0
    ensures SetBits(c, m, on) & n == c & n
  {}

  /** The update sets the bit of its own key and of no other. */
  lemma SetOneBit(c: bv8, slot: nat, on: bool, other: nat)
    requires slot < 8 && other < 8
    ensures HasBit(SetBits(c, Bit(slot), on), other) == if other == slot then on else HasBit(c, other)
  {
    BitsApart(slot, other);
    SetBitsSelected(c, Bit(slot), on);
    if other != slot { SetBitsOther(c, Bit(slot), Bit(other), on); }
  }

  /** The lowest bits of a number, one more of them. */
  lemma OneMoreBit(v: nat, n: nat)
    ensures v % Pow2(n + 1) == v % Pow2(n) + if LayerBit(v, n) then Pow2(n) else 0
  {
    var p := Pow2(n);
    var q, r := v / p, v % p;
    var k, b := q / 2, q % 2;
    Regroup(k, b, p);
    assert v == q * p + r;
    DivUnique(v, 2 * p, k, b * p + r);
  }

  lemma Regroup(k: nat, b: nat, p: nat)
    requires b < 2
    ensures (2 * k + b) * p == k * (2 * p) + b * p
    ensures b * p == if b == 1 then p else 0
  {}

  // ---- rows

  /** Reading what was just stored gives the stored number, cut to the bits there are. */
  lemma {:induction false} ReadUpdated(row: Row, slot: nat, layer: nat, n: nat)
    requires slot < 8 && n <= |row|
    ensures ReadRow(UpdateRow(row, slot, layer), slot, n) == layer % Pow2(n)
  {
    hide Bit;
    hide SetBits;
    if n > 0 {
      ReadUpdated(row, slot, layer, n - 1);
      SetOneBit(row[n - 1], slot, LayerBit(layer, n - 1), slot);
      OneMoreBit(layer, n - 1);
    }
  }

  lemma {:induction false} ReadOther(row: Row, slot: nat, layer: nat, other: nat, n: nat)
    requires slot < 8 && other < 8 && other != slot && n <= |row|
    ensures ReadRow(UpdateRow(row, slot, layer), other, n) == ReadRow(row, other, n)
  {
    hide Bit;
    hide SetBits;
    if n > 0 {
      ReadOther(row, slot, layer, other, n - 1);
      SetOneBit(row[n - 1], slot, LayerBit(layer, n - 1), other);
    }
  }

  // ---- the table

  /** The cache is a map from keys to layers: an update changes the entry of its key to the layer and
      leaves every other entry alone. */
  lemma CacheIsMap(w: Width, t: Table, keys: nat, k: nat, layer: nat, j: nat)
    requires IsTable(w, t, keys) && k < keys && j < keys && layer < MaxLayer(w)
    ensures Read(w, Update(w, t, keys, k, layer), keys, j) == if j == k then layer else Read(w, t, keys, j)
  {
    hide UpdateRow;
    hide ReadRow;
    var row := t[k / 8];
    if j == k {
      ReadUpdated(row, k % 8, layer, Bits(w));
    } else if j / 8 == k / 8 {
      ReadOther(row, k % 8, layer, j % 8, Bits(w));
    }
  }

  // ---- key numbers

  /** At most 256 keys. */
  ghost predicate Small(x: Matrix) { x.rows * x.cols <= 0x100 }

  /** On a small matrix the 8-bit number tells keys apart. */
  lemma KeyNumbersApart(x: Matrix, a: Key, b: Key)
    requires Small(x) && OnMatrix(x, a) && OnMatrix(x, b)
    ensures KeyNumber(x, a) < x.rows * x.cols
    ensures KeyNumber(x, a) == KeyNumber(x, b) <==> a == b
  {
    NumberBelow(x, a);
    NumberBelow(x, b);
    if KeyNumber(x, a) == KeyNumber(x, b) { NumberUnique(x, a, b); }
  }

  lemma NumberUnique(x: Matrix, a: Key, b: Key)
    requires OnMatrix(x, a) && OnMatrix(x, b) && a.col + a.row * x.cols == b.col + b.row * x.cols
    ensures a == b
  {
    DivUnique(a.row * x.cols + a.col, x.cols, a.row, a.col);
    DivUnique(b.row * x.cols + b.col, x.cols, b.row, b.col);
  }

  /** Key numbers stay inside the table, on matrices of any size. */
  lemma NumberBelow(x: Matrix, k: Key)
    requires OnMatrix(x, k)
    ensures k.col + k.row * x.cols < x.rows * x.cols && KeyNumber(x, k) < x.rows * x.cols
    ensures x.rows * x.cols <= 0x100 ==> KeyNumber(x, k) == k.col + k.row * x.cols
  {
    MulMono(x.rows, k.row + 1, x.cols);
    MulNext(k.row, x.cols);
  }

  /** On any larger matrix two keys share a number. */
  lemma LargeMatrixCollides(x: Matrix) returns (a: Key, b: Key)
    requires !Small(x)
    ensures OnMatrix(x, a) && OnMatrix(x, b) && a != b && KeyNumber(x, a) == KeyNumber(x, b)
  {
    DivBelow(0x100, x.rows, x.cols);
    a, b := Key(0, 0), Key(0x100 / x.cols, 0x100 % x.cols);
    SomeRow(x);
  }

  lemma SomeRow(x: Matrix)
    requires x.rows * x.cols > 0
    ensures x.rows > 0 && x.cols > 0
  {}

  // ---- layers

  /** As many layers as the layer state has bits. */
  lemma LayersOfWidth()
    ensures MaxLayer(Layers8) == 8 && MaxLayer(Layers16) == 16 && MaxLayer(Layers32) == 32
  {
    assert Pow2(1) == 2 && Pow2(2) == 4 && Pow2(3) == 8 && Pow2(4) == 16 && Pow2(5) == 32;
  }

  /** The layer chosen is on and not transparent with no such layer above it, or there is none. */
  lemma {:induction false} SwitchLayerIsTopmost(layers: set<nat>, f: Actions, k: Key, top: nat)
    ensures var r := SwitchLayer(layers, f, k, top);
            && (forall i :: r < i < top ==> !(i in layers && f(i, k) != TRANSPARENT))
            && (top > 0 ==> r < top)
            && (r != 0 ==> r in layers && f(r, k) != TRANSPARENT)
  {
    if top != 0 { SwitchLayerIsTopmost(layers, f, k, top - 1); }
  }

  // ---- runs

  /** A press with the layer state of that moment, or a release with the one of that moment. */
  datatype Op = Press(key: Key, layers: set<nat>) | Release(key: Key, layers: set<nat>)

  predicate Keyed(x: Matrix, ops: seq<Op>) { forall i :: 0 <= i < |ops| ==> OnMatrix(x, ops[i].key) }

  function Empty(w: Width, keys: nat): (t: Table)
    ensures IsTable(w, t, keys)
  {
    seq((keys + 7) / 8, _ => seq(Bits(w), _ => 0))
  }

  /** The cache after a run. */
  function Run(w: Width, x: Matrix, f: Actions, ops: seq<Op>): (t: Table)
    requires Keyed(x, ops)
    ensures IsTable(w, t, x.rows * x.cols)
  {
    if ops == [] then Empty(w, x.rows * x.cols)
    else
      var t, op := Run(w, x, f, ops[..|ops| - 1]), ops[|ops| - 1];
      NumberBelow(x, op.key);
      match op
      case Press(k, layers) =>
        Update(w, t, x.rows * x.cols, KeyNumber(x, k), SwitchLayer(layers, f, k, MaxLayer(w)))
      case Release(_, _) => t
  }

  /** The action carried out for the operation `op` after `ops`. */
  function Resolve(w: Width, x: Matrix, f: Actions, ops: seq<Op>, op: Op): nat
    requires Keyed(x, ops) && OnMatrix(x, op.key)
  {
    NumberBelow(x, op.key);
    match op
    case Press(k, layers) => f(SwitchLayer(layers, f, k, MaxLayer(w)), k)
    case Release(k, _) => f(Read(w, Run(w, x, f, ops), x.rows * x.cols, KeyNumber(x, k)), k)
  }

  lemma {:induction false} CacheKeepsPress(w: Width, x: Matrix, f: Actions, ops: seq<Op>, j: nat)
    requires Small(x) && Keyed(x, ops) && j < |ops| && ops[j].Press?
    requires forall i :: j < i < |ops| ==> !(ops[i].Press? && ops[i].key == ops[j].key)
    ensures KeyNumber(x, ops[j].key) < x.rows * x.cols
    ensures Read(w, Run(w, x, f, ops), x.rows * x.cols, KeyNumber(x, ops[j].key))
            == SwitchLayer(ops[j].layers, f, ops[j].key, MaxLayer(w))
  {
    var n := |ops| - 1;
    var k, op := ops[j].key, ops[n];
    KeyNumbersApart(x, k, op.key);
    KeyNumbersApart(x, op.key, op.key);
    if op.Press? {
      SwitchLayerIsTopmost(op.layers, f, op.key, MaxLayer(w));
      CacheIsMap(w, Run(w, x, f, ops[..n]), x.rows * x.cols, KeyNumber(x, op.key),
                 SwitchLayer(op.layers, f, op.key, MaxLayer(w)), KeyNumber(x, k));
    }
    if j < n { CacheKeepsPress(w, x, f, ops[..n], j); }
  }

  /** After `ops`, `release` is the release of the key pressed by number `j` of them and not pressed since. */
  predicate Releases(x: Matrix, ops: seq<Op>, j: nat, release: Op) {
    && Keyed(x, ops) && j < |ops| && ops[j].Press? && release.Release? && release.key == ops[j].key
    && forall i :: j < i < |ops| ==> !(ops[i].Press? && ops[i].key == ops[j].key)
  }

  /** The release resolves to the action of its press. */
  predicate Matches(w: Width, x: Matrix, f: Actions, ops: seq<Op>, j: nat, release: Op)
    requires Releases(x, ops, j, release)
  {
    assert OnMatrix(x, ops[j].key);
    Resolve(w, x, f, ops, release) == Resolve(w, x, f, ops[..j], ops[j])
  }

  /** On a small matrix a release resolves to exactly the action of its own press, whatever layers and other
      keys do in between. */
  lemma ReleaseMatchesPress(w: Width, x: Matrix, f: Actions, ops: seq<Op>, j: nat, release: Op)
    requires Small(x) && Releases(x, ops, j, release)
    ensures Matches(w, x, f, ops, j, release)
  {
    CacheKeepsPress(w, x, f, ops, j);
  }

  /** On any larger matrix some release resolves to the action of another key's layer. */
  lemma LargeMatrixMixesUp(w: Width, x: Matrix) returns (f: Actions, ops: seq<Op>, release: Op)
    requires !Small(x)
    ensures Releases(x, ops, 0, release) && !Matches(w, x, f, ops, 0, release)
  {
    var a, b := LargeMatrixCollides(x);
    f := (layer, _) => layer + TRANSPARENT + 1;
    var first, second := Press(a, {0, 1}), Press(b, {0});
    ops, release := [first, second], Release(a, {0});
    NumberBelow(x, a);
    NumberBelow(x, b);
    TwoLayers(w);
    SwitchLayerIsTopmost({0, 1}, f, a, MaxLayer(w));
    SwitchLayerIsTopmost({0}, f, b, MaxLayer(w));
    assert 1 in {0, 1} && f(1, a) != TRANSPARENT;
    var n, keys := KeyNumber(x, b), x.rows * x.cols;
    assert ops[..1][..0] == [] && ops[..2] == ops && ops[..1] == [first] && ops[..0] == [];
    var t := Run(w, x, f, [first]);
    assert Run(w, x, f, ops) == Update(w, t, keys, n, 0);
    CacheIsMap(w, t, keys, n, 0, n);
  }

  lemma TwoLayers(w: Width)
    ensures MaxLayer(w) >= 2
  {
    assert Pow2(1) == 2 && Pow2(2) == 4 && Pow2(3) == 8;
  }

  /** The exact condition: every release of every run resolves to the action of its press if and only if the
      matrix has at most 256 keys. */
  lemma ReleaseMatchesPressIff(w: Width, x: Matrix)
    ensures Small(x) <==>
            forall f, ops, j, release :: Releases(x, ops, j, release) ==> Matches(w, x, f, ops, j, release)
  {
    hide Releases;
    hide Matches;
    if Small(x) {
      forall f, ops, j, release | Releases(x, ops, j, release)
        ensures Matches(w, x, f, ops, j, release)
      {
        ReleaseMatchesPress(w, x, f, ops, j, release);
      }
    } else {
      var f, ops, release := LargeMatrixMixesUp(w, x);
    }
  }
}

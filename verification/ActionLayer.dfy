/** The source-layer cache as it runs: a table of bytes updated bit by bit. */
module ActionLayer {
  import opened Arithmetic
  import opened LayerModel
  import opened LayerProofs

  class Cache {
    const w: Width
    const x: Matrix
    const table: array2<bv8>

    ghost predicate Valid() {
      table.Length0 == (x.rows * x.cols + 7) / 8 && table.Length1 == Bits(w)
    }

    ghost function RowAt(r: nat): Row
      requires r < table.Length0
      reads table
    {
      seq(table.Length1, n requires 0 <= n < table.Length1 reads table => table[r, n])
    }

    ghost function Abs(): Table
      reads table
    {
      seq(table.Length0, r requires 0 <= r < table.Length0 reads table => RowAt(r))
    }

    constructor (w: Width, x: Matrix)
      ensures Valid() && this.w == w && this.x == x && fresh(table) && Abs() == Empty(w, x.rows * x.cols)
    {
      this.w, this.x := w, x;
      table := new bv8[(x.rows * x.cols + 7) / 8, Bits(w)]((_, _) => 0);
      new;
      assert forall r :: 0 <= r < table.Length0 ==> RowAt(r) == Empty(w, x.rows * x.cols)[r];
    }

    method UpdateSourceLayersCache(k: Key, layer: nat)
      requires Valid() && OnMatrix(x, k)
      modifies table
      ensures KeyNumber(x, k) < x.rows * x.cols && IsTable(w, old(Abs()), x.rows * x.cols)
      ensures Abs() == Update(w, old(Abs()), x.rows * x.cols, KeyNumber(x, k), layer)
    {
      NumberBelow(x, k);
      var number := KeyNumber(x, k);
      var row, slot := number / 8, number % 8;
      ghost var was := Abs();
      for n := 0 to Bits(w)
        invariant forall r, m :: 0 <= r < table.Length0 && 0 <= m < table.Length1 ==>
                    table[r, m] == if r == row && m < n then UpdateRow(was[row], slot, layer)[m] else was[r][m]
      {
        table[row, n] := SetBits(table[row, n], Bit(slot), LayerBit(layer, n));
      }
      assert RowAt(row) == UpdateRow(was[row], slot, layer);
      assert forall r :: 0 <= r < table.Length0 && r != row ==> RowAt(r) == was[r];
      assert Abs() == was[row := UpdateRow(was[row], slot, layer)];
    }

    method ReadSourceLayersCache(k: Key) returns (layer: nat)
      requires Valid() && OnMatrix(x, k)
      ensures KeyNumber(x, k) < x.rows * x.cols && IsTable(w, Abs(), x.rows * x.cols)
      ensures layer == Read(w, Abs(), x.rows * x.cols, KeyNumber(x, k))
    {
      NumberBelow(x, k);
      var number := KeyNumber(x, k);
      var row, slot := number / 8, number % 8;
      layer := 0;
      for n := 0 to Bits(w)
        invariant layer == ReadRow(Abs()[row], slot, n)
      {
        if HasBit(table[row, n], slot) { layer := layer + Pow2(n); }
      }
    }

    /** Highest layer first. */
    method LayerSwitchGetLayer(k: Key, layers: set<nat>, f: Actions) returns (layer: nat)
      ensures layer == SwitchLayer(layers, f, k, MaxLayer(w))
    {
      var i := MaxLayer(w);
      while i > 0
        invariant SwitchLayer(layers, f, k, i) == SwitchLayer(layers, f, k, MaxLayer(w))
      {
        i := i - 1;
        if i in layers && f(i, k) != TRANSPARENT { return i; }
      }
      return 0;
    }

    /** With caching disabled the current layers decide for releases too. */
    method StoreOrGetAction(pressed: bool, k: Key, layers: set<nat>, f: Actions, uncached: bool) returns (action: nat)
      requires Valid() && OnMatrix(x, k)
      modifies table
      ensures KeyNumber(x, k) < x.rows * x.cols && IsTable(w, old(Abs()), x.rows * x.cols)
      ensures var top := SwitchLayer(layers, f, k, MaxLayer(w));
              if uncached then action == f(top, k) && Abs() == old(Abs())
              else if pressed then
                action == f(top, k) && Abs() == Update(w, old(Abs()), x.rows * x.cols, KeyNumber(x, k), top)
              else
                action == f(Read(w, old(Abs()), x.rows * x.cols, KeyNumber(x, k)), k) && Abs() == old(Abs())
    {
      NumberBelow(x, k);
      var layer;
      if uncached {
        layer := LayerSwitchGetLayer(k, layers, f);
        return f(layer, k);
      }
      if pressed {
        layer := LayerSwitchGetLayer(k, layers, f);
        UpdateSourceLayersCache(k, layer);
      } else {
        layer := ReadSourceLayersCache(k);
      }
      return f(layer, k);
    }
  }
}

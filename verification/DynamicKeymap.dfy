/** The persistent keymap as it runs: byte updates of one EEPROM, and the parser of the macro area. */
module DynamicKeymap {
  import opened Arithmetic
  import opened Common
  import opened KeymapModel
  import opened KeymapProofs
  import opened KeymapViews
  import opened MacroText

  /** The memory, and all updates requested so far. */
  datatype Device = Device(mem: seq<byte>, log: seq<Write>)

  /** Between two moments exactly the updates `ws` were made, in this order. */
  ghost predicate Made(d: Device, ws: seq<Write>, d': Device) {
    InRange(ws, |d.mem|) && d'.mem == Apply(d.mem, ws) && d'.log == d.log + ws
  }

  lemma MadeMore(d: Device, a: seq<Write>, d1: Device, b: seq<Write>, d2: Device)
    requires Made(d, a, d1) && Made(d1, b, d2)
    ensures Made(d, a + b, d2)
  {
    hide Apply;
    ApplySplit(d.mem, a, b);
  }

  lemma MadeNothing(d: Device)
    ensures Made(d, [], d)
  {}

  lemma StartOfLayer(l: Layout, layer: nat)
    ensures KeyIndex(l, layer, 0, 0) == layer * l.rows * l.cols
  {}

  /** Key numbers go on from column to column, row to row, layer to layer. */
  lemma NextIndex(l: Layout, layer: nat, row: nat, col: nat)
    ensures KeyIndex(l, layer, row, col + 1) == KeyIndex(l, layer, row, col) + 1
    ensures KeyIndex(l, layer, row, l.cols) == KeyIndex(l, layer, row + 1, 0)
    ensures KeyIndex(l, layer, l.rows, 0) == KeyIndex(l, layer + 1, 0, 0)
  {}

  /** The options from the least significant byte down. */
  lemma OptionStep(addr: nat, n: nat, value: nat)
    ensures OptionWrites(addr, n, value)
            == if n == 0 then []
               else [Write(addr + n - 1, value % 0x100)] + OptionWrites(addr, n - 1, value / 0x100)
  {}

  lemma NoStrings()
    ensures Zeros([]) == 0
  {}

  class Store {
    const mem: array<byte>
    const l: Layout
    const date: seq<nat>
    var log: seq<Write>

    ghost predicate Valid() { Fits(l, mem.Length) && |date| >= 10 }

    constructor (l: Layout, date: seq<nat>, mem: array<byte>)
      requires Fits(l, mem.Length) && |date| >= 10
      ensures Valid() && this.l == l && this.date == date && this.mem == mem && log == []
    {
      this.l, this.date, this.mem, log := l, date, mem, [];
    }

    ghost function Now(): Device
      reads this`log, mem
    {
      Device(mem[..], log)
    }

    method EepromUpdateByte(addr: nat, val: byte)
      requires addr < mem.Length
      modifies mem, this`log
      ensures Made(old(Now()), [Write(addr, val)], Now())
    {
      ApplyOne(mem[..], Write(addr, val));
      mem[addr] := val;
      log := log + [Write(addr, val)];
    }

    method ViaEepromIsValid() returns (valid: bool)
      requires Valid()
      ensures valid == IsValid(l, mem[..], Magic(date))
    {
      var m0, m1, m2 := Packed(date, 2), Packed(date, 5), Packed(date, 8);
      return mem[l.magic] == m0 && mem[l.magic + 1] == m1 && mem[l.magic + 2] == m2;
    }

    method ViaEepromSetValid(valid: bool)
      requires Valid()
      modifies mem, this`log
      ensures Made(old(Now()), MagicWrites(l, if valid then Magic(date) else INVALID), Now())
    {
      hide Apply;
      var m0, m1, m2 := Packed(date, 2), Packed(date, 5), Packed(date, 8);
      ghost var ws := MagicWrites(l, if valid then Magic(date) else INVALID);
      ghost var d := Now();
      EepromUpdateByte(l.magic, if valid then m0 else 0xFF);
      ghost var d1 := Now();
      EepromUpdateByte(l.magic + 1, if valid then m1 else 0xFF);
      MadeMore(d, [ws[0]], d1, [ws[1]], Now());
      ghost var d2 := Now();
      EepromUpdateByte(l.magic + 2, if valid then m2 else 0xFF);
      MadeMore(d, [ws[0]] + [ws[1]], d2, [ws[2]], Now());
      assert [ws[0]] + [ws[1]] + [ws[2]] == ws;
    }

    /** Starts at the least significant byte. */
    method ViaSetLayoutOptions(value: uint32)
      requires Valid()
      modifies mem, this`log
      ensures Made(old(Now()), OptionWrites(Options(l), l.optionBytes, value), Now())
    {
      hide Apply;
      hide OptionWrites;
      assert Options(l) + l.optionBytes <= mem.Length;
      hide Fits;
      ghost var d := Now();
      MadeNothing(d);
      ghost var a: seq<Write> := [];
      var v, target := value, Options(l) + l.optionBytes - 1;
      for i := 0 to l.optionBytes
        invariant target == Options(l) + l.optionBytes - 1 - i
        invariant Made(d, a, Now())
        invariant OptionWrites(Options(l), l.optionBytes, value) == a + OptionWrites(Options(l), l.optionBytes - i, v)
      {
        OptionStep(Options(l), l.optionBytes - i, v);
        ghost var d1 := Now();
        ghost var w := Write(target, v % 0x100);
        EepromUpdateByte(target, v % 0x100);
        MadeMore(d, a, d1, [w], Now());
        a := a + [w];
        v := v / 0x100;
        target := target - 1;
      }
      OptionStep(Options(l), 0, v);
      assert a + [] == a;
    }

    /** Starts at the most significant byte; the shift is of 32 bits. */
    method ViaGetLayoutOptions() returns (value: uint32)
      requires Valid()
      ensures value == ReadOptions(mem[..], Options(l), l.optionBytes)
    {
      var v: nat := 0;
      for i := 0 to l.optionBytes
        invariant v == ReadOptions(mem[..], Options(l), i)
        invariant v < Pow256(i) && Pow256(i) <= 0x1_0000_0000
      {
        assert Pow256(4) == 0x1_0000_0000 && Pow256(3) == 0x100_0000 && Pow256(2) == 0x1_0000;
        v := v * 0x100 % 0x1_0000_0000 + mem[Options(l) + i];
      }
      return v;
    }

    /** Any address inside the memory is written, whether or not it belongs to a key; for keys KeyView says
        what that does to the keymap. */
    method SetKeycode(layer: nat, row: nat, col: nat, code: keycode)
      requires KeyAddress(l, layer, row, col) + 1 < mem.Length
      modifies mem, this`log
      ensures Made(old(Now()), KeyWrites(KeyAddress(l, layer, row, col), code), Now())
    {
      hide Apply;
      hide KeyAddress;
      ghost var d := Now();
      var address := KeyAddress(l, layer, row, col);
      EepromUpdateByte(address, code / 0x100);
      ghost var d1 := Now();
      EepromUpdateByte(address + 1, code % 0x100);
      MadeMore(d, [Write(address, code / 0x100)], d1, [Write(address + 1, code % 0x100)], Now());
      assert [Write(address, code / 0x100)] + [Write(address + 1, code % 0x100)] == KeyWrites(address, code);
    }

    /** Out of range means no key. */
    method KeycodeAt(layer: nat, row: nat, col: nat) returns (code: keycode)
      requires Valid()
      ensures code == KeycodeOf(l, mem[..], layer, row, col)
    {
      hide Apply;
      hide KeyAddress;
      hide KeyIndex;
      hide Fits;
      hide Keys;
      if layer < l.layers && row < l.rows && col < l.cols {
        KeyRead(l, mem[..], layer, row, col);
        var address := KeyAddress(l, layer, row, col);
        var hi: nat, lo: nat := mem[address], mem[address + 1];
        return hi * 0x100 + lo;
      }
      return KC_NO;
    }

    /** Copies the flash keymap, key by key. */
    method DynamicKeymapReset(flash: seq<keycode>)
      requires Valid() && |flash| == Keys(l)
      modifies mem, this`log
      ensures Made(old(Now()), KeymapWrites(l.keymap, flash), Now())
    {
      hide Apply;
      hide KeyIndex;
      hide KeyAddress;
      hide Fits;
      ghost var d := Now();
      MadeNothing(d);
      StartOfLayer(l, 0);
      for layer := 0 to l.layers
        invariant Copied(d, flash, KeyIndex(l, layer, 0, 0))
      {
        for row := 0 to l.rows
          invariant Copied(d, flash, KeyIndex(l, layer, row, 0))
        {
          for col := 0 to l.cols
            invariant Copied(d, flash, KeyIndex(l, layer, row, col))
          {
            ghost var i := KeyIndex(l, layer, row, col);
            IndexInRange(l, layer, row, col);
            AddressIsIndex(l, layer, row, col);
            KeyRead(l, mem[..], layer, row, col);
            ghost var d1 := Now();
            SetKeycode(layer, row, col, flash[KeyIndex(l, layer, row, col)]);
            MadeMore(d, KeymapWrites(l.keymap, flash[..i]), d1, KeyWrites(l.keymap + 2 * i, flash[i]), Now());
            assert flash[..i + 1][..i] == flash[..i];
            NextIndex(l, layer, row, col);
          }
          NextIndex(l, layer, row, 0);
        }
        NextIndex(l, layer, 0, 0);
      }
      StartOfLayer(l, l.layers);
      assert flash[..Keys(l)] == flash;
    }

    /** The first `i` keys have been copied. */
    ghost predicate Copied(d: Device, flash: seq<keycode>, i: nat)
      reads this`log, mem
    {
      i <= |flash| && Made(d, KeymapWrites(l.keymap, flash[..i]), Now())
    }

    method DynamicKeymapMacroReset()
      requires Valid()
      modifies mem, this`log
      ensures Made(old(Now()), ZeroWrites(l.macros, l.macroBytes), Now())
    {
      hide Apply;
      ghost var d := Now();
      MadeNothing(d);
      var p, end := l.macros, l.macros + l.macroBytes;
      while p != end
        invariant l.macros <= p <= end && Made(d, ZeroWrites(l.macros, p - l.macros), Now())
        decreases end - p
      {
        ghost var d1 := Now();
        EepromUpdateByte(p, 0);
        MadeMore(d, ZeroWrites(l.macros, p - l.macros), d1, [Write(p, 0)], Now());
        p := p + 1;
      }
    }

    /** The reset: the magic is cleared first and set last. */
    method EeconfigInitVia(options: uint32, flash: seq<keycode>)
      requires Valid() && |flash| == Keys(l)
      modifies mem, this`log
      ensures Made(old(Now()), ResetWrites(l, date, options, flash), Now())
      ensures IsValid(l, mem[..], Magic(date)) && Keymap(l, mem[..]) == flash
    {
      hide Apply;
      hide KeymapWrites;
      hide OptionWrites;
      hide ZeroWrites;
      hide ReadOptions;
      hide Keymap;
      hide Owned;
      hide Fits;
      ghost var w1, w2 := MagicWrites(l, INVALID), OptionWrites(Options(l), l.optionBytes, options);
      ghost var w3, w4 := KeymapWrites(l.keymap, flash), ZeroWrites(l.macros, l.macroBytes);
      ghost var d := Now();
      ResetComplete(l, d.mem, date, options, flash);
      ViaEepromSetValid(false);
      ghost var d1 := Now();
      ViaSetLayoutOptions(options);
      MadeMore(d, w1, d1, w2, Now());
      d1 := Now();
      DynamicKeymapReset(flash);
      MadeMore(d, w1 + w2, d1, w3, Now());
      d1 := Now();
      DynamicKeymapMacroReset();
      MadeMore(d, w1 + w2 + w3, d1, w4, Now());
      d1 := Now();
      ViaEepromSetValid(true);
      MadeMore(d, w1 + w2 + w3 + w4, d1, MagicWrites(l, Magic(date)), Now());
      assert w1 + w2 + w3 + w4 + MagicWrites(l, Magic(date)) == ResetWrites(l, date, options, flash);
    }

    /** At start-up: data with the right magic is kept, anything else is reset. */
    method ViaInit(options: uint32, flash: seq<keycode>)
      requires Valid() && |flash| == Keys(l)
      modifies mem, this`log
      ensures IsValid(l, mem[..], Magic(date))
      ensures if IsValid(l, old(mem[..]), Magic(date)) then Now() == old(Now())
              else Made(old(Now()), ResetWrites(l, date, options, flash), Now())
    {
      var valid := ViaEepromIsValid();
      if !valid { EeconfigInitVia(options, flash); }
    }

    method GetBuffer(offset: nat, size: nat, data: array<byte>)
      requires Valid() && size <= data.Length && data != mem
      modifies data
      ensures data[..size] == ReadRegion(mem[..], l.keymap, 2 * Keys(l), offset, size)
      ensures data[size..] == old(data[size..])
    {
      var bytes := 2 * (l.layers * l.rows * l.cols);
      for i := 0 to size
        invariant data[..i] == ReadRegion(mem[..], l.keymap, 2 * Keys(l), offset, i)
        invariant data[size..] == old(data[size..])
      {
        data[i] := if offset + i < bytes then mem[l.keymap + offset + i] else 0;
        assert data[..i + 1] == data[..i] + [data[i]];
      }
    }

    method SetBuffer(offset: nat, size: nat, data: array<byte>)
      requires Valid() && size <= data.Length && data != mem
      modifies mem, this`log
      ensures Made(old(Now()), RegionWrites(l.keymap, 2 * Keys(l), offset, data[..size]), Now())
    {
      hide Apply;
      ghost var d := Now();
      MadeNothing(d);
      var bytes := 2 * (l.layers * l.rows * l.cols);
      for i := 0 to size
        invariant Made(d, RegionWrites(l.keymap, bytes, offset, data[..i]), Now())
      {
        ghost var a, d1 := RegionWrites(l.keymap, bytes, offset, data[..i]), Now();
        assert data[..i + 1][..i] == data[..i];
        if offset + i < bytes {
          EepromUpdateByte(l.keymap + offset + i, data[i]);
          MadeMore(d, a, d1, [Write(l.keymap + offset + i, data[i])], Now());
        } else {
          assert RegionWrites(l.keymap, bytes, offset, data[..i + 1]) == a;
        }
      }
    }

    ghost function Area(): seq<byte>
      requires Valid()
      reads mem
    {
      mem[l.macros..l.macros + l.macroBytes]
    }

    /** Sends macro `id`. `overran` says that a byte past the end of the area would be read; NoOverrunIff says
        for which areas that cannot happen. */
    method MacroSend(id: nat, count: nat) returns (sent: seq<seq<byte>>, overran: bool)
      requires Valid() && l.macroBytes > 0
      ensures overran == (id < count && Overruns(Area(), id))
      ensures id >= count || Area()[l.macroBytes - 1] != 0 ==> sent == []
      ensures id < count && Area()[l.macroBytes - 1] == 0 ==>
                |Strings(Area())| == Zeros(Area()) &&
                sent == if id < Zeros(Area()) then Pieces(Strings(Area())[id]) else []
    {
      sent, overran := [], false;
      if id >= count { return; }
      if mem[l.macros + l.macroBytes - 1] != 0 { return; }
      hide Strings;
      hide Zeros;
      hide Pieces;
      hide FirstZero;
      hide Fits;
      StringsPerZero(Area());
      var p, left := SkipStrings(id);
      if left > 0 { return; }
      ghost var rest := Area()[p - l.macros..];
      StringsPerZero(rest);
      if p == l.macros + l.macroBytes {
        overran := true;
        NoStrings();
        return;
      }
      sent := SendFrom(p);
      assert Strings(Area())[id] == Strings(Area())[id..][0] == Strings(rest)[0];
    }

    /** Sends the string that starts at `p`. */
    method SendFrom(p: nat) returns (sent: seq<seq<byte>>)
      requires Valid() && l.macros <= p < l.macros + l.macroBytes && Area()[l.macroBytes - 1] == 0
      ensures Strings(Area()[p - l.macros..]) != [] && sent == Pieces(Strings(Area()[p - l.macros..])[0])
    {
      hide Strings;
      hide FirstZero;
      hide NoZero;
      hide Pieces;
      ghost var rest := Area()[p - l.macros..];
      FirstString(rest);
      ghost var k := FirstZero(rest);
      assert rest == mem[p..l.macros + l.macroBytes];
      assert mem[p + k] == rest[k];
      sent := SendPieces(p, rest[..k]);
    }

    /** Moves past `id` zeros; `left` of them were not found. */
    method SkipStrings(id: nat) returns (p: nat, left: nat)
      requires Valid()
      ensures l.macros <= p <= l.macros + l.macroBytes
      ensures left == 0 ==>
                id <= |Strings(Area())| && Strings(Area())[id..] == Strings(Area()[p - l.macros..])
      ensures left > 0 ==> |Strings(Area())| < id
    {
      ghost var area := Area();
      p, left := l.macros, id;
      var end := l.macros + l.macroBytes;
      ghost var sofar: seq<byte> := [];
      assert area[0..] == area;
      while left > 0
        invariant left <= id && l.macros <= p <= end && (left == 0 ==> sofar == [])
        invariant |Strings(area)| >= id - left
        invariant Strings(area)[id - left..] == StringsFrom(sofar, area[p - l.macros..])
        decreases end - p
      {
        ghost var rest := area[p - l.macros..];
        if p == end { return; }
        assert rest[0] == mem[p] && rest[1..] == area[p + 1 - l.macros..];
        if mem[p] == 0 {
          assert Strings(area)[id - left + 1..] == Strings(area)[id - left..][1..];
          left := left - 1;
          sofar := [];
        } else {
          sofar := sofar + [mem[p]];
        }
        p := p + 1;
      }
    }

    /** Reads one string and sends it piece by piece. */
    method SendPieces(start: nat, ghost s: seq<byte>) returns (sent: seq<seq<byte>>)
      requires start + |s| < mem.Length && mem[start..start + |s|] == s && mem[start + |s|] == 0 && NoZero(s)
      ensures sent == Pieces(s)
    {
      hide Pieces;
      hide NoZero;
      sent := [];
      var p := start;
      assert s[0..] == s;
      while true
        invariant start <= p <= start + |s| && Pieces(s) == sent + Pieces(s[p - start..])
        decreases start + |s| - p
      {
        ghost var rest := s[p - start..];
        PiecesStep(rest);
        SuffixNoZero(s, p - start);
        var c := mem[p];
        assert rest != [] ==> rest[0] == c;
        p := p + 1;
        if c == 0 { break; }
        assert rest[1..] == s[p - start..];
        if IsAction(c) {
          var key := mem[p];
          assert |rest| > 1 ==> rest[1] == key && rest[2..] == s[p + 1 - start..];
          p := p + 1;
          if key == 0 { break; }
          sent := sent + [[PREFIX, c, key]];
        } else {
          sent := sent + [[c]];
        }
      }
    }
  }

  /** One step of cutting a string into pieces. */
  lemma PiecesStep(s: seq<byte>)
    ensures s == [] ==> Pieces(s) == []
    ensures s != [] && !IsAction(s[0]) ==> Pieces(s) == [[s[0]]] + Pieces(s[1..])
    ensures |s| == 1 && IsAction(s[0]) ==> Pieces(s) == []
    ensures |s| > 1 && IsAction(s[0]) ==> Pieces(s) == [[PREFIX, s[0], s[1]]] + Pieces(s[2..])
  {}

  lemma SuffixNoZero(s: seq<byte>, k: nat)
    requires NoZero(s) && k <= |s|
    ensures k < |s| ==> s[k] != 0
    ensures k + 1 < |s| ==> s[k + 1] != 0
  {}
}

/** The crash-safe reset, and the agreement of the two views of the keymap. */
module KeymapProofs {
  import opened Arithmetic
  import opened Common
  import opened KeymapModel

  // ---- sequences of updates

  /** All updates lie in `[a, a + n)`. */
  predicate Within(ws: seq<Write>, a: nat, n: nat) { forall i :: 0 <= i < |ws| ==> a <= ws[i].addr < a + n }

  lemma {:induction false} ApplySplit(mem: seq<byte>, a: seq<Write>, b: seq<Write>)
    requires InRange(a, |mem|) && InRange(b, |mem|)
    ensures Apply(mem, a + b) == Apply(Apply(mem, a), b)
  {
    if b == [] {
      assert a + b == a;
    } else {
      var n := |b| - 1;
      assert (a + b)[..|a| + n] == a + b[..n];
      ApplySplit(mem, a, b[..n]);
    }
  }

  /** Addresses outside keep their value. */
  lemma {:induction false} ApplyFrame(mem: seq<byte>, ws: seq<Write>, a: nat, n: nat, x: nat)
    requires InRange(ws, |mem|) && Within(ws, a, n) && x < |mem| && !(a <= x < a + n)
    ensures Apply(mem, ws)[x] == mem[x]
  {
    if ws != [] { ApplyFrame(mem, ws[..|ws| - 1], a, n, x); }
  }

  // ---- what each group of updates stores

  lemma {:induction false} OptionsWithin(addr: nat, n: nat, value: nat)
    ensures Within(OptionWrites(addr, n, value), addr, n)
  {
    if n > 0 { OptionsWithin(addr, n - 1, value / 0x100); }
  }

  lemma {:induction false} ReadOptionsSame(mem: seq<byte>, mem': seq<byte>, addr: nat, n: nat)
    requires |mem| == |mem'| && addr + n <= |mem|
    requires forall x :: addr <= x < addr + n ==> mem[x] == mem'[x]
    ensures ReadOptions(mem, addr, n) == ReadOptions(mem', addr, n)
  {
    if n > 0 { ReadOptionsSame(mem, mem', addr, n - 1); }
  }

  /** Layout options read back as written, truncated to the configured number of bytes. */
  lemma {:induction false} OptionsRoundTrip(mem: seq<byte>, addr: nat, n: nat, value: nat)
    requires addr + n <= |mem|
    ensures InRange(OptionWrites(addr, n, value), |mem|)
    ensures ReadOptions(Apply(mem, OptionWrites(addr, n, value)), addr, n) == value % Pow256(n)
    decreases n
  {
    OptionsWithin(addr, n, value);
    if n > 0 {
      var w := Write(addr + n - 1, value % 0x100);
      var rest := OptionWrites(addr, n - 1, value / 0x100);
      var mem1 := mem[w.addr := w.val];
      OptionsWithin(addr, n - 1, value / 0x100);
      ApplySplit(mem, [w], rest);
      assert [w][..0] == [];
      assert Apply(mem, [w]) == mem1;
      ApplyFrame(mem1, rest, addr, n - 1, w.addr);
      OptionsRoundTrip(mem1, addr, n - 1, value / 0x100);
      DivMod256(value, Pow256(n - 1));
    }
  }

  lemma ReadKeySame(mem: seq<byte>, mem': seq<byte>, a: nat)
    requires a + 1 < |mem| && a + 1 < |mem'| && mem[a] == mem'[a] && mem[a + 1] == mem'[a + 1]
    ensures ReadKey(mem, a) == ReadKey(mem', a)
  {}

  lemma KeyWritesWithin(a: nat, code: keycode)
    ensures Within(KeyWrites(a, code), a, 2)
  {}

  lemma {:induction false} KeymapWithin(addr: nat, codes: seq<keycode>)
    ensures Within(KeymapWrites(addr, codes), addr, 2 * |codes|)
  {
    hide KeyWrites;
    if codes != [] {
      var n := |codes| - 1;
      KeymapWithin(addr, codes[..n]);
      KeyWritesWithin(addr + 2 * n, codes[n]);
    }
  }

  lemma {:induction false} KeymapStored(mem: seq<byte>, addr: nat, codes: seq<keycode>)
    requires addr + 2 * |codes| <= |mem|
    ensures var ws := KeymapWrites(addr, codes);
            Within(ws, addr, 2 * |codes|) && InRange(ws, |mem|) &&
            forall i :: 0 <= i < |codes| ==> ReadKey(Apply(mem, ws), addr + 2 * i) == codes[i]
  {
    hide Apply;
    hide ReadKey;
    hide KeyWrites;
    KeymapWithin(addr, codes);
    if codes != [] {
      var n := |codes| - 1;
      var ws, w := KeymapWrites(addr, codes[..n]), KeyWrites(addr + 2 * n, codes[n]);
      KeymapWithin(addr, codes[..n]);
      KeyWritesWithin(addr + 2 * n, codes[n]);
      KeymapStored(mem, addr, codes[..n]);
      ApplySplit(mem, ws, w);
      LastKeyStored(Apply(mem, ws), addr, codes);
    }
  }

  /** Storing the last key keeps the others. */
  lemma LastKeyStored(mem: seq<byte>, addr: nat, codes: seq<keycode>)
    requires codes != [] && addr + 2 * |codes| <= |mem|
    requires forall i :: 0 <= i < |codes| - 1 ==> ReadKey(mem, addr + 2 * i) == codes[..|codes| - 1][i]
    ensures var n := |codes| - 1;
            var ws := KeyWrites(addr + 2 * n, codes[n]);
            InRange(ws, |mem|) && forall i :: 0 <= i < |codes| ==> ReadKey(Apply(mem, ws), addr + 2 * i) == codes[i]
  {
    hide Apply;
    hide ReadKey;
    var n := |codes| - 1;
    KeyStored(mem, addr + 2 * n, codes[n]);
    forall i | 0 <= i < n
      ensures ReadKey(Apply(mem, KeyWrites(addr + 2 * n, codes[n])), addr + 2 * i) == codes[i]
    {
      ReadKeySame(mem, Apply(mem, KeyWrites(addr + 2 * n, codes[n])), addr + 2 * i);
      assert codes[i] == codes[..n][i];
    }
  }

  lemma KeyStored(mem: seq<byte>, a: nat, code: keycode)
    requires a + 1 < |mem|
    ensures Apply(mem, KeyWrites(a, code)) == mem[a := code / 0x100][a + 1 := code % 0x100]
    ensures ReadKey(Apply(mem, KeyWrites(a, code)), a) == code
  {
    var ws := KeyWrites(a, code);
    assert ws[..1] == [ws[0]];
    ApplyOne(mem, ws[0]);
  }

  lemma ApplyOne(mem: seq<byte>, w: Write)
    requires w.addr < |mem|
    ensures Apply(mem, [w]) == mem[w.addr := w.val]
  {
    assert [w][..0] == [];
  }

  lemma {:induction false} ZeroStored(mem: seq<byte>, addr: nat, n: nat)
    requires addr + n <= |mem|
    ensures var ws := ZeroWrites(addr, n);
            Within(ws, addr, n) && InRange(ws, |mem|) &&
            forall x :: addr <= x < addr + n ==> Apply(mem, ws)[x] == 0
  {
    if n > 0 {
      ZeroStored(mem, addr, n - 1);
      ApplySplit(mem, ZeroWrites(addr, n - 1), [Write(addr + n - 1, 0)]);
      assert [Write(addr + n - 1, 0)][..0] == [];
    }
  }

  // ---- crash safety

  lemma BodyInRange(l: Layout, size: nat, options: uint32, flash: seq<keycode>)
    requires Fits(l, size) && |flash| == Keys(l)
    ensures var ws := ResetBody(l, options, flash);
            InRange(ws, size) && forall i :: 0 <= i < |ws| ==> !(l.magic <= ws[i].addr < l.magic + 3)
  {
    var mem: seq<byte> := seq(size, _ => 0);
    OptionsWithin(Options(l), l.optionBytes, options);
    KeymapStored(mem, l.keymap, flash);
    ZeroStored(mem, l.macros, l.macroBytes);
  }

  lemma {:induction false} MagicUntouched(mem: seq<byte>, ws: seq<Write>, a: nat)
    requires InRange(ws, |mem|) && a < |mem| && forall i :: 0 <= i < |ws| ==> ws[i].addr != a
    ensures Apply(mem, ws)[a] == mem[a]
  {
    if ws != [] { MagicUntouched(mem, ws[..|ws| - 1], a); }
  }

  predicate ResetInRange(l: Layout, size: nat, date: seq<nat>, options: uint32, flash: seq<keycode>)
  {
    |date| >= 10 && Fits(l, size) && |flash| == Keys(l)
  }

  /** A byte keeps the value of the last update that hit it. */
  lemma LastHit(mem: seq<byte>, ws: seq<Write>, k: nat, j: nat)
    requires InRange(ws, |mem|) && j < k <= |ws|
    requires forall i :: j < i < k ==> ws[i].addr != ws[j].addr
    ensures InRange(ws[..k], |mem|) && Apply(mem, ws[..k])[ws[j].addr] == ws[j].val
  {
    hide Apply;
    var a, b := ws[..j], ws[j + 1..k];
    assert ws[..k] == (a + [ws[j]]) + b;
    ApplySplit(mem, a + [ws[j]], b);
    ApplySplit(mem, a, [ws[j]]);
    ApplyOne(Apply(mem, a), ws[j]);
    MagicUntouched(Apply(mem, a + [ws[j]]), b, ws[j].addr);
  }

  lemma ResetShape(l: Layout, size: nat, date: seq<nat>, options: uint32, flash: seq<keycode>)
    requires ResetInRange(l, size, date, options, flash)
    ensures var ws := ResetWrites(l, date, options, flash);
            var n := |ws|;
            var m := Magic(date);
            && n >= 6 && InRange(ws, size)
            && ws[0] == Write(l.magic, 0xFF) && ws[1] == Write(l.magic + 1, 0xFF) && ws[2] == Write(l.magic + 2, 0xFF)
            && ws[n - 3] == Write(l.magic, m[0]) && ws[n - 2] == Write(l.magic + 1, m[1])
            && ws[n - 1] == Write(l.magic + 2, m[2])
            && forall i :: 3 <= i < n - 3 ==> !(l.magic <= ws[i].addr < l.magic + 3)
  {
    BodyInRange(l, size, options, flash);
  }

  /** Cut after `k` updates, the memory is taken for valid. */
  predicate TakenForValid(
    l: Layout, mem: seq<byte>, date: seq<nat>, options: uint32, flash: seq<keycode>, k: nat)
    requires ResetInRange(l, |mem|, date, options, flash)
  {
    var ws := ResetWrites(l, date, options, flash);
    1 <= k < |ws| && InRange(ws[..k], |mem|) && IsValid(l, Apply(mem, ws[..k]), Magic(date))
  }

  /** Wherever the reset is cut short, the memory is not taken for valid. */
  lemma CrashSafe(l: Layout, mem: seq<byte>, date: seq<nat>, options: uint32, flash: seq<keycode>, k: nat)
    requires ResetInRange(l, |mem|, date, options, flash)
    requires Magic(date)[0] != 0xFF && Magic(date)[2] != 0xFF
    ensures !TakenForValid(l, mem, date, options, flash, k)
  {
    hide Apply;
    hide ResetWrites;
    hide Magic;
    hide Fits;
    var ws := ResetWrites(l, date, options, flash);
    ResetShape(l, |mem|, date, options, flash);
    if 1 <= k < |ws| { LastHit(mem, ws, k, if k <= |ws| - 3 then 0 else 2); }
  }

  /** If the first or the last magic byte is the erased value, some memory is taken for valid too early. */
  lemma CrashUnsafe(l: Layout, size: nat, date: seq<nat>, options: uint32, flash: seq<keycode>)
    returns (mem: seq<byte>, k: nat)
    requires ResetInRange(l, size, date, options, flash)
    requires Magic(date)[0] == 0xFF || Magic(date)[2] == 0xFF
    ensures |mem| == size
    ensures TakenForValid(l, mem, date, options, flash, k)
  {
    var ws := ResetWrites(l, date, options, flash);
    var m := Magic(date);
    ResetShape(l, size, date, options, flash);
    mem := seq(size, i => if i == l.magic + 1 then m[1] else if i == l.magic + 2 then m[2] else 0);
    if m[0] == 0xFF {
      k := 1;
      LastHit(mem, ws, k, 0);
      MagicUntouched(mem, ws[..1], l.magic + 1);
      MagicUntouched(mem, ws[..1], l.magic + 2);
    } else {
      k := |ws| - 1;
      LastHit(mem, ws, k, k - 2);
      LastHit(mem, ws, k, k - 1);
      LastHit(mem, ws, k, 2);
    }
  }

  /** The exact condition: no cut of the reset, on any memory, is taken for valid if and only if
      neither the first nor the last magic byte is the erased value. */
  lemma CrashSafeIff(l: Layout, size: nat, date: seq<nat>, options: uint32, flash: seq<keycode>)
    requires ResetInRange(l, size, date, options, flash)
    ensures (Magic(date)[0] != 0xFF && Magic(date)[2] != 0xFF) <==>
            forall mem: seq<byte>, k :: |mem| == size ==> !TakenForValid(l, mem, date, options, flash, k)
  {
    if Magic(date)[0] != 0xFF && Magic(date)[2] != 0xFF {
      forall mem: seq<byte>, k | |mem| == size
        ensures !TakenForValid(l, mem, date, options, flash, k)
      {
        CrashSafe(l, mem, date, options, flash, k);
      }
    } else {
      var mem, k := CrashUnsafe(l, size, date, options, flash);
    }
  }

  /** The digits of a build date pack into bytes below 0xFF. */
  lemma DigitsAreSafe(date: seq<nat>)
    requires |date| >= 10
    requires forall i :: i in {2, 3, 5, 6, 8, 9} ==> '0' as nat <= date[i] <= '9' as nat
    ensures forall i :: 0 <= i < 3 ==> Magic(date)[i] <= 0x99
  {}

  lemma MagicWithin(l: Layout, m: seq<byte>)
    requires |m| == 3
    ensures Within(MagicWrites(l, m), l.magic, 3)
  {}

  /** The magic is the date in digits, two to a byte: year, month and day as they read in hexadecimal. */
  lemma MagicSpells(date: seq<nat>)
    requires |date| >= 10
    requires forall i :: i in {2, 3, 5, 6, 8, 9} ==> '0' as nat <= date[i] <= '9' as nat
    ensures Magic(date)[0] == 16 * (date[2] - '0' as nat) + (date[3] - '0' as nat)
    ensures Magic(date)[1] == 16 * (date[5] - '0' as nat) + (date[6] - '0' as nat)
    ensures Magic(date)[2] == 16 * (date[8] - '0' as nat) + (date[9] - '0' as nat)
  {
    hide Packed;
    PackedDigits(date, 2);
    PackedDigits(date, 5);
    PackedDigits(date, 8);
  }

  lemma PackedDigits(date: seq<nat>, i: nat)
    requires i + 1 < |date| && '0' as nat <= date[i] <= '9' as nat && '0' as nat <= date[i + 1] <= '9' as nat
    ensures Packed(date, i) == 16 * (date[i] - '0' as nat) + (date[i + 1] - '0' as nat)
  {}

  /** Memory written by one build is valid for another exactly if the builds are of the same day. */
  lemma SameDayIff(a: seq<nat>, b: seq<nat>)
    requires |a| >= 10 && |b| >= 10
    requires forall i :: i in {2, 3, 5, 6, 8, 9} ==>
               '0' as nat <= a[i] <= '9' as nat && '0' as nat <= b[i] <= '9' as nat
    ensures Magic(a) == Magic(b) <==> forall i :: i in {2, 3, 5, 6, 8, 9} ==> a[i] == b[i]
  {
    hide Magic;
    MagicSpells(a);
    MagicSpells(b);
    if Magic(a) == Magic(b) {
      TwoDigits(a[2] - '0' as nat, a[3] - '0' as nat, b[2] - '0' as nat, b[3] - '0' as nat);
      TwoDigits(a[5] - '0' as nat, a[6] - '0' as nat, b[5] - '0' as nat, b[6] - '0' as nat);
      TwoDigits(a[8] - '0' as nat, a[9] - '0' as nat, b[8] - '0' as nat, b[9] - '0' as nat);
    }
    if forall i :: i in {2, 3, 5, 6, 8, 9} ==> a[i] == b[i] {
      assert a[2] == b[2] && a[3] == b[3] && a[5] == b[5] && a[6] == b[6] && a[8] == b[8] && a[9] == b[9];
    }
  }

  lemma TwoDigits(a: nat, b: nat, c: nat, d: nat)
    requires b < 10 && d < 10 && 16 * a + b == 16 * c + d
    ensures a == c && b == d
  {}

  /** The layout options are stored most significant byte first. */
  lemma {:induction false} OptionsBigEndian(mem: seq<byte>, addr: nat, n: nat, value: nat, i: nat)
    requires addr + n <= |mem| && i < n
    ensures InRange(OptionWrites(addr, n, value), |mem|)
    ensures Apply(mem, OptionWrites(addr, n, value))[addr + i] == value / Pow256(n - 1 - i) % 0x100
    decreases n
  {
    hide Apply;
    OptionsWithin(addr, n, value);
    OptionsWithin(addr, n - 1, value / 0x100);
    var w := Write(addr + n - 1, value % 0x100);
    var rest := OptionWrites(addr, n - 1, value / 0x100);
    ApplySplit(mem, [w], rest);
    ApplyOne(mem, w);
    var mem1 := Apply(mem, [w]);
    if i == n - 1 {
      ApplyFrame(mem1, rest, addr, n - 1, addr + i);
    } else {
      OptionsBigEndian(mem1, addr, n - 1, value / 0x100, i);
      DivDiv256(value, Pow256(n - 2 - i));
    }
  }

  /** The memory after each group of updates of a reset. */
  lemma ResetStages(l: Layout, mem: seq<byte>, date: seq<nat>, options: uint32, flash: seq<keycode>)
    returns (m1: seq<byte>, m2: seq<byte>, m3: seq<byte>, m4: seq<byte>, m5: seq<byte>)
    requires ResetInRange(l, |mem|, date, options, flash)
    ensures InRange(ResetWrites(l, date, options, flash), |mem|)
    ensures m5 == Apply(mem, ResetWrites(l, date, options, flash))
    ensures SameOutside(mem, m1, l.magic, 3)
    ensures SameOutside(m1, m2, Options(l), l.optionBytes)
    ensures ReadOptions(m2, Options(l), l.optionBytes) == options % Pow256(l.optionBytes)
    ensures SameOutside(m2, m3, l.keymap, 2 * |flash|)
    ensures forall i :: 0 <= i < |flash| ==> ReadKey(m3, l.keymap + 2 * i) == flash[i]
    ensures SameOutside(m3, m4, l.macros, l.macroBytes)
    ensures forall x :: l.macros <= x < l.macros + l.macroBytes ==> m4[x] == 0
    ensures SameOutside(m4, m5, l.magic, 3) && IsValid(l, m5, Magic(date))
  {
    hide Apply;
    hide Magic;
    hide KeymapWrites;
    hide OptionWrites;
    hide ZeroWrites;
    hide ReadKey;
    hide ReadOptions;
    hide SameOutside;
    hide MagicWrites;
    MagicWithin(l, INVALID);
    MagicWithin(l, Magic(date));
    var w1, w5 := MagicWrites(l, INVALID), MagicWrites(l, Magic(date));
    var w2, w3 := OptionWrites(Options(l), l.optionBytes, options), KeymapWrites(l.keymap, flash);
    var w4 := ZeroWrites(l.macros, l.macroBytes);
    OptionsRoundTrip(mem, Options(l), l.optionBytes, options);
    OptionsWithin(Options(l), l.optionBytes, options);
    KeymapStored(mem, l.keymap, flash);
    ZeroStored(mem, l.macros, l.macroBytes);
    m1 := Apply(mem, w1);
    m2 := Apply(m1, w2);
    m3 := Apply(m2, w3);
    m4 := Apply(m3, w4);
    m5 := Apply(m4, w5);
    assert ResetWrites(l, date, options, flash) == (((w1 + w2) + w3) + w4) + w5;
    ApplySplit(mem, w1, w2);
    ApplySplit(mem, w1 + w2, w3);
    ApplySplit(mem, (w1 + w2) + w3, w4);
    ApplySplit(mem, ((w1 + w2) + w3) + w4, w5);
    OptionsRoundTrip(m1, Options(l), l.optionBytes, options);
    KeymapStored(m2, l.keymap, flash);
    ZeroStored(m3, l.macros, l.macroBytes);
    Frame(mem, w1, l.magic, 3);
    Frame(m1, w2, Options(l), l.optionBytes);
    Frame(m2, w3, l.keymap, 2 * |flash|);
    Frame(m3, w4, l.macros, l.macroBytes);
    Frame(m4, w5, l.magic, 3);
    MagicStored(l, m4, Magic(date));
  }

  /** The completed reset: valid, default options, keymap as in flash, macros empty, all else untouched. */
  lemma ResetComplete(l: Layout, mem: seq<byte>, date: seq<nat>, options: uint32, flash: seq<keycode>)
    requires ResetInRange(l, |mem|, date, options, flash)
    ensures var ws := ResetWrites(l, date, options, flash);
            InRange(ws, |mem|) &&
            var mem' := Apply(mem, ws);
            && IsValid(l, mem', Magic(date))
            && ReadOptions(mem', Options(l), l.optionBytes) == options % Pow256(l.optionBytes)
            && Keymap(l, mem') == flash
            && (forall x :: l.macros <= x < l.macros + l.macroBytes ==> mem'[x] == 0)
            && forall x :: 0 <= x < |mem| && !Owned(l, x) ==> mem'[x] == mem[x]
  {
    hide Apply;
    hide ResetWrites;
    hide Magic;
    var m1, m2, m3, m4, m5 := ResetStages(l, mem, date, options, flash);
    hide ReadKey;
    hide ReadOptions;
    ReadOptionsSame(m2, m5, Options(l), l.optionBytes);
    forall i | 0 <= i < Keys(l)
      ensures ReadKey(m5, l.keymap + 2 * i) == flash[i]
    {
      ReadKeySame(m3, m5, l.keymap + 2 * i);
    }
    assert Keymap(l, m5) == flash;
  }

  ghost predicate SameOutside(mem: seq<byte>, mem': seq<byte>, a: nat, n: nat) {
    |mem| == |mem'| && forall x :: 0 <= x < |mem| && !(a <= x < a + n) ==> mem'[x] == mem[x]
  }

  lemma Frame(mem: seq<byte>, ws: seq<Write>, a: nat, n: nat)
    requires InRange(ws, |mem|) && Within(ws, a, n)
    ensures SameOutside(mem, Apply(mem, ws), a, n)
  {
    forall x | 0 <= x < |mem| && !(a <= x < a + n)
      ensures Apply(mem, ws)[x] == mem[x]
    {
      ApplyFrame(mem, ws, a, n, x);
    }
  }

  lemma MagicStored(l: Layout, mem: seq<byte>, m: seq<byte>)
    requires Fits(l, |mem|) && |m| == 3
    ensures IsValid(l, Apply(mem, MagicWrites(l, m)), m)
  {
    var ws := MagicWrites(l, m);
    assert ws[..3] == ws;
    LastHit(mem, ws, 3, 0);
    LastHit(mem, ws, 3, 1);
    LastHit(mem, ws, 3, 2);
  }

  /** Addresses that belong to one of the regions. */
  predicate Owned(l: Layout, x: nat) {
    || l.magic <= x < l.magic + 3 + l.optionBytes
    || l.keymap <= x < l.keymap + 2 * Keys(l)
    || l.macros <= x < l.macros + l.macroBytes
  }
}

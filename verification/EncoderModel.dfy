/** The quadrature decoder over values, and what it conserves. */
module EncoderModel {
  import opened Arithmetic
  import opened Common

  /** Two pins, as a number below 4. */
  type Pins = x: nat | x < 4

  const LUT: seq<int> := [0, -1, 1, 0, 1, 0, 0, -1, -1, 0, 0, 1, 0, 1, -1, 0]

  /** One encoder: the last samples, the pulses not yet reported, and the 8-bit count. */
  datatype Encoder = Encoder(state: byte, pulses: int, value: byte)

  /** Storing into a signed byte wraps. */
  function Int8(x: int): (y: int)
    ensures -128 <= y < 128
  {
    (x + 128) % 0x100 - 128
  }

  /** The remainder rounds toward zero. */
  function Rem(a: int, b: nat): int
    requires b > 0
  {
    if a >= 0 then a % b else -((-a) % b)
  }

  function Shift(state: byte, pins: Pins): byte { state * 4 % 0x100 + pins }

  /** The signed step between two successive samples. */
  function StepOf(before: Pins, after: Pins): int { LUT[before * 4 + after] }

  /** +1 for a reported step counter-clockwise, -1 for one clockwise, 0 for none. */
  function ClickOf(p: int, resolution: int): int {
    if p >= resolution then 1 else if p <= -resolution then -1 else 0
  }

  datatype Updated = Updated(encoder: Encoder, click: int)

  function Update(e: Encoder, resolution: nat, pins: Pins): Updated
    requires resolution > 0
  {
    var p := Int8(e.pulses + StepOf(e.state % 4, pins));
    var click := ClickOf(p, resolution);
    Updated(Encoder(Shift(e.state, pins), Int8(Rem(p, resolution)), Count(e.value, click)), click)
  }

  /** The 8-bit count wraps. */
  function Count(value: int, click: int): byte { (value + click) % 0x100 }

  function Start(pins: Pins): Encoder { Encoder(pins, 0, 0) }

  function Run(start: Pins, resolution: nat, samples: seq<Pins>): Encoder
    requires resolution > 0
  {
    if samples == [] then Start(start)
    else Update(Run(start, resolution, samples[..|samples| - 1]), resolution, samples[|samples| - 1]).encoder
  }

  /** Reported steps, counter-clockwise positive. */
  function Net(start: Pins, resolution: nat, samples: seq<Pins>): int
    requires resolution > 0
  {
    if samples == [] then 0
    else
      var n := |samples| - 1;
      Net(start, resolution, samples[..n]) + Update(Run(start, resolution, samples[..n]), resolution, samples[n]).click
  }

  function Last(start: Pins, samples: seq<Pins>): Pins { if samples == [] then start else samples[|samples| - 1] }

  /** The sum of the table's steps along the samples. */
  function Total(start: Pins, samples: seq<Pins>): int {
    if samples == [] then 0
    else
      var n := |samples| - 1;
      Total(start, samples[..n]) + StepOf(Last(start, samples[..n]), samples[n])
  }

  /** The place of a sample in the Gray-code cycle. */
  function Phase(pins: Pins): nat { if pins == 0 then 0 else if pins == 2 then 1 else if pins == 3 then 2 else 3 }

  /** Both pins changed between two samples. */
  predicate Skips(before: Pins, after: Pins) { before + after == 3 }

  function SkipCount(start: Pins, samples: seq<Pins>): nat {
    if samples == [] then 0
    else
      var n := |samples| - 1;
      SkipCount(start, samples[..n]) + if Skips(Last(start, samples[..n]), samples[n]) then 1 else 0
  }

  /** What the decoder promises: nothing lost, and less than one click left over. */
  predicate Conserves(start: Pins, resolution: nat, samples: seq<Pins>)
    requires resolution > 0
  {
    var left, r: int := Run(start, resolution, samples).pulses, resolution;
    r * Net(start, resolution, samples) + left == Total(start, samples) && -r < left < r
  }

  // ---- proofs

  lemma ShiftWindow(state: byte, pins: Pins)
    ensures Shift(state, pins) % 4 == pins && Shift(state, pins) % 16 == state % 4 * 4 + pins
  {
    var b, c := state % 64, state % 4;
    DivUnique(state * 4, 0x100, state / 64, b * 4);
    DivUnique(b * 4 + pins, 4, b, pins);
    DivUnique(b * 4 + pins, 16, b / 4, c * 4 + pins);
  }

  lemma {:induction false} StateIsLast(start: Pins, resolution: nat, samples: seq<Pins>)
    requires resolution > 0
    ensures Run(start, resolution, samples).state % 4 == Last(start, samples)
  {
    hide Shift;
    if samples != [] {
      var n := |samples| - 1;
      ShiftWindow(Run(start, resolution, samples[..n]).state, samples[n]);
    }
  }

  lemma Int8Exact(x: int)
    requires -128 <= x < 128
    ensures Int8(x) == x
  {}

  lemma RemSmall(p: int, resolution: nat)
    requires resolution > 0 && -(resolution as int) <= p <= resolution
    ensures Rem(p, resolution) == if p == resolution || p == -(resolution as int) then 0 else p
  {
    var a := if p >= 0 then p else -p;
    if a == resolution { DivUnique(a, resolution, 1, 0); } else { DivUnique(a, resolution, 0, a); }
  }

  /** One sample moves the total by the table's step: into the pulses, or into a click. */
  lemma UpdateConserves(e: Encoder, resolution: nat, pins: Pins)
    requires 0 < resolution < 128 && -(resolution as int) < e.pulses < resolution
    ensures var u, r: int := Update(e, resolution, pins), resolution;
            && -r < u.encoder.pulses < r
            && r * u.click + u.encoder.pulses == e.pulses + StepOf(e.state % 4, pins)
  {
    hide Int8;
    hide Rem;
    hide Shift;
    hide Count;
    var p := e.pulses + StepOf(e.state % 4, pins);
    Int8Exact(p);
    RemSmall(p, resolution);
    Int8Exact(Rem(p, resolution));
  }

  /** Conservation over every run of samples, legal or not. */
  lemma {:induction false} Conservation(start: Pins, resolution: nat, samples: seq<Pins>)
    requires 0 < resolution < 128
    ensures Conserves(start, resolution, samples)
  {
    hide Update;
    hide StepOf;
    if samples != [] {
      var n := |samples| - 1;
      var before := samples[..n];
      Conservation(start, resolution, before);
      StateIsLast(start, resolution, before);
      UpdateConserves(Run(start, resolution, before), resolution, samples[n]);
      Distribute(resolution, Net(start, resolution, before),
                 Update(Run(start, resolution, before), resolution, samples[n]).click);
    }
  }

  lemma Distribute(r: int, a: int, b: int)
    ensures r * (a + b) == r * a + r * b
  {}

  /** The 8-bit count is the number of reported steps, counter-clockwise less clockwise. */
  lemma {:induction false} ValueFollowsNet(start: Pins, resolution: nat, samples: seq<Pins>)
    requires resolution > 0
    ensures Run(start, resolution, samples).value == Net(start, resolution, samples) % 0x100
  {
    hide Int8;
    hide Rem;
    hide Shift;
    hide StepOf;
    hide ClickOf;
    hide Count;
    if samples != [] {
      var n := |samples| - 1;
      ValueFollowsNet(start, resolution, samples[..n]);
      CountStep(Net(start, resolution, samples[..n]),
                Update(Run(start, resolution, samples[..n]), resolution, samples[n]).click);
    }
  }

  lemma CountStep(v: int, click: int)
    ensures Count(v % 0x100, click) == (v + click) % 0x100
  {}

  /** The sample at a place of the Gray-code cycle. */
  function PinsAt(n: nat): Pins {
    if n % 4 == 0 then 0 else if n % 4 == 1 then 2 else if n % 4 == 2 then 3 else 1
  }

  lemma TurnsForward(n: nat)
    ensures StepOf(PinsAt(n), PinsAt(n + 1)) == 1
  {}

  /** `n` steps that all turn the same way. */
  function Turning(n: nat): (samples: seq<Pins>)
    ensures |samples| == n
  {
    if n == 0 then [] else Turning(n - 1) + [PinsAt(n)]
  }

  lemma {:induction false} TurningTotal(n: nat)
    ensures Total(0, Turning(n)) == n && Last(0, Turning(n)) == PinsAt(n)
  {
    if n > 0 {
      hide PinsAt;
      hide StepOf;
      TurningTotal(n - 1);
      TurnsForward(n - 1);
      assert Turning(n)[..n - 1] == Turning(n - 1);
    }
  }

  /** Up to 127 pulses no click is due. */
  lemma {:induction false} TurningSilent(resolution: nat, n: nat)
    requires 128 <= resolution && n < 128
    ensures Run(0, resolution, Turning(n)).pulses == n && Net(0, resolution, Turning(n)) == 0
  {
    if n > 0 {
      hide PinsAt;
      hide StepOf;
      hide Shift;
      hide Count;
      hide Int8;
      hide Rem;
      TurningSilent(resolution, n - 1);
      TurningTotal(n - 1);
      TurnsForward(n - 1);
      assert Turning(n)[..n - 1] == Turning(n - 1);
      StateIsLast(0, resolution, Turning(n - 1));
      Int8Exact(n);
      RemSmall(n, resolution);
    }
  }

  /** From 128 on the signed byte of pulses wraps before a click is due. */
  lemma LargeResolutionFails(resolution: nat)
    requires 128 <= resolution < 0x100
    ensures !Conserves(0, resolution, Turning(128))
  {
    hide PinsAt;
    hide StepOf;
    hide Update;
    TurningSilent(resolution, 127);
    TurningTotal(127);
    TurningTotal(128);
    TurnsForward(127);
    var before, e := Turning(127), Run(0, resolution, Turning(127));
    assert Turning(128)[..127] == before && Turning(128)[127] == PinsAt(128);
    StateIsLast(0, resolution, before);
    PulseTooMany(e, resolution, PinsAt(128));
    assert Net(0, resolution, Turning(128)) == Update(e, resolution, PinsAt(128)).click;
  }

  /** The 128th pulse wraps: a click the wrong way, or none. */
  lemma PulseTooMany(e: Encoder, resolution: nat, pins: Pins)
    requires 128 <= resolution < 0x100 && e.pulses == 127 && StepOf(e.state % 4, pins) == 1
    ensures var u := Update(e, resolution, pins);
            u.click == (if resolution == 128 then -1 else 0) && u.encoder.pulses <= 0
  {
    hide StepOf;
    hide Shift;
    hide Count;
    assert Int8(128) == -128;
    RemSmall(-128, resolution);
    Int8Exact(Rem(-128, resolution));
  }

  /** The exact condition on the resolution, an unsigned byte. */
  lemma ConservesIff(resolution: nat)
    requires 0 < resolution < 0x100
    ensures resolution < 128 <==> forall start, samples :: Conserves(start, resolution, samples)
  {
    hide Conserves;
    if resolution < 128 {
      forall start, samples ensures Conserves(start, resolution, samples) { Conservation(start, resolution, samples); }
    } else {
      LargeResolutionFails(resolution);
    }
  }

  /** How far the sum of steps is from the change of phase. */
  function Offset(start: Pins, samples: seq<Pins>): int {
    Total(start, samples) - (Phase(Last(start, samples)) - Phase(start))
  }

  /** The table's steps follow the Gray code, off by two for each sample that skips a phase. */
  lemma {:induction false} TotalFollowsPhase(start: Pins, samples: seq<Pins>)
    ensures (Offset(start, samples) + 2 * SkipCount(start, samples)) % 4 == 0
  {
    if samples != [] {
      hide Offset;
      hide SkipCount;
      hide StepOffset;
      var n := |samples| - 1;
      var before := Last(start, samples[..n]);
      TotalFollowsPhase(start, samples[..n]);
      StepIsPhase(before, samples[n]);
      OffsetStep(start, samples);
      SumMod4(Offset(start, samples[..n]) + 2 * SkipCount(start, samples[..n]), StepOffset(before, samples[n]));
    }
  }

  lemma OffsetStep(start: Pins, samples: seq<Pins>)
    requires samples != []
    ensures var n := |samples| - 1;
            Offset(start, samples) + 2 * SkipCount(start, samples)
            == Offset(start, samples[..n]) + 2 * SkipCount(start, samples[..n]) +
               StepOffset(Last(start, samples[..n]), samples[n])
  {
    hide StepOf;
    hide Phase;
    hide Skips;
  }

  function StepOffset(before: Pins, after: Pins): int {
    StepOf(before, after) + (if Skips(before, after) then 2 else 0) - (Phase(after) - Phase(before))
  }

  lemma SumMod4(a: int, b: int)
    requires a % 4 == 0 && b % 4 == 0
    ensures (a + b) % 4 == 0
  {}

  lemma StepIsPhase(before: Pins, after: Pins)
    ensures StepOffset(before, after) % 4 == 0
  {
    assert before == 0 || before == 1 || before == 2 || before == 3;
    assert after == 0 || after == 1 || after == 2 || after == 3;
  }

  /** The sum of steps is the change of phase modulo 4 exactly when an even number of samples skipped a
      phase; in particular on every legal path. */
  lemma LegalIff(start: Pins, samples: seq<Pins>)
    ensures Offset(start, samples) % 4 == 0 <==> SkipCount(start, samples) % 2 == 0
  {
    TotalFollowsPhase(start, samples);
    EvenTwos(Offset(start, samples), SkipCount(start, samples));
  }

  lemma EvenTwos(a: int, k: int)
    requires (a + 2 * k) % 4 == 0
    ensures a % 4 == 0 <==> k % 2 == 0
  {
    var q, m := (a + 2 * k) / 4, k / 2;
    assert a == 4 * q - 2 * k && k == 2 * m + k % 2;
    assert a == 4 * (q - m) - 2 * (k % 2);
  }

  // ---- taking over the count of the other half

  /** How the master catches up: an 8-bit difference read as signed. */
  function Delta(value: byte, other: byte): int { Int8((other as int) - value) }

  /** After catching up the counts agree; and if the other half moved by less than 128 steps either way
      since, exactly its steps are reported. */
  lemma CatchesUp(value: byte, net: int)
    ensures (value + Delta(value, (value + net) % 0x100)) % 0x100 == (value + net) % 0x100
    ensures -128 <= net < 128 <==> Delta(value, (value + net) % 0x100) == net
  {
    var other := (value + net) % 0x100;
    var q := (value + net) / 0x100;
    assert other - value == net - 0x100 * q;
    Int8Shift(net, -q);
    var d := Int8(net);
    assert d % 0x100 == net % 0x100;
    SameMod(value, d, net);
    if -128 <= net < 128 { Int8Exact(net); }
  }

  lemma Int8Shift(x: int, q: int)
    ensures Int8(x + 0x100 * q) == Int8(x)
  {}

  lemma SameMod(v: int, a: int, b: int)
    requires a % 0x100 == b % 0x100
    ensures (v + a) % 0x100 == (v + b) % 0x100
  {
    assert a - b == 0x100 * (a / 0x100 - b / 0x100);
  }
}

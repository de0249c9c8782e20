/** Reported steps have the direction of the turn, over runs of samples of all encoders. */
module EncoderReports {
  import opened Common
  import opened EncoderModel
  import opened EncoderDriver

  /** Reports of one direction for encoder `k`. */
  function Reports(log: seq<Click>, k: nat, counterClockwise: bool): nat {
    if log == [] then 0
    else Reports(log[..|log| - 1], k, counterClockwise) +
         if log[|log| - 1] == Click(k, counterClockwise) then 1 else 0
  }

  /** Steps reported for encoder `k`, counter-clockwise ones positive. */
  function Reported(log: seq<Click>, k: nat): int { Reports(log, k, true) - Reports(log, k, false) }

  lemma {:induction false} ReportsAppend(a: seq<Click>, b: seq<Click>, k: nat, ccw: bool)
    ensures Reports(a + b, k, ccw) == Reports(a, k, ccw) + Reports(b, k, ccw)
  {
    if b == [] {
      assert a + b == a;
    } else {
      var n := |b| - 1;
      assert (a + b)[..|a| + n] == a + b[..n];
      ReportsAppend(a, b[..n], k, ccw);
    }
  }

  lemma ReportedAppend(a: seq<Click>, b: seq<Click>, k: nat)
    ensures Reported(a + b, k) == Reported(a, k) + Reported(b, k)
  {
    ReportsAppend(a, b, k, true);
    ReportsAppend(a, b, k, false);
  }

  lemma ClicksReported(index: nat, click: int, k: nat)
    requires -1 <= click <= 1
    ensures Reported(Clicks(index, click), k) == if k == index then click else 0
  {
    if click != 0 {
      OneReport(Click(index, click > 0), k, true);
      OneReport(Click(index, click > 0), k, false);
    }
  }

  lemma OneReport(x: Click, k: nat, ccw: bool)
    ensures Reports([x], k, ccw) == if x == Click(k, ccw) then 1 else 0
  {
    assert [x][..0] == [];
  }

  lemma {:induction false} StepsReported(index: nat, n: int, k: nat)
    ensures Reported(Steps(index, n), k) == if k == index then n else 0
    decreases if n < 0 then -n else n
  {
    if n != 0 {
      var m := if n > 0 then n - 1 else n + 1;
      var cs := Steps(index, n);
      if m != 0 { assert cs[..|cs| - 1] == Steps(index, m); } else { assert cs[..|cs| - 1] == []; }
      StepsReported(index, m, k);
    }
  }

  // ---- one sample of every encoder

  lemma {:induction false} ReadReported(es: seq<Encoder>, rs: seq<nat>, pins: seq<Pins>, base: nat, n: nat, k: nat)
    requires n <= |es| == |rs| == |pins| && k < |rs| && forall i :: 0 <= i < |rs| ==> rs[i] > 0
    ensures Reported(ReadClicks(es, rs, pins, base, n), base + k)
            == if k < n then Update(es[k], rs[k], pins[k]).click else 0
  {
    hide Update;
    hide Clicks;
    hide Reported;
    if n > 0 {
      ReadReported(es, rs, pins, base, n - 1, k);
      var before := ReadClicks(es, rs, pins, base, n - 1);
      ClickSmall(es[n - 1], rs[n - 1], pins[n - 1]);
      ClicksReported(base + n - 1, Update(es[n - 1], rs[n - 1], pins[n - 1]).click, base + k);
      ReportedAppend(before, Clicks(base + n - 1, Update(es[n - 1], rs[n - 1], pins[n - 1]).click), base + k);
    } else {
      NothingReported(base + k);
    }
  }

  lemma NothingReported(k: nat)
    ensures Reported([], k) == 0
  {}

  lemma ClickSmall(e: Encoder, resolution: nat, pins: Pins)
    requires resolution > 0
    ensures -1 <= Update(e, resolution, pins).click <= 1
  {}

  // ---- runs: rounds of samples of all encoders

  predicate Rounds(rounds: seq<seq<Pins>>, n: nat) { forall r :: 0 <= r < |rounds| ==> |rounds[r]| == n }

  /** The samples of encoder `i`. */
  function Of(rounds: seq<seq<Pins>>, n: nat, i: nat): seq<Pins>
    requires Rounds(rounds, n) && i < n
  {
    seq(|rounds|, r requires 0 <= r < |rounds| => rounds[r][i])
  }

  /** The encoders after some rounds. */
  function After(start: seq<Pins>, rs: seq<nat>, rounds: seq<seq<Pins>>): (es: seq<Encoder>)
    requires |start| == |rs| && Rounds(rounds, |rs|) && forall i :: 0 <= i < |rs| ==> rs[i] > 0
    ensures |es| == |rs|
  {
    if rounds == [] then seq(|rs|, i requires 0 <= i < |rs| => Start(start[i]))
    else
      var n := |rounds| - 1;
      var before := After(start, rs, rounds[..n]);
      seq(|rs|, i requires 0 <= i < |rs| => Update(before[i], rs[i], rounds[n][i]).encoder)
  }

  /** What has been reported in these rounds. */
  function LogOf(start: seq<Pins>, rs: seq<nat>, base: nat, rounds: seq<seq<Pins>>): seq<Click>
    requires |start| == |rs| && Rounds(rounds, |rs|) && forall i :: 0 <= i < |rs| ==> rs[i] > 0
  {
    if rounds == [] then []
    else
      var n := |rounds| - 1;
      LogOf(start, rs, base, rounds[..n]) +
      ReadClicks(After(start, rs, rounds[..n]), rs, rounds[n], base, |rs|)
  }

  /** Each encoder goes its own way. */
  lemma {:induction false} AfterIsRun(start: seq<Pins>, rs: seq<nat>, rounds: seq<seq<Pins>>, i: nat)
    requires |start| == |rs| && Rounds(rounds, |rs|) && i < |rs| && forall i :: 0 <= i < |rs| ==> rs[i] > 0
    ensures After(start, rs, rounds)[i] == Run(start[i], rs[i], Of(rounds, |rs|, i))
  {
    hide Update;
    hide Start;
    if rounds != [] {
      var n := |rounds| - 1;
      assert Of(rounds, |rs|, i)[..n] == Of(rounds[..n], |rs|, i);
      AfterIsRun(start, rs, rounds[..n], i);
    }
  }

  lemma {:induction false} ReportedIsNet(start: seq<Pins>, rs: seq<nat>, base: nat, rounds: seq<seq<Pins>>, i: nat)
    requires |start| == |rs| && Rounds(rounds, |rs|) && i < |rs| && forall i :: 0 <= i < |rs| ==> rs[i] > 0
    ensures Reported(LogOf(start, rs, base, rounds), base + i) == Net(start[i], rs[i], Of(rounds, |rs|, i))
  {
    hide Update;
    hide Reported;
    hide ReadClicks;
    hide After;
    if rounds == [] {
      NothingReported(base + i);
    } else {
      var n := |rounds| - 1;
      var before := rounds[..n];
      var es := After(start, rs, before);
      assert Of(rounds, |rs|, i)[..n] == Of(before, |rs|, i);
      ReportedIsNet(start, rs, base, before, i);
      AfterIsRun(start, rs, before, i);
      ReadReported(es, rs, rounds[n], base, |rs|, i);
      ReportedAppend(LogOf(start, rs, base, before), ReadClicks(es, rs, rounds[n], base, |rs|), base + i);
    }
  }

  /** Over every run of samples the steps reported for an encoder, counter-clockwise ones minus clockwise ones,
      are its net steps; and the 8-bit count agrees with them. */
  lemma ReportsAreNet(start: seq<Pins>, rs: seq<nat>, base: nat, rounds: seq<seq<Pins>>, i: nat)
    requires |start| == |rs| && Rounds(rounds, |rs|) && i < |rs| && forall i :: 0 <= i < |rs| ==> rs[i] > 0
    ensures var log := LogOf(start, rs, base, rounds);
            && Reports(log, base + i, true) - Reports(log, base + i, false) == Net(start[i], rs[i], Of(rounds, |rs|, i))
            && After(start, rs, rounds)[i].value
               == (Reports(log, base + i, true) - Reports(log, base + i, false)) % 0x100
  {
    ReportedIsNet(start, rs, base, rounds, i);
    AfterIsRun(start, rs, rounds, i);
    ValueFollowsNet(start[i], rs[i], Of(rounds, |rs|, i));
  }

  // ---- one direction

  /** The knob moves by at most one place of the Gray-code cycle, and never against direction `d`. */
  predicate Turns(d: int, before: Pins, after: Pins) {
    before == after || (Phase(after) - Phase(before) - d) % 4 == 0
  }

  predicate TurnsAlong(d: int, start: Pins, samples: seq<Pins>) {
    forall j :: 0 <= j < |samples| ==> Turns(d, Last(start, samples[..j]), samples[j])
  }

  lemma StepAlong(d: int, before: Pins, after: Pins)
    requires (d == 1 || d == -1) && Turns(d, before, after)
    ensures StepOf(before, after) == if before == after then 0 else d
  {
    StepPhase(before, after);
    hide StepOf;
    hide Phase;
  }

  /** The table's step by the places of the samples in the Gray-code cycle. */
  lemma StepPhase(before: Pins, after: Pins)
    ensures var diff := Phase(after) - Phase(before);
            && -3 <= diff <= 3 && (diff == 0 <==> before == after)
            && StepOf(before, after) == if diff == 1 || diff == -3 then 1 else if diff == -1 || diff == 3 then -1 else 0
  {
    assert before == 0 || before == 1 || before == 2 || before == 3;
    assert after == 0 || after == 1 || after == 2 || after == 3;
  }

  /** No pulses are left over against the direction, and nothing is reported against it. */
  lemma {:induction false} RunAlong(d: int, start: Pins, resolution: nat, samples: seq<Pins>)
    requires (d == 1 || d == -1) && 0 < resolution < 128 && TurnsAlong(d, start, samples)
    ensures 0 <= d * Run(start, resolution, samples).pulses < resolution
    ensures samples != [] ==>
              var n := |samples| - 1;
              var click := Update(Run(start, resolution, samples[..n]), resolution, samples[n]).click;
              click == 0 || click == d
  {
    if samples != [] {
      var n := |samples| - 1;
      var before := samples[..n];
      forall j | 0 <= j < n
        ensures Turns(d, Last(start, before[..j]), before[j])
      {
        assert before[..j] == samples[..j];
      }
      RunAlong(d, start, resolution, before);
      StateIsLast(start, resolution, before);
      StepAlong(d, Last(start, before), samples[n]);
      UpdateAlong(d, Run(start, resolution, before), resolution, samples[n]);
    }
  }

  lemma UpdateAlong(d: int, e: Encoder, resolution: nat, pins: Pins)
    requires (d == 1 || d == -1) && 0 < resolution < 128 && 0 <= d * e.pulses < resolution
    requires StepOf(e.state % 4, pins) == 0 || StepOf(e.state % 4, pins) == d
    ensures var u := Update(e, resolution, pins);
            0 <= d * u.encoder.pulses < resolution && (u.click == 0 || u.click == d)
  {
    hide StepOf;
    hide Shift;
    hide Count;
    hide Int8;
    hide Rem;
    var p := e.pulses + StepOf(e.state % 4, pins);
    Int8Exact(p);
    RemSmall(p, resolution);
    Int8Exact(Rem(p, resolution));
  }

  lemma {:induction false} ReadAlong(d: int, es: seq<Encoder>, rs: seq<nat>, pins: seq<Pins>, base: nat, n: nat, i: nat)
    requires n <= |es| == |rs| == |pins| && i < |rs| && forall i :: 0 <= i < |rs| ==> rs[i] > 0
    requires d == 1 || d == -1
    requires var click := Update(es[i], rs[i], pins[i]).click; click == 0 || click == d
    ensures Click(base + i, d < 0) !in ReadClicks(es, rs, pins, base, n)
  {
    hide Update;
    if n > 0 { ReadAlong(d, es, rs, pins, base, n - 1, i); }
  }

  /** An encoder that is only turned one way is only reported that way: counter-clockwise when its phase rises,
      clockwise when it falls, whatever the other encoders do. */
  lemma {:induction false} OneWayReports(
    d: int, start: seq<Pins>, rs: seq<nat>, base: nat, rounds: seq<seq<Pins>>, i: nat)
    requires |start| == |rs| && Rounds(rounds, |rs|) && i < |rs| && forall i :: 0 <= i < |rs| ==> rs[i] > 0
    requires (d == 1 || d == -1) && rs[i] < 128 && TurnsAlong(d, start[i], Of(rounds, |rs|, i))
    ensures Click(base + i, d < 0) !in LogOf(start, rs, base, rounds)
  {
    hide Update;
    if rounds != [] {
      var n := |rounds| - 1;
      var before := rounds[..n];
      var samples := Of(rounds, |rs|, i);
      assert samples[..n] == Of(before, |rs|, i);
      forall j | 0 <= j < n
        ensures Turns(d, Last(start[i], samples[..n][..j]), samples[..n][j])
      {
        assert samples[..n][..j] == samples[..j];
      }
      OneWayReports(d, start, rs, base, before, i);
      AfterIsRun(start, rs, before, i);
      RunAlong(d, start[i], rs[i], samples);
      ReadAlong(d, After(start, rs, before), rs, rounds[n], base, |rs|, i);
    }
  }

  // ---- the other half

  /** Taking over the other half's counts reports, for each of its encoders, the signed difference. */
  lemma {:induction false} RawReported(values: seq<byte>, other: seq<byte>, base: nat, n: nat, k: nat)
    requires n <= |other| && base + |other| <= |values| && k < |other|
    ensures Reported(RawClicks(values, other, base, n), base + k)
            == if k < n then Delta(values[base + k], other[k]) else 0
  {
    hide Steps;
    hide Reported;
    hide Delta;
    if n > 0 {
      RawReported(values, other, base, n - 1, k);
      var delta := Delta(values[base + n - 1], other[n - 1]);
      StepsReported(base + n - 1, delta, base + k);
      ReportedAppend(RawClicks(values, other, base, n - 1), Steps(base + n - 1, delta), base + k);
    } else {
      NothingReported(base + k);
    }
  }
}

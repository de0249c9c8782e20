/** The decoders as they run: one array entry per encoder, updated sample by sample. */
module EncoderDriver {
  import opened Common
  import opened EncoderModel

  /** A reported step of one encoder. */
  datatype Click = Click(index: nat, counterClockwise: bool)

  function Clicks(index: nat, click: int): seq<Click> {
    if click == 0 then [] else [Click(index, click > 0)]
  }

  /** `n` steps of one encoder. */
  function Steps(index: nat, n: int): seq<Click> {
    seq(if n < 0 then -n else n, _ => Click(index, n > 0))
  }

  /** What the first `k` encoders report for their samples. */
  function ReadClicks(es: seq<Encoder>, rs: seq<nat>, samples: seq<Pins>, base: nat, k: nat): seq<Click>
    requires k <= |es| == |rs| == |samples| && forall i :: 0 <= i < |rs| ==> rs[i] > 0
  {
    if k == 0 then []
    else ReadClicks(es, rs, samples, base, k - 1) +
         Clicks(base + k - 1, Update(es[k - 1], rs[k - 1], samples[k - 1]).click)
  }

  function RawClicks(values: seq<byte>, other: seq<byte>, base: nat, k: nat): seq<Click>
    requires k <= |other| && base + |other| <= |values|
  {
    if k == 0 then []
    else RawClicks(values, other, base, k - 1) + Steps(base + k - 1, Delta(values[base + k - 1], other[k - 1]))
  }

  class Encoders {
    const resolutions: seq<nat>
    const states: array<byte>
    const pulses: array<int>
    /** The counts of both halves; this half's begin at `thisHand`, the other's at `thatHand`. */
    const values: array<byte>
    const thisHand: nat
    const thatHand: nat
    var log: seq<Click>

    ghost predicate Valid() {
      && states.Length == pulses.Length == |resolutions| && values.Length == 2 * |resolutions| && states != values
      && (thisHand == 0 || thisHand == |resolutions|) && thatHand == |resolutions| - thisHand
      && forall i :: 0 <= i < |resolutions| ==> resolutions[i] > 0
    }

    ghost function At(i: nat): Encoder
      requires Valid() && i < |resolutions|
      reads states, pulses, values
    {
      Encoder(states[i], pulses[i], values[thisHand + i])
    }

    ghost function Own(): (es: seq<Encoder>)
      requires Valid()
      reads states, pulses, values
      ensures |es| == |resolutions|
    {
      seq(|resolutions|, i requires 0 <= i < |resolutions| && Valid() reads states, pulses, values => At(i))
    }

    constructor (resolutions: seq<nat>, left: bool, samples: seq<Pins>)
      requires |samples| == |resolutions| && forall i :: 0 <= i < |resolutions| ==> resolutions[i] > 0
      ensures Valid() && this.resolutions == resolutions && log == []
      ensures forall i :: 0 <= i < |resolutions| ==> At(i) == Start(samples[i])
      ensures fresh(states) && fresh(pulses) && fresh(values)
    {
      this.resolutions, log := resolutions, [];
      states := new byte[|resolutions|](i requires 0 <= i < |samples| => samples[i]);
      pulses := new int[|resolutions|](_ => 0);
      values := new byte[2 * |resolutions|](_ => 0);
      thisHand := if left then 0 else |resolutions|;
      thatHand := if left then |resolutions| else 0;
    }

    /** This half's counts, and the other's. */
    ghost function Half(hand: nat): seq<byte>
      requires Valid() && hand <= |resolutions|
      reads values
    {
      values[hand..hand + |resolutions|]
    }

    method EncoderUpdate(i: nat, state: byte) returns (changed: bool)
      requires Valid() && i < |resolutions|
      modifies pulses, values, this`log
      ensures var p := Int8(old(pulses[i]) + LUT[state % 16]);
              var click := ClickOf(p, resolutions[i]);
              && pulses[..] == old(pulses[..])[i := Int8(Rem(p, resolutions[i]))]
              && values[..] == old(values[..])[thisHand + i := Count(old(values[thisHand + i]), click)]
              && log == old(log) + Clicks(thisHand + i, click) && changed == (click != 0)
    {
      hide Count;
      hide Int8;
      hide Rem;
      changed := false;
      var resolution, index := resolutions[i], thisHand + i;
      var r: int := resolution;
      CountZero(values[index]);
      pulses[i] := Int8(pulses[i] + LUT[state % 16]);
      if pulses[i] >= r {
        values[index] := Count(values[index], 1);
        changed := true;
        log := log + [Click(index, true)];
      }
      if pulses[i] <= -r {
        values[index] := Count(values[index], -1);
        changed := true;
        log := log + [Click(index, false)];
      }
      pulses[i] := Int8(Rem(pulses[i], resolution));
    }

    /** One sample of every encoder. */
    method EncoderRead(samples: seq<Pins>) returns (changed: bool)
      requires Valid() && |samples| == |resolutions|
      modifies states, pulses, values, this`log
      ensures forall i :: 0 <= i < |resolutions| ==>
                Own()[i] == Update(old(Own())[i], resolutions[i], samples[i]).encoder
      ensures log == old(log) + ReadClicks(old(Own()), resolutions, samples, thisHand, |samples|)
      ensures changed <==> log != old(log)
      ensures Half(thatHand) == old(Half(thatHand))
    {
      hide Update;
      hide Clicks;
      changed := false;
      ghost var was := Own();
      for i := 0 to |resolutions|
        invariant forall j :: 0 <= j < i ==> Own()[j] == Update(was[j], resolutions[j], samples[j]).encoder
        invariant forall j :: i <= j < |resolutions| ==> Own()[j] == was[j]
        invariant log == old(log) + ReadClicks(was, resolutions, samples, thisHand, i)
        invariant changed <==> log != old(log)
        invariant Half(thatHand) == old(Half(thatHand))
      {
        var c := SampleOne(i, samples[i]);
        changed := changed || c;
      }
    }

    /** One sample of one encoder. */
    method SampleOne(i: nat, pins: Pins) returns (changed: bool)
      requires Valid() && i < |resolutions|
      modifies states, pulses, values, this`log
      ensures var u := Update(old(Own())[i], resolutions[i], pins);
              Own() == old(Own())[i := u.encoder] && log == old(log) + Clicks(thisHand + i, u.click) &&
              changed == (Clicks(thisHand + i, u.click) != [])
      ensures Half(thatHand) == old(Half(thatHand))
    {
      hide Int8;
      hide Rem;
      hide Count;
      hide ClickOf;
      hide Shift;
      ShiftWindow(states[i], pins);
      states[i] := Shift(states[i], pins);
      changed := EncoderUpdate(i, states[i]);
      assert forall j :: 0 <= j < |resolutions| && j != i ==> At(j) == old(At(j));
      assert At(i) == Update(old(Own())[i], resolutions[i], pins).encoder;
    }

    /** Takes over the counts of the other half, one step at a time. */
    method EncoderUpdateRaw(other: seq<byte>) returns (changed: bool)
      requires Valid() && |other| == |resolutions|
      modifies values, this`log
      ensures Half(thatHand) == other && Half(thisHand) == old(Half(thisHand))
      ensures log == old(log) + RawClicks(old(values[..]), other, thatHand, |other|)
    {
      hide Delta;
      hide Steps;
      changed := false;
      ghost var was := values[..];
      for i := 0 to |other|
        invariant forall j :: 0 <= j < values.Length ==>
                    values[j] == if thatHand <= j < thatHand + i then other[j - thatHand] else was[j]
        invariant log == old(log) + RawClicks(was, other, thatHand, i)
      {
        var c := CatchUp(thatHand + i, other[i]);
        changed := changed || c;
      }
    }

    method CatchUp(index: nat, target: byte) returns (changed: bool)
      requires index < values.Length
      modifies values, this`log
      ensures values[..] == old(values[..])[index := target]
      ensures log == old(log) + Steps(index, Delta(old(values[index]), target))
      ensures changed <==> old(values[index]) != target
    {
      hide Count;
      hide Delta;
      hide Steps;
      changed := false;
      var delta := Delta(values[index], target);
      ghost var all, was, v := delta, values[..], values[index];
      CountZero(v);
      DeltaReaches(v, target);
      StepsNone(index);
      while delta > 0
        invariant 0 <= delta <= all || delta == all <= 0
        invariant values[..] == was[index := Count(v, all - delta)] && log == old(log) + Steps(index, all - delta)
        invariant changed <==> delta != all
      {
        NextStep(index, v, all - delta);
        delta := delta - 1;
        values[index] := Count(values[index], 1);
        changed := true;
        log := log + [Click(index, true)];
      }
      while delta < 0
        invariant all <= delta <= 0 || delta == 0 <= all
        invariant values[..] == was[index := Count(v, all - delta)] && log == old(log) + Steps(index, all - delta)
        invariant changed <==> delta != all
      {
        NextStep(index, v, all - delta);
        delta := delta + 1;
        values[index] := Count(values[index], -1);
        changed := true;
        log := log + [Click(index, false)];
      }
    }
  }

  lemma CountZero(v: byte)
    ensures Count(v, 0) == v
  {}

  lemma StepsNone(index: nat)
    ensures Steps(index, 0) == []
  {}

  /** Counting the difference leads to the target, and there is none exactly at the target. */
  lemma DeltaReaches(v: byte, target: byte)
    ensures Count(v, Delta(v, target)) == target && (Delta(v, target) == 0 <==> v == target)
  {
    CatchesUp(v, target - v);
  }

  /** One step further from `n` steps, in the same direction. */
  lemma NextStep(index: nat, v: byte, n: int)
    ensures n >= 0 ==>
              Count(Count(v, n), 1) == Count(v, n + 1) &&
              Steps(index, n + 1) == Steps(index, n) + [Click(index, true)]
    ensures n <= 0 ==>
              Count(Count(v, n), -1) == Count(v, n - 1) &&
              Steps(index, n - 1) == Steps(index, n) + [Click(index, false)]
  {
    CountStep(v + n, 1);
    CountStep(v + n, -1);
  }
}

/** What recording sessions save, and what they leave alone. */
module MacroProofs {
  import opened Common
  import opened MacroModel

  // ---- the intended meaning of a session, on plain sequences

  /** The records offered to a running recording. */
  function Offered(es: seq<Event>): seq<Record> {
    if es == [] then []
    else
      var x := es[|es| - 1];
      Offered(es[..|es| - 1]) + if Control(x.keycode) then [] else [x.rec]
  }

  function DropReleases(rs: seq<Record>): seq<Record> {
    if rs != [] && !rs[0].pressed then DropReleases(rs[1..]) else rs
  }

  function Cut(rs: seq<Record>, n: nat): seq<Record> { if |rs| <= n then rs else rs[..n] }

  function TrimPresses(rs: seq<Record>): seq<Record> {
    if rs != [] && rs[|rs| - 1].pressed then TrimPresses(rs[..|rs| - 1]) else rs
  }

  /** Leading releases dropped, cut to the capacity, trailing presses trimmed. */
  function SessionResult(es: seq<Event>, capacity: nat): seq<Record> {
    TrimPresses(Cut(DropReleases(Offered(es)), capacity))
  }

  // ---- sequences

  lemma {:induction false} DropReleasesAppend(rs: seq<Record>, r: Record)
    ensures DropReleases(rs + [r]) ==
            if DropReleases(rs) == [] && !r.pressed then [] else DropReleases(rs) + [r]
  {
    if rs != [] && !rs[0].pressed {
      assert (rs + [r])[1..] == rs[1..] + [r];
      DropReleasesAppend(rs[1..], r);
    }
  }

  lemma CutAppend(rs: seq<Record>, r: Record, n: nat)
    ensures Cut(rs + [r], n) == if |Cut(rs, n)| == n then Cut(rs, n) else Cut(rs, n) + [r]
  {
    if |rs| >= n { assert (rs + [r])[..n] == rs[..n]; }
  }

  lemma {:induction false} DropReleasesStart(rs: seq<Record>)
    ensures DropReleases(rs) != [] ==> DropReleases(rs)[0].pressed
  {
    if rs != [] && !rs[0].pressed { DropReleasesStart(rs[1..]); }
  }

  lemma {:induction false} TrimPressesEnd(rs: seq<Record>)
    ensures TrimPresses(rs) <= rs
    ensures var t := TrimPresses(rs); t != [] ==> !t[|t| - 1].pressed
  {
    if rs != [] && rs[|rs| - 1].pressed { TrimPressesEnd(rs[..|rs| - 1]); }
  }

  /** A saved macro is empty, or starts with a press and ends with a release. */
  lemma SessionShape(es: seq<Event>, capacity: nat)
    ensures var m := SessionResult(es, capacity);
            |m| <= capacity && (m == [] || (m[0].pressed && !m[|m| - 1].pressed))
  {
    DropReleasesStart(Offered(es));
    TrimPressesEnd(Cut(DropReleases(Offered(es)), capacity));
  }

  // ---- one step

  /** Only a slot's own recording changes what the slot would play. */
  lemma StepKeepsSlot(s: State, e: Event, d: Slot)
    requires Sound(s) && s.recording != Some(d)
    ensures End(Step(s, e), d) == End(s, d) && Saved(Step(s, e), d) == Saved(s, d)
  {
    var s' := Step(s, e);
    assert |Saved(s', d)| == |Saved(s, d)|;
  }

  lemma SegmentGrows(buffer: seq<Record>, d: Slot, n: nat, r: Record)
    requires n < |buffer|
    ensures Segment(buffer[Pos(|buffer|, d, n) := r], d, n + 1) == Segment(buffer, d, n) + [r]
  {}

  lemma {:induction false} TrimIsTrimPresses(buffer: seq<Record>, d: Slot, n: nat)
    requires n <= |buffer|
    ensures var q := Trim(buffer, d, Pos(|buffer|, d, n));
            Segment(buffer, d, Length(|buffer|, d, q)) == TrimPresses(Segment(buffer, d, n))
  {
    var p := Pos(|buffer|, d, n);
    assert Length(|buffer|, d, p) == n;
    if n > 0 {
      var rs := Segment(buffer, d, n);
      assert p - Sign(d) == Pos(|buffer|, d, n - 1);
      assert rs[n - 1] == buffer[p - Sign(d)];
      assert rs[..n - 1] == Segment(buffer, d, n - 1);
      if rs[n - 1].pressed { TrimIsTrimPresses(buffer, d, n - 1); }
    }
  }

  // ---- sessions

  predicate NoStop(es: seq<Event>) {
    forall i :: 0 <= i < |es| ==> !(es[i].keycode.RecStop? && es[i].rec.pressed)
  }

  /** What the slot being recorded holds so far. */
  function SoFar(s: State, d: Slot): seq<Record>
    requires Sound(s) && s.recording == Some(d)
  {
    Segment(s.buffer, d, Length(|s.buffer|, d, s.pointer))
  }

  /** Recording one record: a release is dropped from an empty slot, anything from a full one. */
  lemma RecordKeyAppends(s: State, d: Slot, r: Record)
    requires Sound(s) && s.recording == Some(d)
    ensures var s' := RecordKey(s, d, r);
            Sound(s') && s'.recording == Some(d) &&
            SoFar(s', d) == if (SoFar(s, d) == [] && !r.pressed) || |SoFar(s, d)| == Capacity(s, d) then SoFar(s, d)
                            else SoFar(s, d) + [r]
  {
    hide Segment;
    var n := Length(|s.buffer|, d, s.pointer);
    assert s.pointer == Pos(|s.buffer|, d, n);
    assert s.pointer - Sign(d) == End(s, Other(d)) <==> n == Capacity(s, d);
    if n < Capacity(s, d) {
      SegmentGrows(s.buffer, d, n, r);
      assert s.pointer + Sign(d) == Pos(|s.buffer|, d, n + 1);
    }
  }

  /** While a slot is recorded it holds what has been offered, up to its capacity, and the other macro
      is as it was. */
  lemma {:induction false} Recording(s: State, d: Slot, es: seq<Event>)
    requires Sound(s) && s.recording == None && NoStop(es)
    ensures var s' := Run(RecordStart(s, d), es);
            && s'.recording == Some(d) && s'.played == s.played
            && End(s', d) == End(s, d) && End(s', Other(d)) == End(s, Other(d))
            && Saved(s', Other(d)) == Saved(s, Other(d))
            && SoFar(s', d) == Cut(DropReleases(Offered(es)), Capacity(s, d))
  {
    if es != [] {
      var n := |es| - 1;
      var e := es[n];
      Recording(s, d, es[..n]);
      var s1 := Run(RecordStart(s, d), es[..n]);
      StepKeepsSlot(s1, e, Other(d));
      if !Control(e.keycode) {
        DropReleasesAppend(Offered(es[..n]), e.rec);
        CutAppend(DropReleases(Offered(es[..n])), e.rec, Capacity(s, d));
        RecordKeyAppends(s1, d, e.rec);
      } else {
        assert Offered(es) == Offered(es[..n]);
      }
    }
  }

  lemma EndTrims(s: State, d: Slot)
    requires Sound(s) && s.recording == Some(d)
    ensures Saved(RecordEnd(s, d), d) == TrimPresses(SoFar(s, d))
  {
    var n := Length(|s.buffer|, d, s.pointer);
    assert s.pointer == Pos(|s.buffer|, d, n);
    TrimIsTrimPresses(s.buffer, d, n);
  }

  /** A whole session: what it saves is the intended sequence, cut to the capacity at its start, and
      the other macro plays as before. */
  lemma SessionSaves(s: State, d: Slot, es: seq<Event>, stop: Event)
    requires Sound(s) && s.recording == None && NoStop(es) && stop.keycode.RecStop? && stop.rec.pressed
    ensures var s' := Step(Run(RecordStart(s, d), es), stop);
            && s'.recording == None
            && Saved(s', d) == SessionResult(es, Capacity(s, d))
            && Saved(s', Other(d)) == Saved(s, Other(d))
  {
    Recording(s, d, es);
    var s1 := Run(RecordStart(s, d), es);
    StepKeepsSlot(s1, stop, Other(d));
    EndTrims(s1, d);
  }

  /** Between two sessions of a slot nothing changes it: after its recording has ended, whatever events
      follow, it plays the same until it is recorded again. */
  lemma {:induction false} SlotKept(s: State, d: Slot, es: seq<Event>)
    requires Sound(s)
    requires forall i :: 0 <= i <= |es| ==> Run(s, es[..i]).recording != Some(d)
    ensures Saved(Run(s, es), d) == Saved(s, d)
  {
    if es != [] {
      var n := |es| - 1;
      assert forall i :: 0 <= i <= n ==> es[..n][..i] == es[..i];
      SlotKept(s, d, es[..n]);
      StepKeepsSlot(Run(s, es[..n]), es[n], d);
    }
  }

  /** Every playback ever made was empty, or started with a press and ended with a release. */
  predicate Playable(rs: seq<Record>) { rs == [] || (rs[0].pressed && !rs[|rs| - 1].pressed) }

  /** A slot that is being recorded has started with a press; a slot that is not is playable. */
  predicate Tidy(s: State)
    requires Sound(s)
  {
    && (forall d :: s.recording != Some(d) ==> Playable(Saved(s, d)))
    && (forall i :: 0 <= i < |s.played| ==> Playable(s.played[i]))
    && (s.recording.Some? ==> var rs := SoFar(s, s.recording.value); rs != [] ==> rs[0].pressed)
  }

  lemma RecordingTidy(s: State, e: Event, d: Slot)
    requires Sound(s) && Tidy(s) && s.recording == Some(d)
    ensures Tidy(Step(s, e))
  {
    hide Capacity;
    hide Segment;
    var s' := Step(s, e);
    StepKeepsSlot(s, e, Other(d));
    if e.keycode.RecStop? {
      EndTrims(s, d);
      TrimPressesEnd(SoFar(s, d));
    } else if !Control(e.keycode) {
      RecordKeyAppends(s, d, e.rec);
    }
  }

  lemma IdleTidy(s: State, e: Event)
    requires Sound(s) && Tidy(s) && s.recording == None
    ensures Tidy(Step(s, e))
  {
    StepKeepsSlot(s, e, Left);
    StepKeepsSlot(s, e, Right);
  }

  /** In every run from power-up, whatever is pressed: the macros never overlap, and everything played
      starts with a press and ends with a release. */
  lemma {:induction false} EveryPlaybackTidy(size: nat, es: seq<Event>)
    ensures Tidy(Run(Initial(size), es))
  {
    if es != [] {
      var n := |es| - 1;
      EveryPlaybackTidy(size, es[..n]);
      var s := Run(Initial(size), es[..n]);
      if s.recording.Some? { RecordingTidy(s, es[n], s.recording.value); } else { IdleTidy(s, es[n]); }
    }
  }
}

/** What the macro keys do, over sequences of key events: a macro recorded with its keys is what its key plays. */
module MacroKeys {
  import opened Common
  import opened MacroModel
  import opened MacroProofs

  /** The keys of a slot. */
  function StartKey(d: Slot): Keycode { if d == Left then RecStart1 else RecStart2 }

  function PlayKey(d: Slot): Keycode { if d == Left then Play1 else Play2 }

  predicate Released(e: Event, k: Keycode) { e.keycode == k && !e.rec.pressed }

  predicate Stops(e: Event) { e.keycode == RecStop && e.rec.pressed }

  /** Which slot is being recorded after some key events, by the keys alone. */
  function Mode(es: seq<Event>): Option<Slot> {
    if es == [] then None
    else
      var e, before := es[|es| - 1], Mode(es[..|es| - 1]);
      if before.Some? then if Stops(e) then None else before
      else if Released(e, StartKey(Left)) then Some(Left)
      else if Released(e, StartKey(Right)) then Some(Right)
      else None
  }

  lemma {:induction false} RunMode(s: State, es: seq<Event>)
    requires Sound(s) && s.recording == None
    ensures Run(s, es).recording == Mode(es)
  {
    if es != [] { RunMode(s, es[..|es| - 1]); }
  }

  lemma {:induction false} RunSplit(s: State, a: seq<Event>, b: seq<Event>)
    requires Sound(s)
    ensures Run(s, a + b) == Run(Run(s, a), b)
  {
    if b == [] {
      assert a + b == a;
    } else {
      var n := |b| - 1;
      assert (a + b)[..|a| + n] == a + b[..n];
      RunSplit(s, a, b[..n]);
    }
  }

  lemma RunOne(s: State, e: Event)
    requires Sound(s)
    ensures Run(s, [e]) == Step(s, e)
  {
    assert [e][..0] == [];
  }

  /** Releasing the start key of a slot starts its recording. */
  lemma StartStarts(s: State, d: Slot, start: Event)
    requires Sound(s) && s.recording == None && Released(start, StartKey(d))
    ensures Step(s, start) == RecordStart(s, d)
  {}

  /** The state after a session: start key, other events, stop key. */
  lemma SessionRun(s: State, d: Slot, start: Event, es: seq<Event>, stop: Event)
    requires Sound(s) && s.recording == None
    requires Released(start, StartKey(d)) && NoStop(es) && Stops(stop)
    ensures Run(s, [start] + es + [stop]) == Step(Run(RecordStart(s, d), es), stop)
  {
    hide Step;
    StartStarts(s, d, start);
    RunSplit(s, [start] + es, [stop]);
    RunSplit(s, [start], es);
    RunOne(s, start);
    RunOne(Run(s, [start] + es), stop);
  }

  /** A slot is not recorded by `es`, and at their end nothing is. */
  predicate LeavesAlone(es: seq<Event>, d: Slot) {
    Mode(es) == None && forall i :: 0 <= i < |es| ==> Mode(es[..i]) != Some(d)
  }

  /** Release the start key, press keys, press the stop key; do anything but record this slot; release the play
      key: played is exactly what the session should have saved, at the capacity there was at its start. */
  lemma RecordThenPlay(s: State, d: Slot, start: Event, es: seq<Event>, stop: Event, between: seq<Event>, play: Event)
    requires Sound(s) && s.recording == None
    requires Released(start, StartKey(d)) && NoStop(es) && Stops(stop)
    requires LeavesAlone(between, d) && Released(play, PlayKey(d))
    ensures var calls := [start] + es + [stop] + between;
            Run(s, calls + [play]).played == Run(s, calls).played + [SessionResult(es, Capacity(s, d))]
  {
    hide Step;
    var session := [start] + es + [stop];
    var s1 := Run(s, session);
    SessionRun(s, d, start, es, stop);
    SessionSaves(s, d, es, stop);
    RunSplit(s, session, between);
    forall i | 0 <= i <= |between|
      ensures Run(s1, between[..i]).recording != Some(d)
    {
      RunMode(s1, between[..i]);
      assert between[..|between|] == between;
    }
    RunMode(s1, between);
    SlotKept(s1, d, between);
    RunSplit(s, session + between, [play]);
    RunOne(Run(s, session + between), play);
    PlayPlays(Run(s, session + between), d, play);
  }

  /** Releasing the play key of a slot plays what the slot holds, and changes nothing else. */
  lemma PlayPlays(s: State, d: Slot, play: Event)
    requires Sound(s) && s.recording == None && Released(play, PlayKey(d))
    ensures Step(s, play) == s.(played := s.played + [Saved(s, d)])
  {}

  /** Outside a recording no other key does anything; during one no play key does. */
  lemma OtherKeysIdle(s: State, e: Event)
    requires Sound(s)
    ensures s.recording == None && (e.rec.pressed || e.keycode == RecStop || e.keycode.Plain?) ==> Step(s, e) == s
    ensures s.recording.Some? && (e.keycode == Play1 || e.keycode == Play2 || Released(e, RecStop)) ==> Step(s, e) == s
  {}

  /** From power-up with an empty buffer of `size` records, macro 1 may take all of it, and then macro 2 what is
      left. */
  lemma BothMacros(size: nat, es1: seq<Event>, es2: seq<Event>, keys: seq<Event>)
    requires NoStop(es1) && NoStop(es2) && |keys| == 6
    requires Released(keys[0], RecStart1) && Stops(keys[1]) && Released(keys[2], RecStart2) && Stops(keys[3])
    requires Released(keys[4], Play1) && Released(keys[5], Play2)
    ensures var one := SessionResult(es1, size);
            var two := SessionResult(es2, if |one| <= size then size - |one| else 0);
            Run(Initial(size), [keys[0]] + es1 + [keys[1]] + [keys[2]] + es2 + [keys[3]] + [keys[4]] + [keys[5]]).played
            == Run(Initial(size), [keys[0]] + es1 + [keys[1]] + [keys[2]] + es2 + [keys[3]]).played + [one] + [two]
  {
    hide Step;
    hide SessionResult;
    var s := Initial(size);
    var first, second := [keys[0]] + es1 + [keys[1]], [keys[2]] + es2 + [keys[3]];
    var all := [keys[0]] + es1 + [keys[1]] + [keys[2]] + es2 + [keys[3]];
    assert all == first + second;
    RunSplit(s, first, second);
    TwoSessions(size, es1, es2, first, second, keys);
    var s2 := Run(Run(s, first), second);
    RunSplit(s, all, [keys[4]]);
    RunOne(s2, keys[4]);
    PlayPlays(s2, Left, keys[4]);
    var s3 := Step(s2, keys[4]);
    RunSplit(s, all + [keys[4]], [keys[5]]);
    RunOne(s3, keys[5]);
    PlayPlays(s3, Right, keys[5]);
  }

  /** Both macros are saved. */
  lemma TwoSessions(size: nat, es1: seq<Event>, es2: seq<Event>, first: seq<Event>, second: seq<Event>,
                    keys: seq<Event>)
    requires NoStop(es1) && NoStop(es2) && |keys| == 6
    requires Released(keys[0], RecStart1) && Stops(keys[1]) && Released(keys[2], RecStart2) && Stops(keys[3])
    requires first == [keys[0]] + es1 + [keys[1]] && second == [keys[2]] + es2 + [keys[3]]
    ensures var s2 := Run(Run(Initial(size), first), second);
            var one := SessionResult(es1, size);
            Sound(s2) && s2.recording == None && Saved(s2, Left) == one && |one| <= size &&
            Saved(s2, Right) == SessionResult(es2, size - |one|)
  {
    hide Step;
    hide SessionResult;
    var s := Initial(size);
    var s1 := Run(s, first);
    SessionRun(s, Left, keys[0], es1, keys[1]);
    SessionSaves(s, Left, es1, keys[1]);
    SessionShape(es1, size);
    SessionRun(s1, Right, keys[2], es2, keys[3]);
    SessionSaves(s1, Right, es2, keys[3]);
    CapacityLeft(s1);
  }

  lemma CapacityLeft(s: State)
    requires Sound(s)
    ensures Capacity(s, Right) == |s.buffer| - |Saved(s, Left)|
  {}
}

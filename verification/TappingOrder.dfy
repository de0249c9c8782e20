/**
The order in which the events of one key are executed: the order in which they came, exactly if none of them is
consumed at once while others of its key are queued.
*/
module TappingOrder {
  import opened TappingModel
  import opened TappingLedger
  import opened TappingRuns
  import opened TappingPairs

  /** The events of a key that were executed, in order. */
  function Executed(out: seq<Emission>, k: Key): seq<Event> {
    if out == [] then []
    else
      var x := out[|out| - 1];
      Executed(out[..|out| - 1], k) + if x.Genuine? && x.rec.event.key == k then [x.rec.event] else []
  }

  function PendingOf(t: Record, k: Key): seq<Event> { if UndecidedRecord(t) && t.event.key == k then [t.event] else [] }

  function EventsOf(w: seq<Record>): seq<Event> { if w == [] then [] else [w[0].event] + EventsOf(w[1..]) }

  /** What was executed of a key, or is undecided. */
  function Begun(out: seq<Emission>, t: Record, k: Key): seq<Event> { Executed(out, k) + PendingOf(t, k) }

  /** All that is known of a key: executed, then undecided, then queued. */
  function Line(s: State, k: Key): seq<Event> { Begun(s.out, s.tapping, k) + EventsOf(OfKey(s.waiting, k)) }

  /** The events of a key, as they came. */
  function Came(inputs: seq<Input>, k: Key): seq<Event> {
    if inputs == [] then []
    else
      var e := inputs[|inputs| - 1].event;
      Came(inputs[..|inputs| - 1], k) + if e.key == k then [e] else []
  }

  function Taken(r: Record, k: Key): seq<Event> { if r.event.key == k then [r.event] else [] }

  lemma ExecutedAppend(out: seq<Emission>, x: Emission, k: Key)
    ensures Executed(out + [x], k) == Executed(out, k) + if x.Genuine? then Taken(x.rec, k) else []
  {
    assert (out + [x])[..|out|] == out;
  }

  // ---- offering a record

  lemma EmitBegun(out: seq<Emission>, r: Record, k: Key)
    requires k != NO_KEY && FromCaller(r.event)
    ensures Executed(Emit(out, r), k) == Executed(out, k) + Taken(r, k)
  {
    ExecutedAppend(out, Genuine(r), k);
  }

  /** A press that becomes pending counts as begun, also if the scan executes it at once. */
  lemma ScanBegun(term: nat, s: State, k: Key)
    requires UndecidedRecord(s.tapping) && k != NO_KEY
    ensures var s' := ScanTap(term, s);
            Begun(s'.out, s'.tapping, k) == Executed(s.out, k) + Taken(s.tapping, k)
  {
    EmitBegun(s.out, s.tapping.(tap := s.tapping.tap.(count := 1)), k);
  }

  lemma OfferTappedBegun(term: nat, m: Keymap, s: State, r: Record, k: Key)
    requires SoundRecord(r) && k != NO_KEY && Down(s.tapping) && s.tapping.tap.count > 0
    ensures var x := OfferTapped(term, m, s, r);
            Begun(x.state.out, x.state.tapping, k) == Begun(s.out, s.tapping, k) + Taken(r, k)
  {
    hide Executed;
    hide ScanTap;
    var e := r.event;
    var syn := Record(Event(s.tapping.event.key, false, e.at), s.tapping.tap);
    var out := if s.tapping.tap.count > 1 then EmitSynthetic(s.out, syn) else s.out;
    ExecutedAppend(s.out, Synthetic(syn), k);
    EmitBegun(s.out, r, k);
    EmitBegun(s.out, r.(tap := s.tapping.tap), k);
    if UndecidedRecord(r) { ScanBegun(term, State(r, s.waiting, out), k); }
  }

  lemma OfferUndecidedBegun(m: Keymap, s: State, r: Record, k: Key)
    requires SoundRecord(r) && k != NO_KEY && Undecided(s)
    ensures var x := OfferUndecided(m, s, r);
            Begun(x.state.out, x.state.tapping, k) == Begun(s.out, s.tapping, k) + if x.done then Taken(r, k) else []
  {
    hide Executed;
    hide Typed;
    hide Retained;
    EmitBegun(s.out, r, k);
    EmitBegun(s.out, s.tapping.(tap := s.tapping.tap.(count := 1)), k);
  }

  lemma OfferReleasedBegun(term: nat, m: Keymap, s: State, r: Record, k: Key)
    requires SoundTapping(s.tapping) && SoundRecord(r) && k != NO_KEY
    requires IsTapping(s.tapping) && !s.tapping.event.pressed
    ensures var x := OfferReleased(term, m, s, r);
            Begun(x.state.out, x.state.tapping, k) == Begun(s.out, s.tapping, k) + Taken(r, k)
  {
    hide Executed;
    hide ScanTap;
    EmitBegun(s.out, r, k);
    EmitBegun(s.out, OfferReleased(term, m, s, r).rec, k);
    if UndecidedRecord(r) { ScanBegun(term, s.(tapping := r), k); }
  }

  /** A record that is consumed comes next. */
  lemma OfferBegun(term: nat, m: Keymap, s: State, r: Record, k: Key)
    requires SoundTapping(s.tapping) && SoundRecord(r) && k != NO_KEY
    ensures var x := Offer(term, m, s, r);
            Begun(x.state.out, x.state.tapping, k) == Begun(s.out, s.tapping, k) + if x.done then Taken(r, k) else []
  {
    hide Executed;
    hide ScanTap;
    hide OfferTapped;
    hide OfferReleased;
    hide OfferUndecided;
    hide WithinTerm;
    EmitBegun(s.out, r, k);
    if !IsTapping(s.tapping) {
      if UndecidedRecord(r) { ScanBegun(term, s.(tapping := r), k); }
    } else if !s.tapping.event.pressed {
      OfferReleasedBegun(term, m, s, r, k);
      OfferReleasedDone(term, m, s, r);
    } else if s.tapping.tap.count > 0 {
      OfferTappedBegun(term, m, s, r, k);
      OfferTappedDone(term, m, s, r);
    } else {
      OfferUndecidedBegun(m, s, r, k);
      EmitBegun(s.out, s.tapping, k);
    }
  }

  // ---- calls

  lemma {:induction false} EventsSame(a: seq<Record>, b: seq<Record>, k: Key)
    requires SameEvents(a, b)
    ensures EventsOf(OfKey(a, k)) == EventsOf(OfKey(b, k))
  {
    if a != [] {
      EventsSame(a[1..], b[1..], k);
      EventsAppend(Front(a[0], k), OfKey(a[1..], k));
      EventsAppend(Front(b[0], k), OfKey(b[1..], k));
    }
  }

  lemma {:induction false} EventsAppend(a: seq<Record>, b: seq<Record>)
    ensures EventsOf(a + b) == EventsOf(a) + EventsOf(b)
  {
    if a == [] {
      assert a + b == b;
    } else {
      assert (a + b)[1..] == a[1..] + b;
      EventsAppend(a[1..], b);
    }
  }

  lemma HeadEvents(waiting: seq<Record>, k: Key)
    requires waiting != []
    ensures EventsOf(OfKey(waiting, k)) == Taken(waiting[0], k) + EventsOf(OfKey(waiting[1..], k))
  {
    EventsAppend(Front(waiting[0], k), OfKey(waiting[1..], k));
  }

  /** Draining keeps the order of every key. */
  lemma {:induction false} DrainLine(term: nat, m: Keymap, s: State, k: Key)
    requires Sound(s) && k != NO_KEY
    ensures Line(Drain(term, m, s), k) == Line(s, k)
    decreases |s.waiting|
  {
    hide Offer;
    hide Begun;
    hide OfKey;
    if s.waiting != [] {
      var r := s.waiting[0];
      var x := Offer(term, m, s, r);
      OfferSound(term, m, s, r);
      OfferBegun(term, m, s, r, k);
      HeadEvents(s.waiting, k);
      if x.done {
        EventsSame(s.waiting[1..], x.state.waiting[1..], k);
        DrainLine(term, m, x.state.(waiting := x.state.waiting[1..]), k);
      } else {
        EventsSame(s.waiting, x.state.waiting[0 := x.rec], k);
      }
    }
  }

  /** The event is consumed at once although others of its key are queued. */
  predicate Overtakes(term: nat, m: Keymap, s: State, e: Event) {
    OfKey(s.waiting, e.key) != [] && Offer(term, m, s, Record(e, NO_TAP)).done
  }

  /** A record joins the queue. */
  lemma EnqueueLine(s: State, r: Record, k: Key)
    requires !NoEvent(r.event) && !Full(s.waiting)
    ensures Line(Enqueue(s, r), k) == Line(s, k) + Taken(r, k)
  {
    hide Executed;
    hide OfKey;
    OfKeyAppend(s.waiting, r, k);
    EventsAppend(OfKey(s.waiting, k), Front(r, k));
  }

  /** Taking in an event: one that does not overtake comes last, any other comes before what is queued of its
      key. */
  lemma AcceptLine(term: nat, m: Keymap, s: State, e: Event, k: Key)
    requires Sound(s) && FromCaller(e) && k != NO_KEY && !Overflows(term, m, s, e)
    ensures Line(Accept(term, m, s, e), k) ==
            if e.key != k then Line(s, k)
            else if Overtakes(term, m, s, e) then Begun(s.out, s.tapping, k) + [e] + EventsOf(OfKey(s.waiting, k))
            else Line(s, k) + [e]
  {
    hide Offer;
    hide Begun;
    hide OfKey;
    var r := Record(e, NO_TAP);
    var x := Offer(term, m, s, r);
    OfferSound(term, m, s, r);
    OfferBegun(term, m, s, r, k);
    EventsSame(s.waiting, x.state.waiting, k);
    if !x.done && !NoEvent(e) { EnqueueLine(x.state, x.rec, k); }
  }

  lemma LineOfCall(term: nat, m: Keymap, s: State, e: Event, k: Key)
    requires Sound(s) && FromCaller(e) && k != NO_KEY && !Overflows(term, m, s, e)
    ensures Line(Process(term, m, s, e), k) ==
            if e.key != k then Line(s, k)
            else if Overtakes(term, m, s, e) then Begun(s.out, s.tapping, k) + [e] + EventsOf(OfKey(s.waiting, k))
            else Line(s, k) + [e]
  {
    hide Line;
    hide Offer;
    OfferSound(term, m, s, Record(e, NO_TAP));
    AcceptLine(term, m, s, e, k);
    DrainLine(term, m, Accept(term, m, s, e), k);
  }

  lemma {:induction false} FrontIsNotBack(a: seq<Event>, e: Event)
    requires e !in a
    ensures [e] + a == a + [e] <==> a == []
  {
    if a != [] { assert ([e] + a)[0] != (a + [e])[0]; }
  }

  lemma OrderOfCall(term: nat, m: Keymap, s: State, e: Event)
    requires Sound(s) && FromCaller(e) && !NoEvent(e) && !Overflows(term, m, s, e) && e !in Line(s, e.key)
    ensures Line(Process(term, m, s, e), e.key) == Line(s, e.key) + [e] <==> !Overtakes(term, m, s, e)
  {
    hide Process;
    hide Offer;
    hide Begun;
    var begun, queued := Begun(s.out, s.tapping, e.key), EventsOf(OfKey(s.waiting, e.key));
    LineOfCall(term, m, s, e, e.key);
    FrontIsNotBack(queued, e);
    assert begun + [e] + queued == begun + ([e] + queued) && begun + queued + [e] == begun + (queued + [e]);
    if Overtakes(term, m, s, e) {
      var both := begun + ([e] + queued);
      assert both[|begun|..] == [e] + queued && (begun + (queued + [e]))[|begun|..] == queued + [e];
    }
  }

  // ---- runs

  /** Everything that came of a key is executed or pending, in that order. */
  ghost predicate InLine(term: nat, inputs: seq<Input>, k: Key) {
    Line(Run(term, INITIAL, inputs), k) == Came(inputs, k)
  }

  ghost predicate OvertakesAt(term: nat, inputs: seq<Input>, k: Key, n: nat)
    requires n < |inputs|
  {
    var x := inputs[n];
    x.event.key == k && Overtakes(term, x.keymap, Run(term, INITIAL, inputs[..n]), x.event)
  }

  /** No event of the key comes twice. */
  predicate Once(inputs: seq<Input>, k: Key) {
    forall i, j :: 0 <= i < j < |inputs| && inputs[i].event.key == k ==> inputs[i].event != inputs[j].event
  }

  lemma {:induction false} CameIs(inputs: seq<Input>, k: Key, v: Event)
    ensures v in Came(inputs, k) ==> exists i :: 0 <= i < |inputs| && inputs[i].event == v && v.key == k
  {
    if inputs != [] {
      var n := |inputs| - 1;
      CameIs(inputs[..n], k, v);
      if v in Came(inputs[..n], k) {
        var i :| 0 <= i < n && inputs[..n][i].event == v;
        assert inputs[i].event == v;
      }
    }
  }

  /** One call more. */
  lemma InLineNext(term: nat, inputs: seq<Input>, k: Key, n: nat)
    requires WellFormed(inputs) && k != NO_KEY && Once(inputs, k) && n < |inputs|
    requires ClearKeyboard !in Run(term, INITIAL, inputs[..n + 1]).out && InLine(term, inputs[..n], k)
    ensures InLine(term, inputs[..n + 1], k) <==> !OvertakesAt(term, inputs, k, n)
  {
    hide Process;
    hide Overtakes;
    var s, m, e := Run(term, INITIAL, inputs[..n]), inputs[n].keymap, inputs[n].event;
    assert inputs[..n + 1][..n] == inputs[..n];
    ReachableIsSound(term, inputs[..n]);
    ProcessSound(term, m, s, e);
    if e.key == k {
      CameIs(inputs[..n], k, e);
      OrderOfCall(term, m, s, e);
    } else {
      LineOfCall(term, m, s, e, k);
    }
  }

  lemma StartsInLine(term: nat, k: Key)
    ensures InLine(term, [], k)
  {}

  lemma {:induction false} ResetStays(term: nat, inputs: seq<Input>, n: nat)
    requires WellFormed(inputs) && n <= |inputs| && ClearKeyboard !in Run(term, INITIAL, inputs).out
    ensures ClearKeyboard !in Run(term, INITIAL, inputs[..n]).out
    decreases |inputs|
  {
    hide Process;
    if n == |inputs| {
      assert inputs[..n] == inputs;
    } else {
      var before, x := inputs[..|inputs| - 1], inputs[|inputs| - 1];
      ReachableIsSound(term, before);
      ProcessSound(term, x.keymap, Run(term, INITIAL, before), x.event);
      ResetStays(term, before, n);
      assert before[..n] == inputs[..n];
    }
  }

  /** The events of a key are executed, pending and queued in the order in which they came, at every moment of a
      run without a reset, if and only if no event of the key is consumed while others of it are queued. */
  lemma {:induction false} OrderIff(term: nat, inputs: seq<Input>, k: Key)
    requires WellFormed(inputs) && k != NO_KEY && Once(inputs, k)
    requires ClearKeyboard !in Run(term, INITIAL, inputs).out
    ensures (forall n :: 0 <= n <= |inputs| ==> InLine(term, inputs[..n], k)) <==>
            (forall n :: 0 <= n < |inputs| ==> !OvertakesAt(term, inputs, k, n))
  {
    hide InLine;
    hide OvertakesAt;
    if forall n :: 0 <= n <= |inputs| ==> InLine(term, inputs[..n], k) {
      forall n | 0 <= n < |inputs|
        ensures !OvertakesAt(term, inputs, k, n)
      {
        ResetStays(term, inputs, n + 1);
        InLineNext(term, inputs, k, n);
      }
    }
    if forall n :: 0 <= n < |inputs| ==> !OvertakesAt(term, inputs, k, n) {
      forall n | 0 <= n <= |inputs|
        ensures InLine(term, inputs[..n], k)
      {
        LineUpTo(term, inputs, k, n);
      }
    }
  }

  lemma {:induction false} LineUpTo(term: nat, inputs: seq<Input>, k: Key, n: nat)
    requires WellFormed(inputs) && k != NO_KEY && Once(inputs, k) && n <= |inputs|
    requires ClearKeyboard !in Run(term, INITIAL, inputs).out
    requires forall i :: 0 <= i < n ==> !OvertakesAt(term, inputs, k, i)
    ensures InLine(term, inputs[..n], k)
  {
    hide InLine;
    hide OvertakesAt;
    if n == 0 {
      assert inputs[..0] == [];
      StartsInLine(term, k);
    } else {
      LineUpTo(term, inputs, k, n - 1);
      ResetStays(term, inputs, n);
      InLineNext(term, inputs, k, n - 1);
    }
  }

  // ---- orderly runs

  /** In an orderly run no event of the key overtakes another: the press before a release in the trace is its own. */
  lemma OrderlyIsInLine(term: nat, gap: nat, inputs: seq<Input>, k: Key)
    requires Frequent(term, gap) && WellFormed(inputs) && Ticking(gap, inputs) && k != NO_KEY
    requires Alternates(inputs, k) && OrderlyRun(term, inputs, k) && Once(inputs, k)
    requires ClearKeyboard !in Run(term, INITIAL, inputs).out
    ensures InLine(term, inputs, k)
  {
    hide Overtakes;
    forall n | 0 <= n < |inputs|
      ensures !OvertakesAt(term, inputs, k, n)
    {
      OrderlyAt(term, gap, inputs, k, n);
    }
    assert inputs[..|inputs|] == inputs;
    LineUpTo(term, inputs, k, |inputs|);
  }

  lemma OrderlyAt(term: nat, gap: nat, inputs: seq<Input>, k: Key, n: nat)
    requires Frequent(term, gap) && WellFormed(inputs) && Ticking(gap, inputs) && k != NO_KEY
    requires Alternates(inputs, k) && OrderlyRun(term, inputs, k) && n < |inputs|
    ensures !OvertakesAt(term, inputs, k, n)
  {
    hide Offer;
    hide Process;
    hide Paired;
    var before, m, e := inputs[..n], inputs[n].keymap, inputs[n].event;
    var s := Run(term, INITIAL, before);
    assert forall i :: 0 <= i < n ==> before[..i] == inputs[..i] && before[i] == inputs[i];
    if e.key == k && OfKey(s.waiting, k) != [] {
      RunPairs(term, gap, before, k);
      LastQueued(s, k, LastMove(before, k));
      assert Orderly(term, s, e);
      StaysPairs(term, m, s, e, LastMove(before, k));
    }
  }
}

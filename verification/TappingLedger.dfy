/**
Every run of the resolver: the reachable-state invariant, the ledger of events, and the
made-up releases.
*/
module TappingLedger {
  import opened TappingModel

  // ---- the state between calls

  /** A press has tap count 0 until it is executed. */
  predicate SoundRecord(r: Record) {
    && FromCaller(r.event)
    && (r.event.pressed ==> r.tap.count == 0)
    && r.tap.count <= MAX_TAP_COUNT
  }

  predicate SoundTapping(t: Record) {
    && t.tap.count <= MAX_TAP_COUNT
    && (!IsTapping(t) ==> t == NO_RECORD)
    && (IsTapping(t) && !t.event.pressed ==> t.tap.count > 0)
  }

  predicate SoundQueue(waiting: seq<Record>) {
    forall i :: 0 <= i < |waiting| ==> !NoEvent(waiting[i].event) && SoundRecord(waiting[i])
  }

  predicate Sound(s: State) { SoundTapping(s.tapping) && SoundQueue(s.waiting) }

  predicate SameEvents(a: seq<Record>, b: seq<Record>) {
    |a| == |b| && forall i :: 0 <= i < |a| ==> a[i].event == b[i].event
  }

  /** The trace only grows, and no reset is made. */
  predicate Grows(a: seq<Emission>, b: seq<Emission>) {
    a <= b && forall i :: |a| <= i < |b| ==> b[i] != ClearKeyboard
  }

  lemma ScanTapSound(term: nat, s: State)
    requires Sound(s)
    ensures var s' := ScanTap(term, s);
            Sound(s') && SameEvents(s'.waiting, s.waiting) && Grows(s.out, s'.out)
  {}

  /** What every way of offering a record keeps. */
  predicate SoundOffer(s: State, r: Record, x: Offered) {
    && Sound(x.state) && SameEvents(x.state.waiting, s.waiting) && Grows(s.out, x.state.out)
    && x.rec.event == r.event && (!x.done ==> SoundRecord(x.rec))
  }

  lemma OfferTappedSound(term: nat, m: Keymap, s: State, r: Record)
    requires Sound(s) && SoundRecord(r) && IsTapping(s.tapping) && s.tapping.event.pressed && s.tapping.tap.count > 0
    ensures SoundOffer(s, r, OfferTapped(term, m, s, r))
  {
    hide ScanTap;
    if r.event.pressed && m.isTap(s.out, r) {
      var release := Record(Event(s.tapping.event.key, false, r.event.at), s.tapping.tap);
      ScanTapSound(term, State(r, s.waiting, if s.tapping.tap.count > 1 then EmitSynthetic(s.out, release) else s.out));
    }
  }

  lemma OfferReleasedSound(term: nat, m: Keymap, s: State, r: Record)
    requires Sound(s) && SoundRecord(r) && IsTapping(s.tapping) && !s.tapping.event.pressed
    ensures SoundOffer(s, r, OfferReleased(term, m, s, r))
  {
    hide ScanTap;
    if r.event.pressed { ScanTapSound(term, s.(tapping := r)); }
  }

  lemma OfferUndecidedSound(m: Keymap, s: State, r: Record)
    requires Sound(s) && SoundRecord(r) && IsTapping(s.tapping) && s.tapping.event.pressed
    ensures SoundOffer(s, r, OfferUndecided(m, s, r))
  {}

  lemma OfferSound(term: nat, m: Keymap, s: State, r: Record)
    requires Sound(s) && SoundRecord(r)
    ensures SoundOffer(s, r, Offer(term, m, s, r))
  {
    hide OfferTapped;
    hide OfferReleased;
    hide OfferUndecided;
    hide ScanTap;
    if !IsTapping(s.tapping) {
      if r.event.pressed { ScanTapSound(term, s.(tapping := r)); }
    } else if !s.tapping.event.pressed {
      OfferReleasedSound(term, m, s, r);
    } else if s.tapping.tap.count > 0 {
      OfferTappedSound(term, m, s, r);
    } else {
      OfferUndecidedSound(m, s, r);
    }
  }

  // ---- the ledger, kept for one event at a time

  /** How often `v` was executed; made-up releases do not count. */
  function Passed(out: seq<Emission>, v: Event): nat {
    if out == [] then 0
    else
      var n := |out| - 1;
      Passed(out[..n], v) + if out[n].Genuine? && out[n].rec.event == v then 1 else 0
  }

  function Queued(waiting: seq<Record>, v: Event): nat {
    if waiting == [] then 0 else (if waiting[0].event == v then 1 else 0) + Queued(waiting[1..], v)
  }

  predicate UndecidedRecord(t: Record) { IsTapping(t) && t.event.pressed && t.tap.count == 0 }

  predicate Undecided(s: State) { UndecidedRecord(s.tapping) }

  function Pending(t: Record, v: Event): nat {
    if UndecidedRecord(t) && t.event == v then 1 else 0
  }

  /** In how many places `v` is accounted for: executed, pending, or queued. */
  function Tally(s: State, v: Event): nat {
    Passed(s.out, v) + Pending(s.tapping, v) + Queued(s.waiting, v)
  }

  function Real(e: Event, v: Event): nat { if !NoEvent(e) && e == v then 1 else 0 }

  /** How often the real event `v` was fed in. */
  function Fed(inputs: seq<Input>, v: Event): nat {
    if inputs == [] then 0
    else Fed(inputs[..|inputs| - 1], v) + Real(inputs[|inputs| - 1].event, v)
  }

  lemma PassedAppend(out: seq<Emission>, x: Emission, v: Event)
    ensures Passed(out + [x], v) == Passed(out, v) + if x.Genuine? && x.rec.event == v then 1 else 0
  {
    assert (out + [x])[..|out|] == out;
  }

  lemma EmitPasses(out: seq<Emission>, r: Record, v: Event)
    ensures Passed(Emit(out, r), v) == Passed(out, v) + Real(r.event, v)
  {
    PassedAppend(out, Genuine(r), v);
  }

  lemma {:induction false} QueuedSame(a: seq<Record>, b: seq<Record>, v: Event)
    requires SameEvents(a, b)
    ensures Queued(a, v) == Queued(b, v)
  {
    if a != [] { QueuedSame(a[1..], b[1..], v); }
  }

  lemma {:induction false} QueuedAppend(a: seq<Record>, r: Record, v: Event)
    ensures Queued(a + [r], v) == Queued(a, v) + if r.event == v then 1 else 0
  {
    if a != [] {
      assert (a + [r])[1..] == a[1..] + [r];
      QueuedAppend(a[1..], r, v);
    }
  }

  function Accounted(s: State, v: Event): nat { Passed(s.out, v) + Pending(s.tapping, v) }

  lemma ScanTapBalanced(term: nat, s: State, v: Event)
    requires Undecided(s)
    ensures Accounted(ScanTap(term, s), v) == Accounted(s, v)
  {
    hide Passed;
    EmitPasses(s.out, s.tapping.(tap := s.tapping.tap.(count := 1)), v);
  }

  lemma OfferTappedBalanced(term: nat, m: Keymap, s: State, r: Record, v: Event)
    requires SoundRecord(r)
    requires IsTapping(s.tapping) && s.tapping.event.pressed && s.tapping.tap.count > 0
    ensures Accounted(OfferTapped(term, m, s, r).state, v) == Accounted(s, v) + Real(r.event, v)
  {
    hide Passed;
    var e := r.event;
    if OwnRelease(s.tapping, e) {
      EmitPasses(s.out, r.(tap := s.tapping.tap), v);
    } else if m.isTap(s.out, r) && e.pressed {
      var syn := Record(Event(s.tapping.event.key, false, e.at), s.tapping.tap);
      var out := if s.tapping.tap.count > 1 then EmitSynthetic(s.out, syn) else s.out;
      PassedAppend(s.out, Synthetic(syn), v);
      ScanTapBalanced(term, State(r, s.waiting, out), v);
    } else {
      EmitPasses(s.out, r, v);
    }
  }

  lemma OfferUndecidedBalanced(m: Keymap, s: State, r: Record, v: Event)
    requires SoundRecord(r) && UndecidedRecord(s.tapping)
    ensures var x := OfferUndecided(m, s, r);
            Accounted(x.state, v) == Accounted(s, v) + if x.done then Real(r.event, v) else 0
  {
    hide Passed;
    hide Typed;
    hide Retained;
    EmitPasses(s.out, r, v);
    EmitPasses(s.out, s.tapping.(tap := s.tapping.tap.(count := 1)), v);
  }

  lemma OfferReleasedBalanced(term: nat, m: Keymap, s: State, r: Record, v: Event)
    requires SoundTapping(s.tapping) && SoundRecord(r)
    requires IsTapping(s.tapping) && !s.tapping.event.pressed
    ensures Accounted(OfferReleased(term, m, s, r).state, v) == Accounted(s, v) + Real(r.event, v)
  {
    hide Passed;
    var e := r.event;
    EmitPasses(s.out, r, v);
    if e.pressed && e.key == s.tapping.event.key && !s.tapping.tap.interrupted {
      EmitPasses(s.out, OfferReleased(term, m, s, r).rec, v);
    } else if e.pressed && e.key != s.tapping.event.key && m.isTap(s.out, r) {
      ScanTapBalanced(term, s.(tapping := r), v);
    }
  }

  lemma OfferBalanced(term: nat, m: Keymap, s: State, r: Record, v: Event)
    requires SoundTapping(s.tapping) && SoundRecord(r)
    ensures var x := Offer(term, m, s, r);
            Accounted(x.state, v) == Accounted(s, v) + if x.done then Real(r.event, v) else 0
  {
    hide Passed;
    hide OfferTapped;
    hide OfferReleased;
    hide OfferUndecided;
    hide ScanTap;
    EmitPasses(s.out, r, v);
    if !IsTapping(s.tapping) {
      if r.event.pressed && m.isTap(s.out, r) { ScanTapBalanced(term, s.(tapping := r), v); }
    } else if !s.tapping.event.pressed {
      OfferReleasedBalanced(term, m, s, r, v);
      OfferReleasedDone(term, m, s, r);
    } else if s.tapping.tap.count > 0 {
      OfferTappedBalanced(term, m, s, r, v);
      OfferTappedDone(term, m, s, r);
    } else {
      OfferUndecidedBalanced(m, s, r, v);
      EmitPasses(s.out, s.tapping, v);
    }
  }

  lemma OfferTappedDone(term: nat, m: Keymap, s: State, r: Record)
    ensures OfferTapped(term, m, s, r).done
  {}

  lemma OfferReleasedDone(term: nat, m: Keymap, s: State, r: Record)
    ensures OfferReleased(term, m, s, r).done
  {}

  /** Draining neither loses nor invents events. */
  lemma {:induction false} DrainBalanced(term: nat, m: Keymap, s: State, v: Event)
    requires Sound(s)
    ensures Tally(Drain(term, m, s), v) == Tally(s, v)
    decreases |s.waiting|
  {
    hide Passed;
    hide Offer;
    if s.waiting != [] {
      var w := s.waiting[0];
      var x := Offer(term, m, s, w);
      OfferSound(term, m, s, w);
      OfferBalanced(term, m, s, w, v);
      QueuedSame(x.state.waiting, s.waiting, v);
      if x.done {
        DrainBalanced(term, m, x.state.(waiting := x.state.waiting[1..]), v);
      } else {
        QueuedSame(x.state.waiting[0 := x.rec], s.waiting, v);
      }
    }
  }

  ghost predicate Overflows(term: nat, m: Keymap, s: State, e: Event) {
    !Offer(term, m, s, Record(e, NO_TAP)).done && !NoEvent(e) && Full(s.waiting)
  }

  /** Taking in one event: all that was known is kept, or only the trace survives. */
  lemma AcceptBalanced(term: nat, m: Keymap, s: State, e: Event, v: Event)
    requires Sound(s) && FromCaller(e)
    ensures var s' := Accept(term, m, s, e);
            if Overflows(term, m, s, e) then Tally(s', v) <= Tally(s, v)
            else Tally(s', v) == Tally(s, v) + Real(e, v)
  {
    hide Passed;
    hide Offer;
    var r := Record(e, NO_TAP);
    var x := Offer(term, m, s, r);
    OfferSound(term, m, s, r);
    OfferBalanced(term, m, s, r, v);
    QueuedSame(x.state.waiting, s.waiting, v);
    PassedAppend(x.state.out, ClearKeyboard, v);
    QueuedAppend(x.state.waiting, x.rec, v);
  }

  // ---- the state after a call

  lemma {:induction false} DrainSound(term: nat, m: Keymap, s: State)
    requires Sound(s)
    ensures var s' := Drain(term, m, s);
            Sound(s') && |s'.waiting| <= |s.waiting| && Grows(s.out, s'.out)
    decreases |s.waiting|
  {
    hide Offer;
    if s.waiting != [] {
      var x := Offer(term, m, s, s.waiting[0]);
      OfferSound(term, m, s, s.waiting[0]);
      if x.done { DrainSound(term, m, x.state.(waiting := x.state.waiting[1..])); }
    }
  }

  /** One call keeps the invariant; on overflow the resolver is back in its initial state with one
      reset on record, otherwise no reset is made. */
  lemma ProcessSound(term: nat, m: Keymap, s: State, e: Event)
    requires Sound(s) && |s.waiting| < WAITING_BUFFER_SIZE && FromCaller(e)
    ensures var s' := Process(term, m, s, e);
            Sound(s') && |s'.waiting| < WAITING_BUFFER_SIZE && s.out <= s'.out &&
            if Overflows(term, m, s, e)
            then s' == INITIAL.(out := s'.out) && s'.out != [] && s'.out[|s'.out| - 1] == ClearKeyboard
            else Grows(s.out, s'.out)
  {
    hide Offer;
    OfferSound(term, m, s, Record(e, NO_TAP));
    DrainSound(term, m, Accept(term, m, s, e));
  }

  /** After any sequence of calls: a stored released key has a tap count (the scan's "invalid
      state" does not arise), queued presses have none, counts fit in four bits, and the queue
      fits in the ring. */
  lemma {:induction false} ReachableIsSound(term: nat, inputs: seq<Input>)
    requires WellFormed(inputs)
    ensures var s := Run(term, INITIAL, inputs);
            Sound(s) && |s.waiting| < WAITING_BUFFER_SIZE
  {
    if inputs != [] {
      var n := |inputs| - 1;
      ReachableIsSound(term, inputs[..n]);
      ProcessSound(term, inputs[n].keymap, Run(term, INITIAL, inputs[..n]), inputs[n].event);
    }
  }

  lemma ProcessBalanced(term: nat, m: Keymap, s: State, e: Event, v: Event)
    requires Sound(s) && FromCaller(e)
    ensures var s' := Process(term, m, s, e);
            if Overflows(term, m, s, e) then Tally(s', v) <= Tally(s, v)
            else Tally(s', v) == Tally(s, v) + Real(e, v)
  {
    hide Offer;
    OfferSound(term, m, s, Record(e, NO_TAP));
    AcceptBalanced(term, m, s, e, v);
    DrainBalanced(term, m, Accept(term, m, s, e), v);
  }

  /** Nothing is accounted for more often than it was fed in. */
  ghost predicate AtMostFed(s: State, inputs: seq<Input>) { forall v :: Tally(s, v) <= Fed(inputs, v) }

  ghost predicate AllAccounted(s: State, inputs: seq<Input>) { forall v :: Tally(s, v) == Fed(inputs, v) }

  lemma FedMore(inputs: seq<Input>, v: Event)
    requires inputs != []
    ensures Fed(inputs, v) == Fed(inputs[..|inputs| - 1], v) + Real(inputs[|inputs| - 1].event, v)
  {}

  /** Conservation, one call on. */
  lemma ConservationStep(term: nat, s: State, inputs: seq<Input>)
    requires inputs != [] && Sound(s) && |s.waiting| < WAITING_BUFFER_SIZE && FromCaller(inputs[|inputs| - 1].event)
    requires AtMostFed(s, inputs[..|inputs| - 1])
    requires AllAccounted(s, inputs[..|inputs| - 1]) <==> ClearKeyboard !in s.out
    ensures var s' := Process(term, inputs[|inputs| - 1].keymap, s, inputs[|inputs| - 1].event);
            AtMostFed(s', inputs) && (AllAccounted(s', inputs) <==> ClearKeyboard !in s'.out)
  {
    hide Process;
    hide Tally;
    hide Fed;
    hide Overflows;
    hide Sound;
    var n := |inputs| - 1;
    var m, e := inputs[n].keymap, inputs[n].event;
    var s' := Process(term, m, s, e);
    ProcessSound(term, m, s, e);
    forall v
      ensures Tally(s', v) <= Tally(s, v) + Real(e, v) && Fed(inputs, v) == Fed(inputs[..n], v) + Real(e, v)
      ensures !Overflows(term, m, s, e) ==> Tally(s', v) == Tally(s, v) + Real(e, v)
    {
      ProcessBalanced(term, m, s, e, v);
      FedMore(inputs, v);
    }
    if Overflows(term, m, s, e) {
      ProcessBalanced(term, m, s, e, e);
      OverflowIsReal(term, m, s, e);
      assert Tally(s', e) < Fed(inputs, e);
      assert s'.out[|s'.out| - 1] == ClearKeyboard;
    } else if ClearKeyboard in s.out {
      var v :| Tally(s, v) != Fed(inputs[..n], v);
      assert Tally(s', v) < Fed(inputs, v);
    }
  }

  lemma OverflowIsReal(term: nat, m: Keymap, s: State, e: Event)
    requires Overflows(term, m, s, e)
    ensures Real(e, e) == 1
  {}

  /** Conservation. No event is executed twice or without having been fed, and every event is
      accounted for exactly once exactly when no overflow has occurred. */
  lemma {:induction false} Conservation(term: nat, inputs: seq<Input>)
    requires WellFormed(inputs)
    ensures var s := Run(term, INITIAL, inputs);
            && (forall v :: Tally(s, v) <= Fed(inputs, v))
            && ((forall v :: Tally(s, v) == Fed(inputs, v)) <==> ClearKeyboard !in s.out)
  {
    hide Process;
    hide Tally;
    hide Fed;
    if inputs == [] {
      NothingFed();
    } else {
      Conservation(term, inputs[..|inputs| - 1]);
      ReachableIsSound(term, inputs[..|inputs| - 1]);
      ConservationStep(term, Run(term, INITIAL, inputs[..|inputs| - 1]), inputs);
    }
  }

  lemma NothingFed()
    ensures AllAccounted(INITIAL, [])
  {}
}

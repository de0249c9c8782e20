/** Where made-up releases and tap counts come from, in every run. */
module TappingTrace {
  import opened TappingModel
  import opened TappingLedger

  /** A made-up release ends a tap of count above 1 whose press was executed before, with the same tap state. */
  ghost predicate EndsTap(before: seq<Emission>, x: Emission) {
    x.Synthetic? ==>
      !x.rec.event.pressed && x.rec.tap.count > 1 &&
      exists p: Record ::
        Genuine(p) in before && p.event.pressed && p.event.key == x.rec.event.key && p.tap == x.rec.tap
  }

  /** A press of this key was executed with tap count `c`. */
  ghost predicate Tapped(out: seq<Emission>, k: Key, c: nat) {
    exists p: Record :: Genuine(p) in out && p.event.pressed && p.event.key == k && p.tap.count == c
  }

  /** Tap counts go up one by one, and stay at their maximum. */
  ghost predicate Climbs(before: seq<Emission>, x: Emission) {
    x.Genuine? && x.rec.event.pressed && x.rec.tap.count > 1 ==>
      Tapped(before, x.rec.event.key, x.rec.tap.count - 1) ||
      (x.rec.tap.count == MAX_TAP_COUNT && Tapped(before, x.rec.event.key, MAX_TAP_COUNT))
  }

  ghost predicate SoundTrace(out: seq<Emission>) {
    forall i :: 0 <= i < |out| ==> EndsTap(out[..i], out[i]) && Climbs(out[..i], out[i])
  }

  /** A press known to be a tap has been executed as such; so has the press of a tap that was released. */
  ghost predicate OnRecord(s: State) {
    && (IsTapping(s.tapping) && s.tapping.event.pressed && s.tapping.tap.count > 0 ==> Genuine(s.tapping) in s.out)
    && (IsTapping(s.tapping) && s.tapping.tap.count > 0 ==> Tapped(s.out, s.tapping.event.key, s.tapping.tap.count))
  }

  ghost predicate Traced(s: State) { SoundTrace(s.out) && OnRecord(s) }

  lemma TappedMore(out: seq<Emission>, out': seq<Emission>, k: Key, c: nat)
    requires out <= out' && Tapped(out, k, c)
    ensures Tapped(out', k, c)
  {
    var p: Record :| Genuine(p) in out && p.event.pressed && p.event.key == k && p.tap.count == c;
    assert Genuine(p) in out';
  }

  lemma TraceAppend(out: seq<Emission>, x: Emission)
    requires SoundTrace(out) && EndsTap(out, x) && Climbs(out, x)
    ensures SoundTrace(out + [x])
  {
    hide EndsTap;
    hide Climbs;
    var out' := out + [x];
    forall i | 0 <= i < |out'| ensures EndsTap(out'[..i], out'[i]) && Climbs(out'[..i], out'[i]) {
      assert out'[..i] == out[..i];
      assert i < |out| ==> EndsTap(out[..i], out[i]);
    }
  }

  lemma EmitTraced(out: seq<Emission>, r: Record)
    requires SoundTrace(out) && Climbs(out, Genuine(r))
    ensures SoundTrace(Emit(out, r))
    ensures !NoEvent(r.event) ==> Genuine(r) in Emit(out, r)
    ensures !NoEvent(r.event) && r.event.pressed ==> Tapped(Emit(out, r), r.event.key, r.tap.count)
    ensures forall k, c :: Tapped(out, k, c) ==> Tapped(Emit(out, r), k, c)
    ensures forall x :: x in out ==> x in Emit(out, r)
  {
    hide SoundTrace;
    if !NoEvent(r.event) {
      TraceAppend(out, Genuine(r));
      assert Emit(out, r)[|out|] == Genuine(r);
      forall k, c | Tapped(out, k, c) ensures Tapped(Emit(out, r), k, c) { TappedMore(out, Emit(out, r), k, c); }
    }
  }

  lemma ScanTapTraced(term: nat, s: State)
    requires SoundTrace(s.out) && Undecided(s)
    ensures Traced(ScanTap(term, s))
  {
    hide SoundTrace;
    hide Tapped;
    EmitTraced(s.out, s.tapping.(tap := s.tapping.tap.(count := 1)));
  }

  lemma OfferUndecidedTraced(m: Keymap, s: State, r: Record)
    requires Traced(s) && SoundRecord(r) && Undecided(s)
    ensures Traced(OfferUndecided(m, s, r).state)
  {
    hide SoundTrace;
    hide Tapped;
    EmitTraced(s.out, s.tapping.(tap := s.tapping.tap.(count := 1)));
    if !r.event.pressed { EmitTraced(s.out, r); }
  }

  lemma OfferTappedTraced(term: nat, m: Keymap, s: State, r: Record)
    requires Traced(s) && SoundRecord(r)
    requires IsTapping(s.tapping) && s.tapping.event.pressed && s.tapping.tap.count > 0
    ensures Traced(OfferTapped(term, m, s, r).state)
  {
    hide SoundTrace;
    hide Tapped;
    hide ScanTap;
    var e := r.event;
    if OwnRelease(s.tapping, e) {
      EmitTraced(s.out, r.(tap := s.tapping.tap));
    } else if m.isTap(s.out, r) && e.pressed {
      var syn := Record(Event(s.tapping.event.key, false, e.at), s.tapping.tap);
      if s.tapping.tap.count > 1 {
        TraceAppend(s.out, Synthetic(syn));
        ScanTapTraced(term, State(r, s.waiting, EmitSynthetic(s.out, syn)));
      } else {
        ScanTapTraced(term, State(r, s.waiting, s.out));
      }
    } else {
      EmitTraced(s.out, r);
    }
  }

  lemma OfferReleasedTraced(term: nat, m: Keymap, s: State, r: Record)
    requires Traced(s) && SoundTapping(s.tapping) && SoundRecord(r)
    requires IsTapping(s.tapping) && !s.tapping.event.pressed
    ensures Traced(OfferReleased(term, m, s, r).state)
  {
    hide SoundTrace;
    hide Tapped;
    hide ScanTap;
    EmitTraced(s.out, r);
    if r.event.pressed {
      var x := OfferReleased(term, m, s, r);
      if r.event.key == s.tapping.event.key && !s.tapping.tap.interrupted { EmitTraced(s.out, x.rec); }
      ScanTapTraced(term, s.(tapping := r));
    }
  }

  lemma OfferTraced(term: nat, m: Keymap, s: State, r: Record)
    requires Traced(s) && SoundTapping(s.tapping) && SoundRecord(r)
    ensures Traced(Offer(term, m, s, r).state)
  {
    hide SoundTrace;
    hide Tapped;
    hide ScanTap;
    hide OfferUndecided;
    hide OfferTapped;
    hide OfferReleased;
    EmitTraced(s.out, r);
    if !IsTapping(s.tapping) {
      if UndecidedRecord(r) { ScanTapTraced(term, s.(tapping := r)); }
    } else if !s.tapping.event.pressed {
      OfferReleasedTraced(term, m, s, r);
    } else if s.tapping.tap.count > 0 {
      OfferTappedTraced(term, m, s, r);
    } else {
      OfferUndecidedTraced(m, s, r);
      EmitTraced(s.out, s.tapping);
    }
  }

  lemma {:induction false} DrainTraced(term: nat, m: Keymap, s: State)
    requires Traced(s) && Sound(s)
    ensures Traced(Drain(term, m, s))
    decreases |s.waiting|
  {
    hide Offer;
    hide SoundTrace;
    if s.waiting != [] {
      var x := Offer(term, m, s, s.waiting[0]);
      OfferSound(term, m, s, s.waiting[0]);
      OfferTraced(term, m, s, s.waiting[0]);
      if x.done { DrainTraced(term, m, x.state.(waiting := x.state.waiting[1..])); }
    }
  }

  /** In every run each made-up release ends a tap of count above 1 that was executed before, and the
      tap counts of a key go up one by one. */
  lemma {:induction false} TraceIsSound(term: nat, inputs: seq<Input>)
    requires WellFormed(inputs)
    ensures Traced(Run(term, INITIAL, inputs))
  {
    if inputs != [] {
      var n := |inputs| - 1;
      var m, r := inputs[n].keymap, Record(inputs[n].event, NO_TAP);
      TraceIsSound(term, inputs[..n]);
      ReachableIsSound(term, inputs[..n]);
      var s := Run(term, INITIAL, inputs[..n]);
      AcceptTraced(term, m, s, r.event);
      DrainTraced(term, m, Accept(term, m, s, r.event));
    }
  }

  lemma AcceptTraced(term: nat, m: Keymap, s: State, e: Event)
    requires Traced(s) && Sound(s) && FromCaller(e)
    ensures Traced(Accept(term, m, s, e)) && Sound(Accept(term, m, s, e))
  {
    hide Offer;
    hide SoundTrace;
    var r := Record(e, NO_TAP);
    OfferSound(term, m, s, r);
    OfferTraced(term, m, s, r);
    TraceAppend(Offer(term, m, s, r).state.out, ClearKeyboard);
  }
}

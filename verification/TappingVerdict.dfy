/** What happens to a press while it is undecided, and how it is decided. */
module TappingVerdict {
  import opened Common
  import opened TappingModel
  import opened TappingLedger

  predicate IsRelease(x: Emission) { x.Genuine? && !x.rec.event.pressed }

  /** The first emission that is not the plain release of a key. */
  function Barrier(xs: seq<Emission>): Option<Emission> {
    if xs == [] then None else if IsRelease(xs[0]) then Barrier(xs[1..]) else Some(xs[0])
  }

  /** What was added to the trace. */
  function Since(before: seq<Emission>, after: seq<Emission>): seq<Emission>
    requires before <= after
  {
    after[|before|..]
  }

  lemma {:induction false} BarrierAppend(a: seq<Emission>, b: seq<Emission>)
    ensures Barrier(a + b) == if Barrier(a).Some? then Barrier(a) else Barrier(b)
  {
    if a == [] {
      assert a + b == b;
    } else {
      assert (a + b)[1..] == a[1..] + b;
      BarrierAppend(a[1..], b);
    }
  }

  lemma SinceTrans(a: seq<Emission>, b: seq<Emission>, c: seq<Emission>)
    requires a <= b <= c
    ensures a <= c
    ensures Barrier(Since(a, c)) == if Barrier(Since(a, b)).Some? then Barrier(Since(a, b)) else Barrier(Since(b, c))
  {
    assert Since(a, c) == Since(a, b) + Since(b, c);
    BarrierAppend(Since(a, b), Since(b, c));
  }

  predicate SamePress(s: State, s': State) {
    Undecided(s') && s'.tapping.event == s.tapping.event
  }

  /** `x` is the execution of the press pending in `s`, with tap count `c`. */
  predicate Executes(s: State, x: Emission, c: nat) {
    x.Genuine? && x.rec.event == s.tapping.event && x.rec.tap.count == c
  }

  // ---- one offer

  /** Offering a record to an undecided press executes that press, or keeps it undecided. In the
      latter case at most the offered record itself is executed: a release with no opposite event
      of its key in the queue. */
  lemma OfferToUndecided(term: nat, m: Keymap, s: State, r: Record)
    requires Undecided(s) && SoundRecord(r)
    ensures var x := Offer(term, m, s, r);
            var own := OwnRelease(s.tapping, r.event);
            var within := WithinTerm(term, s.tapping, r.event);
            && s.out <= x.state.out && x.state.waiting == s.waiting
            && (own || !within ==>
                  !x.done && !Undecided(x.state) && Executes(s, x.state.out[|s.out|], if within then 1 else 0) &&
                  |x.state.out| == |s.out| + 1)
            && (!own && within ==>
                  SamePress(s, x.state) && x.rec == r &&
                  if x.state.out == s.out then (x.done ==> NoEvent(r.event))
                  else x.done && !r.event.pressed && !Typed(s.waiting, r.event) && x.state.out == s.out + [Genuine(r)])
  {}

  // ---- one call

  /** The first press executed is the pending one, unless everything is reset before. */
  ghost predicate PressFirst(s: State, s': State) {
    && s.out <= s'.out
    && var b := Barrier(Since(s.out, s'.out));
       if b.None? then SamePress(s, s')
       else b == Some(ClearKeyboard) || Executes(s, b.value, 0) || Executes(s, b.value, 1)
  }

  lemma {:induction false} DrainPressFirst(term: nat, m: Keymap, s: State)
    requires Sound(s) && Undecided(s)
    ensures PressFirst(s, Drain(term, m, s))
    decreases |s.waiting|
  {
    hide Offer;
    if s.waiting != [] {
      var w := s.waiting[0];
      var x := Offer(term, m, s, w);
      OfferToUndecided(term, m, s, w);
      OfferSound(term, m, s, w);
      if x.done {
        var rest := x.state.(waiting := x.state.waiting[1..]);
        DrainPressFirst(term, m, rest);
        SinceTrans(s.out, rest.out, Drain(term, m, rest).out);
      }
    }
  }

  lemma ProcessPressFirst(term: nat, m: Keymap, s: State, e: Event)
    requires Sound(s) && Undecided(s) && FromCaller(e)
    ensures PressFirst(s, Process(term, m, s, e))
  {
    hide Offer;
    var r := Record(e, NO_TAP);
    var a := Accept(term, m, s, e);
    OfferToUndecided(term, m, s, r);
    OfferSound(term, m, s, r);
    DrainSound(term, m, a);
    SinceTrans(s.out, a.out, Drain(term, m, a).out);
    if Undecided(a) { DrainPressFirst(term, m, a); }
  }

  // ---- runs

  lemma {:induction false} RunSplit(term: nat, s: State, a: seq<Input>, b: seq<Input>)
    ensures Run(term, s, a + b) == Run(term, Run(term, s, a), b)
  {
    hide Process;
    if b == [] {
      assert a + b == a;
    } else {
      var n := |b| - 1;
      assert (a + b)[..|a| + n] == a + b[..n];
      RunSplit(term, s, a, b[..n]);
    }
  }

  lemma {:induction false} RunSound(term: nat, s: State, inputs: seq<Input>)
    requires Sound(s) && |s.waiting| < WAITING_BUFFER_SIZE && WellFormed(inputs)
    ensures var s' := Run(term, s, inputs);
            Sound(s') && |s'.waiting| < WAITING_BUFFER_SIZE && s.out <= s'.out
  {
    if inputs != [] {
      var n := |inputs| - 1;
      RunSound(term, s, inputs[..n]);
      ProcessSound(term, inputs[n].keymap, Run(term, s, inputs[..n]), inputs[n].event);
    }
  }

  /** While a press is undecided nothing but plain releases is executed: whatever is fed in, the
      first other thing executed is that press itself, or the reset made by an overflow. */
  lemma {:induction false} PendingPressComesFirst(term: nat, s: State, inputs: seq<Input>)
    requires Sound(s) && |s.waiting| < WAITING_BUFFER_SIZE && Undecided(s) && WellFormed(inputs)
    ensures PressFirst(s, Run(term, s, inputs))
  {
    if inputs != [] {
      var n := |inputs| - 1;
      var s1 := Run(term, s, inputs[..n]);
      PendingPressComesFirst(term, s, inputs[..n]);
      RunSound(term, s, inputs[..n]);
      ProcessSound(term, inputs[n].keymap, s1, inputs[n].event);
      SinceTrans(s.out, s1.out, Process(term, inputs[n].keymap, s1, inputs[n].event).out);
      if Undecided(s1) { ProcessPressFirst(term, inputs[n].keymap, s1, inputs[n].event); }
    }
  }

  // ---- what may overtake an undecided press

  predicate PressQueued(waiting: seq<Record>, k: Key) {
    exists i :: 0 <= i < |waiting| && waiting[i].event.pressed && waiting[i].event.key == k
  }

  /** The releases at the front of `xs` belong to keys without a press in the queue. */
  predicate Overtakers(xs: seq<Emission>, waiting: seq<Record>) {
    xs != [] && IsRelease(xs[0]) ==> !PressQueued(waiting, xs[0].rec.event.key) && Overtakers(xs[1..], waiting)
  }

  ghost predicate PressesKept(waiting: seq<Record>, rest: seq<Record>) {
    forall k :: PressQueued(waiting, k) ==> PressQueued(rest, k)
  }

  lemma {:induction false} OvertakersAppend(a: seq<Emission>, b: seq<Emission>, waiting: seq<Record>, rest: seq<Record>)
    requires Overtakers(a, waiting) && Overtakers(b, rest) && PressesKept(waiting, rest)
    ensures Overtakers(a + b, waiting)
    decreases |a| + |b|
  {
    if a != [] {
      assert (a + b)[1..] == a[1..] + b;
      if IsRelease(a[0]) { OvertakersAppend(a[1..], b, waiting, rest); }
    } else {
      assert a + b == b;
      if b != [] && IsRelease(b[0]) {
        OvertakersAppend([], b[1..], waiting, rest);
        assert [] + b[1..] == b[1..];
      }
    }
  }

  /** Removing a queued release keeps the queued presses. */
  lemma TailKeepsPresses(waiting: seq<Record>)
    requires waiting != [] && !waiting[0].event.pressed
    ensures PressesKept(waiting, waiting[1..])
  {
    forall k | PressQueued(waiting, k)
      ensures PressQueued(waiting[1..], k)
    {
      var i :| 0 <= i < |waiting| && waiting[i].event.pressed && waiting[i].event.key == k;
      assert waiting[1..][i - 1] == waiting[i];
    }
  }

  lemma {:induction false} DrainOvertakers(term: nat, m: Keymap, s: State)
    requires Sound(s) && Undecided(s)
    ensures var s' := Drain(term, m, s);
            s.out <= s'.out && Overtakers(Since(s.out, s'.out), s.waiting) &&
            (SamePress(s, s') ==> PressesKept(s.waiting, s'.waiting))
    decreases |s.waiting|
  {
    hide Offer;
    hide PressQueued;
    if s.waiting != [] {
      var w := s.waiting[0];
      var x := Offer(term, m, s, w);
      OfferToUndecided(term, m, s, w);
      OfferSound(term, m, s, w);
      if x.done {
        var rest := x.state.(waiting := x.state.waiting[1..]);
        TailKeepsPresses(s.waiting);
        DrainOvertakers(term, m, rest);
        var s' := Drain(term, m, rest);
        UntypedRelease(s.waiting, w.event);
        OvertakersAppend([Genuine(w)], Since(rest.out, s'.out), s.waiting, rest.waiting);
        assert Since(s.out, s'.out) == [Genuine(w)] + Since(rest.out, s'.out);
      } else if x.state.out == s.out {
        assert s.waiting[0 := w] == s.waiting;
      }
    }
  }

  lemma UntypedRelease(waiting: seq<Record>, e: Event)
    requires !e.pressed
    ensures Typed(waiting, e) <==> PressQueued(waiting, e.key)
  {}

  /** Only releases overtake an undecided press, and only of keys without a queued press. While the
      press stays undecided, no queued press is lost, and a newly fed press is queued. */
  lemma ProcessOvertakers(term: nat, m: Keymap, s: State, e: Event)
    requires Sound(s) && Undecided(s) && FromCaller(e)
    ensures var s' := Process(term, m, s, e);
            s.out <= s'.out && Overtakers(Since(s.out, s'.out), s.waiting) &&
            (Barrier(Since(s.out, s'.out)).None? ==>
               PressesKept(s.waiting, s'.waiting) && (e.pressed ==> PressQueued(s'.waiting, e.key)))
  {
    hide Offer;
    hide PressQueued;
    var r := Record(e, NO_TAP);
    var x := Offer(term, m, s, r);
    var a := Accept(term, m, s, e);
    OfferToUndecided(term, m, s, r);
    OfferSound(term, m, s, r);
    DrainSound(term, m, a);
    var s' := Drain(term, m, a);
    assert Since(s.out, s'.out) == Since(s.out, a.out) + Since(a.out, s'.out);
    BarrierAppend(Since(s.out, a.out), Since(a.out, s'.out));
    if Undecided(a) {
      DrainOvertakers(term, m, a);
      DrainPressFirst(term, m, a);
      QueueKeepsPresses(s.waiting, r);
      if !e.pressed { UntypedRelease(s.waiting, e); }
      OvertakersAppend(Since(s.out, a.out), Since(a.out, s'.out), s.waiting, a.waiting);
    }
  }

  lemma QueueKeepsPresses(waiting: seq<Record>, r: Record)
    ensures PressesKept(waiting, waiting)
    ensures PressesKept(waiting, waiting + [r])
    ensures r.event.pressed ==> PressQueued(waiting + [r], r.event.key)
  {
    assert (waiting + [r])[|waiting|] == r;
    forall k | PressQueued(waiting, k)
      ensures PressQueued(waiting + [r], k)
    {
      var i :| 0 <= i < |waiting| && waiting[i].event.pressed && waiting[i].event.key == k;
      assert (waiting + [r])[i] == waiting[i];
    }
  }

  /** Every key pressed in `inputs` has a press in the queue. */
  predicate Remembers(inputs: seq<Input>, waiting: seq<Record>) {
    forall i :: 0 <= i < |inputs| && inputs[i].event.pressed ==> PressQueued(waiting, inputs[i].event.key)
  }

  lemma RemembersMore(inputs: seq<Input>, waiting: seq<Record>, rest: seq<Record>)
    requires inputs != [] && Remembers(inputs[..|inputs| - 1], waiting) && PressesKept(waiting, rest)
    requires var e := inputs[|inputs| - 1].event; e.pressed ==> PressQueued(rest, e.key)
    ensures Remembers(inputs, rest)
  {
    hide PressQueued;
    forall i | 0 <= i < |inputs| && inputs[i].event.pressed
      ensures PressQueued(rest, inputs[i].event.key)
    {
      if i < |inputs| - 1 { assert inputs[i] == inputs[..|inputs| - 1][i]; }
    }
  }

  /** As long as the press is undecided, the queue remembers every key pressed since (and every one
      that was queued before); so what overtakes it is the release of a key pressed earlier. */
  lemma {:induction false} QueueRemembersPresses(term: nat, s: State, inputs: seq<Input>)
    requires Sound(s) && |s.waiting| < WAITING_BUFFER_SIZE && Undecided(s) && WellFormed(inputs)
    requires s.out <= Run(term, s, inputs).out && Barrier(Since(s.out, Run(term, s, inputs).out)).None?
    ensures var s' := Run(term, s, inputs);
            PressesKept(s.waiting, s'.waiting) && Remembers(inputs, s'.waiting)
  {
    hide Process;
    hide PressQueued;
    hide Remembers;
    if inputs == [] {
      NothingToRemember(s.waiting);
    } else {
      var n := |inputs| - 1;
      var m, e := inputs[n].keymap, inputs[n].event;
      var s1 := Run(term, s, inputs[..n]);
      RunSound(term, s, inputs[..n]);
      PendingPressComesFirst(term, s, inputs[..n]);
      ProcessSound(term, m, s1, e);
      SinceTrans(s.out, s1.out, Process(term, m, s1, e).out);
      QueueRemembersPresses(term, s, inputs[..n]);
      ProcessOvertakers(term, m, s1, e);
      RemembersMore(inputs, s1.waiting, Process(term, m, s1, e).waiting);
    }
  }

  lemma NothingToRemember(waiting: seq<Record>)
    ensures Remembers([], waiting) && PressesKept(waiting, waiting)
  {}

  // ---- the verdict

  /** No queued release would settle the pending press as a tap. */
  predicate Settled(term: nat, s: State) {
    forall i :: 0 <= i < |s.waiting| ==> !Settler(term, s.tapping, s.waiting[i])
  }

  /** The queued events came after the pending press, up to time `now`. */
  predicate Later(s: State, now: nat) {
    forall i :: 0 <= i < |s.waiting| ==> s.tapping.event.at <= s.waiting[i].event.at <= now
  }

  predicate InOrder(now: nat, inputs: seq<Input>) {
    && (forall i :: 0 <= i < |inputs| ==> now <= inputs[i].event.at)
    && (forall i, j :: 0 <= i < j < |inputs| ==> inputs[i].event.at <= inputs[j].event.at)
  }

  /** Within one turn of the 16-bit timer the wrapped difference is the true one. */
  lemma WrapExact(a: nat, b: nat)
    requires b <= a < b + 0x1_0000
    ensures (a % 0x1_0000 - b % 0x1_0000) % 0x1_0000 == a - b
  {
    var m := 0x1_0000;
    assert a == m * (a / m) + a % m && b == m * (b / m) + b % m;
    var d := a % m - b % m;
    assert a - b == m * (a / m - b / m) + d;
    assert a / m - b / m == 0 || a / m - b / m == 1;
  }

  lemma TermExact(term: nat, t: Record, e: Event)
    requires t.event.at <= e.at < t.event.at + 0x1_0000
    ensures WithinTerm(term, t, e) <==> e.at < t.event.at + term
  {
    WrapExact(e.at, t.event.at);
  }

  /** Draining behind an undecided press whose term is still running. */
  lemma {:induction false} DrainKeepsPending(term: nat, m: Keymap, s: State, now: nat)
    requires Sound(s) && Undecided(s) && Settled(term, s) && Later(s, now)
    requires now < s.tapping.event.at + term && now < s.tapping.event.at + 0x1_0000
    ensures var s' := Drain(term, m, s);
            s.out <= s'.out && Barrier(Since(s.out, s'.out)).None? && SamePress(s, s') &&
            Settled(term, s') && Later(s', now)
    decreases |s.waiting|
  {
    hide Offer;
    hide WithinTerm;
    if s.waiting != [] {
      var w := s.waiting[0];
      var x := Offer(term, m, s, w);
      OfferToUndecided(term, m, s, w);
      OfferSound(term, m, s, w);
      TermExact(term, s.tapping, w.event);
      assert !Settler(term, s.tapping, w);
      if x.done {
        var rest := x.state.(waiting := x.state.waiting[1..]);
        SettledSame(term, s, rest);
        DrainKeepsPending(term, m, rest, now);
        SinceTrans(s.out, rest.out, Drain(term, m, rest).out);
      } else {
        assert x.state.waiting[0 := x.rec] == s.waiting;
        SettledSame(term, s, x.state);
      }
    }
  }

  lemma SettledSame(term: nat, s: State, s': State)
    requires SamePress(s, s') && Settled(term, s)
    requires forall i :: 0 <= i < |s'.waiting| ==>
               s'.waiting[i] in s.waiting || !OwnRelease(s.tapping, s'.waiting[i].event)
    ensures Settled(term, s')
  {}

  /** One call while the press is undecided: the verdict of unbounded time. */
  lemma VerdictOfCall(term: nat, m: Keymap, s: State, e: Event, now: nat)
    requires Sound(s) && Undecided(s) && Settled(term, s) && Later(s, now) && FromCaller(e)
    requires s.tapping.event.at <= now <= e.at < s.tapping.event.at + 0x1_0000
    ensures var s' := Process(term, m, s, e);
            s.out <= s'.out &&
            var b := Barrier(Since(s.out, s'.out));
            if e.at >= s.tapping.event.at + term then b.Some? && Executes(s, b.value, 0)
            else if OwnRelease(s.tapping, e) then b.Some? && Executes(s, b.value, 1)
            else b == Some(ClearKeyboard) ||
                 (b.None? && SamePress(s, s') && Settled(term, s') && Later(s', e.at))
  {
    hide Offer;
    hide WithinTerm;
    var r := Record(e, NO_TAP);
    var x := Offer(term, m, s, r);
    var a := Accept(term, m, s, e);
    OfferToUndecided(term, m, s, r);
    OfferSound(term, m, s, r);
    TermExact(term, s.tapping, e);
    DrainSound(term, m, a);
    SinceTrans(s.out, a.out, Drain(term, m, a).out);
    if e.at < s.tapping.event.at + term && !OwnRelease(s.tapping, e) && Undecided(a) {
      SettledSame(term, s, a);
      DrainKeepsPending(term, m, a, e.at);
    }
  }

  /** The press was released before its term ran out, whether that release is queued or fed in. */
  predicate ReleasedInTime(term: nat, s: State, inputs: seq<Input>) {
    || (exists i :: 0 <= i < |s.waiting| && OwnRelease(s.tapping, s.waiting[i].event) &&
                    s.waiting[i].event.at < s.tapping.event.at + term)
    || (exists i :: 0 <= i < |inputs| && OwnRelease(s.tapping, inputs[i].event) &&
                    inputs[i].event.at < s.tapping.event.at + term)
  }

  /** From `s` to `s'` the first thing executed that is not a plain release is the press pending in `s`
      with tap count `c`, or the reset made by an overflow. */
  predicate DecidedIn(s: State, s': State, c: nat) {
    s.out <= s'.out &&
    var b := Barrier(Since(s.out, s'.out));
    b == Some(ClearKeyboard) || (b.Some? && Executes(s, b.value, c))
  }

  ghost predicate Decided(term: nat, s: State, inputs: seq<Input>, c: nat) { DecidedIn(s, Run(term, s, inputs), c) }

  /** Executed as a tap exactly when it was released in time, unless an overflow came first. */
  ghost predicate CorrectVerdict(term: nat, s: State, inputs: seq<Input>) {
    Decided(term, s, inputs, if ReleasedInTime(term, s, inputs) then 1 else 0)
  }

  /** Calls in order of time, of which number `j` falls after the term and within one turn of the timer. */
  predicate Suitable(term: nat, s: State, now: nat, inputs: seq<Input>, j: nat) {
    && WellFormed(inputs) && InOrder(now, inputs) && j < |inputs|
    && s.tapping.event.at + term <= inputs[j].event.at < s.tapping.event.at + 0x1_0000
  }

  ghost predicate PendingAt(term: nat, s: State, now: nat) {
    && Sound(s) && |s.waiting| < WAITING_BUFFER_SIZE && Undecided(s)
    && Later(s, now) && s.tapping.event.at <= now
  }

  /** The press is still undecided after calls none of which decides it. */
  lemma {:induction false} StillPending(term: nat, s: State, now: nat, inputs: seq<Input>)
    requires PendingAt(term, s, now) && Settled(term, s) && WellFormed(inputs) && InOrder(now, inputs)
    requires forall i :: 0 <= i < |inputs| ==>
               inputs[i].event.at < s.tapping.event.at + 0x1_0000 &&
               inputs[i].event.at < s.tapping.event.at + term && !OwnRelease(s.tapping, inputs[i].event)
    ensures var s' := Run(term, s, inputs);
            s.out <= s'.out &&
            var b := Barrier(Since(s.out, s'.out));
            b == Some(ClearKeyboard) ||
            (b.None? && SamePress(s, s') && Settled(term, s') &&
             PendingAt(term, s', if inputs == [] then now else inputs[|inputs| - 1].event.at))
  {
    if inputs != [] {
      hide Process;
      hide Later;
      hide Settled;
      var n := |inputs| - 1;
      var m, e := inputs[n].keymap, inputs[n].event;
      var s1 := Run(term, s, inputs[..n]);
      StillPending(term, s, now, inputs[..n]);
      RunSound(term, s, inputs[..n]);
      ProcessSound(term, m, s1, e);
      SinceTrans(s.out, s1.out, Process(term, m, s1, e).out);
      if Barrier(Since(s.out, s1.out)).None? {
        VerdictOfCall(term, m, s1, e, if n == 0 then now else inputs[n - 1].event.at);
      }
    }
  }

  /** Number of the first call that decides: the term has run out, or the key is released. */
  function Decider(term: nat, t: Record, inputs: seq<Input>): (k: nat)
    ensures k <= |inputs|
    ensures k < |inputs| ==> inputs[k].event.at >= t.event.at + term || OwnRelease(t, inputs[k].event)
    ensures forall i :: 0 <= i < k ==> inputs[i].event.at < t.event.at + term && !OwnRelease(t, inputs[i].event)
  {
    if inputs == [] || inputs[0].event.at >= t.event.at + term || OwnRelease(t, inputs[0].event) then 0
    else
      var k := 1 + Decider(term, t, inputs[1..]);
      assert forall i :: 1 <= i < k ==> inputs[i] == inputs[1..][i - 1];
      k
  }

  /** Further calls do not change what was executed first. */
  lemma DecidedStays(term: nat, s: State, a: seq<Input>, b: seq<Input>, c: nat)
    requires Sound(s) && |s.waiting| < WAITING_BUFFER_SIZE && WellFormed(a) && WellFormed(b)
    requires Decided(term, s, a, c)
    ensures Decided(term, s, a + b, c)
  {
    hide Process;
    RunSound(term, s, a);
    RunSplit(term, s, a, b);
    RunSound(term, Run(term, s, a), b);
    SinceTrans(s.out, Run(term, s, a).out, Run(term, s, a + b).out);
  }

  /** The deciding call, seen from the state in which the press became pending. */
  lemma DecidedBy(term: nat, s: State, s1: State, now: nat, m: Keymap, e: Event)
    requires s.out <= s1.out && Barrier(Since(s.out, s1.out)).None? && SamePress(s, s1)
    requires PendingAt(term, s1, now) && Settled(term, s1) && FromCaller(e)
    requires now <= e.at < s.tapping.event.at + 0x1_0000
    requires e.at >= s.tapping.event.at + term || OwnRelease(s.tapping, e)
    ensures var s2 := Process(term, m, s1, e);
            s.out <= s2.out &&
            var b := Barrier(Since(s.out, s2.out));
            b.Some? && Executes(s, b.value, if e.at < s.tapping.event.at + term then 1 else 0)
  {
    hide Process;
    hide Settled;
    hide Later;
    hide Sound;
    VerdictOfCall(term, m, s1, e, now);
    SinceTrans(s.out, s1.out, Process(term, m, s1, e).out);
  }

  /** The deciding call, after calls that decided nothing. */
  lemma DecidedAt(term: nat, s: State, now: nat, inputs: seq<Input>, k: nat)
    requires PendingAt(term, s, now) && Settled(term, s) && WellFormed(inputs) && InOrder(now, inputs)
    requires k < |inputs| && inputs[k].event.at < s.tapping.event.at + 0x1_0000
    requires k == Decider(term, s.tapping, inputs)
    ensures Decided(term, s, inputs[..k + 1], if inputs[k].event.at < s.tapping.event.at + term then 1 else 0)
  {
    hide Process;
    hide Settled;
    hide Later;
    hide Barrier;
    hide Sound;
    hide NoEvent;
    hide Stamp;
    hide Executes;
    hide Decider;
    hide OwnRelease;
    hide Undecided;
    var m, e := inputs[k].keymap, inputs[k].event;
    assert forall i :: 0 <= i < k ==> inputs[i].event.at <= e.at;
    StillPending(term, s, now, inputs[..k]);
    var s1 := Run(term, s, inputs[..k]);
    assert inputs[..k + 1][..k] == inputs[..k];
    assert Run(term, s, inputs[..k + 1]) == Process(term, m, s1, e);
    if Barrier(Since(s.out, s1.out)).None? {
      DecidedBy(term, s, s1, if k == 0 then now else inputs[k - 1].event.at, m, e);
    } else {
      RunSound(term, s, inputs[..k]);
      ProcessSound(term, m, s1, e);
      SinceTrans(s.out, s1.out, Process(term, m, s1, e).out);
    }
  }

  /** The press was released in time exactly if the deciding call comes within the term. */
  lemma DeciderInTime(term: nat, s: State, now: nat, inputs: seq<Input>, j: nat)
    requires !ReleasedInTime(term, s, []) && InOrder(now, inputs)
    requires j < |inputs| && s.tapping.event.at + term <= inputs[j].event.at
    ensures var k := Decider(term, s.tapping, inputs);
            k <= j && inputs[k].event.at <= inputs[j].event.at &&
            (ReleasedInTime(term, s, inputs) <==> inputs[k].event.at < s.tapping.event.at + term)
  {
    hide OwnRelease;
    hide Decider;
    var k := Decider(term, s.tapping, inputs);
    assert forall i :: k <= i < |inputs| ==> inputs[k].event.at <= inputs[i].event.at;
  }

  /** A settled press with only later events queued gets the verdict of unbounded time, provided
      some call falls between the end of its term and the next turn of the timer. */
  lemma VerdictWhenSettled(term: nat, s: State, now: nat, inputs: seq<Input>, j: nat)
    requires PendingAt(term, s, now) && Settled(term, s) && Suitable(term, s, now, inputs, j)
    ensures CorrectVerdict(term, s, inputs)
  {
    hide Run;
    hide Settled;
    hide Decider;
    hide Decided;
    hide ReleasedInTime;
    hide NoEvent;
    hide Sound;
    hide Later;
    var k := Decider(term, s.tapping, inputs);
    QueueNotInTime(term, s, now);
    DeciderInTime(term, s, now, inputs, j);
    DecidedAt(term, s, now, inputs, k);
    assert inputs == inputs[..k + 1] + inputs[k + 1..];
    DecidedStays(term, s, inputs[..k + 1], inputs[k + 1..],
                 if inputs[k].event.at < s.tapping.event.at + term then 1 else 0);
  }

  lemma QueueNotInTime(term: nat, s: State, now: nat)
    requires PendingAt(term, s, now) && now < s.tapping.event.at + 0x1_0000
    ensures Settled(term, s) <==> !ReleasedInTime(term, s, [])
  {
    forall i | 0 <= i < |s.waiting|
      ensures WithinTerm(term, s.tapping, s.waiting[i].event) <==> s.waiting[i].event.at < s.tapping.event.at + term
    {
      TermExact(term, s.tapping, s.waiting[i].event);
    }
  }

  /** A queued release that would have settled the press is overlooked: a tick after the term
      decides for a hold. */
  lemma VerdictWhenUnsettled(term: nat, s: State, now: nat, m: Keymap) returns (inputs: seq<Input>)
    requires PendingAt(term, s, now) && !Settled(term, s)
    requires term < 0x1_0000 && now < s.tapping.event.at + 0x1_0000
    ensures Suitable(term, s, now, inputs, 0) && !CorrectVerdict(term, s, inputs)
  {
    hide Offer;
    hide Settled;
    hide ReleasedInTime;
    var at := if now < s.tapping.event.at + term then s.tapping.event.at + term else now;
    var tick := Event(NO_KEY, false, at);
    inputs := [Input(tick, m)];
    assert inputs[..0] == [];
    assert Run(term, s, inputs) == Process(term, m, s, tick);
    var a := Accept(term, m, s, tick);
    OfferToUndecided(term, m, s, Record(tick, NO_TAP));
    OfferSound(term, m, s, Record(tick, NO_TAP));
    TermExact(term, s.tapping, tick);
    DrainSound(term, m, a);
    SinceTrans(s.out, a.out, Drain(term, m, a).out);
    QueueNotInTime(term, s, now);
    MoreInputs(term, s, inputs);
  }

  lemma MoreInputs(term: nat, s: State, inputs: seq<Input>)
    requires ReleasedInTime(term, s, [])
    ensures ReleasedInTime(term, s, inputs)
  {}

  /** The exact condition: with only later events queued, every sequence of calls leads to the verdict
      of unbounded time if and only if no release that would settle the press is queued already. */
  lemma VerdictIffSettled(term: nat, s: State, now: nat)
    requires PendingAt(term, s, now) && term < 0x1_0000 && now < s.tapping.event.at + 0x1_0000
    ensures Settled(term, s) <==>
            forall inputs, j :: Suitable(term, s, now, inputs, j) ==> CorrectVerdict(term, s, inputs)
  {
    hide CorrectVerdict;
    hide Suitable;
    if Settled(term, s) {
      forall inputs, j | Suitable(term, s, now, inputs, j)
        ensures CorrectVerdict(term, s, inputs)
      {
        VerdictWhenSettled(term, s, now, inputs, j);
      }
    } else {
      var m := Keymap((_, _) => false, (_, _) => OtherAction);
      var inputs := VerdictWhenUnsettled(term, s, now, m);
    }
  }

  /** A tap key is pressed again after its tap was released and another key was pressed since: the
      press becomes pending without a scan of the queue. */
  predicate Restart(term: nat, s: State, r: Record) {
    && IsTapping(s.tapping) && !s.tapping.event.pressed && WithinTerm(term, s.tapping, r.event)
    && r.event.pressed && r.event.key == s.tapping.event.key && s.tapping.tap.interrupted
  }

  /** Every other way of becoming pending scans the queue, so the press starts out settled. */
  lemma StartsSettled(term: nat, m: Keymap, s: State, r: Record)
    requires SoundTapping(s.tapping) && SoundRecord(r) && !Undecided(s)
    requires Undecided(Offer(term, m, s, r).state) && !Restart(term, s, r)
    ensures Settled(term, Offer(term, m, s, r).state) && Offer(term, m, s, r).state.tapping == r
  {}

  // ---- older events

  /** Every queued event is older than time `now`, by no more than the timer can tell apart from later ones. */
  predicate OlderThan(term: nat, waiting: seq<Record>, now: nat) {
    forall i :: 0 <= i < |waiting| ==> waiting[i].event.at < now <= waiting[i].event.at + 0x1_0000 - term
  }

  /** The wrapped difference to an older event is past the term. */
  lemma OlderNotWithin(term: nat, t: Record, w: Event)
    requires w.at < t.event.at <= w.at + 0x1_0000 - term
    ensures !WithinTerm(term, t, w)
  {
    if term > 0 {
      WrapExact(t.event.at, w.at);
      assert (Stamp(w) - Stamp(t.event)) % 0x1_0000 == 0x1_0000 - (t.event.at - w.at);
    }
  }

  /** An undecided press behind an older event is executed as held when the queue is drained. */
  lemma OlderHeadForcesHold(term: nat, m: Keymap, s: State)
    requires Undecided(s) && s.waiting != []
    requires s.waiting[0].event.at < s.tapping.event.at <= s.waiting[0].event.at + 0x1_0000 - term
    ensures Drain(term, m, s) == State(NO_RECORD, s.waiting, s.out + [Genuine(s.tapping)])
  {
    OlderNotWithin(term, s.tapping, s.waiting[0].event);
    assert s.waiting[0 := s.waiting[0]] == s.waiting;
  }

  /** A tap key becomes pending while everything queued is older: the very call that brings the press
      executes it, as held, if and only if the queue is not empty. */
  lemma OlderQueueForcesHold(term: nat, m: Keymap, s: State, e: Event)
    requires Sound(s) && !Undecided(s) && FromCaller(e) && OlderThan(term, s.waiting, e.at)
    requires Undecided(Offer(term, m, s, Record(e, NO_TAP)).state)
    ensures var p := Offer(term, m, s, Record(e, NO_TAP)).state;
            var s' := Process(term, m, s, e);
            && p.tapping == Record(e, NO_TAP) && p.waiting == s.waiting
            && (if s.waiting == [] then s' == p
                else s' == State(NO_RECORD, s.waiting, p.out + [Genuine(Record(e, NO_TAP))]))
            && (Genuine(Record(e, NO_TAP)) in s'.out[|p.out|..] <==> s.waiting != [])
  {
    var p := Offer(term, m, s, Record(e, NO_TAP)).state;
    PendingFromOffer(term, m, s, Record(e, NO_TAP));
    if s.waiting != [] { OlderHeadForcesHold(term, m, p); }
  }

  /** A record that becomes pending is consumed and leaves the queue as it is. */
  lemma PendingFromOffer(term: nat, m: Keymap, s: State, r: Record)
    requires SoundTapping(s.tapping) && SoundRecord(r) && !Undecided(s)
    requires Undecided(Offer(term, m, s, r).state)
    ensures var x := Offer(term, m, s, r);
            x.done && x.state.tapping == r && r.event.pressed && x.state.waiting == s.waiting
  {}
}

/** What a tap makes of the calls that follow it: its release, the next tap, and the keys in between. */
module TappingTaps {
  import opened TappingModel
  import opened TappingLedger
  import opened TappingTrace
  import opened TappingVerdict
  import opened TappingRuns

  // ---- the release of a tap

  /** In every run, whatever keys are queued: the release of a tap whose key is still down is executed first of
      all, with the tap state with which the press was executed. The tap is remembered only within its term. */
  lemma TapReleased(term: nat, inputs: seq<Input>, m: Keymap, e: Event)
    requires WellFormed(inputs) && FromCaller(e)
    requires var t := Run(term, INITIAL, inputs).tapping; IsTapping(t) && t.event.pressed && t.tap.count > 0
    requires OwnRelease(Run(term, INITIAL, inputs).tapping, e)
    ensures var s, s' := Run(term, INITIAL, inputs), Run(term, INITIAL, inputs + [Input(e, m)]);
            && s.out + [Genuine(Record(e, s.tapping.tap))] <= s'.out && Genuine(s.tapping) in s.out
            && (s.waiting == [] ==>
                  s'.tapping == if WithinTerm(term, s.tapping, e) then Record(e, s.tapping.tap) else NO_RECORD)
  {
    var s := Run(term, INITIAL, inputs);
    TraceIsSound(term, inputs);
    ReachableIsSound(term, inputs);
    CallAfter(term, inputs, Input(e, m));
    OfferSound(term, m, s, Record(e, NO_TAP));
    DrainSound(term, m, Accept(term, m, s, e));
  }

  lemma CallAfter(term: nat, inputs: seq<Input>, x: Input)
    ensures Run(term, INITIAL, inputs + [x]) == Process(term, x.keymap, Run(term, INITIAL, inputs), x.event)
  {
    assert (inputs + [x])[..|inputs|] == inputs;
  }

  /** Other keys while the key of a tap is still down, with nothing queued: a tap key takes over, and the release of
      a tap of count above 1 is made up; all else is just executed. */
  lemma WhileTapHeld(term: nat, m: Keymap, s: State, e: Event)
    requires Sound(s) && s.waiting == [] && IsTapping(s.tapping) && s.tapping.event.pressed && s.tapping.tap.count > 0
    requires FromCaller(e) && !NoEvent(e) && !OwnRelease(s.tapping, e)
    ensures var r, ended := Record(e, NO_TAP), Record(Event(s.tapping.event.key, false, e.at), s.tapping.tap);
            Process(term, m, s, e) ==
            if !e.pressed || !m.isTap(s.out, r) then State(s.tapping, [], s.out + [Genuine(r)])
            else State(r, [], s.out + if s.tapping.tap.count > 1 then [Synthetic(ended)] else [])
  {
    assert s.out + [] == s.out;
  }

  /** Other keys within the term after a tap, with nothing queued: a tap key takes over, any other press is executed
      and marks the tap as interrupted, a release is just executed. */
  lemma AfterTap(term: nat, m: Keymap, s: State, e: Event)
    requires Sound(s) && s.waiting == [] && IsTapping(s.tapping) && !s.tapping.event.pressed
    requires FromCaller(e) && !NoEvent(e) && WithinTerm(term, s.tapping, e)
    requires e.pressed ==> e.key != s.tapping.event.key
    ensures var r := Record(e, NO_TAP);
            Process(term, m, s, e) ==
            if e.pressed && m.isTap(s.out, r) then State(r, [], s.out)
            else if e.pressed then State(s.tapping.(tap := Tap(true, s.tapping.tap.count)), [], s.out + [Genuine(r)])
            else State(s.tapping, [], s.out + [Genuine(r)])
  {}

  // ---- the next press of the same key

  /** A key pressed again while its released tap is remembered. Within the term, if no other key was pressed since,
      the press is executed at once, as one tap more. If one was pressed, it becomes pending. After the term
      nothing is remembered. */
  lemma TapAgain(term: nat, gap: nat, inputs: seq<Input>, m: Keymap, e: Event)
    requires Frequent(term, gap)
    requires WellFormed(inputs + [Input(e, m)]) && Ticking(gap, inputs + [Input(e, m)])
    requires var t := Run(term, INITIAL, inputs).tapping;
             IsTapping(t) && !t.event.pressed && e.pressed && e.key == t.event.key
    ensures var s, s' := Run(term, INITIAL, inputs), Run(term, INITIAL, inputs + [Input(e, m)]);
            var count := if s.tapping.tap.count < 15 then s.tapping.tap.count + 1 else 15;
            var again, first := Record(e, Tap(false, count)), Record(e, NO_TAP);
            s' == if WithinTerm(term, s.tapping, e) && !s.tapping.tap.interrupted
                  then State(again, [], s.out + [Genuine(again)])
                  else if WithinTerm(term, s.tapping, e) || m.isTap(s.out, first) then State(first, [], s.out)
                  else State(NO_RECORD, [], s.out + [Genuine(first)])
  {
    var s := Run(term, INITIAL, inputs);
    LastCall(gap, inputs, Input(e, m));
    RunFlow(term, gap, inputs);
    CallAfter(term, inputs, Input(e, m));
    AgainOf(term, m, s, e);
  }

  lemma AgainOf(term: nat, m: Keymap, s: State, e: Event)
    requires SoundTapping(s.tapping) && FromCaller(e) && s.waiting == []
    requires IsTapping(s.tapping) && !s.tapping.event.pressed && e.pressed && e.key == s.tapping.event.key
    ensures var count := if s.tapping.tap.count < 15 then s.tapping.tap.count + 1 else 15;
            var again, first := Record(e, Tap(false, count)), Record(e, NO_TAP);
            Process(term, m, s, e) ==
            if WithinTerm(term, s.tapping, e) && !s.tapping.tap.interrupted
            then State(again, [], s.out + [Genuine(again)])
            else if WithinTerm(term, s.tapping, e) || m.isTap(s.out, first) then State(first, [], s.out)
            else State(NO_RECORD, [], s.out + [Genuine(first)])
  {
    hide WithinTerm;
    var first := Record(e, NO_TAP);
    if !WithinTerm(term, s.tapping, e) {
      var a := State(NO_RECORD, [first], s.out);
      assert [] + [first] == [first];
      assert Accept(term, m, s, e) == a;
      var x := Offer(term, m, a, first);
      assert FirstSettler(term, first, [first]) == 1;
      assert x == if m.isTap(s.out, first) then Offered(State(first, [first], s.out), first, true)
                  else Offered(State(NO_RECORD, [first], s.out + [Genuine(first)]), first, true);
      assert x.state.(waiting := x.state.waiting[1..]).waiting == [];
      assert Process(term, m, s, e) == Drain(term, m, a);
      assert Drain(term, m, a) == Drain(term, m, x.state.(waiting := []));
    } else {
      assert Process(term, m, s, e) == Accept(term, m, s, e);
    }
  }

  // ---- other keys while a press is undecided

  /** A release of another key within the term of an undecided press, with no press of it queued: it is executed
      at once, except that releases of modifiers are kept back in the queue. */
  lemma OtherRelease(term: nat, m: Keymap, s: State, e: Event)
    requires Undecided(s) && WithinTerm(term, s.tapping, e) && !NoEvent(e) && !Full(s.waiting)
    requires !e.pressed && e.key != s.tapping.event.key
    ensures var queued := exists i :: 0 <= i < |s.waiting| && s.waiting[i].event.key == e.key &&
                                      s.waiting[i].event.pressed;
            var modifier := match m.action(s.out, e.key)
                            case Mods(mods, code) => 0xE0 <= code <= 0xE7 || (mods != 0 && code == 0)
                            case ModsTap(mods, code) => 0xE0 <= code <= 0xE7 || mods != 0
                            case OtherAction => false;
            Accept(term, m, s, e) ==
            if queued || modifier then State(s.tapping, s.waiting + [Record(e, NO_TAP)], s.out)
            else State(s.tapping, s.waiting, s.out + [Genuine(Record(e, NO_TAP))])
  {}

  /** While the press is undecided it is marked when another key is pressed. */
  predicate Marked(s: State) {
    (exists i :: 0 <= i < |s.waiting| && s.waiting[i].event.pressed) ==> s.tapping.tap.interrupted
  }

  lemma {:induction false} DrainMark(term: nat, m: Keymap, s: State)
    requires Sound(s) && Undecided(s) && Marked(s)
    ensures var s' := Drain(term, m, s);
            s.out <= s'.out &&
            (Barrier(Since(s.out, s'.out)).None? ==> s'.tapping == s.tapping && Marked(s'))
    decreases |s.waiting|
  {
    hide Offer;
    DrainSound(term, m, s);
    if s.waiting != [] {
      var r := s.waiting[0];
      var x := Offer(term, m, s, r);
      OfferSound(term, m, s, r);
      OfferToUndecided(term, m, s, r);
      if Undecided(x.state) {
        KeepsMark(term, m, s, r);
        if x.done {
          var rest := x.state.(waiting := x.state.waiting[1..]);
          assert forall i :: 0 <= i < |rest.waiting| ==> rest.waiting[i] == s.waiting[i + 1];
          DrainMark(term, m, rest);
          SinceTrans(s.out, rest.out, Drain(term, m, rest).out);
        } else {
          assert x.state.waiting[0 := x.rec] == s.waiting;
        }
      }
    }
  }

  lemma KeepsMark(term: nat, m: Keymap, s: State, r: Record)
    requires Undecided(s) && Undecided(Offer(term, m, s, r).state)
    ensures var t := Offer(term, m, s, r).state.tapping;
            t == s.tapping.(tap := s.tapping.tap.(interrupted := s.tapping.tap.interrupted || r.event.pressed))
  {}

  /** One call that leaves the press undecided. */
  lemma CallMark(term: nat, m: Keymap, s: State, e: Event)
    requires Sound(s) && |s.waiting| < WAITING_BUFFER_SIZE && Undecided(s) && Marked(s) && FromCaller(e)
    requires s.out <= Process(term, m, s, e).out && Barrier(Since(s.out, Process(term, m, s, e).out)).None?
    ensures var s' := Process(term, m, s, e);
            SamePress(s, s') && Marked(s') &&
            s'.tapping.tap.interrupted == (s.tapping.tap.interrupted || e.pressed)
  {
    hide Offer;
    var r := Record(e, NO_TAP);
    var x, a := Offer(term, m, s, r), Accept(term, m, s, e);
    OfferSound(term, m, s, r);
    OfferToUndecided(term, m, s, r);
    DrainSound(term, m, a);
    SinceTrans(s.out, a.out, Drain(term, m, a).out);
    ProcessPressFirst(term, m, s, e);
    if Undecided(x.state) {
      KeepsMark(term, m, s, r);
      if Undecided(a) { DrainMark(term, m, a); }
    }
  }

  /** From the moment at which a press becomes pending with nothing queued, for as long as nothing but plain
      releases is executed: the press is marked as interrupted if and only if some key was pressed since. */
  lemma {:induction false} MarkedIff(term: nat, s: State, inputs: seq<Input>)
    requires Sound(s) && Undecided(s) && s.waiting == [] && !s.tapping.tap.interrupted && WellFormed(inputs)
    requires s.out <= Run(term, s, inputs).out && Barrier(Since(s.out, Run(term, s, inputs).out)).None?
    ensures var s' := Run(term, s, inputs);
            SamePress(s, s') && Marked(s') &&
            (s'.tapping.tap.interrupted <==> exists i :: 0 <= i < |inputs| && inputs[i].event.pressed)
  {
    hide Process;
    hide Barrier;
    if inputs != [] {
      var n := |inputs| - 1;
      var s1 := Run(term, s, inputs[..n]);
      var m, e := inputs[n].keymap, inputs[n].event;
      RunSound(term, s, inputs[..n]);
      ProcessSound(term, m, s1, e);
      SinceTrans(s.out, s1.out, Process(term, m, s1, e).out);
      MarkedIff(term, s, inputs[..n]);
      CallMark(term, m, s1, e);
      assert forall i :: 0 <= i < n ==> inputs[..n][i] == inputs[i];
    }
  }

  // ---- a row of taps

  /** One key is pressed and released in turn, each time within the term. */
  predicate Quick(term: nat, inputs: seq<Input>, k: Key) {
    forall j :: 0 <= j < |inputs| ==> QuickAt(term, inputs, k, j)
  }

  predicate QuickAt(term: nat, inputs: seq<Input>, k: Key, j: nat)
    requires j < |inputs|
  {
    var e := inputs[j].event;
    && e.key == k && !NoEvent(e) && e.pressed == (j % 2 == 0)
    && (j > 0 ==> inputs[j - 1].event.at <= e.at < inputs[j - 1].event.at + term)
  }

  function Nth(n: nat): Tap { Tap(false, if n < 15 then n else 15) }

  /** Both events of tap number 1, 2, and so on with its number, which stays at 15. */
  function TapTrace(inputs: seq<Input>, n: nat): seq<Emission>
    requires 2 * n <= |inputs|
  {
    if n == 0 then []
    else
      var down, up := inputs[2 * n - 2].event, inputs[2 * n - 1].event;
      TapTrace(inputs, n - 1) + [Genuine(Record(down, Nth(n)))] + [Genuine(Record(up, Nth(n)))]
  }

  lemma WithinQuick(term: nat, t: Record, e: Event)
    requires t.event.at <= e.at < t.event.at + term && term <= 0x1_0000
    ensures WithinTerm(term, t, e)
  {
    TermExact(term, t, e);
  }

  /** The release of a tap, with nothing queued. */
  lemma ReleaseOf(term: nat, m: Keymap, s: State, e: Event)
    requires IsTapping(s.tapping) && s.tapping.event.pressed && OwnRelease(s.tapping, e) && !NoEvent(e)
    requires s.waiting == [] && WithinTerm(term, s.tapping, e)
    ensures var c := if s.tapping.tap.count > 0 then s.tapping.tap.count else 1;
            var press, release := s.tapping.(tap := s.tapping.tap.(count := c)), Record(e, s.tapping.tap.(count := c));
            Process(term, m, s, e)
            == State(release, [],
                     s.out + (if s.tapping.tap.count > 0 then [] else [Genuine(press)]) + [Genuine(release)])
  {
    if s.tapping.tap.count == 0 {
      var press := s.tapping.(tap := s.tapping.tap.(count := 1));
      var release := Record(e, press.tap);
      var a := State(press, [release], s.out + [Genuine(press)]);
      assert [] + [release] == [release];
      assert Accept(term, m, s, e) == a;
      var x := Offer(term, m, a, release);
      assert x == Offered(State(release, [release], a.out + [Genuine(release)]), release, true);
      assert x.state.waiting[1..] == [];
      assert Drain(term, m, a) == Drain(term, m, x.state.(waiting := []));
    } else {
      assert s.out + [] == s.out;
    }
  }

  lemma FirstDown(term: nat, m: Keymap, e: Event)
    requires !NoEvent(e) && e.pressed && m.isTap([], Record(e, NO_TAP))
    ensures Process(term, m, INITIAL, e) == State(Record(e, NO_TAP), [], [])
  {}

  /** One tap more. */
  lemma NextTap(term: nat, m: Keymap, m': Keymap, s: State, down: Event, up: Event, n: nat)
    requires !NoEvent(down) && !NoEvent(up) && down.pressed && !up.pressed && down.key == up.key && n > 0
    requires down.at <= up.at < down.at + term && term <= 0x1_0000
    requires if n == 1 then s == INITIAL && m.isTap([], Record(down, NO_TAP))
             else s == State(Record(s.tapping.event, Nth(n - 1)), [], s.out) && WithinTerm(term, s.tapping, down) &&
                  IsTapping(s.tapping) && !s.tapping.event.pressed && s.tapping.event.key == down.key
    ensures Process(term, m', Process(term, m, s, down), up)
            == State(Record(up, Nth(n)), [],
                     s.out + [Genuine(Record(down, Nth(n)))] + [Genuine(Record(up, Nth(n)))])
  {
    hide Process;
    hide WithinTerm;
    if n == 1 { FirstDown(term, m, down); } else { AgainOf(term, m, s, down); }
    var s1 := Process(term, m, s, down);
    WithinQuick(term, s1.tapping, up);
    ReleaseOf(term, m', s1, up);
  }

  lemma LastTwo(term: nat, inputs: seq<Input>)
    requires |inputs| >= 2
    ensures var n := |inputs| - 2;
            Run(term, INITIAL, inputs) ==
            Process(term, inputs[n + 1].keymap,
                    Process(term, inputs[n].keymap, Run(term, INITIAL, inputs[..n]), inputs[n].event),
                    inputs[n + 1].event)
  {
    hide Process;
    var n := |inputs| - 2;
    assert inputs[..n + 1][..n] == inputs[..n];
  }

  lemma QuickTap(term: nat, inputs: seq<Input>, k: Key, n: nat)
    requires Quick(term, inputs, k) && 0 < n && |inputs| == 2 * n
    ensures Quick(term, inputs[..2 * n - 2], k)
    ensures var down, up := inputs[2 * n - 2].event, inputs[2 * n - 1].event;
            && !NoEvent(down) && !NoEvent(up) && down.pressed && !up.pressed && down.key == up.key
            && down.at <= up.at < down.at + term
            && (n > 1 ==> var last := inputs[2 * n - 3].event;
                          !NoEvent(last) && !last.pressed && last.key == down.key &&
                          last.at <= down.at < last.at + term)
  {
    hide NoEvent;
    assert QuickAt(term, inputs, k, 2 * n - 2) && QuickAt(term, inputs, k, 2 * n - 1);
    assert n > 1 ==> QuickAt(term, inputs, k, 2 * n - 3);
    var before := inputs[..2 * n - 2];
    forall j | 0 <= j < |before|
      ensures QuickAt(term, before, k, j)
    {
      assert QuickAt(term, inputs, k, j);
    }
  }

  /** Quick taps of one tap key, however many: each press and its release are executed as they come, with the
      number of the tap. */
  lemma {:induction false} TapsCount(term: nat, inputs: seq<Input>, k: Key, n: nat)
    requires Quick(term, inputs, k) && term <= 0x1_0000 && 0 < n && |inputs| == 2 * n
    requires inputs[0].keymap.isTap([], Record(inputs[0].event, NO_TAP))
    ensures Run(term, INITIAL, inputs) == State(Record(inputs[2 * n - 1].event, Nth(n)), [], TapTrace(inputs, n))
  {
    hide Process;
    hide WithinTerm;
    hide NoEvent;
    QuickTap(term, inputs, k, n);
    hide Quick;
    var before, down, up := inputs[..2 * n - 2], inputs[2 * n - 2], inputs[2 * n - 1];
    LastTwo(term, inputs);
    if n == 1 {
      assert before == [] && Run(term, INITIAL, before) == INITIAL;
    } else {
      TapsCount(term, before, k, n - 1);
      hide Run;
      SameTaps(before, inputs, n - 1);
      assert before[2 * (n - 1) - 1] == inputs[2 * n - 3];
      WithinQuick(term, Run(term, INITIAL, before).tapping, down.event);
    }
    NextTap(term, down.keymap, up.keymap, Run(term, INITIAL, before), down.event, up.event, n);
  }

  lemma {:induction false} SameTaps(a: seq<Input>, b: seq<Input>, n: nat)
    requires 2 * n <= |a| <= |b| && a == b[..|a|]
    ensures TapTrace(a, n) == TapTrace(b, n)
  {
    if n > 0 { SameTaps(a, b, n - 1); }
  }

  // ---- keys that are no tap keys

  function Plain(inputs: seq<Input>): seq<Emission> {
    if inputs == [] then []
    else
      var e := inputs[|inputs| - 1].event;
      Plain(inputs[..|inputs| - 1]) + if NoEvent(e) then [] else [Genuine(Record(e, NO_TAP))]
  }

  /** Without tap keys every event is executed when it comes, unchanged. */
  lemma {:induction false} PlainKeysPass(term: nat, inputs: seq<Input>)
    requires forall i, out, r :: 0 <= i < |inputs| ==> !inputs[i].keymap.isTap(out, r)
    ensures Run(term, INITIAL, inputs) == State(NO_RECORD, [], Plain(inputs))
  {
    if inputs != [] {
      var before := inputs[..|inputs| - 1];
      assert forall i :: 0 <= i < |before| ==> before[i] == inputs[i];
      PlainKeysPass(term, before);
    }
  }
}

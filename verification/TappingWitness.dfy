/**
Two sequences of calls from the initial state after which a tapped key is taken for held, and one in which a
press and its release are executed with different counts.

In the first, key K is held while P is tapped, X is pressed, P is pressed again, Q is pressed, and P is
released. When K's term ends the queue is drained up to Q: P's second press stays undecided, with
its own release overlooked behind Q. In the second, X ends the terms of K and P in one call and stays in
the queue; tap key L, pressed next, is executed as held at once. The third goes on from the first: P is pressed
and released once more, and this later release makes P's second press a tap, while its own release stays in
the queue behind tap key Q and is executed as the release of a held key.
*/
module TappingWitness {
  import opened TappingModel
  import opened TappingLedger
  import opened TappingVerdict
  import opened TappingRuns
  import opened TappingPairs
  import opened Common

  const TERM := 200
  const K := Key(0, 0)
  const P := Key(0, 1)
  const X := Key(0, 2)
  const Q := Key(0, 3)
  const L := Key(0, 4)

  const HOLD_K := Record(Event(K, true, 1), NO_TAP)
  const P_DOWN := Record(Event(P, true, 11), NO_TAP)
  const P_UP := Record(Event(P, false, 21), NO_TAP)
  const X_DOWN := Record(Event(X, true, 31), NO_TAP)
  const P_AGAIN := Record(Event(P, true, 41), NO_TAP)
  const Q_DOWN := Record(Event(Q, true, 51), NO_TAP)
  const P_OFF := Record(Event(P, false, 61), NO_TAP)
  const QUEUE := [P_DOWN, P_UP, X_DOWN, P_AGAIN, Q_DOWN, P_OFF]
  const TICK := Event(NO_KEY, false, 201)

  function Layout(): Keymap {
    Keymap((_, r: Record) => r.event.key != X, (_, _) => OtherAction)
  }

  function Calls(es: seq<Event>): seq<Input> { seq(|es|, i requires 0 <= i < |es| => Input(es[i], Layout())) }

  /** K is pending and has seen another key. */
  function Held(waiting: seq<Record>): State { State(HOLD_K.(tap := Tap(true, 0)), waiting, []) }

  lemma {:induction false} CallsAppend(s: State, es: seq<Event>, e: Event)
    ensures Run(TERM, s, Calls(es + [e])) == Process(TERM, Layout(), Run(TERM, s, Calls(es)), e)
  {
    hide Process;
    assert Calls(es + [e])[..|es|] == Calls(es);
  }

  /** Behind an undecided press, with a press at the head of the queue, an event just joins the queue. */
  lemma Stalls(m: Keymap, s: State, r: Record)
    requires Undecided(s) && !Full(s.waiting) && !NoEvent(r.event) && !OwnRelease(s.tapping, r.event) && r.tap == NO_TAP
    requires var w := (s.waiting + [r])[0].event; w.pressed && WithinTerm(TERM, s.tapping, w)
    requires WithinTerm(TERM, s.tapping, r.event) && (r.event.pressed || Typed(s.waiting, r.event))
    ensures Process(TERM, m, s, r.event) ==
            State(s.tapping.(tap := s.tapping.tap.(interrupted := true)), s.waiting + [r], s.out)
  {
    var queue := s.waiting + [r];
    var a := Accept(TERM, m, s, r.event);
    assert a.waiting == queue && a.out == s.out && Undecided(a);
    assert queue[0 := queue[0]] == queue;
  }

  /** While K is pending the six events pile up. */
  lemma {:induction false} Pile(n: nat)
    requires 1 <= n <= 6
    ensures Run(TERM, INITIAL, Calls([HOLD_K.event] + EventsOf(QUEUE[..n]))) == Held(QUEUE[..n])
  {
    hide Process;
    hide Run;
    var r := QUEUE[n - 1];
    var before := QUEUE[..n - 1];
    assert QUEUE[..n] == before + [r];
    assert [HOLD_K.event] + EventsOf(QUEUE[..n]) == ([HOLD_K.event] + EventsOf(before)) + [r.event];
    CallsAppend(INITIAL, [HOLD_K.event] + EventsOf(before), r.event);
    if n == 1 {
      assert [HOLD_K.event] + EventsOf(before) == [HOLD_K.event];
      FirstPress();
      Stalls(Layout(), State(HOLD_K, [], []), r);
    } else {
      Pile(n - 1);
      assert before[0] == P_DOWN;
      assert !r.event.pressed ==> Typed(before, r.event);
      Stalls(Layout(), Held(before), r);
    }
  }

  function EventsOf(rs: seq<Record>): seq<Event> { seq(|rs|, i requires 0 <= i < |rs| => rs[i].event) }

  lemma FirstPress()
    ensures Run(TERM, INITIAL, Calls([HOLD_K.event])) == State(HOLD_K, [], [])
  {
    CallsAppend(INITIAL, [], HOLD_K.event);
    assert [] + [HOLD_K.event] == [HOLD_K.event];
  }

  // ---- the tick: one lemma for each record drained

  function OneTap(r: Record): Record { r.(tap := Tap(false, 1)) }

  lemma Tick()
    ensures Process(TERM, Layout(), Held(QUEUE), TICK)
            == Drain(TERM, Layout(), State(NO_RECORD, QUEUE, [Genuine(HOLD_K.(tap := Tap(true, 0)))]))
  {
    hide Drain;
    assert !WithinTerm(TERM, HOLD_K, TICK);
    var held := HOLD_K.(tap := Tap(true, 0));
    assert Emit([], held) == [Genuine(held)];
  }

  lemma DrainTap(out: seq<Emission>)
    ensures Drain(TERM, Layout(), State(NO_RECORD, QUEUE, out))
            == Drain(TERM, Layout(),
                     State(OneTap(P_DOWN), [OneTap(P_UP)] + QUEUE[2..], out + [Genuine(OneTap(P_DOWN))]))
  {
    assert FirstSettler(TERM, P_DOWN, QUEUE) == 1;
    assert QUEUE[1 := OneTap(P_UP)][1..] == [OneTap(P_UP)] + QUEUE[2..];
  }

  lemma DrainRelease(rest: seq<Record>, out: seq<Emission>)
    ensures Drain(TERM, Layout(), State(OneTap(P_DOWN), [OneTap(P_UP)] + rest, out))
            == Drain(TERM, Layout(), State(OneTap(P_UP), rest, out + [Genuine(OneTap(P_UP))]))
  {
    var s := State(OneTap(P_DOWN), [OneTap(P_UP)] + rest, out);
    assert Offer(TERM, Layout(), s, OneTap(P_UP))
        == Offered(State(OneTap(P_UP), s.waiting, out + [Genuine(OneTap(P_UP))]), OneTap(P_UP), true);
    hide Offer;
    assert s.waiting[0] == OneTap(P_UP) && s.waiting[1..] == rest;
  }

  lemma DrainOther(rest: seq<Record>, out: seq<Emission>)
    ensures Drain(TERM, Layout(), State(OneTap(P_UP), [X_DOWN] + rest, out))
            == Drain(TERM, Layout(), State(P_UP.(tap := Tap(true, 1)), rest, out + [Genuine(X_DOWN)]))
  {
    assert ([X_DOWN] + rest)[1..] == rest;
  }

  lemma DrainRestart(rest: seq<Record>, out: seq<Emission>)
    ensures Drain(TERM, Layout(), State(P_UP.(tap := Tap(true, 1)), [P_AGAIN] + rest, out))
            == Drain(TERM, Layout(), State(P_AGAIN, rest, out))
  {
    var s := State(P_UP.(tap := Tap(true, 1)), [P_AGAIN] + rest, out);
    assert Offer(TERM, Layout(), s, P_AGAIN) == Offered(State(P_AGAIN, s.waiting, out), P_AGAIN, true);
    hide Offer;
    assert s.waiting[0] == P_AGAIN && s.waiting[1..] == rest;
  }

  lemma DrainStops(out: seq<Emission>)
    ensures Drain(TERM, Layout(), State(P_AGAIN, [Q_DOWN, P_OFF], out))
            == State(P_AGAIN.(tap := Tap(true, 0)), [Q_DOWN, P_OFF], out)
  {
    assert [Q_DOWN, P_OFF][0 := Q_DOWN] == [Q_DOWN, P_OFF];
  }

  /** Calls within the first 300 ms need no tick. */
  lemma SoonIsTicking(es: seq<Event>)
    requires forall i :: 0 <= i < |es| ==> es[i].at <= 300 && (i > 0 ==> es[i - 1].at <= es[i].at)
    ensures Ticking(300, Calls(es))
  {
    var calls := Calls(es);
    forall i | 0 <= i < |calls|
      ensures Now(calls[..i]) <= calls[i].event.at <= LastTick(calls[..i]) + 300
    {
      assert es[i].at <= 300 && (i > 0 ==> es[i - 1].at <= es[i].at);
    }
  }

  /** What the tick makes of the queue. */
  lemma DrainQueue(out: seq<Emission>)
    ensures var more := [Genuine(OneTap(P_DOWN))] + [Genuine(OneTap(P_UP))] + [Genuine(X_DOWN)];
            Drain(TERM, Layout(), State(NO_RECORD, QUEUE, out))
            == State(P_AGAIN.(tap := Tap(true, 0)), [Q_DOWN, P_OFF], out + more)
  {
    hide Drain;
    DrainTap(out);
    var o1 := out + [Genuine(OneTap(P_DOWN))];
    DrainRelease(QUEUE[2..], o1);
    var o2 := o1 + [Genuine(OneTap(P_UP))];
    assert QUEUE[2..] == [X_DOWN] + [P_AGAIN, Q_DOWN, P_OFF];
    DrainOther([P_AGAIN, Q_DOWN, P_OFF], o2);
    var o3 := o2 + [Genuine(X_DOWN)];
    assert [P_AGAIN, Q_DOWN, P_OFF] == [P_AGAIN] + [Q_DOWN, P_OFF];
    DrainRestart([Q_DOWN, P_OFF], o3);
    DrainStops(o3);
    assert o3 == out + ([Genuine(OneTap(P_DOWN))] + [Genuine(OneTap(P_UP))] + [Genuine(X_DOWN)]);
  }

  /** The state after the first run. */
  lemma FirstRun()
    ensures Run(TERM, INITIAL, Calls([HOLD_K.event] + EventsOf(QUEUE) + [TICK]))
            == State(P_AGAIN.(tap := Tap(true, 0)), [Q_DOWN, P_OFF],
                     [Genuine(HOLD_K.(tap := Tap(true, 0)))] +
                     ([Genuine(OneTap(P_DOWN))] + [Genuine(OneTap(P_UP))] + [Genuine(X_DOWN)]))
  {
    hide Process;
    hide Drain;
    hide Run;
    Pile(6);
    assert QUEUE[..6] == QUEUE;
    CallsAppend(INITIAL, [HOLD_K.event] + EventsOf(QUEUE), TICK);
    Tick();
    DrainQueue([Genuine(HOLD_K.(tap := Tap(true, 0)))]);
  }

  /** An unsettled press is reachable, with only later events queued behind it. */
  lemma UnsettledReachable() returns (inputs: seq<Input>)
    ensures WellFormed(inputs) && Ticking(300, inputs) && Frequent(TERM, 300)
    ensures var s := Run(TERM, INITIAL, inputs); PendingAt(TERM, s, 201) && !Settled(TERM, s)
  {
    hide Run;
    hide Ticking;
    var es := [HOLD_K.event] + EventsOf(QUEUE) + [TICK];
    inputs := Calls(es);
    SoonIsTicking(es);
    FirstRun();
    var s := Run(TERM, INITIAL, inputs);
    assert Settler(TERM, s.tapping, s.waiting[1]);
  }

  // ---- the second run

  const P_LATE := Record(Event(P, true, 51), NO_TAP)
  const X_LATE := Record(Event(X, true, 261), NO_TAP)
  const L_DOWN := Record(Event(L, true, 263), NO_TAP)
  const L_UP := Record(Event(L, false, 270), NO_TAP)

  /** K and P have been executed as held, and X is still queued. */
  const STALE := State(NO_RECORD, [X_LATE], [Genuine(HOLD_K.(tap := Tap(true, 0))), Genuine(P_LATE)])

  lemma LateStarts()
    ensures Process(TERM, Layout(), Held([P_LATE]), X_LATE.event)
            == Drain(TERM, Layout(), State(NO_RECORD, [P_LATE, X_LATE], [Genuine(HOLD_K.(tap := Tap(true, 0)))]))
  {
    hide Drain;
    assert !WithinTerm(TERM, HOLD_K, X_LATE.event);
    var held := HOLD_K.(tap := Tap(true, 0));
    assert Emit([], held) == [Genuine(held)];
    assert [P_LATE] + [X_LATE] == [P_LATE, X_LATE];
  }

  lemma LateStops(out: seq<Emission>)
    ensures Drain(TERM, Layout(), State(NO_RECORD, [P_LATE, X_LATE], out))
            == State(NO_RECORD, [X_LATE], out + [Genuine(P_LATE)])
  {
    var s := State(P_LATE, [X_LATE], out);
    assert FirstSettler(TERM, P_LATE, [P_LATE, X_LATE]) == 2;
    assert [P_LATE, X_LATE][1..] == [X_LATE];
    assert !WithinTerm(TERM, P_LATE, X_LATE.event);
    assert [X_LATE][0 := X_LATE] == [X_LATE];
    assert Drain(TERM, Layout(), s) == State(NO_RECORD, [X_LATE], out + [Genuine(P_LATE)]);
  }

  lemma LateQueue()
    ensures Run(TERM, INITIAL, Calls([HOLD_K.event, P_LATE.event, X_LATE.event])) == STALE
  {
    hide Process;
    hide Drain;
    hide Run;
    FirstPress();
    CallsAppend(INITIAL, [HOLD_K.event], P_LATE.event);
    assert [HOLD_K.event] + [P_LATE.event] == [HOLD_K.event, P_LATE.event];
    assert ([] + [P_LATE])[0] == P_LATE && [] + [P_LATE] == [P_LATE];
    Stalls(Layout(), State(HOLD_K, [], []), P_LATE);
    CallsAppend(INITIAL, [HOLD_K.event, P_LATE.event], X_LATE.event);
    assert [HOLD_K.event, P_LATE.event] + [X_LATE.event] == [HOLD_K.event, P_LATE.event, X_LATE.event];
    LateStarts();
    LateStops([Genuine(HOLD_K.(tap := Tap(true, 0)))]);
  }

  lemma ReleaseFrees(out: seq<Emission>)
    ensures Process(TERM, Layout(), State(NO_RECORD, [X_LATE], out), L_UP.event)
            == State(NO_RECORD, [], out + [Genuine(L_UP), Genuine(X_LATE)])
  {
    var s := State(NO_RECORD, [X_LATE], out + [Genuine(L_UP)]);
    assert Accept(TERM, Layout(), State(NO_RECORD, [X_LATE], out), L_UP.event) == s;
    var s' := State(NO_RECORD, [], s.out + [Genuine(X_LATE)]);
    assert s.waiting[1..] == [];
    assert Drain(TERM, Layout(), s') == s';
    assert Drain(TERM, Layout(), s) == Drain(TERM, Layout(), s');
    assert out + [Genuine(L_UP)] + [Genuine(X_LATE)] == out + [Genuine(L_UP), Genuine(X_LATE)];
  }

  /** An older event in the queue is reachable in a run with frequent ticks; a tap key pressed then and
      released within its term is executed as held, and before the older event. */
  lemma OlderHeadReachable() returns (inputs: seq<Input>)
    ensures WellFormed(inputs) && Ticking(300, inputs) && Frequent(TERM, 300) && |inputs| == 5
    ensures Run(TERM, INITIAL, inputs[..3]) == STALE && inputs[3].event == L_DOWN.event
    ensures var p := Accept(TERM, Layout(), STALE, L_DOWN.event);
            p.tapping == L_DOWN && OlderHead(p) && ReleasedInTime(TERM, p, inputs[4..])
    ensures Run(TERM, INITIAL, inputs)
            == State(NO_RECORD, [], STALE.out + [Genuine(L_DOWN), Genuine(L_UP), Genuine(X_LATE)])
  {
    hide Process;
    hide Run;
    hide Ticking;
    var es := [HOLD_K.event, P_LATE.event, X_LATE.event];
    LateQueue();
    CallsAppend(INITIAL, es, L_DOWN.event);
    OlderQueueForcesHold(TERM, Layout(), STALE, L_DOWN.event);
    CallsAppend(INITIAL, es + [L_DOWN.event], L_UP.event);
    ReleaseFrees(STALE.out + [Genuine(L_DOWN)]);
    inputs := Calls(es + [L_DOWN.event] + [L_UP.event]);
    SoonIsTicking(es + [L_DOWN.event] + [L_UP.event]);
    assert inputs[..3] == Calls(es);
    assert inputs[4..] == [Input(L_UP.event, Layout())];
    assert OwnRelease(L_DOWN, inputs[4..][0].event);
    assert STALE.out + [Genuine(L_DOWN)] + [Genuine(L_UP), Genuine(X_LATE)]
        == STALE.out + [Genuine(L_DOWN), Genuine(L_UP), Genuine(X_LATE)];
  }

  // ---- the third run

  const P_THIRD := Record(Event(P, true, 211), NO_TAP)
  const P_LAST := Record(Event(P, false, 221), NO_TAP)
  const LATE_TICK := Event(NO_KEY, false, 261)
  const P_TAPPED := P_AGAIN.(tap := Tap(true, 1))
  const P_GIVEN := P_LAST.(tap := Tap(true, 1))

  /** The later release makes the second press a tap, and Q becomes pending. */
  lemma LaterReleaseSettles(out: seq<Emission>)
    ensures Process(TERM, Layout(), State(P_AGAIN.(tap := Tap(true, 0)), [Q_DOWN, P_OFF, P_THIRD], out), P_LAST.event)
            == State(Q_DOWN, [P_OFF, P_THIRD, P_GIVEN], out + [Genuine(P_TAPPED)])
  {
    var queue := [Q_DOWN, P_OFF, P_THIRD] + [P_GIVEN];
    var out1 := out + [Genuine(P_TAPPED)];
    assert Accept(TERM, Layout(), State(P_AGAIN.(tap := Tap(true, 0)), [Q_DOWN, P_OFF, P_THIRD], out), P_LAST.event)
        == State(P_TAPPED, queue, out1);
    NextPending(out1);
    StaysTyped(out1);
  }

  lemma NextPending(out: seq<Emission>)
    ensures Drain(TERM, Layout(), State(P_TAPPED, [Q_DOWN, P_OFF, P_THIRD] + [P_GIVEN], out))
            == Drain(TERM, Layout(), State(Q_DOWN, [P_OFF, P_THIRD, P_GIVEN], out))
  {
    var queue := [Q_DOWN, P_OFF, P_THIRD] + [P_GIVEN];
    assert queue[0] == Q_DOWN && queue[1..] == [P_OFF, P_THIRD, P_GIVEN];
    assert FirstSettler(TERM, Q_DOWN, queue) == 4;
  }

  lemma StaysTyped(out: seq<Emission>)
    ensures Drain(TERM, Layout(), State(Q_DOWN, [P_OFF, P_THIRD, P_GIVEN], out))
            == State(Q_DOWN, [P_OFF, P_THIRD, P_GIVEN], out)
  {
    var queue := [P_OFF, P_THIRD, P_GIVEN];
    assert queue[1] == P_THIRD && Typed(queue, P_OFF.event);
    assert queue[0 := P_OFF] == queue;
  }

  /** When Q's term has run out the release left behind is executed without a count. */
  lemma LeftBehind(out: seq<Emission>)
    ensures out + [Genuine(Q_DOWN)] + [Genuine(P_OFF)]
            <= Process(TERM, Layout(), State(Q_DOWN, [P_OFF, P_THIRD, P_GIVEN], out), LATE_TICK).out
  {
    var queue, m := [P_OFF, P_THIRD, P_GIVEN], Layout();
    var a := State(NO_RECORD, queue, out + [Genuine(Q_DOWN)]);
    assert !WithinTerm(TERM, Q_DOWN, LATE_TICK);
    assert Accept(TERM, m, State(Q_DOWN, queue, out), LATE_TICK) == a;
    var b := State(NO_RECORD, queue[1..], a.out + [Genuine(P_OFF)]);
    assert Drain(TERM, m, a) == Drain(TERM, m, b);
    DrainSound(TERM, m, b);
  }

  lemma {:induction false} LastMoveAt(inputs: seq<Input>, k: Key, j: nat, i: nat)
    requires j < i <= |inputs| && inputs[j].event.key == k
    requires forall n :: j < n < i ==> inputs[n].event.key != k
    ensures LastMove(inputs[..i], k) == Some(inputs[j].event.pressed)
    decreases i
  {
    assert inputs[..i][..i - 1] == inputs[..i - 1];
    if j < i - 1 { LastMoveAt(inputs, k, j, i - 1); }
  }

  lemma {:induction false} NoMove(inputs: seq<Input>, k: Key)
    requires forall n :: 0 <= n < |inputs| ==> inputs[n].event.key != k
    ensures LastMove(inputs, k) == None
  {
    if inputs != [] { NoMove(inputs[..|inputs| - 1], k); }
  }

  /** P is pressed and released in turn. */
  lemma PAlternates(inputs: seq<Input>, es: seq<Event>)
    requires es == [HOLD_K.event, P_DOWN.event, P_UP.event, X_DOWN.event, P_AGAIN.event, Q_DOWN.event, P_OFF.event,
                    TICK, P_THIRD.event, P_LAST.event, LATE_TICK]
    requires inputs == Calls(es)
    ensures Alternates(inputs, P)
  {
    hide LastMove;
    assert forall n :: 0 <= n < |inputs| ==> inputs[n].event == es[n];
    NoMove(inputs[..1], P);
    LastMoveAt(inputs, P, 1, 2);
    LastMoveAt(inputs, P, 2, 4);
    LastMoveAt(inputs, P, 4, 6);
    LastMoveAt(inputs, P, 6, 8);
    LastMoveAt(inputs, P, 8, 9);
  }

  const UP_TO_THIRD := [HOLD_K.event] + EventsOf(QUEUE) + [TICK] + [P_THIRD.event]

  /** What was executed before the third press, and what is executed after it. */
  lemma ThirdRun() returns (before: seq<Emission>)
    ensures Run(TERM, INITIAL, Calls(UP_TO_THIRD))
            == State(P_AGAIN.(tap := Tap(true, 0)), [Q_DOWN, P_OFF, P_THIRD], before)
    ensures before + [Genuine(P_TAPPED)] + [Genuine(Q_DOWN)] + [Genuine(P_OFF)]
            <= Run(TERM, INITIAL, Calls(UP_TO_THIRD + [P_LAST.event] + [LATE_TICK])).out
  {
    hide Process;
    hide Run;
    var calm := [HOLD_K.event] + EventsOf(QUEUE) + [TICK];
    FirstRun();
    before := Run(TERM, INITIAL, Calls(calm)).out;
    CallsAppend(INITIAL, calm, P_THIRD.event);
    Stalls(Layout(), Run(TERM, INITIAL, Calls(calm)), P_THIRD);
    assert [Q_DOWN, P_OFF] + [P_THIRD] == [Q_DOWN, P_OFF, P_THIRD];
    CallsAppend(INITIAL, UP_TO_THIRD, P_LAST.event);
    LaterReleaseSettles(before);
    CallsAppend(INITIAL, UP_TO_THIRD + [P_LAST.event], LATE_TICK);
    LeftBehind(before + [Genuine(P_TAPPED)]);
  }

  /** The counts of a press and its release can differ, in a run with frequent ticks in which the key is pressed
      and released in turn. The tenth call is not an orderly one: it settles the pending press with a release
      that is not its own, which is queued. */
  lemma CountsCanDiffer() returns (inputs: seq<Input>, i: nat)
    ensures WellFormed(inputs) && Ticking(300, inputs) && Frequent(TERM, 300) && Alternates(inputs, P)
    ensures |inputs| == 11 && !Orderly(TERM, Run(TERM, INITIAL, inputs[..9]), inputs[9].event)
    ensures var out := Run(TERM, INITIAL, inputs).out;
            && i < |out| && out[i] == Genuine(P_OFF) && P_OFF.tap.count == 0
            && Open(out[..i], P) == Some(1) && Genuine(P_TAPPED) in out[..i]
  {
    hide Process;
    hide Run;
    hide Ticking;
    hide Alternates;
    hide Open;
    var before := ThirdRun();
    inputs := Calls(UP_TO_THIRD + [P_LAST.event] + [LATE_TICK]);
    i := |before| + 2;
    SoonIsTicking(UP_TO_THIRD + [P_LAST.event] + [LATE_TICK]);
    PAlternates(inputs, UP_TO_THIRD + [P_LAST.event] + [LATE_TICK]);
    assert inputs[..9] == Calls(UP_TO_THIRD);
    assert Run(TERM, INITIAL, inputs[..9]).waiting[1] == P_OFF;
    assert Run(TERM, INITIAL, inputs).out[..i] == before + [Genuine(P_TAPPED)] + [Genuine(Q_DOWN)];
    OpenAfter(before);
  }

  lemma OpenAfter(out: seq<Emission>)
    ensures Open(out + [Genuine(P_TAPPED)] + [Genuine(Q_DOWN)], P) == Some(1)
  {
    var out1 := out + [Genuine(P_TAPPED)];
    assert (out1 + [Genuine(Q_DOWN)])[..|out1|] == out1;
  }
}

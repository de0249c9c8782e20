/**
The verdict over whole runs. Calls come in order and ticks come often enough; then the exact condition
for the verdict of unbounded time holds of every press, from the moment at which it becomes pending.
*/
module TappingRuns {
  import opened TappingModel
  import opened TappingLedger
  import opened TappingVerdict

  // ---- a press that is pending in the middle of a call

  predicate Sorted(waiting: seq<Record>) {
    forall i, j :: 0 <= i < j < |waiting| ==> waiting[i].event.at <= waiting[j].event.at
  }

  /** The queue was there before the press came. */
  predicate OlderHead(s: State) { s.waiting != [] && s.waiting[0].event.at < s.tapping.event.at }

  /** A release that would settle the press lies in the queue, and is not looked for any more. */
  predicate Overlooked(term: nat, s: State) { Undecided(s) && !Settled(term, s) }

  /** A press undecided at time `now`, while the queue is being drained: it came before everything queued,
      or it is the event of this call and the queue is older, but not by a full turn of the timer. */
  ghost predicate Current(term: nat, s: State, now: nat) {
    && Sound(s) && |s.waiting| < WAITING_BUFFER_SIZE && Undecided(s) && Sorted(s.waiting)
    && s.tapping.event.at <= now < s.tapping.event.at + 0x1_0000
    && if OlderHead(s) then s.tapping.event.at == now <= s.waiting[0].event.at + 0x1_0000 - term else Later(s, now)
  }

  /** The press was released in time by an event queued already. */
  predicate QueuedInTime(term: nat, s: State) { ReleasedInTime(term, s, []) }

  lemma TailInTime(term: nat, s: State, rest: State)
    requires s.waiting != [] && rest.waiting == s.waiting[1..] && rest.tapping.event == s.tapping.event
    requires !OwnRelease(s.tapping, s.waiting[0].event)
    ensures QueuedInTime(term, s) <==> QueuedInTime(term, rest)
  {
    var t := s.tapping;
    if QueuedInTime(term, s) {
      var i :| 0 <= i < |s.waiting| && OwnRelease(t, s.waiting[i].event) && s.waiting[i].event.at < t.event.at + term;
      assert rest.waiting[i - 1] == s.waiting[i];
    }
  }

  /** Draining behind an undecided press leaves it undecided, with the same releases in time in the queue,
      or gives it the verdict of unbounded time. */
  lemma {:induction false} DrainVerdict(term: nat, m: Keymap, s: State, now: nat)
    requires Sound(s) && Undecided(s) && Sorted(s.waiting) && Later(s, now)
    requires s.tapping.event.at <= now < s.tapping.event.at + 0x1_0000
    ensures var s' := Drain(term, m, s);
            s.out <= s'.out &&
            var b := Barrier(Since(s.out, s'.out));
            if b.None? then SamePress(s, s') && Later(s', now) && (QueuedInTime(term, s) <==> QueuedInTime(term, s'))
            else !Undecided(s') && Executes(s, b.value, if QueuedInTime(term, s) then 1 else 0) &&
                 (QueuedInTime(term, s) || now >= s.tapping.event.at + term)
    decreases |s.waiting|
  {
    hide Offer;
    hide WithinTerm;
    if s.waiting != [] {
      var w := s.waiting[0];
      var x := Offer(term, m, s, w);
      OfferToUndecided(term, m, s, w);
      OfferSound(term, m, s, w);
      TermExact(term, s.tapping, w.event);
      if x.done {
        var rest := x.state.(waiting := x.state.waiting[1..]);
        DrainVerdict(term, m, rest, now);
        SinceTrans(s.out, rest.out, Drain(term, m, rest).out);
        TailInTime(term, s, rest);
      } else if x.rec == w {
        assert x.state.waiting[0 := x.rec] == s.waiting;
      }
    }
  }

  /** In state `s'`, reached from `s` where the press became pending, the inputs give it the verdict of
      unbounded time. */
  ghost predicate CorrectFrom(term: nat, s: State, s': State, inputs: seq<Input>) {
    DecidedIn(s, Run(term, s', inputs), if ReleasedInTime(term, s, inputs) then 1 else 0)
  }

  /** Whatever comes after this call, provided some call falls between the end of the term and the next
      turn of the timer, the press gets the verdict of unbounded time. */
  ghost predicate AlwaysCorrect(term: nat, m: Keymap, s: State, now: nat) {
    forall inputs, j :: Suitable(term, s, now, inputs, j) ==> CorrectFrom(term, s, Drain(term, m, s), inputs)
  }

  lemma InTimeFrom(term: nat, s: State, s': State, inputs: seq<Input>)
    requires s'.tapping.event == s.tapping.event && (QueuedInTime(term, s) <==> QueuedInTime(term, s'))
    ensures ReleasedInTime(term, s, inputs) <==> ReleasedInTime(term, s', inputs)
  {
    InTimeSplit(term, s, inputs);
    InTimeSplit(term, s', inputs);
  }

  lemma InTimeSplit(term: nat, s: State, inputs: seq<Input>)
    ensures ReleasedInTime(term, s, inputs) <==>
            QueuedInTime(term, s) ||
            exists i :: 0 <= i < |inputs| && OwnRelease(s.tapping, inputs[i].event) &&
                        inputs[i].event.at < s.tapping.event.at + term
  {}

  /** An older queue decides for a hold at once, also if the key is then released in time. */
  lemma WrongBehindOlder(term: nat, m: Keymap, s: State, now: nat) returns (inputs: seq<Input>)
    requires Current(term, s, now) && OlderHead(s) && 0 < term < 0x1_0000
    ensures Suitable(term, s, now, inputs, 1) && !CorrectFrom(term, s, Drain(term, m, s), inputs)
  {
    hide Drain;
    var release := Event(s.tapping.event.key, false, now);
    var tick := Event(NO_KEY, false, now + term);
    inputs := [Input(release, m), Input(tick, m)];
    assert OwnRelease(s.tapping, inputs[0].event) && inputs[1].event == tick;
    OlderHeadForcesHold(term, m, s);
    var s' := Drain(term, m, s);
    RunSound(term, s', inputs);
    SinceTrans(s.out, s'.out, Run(term, s', inputs).out);
    assert Since(s.out, s'.out) == [Genuine(s.tapping)];
  }

  /** A press decided while the queue is drained stays decided, and the verdict is correct. */
  lemma RightInDrain(term: nat, m: Keymap, s: State, now: nat, inputs: seq<Input>)
    requires Current(term, s, now) && !OlderHead(s) && !Undecided(Drain(term, m, s))
    requires WellFormed(inputs) && InOrder(now, inputs)
    ensures CorrectFrom(term, s, Drain(term, m, s), inputs)
  {
    hide Drain;
    hide Run;
    var s' := Drain(term, m, s);
    DrainVerdict(term, m, s, now);
    DrainSound(term, m, s);
    RunSound(term, s', inputs);
    SinceTrans(s.out, s'.out, Run(term, s', inputs).out);
    InTimeSplit(term, s, inputs);
  }

  /** A press still undecided after draining is judged by what comes then. */
  lemma SameAfterDrain(term: nat, m: Keymap, s: State, now: nat, inputs: seq<Input>)
    requires Current(term, s, now) && !OlderHead(s) && Undecided(Drain(term, m, s)) && WellFormed(inputs)
    ensures CorrectFrom(term, s, Drain(term, m, s), inputs) <==> CorrectVerdict(term, Drain(term, m, s), inputs)
  {
    hide Drain;
    hide Run;
    var s' := Drain(term, m, s);
    DrainVerdict(term, m, s, now);
    DrainSound(term, m, s);
    RunSound(term, s', inputs);
    SinceTrans(s.out, s'.out, Run(term, s', inputs).out);
    InTimeFrom(term, s, s', inputs);
  }

  /** The exact condition, for a press that is pending at any moment of a call: it gets the verdict of
      unbounded time in all continuations if and only if no older event is queued and no release of its
      key is overlooked when the call ends. */
  lemma VerdictIff(term: nat, m: Keymap, s: State, now: nat)
    requires Current(term, s, now) && 0 < term < 0x1_0000
    ensures AlwaysCorrect(term, m, s, now) <==> !OlderHead(s) && !Overlooked(term, Drain(term, m, s))
  {
    hide Drain;
    hide Suitable;
    hide CorrectFrom;
    hide CorrectVerdict;
    hide Settled;
    var s' := Drain(term, m, s);
    if OlderHead(s) {
      var inputs := WrongBehindOlder(term, m, s, now);
      OlderHeadForcesHold(term, m, s);
    } else if !Undecided(s') {
      forall inputs, j | Suitable(term, s, now, inputs, j)
        ensures CorrectFrom(term, s, s', inputs)
      {
        SuitableMeans(term, s, now, inputs, j);
        RightInDrain(term, m, s, now, inputs);
      }
    } else {
      PendingAfterDrain(term, m, s, now);
      VerdictIffSettled(term, s', now);
      forall inputs, j
        ensures Suitable(term, s, now, inputs, j) <==> Suitable(term, s', now, inputs, j)
        ensures Suitable(term, s, now, inputs, j) ==>
                  (CorrectFrom(term, s, s', inputs) <==> CorrectVerdict(term, s', inputs))
      {
        SuitableSame(term, s, s', now, inputs, j);
        if Suitable(term, s, now, inputs, j) {
          SuitableMeans(term, s, now, inputs, j);
          SameAfterDrain(term, m, s, now, inputs);
        }
      }
    }
  }

  /** A release is overlooked at the end of the call exactly if it lay unnoticed in the queue when the press
      became pending and the call does not decide the press. */
  lemma OverlookedIff(term: nat, m: Keymap, s: State, now: nat)
    requires Current(term, s, now) && !OlderHead(s)
    ensures Overlooked(term, Drain(term, m, s)) <==> Undecided(Drain(term, m, s)) && !Settled(term, s)
  {
    hide Drain;
    hide Settled;
    if Undecided(Drain(term, m, s)) {
      DrainVerdict(term, m, s, now);
      PendingAfterDrain(term, m, s, now);
      QueueNotInTime(term, s, now);
      QueueNotInTime(term, Drain(term, m, s), now);
    }
  }

  /** A press that starts settled gets the verdict of unbounded time if and only if no older event heads the
      queue. */
  lemma VerdictIffNotOlder(term: nat, m: Keymap, s: State, now: nat)
    requires Current(term, s, now) && Settled(term, s) && 0 < term < 0x1_0000
    ensures AlwaysCorrect(term, m, s, now) <==> !OlderHead(s)
  {
    hide Drain;
    hide Settled;
    hide Current;
    hide AlwaysCorrect;
    hide Overlooked;
    VerdictIff(term, m, s, now);
    if !OlderHead(s) { OverlookedIff(term, m, s, now); }
  }

  lemma PendingAfterDrain(term: nat, m: Keymap, s: State, now: nat)
    requires Current(term, s, now) && !OlderHead(s) && Undecided(Drain(term, m, s))
    ensures PendingAt(term, Drain(term, m, s), now) && SamePress(s, Drain(term, m, s))
  {
    hide Drain;
    DrainVerdict(term, m, s, now);
    DrainSound(term, m, s);
  }

  lemma SuitableSame(term: nat, s: State, s': State, now: nat, inputs: seq<Input>, j: nat)
    requires s'.tapping.event == s.tapping.event
    ensures Suitable(term, s, now, inputs, j) <==> Suitable(term, s', now, inputs, j)
  {}

  lemma SuitableMeans(term: nat, s: State, now: nat, inputs: seq<Input>, j: nat)
    requires Suitable(term, s, now, inputs, j)
    ensures WellFormed(inputs) && InOrder(now, inputs)
  {}

  // ---- runs with regular ticks

  function Now(inputs: seq<Input>): nat { if inputs == [] then 0 else inputs[|inputs| - 1].event.at }

  /** Time of the last tick. */
  function LastTick(inputs: seq<Input>): nat {
    if inputs == [] then 0
    else
      var e := inputs[|inputs| - 1].event;
      if NoEvent(e) then e.at else LastTick(inputs[..|inputs| - 1])
  }

  /** Calls in order of time, each at most `gap` after the tick before it. */
  predicate Ticking(gap: nat, inputs: seq<Input>) {
    forall i :: 0 <= i < |inputs| ==> Now(inputs[..i]) <= inputs[i].event.at <= LastTick(inputs[..i]) + gap
  }

  /** Waiting for ticks does not use up the turn of the 16-bit timer. */
  predicate Frequent(term: nat, gap: nat) { 2 * term + 9 * gap < 0x1_0000 }

  /** A tick after its term takes at least one event from the queue. */
  function Patience(gap: nat, places: nat): nat { if places == 0 then 0 else gap + Patience(gap, places - 1) }

  lemma {:induction false} PatienceIs(gap: nat, places: nat)
    ensures Patience(gap, places) == places * gap
  {
    if places > 0 { PatienceIs(gap, places - 1); }
  }

  /** No event stays in the queue for long after its term. */
  predicate Waited(term: nat, gap: nat, waiting: seq<Record>, now: nat, tick: nat) {
    forall i :: 0 <= i < |waiting| && i < WAITING_BUFFER_SIZE ==>
      waiting[i].event.at <= now &&
      tick <= waiting[i].event.at + term + Patience(gap, WAITING_BUFFER_SIZE - 1 - i)
  }

  /** The state during a call at time `now`; `tick` is the time of the last tick. */
  ghost predicate Flow(term: nat, gap: nat, s: State, now: nat, tick: nat) {
    && Sound(s) && |s.waiting| < WAITING_BUFFER_SIZE && Sorted(s.waiting) && Waited(term, gap, s.waiting, now, tick)
    && tick <= now <= tick + gap
    && (Undecided(s) ==>
          && s.tapping.event.at <= now && tick <= s.tapping.event.at + term + 8 * gap
          && (s.tapping.event.at == now || Later(s, now)))
  }

  /** Between calls a press came before everything queued, and a released tap leaves nothing queued. */
  ghost predicate Resting(term: nat, gap: nat, s: State, now: nat, tick: nat) {
    && Flow(term, gap, s, now, tick)
    && (Undecided(s) ==> Later(s, now))
    && (IsTapping(s.tapping) && !s.tapping.event.pressed ==> s.waiting == [])
  }

  lemma SameQueue(term: nat, gap: nat, a: seq<Record>, b: seq<Record>, now: nat, tick: nat)
    requires SameEvents(a, b) && Sorted(a) && Waited(term, gap, a, now, tick)
    ensures Sorted(b) && Waited(term, gap, b, now, tick)
  {}

  /** What is left of the queue is as patient, and more so after another tick. */
  lemma TailWaited(term: nat, gap: nat, waiting: seq<Record>, now: nat, tick: nat, now': nat, tick': nat)
    requires waiting != [] && |waiting| < WAITING_BUFFER_SIZE && Sorted(waiting)
    requires Waited(term, gap, waiting, now, tick)
    requires now <= now' && tick' <= tick + gap
    ensures Sorted(waiting[1..]) && Waited(term, gap, waiting[1..], now', tick')
    ensures tick <= waiting[0].event.at + term + 7 * gap
  {
    PatienceIs(gap, 7);
    forall i | 0 <= i < |waiting[1..]|
      ensures tick' <= waiting[1..][i].event.at + term + Patience(gap, WAITING_BUFFER_SIZE - 1 - i)
    {
      assert waiting[1..][i] == waiting[i + 1];
    }
  }

  /** A record taken from the head of the queue, before or at a tick. */
  lemma TakeFlow(term: nat, gap: nat, m: Keymap, s: State, now: nat, tick: nat, tick': nat)
    requires Flow(term, gap, s, now, tick) && s.waiting != [] && Offer(term, m, s, s.waiting[0]).done
    requires Frequent(term, gap) && tick <= tick' <= now && (Undecided(s) ==> tick' == tick)
    ensures var x := Offer(term, m, s, s.waiting[0]);
            x.state.waiting != [] && Flow(term, gap, x.state.(waiting := x.state.waiting[1..]), now, tick')
  {
    hide Offer;
    var w := s.waiting[0];
    var x := Offer(term, m, s, w);
    OfferSound(term, m, s, w);
    SameQueue(term, gap, s.waiting, x.state.waiting, now, tick);
    TailWaited(term, gap, x.state.waiting, now, tick, now, tick');
    if Undecided(s) {
      OfferToUndecided(term, m, s, w);
    } else if Undecided(x.state) {
      PendingFromOffer(term, m, s, w);
    }
  }

  lemma {:induction false} DrainFlow(term: nat, gap: nat, m: Keymap, s: State, now: nat, tick: nat)
    requires Frequent(term, gap) && Flow(term, gap, s, now, tick)
    ensures Resting(term, gap, Drain(term, m, s), now, tick)
    decreases |s.waiting|
  {
    hide Offer;
    if s.waiting != [] {
      var w := s.waiting[0];
      var x := Offer(term, m, s, w);
      if x.done {
        TakeFlow(term, gap, m, s, now, tick, tick);
        OfferKeepsLength(term, m, s, w);
        DrainFlow(term, gap, m, x.state.(waiting := x.state.waiting[1..]), now, tick);
      } else {
        StopFlow(term, gap, m, s, now, tick);
      }
    }
  }

  /** The record at the head of the queue has to stay. */
  lemma StopFlow(term: nat, gap: nat, m: Keymap, s: State, now: nat, tick: nat)
    requires Frequent(term, gap) && Flow(term, gap, s, now, tick)
    requires s.waiting != [] && !Offer(term, m, s, s.waiting[0]).done
    ensures var x := Offer(term, m, s, s.waiting[0]);
            x.state.waiting != [] && Resting(term, gap, x.state.(waiting := x.state.waiting[0 := x.rec]), now, tick)
  {
    hide Offer;
    hide WithinTerm;
    var w := s.waiting[0];
    var x := Offer(term, m, s, w);
    OfferSound(term, m, s, w);
    RefusedOffer(term, m, s, w);
    SameQueue(term, gap, s.waiting, x.state.waiting[0 := x.rec], now, tick);
    if Undecided(s) {
      OfferToUndecided(term, m, s, w);
      if w.event.at < s.tapping.event.at {
        TailWaited(term, gap, s.waiting, now, tick, now, tick);
        OlderNotWithin(term, s.tapping, w.event);
      }
    }
  }

  /** A record is refused only by an undecided press, or when the term after a tap has run out. */
  lemma RefusedOffer(term: nat, m: Keymap, s: State, r: Record)
    requires SoundTapping(s.tapping) && !Offer(term, m, s, r).done
    ensures var t := Offer(term, m, s, r).state.tapping;
            && (IsTapping(t) ==> t.event.pressed)
            && (!Undecided(s) ==> t == NO_RECORD && IsTapping(s.tapping) && !s.tapping.event.pressed)
            && (!IsTapping(s.tapping) || s.tapping.event.pressed ==> Undecided(s))
  {}

  // ---- calls

  lemma QueueFlow(term: nat, gap: nat, waiting: seq<Record>, r: Record, now: nat, tick: nat)
    requires |waiting| < WAITING_BUFFER_SIZE - 1 && Sorted(waiting) && Waited(term, gap, waiting, now, tick)
    requires tick <= now <= r.event.at
    ensures Sorted(waiting + [r]) && Waited(term, gap, waiting + [r], r.event.at, tick)
  {}

  /** Taking in an event. */
  lemma AcceptFlow(term: nat, gap: nat, m: Keymap, s: State, e: Event, now: nat, tick: nat)
    requires Resting(term, gap, s, now, tick) && FromCaller(e) && now <= e.at <= tick + gap
    ensures Flow(term, gap, Accept(term, m, s, e), e.at, tick)
  {
    hide Offer;
    var r := Record(e, NO_TAP);
    var x := Offer(term, m, s, r);
    OfferSound(term, m, s, r);
    SameQueue(term, gap, s.waiting, x.state.waiting, now, tick);
    if !Full(x.state.waiting) { QueueFlow(term, gap, x.state.waiting, x.rec, now, tick); }
    if Undecided(s) {
      OfferToUndecided(term, m, s, r);
    } else {
      if Undecided(x.state) { PendingFromOffer(term, m, s, r); }
      if !x.done { RefusedOffer(term, m, s, r); }
    }
  }

  /** After a tick the queue moves on, unless a press is undecided whose term is still running. */
  lemma TickMoves(term: nat, m: Keymap, s: State, e: Event)
    requires Sound(s) && FromCaller(e) && NoEvent(e)
    requires IsTapping(s.tapping) && !s.tapping.event.pressed ==> s.waiting == []
    ensures var a := Accept(term, m, s, e);
            a.waiting == s.waiting &&
            (if Undecided(s) && WithinTerm(term, s.tapping, e) then SamePress(s, a)
             else !Undecided(a) && (a.waiting != [] ==> Offer(term, m, a, a.waiting[0]).done))
  {}

  lemma TickFlow(term: nat, gap: nat, m: Keymap, s: State, e: Event, now: nat, tick: nat)
    requires Frequent(term, gap) && Resting(term, gap, s, now, tick)
    requires FromCaller(e) && NoEvent(e) && now <= e.at <= tick + gap
    ensures Resting(term, gap, Process(term, m, s, e), e.at, e.at)
  {
    hide Offer;
    hide NoEvent;
    hide WithinTerm;
    var a := Accept(term, m, s, e);
    AcceptFlow(term, gap, m, s, e, now, tick);
    TickMoves(term, m, s, e);
    if Undecided(a) {
      TermExact(term, s.tapping, e);
      DrainFlow(term, gap, m, a, e.at, e.at);
    } else if a.waiting == [] {
      DrainFlow(term, gap, m, a, e.at, e.at);
    } else {
      var x := Offer(term, m, a, a.waiting[0]);
      TakeFlow(term, gap, m, a, e.at, tick, e.at);
      DrainFlow(term, gap, m, x.state.(waiting := x.state.waiting[1..]), e.at, e.at);
    }
  }

  lemma {:induction false} RunFlow(term: nat, gap: nat, inputs: seq<Input>)
    requires Frequent(term, gap) && WellFormed(inputs) && Ticking(gap, inputs)
    ensures Resting(term, gap, Run(term, INITIAL, inputs), Now(inputs), LastTick(inputs))
  {
    hide Process;
    hide Resting;
    if inputs == [] {
      StartRests(term, gap);
    } else {
      var n := |inputs| - 1;
      var before := inputs[..n];
      var m, e := inputs[n].keymap, inputs[n].event;
      var s := Run(term, INITIAL, before);
      assert forall i :: 0 <= i < n ==> before[..i] == inputs[..i];
      RunFlow(term, gap, before);
      if NoEvent(e) {
        TickFlow(term, gap, m, s, e, Now(before), LastTick(before));
      } else {
        EventFlow(term, gap, m, s, e, Now(before), LastTick(before));
      }
    }
  }

  lemma StartRests(term: nat, gap: nat)
    ensures Resting(term, gap, INITIAL, 0, 0)
  {}

  lemma EventFlow(term: nat, gap: nat, m: Keymap, s: State, e: Event, now: nat, tick: nat)
    requires Frequent(term, gap) && Resting(term, gap, s, now, tick) && FromCaller(e) && now <= e.at <= tick + gap
    ensures Resting(term, gap, Process(term, m, s, e), e.at, tick)
  {
    hide Accept;
    AcceptFlow(term, gap, m, s, e, now, tick);
    DrainFlow(term, gap, m, Accept(term, m, s, e), e.at, tick);
  }

  /** In every run with frequent ticks an undecided press is older than all that is queued, and younger than
      a turn of the timer: VerdictIffSettled applies between any two calls. */
  lemma PendingIsLater(term: nat, gap: nat, inputs: seq<Input>)
    requires Frequent(term, gap) && WellFormed(inputs) && Ticking(gap, inputs)
    ensures var s := Run(term, INITIAL, inputs);
            Undecided(s) ==> PendingAt(term, s, Now(inputs)) && Now(inputs) < s.tapping.event.at + 0x1_0000
  {
    RunFlow(term, gap, inputs);
  }

  /** A press that the scan settles at once, whether it is new or comes from the queue, was released in time
      by an event queued already. */
  lemma ScanIsRight(term: nat, gap: nat, m: Keymap, s: State, r: Record, now: nat, tick: nat)
    requires Frequent(term, gap) && Flow(term, gap, s, now, tick) && SoundRecord(r)
    requires r.event.at == now || (s.waiting != [] && r == s.waiting[0])
    requires s.tapping.event != r.event
    requires var t := Offer(term, m, s, r).state.tapping;
             t.event == r.event && r.event.pressed && t.tap.count == 1
    ensures exists i :: 0 <= i < |s.waiting| && OwnRelease(r, s.waiting[i].event) &&
                        r.event.at <= s.waiting[i].event.at < r.event.at + term
  {
    hide WithinTerm;
    ScanSettles(term, m, s, r);
    var i :| 0 <= i < |s.waiting| && Settler(term, r, s.waiting[i]);
    var w := s.waiting[i].event;
    PatienceAtMost(gap, WAITING_BUFFER_SIZE - 1 - i);
    TailWaited(term, gap, s.waiting, now, tick, now, tick);
    if w.at < r.event.at {
      OlderNotWithin(term, r, w);
    } else {
      TermExact(term, r, w);
    }
  }

  lemma PatienceAtMost(gap: nat, places: nat)
    requires places <= 7
    ensures Patience(gap, places) <= 7 * gap
  {
    PatienceIs(gap, places);
  }

  lemma ScanSettles(term: nat, m: Keymap, s: State, r: Record)
    requires SoundTapping(s.tapping) && SoundRecord(r) && r.event.pressed && s.tapping.event != r.event
    requires var t := Offer(term, m, s, r).state.tapping; t.event == r.event && t.tap.count == 1
    ensures exists i :: 0 <= i < |s.waiting| && Settler(term, r, s.waiting[i])
  {
    assert FirstSettler(term, r, s.waiting) < |s.waiting|;
  }

  // ---- every press of a run

  /** The state after up to `k` records have been taken from the queue. */
  function Stage(term: nat, m: Keymap, s: State, k: nat): State
    decreases k
  {
    if k == 0 || s.waiting == [] then s
    else
      var x := Offer(term, m, s, s.waiting[0]);
      OfferKeepsLength(term, m, s, s.waiting[0]);
      if x.done then Stage(term, m, x.state.(waiting := x.state.waiting[1..]), k - 1) else s
  }

  lemma {:induction false} StageFlow(term: nat, gap: nat, m: Keymap, s: State, k: nat, now: nat, tick: nat)
    requires Frequent(term, gap) && Flow(term, gap, s, now, tick)
    ensures var s' := Stage(term, m, s, k);
            Flow(term, gap, s', now, tick) && Drain(term, m, s') == Drain(term, m, s)
    decreases k
  {
    hide Offer;
    hide Sorted;
    hide Waited;
    if k > 0 && s.waiting != [] {
      var x := Offer(term, m, s, s.waiting[0]);
      OfferKeepsLength(term, m, s, s.waiting[0]);
      if x.done {
        TakeFlow(term, gap, m, s, now, tick, tick);
        StageFlow(term, gap, m, x.state.(waiting := x.state.waiting[1..]), k - 1, now, tick);
      }
    }
  }

  lemma FlowIsCurrent(term: nat, gap: nat, s: State, now: nat, tick: nat)
    requires Frequent(term, gap) && Flow(term, gap, s, now, tick) && Undecided(s)
    ensures Current(term, s, now)
  {
    if s.waiting != [] { TailWaited(term, gap, s.waiting, now, tick, now, tick); }
  }

  /** One call, and every moment of it at which a press is pending. */
  lemma EveryPressOfCall(term: nat, gap: nat, m: Keymap, s: State, e: Event, now: nat, tick: nat, k: nat)
    requires Frequent(term, gap) && term > 0
    requires Resting(term, gap, s, now, tick) && FromCaller(e) && now <= e.at <= tick + gap
    requires Undecided(Stage(term, m, Accept(term, m, s, e), k))
    ensures var p := Stage(term, m, Accept(term, m, s, e), k);
            && Process(term, m, s, e) == Drain(term, m, p) && Current(term, p, e.at)
            && (AlwaysCorrect(term, m, p, e.at) <==> !OlderHead(p) && !Overlooked(term, Drain(term, m, p)))
  {
    hide Accept;
    hide Stage;
    hide Drain;
    hide Flow;
    hide Resting;
    hide Undecided;
    hide Current;
    hide AlwaysCorrect;
    hide Overlooked;
    hide OlderHead;
    var a := Accept(term, m, s, e);
    AcceptFlow(term, gap, m, s, e, now, tick);
    StageFlow(term, gap, m, a, k, e.at, tick);
    var p := Stage(term, m, a, k);
    FlowIsCurrent(term, gap, p, e.at, tick);
    VerdictIff(term, m, p, e.at);
  }

  /** Every press of every run with frequent ticks, at any moment of any call at which it is pending, no
      matter whether it is decided in that call or later: it gets the verdict of unbounded time in all
      continuations if and only if no older event is queued and no release of its key is overlooked when
      the call ends. */
  lemma EveryPressOfRuns(term: nat, gap: nat, inputs: seq<Input>, m: Keymap, e: Event, k: nat)
    requires Frequent(term, gap) && term > 0
    requires WellFormed(inputs + [Input(e, m)]) && Ticking(gap, inputs + [Input(e, m)])
    requires Undecided(Stage(term, m, Accept(term, m, Run(term, INITIAL, inputs), e), k))
    ensures var p := Stage(term, m, Accept(term, m, Run(term, INITIAL, inputs), e), k);
            var s' := Run(term, INITIAL, inputs + [Input(e, m)]);
            && s' == Drain(term, m, p)
            && ((forall rest, j :: Suitable(term, p, e.at, rest, j) ==> CorrectFrom(term, p, s', rest)) <==>
                !OlderHead(p) && !Overlooked(term, s'))
  {
    hide Accept;
    hide Stage;
    hide Drain;
    hide Resting;
    hide Undecided;
    hide Current;
    hide Overlooked;
    hide OlderHead;
    hide Suitable;
    hide CorrectFrom;
    LastCall(gap, inputs, Input(e, m));
    RunFlow(term, gap, inputs);
    assert (inputs + [Input(e, m)])[..|inputs|] == inputs;
    EveryPressOfCall(term, gap, m, Run(term, INITIAL, inputs), e, Now(inputs), LastTick(inputs), k);
  }

  lemma LastCall(gap: nat, inputs: seq<Input>, x: Input)
    requires WellFormed(inputs + [x]) && Ticking(gap, inputs + [x])
    ensures WellFormed(inputs) && Ticking(gap, inputs)
    ensures FromCaller(x.event) && Now(inputs) <= x.event.at <= LastTick(inputs) + gap
  {
    var calls := inputs + [x];
    assert calls[..|inputs|] == inputs && calls[|inputs|] == x;
    assert forall i :: 0 <= i < |inputs| ==> inputs[..i] == calls[..i] && inputs[i] == calls[i];
  }

  // ---- the records offered in a call, and the presses that become pending

  /** The state to which record number `k` of a call is offered: the new event is number 0. */
  function OfferedTo(term: nat, m: Keymap, s: State, e: Event, k: nat): State {
    if k == 0 then s else Stage(term, m, Accept(term, m, s, e), k - 1)
  }

  /** That record. */
  function OfferedRecord(term: nat, m: Keymap, s: State, e: Event, k: nat): Record
    requires k > 0 ==> OfferedTo(term, m, s, e, k).waiting != []
  {
    if k == 0 then Record(e, NO_TAP) else OfferedTo(term, m, s, e, k).waiting[0]
  }

  lemma FlowLater(term: nat, gap: nat, s: State, now: nat, tick: nat, later: nat)
    requires Resting(term, gap, s, now, tick) && now <= later <= tick + gap
    ensures Flow(term, gap, s, later, tick)
  {}

  /** The state in which a record is offered. */
  lemma OfferedFlow(term: nat, gap: nat, m: Keymap, s: State, e: Event, now: nat, tick: nat, k: nat)
    requires Frequent(term, gap) && Resting(term, gap, s, now, tick) && FromCaller(e) && now <= e.at <= tick + gap
    requires k > 0 ==> OfferedTo(term, m, s, e, k).waiting != []
    ensures var t, r := OfferedTo(term, m, s, e, k), OfferedRecord(term, m, s, e, k);
            && Flow(term, gap, t, e.at, tick) && SoundRecord(r)
            && if k == 0 then r.event.at == e.at else r == t.waiting[0]
  {
    hide Accept;
    hide Stage;
    if k == 0 {
      FlowLater(term, gap, s, now, tick, e.at);
    } else {
      AcceptFlow(term, gap, m, s, e, now, tick);
      StageFlow(term, gap, m, Accept(term, m, s, e), k - 1, e.at, tick);
    }
  }

  /** In every run with frequent ticks a press that the scan settles at once, in whatever call and whether it
      is new or comes from the queue, was released in time. */
  lemma ScanIsRightInRuns(term: nat, gap: nat, inputs: seq<Input>, m: Keymap, e: Event, k: nat)
    requires Frequent(term, gap)
    requires WellFormed(inputs + [Input(e, m)]) && Ticking(gap, inputs + [Input(e, m)])
    requires k > 0 ==> OfferedTo(term, m, Run(term, INITIAL, inputs), e, k).waiting != []
    requires var s := Run(term, INITIAL, inputs);
             var t, r := OfferedTo(term, m, s, e, k), OfferedRecord(term, m, s, e, k);
             var t' := Offer(term, m, t, r).state.tapping;
             t.tapping.event != r.event && t'.event == r.event && r.event.pressed && t'.tap.count == 1
    ensures var s := Run(term, INITIAL, inputs);
            var t, r := OfferedTo(term, m, s, e, k), OfferedRecord(term, m, s, e, k);
            exists i :: 0 <= i < |t.waiting| && OwnRelease(r, t.waiting[i].event) &&
                        r.event.at <= t.waiting[i].event.at < r.event.at + term
  {
    hide Offer;
    hide OfferedTo;
    hide OfferedRecord;
    hide Flow;
    hide Resting;
    hide SoundRecord;
    hide Frequent;
    var s := Run(term, INITIAL, inputs);
    LastCall(gap, inputs, Input(e, m));
    RunFlow(term, gap, inputs);
    OfferedFlow(term, gap, m, s, e, Now(inputs), LastTick(inputs), k);
    ScanIsRight(term, gap, m, OfferedTo(term, m, s, e, k), OfferedRecord(term, m, s, e, k), e.at, LastTick(inputs));
  }

  lemma {:induction false} StageNext(term: nat, m: Keymap, s: State, k: nat)
    requires var t := Stage(term, m, s, k); t.waiting != [] && Offer(term, m, t, t.waiting[0]).done
    ensures var t := Stage(term, m, s, k);
            var x := Offer(term, m, t, t.waiting[0]).state;
            x.waiting != [] && Stage(term, m, s, k + 1) == x.(waiting := x.waiting[1..])
    decreases k
  {
    hide Offer;
    var t := Stage(term, m, s, k);
    OfferKeepsLength(term, m, t, t.waiting[0]);
    if k > 0 && s.waiting != [] {
      var x := Offer(term, m, s, s.waiting[0]);
      OfferKeepsLength(term, m, s, s.waiting[0]);
      if x.done { StageNext(term, m, x.state.(waiting := x.state.waiting[1..]), k - 1); }
    }
  }

  /** The press that record number `k` of a call makes pending, other than by a restart: it starts settled, and
      a press from the queue has no older event behind it. */
  lemma StartsInCall(term: nat, gap: nat, m: Keymap, s: State, e: Event, now: nat, tick: nat, k: nat)
    requires Frequent(term, gap) && Resting(term, gap, s, now, tick) && FromCaller(e) && now <= e.at <= tick + gap
    requires k > 0 ==> OfferedTo(term, m, s, e, k).waiting != []
    requires var t, r := OfferedTo(term, m, s, e, k), OfferedRecord(term, m, s, e, k);
             !Undecided(t) && Undecided(Offer(term, m, t, r).state) && !Restart(term, t, r)
    ensures var p := Stage(term, m, Accept(term, m, s, e), k);
            && Undecided(p) && p.tapping == OfferedRecord(term, m, s, e, k) && Settled(term, p)
            && (k > 0 ==> !OlderHead(p))
  {
    hide Offer;
    hide Stage;
    hide Restart;
    var t, r := OfferedTo(term, m, s, e, k), OfferedRecord(term, m, s, e, k);
    var x := Offer(term, m, t, r);
    OfferedFlow(term, gap, m, s, e, now, tick, k);
    StartsSettled(term, m, t, r);
    PendingFromOffer(term, m, t, r);
    if k == 0 {
      StageZero(term, m, Accept(term, m, s, e));
    } else {
      StageNext(term, m, Accept(term, m, s, e), k - 1);
      assert forall i :: 0 <= i < |x.state.waiting| - 1 ==> x.state.waiting[1..][i] == x.state.waiting[i + 1];
    }
  }

  lemma StageZero(term: nat, m: Keymap, s: State)
    ensures Stage(term, m, s, 0) == s
  {}

  /** In every run with frequent ticks a press gets the verdict of unbounded time in all continuations if and
      only if no older event heads the queue when it becomes pending, unless it becomes pending by a restart.
      A press that comes from the queue always does. */
  lemma StartedPressOfRuns(term: nat, gap: nat, inputs: seq<Input>, m: Keymap, e: Event, k: nat)
    requires Frequent(term, gap) && term > 0
    requires WellFormed(inputs + [Input(e, m)]) && Ticking(gap, inputs + [Input(e, m)])
    requires k > 0 ==> OfferedTo(term, m, Run(term, INITIAL, inputs), e, k).waiting != []
    requires var s := Run(term, INITIAL, inputs);
             var t, r := OfferedTo(term, m, s, e, k), OfferedRecord(term, m, s, e, k);
             !Undecided(t) && Undecided(Offer(term, m, t, r).state) && !Restart(term, t, r)
    ensures var s := Run(term, INITIAL, inputs);
            var p := Stage(term, m, Accept(term, m, s, e), k);
            var s' := Run(term, INITIAL, inputs + [Input(e, m)]);
            && p.tapping == OfferedRecord(term, m, s, e, k) && s' == Drain(term, m, p)
            && ((forall rest, j :: Suitable(term, p, e.at, rest, j) ==> CorrectFrom(term, p, s', rest)) <==>
                !OlderHead(p))
            && (k > 0 ==> !OlderHead(p))
  {
    hide Accept;
    hide Stage;
    hide Drain;
    hide Offer;
    hide OfferedTo;
    hide OfferedRecord;
    hide Restart;
    hide Resting;
    hide Undecided;
    hide Current;
    hide Settled;
    hide OlderHead;
    hide Overlooked;
    hide Suitable;
    hide CorrectFrom;
    var s := Run(term, INITIAL, inputs);
    LastCall(gap, inputs, Input(e, m));
    RunFlow(term, gap, inputs);
    assert (inputs + [Input(e, m)])[..|inputs|] == inputs;
    StartsInCall(term, gap, m, s, e, Now(inputs), LastTick(inputs), k);
    EveryPressOfCall(term, gap, m, s, e, Now(inputs), LastTick(inputs), k);
    VerdictIffNotOlder(term, m, Stage(term, m, Accept(term, m, s, e), k), e.at);
  }
}

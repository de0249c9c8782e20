/**
The tap/hold resolver as a transition system over values.

One record (`tapping`) may be pending a tap-or-hold decision, a queue (`waiting`) holds the
events that arrived meanwhile, and `out` is the trace of everything handed to the action layer.
An event carries the unbounded time at which it was taken; every decision sees its low 16 bits.
*/
module TappingModel {

  const WAITING_BUFFER_SIZE := 8
  const MAX_TAP_COUNT := 15

  datatype Key = Key(row: nat, col: nat)

  datatype Event = Event(key: Key, pressed: bool, at: nat)

  datatype Tap = Tap(interrupted: bool, count: nat)

  datatype Record = Record(event: Event, tap: Tap)

  const NO_KEY := Key(255, 255)
  const NO_TAP := Tap(false, 0)
  const NO_RECORD := Record(Event(Key(0, 0), false, 0), NO_TAP)

  /** What reaches the action layer: a record that was fed in, a release made up by the resolver,
      or the reset of the whole keyboard on overflow. */
  datatype Emission = Genuine(rec: Record) | Synthetic(rec: Record) | ClearKeyboard

  datatype Action = Mods(mods: nat, code: nat) | ModsTap(mods: nat, code: nat) | OtherAction

  /** The keymap as the resolver sees it. Layers change as records are executed, so both answers
      may depend on the trace so far. */
  datatype Keymap = Keymap(isTap: (seq<Emission>, Record) -> bool, action: (seq<Emission>, Key) -> Action)

  datatype State = State(tapping: Record, waiting: seq<Record>, out: seq<Emission>)

  const INITIAL := State(NO_RECORD, [], [])

  function Stamp(e: Event): nat { e.at % 0x1_0000 }

  predicate NoEvent(e: Event) { Stamp(e) == 0 || e.key == NO_KEY }

  predicate IsTapping(t: Record) { !NoEvent(t.event) }

  predicate OwnRelease(t: Record, e: Event) {
    IsTapping(t) && e.key == t.event.key && !e.pressed
  }

  /** The 16-bit timer comparison: the difference wraps. */
  predicate WithinTerm(term: nat, t: Record, e: Event) {
    (Stamp(e) - Stamp(t.event)) % 0x1_0000 < term
  }

  /** An event of the opposite direction on the same key is queued. */
  predicate Typed(waiting: seq<Record>, e: Event) {
    exists i :: 0 <= i < |waiting| && waiting[i].event.key == e.key && waiting[i].event.pressed != e.pressed
  }

  predicate IsMod(code: nat) { 0xE0 <= code <= 0xE7 }

  /** Releases of modifiers are kept back until the decision has been made. */
  predicate Retained(a: Action, tap: Tap) {
    match a
    case Mods(mods, code) => (mods != 0 && code == 0) || IsMod(code)
    case ModsTap(mods, code) => (mods != 0 && tap.count == 0) || IsMod(code)
    case OtherAction => false
  }

  /** Executing a record: empty events are ignored by the callee. */
  function Emit(out: seq<Emission>, r: Record): seq<Emission> {
    if NoEvent(r.event) then out else out + [Genuine(r)]
  }

  function EmitSynthetic(out: seq<Emission>, r: Record): seq<Emission> {
    if NoEvent(r.event) then out else out + [Synthetic(r)]
  }

  // ---- scanning the queue when a tap key has just become pending

  /** The queued release that would make `t` a tap. */
  predicate Settler(term: nat, t: Record, w: Record) {
    OwnRelease(t, w.event) && WithinTerm(term, t, w.event)
  }

  /** Index of the first queued release that settles `t` as a tap, or the length of the queue. */
  function FirstSettler(term: nat, t: Record, waiting: seq<Record>): (i: nat)
    ensures i <= |waiting|
    ensures i < |waiting| ==> Settler(term, t, waiting[i])
    ensures forall k :: 0 <= k < i ==> !Settler(term, t, waiting[k])
  {
    if waiting == [] || Settler(term, t, waiting[0]) then 0
    else
      var i := 1 + FirstSettler(term, t, waiting[1..]);
      assert forall k :: 1 <= k < i ==> waiting[k] == waiting[1..][k - 1];
      i
  }

  function ScanTap(term: nat, s: State): State {
    if s.tapping.tap.count > 0 || !s.tapping.event.pressed then s
    else
      var i := FirstSettler(term, s.tapping, s.waiting);
      if i == |s.waiting| then s
      else
        var t := s.tapping.(tap := s.tapping.tap.(count := 1));
        var w := s.waiting[i].(tap := s.waiting[i].tap.(count := 1));
        State(t, s.waiting[i := w], Emit(s.out, t))
  }

  // ---- offering one record to the resolver

  /** `done` says that the record was executed or became the pending one; otherwise it must be
      queued, with whatever tap state it was given. */
  datatype Offered = Offered(state: State, rec: Record, done: bool)

  /** The pending press is undecided and the record lies within its term. */
  function OfferUndecided(m: Keymap, s: State, r: Record): Offered {
    var e := r.event;
    if OwnRelease(s.tapping, e) then
      var t := s.tapping.(tap := s.tapping.tap.(count := 1));
      Offered(State(t, s.waiting, Emit(s.out, t)), r.(tap := t.tap), false)
    else if !NoEvent(e) && !e.pressed && !Typed(s.waiting, e) then
      if Retained(m.action(s.out, e.key), r.tap) then Offered(s, r, false)
      else Offered(s.(out := Emit(s.out, r)), r, true)
    else if e.pressed then
      Offered(s.(tapping := s.tapping.(tap := s.tapping.tap.(interrupted := true))), r, false)
    else Offered(s, r, false)
  }

  /** The pending press was already decided to be a tap. */
  function OfferTapped(term: nat, m: Keymap, s: State, r: Record): Offered {
    var e := r.event;
    if OwnRelease(s.tapping, e) then
      var rel := r.(tap := s.tapping.tap);
      var t := if WithinTerm(term, s.tapping, e) then rel else NO_RECORD;
      Offered(State(t, s.waiting, Emit(s.out, rel)), rel, true)
    else if m.isTap(s.out, r) && e.pressed then
      var out := if s.tapping.tap.count > 1
                 then EmitSynthetic(s.out, Record(Event(s.tapping.event.key, false, e.at), s.tapping.tap))
                 else s.out;
      Offered(ScanTap(term, State(r, s.waiting, out)), r, true)
    else Offered(s.(out := Emit(s.out, r)), r, true)
  }

  /** The last tap was released and its term has not run out. */
  function OfferReleased(term: nat, m: Keymap, s: State, r: Record): Offered {
    var e := r.event;
    if !e.pressed then Offered(s.(out := Emit(s.out, r)), r, true)
    else if e.key == s.tapping.event.key then
      if !s.tapping.tap.interrupted && s.tapping.tap.count > 0 then
        var c := if s.tapping.tap.count < MAX_TAP_COUNT then s.tapping.tap.count + 1 else s.tapping.tap.count;
        var p := r.(tap := s.tapping.tap.(count := c));
        Offered(State(p, s.waiting, Emit(s.out, p)), p, true)
      else Offered(s.(tapping := r), r, true)
    else if m.isTap(s.out, r) then Offered(ScanTap(term, s.(tapping := r)), r, true)
    else
      var t := s.tapping.(tap := s.tapping.tap.(interrupted := true));
      Offered(State(t, s.waiting, Emit(s.out, r)), r, true)
  }

  function Offer(term: nat, m: Keymap, s: State, r: Record): Offered {
    if IsTapping(s.tapping) then
      if s.tapping.event.pressed then
        if s.tapping.tap.count > 0 then OfferTapped(term, m, s, r)
        else if WithinTerm(term, s.tapping, r.event) then OfferUndecided(m, s, r)
        else Offered(State(NO_RECORD, s.waiting, Emit(s.out, s.tapping)), r, false)
      else if WithinTerm(term, s.tapping, r.event) then OfferReleased(term, m, s, r)
      else Offered(s.(tapping := NO_RECORD), r, false)
    else if r.event.pressed && m.isTap(s.out, r) then Offered(ScanTap(term, s.(tapping := r)), r, true)
    else Offered(s.(out := Emit(s.out, r)), r, true)
  }

  // ---- one call

  predicate Full(waiting: seq<Record>) { |waiting| >= WAITING_BUFFER_SIZE - 1 }

  /** Queue a record that was not consumed; an overflow drops everything. */
  function Enqueue(s: State, r: Record): State {
    if NoEvent(r.event) then s
    else if Full(s.waiting) then State(NO_RECORD, [], s.out + [ClearKeyboard])
    else s.(waiting := s.waiting + [r])
  }

  /** Offer queued records, oldest first, until one must stay. */
  function Drain(term: nat, m: Keymap, s: State): State
    decreases |s.waiting|
  {
    if s.waiting == [] then s
    else
      var x := Offer(term, m, s, s.waiting[0]);
      OfferKeepsLength(term, m, s, s.waiting[0]);
      if x.done then Drain(term, m, x.state.(waiting := x.state.waiting[1..]))
      else x.state.(waiting := x.state.waiting[0 := x.rec])
  }

  lemma OfferKeepsLength(term: nat, m: Keymap, s: State, r: Record)
    ensures |Offer(term, m, s, r).state.waiting| == |s.waiting|
  {}

  /** The first half of a call: the new event is offered before the queued ones. */
  function Accept(term: nat, m: Keymap, s: State, e: Event): State {
    var x := Offer(term, m, s, Record(e, NO_TAP));
    if x.done then x.state else Enqueue(x.state, x.rec)
  }

  function Process(term: nat, m: Keymap, s: State, e: Event): State {
    Drain(term, m, Accept(term, m, s, e))
  }

  /** One call's input: the event and the keymap as it stands during that call. */
  datatype Input = Input(event: Event, keymap: Keymap)

  function Run(term: nat, s: State, inputs: seq<Input>): State {
    if inputs == [] then s
    else
      var n := |inputs| - 1;
      Process(term, inputs[n].keymap, Run(term, s, inputs[..n]), inputs[n].event)
  }

  /** What callers send: the tick carries the key no matrix has and is not a press; an event of the
      matrix has a non-zero time. */
  predicate FromCaller(e: Event) { NoEvent(e) ==> e.key == NO_KEY && !e.pressed }

  predicate WellFormed(inputs: seq<Input>) {
    forall i :: 0 <= i < |inputs| ==> FromCaller(inputs[i].event)
  }
}

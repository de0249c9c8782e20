/**
Two macros in one buffer over values: slot 1 grows from the left end, slot 2 from the right end.

Positions are integers, since the end of an empty right macro may lie just outside either end.
*/
module MacroModel {
  import opened Common

  datatype Record = Record(key: nat, pressed: bool, time: nat)

  datatype Keycode = RecStart1 | RecStart2 | RecStop | Play1 | Play2 | Plain(code: nat)

  datatype Event = Event(keycode: Keycode, rec: Record)

  /** A direction is a slot: the left one is written upwards, the right one downwards. */
  datatype Slot = Left | Right

  /** `recording` is the slot being recorded; `played` lists the playbacks made. */
  datatype State = State(
    buffer: seq<Record>, end1: int, end2: int, pointer: int, recording: Option<Slot>, played: seq<seq<Record>>)

  function Sign(d: Slot): int { if d == Left then 1 else -1 }

  function Begin(size: nat, d: Slot): int { if d == Left then 0 else size - 1 }

  /** Position `k` records after the beginning of a slot. */
  function Pos(size: nat, d: Slot, k: int): int { Begin(size, d) + Sign(d) * k }

  function End(s: State, d: Slot): int { if d == Left then s.end1 else s.end2 }

  function Other(d: Slot): Slot { if d == Left then Right else Left }

  /** The first `n` records of a slot, in play order. */
  function Segment(buffer: seq<Record>, d: Slot, n: nat): (rs: seq<Record>)
    requires n <= |buffer|
    ensures |rs| == n
  {
    seq(n, k requires 0 <= k < n => buffer[Pos(|buffer|, d, k)])
  }

  /** How many records lie between the beginning of the slot and `p`. */
  function Length(size: nat, d: Slot, p: int): int { Sign(d) * (p - Begin(size, d)) }

  /** The macros do not overlap: the end of the first is at most one past the end of the second. */
  predicate Sound(s: State) {
    && 0 <= s.end1 <= s.end2 + 1 <= |s.buffer|
    && (s.recording.Some? ==> 0 <= Length(|s.buffer|, s.recording.value, s.pointer) <= Capacity(s, s.recording.value))
  }

  /** What a slot can hold: up to the end of the other macro. */
  function Capacity(s: State, d: Slot): int { if d == Left then s.end2 + 1 else |s.buffer| - s.end1 }

  /** The macro saved in a slot. */
  function Saved(s: State, d: Slot): seq<Record>
    requires Sound(s)
  {
    Segment(s.buffer, d, Length(|s.buffer|, d, End(s, d)))
  }

  // ---- operations

  function RecordKey(s: State, d: Slot, r: Record): State
    requires Sound(s) && s.recording == Some(d)
  {
    if !r.pressed && s.pointer == Begin(|s.buffer|, d) then s
    else if s.pointer - Sign(d) != End(s, Other(d)) then
      s.(buffer := s.buffer[s.pointer := r], pointer := s.pointer + Sign(d))
    else s
  }

  /** Step back over trailing presses. */
  function Trim(buffer: seq<Record>, d: Slot, p: int): (q: int)
    requires 0 <= Length(|buffer|, d, p) <= |buffer|
    ensures 0 <= Length(|buffer|, d, q) <= Length(|buffer|, d, p)
    decreases Length(|buffer|, d, p)
  {
    if p != Begin(|buffer|, d) && buffer[p - Sign(d)].pressed then Trim(buffer, d, p - Sign(d)) else p
  }

  function RecordEnd(s: State, d: Slot): State
    requires Sound(s) && s.recording == Some(d)
  {
    var p := Trim(s.buffer, d, s.pointer);
    if d == Left then s.(end1 := p, recording := None) else s.(end2 := p, recording := None)
  }

  function RecordStart(s: State, d: Slot): State {
    s.(pointer := Begin(|s.buffer|, d), recording := Some(d))
  }

  function Play(s: State, d: Slot): State
    requires Sound(s)
  {
    s.(played := s.played + [Saved(s, d)])
  }

  /** Not recorded while a recording is running. */
  predicate Control(k: Keycode) { k.RecStop? || k.Play1? || k.Play2? }

  function Step(s: State, e: Event): (s': State)
    requires Sound(s)
    ensures Sound(s') && |s'.buffer| == |s.buffer|
  {
    match s.recording
    case None =>
      if e.rec.pressed then s
      else
        (match e.keycode
         case RecStart1 => RecordStart(s, Left)
         case RecStart2 => RecordStart(s, Right)
         case Play1 => Play(s, Left)
         case Play2 => Play(s, Right)
         case _ => s)
    case Some(d) =>
      if e.keycode.RecStop? then if e.rec.pressed then RecordEnd(s, d) else s
      else if Control(e.keycode) then s
      else RecordKey(s, d, e.rec)
  }

  /** Whether the event is passed on to the rest of the key processing. */
  predicate PassedOn(s: State, e: Event) {
    match s.recording
    case None =>
      e.rec.pressed || !(e.keycode.RecStart1? || e.keycode.RecStart2? || e.keycode.Play1? || e.keycode.Play2?)
    case Some(_) => !Control(e.keycode)
  }

  function Initial(size: nat): State {
    State(seq(size, _ => Record(0, false, 0)), 0, size - 1, 0, None, [])
  }

  function Run(s: State, es: seq<Event>): (s': State)
    requires Sound(s)
    ensures Sound(s') && |s'.buffer| == |s.buffer|
  {
    if es == [] then s else Step(Run(s, es[..|es| - 1]), es[|es| - 1])
  }
}

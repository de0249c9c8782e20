/**
The deferred executor table over values.

An entry carries its trigger time unbounded; what the code keeps and compares is that time modulo
2^32. `Timer` chooses between the wrapping comparison of the code and comparison on unbounded time.
*/
module DeferredModel {
  import opened Common

  const TOKENS := 0x100
  const WRAP := 0x1_0000_0000
  const HALF := 0x8000_0000
  const INVALID := 0

  /** A callback (0 stands for the null pointer) and its argument. */
  datatype Job = Job(callback: nat, arg: nat)

  datatype Entry = Entry(token: nat, due: nat, job: Job)

  const FREE := Entry(INVALID, 0, Job(0, 0))

  /** The history of the table. A call records the time of the pass and the delay returned. */
  datatype Note =
    | Deferred(token: nat, due: nat, job: Job)
    | Extended(token: nat, due: nat)
    | Cancelled(token: nat)
    | Called(token: nat, due: nat, job: Job, at: nat, delay: uint32)

  /** Callbacks see the history, their argument and the 32-bit trigger time. */
  type Callbacks = (seq<Note>, Job, uint32) -> uint32

  datatype State = State(entries: seq<Entry>, current: nat, last: nat, log: seq<Note>)

  datatype Timer = Wrapping | Unbounded

  // ---- 32-bit time

  /** The difference of two 32-bit times, read as a signed number. */
  function SignedDiff(a: nat, b: nat): int {
    var d := (a % WRAP - b % WRAP) % WRAP;
    if d < HALF then d else d - WRAP
  }

  predicate Expired(timer: Timer, due: nat, now: nat) {
    match timer
    case Wrapping => SignedDiff(due, now) <= 0
    case Unbounded => due <= now
  }

  predicate Elapsed(timer: Timer, now: nat, last: nat) {
    match timer
    case Wrapping => SignedDiff(now, last) > 0
    case Unbounded => now > last
  }

  // ---- tokens

  /** The first slot holding `token`, or the number of slots. */
  function IndexOf(es: seq<Entry>, token: nat): (i: nat)
    ensures i <= |es|
    ensures i < |es| ==> es[i].token == token
    ensures forall k :: 0 <= k < i ==> es[k].token != token
  {
    if es == [] || es[0].token == token then 0
    else
      var i := 1 + IndexOf(es[1..], token);
      assert forall k :: 1 <= k < i ==> es[k] == es[1..][k - 1];
      i
  }

  predicate Usable(es: seq<Entry>, token: nat) {
    token != INVALID && forall i :: 0 <= i < |es| ==> es[i].token != token
  }

  function Candidate(current: nat, k: nat): nat { (current + k) % TOKENS }

  /** Which candidate the allocator settles on, counting from `k`; 257 when it comes full circle. */
  function FirstUsable(es: seq<Entry>, current: nat, k: nat): (j: nat)
    requires k <= TOKENS + 1
    ensures k <= j <= TOKENS + 1
    ensures j <= TOKENS ==> Usable(es, Candidate(current, j))
    ensures forall i :: k <= i < j ==> !Usable(es, Candidate(current, i))
    decreases TOKENS + 1 - k
  {
    if k == TOKENS + 1 || Usable(es, Candidate(current, k)) then k else FirstUsable(es, current, k + 1)
  }

  // ---- operations

  datatype Result = Result(state: State, token: nat)

  function Defer(s: State, now: nat, delay: uint32, job: Job): Result {
    if delay == 0 || job.callback == 0 then Result(s, INVALID)
    else
      var i := IndexOf(s.entries, INVALID);
      if i == |s.entries| then Result(s, INVALID)
      else
        var j := FirstUsable(s.entries, s.current, 1);
        var t := Candidate(s.current, j);
        if j > TOKENS then Result(s.(current := t), INVALID)
        else
          var e := Entry(t, now + delay, job);
          Result(State(s.entries[i := e], t, s.last, s.log + [Deferred(t, now + delay, job)]), t)
  }

  function Extend(s: State, now: nat, token: nat, delay: uint32): (State, bool) {
    if delay == 0 || token == INVALID then (s, false)
    else
      var i := IndexOf(s.entries, token);
      if i == |s.entries| then (s, false)
      else
        var e := s.entries[i].(due := now + delay);
        (s.(entries := s.entries[i := e], log := s.log + [Extended(token, now + delay)]), true)
  }

  function Cancel(s: State, token: nat): (State, bool) {
    if token == INVALID then (s, false)
    else
      var i := IndexOf(s.entries, token);
      if i == |s.entries| then (s, false)
      else (s.(entries := s.entries[i := FREE], log := s.log + [Cancelled(token)]), true)
  }

  /** One slot of a pass: run the callback if the entry has expired, then requeue or free it. */
  function Visit(timer: Timer, s: State, now: nat, f: Callbacks, i: nat): State
    requires i < |s.entries|
  {
    var e := s.entries[i];
    if e.token != INVALID && Expired(timer, e.due, now) then
      var delay := f(s.log, e.job, e.due % WRAP);
      var e' := if delay > 0 then e.(due := e.due + delay) else FREE;
      s.(entries := s.entries[i := e'], log := s.log + [Called(e.token, e.due, e.job, now, delay)])
    else s
  }

  function Pass(timer: Timer, s: State, now: nat, f: Callbacks, i: nat): (s': State)
    requires i <= |s.entries|
    ensures |s'.entries| == |s.entries| && s'.current == s.current && s'.last == s.last
    decreases |s.entries| - i
  {
    if i == |s.entries| then s else Pass(timer, Visit(timer, s, now, f, i), now, f, i + 1)
  }

  function Task(timer: Timer, s: State, now: nat, f: Callbacks): State {
    if Elapsed(timer, now, s.last) then Pass(timer, s.(last := now), now, f, 0) else s
  }

  datatype Op =
    | OpDefer(now: nat, delay: uint32, job: Job)
    | OpExtend(now: nat, token: nat, delay: uint32)
    | OpCancel(now: nat, token: nat)
    | OpTask(now: nat, f: Callbacks)

  function Step(timer: Timer, s: State, op: Op): State {
    match op
    case OpDefer(now, delay, job) => Defer(s, now, delay, job).state
    case OpExtend(now, token, delay) => Extend(s, now, token, delay).0
    case OpCancel(_, token) => Cancel(s, token).0
    case OpTask(now, f) => Task(timer, s, now, f)
  }

  function Initial(slots: nat): State { State(seq(slots, _ => FREE), 0, 0, []) }

  function Run(timer: Timer, slots: nat, ops: seq<Op>): State {
    if ops == [] then Initial(slots) else Step(timer, Run(timer, slots, ops[..|ops| - 1]), ops[|ops| - 1])
  }
}

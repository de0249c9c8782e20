/** The history of the executor table is the history of its operations, note by note. */
module DeferredHistory {
  import opened Common
  import opened DeferredModel
  import opened DeferredProofs

  /** Note `k` of the log is what operation `op` did: a trigger time is the time of the operation plus the delay
      it asked for, and a callback was called with its own argument and the trigger time it was due at. */
  ghost predicate NoteOf(log: seq<Note>, k: nat, op: Op)
    requires k < |log|
  {
    match log[k]
    case Deferred(token, due, job) =>
      op.OpDefer? && op.delay > 0 && due == op.now + op.delay && job == op.job && job.callback != 0
    case Extended(token, due) =>
      op.OpExtend? && op.delay > 0 && due == op.now + op.delay && token == op.token
    case Cancelled(token) => op.OpCancel? && token == op.token
    case Called(token, due, job, at, delay) =>
      op.OpTask? && at == op.now && delay == op.f(log[..k], job, due % WRAP)
  }

  /** The notes from number `from` on were made by `op`. */
  ghost predicate NotesOf(log: seq<Note>, from: nat, op: Op) {
    forall k :: from <= k < |log| ==> NoteOf(log, k, op)
  }

  lemma NoteStays(log: seq<Note>, x: Note, k: nat, op: Op)
    requires k < |log|
    ensures NoteOf(log + [x], k, op) <==> NoteOf(log, k, op)
  {
    assert (log + [x])[..k] == log[..k];
  }

  lemma NotesMore(log: seq<Note>, x: Note, from: nat, op: Op)
    requires NotesOf(log, from, op) && from <= |log| && NoteOf(log + [x], |log|, op)
    ensures NotesOf(log + [x], from, op)
  {
    hide NoteOf;
    forall k | from <= k < |log + [x]|
      ensures NoteOf(log + [x], k, op)
    {
      if k < |log| { NoteStays(log, x, k, op); }
    }
  }

  lemma VisitNotes(timer: Timer, s: State, op: Op, i: nat, from: nat)
    requires op.OpTask? && i < |s.entries| && from <= |s.log| && NotesOf(s.log, from, op)
    ensures var s' := Visit(timer, s, op.now, op.f, i);
            s.log <= s'.log && NotesOf(s'.log, from, op)
  {
    hide NotesOf;
    var e := s.entries[i];
    if e.token != INVALID && Expired(timer, e.due, op.now) {
      var x := Called(e.token, e.due, e.job, op.now, op.f(s.log, e.job, e.due % WRAP));
      assert (s.log + [x])[..|s.log|] == s.log;
      NotesMore(s.log, x, from, op);
    }
  }

  lemma {:induction false} PassNotes(timer: Timer, s: State, op: Op, i: nat, from: nat)
    requires op.OpTask? && i <= |s.entries| && from <= |s.log| && NotesOf(s.log, from, op)
    ensures var s' := Pass(timer, s, op.now, op.f, i);
            s.log <= s'.log && NotesOf(s'.log, from, op)
    decreases |s.entries| - i
  {
    hide NotesOf;
    if i < |s.entries| {
      VisitNotes(timer, s, op, i, from);
      PassNotes(timer, Visit(timer, s, op.now, op.f, i), op, i + 1, from);
    }
  }

  /** An operation adds to the history exactly notes of its own. */
  lemma StepNotes(timer: Timer, s: State, op: Op)
    ensures var s' := Step(timer, s, op);
            s.log <= s'.log && NotesOf(s'.log, |s.log|, op)
  {
    if op.OpTask? { PassNotes(timer, s.(last := op.now), op, 0, |s.log|); }
  }

  lemma {:induction false} LogGrows(timer: Timer, slots: nat, ops: seq<Op>, n: nat)
    requires n <= |ops|
    ensures Run(timer, slots, ops[..n]).log <= Run(timer, slots, ops).log
    decreases |ops|
  {
    hide Step;
    if n == |ops| {
      assert ops[..n] == ops;
    } else {
      var before := ops[..|ops| - 1];
      assert before[..n] == ops[..n];
      LogGrows(timer, slots, before, n);
      StepNotes(timer, Run(timer, slots, before), ops[|ops| - 1]);
    }
  }

  /** In every run each note was made during one operation, which it tells the truth about: which delay was asked
      for and when, and for a call, which callback ran, with which argument, and what it returned. */
  lemma {:induction false} EveryNoteHasItsOp(timer: Timer, slots: nat, ops: seq<Op>, k: nat) returns (i: nat)
    requires k < |Run(timer, slots, ops).log|
    ensures i < |ops| && |Run(timer, slots, ops[..i]).log| <= k < |Run(timer, slots, ops[..i + 1]).log|
    ensures NoteOf(Run(timer, slots, ops).log, k, ops[i])
    decreases |ops|
  {
    hide Step;
    hide NoteOf;
    var n := |ops| - 1;
    var before := ops[..n];
    var log, log1 := Run(timer, slots, ops).log, Run(timer, slots, before).log;
    StepNotes(timer, Run(timer, slots, before), ops[n]);
    if k < |log1| {
      i := EveryNoteHasItsOp(timer, slots, before, k);
      assert before[..i] == ops[..i] && before[..i + 1] == ops[..i + 1];
      SameNote(log1, log, k, before[i]);
    } else {
      i := n;
      assert ops[..n + 1] == ops;
    }
  }

  lemma SameNote(log: seq<Note>, log': seq<Note>, k: nat, op: Op)
    requires log <= log' && k < |log|
    ensures NoteOf(log', k, op) <==> NoteOf(log, k, op)
  {
    assert log[..k] == log'[..k];
  }

  // ---- operations take effect

  predicate Live(es: seq<Entry>, token: nat) {
    token != INVALID && exists i :: 0 <= i < |es| && es[i].token == token
  }

  /** Deferring succeeds exactly if a delay and a callback are given, a slot is free and a token is left; then it
      is noted under the token returned. */
  lemma DeferTakesEffect(s: State, now: nat, delay: uint32, job: Job)
    ensures var x := Defer(s, now, delay, job);
            && (x.token != INVALID <==>
                delay > 0 && job.callback != 0 && (exists i :: 0 <= i < |s.entries| && s.entries[i].token == INVALID) &&
                exists t :: 0 < t < TOKENS && Usable(s.entries, t))
            && x.state.log == if x.token == INVALID then s.log else s.log + [Deferred(x.token, now + delay, job)]
  {
    hide Candidate;
    var es := s.entries;
    var j := FirstUsable(es, s.current, 1);
    AllocationFailsIff(es, s.current);
    if exists i :: 0 <= i < |es| && es[i].token == INVALID { assert IndexOf(es, INVALID) < |es|; }
    if j <= TOKENS { assert Usable(es, Candidate(s.current, j)); }
  }

  /** Extending succeeds exactly for a live token and a delay. */
  lemma ExtendTakesEffect(s: State, now: nat, token: nat, delay: uint32)
    ensures var (s', ok) := Extend(s, now, token, delay);
            && (ok <==> delay > 0 && Live(s.entries, token))
            && s'.log == if ok then s.log + [Extended(token, now + delay)] else s.log
  {
    if Live(s.entries, token) { assert IndexOf(s.entries, token) < |s.entries|; }
  }

  /** Cancelling succeeds exactly for a live token. */
  lemma CancelTakesEffect(s: State, token: nat)
    ensures var (s', ok) := Cancel(s, token);
            && (ok <==> Live(s.entries, token))
            && s'.log == if ok then s.log + [Cancelled(token)] else s.log
  {
    if Live(s.entries, token) { assert IndexOf(s.entries, token) < |s.entries|; }
  }

  // ---- tokens take turns

  /** The token handed out last. */
  function LastToken(log: seq<Note>): nat {
    if log == [] then 0
    else
      match log[|log| - 1]
      case Deferred(token, _, _) => token
      case _ => LastToken(log[..|log| - 1])
  }

  lemma LastTokenAppend(log: seq<Note>, x: Note)
    ensures LastToken(log + [x]) == if x.Deferred? then x.token else LastToken(log)
  {
    assert (log + [x])[..|log|] == log;
  }

  lemma {:induction false} PassKeepsToken(timer: Timer, s: State, now: nat, f: Callbacks, i: nat)
    requires i <= |s.entries|
    ensures LastToken(Pass(timer, s, now, f, i).log) == LastToken(s.log)
    decreases |s.entries| - i
  {
    if i < |s.entries| {
      var e := s.entries[i];
      LastTokenAppend(s.log, Called(e.token, e.due, e.job, now, f(s.log, e.job, e.due % WRAP)));
      PassKeepsToken(timer, Visit(timer, s, now, f, i), now, f, i + 1);
    }
  }

  lemma StepKeepsCounter(timer: Timer, s: State, op: Op)
    requires s.current == LastToken(s.log) && |s.entries| < TOKENS
    ensures var s' := Step(timer, s, op); s'.current == LastToken(s'.log) && |s'.entries| == |s.entries|
  {
    hide LastToken;
    hide FirstUsable;
    match op
    case OpDefer(now, delay, job) =>
      var t := Defer(s, now, delay, job).token;
      if delay > 0 && job.callback != 0 && IndexOf(s.entries, INVALID) < |s.entries| {
        AllocationSucceeds(s.entries, s.current);
      }
      LastTokenAppend(s.log, Deferred(t, now + delay, job));
    case OpExtend(now, token, delay) =>
      LastTokenAppend(s.log, Extended(token, now + delay));
    case OpCancel(_, token) =>
      LastTokenAppend(s.log, Cancelled(token));
    case OpTask(now, f) =>
      PassKeepsToken(timer, s.(last := now), now, f, 0);
  }

  lemma {:induction false} CounterIsLastToken(timer: Timer, slots: nat, ops: seq<Op>)
    requires slots < TOKENS
    ensures var s := Run(timer, slots, ops); s.current == LastToken(s.log) && |s.entries| == slots
  {
    hide Step;
    if ops != [] {
      CounterIsLastToken(timer, slots, ops[..|ops| - 1]);
      StepKeepsCounter(timer, Run(timer, slots, ops[..|ops| - 1]), ops[|ops| - 1]);
    }
  }

  /** The `j`-th token after the one handed out last, counting round. */
  function InTurn(log: seq<Note>, j: nat): nat { (LastToken(log) + j) % 256 }

  /** In every run on fewer than 256 slots a token is not handed out again before its turn comes: each is the first
      one after that handed out last, counting round, which is neither 0 nor live. */
  lemma TokensTakeTurns(timer: Timer, slots: nat, ops: seq<Op>, now: nat, delay: uint32, job: Job) returns (j: nat)
    requires slots < TOKENS && Defer(Run(timer, slots, ops), now, delay, job).token != INVALID
    ensures var s := Run(timer, slots, ops);
            && 1 <= j <= slots + 1 && Defer(s, now, delay, job).token == InTurn(s.log, j)
            && forall i :: 1 <= i < j ==> InTurn(s.log, i) == 0 || Live(s.entries, InTurn(s.log, i))
  {
    hide LastToken;
    hide Run;
    hide Candidate;
    hide InTurn;
    CounterIsLastToken(timer, slots, ops);
    var s := Run(timer, slots, ops);
    AllocationSucceeds(s.entries, s.current);
    j := FirstUsable(s.entries, s.current, 1);
    CandidateInTurn(s, j);
    forall i | 1 <= i < j
      ensures InTurn(s.log, i) == 0 || Live(s.entries, InTurn(s.log, i))
    {
      CandidateInTurn(s, i);
      assert !Usable(s.entries, Candidate(s.current, i));
    }
  }

  lemma CandidateInTurn(s: State, i: nat)
    requires s.current == LastToken(s.log)
    ensures Candidate(s.current, i) == InTurn(s.log, i)
  {}

  // ---- the order of a pass

  /** The tokens of the entries that have expired, slot by slot. */
  function Expiring(timer: Timer, es: seq<Entry>, now: nat): seq<nat> {
    if es == [] then []
    else (if es[0].token != INVALID && Expired(timer, es[0].due, now) then [es[0].token] else []) +
         Expiring(timer, es[1..], now)
  }

  function TokensOf(notes: seq<Note>): seq<nat> {
    seq(|notes|, k requires 0 <= k < |notes| => notes[k].token)
  }

  /** A pass calls exactly the entries that have expired when it begins, in the order of their slots. */
  lemma {:induction false} PassInOrder(timer: Timer, s: State, now: nat, f: Callbacks, i: nat)
    requires i <= |s.entries|
    ensures var log := Pass(timer, s, now, f, i).log;
            s.log <= log && TokensOf(log[|s.log|..]) == Expiring(timer, s.entries[i..], now)
    decreases |s.entries| - i
  {
    hide Expired;
    if i < |s.entries| {
      var s1 := Visit(timer, s, now, f, i);
      PassInOrder(timer, s1, now, f, i + 1);
      var log := Pass(timer, s1, now, f, i + 1).log;
      assert log[|s.log|..] == s1.log[|s.log|..] + log[|s1.log|..];
      assert s.entries[i..][0] == s.entries[i];
      assert s1.entries[i + 1..] == s.entries[i..][1..];
    }
  }
}

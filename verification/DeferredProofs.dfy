/** Every run of the executor table: tokens, the schedule, and wrapping time. */
module DeferredProofs {
  import opened Arithmetic
  import opened Common
  import opened DeferredModel

  // ---- tokens

  predicate Distinct(es: seq<Entry>) {
    forall i, j :: 0 <= i < j < |es| && es[i].token != INVALID ==> es[i].token != es[j].token
  }

  predicate Sound(s: State, slots: nat) {
    && |s.entries| == slots && Distinct(s.entries) && s.current < TOKENS
    && forall i :: 0 <= i < |s.entries| ==> s.entries[i].token < TOKENS
  }

  lemma VisitSound(timer: Timer, s: State, now: nat, f: Callbacks, i: nat, slots: nat)
    requires Sound(s, slots) && i < slots
    ensures Sound(Visit(timer, s, now, f, i), slots)
  {}

  lemma {:induction false} PassSound(timer: Timer, s: State, now: nat, f: Callbacks, i: nat, slots: nat)
    requires Sound(s, slots) && i <= slots
    ensures Sound(Pass(timer, s, now, f, i), slots)
    decreases slots - i
  {
    if i < slots {
      VisitSound(timer, s, now, f, i, slots);
      PassSound(timer, Visit(timer, s, now, f, i), now, f, i + 1, slots);
    }
  }

  lemma DeferSound(s: State, now: nat, delay: uint32, job: Job, slots: nat)
    requires Sound(s, slots)
    ensures Sound(Defer(s, now, delay, job).state, slots)
  {}

  /** Live tokens are non-zero bytes and pairwise distinct in every run. */
  lemma {:induction false} TokensDistinct(timer: Timer, slots: nat, ops: seq<Op>)
    ensures Sound(Run(timer, slots, ops), slots)
  {
    if ops != [] {
      var n := |ops| - 1;
      TokensDistinct(timer, slots, ops[..n]);
      var s := Run(timer, slots, ops[..n]);
      if ops[n].OpTask? { PassSound(timer, s.(last := ops[n].now), ops[n].now, ops[n].f, 0, slots); }
    }
  }

  function TokenSet(es: seq<Entry>): (ts: set<nat>)
    ensures forall i :: 0 <= i < |es| ==> es[i].token in ts
    ensures |ts| <= |es|
  {
    if es == [] then {} else {es[0].token} + TokenSet(es[1..])
  }

  /** The first `n` candidates. */
  function Candidates(current: nat, n: nat): set<nat> {
    if n == 0 then {} else Candidates(current, n - 1) + {Candidate(current, n)}
  }

  lemma {:induction false} CandidateIn(current: nat, n: nat, c: nat)
    ensures c in Candidates(current, n) <==> exists i :: 1 <= i <= n && c == Candidate(current, i)
  {
    if n > 0 { CandidateIn(current, n - 1, c); }
  }

  lemma ModApart(a: nat, b: nat)
    requires a < b < a + TOKENS
    ensures a % TOKENS != b % TOKENS
  {}

  lemma ModNext(a: nat)
    ensures (a % TOKENS + 1) % TOKENS == (a + 1) % TOKENS
  {}

  lemma ModAgain(a: nat)
    ensures (a + TOKENS) % TOKENS == a % TOKENS
  {}

  /** Counting on from candidate `k`; candidate 257 is the first one again, and no earlier one is. */
  lemma CandidateStep(current: nat, k: nat)
    requires 1 <= k <= TOKENS
    ensures (Candidate(current, k) + 1) % TOKENS == Candidate(current, k + 1)
    ensures Candidate(current, k + 1) == Candidate(current, 1) <==> k == TOKENS
  {
    ModNext(current + k);
    ModAgain(current + 1);
    if k < TOKENS { ModApart(current + 1, current + k + 1); }
  }

  lemma ModIs(a: nat, q: nat, r: nat)
    requires a == TOKENS * q + r && r < TOKENS
    ensures a % TOKENS == r
  {}

  /** Every byte comes up within one turn. */
  lemma CandidateFor(current: nat, t: nat) returns (k: nat)
    requires t < TOKENS
    ensures 1 <= k <= TOKENS && Candidate(current, k) == t
  {
    var c, q := current % TOKENS, current / TOKENS;
    k := if t > c then t - c else t + TOKENS - c;
    ModIs(current + k, if t > c then q else q + 1, t);
  }

  /** One turn of the 8-bit counter repeats no value. */
  lemma {:induction false} CandidatesCount(current: nat, n: nat)
    requires n <= TOKENS
    ensures |Candidates(current, n)| == n
  {
    if n > 0 {
      CandidatesCount(current, n - 1);
      CandidateIn(current, n - 1, Candidate(current, n));
      forall i | 1 <= i < n
        ensures Candidate(current, i) != Candidate(current, n)
      {
        ModApart(current + i, current + n);
      }
    }
  }

  /** With a free slot, allocation succeeds within one candidate more than there are slots, as long
      as there are at most 255 slots; it wraps around the 8-bit counter if it must. */
  lemma AllocationSucceeds(es: seq<Entry>, current: nat)
    requires |es| < TOKENS && IndexOf(es, INVALID) < |es|
    ensures FirstUsable(es, current, 1) <= |es| + 1
  {
    var j := FirstUsable(es, current, 1);
    if j > |es| + 1 {
      var n := |es| + 1;
      forall c | c in Candidates(current, n)
        ensures c in TokenSet(es)
      {
        CandidateIn(current, n, c);
        var i :| 1 <= i <= n && c == Candidate(current, i);
        assert !Usable(es, c);
        assert es[IndexOf(es, INVALID)].token == INVALID;
      }
      CandidatesCount(current, n);
      SubsetSize(Candidates(current, n), TokenSet(es));
    }
  }

  /** Without any bound on the slots: allocation fails exactly when every byte but 0 is taken. */
  lemma AllocationFailsIff(es: seq<Entry>, current: nat)
    ensures FirstUsable(es, current, 1) > TOKENS <==> forall t :: 0 < t < TOKENS ==> !Usable(es, t)
  {
    var j := FirstUsable(es, current, 1);
    if j > TOKENS {
      forall t | 0 < t < TOKENS
        ensures !Usable(es, t)
      {
        var k := CandidateFor(current, t);
      }
    } else {
      assert Usable(es, Candidate(current, j)) && 0 < Candidate(current, j) < TOKENS;
    }
  }

  // ---- the schedule

  datatype Promise = Promise(due: nat, job: Job)

  /** What the history promises: for each live token the time and job of its next call. A call
      moves the promise by the delay it returned, whatever the time of the pass. */
  function Promises(log: seq<Note>): map<nat, Promise> {
    if log == [] then map[]
    else
      var m := Promises(log[..|log| - 1]);
      var x := log[|log| - 1];
      match x
      case Deferred(t, due, job) => m[t := Promise(due, job)]
      case Extended(t, due) => if t in m then m[t := Promise(due, m[t].job)] else m
      case Cancelled(t) => m - {t}
      case Called(t, _, _, _, delay) =>
        if t !in m then m else if delay == 0 then m - {t} else m[t := Promise(m[t].due + delay, m[t].job)]
  }

  predicate Keeps(es: seq<Entry>, m: map<nat, Promise>) {
    && (forall i :: 0 <= i < |es| && es[i].token != INVALID ==>
          es[i].token in m && m[es[i].token] == Promise(es[i].due, es[i].job))
    && (forall t :: t in m ==> t != INVALID && exists i :: 0 <= i < |es| && es[i].token == t)
  }

  /** Each call was promised: it got the promised trigger time and job. */
  predicate CallPromised(log: seq<Note>, i: nat)
    requires i < |log|
  {
    log[i].Called? ==>
      var m := Promises(log[..i]);
      log[i].token in m && m[log[i].token] == Promise(log[i].due, log[i].job)
  }

  predicate Faithful(s: State) {
    Keeps(s.entries, Promises(s.log)) && forall i :: 0 <= i < |s.log| ==> CallPromised(s.log, i)
  }

  lemma LogAppend(log: seq<Note>, x: Note)
    requires forall i :: 0 <= i < |log| ==> CallPromised(log, i)
    requires x.Called? ==> x.token in Promises(log) && Promises(log)[x.token] == Promise(x.due, x.job)
    ensures forall i :: 0 <= i < |log + [x]| ==> CallPromised(log + [x], i)
    ensures (log + [x])[..|log|] == log
  {
    forall i | 0 <= i < |log + [x]|
      ensures CallPromised(log + [x], i)
    {
      assert (log + [x])[..i] == log[..i];
      assert i < |log| ==> CallPromised(log, i);
      assert log[..|log|] == log;
    }
  }

  /** Replacing the entry of a live token keeps the table in step with the promises. */
  lemma KeepsUpdate(es: seq<Entry>, m: map<nat, Promise>, i: nat, e: Entry)
    requires Keeps(es, m) && Distinct(es) && i < |es| && es[i].token != INVALID
    requires e.token == es[i].token || e.token == INVALID
    ensures e.token != INVALID ==> Keeps(es[i := e], m[e.token := Promise(e.due, e.job)])
    ensures e.token == INVALID ==> Keeps(es[i := e], m - {es[i].token})
  {
    var es' := es[i := e];
    forall t | t in m && (e.token == INVALID ==> t != es[i].token)
      ensures exists k :: 0 <= k < |es'| && es'[k].token == t
    {
      var k :| 0 <= k < |es| && es[k].token == t;
      assert es'[k].token == t;
    }
    if e.token != INVALID { assert es'[i].token == e.token; }
  }

  lemma KeepsInsert(es: seq<Entry>, m: map<nat, Promise>, i: nat, e: Entry)
    requires Keeps(es, m) && i < |es| && es[i].token == INVALID && Usable(es, e.token)
    ensures Keeps(es[i := e], m[e.token := Promise(e.due, e.job)])
  {
    var es' := es[i := e];
    assert es'[i].token == e.token;
    forall t | t in m
      ensures exists k :: 0 <= k < |es'| && es'[k].token == t
    {
      var k :| 0 <= k < |es| && es[k].token == t;
      assert es'[k].token == t;
    }
  }

  lemma KeepsLive(es: seq<Entry>, m: map<nat, Promise>, i: nat)
    requires Keeps(es, m) && i < |es| && es[i].token != INVALID
    ensures es[i].token in m && m[es[i].token] == Promise(es[i].due, es[i].job)
  {}

  lemma VisitFaithful(timer: Timer, s: State, now: nat, f: Callbacks, i: nat, slots: nat)
    requires Sound(s, slots) && Faithful(s) && i < slots
    ensures Faithful(Visit(timer, s, now, f, i))
  {
    hide CallPromised;
    hide Keeps;
    hide Expired;
    var e := s.entries[i];
    if e.token != INVALID && Expired(timer, e.due, now) {
      var delay := f(s.log, e.job, e.due % WRAP);
      KeepsLive(s.entries, Promises(s.log), i);
      LogAppend(s.log, Called(e.token, e.due, e.job, now, delay));
      KeepsUpdate(s.entries, Promises(s.log), i, if delay > 0 then e.(due := e.due + delay) else FREE);
    }
  }

  lemma {:induction false} PassFaithful(timer: Timer, s: State, now: nat, f: Callbacks, i: nat, slots: nat)
    requires Sound(s, slots) && Faithful(s) && i <= slots
    ensures Faithful(Pass(timer, s, now, f, i))
    decreases slots - i
  {
    hide Faithful;
    if i < slots {
      VisitSound(timer, s, now, f, i, slots);
      VisitFaithful(timer, s, now, f, i, slots);
      PassFaithful(timer, Visit(timer, s, now, f, i), now, f, i + 1, slots);
    }
  }

  lemma DeferFaithful(s: State, now: nat, delay: uint32, job: Job)
    requires Faithful(s)
    ensures Faithful(Defer(s, now, delay, job).state)
  {
    hide Candidate;
    hide CallPromised;
    hide Keeps;
    var i := IndexOf(s.entries, INVALID);
    var t := Candidate(s.current, FirstUsable(s.entries, s.current, 1));
    if delay != 0 && job.callback != 0 && i < |s.entries| && Usable(s.entries, t) {
      LogAppend(s.log, Deferred(t, now + delay, job));
      KeepsInsert(s.entries, Promises(s.log), i, Entry(t, now + delay, job));
    }
  }

  lemma ExtendFaithful(s: State, now: nat, token: nat, delay: uint32)
    requires Distinct(s.entries) && Faithful(s)
    ensures Faithful(Extend(s, now, token, delay).0)
  {
    hide CallPromised;
    hide Keeps;
    var i := IndexOf(s.entries, token);
    if token != INVALID && i < |s.entries| {
      KeepsLive(s.entries, Promises(s.log), i);
      LogAppend(s.log, Extended(token, now + delay));
      KeepsUpdate(s.entries, Promises(s.log), i, s.entries[i].(due := now + delay));
    }
  }

  lemma CancelFaithful(s: State, token: nat)
    requires Distinct(s.entries) && Faithful(s)
    ensures Faithful(Cancel(s, token).0)
  {
    hide CallPromised;
    hide Keeps;
    var i := IndexOf(s.entries, token);
    if token != INVALID && i < |s.entries| {
      LogAppend(s.log, Cancelled(token));
      KeepsUpdate(s.entries, Promises(s.log), i, FREE);
    }
  }

  lemma StepFaithful(timer: Timer, s: State, op: Op, slots: nat)
    requires Sound(s, slots) && Faithful(s)
    ensures Faithful(Step(timer, s, op))
  {
    hide Defer;
    hide Extend;
    hide Cancel;
    match op
    case OpDefer(now, delay, job) => DeferFaithful(s, now, delay, job);
    case OpExtend(now, token, delay) => ExtendFaithful(s, now, token, delay);
    case OpCancel(_, token) => CancelFaithful(s, token);
    case OpTask(now, f) => PassFaithful(timer, s.(last := now), now, f, 0, slots);
  }

  /** In every run the live entries are exactly the promises of the history, and every call was made
      with the trigger time and job that were promised for that token. */
  lemma {:induction false} EveryCallPromised(timer: Timer, slots: nat, ops: seq<Op>)
    ensures Faithful(Run(timer, slots, ops))
  {
    if ops != [] {
      var n := |ops| - 1;
      EveryCallPromised(timer, slots, ops[..n]);
      TokensDistinct(timer, slots, ops[..n]);
      StepFaithful(timer, Run(timer, slots, ops[..n]), ops[n], slots);
    }
  }

  /** The delays returned by the calls of `token`. */
  function Delays(log: seq<Note>, token: nat): nat {
    if log == [] then 0
    else Delays(log[..|log| - 1], token) +
         var x := log[|log| - 1]; if x.Called? && x.token == token then x.delay else 0
  }

  /** No drift: from one scheduling of a token on, as long as it is only called and stays live, its
      next trigger time is the first one plus all the delays returned since. */
  lemma {:induction false} NoDrift(log: seq<Note>, start: nat, token: nat)
    requires start <= |log| && token in Promises(log[..start])
    requires forall i :: start <= i < |log| && log[i].token == token ==> log[i].Called? && log[i].delay > 0
    ensures token in Promises(log) && Promises(log)[token].job == Promises(log[..start])[token].job
    ensures Promises(log)[token].due ==
            Promises(log[..start])[token].due + Delays(log, token) - Delays(log[..start], token)
  {
    if start == |log| {
      assert log[..start] == log;
    } else {
      var log' := log[..|log| - 1];
      assert log'[..start] == log[..start];
      NoDrift(log', start, token);
    }
  }

  /** Only calls that keep the token live concern it in `log[from..to]`. */
  predicate OnlyCalled(log: seq<Note>, from: nat, to: nat, token: nat)
    requires to <= |log|
  {
    forall i :: from <= i < to && log[i].token == token ==> log[i].Called? && log[i].delay > 0
  }

  /** A call does not bring a token to life. */
  lemma {:induction false} StaysUnpromised(log: seq<Note>, start: nat, token: nat)
    requires start <= |log| && token !in Promises(log[..start]) && OnlyCalled(log, start, |log|, token)
    ensures token !in Promises(log)
  {
    if start == |log| {
      assert log[..start] == log;
    } else {
      var log' := log[..|log| - 1];
      assert log'[..start] == log[..start];
      StaysUnpromised(log', start, token);
    }
  }

  /** Scheduling a token fixes the time of its next call; deferring fixes the job too. */
  lemma Scheduled(log: seq<Note>, i: nat)
    requires i < |log| && (log[i].Deferred? || log[i].Extended?) && log[i].token in Promises(log[..i + 1])
    ensures Promises(log[..i + 1])[log[i].token].due == log[i].due
    ensures log[i].Deferred? ==> Promises(log[..i + 1])[log[i].token].job == log[i].job
  {
    assert log[..i + 1][..i] == log[..i];
  }

  /** A log of which each call was promised: from note `i`, which schedules a token, up to note `k`, which
      calls it, only calls of the token lie between. */
  lemma OnSchedule(log: seq<Note>, i: nat, k: nat)
    requires i < k < |log| && CallPromised(log, k)
    requires (log[i].Deferred? || log[i].Extended?) && log[k].Called? && log[k].token == log[i].token
    requires OnlyCalled(log, i + 1, k, log[i].token)
    ensures log[k].due == log[i].due + Delays(log[..k], log[i].token) - Delays(log[..i + 1], log[i].token)
    ensures log[i].Deferred? ==> log[k].job == log[i].job
  {
    hide Promises;
    hide Delays;
    var token := log[i].token;
    var before := log[..k];
    assert before[..i + 1] == log[..i + 1];
    if token !in Promises(log[..i + 1]) {
      StaysUnpromised(before, i + 1, token);
    } else {
      Scheduled(log, i);
      NoDrift(before, i + 1, token);
    }
  }

  /** No drift, in every run: a callback receives the trigger time last requested for its token, by deferring
      it or by extending it, plus all delays it returned since, whatever the times of the passes. */
  lemma RunsOnSchedule(timer: Timer, slots: nat, ops: seq<Op>, i: nat, k: nat)
    requires var log := Run(timer, slots, ops).log;
             && i < k < |log| && (log[i].Deferred? || log[i].Extended?)
             && log[k].Called? && log[k].token == log[i].token && OnlyCalled(log, i + 1, k, log[i].token)
    ensures var log, t := Run(timer, slots, ops).log, Run(timer, slots, ops).log[i].token;
            && log[k].due == log[i].due + Delays(log[..k], t) - Delays(log[..i + 1], t)
            && (log[i].Deferred? ==> log[k].job == log[i].job)
  {
    hide Run;
    EveryCallPromised(timer, slots, ops);
    OnSchedule(Run(timer, slots, ops).log, i, k);
  }

  /** Extending a token and calling it change nothing about its job. */
  lemma {:induction false} JobStays(log: seq<Note>, start: nat, token: nat)
    requires start <= |log| && token in Promises(log[..start])
    requires forall i :: start <= i < |log| && log[i].token == token ==>
               log[i].Extended? || (log[i].Called? && log[i].delay > 0)
    ensures token in Promises(log) && Promises(log)[token].job == Promises(log[..start])[token].job
  {
    if start == |log| {
      assert log[..start] == log;
    } else {
      var log' := log[..|log| - 1];
      assert log'[..start] == log[..start];
      JobStays(log', start, token);
    }
  }

  /** In every run each call is of the callback and argument that were deferred for its token, however often
      it was called or extended in between. */
  lemma RunsOwnJob(timer: Timer, slots: nat, ops: seq<Op>, i: nat, k: nat)
    requires var log := Run(timer, slots, ops).log;
             && i < k < |log| && log[i].Deferred? && log[k].Called? && log[k].token == log[i].token
             && forall j :: i < j < k && log[j].token == log[i].token ==>
                  log[j].Extended? || (log[j].Called? && log[j].delay > 0)
    ensures var log := Run(timer, slots, ops).log; log[k].job == log[i].job
  {
    hide Run;
    var log := Run(timer, slots, ops).log;
    EveryCallPromised(timer, slots, ops);
    assert CallPromised(log, k);
    assert log[..i + 1][..i] == log[..i] && log[..k][..i + 1] == log[..i + 1];
    JobStays(log[..k], i + 1, log[i].token);
  }

  // ---- one pass

  /** The calls made by the slots from `i` on are calls of their tokens, each at most once. */
  lemma {:induction false} PassOnce(timer: Timer, s: State, now: nat, f: Callbacks, i: nat, slots: nat)
    requires Sound(s, slots) && i <= slots
    ensures var log := Pass(timer, s, now, f, i).log;
            s.log <= log &&
            (forall k :: |s.log| <= k < |log| ==> log[k].Called? && log[k].at == now) &&
            (forall k :: |s.log| <= k < |log| ==>
               exists j :: i <= j < slots && s.entries[j].token == log[k].token && log[k].token != INVALID) &&
            (forall a, b :: |s.log| <= a < b < |log| ==> log[a].token != log[b].token)
    decreases slots - i
  {
    if i < slots {
      var s1 := Visit(timer, s, now, f, i);
      VisitSound(timer, s, now, f, i, slots);
      PassOnce(timer, s1, now, f, i + 1, slots);
    }
  }

  /** Each slot of a pass is treated once, on the state it had when the pass began. */
  lemma {:induction false} PassSlot(timer: Timer, s: State, now: nat, f: Callbacks, i: nat, j: nat)
    requires i <= |s.entries| && j < |s.entries|
    ensures var s' := Pass(timer, s, now, f, i);
            var e := s.entries[j];
            s.log <= s'.log &&
            if i <= j && e.token != INVALID && Expired(timer, e.due, now)
            then exists k :: |s.log| <= k < |s'.log| &&
                   s'.log[k].Called? && s'.log[k].token == e.token && s'.log[k].due == e.due && s'.log[k].at == now &&
                   s'.entries[j] == (if s'.log[k].delay > 0 then e.(due := e.due + s'.log[k].delay) else FREE)
            else s'.entries[j] == e
    decreases |s.entries| - i
  {
    if i < |s.entries| {
      var s1 := Visit(timer, s, now, f, i);
      var s' := Pass(timer, s1, now, f, i + 1);
      PassSlot(timer, s1, now, f, i + 1, j);
      if i == j && s1 != s {
        assert s'.log[|s.log|] == s1.log[|s.log|];
      }
    }
  }

  // ---- wrapping time

  /** The signed reading of the wrapped difference is the true difference within half a turn. */
  lemma SignedExact(a: nat, b: nat)
    requires -HALF <= a - b < HALF
    ensures SignedDiff(a, b) == a - b
  {
    var d := (a % WRAP - b % WRAP) % WRAP;
    assert a == WRAP * (a / WRAP) + a % WRAP && b == WRAP * (b / WRAP) + b % WRAP;
    assert a - b == WRAP * (a / WRAP - b / WRAP) + (a % WRAP - b % WRAP);
    var q := a / WRAP - b / WRAP;
    assert -1 <= q <= 1;
  }

  lemma {:induction false} PassExact(s: State, now: nat, f: Callbacks, i: nat)
    requires i <= |s.entries|
    requires forall j :: i <= j < |s.entries| && s.entries[j].token != INVALID ==>
               -HALF <= s.entries[j].due - now < HALF
    ensures Pass(Wrapping, s, now, f, i) == Pass(Unbounded, s, now, f, i)
    decreases |s.entries| - i
  {
    if i < |s.entries| {
      if s.entries[i].token != INVALID { SignedExact(s.entries[i].due, now); }
      PassExact(Visit(Unbounded, s, now, f, i), now, f, i + 1);
    }
  }

  predicate InOrder(ops: seq<Op>) {
    forall i, j :: 0 <= i < j < |ops| ==> ops[i].now <= ops[j].now
  }

  /** Requested delays, and the delays callbacks return, stay below 2^31. */
  ghost predicate ShortDelays(ops: seq<Op>) {
    forall i :: 0 <= i < |ops| ==>
      match ops[i]
      case OpDefer(_, delay, _) => delay < HALF
      case OpExtend(_, _, delay) => delay < HALF
      case OpCancel(_, _) => true
      case OpTask(_, f) => forall log, job, due :: f(log, job, due) < HALF
  }

  /** No pass comes more than 2^31 after a trigger time or 2^31 after the pass before. */
  predicate Punctual(slots: nat, ops: seq<Op>) {
    forall i :: 0 <= i < |ops| && ops[i].OpTask? ==>
      var s := Run(Unbounded, slots, ops[..i]);
      && ops[i].now - s.last < HALF
      && forall k :: 0 <= k < |s.entries| && s.entries[k].token != INVALID ==> ops[i].now - s.entries[k].due <= HALF
  }

  /** Trigger times lie less than 2^31 ahead, and the last pass is not in the future. */
  predicate Ahead(s: State, now: nat) {
    s.last <= now && forall i :: 0 <= i < |s.entries| && s.entries[i].token != INVALID ==> s.entries[i].due - now < HALF
  }

  lemma {:induction false} PassAhead(s: State, now: nat, f: Callbacks, i: nat)
    requires i <= |s.entries| && Ahead(s, now)
    requires forall log, job, due :: f(log, job, due) < HALF
    ensures Ahead(Pass(Unbounded, s, now, f, i), now)
    decreases |s.entries| - i
  {
    if i < |s.entries| { PassAhead(Visit(Unbounded, s, now, f, i), now, f, i + 1); }
  }

  lemma StepAhead(s: State, op: Op, now: nat)
    requires Ahead(s, now) && now <= op.now && ShortDelays([op])
    ensures Ahead(Step(Unbounded, s, op), op.now)
  {
    assert [op][0] == op;
    if op.OpTask? { PassAhead(s.(last := op.now), op.now, op.f, 0); }
  }

  lemma {:induction false} RunAhead(slots: nat, ops: seq<Op>)
    requires InOrder(ops) && ShortDelays(ops)
    ensures Ahead(Run(Unbounded, slots, ops), if ops == [] then 0 else ops[|ops| - 1].now)
  {
    if ops != [] {
      var n := |ops| - 1;
      RunAhead(slots, ops[..n]);
      StepAhead(Run(Unbounded, slots, ops[..n]), ops[n], if n == 0 then 0 else ops[n - 1].now);
    }
  }

  /** Under short delays and punctual passes the wrapping 32-bit scheduler makes exactly the calls, at
      exactly the passes, of the scheduler on unbounded time. */
  lemma {:induction false} WrappingIsExact(slots: nat, ops: seq<Op>)
    requires InOrder(ops) && ShortDelays(ops) && Punctual(slots, ops)
    ensures Run(Wrapping, slots, ops) == Run(Unbounded, slots, ops)
  {
    if ops != [] {
      var n := |ops| - 1;
      var before := ops[..n];
      assert forall i :: 0 <= i < n ==> before[..i] == ops[..i];
      WrappingIsExact(slots, before);
      RunAhead(slots, before);
      var s := Run(Unbounded, slots, before);
      if ops[n].OpTask? {
        SignedExact(ops[n].now, s.last);
        PassExact(s.(last := ops[n].now), ops[n].now, ops[n].f, 0);
      }
    }
  }

  // ---- a condition on the operations alone

  /** Time of the last pass asked for. */
  function LastTask(ops: seq<Op>): nat {
    if ops == [] then 0
    else
      var op := ops[|ops| - 1];
      if op.OpTask? then op.now else LastTask(ops[..|ops| - 1])
  }

  /** Passes are asked for at least every `gap` ms, and callbacks ask to be called again no sooner than that. */
  ghost predicate Steady(gap: nat, ops: seq<Op>) {
    forall i :: 0 <= i < |ops| ==>
      match ops[i]
      case OpTask(now, f) =>
        now <= LastTask(ops[..i]) + gap && forall log, job, due :: f(log, job, due) == 0 || f(log, job, due) >= gap
      case _ => true
  }

  /** Entry `e` is free or due no earlier than `t`. */
  predicate DueFrom(e: Entry, t: int) { e.token != INVALID ==> e.due >= t }

  predicate OnTime(log: seq<Note>, gap: nat) {
    forall k :: 0 <= k < |log| && log[k].Called? ==> log[k].at <= log[k].due + gap
  }

  /** Between operations no entry is due before the last pass, and no call was later than `gap`. */
  predicate UpToDate(s: State, gap: nat, last: nat) {
    s.last == last && OnTime(s.log, gap) && forall i :: 0 <= i < |s.entries| ==> DueFrom(s.entries[i], last)
  }

  /** A pass that comes in time leaves no entry due before it. */
  lemma {:induction false} PassSteady(s: State, now: nat, f: Callbacks, i: nat, gap: nat)
    requires i <= |s.entries| && OnTime(s.log, gap)
    requires forall log, job, due :: f(log, job, due) == 0 || f(log, job, due) >= gap
    requires forall j :: 0 <= j < |s.entries| ==> DueFrom(s.entries[j], if j < i then now else now - gap)
    ensures var s' := Pass(Unbounded, s, now, f, i);
            OnTime(s'.log, gap) && forall j :: 0 <= j < |s'.entries| ==> DueFrom(s'.entries[j], now)
    decreases |s.entries| - i
  {
    if i < |s.entries| {
      var e := s.entries[i];
      assert DueFrom(e, now - gap);
      PassSteady(Visit(Unbounded, s, now, f, i), now, f, i + 1, gap);
    }
  }

  lemma StepUpToDate(s: State, op: Op, gap: nat, last: nat)
    requires UpToDate(s, gap, last) && last <= op.now
    requires op.OpTask? ==>
               op.now <= last + gap && forall log, job, due :: op.f(log, job, due) == 0 || op.f(log, job, due) >= gap
    ensures UpToDate(Step(Unbounded, s, op), gap, if op.OpTask? then op.now else last)
  {
    if op.OpTask? && op.now > s.last {
      forall j | 0 <= j < |s.entries|
        ensures DueFrom(s.entries[j], op.now - gap)
      {
        assert DueFrom(s.entries[j], last);
      }
      PassSteady(s.(last := op.now), op.now, op.f, 0, gap);
    }
  }

  lemma LastTaskInOrder(ops: seq<Op>, now: nat)
    requires InOrder(ops) && forall i :: 0 <= i < |ops| ==> ops[i].now <= now
    ensures LastTask(ops) <= now
  {}

  lemma {:induction false} RunUpToDate(slots: nat, gap: nat, ops: seq<Op>)
    requires InOrder(ops) && Steady(gap, ops)
    ensures UpToDate(Run(Unbounded, slots, ops), gap, LastTask(ops))
  {
    if ops != [] {
      hide UpToDate;
      hide Step;
      var n := |ops| - 1;
      var before := ops[..n];
      SteadyBefore(gap, ops, n);
      RunUpToDate(slots, gap, before);
      LastTaskInOrder(before, ops[n].now);
      StepUpToDate(Run(Unbounded, slots, before), ops[n], gap, LastTask(before));
    } else {
      NothingYet(slots, gap);
    }
  }

  lemma NothingYet(slots: nat, gap: nat)
    ensures UpToDate(Initial(slots), gap, 0)
  {}

  lemma SteadyBefore(gap: nat, ops: seq<Op>, i: nat)
    requires i < |ops| && InOrder(ops) && Steady(gap, ops)
    ensures InOrder(ops[..i]) && Steady(gap, ops[..i])
  {
    var before := ops[..i];
    assert forall j :: 0 <= j < i ==> before[..j] == ops[..j] && before[j] == ops[j];
  }

  /** Operations in order with such passes are punctual, and no call is later than `gap`. */
  lemma SteadyIsPunctual(slots: nat, gap: nat, ops: seq<Op>)
    requires InOrder(ops) && Steady(gap, ops) && gap < HALF
    ensures Punctual(slots, ops) && OnTime(Run(Unbounded, slots, ops).log, gap)
  {
    RunUpToDate(slots, gap, ops);
    hide Run;
    forall i | 0 <= i < |ops| && ops[i].OpTask?
      ensures var s := Run(Unbounded, slots, ops[..i]);
              ops[i].now - s.last < HALF &&
              forall k :: 0 <= k < |s.entries| && s.entries[k].token != INVALID ==>
                ops[i].now - s.entries[k].due <= HALF
    {
      SteadyBefore(gap, ops, i);
      RunUpToDate(slots, gap, ops[..i]);
      var s := Run(Unbounded, slots, ops[..i]);
      assert forall k :: 0 <= k < |s.entries| ==> DueFrom(s.entries[k], s.last);
    }
  }

  /** So a condition on the operations alone makes the 32-bit scheduler exact, never early, and never later
      than the gap between passes. */
  lemma SteadyIsExact(slots: nat, gap: nat, ops: seq<Op>)
    requires InOrder(ops) && ShortDelays(ops) && Steady(gap, ops) && gap < HALF
    ensures Run(Wrapping, slots, ops) == Run(Unbounded, slots, ops)
    ensures NotEarly(Run(Wrapping, slots, ops).log) && OnTime(Run(Wrapping, slots, ops).log, gap)
  {
    SteadyIsPunctual(slots, gap, ops);
    WrappingIsExact(slots, ops);
    NeverEarly(slots, ops);
  }

  // ---- never early

  predicate NotEarly(log: seq<Note>) {
    forall k :: 0 <= k < |log| && log[k].Called? ==> log[k].due <= log[k].at
  }

  lemma {:induction false} PassNotEarly(s: State, now: nat, f: Callbacks, i: nat)
    requires i <= |s.entries| && NotEarly(s.log)
    ensures NotEarly(Pass(Unbounded, s, now, f, i).log)
    decreases |s.entries| - i
  {
    if i < |s.entries| { PassNotEarly(Visit(Unbounded, s, now, f, i), now, f, i + 1); }
  }

  lemma {:induction false} UnboundedNeverEarly(slots: nat, ops: seq<Op>)
    ensures NotEarly(Run(Unbounded, slots, ops).log)
  {
    if ops != [] {
      var n := |ops| - 1;
      UnboundedNeverEarly(slots, ops[..n]);
      if ops[n].OpTask? {
        PassNotEarly(Run(Unbounded, slots, ops[..n]).(last := ops[n].now), ops[n].now, ops[n].f, 0);
      }
    }
  }

  /** No callback of the 32-bit scheduler runs before its trigger time. */
  lemma NeverEarly(slots: nat, ops: seq<Op>)
    requires InOrder(ops) && ShortDelays(ops) && Punctual(slots, ops)
    ensures NotEarly(Run(Wrapping, slots, ops).log)
  {
    WrappingIsExact(slots, ops);
    UnboundedNeverEarly(slots, ops);
  }

  /** The wrapped difference, read as a signed number, is wrong by a full turn beyond half a turn. */
  lemma SignedFar(a: nat, b: nat)
    requires -WRAP < a - b < WRAP
    ensures SignedDiff(a, b) == if a - b < -HALF then a - b + WRAP else if a - b < HALF then a - b else a - b - WRAP
  {
    hide SignedDiff;
    SignedTurn(a, b);
    if a - b < -HALF {
      SignedExact(a + WRAP, b);
    } else if a - b < HALF {
      SignedExact(a, b);
    } else {
      SignedExact(a, b + WRAP);
    }
  }

  lemma SignedTurn(a: nat, b: nat)
    ensures SignedDiff(a + WRAP, b) == SignedDiff(a, b) == SignedDiff(a, b + WRAP)
  {
    TurnMod(a);
    TurnMod(b);
  }

  lemma TurnMod(a: nat)
    ensures (a + WRAP) % WRAP == a % WRAP
  {}

  /** The exact condition on both sides, within a turn of the timer: the comparisons of the code agree with
      those on unbounded time if and only if the two times are less than half a turn apart, or half a turn
      with the first one behind. */
  lemma ComparisonExactIff(a: nat, b: nat)
    requires -WRAP < a - b < WRAP
    ensures (Expired(Wrapping, a, b) <==> Expired(Unbounded, a, b)) <==> -HALF <= a - b < HALF
    ensures (Elapsed(Wrapping, a, b) <==> Elapsed(Unbounded, a, b)) <==> -HALF <= a - b < HALF
  {
    SignedFar(a, b);
  }

  /** Why delays must stay below 2^31: an entry whose trigger time lies ahead is run too early by a
      pass exactly when it lies 2^31 or more ahead. */
  lemma EarlyIffFarAhead(due: nat, now: nat)
    requires now < due < now + WRAP
    ensures Expired(Wrapping, due, now) <==> due - now >= HALF
  {
    ComparisonExactIff(due, now);
  }

  /** Why passes must come in time: an expired entry is skipped exactly when the pass comes more than 2^31
      after its trigger time. */
  lemma SkippedIffFarBehind(due: nat, now: nat)
    requires due <= now < due + WRAP
    ensures !Expired(Wrapping, due, now) <==> now - due > HALF
  {
    ComparisonExactIff(due, now);
  }

  /** A whole pass is skipped, although time has passed since the one before, exactly when it comes 2^31 or
      more after that one. */
  lemma PassSkippedIffLate(s: State, now: nat, f: Callbacks)
    requires s.last < now < s.last + WRAP
    ensures !Elapsed(Wrapping, now, s.last) <==> now - s.last >= HALF
    ensures now - s.last >= HALF ==> Task(Wrapping, s, now, f) == s
  {
    ComparisonExactIff(now, s.last);
  }
}

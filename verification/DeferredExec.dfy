/** The executor table as it runs: an array of slots and an 8-bit token counter, updated in place. */
module DeferredExec {
  import opened Common
  import opened DeferredModel
  import opened DeferredProofs

  lemma NextCandidate(current: nat)
    ensures (current + 1) % TOKENS == Candidate(current, 1)
  {}

  lemma TokenIsByte(es: seq<Entry>, current: nat, k: nat)
    requires Usable(es, Candidate(current, k))
    ensures 0 < Candidate(current, k) < TOKENS
  {}

  lemma SoundCurrent(s: State, slots: nat)
    requires Sound(s, slots)
    ensures s.current < TOKENS
  {}

  class Executors {
    const table: array<Entry>
    var current: nat
    var last: nat
    var log: seq<Note>

    ghost predicate Valid()
      reads this, table
    {
      Sound(Abs(), table.Length)
    }

    ghost function Abs(): State
      reads this, table
    {
      State(table[..], current, last, log)
    }

    constructor (slots: nat)
      ensures Valid() && table.Length == slots && Abs() == Initial(slots)
    {
      table := new Entry[slots](_ => FREE);
      current, last, log := 0, 0, [];
    }

    method TokenCanBeUsed(token: nat) returns (ok: bool)
      ensures ok == Usable(table[..], token)
    {
      if token == INVALID { return false; }
      for i := 0 to table.Length
        invariant forall k :: 0 <= k < i ==> table[k].token != token
      {
        if table[i].token == token {
          assert table[..][i].token == token;
          return false;
        }
      }
      return true;
    }

    /** Tries successive values of the counter; after a full turn there is no token to be had. */
    method AllocateToken() returns (token: nat)
      requires current < TOKENS
      modifies this`current
      ensures var j := FirstUsable(table[..], old(current), 1);
              current == Candidate(old(current), j) && token == if j <= TOKENS then current else INVALID
      ensures token != INVALID <==> exists t :: 0 < t < TOKENS && Usable(table[..], t)
    {
      hide Candidate;
      hide Usable;
      AllocationFailsIff(table[..], current);
      ghost var c0 := current;
      ghost var k := 1;
      NextCandidate(current);
      current := (current + 1) % TOKENS;
      var first := current;
      var ok := TokenCanBeUsed(current);
      while !ok
        invariant 1 <= k <= TOKENS && current == Candidate(c0, k) && first == Candidate(c0, 1)
        invariant ok == Usable(table[..], current)
        invariant FirstUsable(table[..], c0, 1) == FirstUsable(table[..], c0, k)
        decreases TOKENS - k
      {
        CandidateStep(c0, k);
        current := (current + 1) % TOKENS;
        k := k + 1;
        if current == first { return INVALID; }
        ok := TokenCanBeUsed(current);
      }
      token := current;
      TokenIsByte(table[..], c0, k);
    }

    method DeferExec(now: nat, delay: uint32, job: Job) returns (token: nat)
      requires Valid()
      modifies this`current, this`log, table
      ensures Valid() && Result(Abs(), token) == Defer(old(Abs()), now, delay, job)
      ensures token != INVALID ==> Usable(old(table[..]), token)
      ensures token == INVALID ==> table[..] == old(table[..])
      ensures table.Length < TOKENS && delay != 0 && job.callback != 0 &&
              IndexOf(old(table[..]), INVALID) < table.Length
              ==> token != INVALID
    {
      hide Candidate;
      hide Usable;
      hide Sound;
      ghost var s := Abs();
      DeferSound(s, now, delay, job, table.Length);
      if delay == 0 || job.callback == 0 { return INVALID; }
      for i := 0 to table.Length
        invariant Abs() == s
        invariant forall k :: 0 <= k < i ==> table[k].token != INVALID
      {
        if table[i].token == INVALID {
          assert IndexOf(s.entries, INVALID) == i;
          if table.Length < TOKENS { AllocationSucceeds(s.entries, current); }
          SoundCurrent(s, table.Length);
          ghost var j := FirstUsable(s.entries, current, 1);
          if j <= TOKENS { TokenIsByte(s.entries, current, j); }
          var t := AllocateToken();
          assert table[..] == s.entries;
          if t == INVALID { return INVALID; }
          table[i] := Entry(current, now + delay, job);
          log := log + [Deferred(current, now + delay, job)];
          assert table[..] == s.entries[i := table[i]];
          return current;
        }
      }
      return INVALID;
    }

    method ExtendDeferredExec(now: nat, token: nat, delay: uint32) returns (ok: bool)
      requires Valid()
      modifies this`log, table
      ensures Valid() && (Abs(), ok) == Extend(old(Abs()), now, token, delay)
    {
      if delay == 0 || token == INVALID { return false; }
      for i := 0 to table.Length
        invariant Abs() == old(Abs())
        invariant forall k :: 0 <= k < i ==> table[k].token != token
      {
        if table[i].token == token {
          assert IndexOf(table[..], token) == i;
          table[i] := table[i].(due := now + delay);
          log := log + [Extended(token, now + delay)];
          return true;
        }
      }
      return false;
    }

    method CancelDeferredExec(token: nat) returns (ok: bool)
      requires Valid()
      modifies this`log, table
      ensures Valid() && (Abs(), ok) == Cancel(old(Abs()), token)
      ensures !exists i :: 0 <= i < table.Length && token != INVALID && table[i].token == token
    {
      if token == INVALID { return false; }
      for i := 0 to table.Length
        invariant Abs() == old(Abs())
        invariant forall k :: 0 <= k < i ==> table[k].token != token
      {
        if table[i].token == token {
          assert IndexOf(table[..], token) == i;
          table[i] := FREE;
          log := log + [Cancelled(token)];
          return true;
        }
      }
      return false;
    }

    method DeferredExecTask(now: nat, f: Callbacks)
      requires Valid()
      modifies this`last, this`log, table
      ensures Valid() && Abs() == Task(Wrapping, old(Abs()), now, f)
    {
      hide SignedDiff;
      PassSound(Wrapping, Abs().(last := now), now, f, 0, table.Length);
      hide Sound;
      if SignedDiff(now, last) > 0 {
        last := now;
        for i := 0 to table.Length
          invariant Pass(Wrapping, Abs(), now, f, i) == Task(Wrapping, old(Abs()), now, f)
        {
          ghost var s := Abs();
          var e := table[i];
          if e.token != INVALID && SignedDiff(e.due, now) <= 0 {
            var delay := f(log, e.job, e.due % WRAP);
            if delay > 0 {
              table[i] := e.(due := e.due + delay);
            } else {
              table[i] := FREE;
            }
            log := log + [Called(e.token, e.due, e.job, now, delay)];
          }
          assert Abs() == Visit(Wrapping, s, now, f, i);
        }
      }
    }
  }
}

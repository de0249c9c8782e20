/** The resolver as it runs: one record and a ring of eight, updated in place. */
module TapHold {
  import opened TappingModel

  function Next(i: nat): (j: nat)
    requires i < WAITING_BUFFER_SIZE
    ensures j == if i < WAITING_BUFFER_SIZE - 1 then i + 1 else 0
  {
    (i + 1) % WAITING_BUFFER_SIZE
  }

  /** How many slots lie between `tail` and `head`, going round. */
  function Span(tail: nat, head: nat): (n: nat)
    requires tail < WAITING_BUFFER_SIZE && head < WAITING_BUFFER_SIZE
  {
    if tail <= head then head - tail else head + WAITING_BUFFER_SIZE - tail
  }

  /** The slot `k` places after `tail`. */
  function Slot(tail: nat, k: nat): (i: nat)
    requires tail < WAITING_BUFFER_SIZE && k < WAITING_BUFFER_SIZE
    ensures i < WAITING_BUFFER_SIZE
  {
    if tail + k < WAITING_BUFFER_SIZE then tail + k else tail + k - WAITING_BUFFER_SIZE
  }

  /** The records from `tail` up to `head`, oldest first. */
  function Ring(b: seq<Record>, tail: nat, head: nat): (s: seq<Record>)
    requires |b| == WAITING_BUFFER_SIZE && tail < |b| && head < |b|
    ensures |s| == Span(tail, head)
    ensures forall k :: 0 <= k < |s| ==> s[k] == b[Slot(tail, k)]
  {
    seq(Span(tail, head), k requires 0 <= k < Span(tail, head) => b[Slot(tail, k)])
  }

  lemma RingUpdate(b: seq<Record>, tail: nat, head: nat, k: nat, r: Record)
    requires |b| == WAITING_BUFFER_SIZE && tail < |b| && head < |b| && k < Span(tail, head)
    ensures Ring(b[Slot(tail, k) := r], tail, head) == Ring(b, tail, head)[k := r]
  {}

  lemma RingPush(b: seq<Record>, tail: nat, head: nat, r: Record)
    requires |b| == WAITING_BUFFER_SIZE && tail < |b| && head < |b| && Next(head) != tail
    ensures Ring(b[head := r], tail, Next(head)) == Ring(b, tail, head) + [r]
  {}

  lemma RingPop(b: seq<Record>, tail: nat, head: nat)
    requires |b| == WAITING_BUFFER_SIZE && tail < |b| && head < |b| && tail != head
    ensures Ring(b, tail, head) == [b[tail]] + Ring(b, Next(tail), head)
  {}

  class Resolver {
    const term: nat
    const buffer: array<Record>
    var tapping: Record
    var head: nat
    var tail: nat
    var out: seq<Emission>

    ghost predicate Valid()
      reads this
    {
      buffer.Length == WAITING_BUFFER_SIZE && head < WAITING_BUFFER_SIZE && tail < WAITING_BUFFER_SIZE
    }

    ghost function Waiting(): seq<Record>
      requires head < WAITING_BUFFER_SIZE && tail < WAITING_BUFFER_SIZE && buffer.Length == WAITING_BUFFER_SIZE
      reads this`head, this`tail, buffer
    {
      Ring(buffer[..], tail, head)
    }

    ghost function Abs(): State
      requires Valid()
      reads this, buffer
    {
      State(tapping, Waiting(), out)
    }

    constructor (term: nat)
      ensures Valid() && this.term == term && Abs() == INITIAL
    {
      this.term := term;
      buffer := new Record[WAITING_BUFFER_SIZE](_ => NO_RECORD);
      tapping, head, tail, out := NO_RECORD, 0, 0, [];
    }

    method ProcessRecord(r: Record)
      modifies this`out
      ensures out == Emit(old(out), r)
    {
      if !NoEvent(r.event) { out := out + [Genuine(r)]; }
    }

    /** Returns false exactly when the ring is full and the event is real. */
    method WaitingBufferEnq(r: Record) returns (ok: bool)
      requires Valid()
      modifies this`head, buffer
      ensures Valid()
      ensures ok == (NoEvent(r.event) || !Full(old(Waiting())))
      ensures Waiting() == if ok && !NoEvent(r.event) then old(Waiting()) + [r] else old(Waiting())
    {
      if NoEvent(r.event) { return true; }
      if Next(head) == tail { return false; }
      RingPush(buffer[..], tail, head, r);
      buffer[head] := r;
      head := Next(head);
      return true;
    }

    method WaitingBufferClear()
      requires Valid()
      modifies this`head, this`tail
      ensures Valid() && Waiting() == []
    {
      head, tail := 0, 0;
    }

    method WaitingBufferTyped(e: Event) returns (typed: bool)
      requires Valid()
      ensures typed == Typed(Waiting(), e)
    {
      var i := tail;
      ghost var k := 0;
      while i != head
        invariant k <= Span(tail, head) < WAITING_BUFFER_SIZE && i == Slot(tail, k)
        invariant forall j :: 0 <= j < k ==>
                    !(Waiting()[j].event.key == e.key && Waiting()[j].event.pressed != e.pressed)
        decreases Span(tail, head) - k
      {
        assert k < Span(tail, head) && Waiting()[k] == buffer[i];
        if e.key == buffer[i].event.key && e.pressed != buffer[i].event.pressed { return true; }
        i, k := Next(i), k + 1;
      }
      return false;
    }

    method WaitingBufferScanTap()
      requires Valid()
      modifies this`tapping, this`out, buffer
      ensures Valid() && Abs() == ScanTap(term, old(Abs()))
    {
      if tapping.tap.count > 0 { return; }
      if !tapping.event.pressed { return; }
      var i := tail;
      ghost var k := 0;
      while i != head
        invariant k <= Span(tail, head) < WAITING_BUFFER_SIZE && i == Slot(tail, k)
        invariant forall j :: 0 <= j < k ==> !Settler(term, tapping, Waiting()[j])
        invariant Abs() == old(Abs())
        decreases Span(tail, head) - k
      {
        assert k < Span(tail, head) && Waiting()[k] == buffer[i];
        if OwnRelease(tapping, buffer[i].event) && WithinTerm(term, tapping, buffer[i].event) {
          assert FirstSettler(term, tapping, Waiting()) == k;
          tapping := tapping.(tap := tapping.tap.(count := 1));
          RingUpdate(buffer[..], tail, head, k, buffer[i].(tap := buffer[i].tap.(count := 1)));
          buffer[i] := buffer[i].(tap := buffer[i].tap.(count := 1));
          ProcessRecord(tapping);
          return;
        }
        i, k := Next(i), k + 1;
      }
    }

    /** The pointer argument is an in-out value: `rec` is what the record has become. */
    method ProcessTapping(m: Keymap, r: Record) returns (rec: Record, done: bool)
      requires Valid()
      modifies this`tapping, this`out, buffer
      ensures Valid() && Offered(Abs(), rec, done) == Offer(term, m, old(Abs()), r)
    {
      rec := r;
      var e := r.event;
      if IsTapping(tapping) && tapping.event.pressed {
        if tapping.tap.count == 0 {
          if WithinTerm(term, tapping, e) {
            done := ProcessWhileUndecided(m, r);
            if OwnRelease(tapping, e) { rec := rec.(tap := tapping.tap); }
          } else {
            ProcessRecord(tapping);
            tapping := NO_RECORD;
            done := false;
          }
        } else {
          rec := ProcessWhileTapped(m, r);
          done := true;
        }
      } else if IsTapping(tapping) {
        if WithinTerm(term, tapping, e) {
          rec := ProcessAfterRelease(m, r);
          done := true;
        } else {
          tapping := NO_RECORD;
          done := false;
        }
      } else {
        done := true;
        if e.pressed && m.isTap(out, r) {
          tapping := r;
          WaitingBufferScanTap();
        } else {
          ProcessRecord(r);
        }
      }
    }

    method ProcessWhileUndecided(m: Keymap, r: Record) returns (done: bool)
      requires Valid()
      modifies this`tapping, this`out
      ensures Valid()
      ensures var x := OfferUndecided(m, old(Abs()), r);
              Abs() == x.state && done == x.done &&
              x.rec == if OwnRelease(tapping, r.event) then r.(tap := tapping.tap) else r
    {
      var e := r.event;
      if OwnRelease(tapping, e) {
        tapping := tapping.(tap := tapping.tap.(count := 1));
        ProcessRecord(tapping);
        return false;
      }
      var typed := WaitingBufferTyped(e);
      if !NoEvent(e) && !e.pressed && !typed {
        var action := m.action(out, e.key);
        match action {
          case Mods(mods, code) =>
            if mods != 0 && code == 0 { return false; }
            if IsMod(code) { return false; }
          case ModsTap(mods, code) =>
            if mods != 0 && r.tap.count == 0 { return false; }
            if IsMod(code) { return false; }
          case OtherAction =>
        }
        ProcessRecord(r);
        return true;
      }
      if e.pressed { tapping := tapping.(tap := tapping.tap.(interrupted := true)); }
      return false;
    }

    method ProcessWhileTapped(m: Keymap, r: Record) returns (rec: Record)
      requires Valid()
      modifies this`tapping, this`out, buffer
      ensures Valid() && Offered(Abs(), rec, true) == OfferTapped(term, m, old(Abs()), r)
    {
      rec := r;
      var e := r.event;
      if OwnRelease(tapping, e) {
        rec := rec.(tap := tapping.tap);
        ProcessRecord(rec);
        tapping := if WithinTerm(term, tapping, e) then rec else NO_RECORD;
      } else if m.isTap(out, r) && e.pressed {
        if tapping.tap.count > 1 {
          var release := Record(Event(tapping.event.key, false, e.at), tapping.tap);
          if !NoEvent(release.event) { out := out + [Synthetic(release)]; }
        }
        tapping := r;
        WaitingBufferScanTap();
      } else {
        ProcessRecord(r);
      }
    }

    method ProcessAfterRelease(m: Keymap, r: Record) returns (rec: Record)
      requires Valid()
      modifies this`tapping, this`out, buffer
      ensures Valid() && Offered(Abs(), rec, true) == OfferReleased(term, m, old(Abs()), r)
    {
      rec := r;
      var e := r.event;
      if !e.pressed {
        ProcessRecord(r);
      } else if e.key == tapping.event.key {
        if !tapping.tap.interrupted && tapping.tap.count > 0 {
          rec := rec.(tap := tapping.tap);
          if rec.tap.count < MAX_TAP_COUNT { rec := rec.(tap := rec.tap.(count := rec.tap.count + 1)); }
          ProcessRecord(rec);
        }
        tapping := rec;
      } else if m.isTap(out, r) {
        tapping := r;
        WaitingBufferScanTap();
      } else {
        tapping := tapping.(tap := tapping.tap.(interrupted := true));
        ProcessRecord(r);
      }
    }

    /** One call: the new event first, then the queue. */
    method ActionTappingProcess(m: Keymap, e: Event)
      requires Valid()
      modifies this, buffer
      ensures Valid() && Abs() == Process(term, m, old(Abs()), e)
    {
      var rec, done := ProcessTapping(m, Record(e, NO_TAP));
      if !done {
        var ok := WaitingBufferEnq(rec);
        if !ok {
          out := out + [ClearKeyboard];
          WaitingBufferClear();
          tapping := NO_RECORD;
        }
      }
      assert Abs() == Accept(term, m, old(Abs()), e);
      while tail != head
        invariant Valid() && Drain(term, m, Abs()) == Process(term, m, old(Abs()), e)
        decreases Span(tail, head)
      {
        RingPop(buffer[..], tail, head);
        ghost var s := Abs();
        OfferKeepsLength(term, m, s, s.waiting[0]);
        rec, done := ProcessTapping(m, buffer[tail]);
        RingPop(buffer[..], tail, head);
        RingUpdate(buffer[..], tail, head, 0, rec);
        if !done {
          buffer[tail] := rec;
          assert Abs() == Drain(term, m, s);
          return;
        }
        tail := Next(tail);
        assert Span(tail, head) < |s.waiting|;
      }
    }
  }
}

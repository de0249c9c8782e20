/**
The release of a key is executed with the tap count of its press.

Everything is said of one key `k`: which records of it are queued, and with what count its last press was
executed, if nothing of the key was executed, made up or reset since.
*/
module TappingPairs {
  import opened Common
  import opened TappingModel
  import opened TappingLedger
  import opened TappingVerdict
  import opened TappingRuns

  // ---- one key

  function Front(r: Record, k: Key): seq<Record> { if r.event.key == k then [r] else [] }

  /** The queued records of a key. */
  function OfKey(waiting: seq<Record>, k: Key): seq<Record> {
    if waiting == [] then [] else Front(waiting[0], k) + OfKey(waiting[1..], k)
  }

  /** The count of the last press of a key, if it was neither released nor dropped since. */
  function Open(out: seq<Emission>, k: Key): Option<nat> {
    if out == [] then None
    else
      var before := out[..|out| - 1];
      match out[|out| - 1]
      case Genuine(rec) =>
        if rec.event.key != k then Open(before, k) else if rec.event.pressed then Some(rec.tap.count) else None
      case Synthetic(rec) => if rec.event.key != k then Open(before, k) else None
      case ClearKeyboard => None
  }

  /** Every executed release has the count of the press before it, unless a release of the key was made up or
      everything was reset in between. */
  ghost predicate Matching(out: seq<Emission>, k: Key) {
    forall i :: 0 <= i < |out| ==> Closes(out[..i], out[i], k)
  }

  predicate Closes(before: seq<Emission>, x: Emission, k: Key) {
    x.Genuine? && x.rec.event.key == k && !x.rec.event.pressed && Open(before, k).Some? ==>
      x.rec.tap.count == Open(before, k).value
  }

  lemma Append(out: seq<Emission>, x: Emission, k: Key)
    requires Matching(out, k) && Closes(out, x, k)
    ensures Matching(out + [x], k)
    ensures Open(out + [x], k) ==
            match x
            case Genuine(rec) =>
              if rec.event.key != k then Open(out, k) else if rec.event.pressed then Some(rec.tap.count) else None
            case Synthetic(rec) => if rec.event.key != k then Open(out, k) else None
            case ClearKeyboard => None
  {
    hide Closes;
    var out' := out + [x];
    assert out'[..|out|] == out;
    forall i | 0 <= i < |out'|
      ensures Closes(out'[..i], out'[i], k)
    {
      assert out'[..i] == out[..i];
      assert i < |out| ==> Closes(out[..i], out[i], k);
    }
  }

  // ---- what a run keeps of a key

  predicate Down(t: Record) { IsTapping(t) && t.event.pressed }

  predicate Mine(t: Record, k: Key) { Down(t) && t.event.key == k }

  /** The count that the next queued release has: that of its press, except while the press is pending and
      will still give it. */
  function Due(out: seq<Emission>, t: Record, k: Key): nat {
    if Open(out, k).None? || (Mine(t, k) && t.tap.count > 1) then 0 else Open(out, k).value
  }

  /** The queued records of a key: presses and releases in turn, and only the first may have a count. */
  predicate Chain(w: seq<Record>, k: Key) {
    && (forall i :: 0 <= i < |w| - 1 ==> w[i].event.pressed != w[i + 1].event.pressed)
    && (forall i :: 0 <= i < |w| ==> w[i].event.key == k && (i > 0 ==> w[i].tap.count == 0))
  }

  /** `w` holds the queued records of the key, `last` is the direction in which it was moved last. */
  ghost predicate Paired(out: seq<Emission>, t: Record, w: seq<Record>, k: Key, last: Option<bool>) {
    && Matching(out, k) && Chain(w, k)
    && (Mine(t, k) ==> Open(out, k) == if t.tap.count == 0 then None else Some(t.tap.count))
    && (w != [] && w[0].event.pressed ==> !Mine(t, k) && Open(out, k) == None)
    && (if w != [] then w[0].tap.count == Due(out, t, k) && last == Some(w[|w| - 1].event.pressed)
        else Due(out, t, k) == 0 && (Mine(t, k) || Open(out, k).Some? ==> last == Some(true)))
  }

  lemma ChainTail(r: Record, q: seq<Record>, k: Key)
    requires Chain([r] + q, k)
    ensures Chain(q, k) && r.event.key == k
    ensures q != [] ==> q[0].event.pressed != r.event.pressed && q[0].tap.count == 0
    ensures q != [] ==> ([r] + q)[|q|] == q[|q| - 1]
    ensures ([r] + q)[0] == r
  {
    var w := [r] + q;
    assert w[0] == r && (forall i :: 0 <= i < |q| ==> q[i] == w[i + 1]);
  }

  lemma ChainFirst(q: seq<Record>, c: nat, k: Key)
    requires Chain(q, k) && q != []
    ensures Chain(q[0 := q[0].(tap := q[0].tap.(count := c))], k)
  {}

  // ---- single changes

  /** A record of another key is executed. */
  lemma OtherPairs(out: seq<Emission>, t: Record, r: Record, w: seq<Record>, k: Key, last: Option<bool>)
    requires Paired(out, t, w, k, last) && r.event.key != k
    ensures Paired(out + [Genuine(r)], t, w, k, last)
  {
    hide Matching;
    hide Open;
    hide Chain;
    Append(out, Genuine(r), k);
  }

  /** The first record of the key is executed as it is. */
  lemma PassPairs(out: seq<Emission>, t: Record, r: Record, q: seq<Record>, k: Key, last: Option<bool>)
    requires Paired(out, t, [r] + q, k, last) && !Mine(t, k)
    ensures Paired(out + [Genuine(r)], t, q, k, last)
  {
    hide Matching;
    hide Open;
    ChainTail(r, q, k);
    hide Chain;
    Append(out, Genuine(r), k);
  }

  /** The first record of the key is a press and becomes pending. */
  lemma PendPairs(out: seq<Emission>, t: Record, r: Record, q: seq<Record>, k: Key, last: Option<bool>)
    requires Paired(out, t, [r] + q, k, last) && UndecidedRecord(r)
    ensures Paired(out, r, q, k, last)
  {
    hide Open;
    ChainTail(r, q, k);
    hide Chain;
    hide Matching;
  }

  /** A pending record of another key changes. */
  lemma ElsewherePairs(out: seq<Emission>, t: Record, t': Record, w: seq<Record>, k: Key, last: Option<bool>)
    requires Paired(out, t, w, k, last) && !Mine(t, k) && !Mine(t', k)
    ensures Paired(out, t', w, k, last)
  {
    hide Matching;
    hide Open;
    hide Chain;
  }

  /** A tap whose key is still down gives way to another press. */
  lemma DropPairs(out: seq<Emission>, t: Record, w: seq<Record>, k: Key, last: Option<bool>, e: Event)
    requires Paired(out, t, w, k, last) && Down(t) && t.tap.count > 0 && !NoEvent(e)
    ensures var syn := Record(Event(t.event.key, false, e.at), t.tap);
            Paired(if t.tap.count > 1 then EmitSynthetic(out, syn) else out, NO_RECORD, w, k, last)
  {
    hide Matching;
    hide Open;
    hide Chain;
    Append(out, Synthetic(Record(Event(t.event.key, false, e.at), t.tap)), k);
  }

  /** A pending press is executed as held. */
  lemma HoldPairs(out: seq<Emission>, t: Record, w: seq<Record>, k: Key, last: Option<bool>)
    requires Paired(out, t, w, k, last) && UndecidedRecord(t)
    ensures Paired(out + [Genuine(t)], NO_RECORD, w, k, last)
  {
    hide Matching;
    hide Open;
    hide Chain;
    Append(out, Genuine(t), k);
  }

  /** A pending press of the key is executed as a tap, and its queued release is given the same count. */
  lemma SettlePairs(out: seq<Emission>, t: Record, w: seq<Record>, k: Key, last: Option<bool>)
    requires Paired(out, t, w, k, last) && UndecidedRecord(t) && t.event.key == k && w != []
    ensures var t1 := t.(tap := t.tap.(count := 1));
            Paired(out + [Genuine(t1)], t1, w[0 := w[0].(tap := w[0].tap.(count := 1))], k, last)
  {
    hide Matching;
    hide Open;
    ChainFirst(w, 1, k);
    hide Chain;
    Append(out, Genuine(t.(tap := t.tap.(count := 1))), k);
  }

  /** The release of a tap is executed with the tap state of its press. */
  lemma ReleasePairs(out: seq<Emission>, t: Record, r: Record, q: seq<Record>, k: Key, last: Option<bool>, t': Record)
    requires Paired(out, t, [r] + q, k, last) && Mine(t, k) && t.tap.count > 0 && !r.event.pressed && !Down(t')
    ensures Paired(out + [Genuine(r.(tap := t.tap))], t', q, k, last)
  {
    hide Matching;
    hide Open;
    ChainTail(r, q, k);
    hide Chain;
    Append(out, Genuine(r.(tap := t.tap)), k);
  }

  /** A further tap: the press is executed at once with a count above 1. */
  lemma SequelPairs(out: seq<Emission>, t: Record, r: Record, q: seq<Record>, k: Key, last: Option<bool>, p: Record)
    requires Paired(out, t, [r] + q, k, last) && Down(p) && p.event == r.event && p.tap.count > 1
    ensures Paired(out + [Genuine(p)], p, q, k, last)
  {
    hide Matching;
    hide Open;
    ChainTail(r, q, k);
    hide Chain;
    Append(out, Genuine(p), k);
  }

  // ---- offering a record

  /** A record of the queue changes that is of another key, or the first of this one. */
  lemma {:induction false} OfKeyAt(waiting: seq<Record>, i: nat, r: Record, k: Key)
    requires i < |waiting| && r.event.key == waiting[i].event.key
    ensures r.event.key != k ==> OfKey(waiting[i := r], k) == OfKey(waiting, k)
    ensures r.event.key == k ==> OfKey(waiting, k) != []
    ensures r.event.key == k && (forall j :: 0 <= j < i ==> waiting[j].event.key != k) ==>
              OfKey(waiting, k)[0] == waiting[i] && OfKey(waiting[i := r], k) == OfKey(waiting, k)[0 := r]
  {
    if i > 0 {
      assert waiting[i := r][1..] == waiting[1..][i - 1 := r];
      assert forall j :: 0 <= j < i - 1 ==> waiting[1..][j] == waiting[j + 1];
      OfKeyAt(waiting[1..], i - 1, r, k);
    }
  }

  lemma {:induction false} FirstIndex(waiting: seq<Record>, k: Key) returns (i: nat)
    requires OfKey(waiting, k) != []
    ensures i < |waiting| && waiting[i].event.key == k && OfKey(waiting, k)[0] == waiting[i]
    ensures forall j :: 0 <= j < i ==> waiting[j].event.key != k
  {
    if waiting[0].event.key == k {
      i := 0;
    } else {
      i := FirstIndex(waiting[1..], k);
      i := i + 1;
      assert forall j :: 1 <= j < i ==> waiting[j] == waiting[1..][j - 1];
    }
  }

  /** The queue was filled after the press, in order and within a turn of the timer. */
  predicate Timely(r: Record, waiting: seq<Record>) {
    Sorted(waiting) && forall i :: 0 <= i < |waiting| ==> r.event.at <= waiting[i].event.at < r.event.at + 0x1_0000
  }

  /** The release that the scan finds for a press is the next event of its key. */
  lemma SettlerIsFirst(term: nat, r: Record, waiting: seq<Record>, i: nat)
    requires Timely(r, waiting) && i < |waiting| && Settler(term, r, waiting[i])
    requires forall j :: 0 <= j < i ==> !Settler(term, r, waiting[j])
    requires OfKey(waiting, r.event.key) != [] && !OfKey(waiting, r.event.key)[0].event.pressed
    ensures forall j :: 0 <= j < i ==> waiting[j].event.key != r.event.key
  {
    hide WithinTerm;
    var f := FirstIndex(waiting, r.event.key);
    TermExact(term, r, waiting[f].event);
    TermExact(term, r, waiting[i].event);
  }

  /** The queue behind the record that is offered, which is its head if `n` is 1 and a new event if `n` is 0. */
  predicate Behind(waiting: seq<Record>, r: Record, n: nat) {
    n <= 1 && (n == 1 ==> waiting != [] && waiting[0] == r)
  }

  /** A press that has just become pending is scanned for. */
  lemma ScanPairs(term: nat, out: seq<Emission>, r: Record, waiting: seq<Record>, n: nat, k: Key, last: Option<bool>)
    requires UndecidedRecord(r) && Behind(waiting, r, n) && Paired(out, r, OfKey(waiting[n..], k), k, last)
    requires r.event.key == k && OfKey(waiting[n..], k) != [] ==> Timely(r, waiting[n..])
    ensures var s' := ScanTap(term, State(r, waiting, out));
            |s'.waiting| == |waiting| && Paired(s'.out, s'.tapping, OfKey(s'.waiting[n..], k), k, last)
  {
    hide Paired;
    hide Timely;
    hide Settler;
    var i := FirstSettler(term, r, waiting);
    if i < |waiting| {
      SettlerBehind(term, r, waiting, n, i, waiting[i].(tap := waiting[i].tap.(count := 1)));
      SettledPairs(term, out, r, waiting[n..], i - n, k, last);
    }
  }

  lemma SettlerBehind(term: nat, r: Record, waiting: seq<Record>, n: nat, i: nat, w: Record)
    requires UndecidedRecord(r) && Behind(waiting, r, n) && i < |waiting| && Settler(term, r, waiting[i])
    requires forall j :: 0 <= j < i ==> !Settler(term, r, waiting[j])
    ensures i >= n && waiting[n..][i - n] == waiting[i]
    ensures forall j :: 0 <= j < i - n ==> !Settler(term, r, waiting[n..][j])
    ensures waiting[i := w][n..] == waiting[n..][i - n := w]
  {
    hide WithinTerm;
    forall j | 0 <= j < i - n
      ensures !Settler(term, r, waiting[n..][j])
    {
      assert waiting[n..][j] == waiting[j + n];
    }
  }

  /** Queued record `i` settles the press. */
  lemma SettledPairs(term: nat, out: seq<Emission>, r: Record, v: seq<Record>, i: nat, k: Key, last: Option<bool>)
    requires UndecidedRecord(r) && Paired(out, r, OfKey(v, k), k, last)
    requires i < |v| && Settler(term, r, v[i]) && (forall j :: 0 <= j < i ==> !Settler(term, r, v[j]))
    requires r.event.key == k && OfKey(v, k) != [] ==> Timely(r, v)
    ensures var r1 := r.(tap := r.tap.(count := 1));
            Paired(out + [Genuine(r1)], r1, OfKey(v[i := v[i].(tap := v[i].tap.(count := 1))], k), k, last)
  {
    hide Paired;
    hide Timely;
    hide WithinTerm;
    var w := v[i].(tap := v[i].tap.(count := 1));
    var r1 := r.(tap := r.tap.(count := 1));
    OfKeyAt(v, i, w, k);
    if r.event.key == k {
      PendingNext(out, r, OfKey(v, k), k, last);
      SettlerIsFirst(term, r, v, i);
      SettlePairs(out, r, OfKey(v, k), k, last);
    } else {
      ElsewherePairs(out, r, r1, OfKey(v, k), k, last);
      OtherPairs(out, r1, r1, OfKey(v, k), k, last);
    }
  }

  /** After a pending press comes its release. */
  lemma PendingNext(out: seq<Emission>, t: Record, w: seq<Record>, k: Key, last: Option<bool>)
    requires Paired(out, t, w, k, last) && Mine(t, k) && w != []
    ensures !w[0].event.pressed
  {}

  /** A press becomes pending, from a state in which none is. */
  lemma StartPairs(term: nat, out: seq<Emission>, t: Record, r: Record, waiting: seq<Record>, n: nat, k: Key,
                   last: Option<bool>)
    requires !Mine(t, k) && UndecidedRecord(r) && Behind(waiting, r, n)
    requires Paired(out, t, Front(r, k) + OfKey(waiting[n..], k), k, last)
    requires r.event.key == k && OfKey(waiting[n..], k) != [] ==> Timely(r, waiting[n..])
    ensures Paired(out, r, OfKey(waiting[n..], k), k, last)
    ensures var s' := ScanTap(term, State(r, waiting, out));
            |s'.waiting| == |waiting| && Paired(s'.out, s'.tapping, OfKey(s'.waiting[n..], k), k, last)
  {
    hide Paired;
    hide Timely;
    hide ScanTap;
    FrontQueue(r, OfKey(waiting[n..], k), k);
    if r.event.key == k {
      PendPairs(out, t, r, OfKey(waiting[n..], k), k, last);
    } else {
      ElsewherePairs(out, t, r, OfKey(waiting[n..], k), k, last);
    }
    ScanPairs(term, out, r, waiting, n, k, last);
  }

  lemma FrontQueue(r: Record, q: seq<Record>, k: Key)
    ensures Front(r, k) + q == if r.event.key == k then [r] + q else q
  {}

  /** A record is executed as it is. */
  lemma EmitPairs(out: seq<Emission>, t: Record, r: Record, q: seq<Record>, k: Key, last: Option<bool>)
    requires Paired(out, t, Front(r, k) + q, k, last) && (r.event.key == k ==> !Mine(t, k) && !NoEvent(r.event))
    ensures Paired(Emit(out, r), t, q, k, last)
  {
    hide Paired;
    FrontQueue(r, q, k);
    if r.event.key == k {
      PassPairs(out, t, r, q, k, last);
    } else if !NoEvent(r.event) {
      OtherPairs(out, t, r, q, k, last);
    }
  }

  predicate Offerable(s: State, r: Record, n: nat, k: Key) {
    && Sound(s) && SoundRecord(r) && k != NO_KEY && Behind(s.waiting, r, n)
    && (r.event.key == k && OfKey(s.waiting[n..], k) != [] ==> Timely(r, s.waiting[n..]))
  }

  /** The state after record `r` was offered is in order again. */
  ghost predicate OfferedPaired(x: Offered, n: nat, k: Key, last: Option<bool>) {
    && |x.state.waiting| >= n
    && var q := OfKey(x.state.waiting[n..], k);
       Paired(x.state.out, x.state.tapping, if x.done then q else Front(x.rec, k) + q, k, last)
  }

  lemma OfferTappedPairs(term: nat, m: Keymap, s: State, r: Record, n: nat, k: Key, last: Option<bool>)
    requires Offerable(s, r, n, k) && Down(s.tapping) && s.tapping.tap.count > 0
    requires Paired(s.out, s.tapping, Front(r, k) + OfKey(s.waiting[n..], k), k, last)
    ensures OfferedPaired(OfferTapped(term, m, s, r), n, k, last)
  {
    hide Paired;
    hide Timely;
    hide ScanTap;
    hide WithinTerm;
    var q, e := OfKey(s.waiting[n..], k), r.event;
    FrontQueue(r, q, k);
    var x := OfferTapped(term, m, s, r);
    if OwnRelease(s.tapping, e) {
      if e.key == k {
        ReleasePairs(s.out, s.tapping, r, q, k, last, x.state.tapping);
      } else {
        OtherPairs(s.out, s.tapping, r.(tap := s.tapping.tap), q, k, last);
        ElsewherePairs(x.state.out, s.tapping, x.state.tapping, q, k, last);
      }
    } else if m.isTap(s.out, r) && e.pressed {
      DropPairs(s.out, s.tapping, Front(r, k) + q, k, last, e);
      var out := if s.tapping.tap.count > 1
                 then EmitSynthetic(s.out, Record(Event(s.tapping.event.key, false, e.at), s.tapping.tap)) else s.out;
      StartPairs(term, out, NO_RECORD, r, s.waiting, n, k, last);
    } else {
      PressNotMine(s.out, s.tapping, r, q, k, last);
      EmitPairs(s.out, s.tapping, r, q, k, last);
    }
  }

  /** While a key is pending no press of it can come next. */
  lemma PressNotMine(out: seq<Emission>, t: Record, r: Record, q: seq<Record>, k: Key, last: Option<bool>)
    requires Paired(out, t, Front(r, k) + q, k, last)
    ensures Mine(t, k) && r.event.key == k ==> !r.event.pressed
  {
    if r.event.key == k { assert ([r] + q)[0] == r; }
  }

  /** The release of an undecided press gives and gets the count. */
  lemma OwnPairs(out: seq<Emission>, t: Record, r: Record, q: seq<Record>, k: Key, last: Option<bool>)
    requires Paired(out, t, [r] + q, k, last) && UndecidedRecord(t) && t.event.key == k
    ensures var t1 := t.(tap := t.tap.(count := 1));
            Paired(out + [Genuine(t1)], t1, [r.(tap := t1.tap)] + q, k, last)
  {
    hide Paired;
    SettlePairs(out, t, [r] + q, k, last);
    var t1, r1 := t.(tap := t.tap.(count := 1)), r.(tap := r.tap.(count := 1));
    assert ([r] + q)[0] == r && ([r] + q)[0 := r1] == [r1] + q;
    SameCount(out + [Genuine(t1)], t1, r1, r.(tap := t1.tap), q, k, last);
  }

  lemma OfferUndecidedPairs(m: Keymap, s: State, r: Record, n: nat, k: Key, last: Option<bool>)
    requires Offerable(s, r, n, k) && Undecided(s)
    requires Paired(s.out, s.tapping, Front(r, k) + OfKey(s.waiting[n..], k), k, last)
    ensures OfferedPaired(OfferUndecided(m, s, r), n, k, last)
  {
    hide Paired;
    hide Timely;
    hide Typed;
    hide OfKey;
    hide Sound;
    hide Retained;
    var q, e := OfKey(s.waiting[n..], k), r.event;
    var x := OfferUndecided(m, s, r);
    FrontQueue(r, q, k);
    FrontQueue(x.rec, q, k);
    if OwnRelease(s.tapping, e) {
      if e.key == k {
        OwnPairs(s.out, s.tapping, r, q, k, last);
      } else {
        ElsewherePairs(s.out, s.tapping, x.state.tapping, q, k, last);
        OtherPairs(s.out, x.state.tapping, x.state.tapping, q, k, last);
      }
    } else if x.done {
      EmitPairs(s.out, s.tapping, r, q, k, last);
    } else {
      FlagPairs(s.out, s.tapping, x.state.tapping, Front(r, k) + q, k, last);
    }
  }

  /** The record at the head of the queue is known by its event and its count. */
  lemma SameCount(out: seq<Emission>, t: Record, r: Record, r': Record, q: seq<Record>, k: Key, last: Option<bool>)
    requires r'.event == r.event && r'.tap.count == r.tap.count
    requires Paired(out, t, [r] + q, k, last)
    ensures Paired(out, t, [r'] + q, k, last)
  {
    hide Matching;
    hide Open;
    var w, w' := [r] + q, [r'] + q;
    assert forall i :: 0 <= i < |w| ==> w'[i] == if i == 0 then r' else w[i];
  }

  /** Only the count of the pending press matters. */
  lemma FlagPairs(out: seq<Emission>, t: Record, t': Record, w: seq<Record>, k: Key, last: Option<bool>)
    requires Paired(out, t, w, k, last) && t'.event == t.event && t'.tap.count == t.tap.count
    ensures Paired(out, t', w, k, last)
  {
    hide Matching;
    hide Open;
    hide Chain;
  }

  lemma OfferReleasedPairs(term: nat, m: Keymap, s: State, r: Record, n: nat, k: Key, last: Option<bool>)
    requires Offerable(s, r, n, k) && IsTapping(s.tapping) && !s.tapping.event.pressed
    requires Paired(s.out, s.tapping, Front(r, k) + OfKey(s.waiting[n..], k), k, last)
    ensures OfferedPaired(OfferReleased(term, m, s, r), n, k, last)
  {
    hide Paired;
    hide Timely;
    hide ScanTap;
    var q, e := OfKey(s.waiting[n..], k), r.event;
    var x := OfferReleased(term, m, s, r);
    FrontQueue(r, q, k);
    if e.pressed && e.key == s.tapping.event.key {
      if s.tapping.tap.interrupted {
        StartPairs(term, s.out, s.tapping, r, s.waiting, n, k, last);
      } else if e.key == k {
        SequelPairs(s.out, s.tapping, r, q, k, last, x.rec);
      } else {
        ElsewherePairs(s.out, s.tapping, x.rec, q, k, last);
        OtherPairs(s.out, x.rec, x.rec, q, k, last);
      }
    } else if e.pressed && m.isTap(s.out, r) {
      StartPairs(term, s.out, s.tapping, r, s.waiting, n, k, last);
    } else {
      EmitPairs(s.out, s.tapping, r, q, k, last);
      ElsewherePairs(x.state.out, s.tapping, x.state.tapping, q, k, last);
    }
  }

  /** Any record, offered in any state. */
  lemma OfferPairs(term: nat, m: Keymap, s: State, r: Record, n: nat, k: Key, last: Option<bool>)
    requires Offerable(s, r, n, k)
    requires Paired(s.out, s.tapping, Front(r, k) + OfKey(s.waiting[n..], k), k, last)
    ensures OfferedPaired(Offer(term, m, s, r), n, k, last)
  {
    hide Paired;
    hide Timely;
    hide ScanTap;
    hide WithinTerm;
    hide OfferTapped;
    hide OfferReleased;
    hide OfferUndecided;
    var q := OfKey(s.waiting[n..], k);
    if !IsTapping(s.tapping) {
      if r.event.pressed && m.isTap(s.out, r) {
        StartPairs(term, s.out, s.tapping, r, s.waiting, n, k, last);
      } else {
        EmitPairs(s.out, s.tapping, r, q, k, last);
      }
    } else if !s.tapping.event.pressed {
      if WithinTerm(term, s.tapping, r.event) {
        OfferReleasedPairs(term, m, s, r, n, k, last);
      } else {
        ElsewherePairs(s.out, s.tapping, NO_RECORD, Front(r, k) + q, k, last);
      }
    } else if s.tapping.tap.count > 0 {
      OfferTappedPairs(term, m, s, r, n, k, last);
    } else if WithinTerm(term, s.tapping, r.event) {
      OfferUndecidedPairs(m, s, r, n, k, last);
    } else {
      HoldPairs(s.out, s.tapping, Front(r, k) + q, k, last);
    }
  }

  // ---- calls

  ghost predicate PairedState(s: State, k: Key, last: Option<bool>) {
    Paired(s.out, s.tapping, OfKey(s.waiting, k), k, last)
  }

  lemma {:induction false} DrainPairs(term: nat, gap: nat, m: Keymap, s: State, now: nat, tick: nat, k: Key,
                                      last: Option<bool>)
    requires Frequent(term, gap) && Flow(term, gap, s, now, tick) && k != NO_KEY && PairedState(s, k, last)
    ensures PairedState(Drain(term, m, s), k, last)
    decreases |s.waiting|
  {
    hide Offer;
    hide Paired;
    if s.waiting != [] {
      var r := s.waiting[0];
      var x := Offer(term, m, s, r);
      HeadIsTimely(term, gap, s, now, tick);
      OfferPairs(term, m, s, r, 1, k, last);
      OfferKeepsLength(term, m, s, r);
      if x.done {
        TakeFlow(term, gap, m, s, now, tick, tick);
        DrainPairs(term, gap, m, x.state.(waiting := x.state.waiting[1..]), now, tick, k, last);
      }
    }
  }

  lemma HeadIsTimely(term: nat, gap: nat, s: State, now: nat, tick: nat)
    requires Frequent(term, gap) && Flow(term, gap, s, now, tick) && s.waiting != []
    ensures Timely(s.waiting[0], s.waiting[1..])
  {
    TailWaited(term, gap, s.waiting, now, tick, now, tick);
    forall i | 0 <= i < |s.waiting[1..]|
      ensures s.waiting[0].event.at <= s.waiting[1..][i].event.at < s.waiting[0].event.at + 0x1_0000
    {
      assert s.waiting[1..][i] == s.waiting[i + 1];
    }
  }

  lemma {:induction false} OfKeyAppend(waiting: seq<Record>, r: Record, k: Key)
    ensures OfKey(waiting + [r], k) == OfKey(waiting, k) + Front(r, k)
  {
    if waiting != [] {
      assert (waiting + [r])[1..] == waiting[1..] + [r];
      OfKeyAppend(waiting[1..], r, k);
    }
  }

  /** An event comes while none of its key is queued, or behind an undecided press that it does not settle. */
  predicate Orderly(term: nat, s: State, e: Event) {
    (exists i :: 0 <= i < |s.waiting| && s.waiting[i].event.key == e.key) ==>
      Undecided(s) && !(OwnRelease(s.tapping, e) && WithinTerm(term, s.tapping, e))
  }

  function Moved(e: Event, k: Key, last: Option<bool>): Option<bool> { if e.key == k then Some(e.pressed) else last }

  /** A new event of the key, with none of it queued. */
  lemma ArrivePairs(out: seq<Emission>, t: Record, e: Event, last: Option<bool>)
    requires Paired(out, t, [], e.key, last) && last != Some(e.pressed)
    ensures Paired(out, t, [Record(e, NO_TAP)], e.key, Some(e.pressed))
  {
    hide Matching;
    hide Open;
  }

  /** A new event of the key, behind others of it. */
  lemma QueuePairs(out: seq<Emission>, t: Record, w: seq<Record>, e: Event, last: Option<bool>)
    requires Paired(out, t, w, e.key, last) && last != Some(e.pressed) && w != []
    ensures Paired(out, t, w + [Record(e, NO_TAP)], e.key, Some(e.pressed))
  {
    hide Matching;
    hide Open;
  }

  /** Behind an undecided press the event stays in order. */
  lemma StaysPairs(term: nat, m: Keymap, s: State, e: Event, last: Option<bool>)
    requires Undecided(s) && !(OwnRelease(s.tapping, e) && WithinTerm(term, s.tapping, e))
    requires OfKey(s.waiting, e.key) != [] && PairedState(s, e.key, last) && last != Some(e.pressed)
    ensures var x := Offer(term, m, s, Record(e, NO_TAP));
            && !x.done && x.rec == Record(e, NO_TAP) && x.state.waiting == s.waiting
            && PairedState(x.state, e.key, last)
  {
    hide Paired;
    hide WithinTerm;
    var r, w := Record(e, NO_TAP), OfKey(s.waiting, e.key);
    var x := Offer(term, m, s, r);
    LastQueued(s, e.key, last);
    if WithinTerm(term, s.tapping, e) {
      FlagPairs(s.out, s.tapping, s.tapping.(tap := s.tapping.tap.(interrupted := true)), w, e.key, last);
    } else {
      HoldPairs(s.out, s.tapping, w, e.key, last);
    }
  }

  lemma LastQueued(s: State, k: Key, last: Option<bool>)
    requires PairedState(s, k, last) && OfKey(s.waiting, k) != []
    ensures exists i :: 0 <= i < |s.waiting| && s.waiting[i].event.key == k && last == Some(s.waiting[i].event.pressed)
  {
    var i := LastIndex(s.waiting, k);
  }

  lemma {:induction false} LastIndex(waiting: seq<Record>, k: Key) returns (i: nat)
    requires OfKey(waiting, k) != []
    ensures var w := OfKey(waiting, k);
            i < |waiting| && waiting[i].event.key == k && w[|w| - 1] == waiting[i]
  {
    if OfKey(waiting[1..], k) == [] {
      i := 0;
    } else {
      i := LastIndex(waiting[1..], k);
      i := i + 1;
    }
  }

  /** Taking in an event that is offered with nothing of its key queued, or is of another key. */
  lemma FreshPairs(term: nat, m: Keymap, s: State, e: Event, k: Key, last: Option<bool>)
    requires Sound(s) && FromCaller(e) && k != NO_KEY && PairedState(s, k, last)
    requires e.key == k ==> OfKey(s.waiting, k) == [] && last != Some(e.pressed)
    ensures PairedState(Accept(term, m, s, e), k, Moved(e, k, last))
  {
    hide Offer;
    hide Paired;
    var r := Record(e, NO_TAP);
    var x := Offer(term, m, s, r);
    assert s.waiting[0..] == s.waiting && x.state.waiting[0..] == x.state.waiting;
    FrontQueue(r, OfKey(s.waiting, k), k);
    if e.key == k {
      assert [r] + [] == [r];
      ArrivePairs(s.out, s.tapping, e, last);
    }
    OfferPairs(term, m, s, r, 0, k, Moved(e, k, last));
    OfferSound(term, m, s, r);
    if e.key == k { NoneQueued(s.waiting, x.state.waiting, k); }
    QueuedPairs(x, e, k, Moved(e, k, last));
  }

  lemma {:induction false} NoneQueued(a: seq<Record>, b: seq<Record>, k: Key)
    requires SameEvents(a, b) && OfKey(a, k) == []
    ensures OfKey(b, k) == []
  {
    if a != [] { NoneQueued(a[1..], b[1..], k); }
  }

  /** The event was offered and joins the queue, unless it was consumed. */
  lemma QueuedPairs(x: Offered, e: Event, k: Key, last: Option<bool>)
    requires OfferedPaired(x, 0, k, last) && x.rec.event == e && FromCaller(e) && k != NO_KEY
    requires e.key == k ==> OfKey(x.state.waiting, k) == []
    ensures PairedState(if x.done then x.state else Enqueue(x.state, x.rec), k, last)
  {
    hide Paired;
    var v := x.state.waiting;
    assert v[0..] == v;
    FrontQueue(x.rec, OfKey(v, k), k);
    OfKeyAppend(v, x.rec, k);
    FrontQueue(x.rec, [], k);
    assert OfKey(v, k) + [] == OfKey(v, k) && [x.rec] + [] == [] + [x.rec];
    ResetPairs(x.state.out, x.state.tapping, if x.done then OfKey(v, k) else Front(x.rec, k) + OfKey(v, k), k, last);
  }

  lemma ResetPairs(out: seq<Emission>, t: Record, w: seq<Record>, k: Key, last: Option<bool>)
    requires Paired(out, t, w, k, last)
    ensures forall l :: Paired(out + [ClearKeyboard], NO_RECORD, [], k, l)
  {
    hide Open;
    hide Matching;
    Append(out, ClearKeyboard, k);
  }

  lemma AcceptPairs(term: nat, m: Keymap, s: State, e: Event, k: Key, last: Option<bool>)
    requires Sound(s) && FromCaller(e) && k != NO_KEY && PairedState(s, k, last)
    requires e.key == k ==> Orderly(term, s, e) && last != Some(e.pressed)
    ensures PairedState(Accept(term, m, s, e), k, Moved(e, k, last))
  {
    hide Offer;
    hide Paired;
    if e.key == k && OfKey(s.waiting, k) != [] {
      LastQueued(s, k, last);
      StaysPairs(term, m, s, e, last);
      var r := Record(e, NO_TAP);
      var x := Offer(term, m, s, r);
      OfKeyAppend(s.waiting, r, k);
      FrontQueue(r, [], k);
      QueuePairs(x.state.out, x.state.tapping, OfKey(s.waiting, k), e, last);
      ResetPairs(x.state.out, x.state.tapping, OfKey(s.waiting, k), k, last);
    } else {
      FreshPairs(term, m, s, e, k, last);
    }
  }

  lemma {:induction false} SameOfKey(a: seq<Record>, b: seq<Record>, k: Key)
    requires SameEvents(a, b)
    ensures SameEvents(OfKey(a, k), OfKey(b, k))
  {
    if a != [] { SameOfKey(a[1..], b[1..], k); }
  }

  /** A press that was settled while its own release was queued: that release is left without a count. */
  lemma SettledAmiss(out: seq<Emission>, t: Record, w: seq<Record>, k: Key, last: Option<bool>, v: seq<Record>,
                     last': Option<bool>)
    requires Paired(out, t, w, k, last) && UndecidedRecord(t) && t.event.key == k
    requires w != [] && v != [] && v[0] == w[0]
    ensures var t1 := t.(tap := t.tap.(count := 1));
            !Paired(out + [Genuine(t1)], t1, v, k, last')
  {
    hide Matching;
    hide Open;
    hide Chain;
    var t1 := t.(tap := t.tap.(count := 1));
    assert Closes(out, Genuine(t1), k);
    Append(out, Genuine(t1), k);
  }

  lemma LastIs(s: State, k: Key, last: Option<bool>)
    requires PairedState(s, k, last)
    ensures var w := OfKey(s.waiting, k); w != [] ==> last == Some(w[|w| - 1].event.pressed)
  {}

  /** Between calls of a run with frequent ticks, taking in an event of the key keeps the account of it if and
      only if the event comes in an orderly way. */
  lemma AccountIff(term: nat, gap: nat, m: Keymap, s: State, e: Event, now: nat, tick: nat, last: Option<bool>)
    requires Resting(term, gap, s, now, tick) && FromCaller(e) && !NoEvent(e) && !Overflows(term, m, s, e)
    requires PairedState(s, e.key, last) && last != Some(e.pressed)
    ensures PairedState(Accept(term, m, s, e), e.key, Some(e.pressed)) <==> Orderly(term, s, e)
  {
    hide Paired;
    hide Offer;
    var r, k, w := Record(e, NO_TAP), e.key, OfKey(s.waiting, e.key);
    if Orderly(term, s, e) {
      AcceptPairs(term, m, s, e, k, last);
    } else {
      var i :| 0 <= i < |s.waiting| && s.waiting[i].event.key == k;
      OfKeyAt(s.waiting, i, s.waiting[i], k);
      var x := Offer(term, m, s, r);
      if Undecided(s) {
        SettledOffer(term, m, s, r);
        OfKeyAppend(s.waiting, x.rec, k);
        SettledAmiss(s.out, s.tapping, w, k, last, w + Front(x.rec, k), Some(e.pressed));
      } else {
        if !x.done { RefusedOffer(term, m, s, r); }
        OvertakenAmiss(term, m, s, r, last);
      }
    }
  }

  /** An event that was consumed at once is not the last of its key that is queued. */
  lemma OvertakenAmiss(term: nat, m: Keymap, s: State, r: Record, last: Option<bool>)
    requires Sound(s) && SoundRecord(r) && PairedState(s, r.event.key, last) && last != Some(r.event.pressed)
    requires OfKey(s.waiting, r.event.key) != []
    ensures !PairedState(Offer(term, m, s, r).state, r.event.key, Some(r.event.pressed))
  {
    hide Paired;
    hide Offer;
    var x, k := Offer(term, m, s, r), r.event.key;
    OfferSound(term, m, s, r);
    SameOfKey(s.waiting, x.state.waiting, k);
    LastIs(s, k, last);
    if PairedState(x.state, k, Some(r.event.pressed)) { LastIs(x.state, k, Some(r.event.pressed)); }
  }

  lemma SettledOffer(term: nat, m: Keymap, s: State, r: Record)
    requires Undecided(s) && OwnRelease(s.tapping, r.event) && WithinTerm(term, s.tapping, r.event)
    ensures var x := Offer(term, m, s, r);
            var t1 := s.tapping.(tap := s.tapping.tap.(count := 1));
            !x.done && x.rec.event == r.event && x.state == State(t1, s.waiting, s.out + [Genuine(t1)])
  {}

  // ---- runs

  /** The direction in which a key was moved last. */
  function LastMove(inputs: seq<Input>, k: Key): Option<bool> {
    if inputs == [] then None else Moved(inputs[|inputs| - 1].event, k, LastMove(inputs[..|inputs| - 1], k))
  }

  /** The key is pressed and released in turn. */
  predicate Alternates(inputs: seq<Input>, k: Key) {
    forall i :: 0 <= i < |inputs| && inputs[i].event.key == k ==>
      LastMove(inputs[..i], k) != Some(inputs[i].event.pressed)
  }

  /** Every event of the key comes in an orderly way. */
  ghost predicate OrderlyRun(term: nat, inputs: seq<Input>, k: Key) {
    forall i :: 0 <= i < |inputs| && inputs[i].event.key == k ==>
      Orderly(term, Run(term, INITIAL, inputs[..i]), inputs[i].event)
  }

  lemma {:induction false} RunPairs(term: nat, gap: nat, inputs: seq<Input>, k: Key)
    requires Frequent(term, gap) && WellFormed(inputs) && Ticking(gap, inputs) && k != NO_KEY
    requires Alternates(inputs, k) && OrderlyRun(term, inputs, k)
    ensures PairedState(Run(term, INITIAL, inputs), k, LastMove(inputs, k))
  {
    hide Accept;
    hide Drain;
    hide Resting;
    hide Orderly;
    if inputs != [] {
      hide Paired;
      var n := |inputs| - 1;
      var before, m, e := inputs[..n], inputs[n].keymap, inputs[n].event;
      var s := Run(term, INITIAL, before);
      assert before + [inputs[n]] == inputs;
      LastCall(gap, before, inputs[n]);
      assert forall i :: 0 <= i < n ==> before[..i] == inputs[..i];
      RunPairs(term, gap, before, k);
      ReachableIsSound(term, before);
      RunFlow(term, gap, before);
      AcceptPairs(term, m, s, e, k, LastMove(before, k));
      AcceptFlow(term, gap, m, s, e, Now(before), LastTick(before));
      DrainPairs(term, gap, m, Accept(term, m, s, e), e.at, LastTick(before), k, LastMove(inputs, k));
    }
  }

  /** The release of a key is executed with the tap count of the press before it, in every run with frequent
      ticks in which the key is pressed and released in turn and its events come in an orderly way; unless a
      release of the key was made up or everything was reset in between. */
  lemma ReleaseMatchesPress(term: nat, gap: nat, inputs: seq<Input>, k: Key, i: nat)
    requires Frequent(term, gap) && WellFormed(inputs) && Ticking(gap, inputs) && k != NO_KEY
    requires Alternates(inputs, k) && OrderlyRun(term, inputs, k)
    requires var out := Run(term, INITIAL, inputs).out;
             i < |out| && out[i].Genuine? && out[i].rec.event.key == k && !out[i].rec.event.pressed
    ensures var out := Run(term, INITIAL, inputs).out;
            Open(out[..i], k).Some? ==> out[i].rec.tap.count == Open(out[..i], k).value
  {
    hide Run;
    RunPairs(term, gap, inputs, k);
    var out := Run(term, INITIAL, inputs).out;
    assert Closes(out[..i], out[i], k);
  }
}

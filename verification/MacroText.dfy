/** The macro area: zero-terminated strings, sent one character or one key action at a time. */
module MacroText {
  import opened Common

  const PREFIX: byte := 1
  const TAP: byte := 1
  const DOWN: byte := 2
  const UP: byte := 3

  predicate IsAction(b: byte) { b == TAP || b == DOWN || b == UP }

  // ---- reading

  /** The complete zero-terminated strings of the area, in order; bytes after the last zero are none. */
  function Strings(area: seq<byte>): seq<seq<byte>> { StringsFrom([], area) }

  /** `sofar` has been read of the current string. */
  function StringsFrom(sofar: seq<byte>, area: seq<byte>): seq<seq<byte>>
    decreases area
  {
    if area == [] then []
    else if area[0] == 0 then [sofar] + StringsFrom([], area[1..])
    else StringsFrom(sofar + [area[0]], area[1..])
  }

  function Zeros(area: seq<byte>): nat {
    if area == [] then 0 else (if area[0] == 0 then 1 else 0) + Zeros(area[1..])
  }

  /** The area is finished, and the first string that it does not hold is number `id`: looking for the `id`-th
      zero ends right behind the area. */
  predicate Overruns(area: seq<byte>, id: nat) { area != [] && area[|area| - 1] == 0 && Zeros(area) == id }

  /** A string cut into the pieces that are sent: single characters, and prefix, action, key. A string
      that ends in an action without a key stops before it. */
  function Pieces(s: seq<byte>): seq<seq<byte>> {
    if s == [] then []
    else if IsAction(s[0]) then if |s| == 1 then [] else [[PREFIX, s[0], s[1]]] + Pieces(s[2..])
    else [[s[0]]] + Pieces(s[1..])
  }

  // ---- writing

  /** What a host means by a macro: characters to type and actions on keys. */
  datatype Token = Char(c: byte) | Act(action: byte, key: byte)

  predicate IsToken(t: Token) {
    match t
    case Char(c) => c != 0 && !IsAction(c)
    case Act(action, key) => IsAction(action) && key != 0
  }

  predicate Tokens(ts: seq<Token>) { forall i :: 0 <= i < |ts| ==> IsToken(ts[i]) }

  function Encode(ts: seq<Token>): seq<byte> {
    if ts == [] then []
    else (match ts[0] case Char(c) => [c] case Act(action, key) => [action, key]) + Encode(ts[1..])
  }

  function Sent(ts: seq<Token>): seq<seq<byte>> {
    if ts == [] then []
    else (match ts[0] case Char(c) => [[c]] case Act(action, key) => [[PREFIX, action, key]]) + Sent(ts[1..])
  }

  /** The area a host writes for a list of macros. */
  function Serialize(macros: seq<seq<Token>>): seq<byte> {
    if macros == [] then [] else Encode(macros[0]) + [0] + Serialize(macros[1..])
  }

  // ---- proofs

  predicate NoZero(s: seq<byte>) { forall i :: 0 <= i < |s| ==> s[i] != 0 }

  lemma {:induction false} StringsCount(sofar: seq<byte>, area: seq<byte>)
    ensures |StringsFrom(sofar, area)| == Zeros(area)
    decreases area
  {
    if area != [] {
      if area[0] == 0 { StringsCount([], area[1..]); } else { StringsCount(sofar + [area[0]], area[1..]); }
    }
  }

  /** Position of the first zero, or the length of the area. */
  function FirstZero(area: seq<byte>): (k: nat)
    ensures k <= |area|
    ensures k < |area| ==> area[k] == 0
    ensures NoZero(area[..k])
  {
    if area == [] || area[0] == 0 then 0
    else
      var k := 1 + FirstZero(area[1..]);
      assert forall i :: 1 <= i < k ==> area[..k][i] == area[1..][..k - 1][i - 1];
      k
  }

  lemma ZeroFound(area: seq<byte>)
    requires area != [] && area[|area| - 1] == 0
    ensures FirstZero(area) < |area|
  {
    assert area[..|area|] == area;
  }

  /** The first string runs up to the first zero. */
  lemma FirstString(area: seq<byte>)
    requires area != [] && area[|area| - 1] == 0
    ensures FirstZero(area) < |area| && Strings(area) != [] && Strings(area)[0] == area[..FirstZero(area)]
  {
    hide StringsFrom;
    hide FirstZero;
    hide NoZero;
    var k := FirstZero(area);
    ZeroFound(area);
    var a, b := area[..k], area[k + 1..];
    assert area == a + [0] + b;
    StringsRead([], a, b);
    assert [] + a == a;
  }

  /** As many strings as zeros. */
  lemma StringsPerZero(area: seq<byte>)
    ensures |Strings(area)| == Zeros(area)
  {
    StringsCount([], area);
  }

  lemma {:induction false} StringsRead(sofar: seq<byte>, s: seq<byte>, rest: seq<byte>)
    requires NoZero(s)
    ensures StringsFrom(sofar, s + [0] + rest) == [sofar + s] + Strings(rest)
    decreases s
  {
    var area := s + [0] + rest;
    if s == [] {
      assert area[1..] == rest;
      assert sofar + s == sofar;
    } else {
      assert area[1..] == s[1..] + [0] + rest;
      StringsRead(sofar + [s[0]], s[1..], rest);
      assert sofar + [s[0]] + s[1..] == sofar + s;
    }
  }

  lemma {:induction false} EncodeNoZero(ts: seq<Token>)
    requires Tokens(ts)
    ensures NoZero(Encode(ts))
  {
    if ts != [] { EncodeNoZero(ts[1..]); }
  }

  /** What is sent for an encoded macro is exactly what it means. */
  lemma {:induction false} PiecesOfEncode(ts: seq<Token>)
    requires Tokens(ts)
    ensures Pieces(Encode(ts)) == Sent(ts)
  {
    if ts != [] {
      PiecesOfEncode(ts[1..]);
      var e := Encode(ts);
      match ts[0]
      case Char(c) => assert e[1..] == Encode(ts[1..]);
      case Act(action, key) => assert e[2..] == Encode(ts[1..]);
    }
  }

  /** A written area reads back as its macros, whatever follows it. */
  lemma {:induction false} SerializeRoundTrip(macros: seq<seq<Token>>, rest: seq<byte>, id: nat)
    requires id < |macros| && forall i :: 0 <= i < |macros| ==> Tokens(macros[i])
    ensures var strings := Strings(Serialize(macros) + rest);
            id < |strings| && Pieces(strings[id]) == Sent(macros[id])
  {
    var more := Serialize(macros[1..]) + rest;
    assert Serialize(macros) + rest == Encode(macros[0]) + [0] + more;
    EncodeNoZero(macros[0]);
    StringsRead([], Encode(macros[0]), more);
    assert [] + Encode(macros[0]) == Encode(macros[0]);
    if id == 0 {
      PiecesOfEncode(macros[0]);
    } else {
      SerializeRoundTrip(macros[1..], rest, id - 1);
    }
  }

  /** Nothing is made up or lost: the pieces without their prefixes are the string again, up to a
      final action without a key. */
  lemma {:induction false} PiecesCover(s: seq<byte>)
    ensures Unprefixed(Pieces(s)) == if Dangling(s) then s[..|s| - 1] else s
  {
    if s != [] {
      if IsAction(s[0]) && |s| > 1 {
        PiecesCover(s[2..]);
      } else if !IsAction(s[0]) {
        PiecesCover(s[1..]);
      }
    }
  }

  /** The last byte is an action that no key follows. */
  predicate Dangling(s: seq<byte>) {
    if s == [] then false
    else if IsAction(s[0]) then |s| == 1 || Dangling(s[2..])
    else Dangling(s[1..])
  }

  function Unprefixed(pieces: seq<seq<byte>>): seq<byte> {
    if pieces == [] then []
    else (if |pieces[0]| == 3 then pieces[0][1..] else pieces[0]) + Unprefixed(pieces[1..])
  }

  // ---- reading past the end

  lemma {:induction false} ZerosAppend(a: seq<byte>, b: seq<byte>)
    ensures Zeros(a + b) == Zeros(a) + Zeros(b)
  {
    if a == [] {
      assert a + b == b;
    } else {
      assert (a + b)[1..] == a[1..] + b;
      ZerosAppend(a[1..], b);
    }
  }

  lemma {:induction false} NoZeroCounts(s: seq<byte>)
    requires NoZero(s)
    ensures Zeros(s) == 0
  {
    if s != [] { NoZeroCounts(s[1..]); }
  }

  function Terminators(n: nat): (zeros: seq<byte>)
    ensures |zeros| == n && forall i :: 0 <= i < n ==> zeros[i] == 0
  {
    seq(n, _ => 0)
  }

  lemma {:induction false} TerminatorsCount(n: nat)
    ensures Zeros(Terminators(n)) == n
  {
    if n > 0 {
      TerminatorsCount(n - 1);
      assert Terminators(n)[1..] == Terminators(n - 1);
    }
  }

  /** Areas on which the code reads on: any text without zeros, filled up with exactly `id` of them. */
  lemma OverrunsAfterText(text: seq<byte>, id: nat)
    requires NoZero(text) && id > 0
    ensures Overruns(text + Terminators(id), id)
  {
    ZerosAppend(text, Terminators(id));
    NoZeroCounts(text);
    TerminatorsCount(id);
  }

  /** The smallest one: one character and its terminator, and the second macro is asked for. */
  lemma OverrunsExample()
    ensures Overruns([97, 0], 1)
  {
    assert Zeros([97, 0]) == Zeros([97, 0][1..]);
    assert [97, 0][1..] == [0];
    assert Zeros([0]) == 1 + Zeros([0][1..]);
  }

  lemma {:induction false} LastZeroCounts(area: seq<byte>)
    requires area != [] && area[|area| - 1] == 0
    ensures Zeros(area) > 0
  {
    if area[0] != 0 { LastZeroCounts(area[1..]); }
  }

  /** Exactly when no macro that can be asked for overruns: the area is unfinished, so that nothing is sent, or
      it holds a string for every macro. */
  lemma NoOverrunIff(area: seq<byte>, count: nat)
    requires area != []
    ensures (forall id :: 0 <= id < count ==> !Overruns(area, id)) <==>
            area[|area| - 1] != 0 || Zeros(area) >= count
  {
    if area[|area| - 1] == 0 && Zeros(area) < count { assert Overruns(area, Zeros(area)); }
  }

  lemma {:induction false} SerializeCounts(macros: seq<seq<Token>>)
    requires forall i :: 0 <= i < |macros| ==> Tokens(macros[i])
    ensures Zeros(Serialize(macros)) == |macros|
  {
    if macros != [] {
      var e, more := Encode(macros[0]), Serialize(macros[1..]);
      EncodeNoZero(macros[0]);
      NoZeroCounts(e);
      ZerosAppend(e + [0], more);
      ZerosAppend(e, [0]);
      assert Zeros([0]) == 1;
      SerializeCounts(macros[1..]);
    }
  }

  /** A host that writes a string for every macro is safe, whatever follows. */
  lemma SerializedIsSafe(macros: seq<seq<Token>>, rest: seq<byte>, id: nat)
    requires id < |macros| && forall i :: 0 <= i < |macros| ==> Tokens(macros[i])
    ensures !Overruns(Serialize(macros) + rest, id)
  {
    SerializeCounts(macros);
    ZerosAppend(Serialize(macros), rest);
  }
}

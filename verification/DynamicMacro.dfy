/** The recorder as it runs: one array, two end markers and a write position. */
module DynamicMacro {
  import opened Common
  import opened MacroModel

  class Recorder {
    const buffer: array<Record>
    var macroEnd: int
    var rMacroEnd: int
    var macroPointer: int
    var macroId: nat
    var played: seq<seq<Record>>

    ghost function Abs(): State
      reads this, buffer
    {
      State(buffer[..], macroEnd, rMacroEnd, macroPointer,
            if macroId == 1 then Some(Left) else if macroId == 2 then Some(Right) else None, played)
    }

    ghost predicate Valid()
      reads this, buffer
    {
      macroId <= 2 && Sound(Abs())
    }

    constructor (size: nat)
      ensures Valid() && buffer.Length == size && Abs() == Initial(size)
    {
      buffer := new Record[size](_ => Record(0, false, 0));
      macroEnd, rMacroEnd, macroPointer, macroId, played := 0, size - 1, 0, 0, [];
    }

    /** Plays from `start` up to, not including, `end`. */
    method PlayMacro(start: int, end: int, d: Slot)
      requires start == Begin(buffer.Length, d) && 0 <= Length(buffer.Length, d, end) <= buffer.Length
      modifies this`played
      ensures played == old(played) + [Segment(buffer[..], d, Length(buffer.Length, d, end))]
    {
      var p := start;
      var sent := [];
      ghost var n := 0;
      while p != end
        invariant 0 <= n <= Length(buffer.Length, d, end) && p == Pos(buffer.Length, d, n)
        invariant sent == Segment(buffer[..], d, n)
        decreases Length(buffer.Length, d, end) - n
      {
        sent := sent + [buffer[p]];
        p := p + Sign(d);
        n := n + 1;
      }
      played := played + [sent];
    }

    /** Stores a record unless that would overwrite the other macro. */
    method RecordKeyAt(start: int, pointer: int, otherEnd: int, d: Slot, r: Record) returns (next: int)
      requires Sound(Abs()) && Abs().recording == Some(d)
      requires start == Begin(buffer.Length, d) && pointer == macroPointer && otherEnd == End(Abs(), Other(d))
      modifies buffer
      ensures Abs().(pointer := next) == RecordKey(old(Abs()), d, r)
    {
      if !r.pressed && pointer == start { return pointer; }
      if pointer - Sign(d) != otherEnd {
        buffer[pointer] := r;
        return pointer + Sign(d);
      }
      return pointer;
    }

    method RecordEndAt(start: int, pointer: int, d: Slot) returns (end: int)
      requires start == Begin(buffer.Length, d) && 0 <= Length(buffer.Length, d, pointer) <= buffer.Length
      ensures end == Trim(buffer[..], d, pointer)
    {
      end := pointer;
      while end != start && buffer[end - Sign(d)].pressed
        invariant 0 <= Length(buffer.Length, d, end) <= Length(buffer.Length, d, pointer)
        invariant Trim(buffer[..], d, end) == Trim(buffer[..], d, pointer)
        decreases Length(buffer.Length, d, end)
      {
        end := end - Sign(d);
      }
    }

    /** Returns whether the event is to be processed further. */
    method ProcessRecordDynamicMacro(keycode: Keycode, r: Record) returns (passedOn: bool)
      requires Valid()
      modifies this, buffer
      ensures Valid() && Abs() == Step(old(Abs()), Event(keycode, r))
      ensures passedOn == PassedOn(old(Abs()), Event(keycode, r))
      ensures passedOn <==> if old(macroId) == 0 then r.pressed || keycode == RecStop || keycode.Plain?
                            else keycode != RecStop && keycode != Play1 && keycode != Play2
    {
      var first, last := 0, buffer.Length - 1;
      if macroId == 0 {
        if !r.pressed {
          match keycode {
            case RecStart1 =>
              macroPointer := first;
              macroId := 1;
              return false;
            case RecStart2 =>
              macroPointer := last;
              macroId := 2;
              return false;
            case Play1 =>
              PlayMacro(first, macroEnd, Left);
              return false;
            case Play2 =>
              PlayMacro(last, rMacroEnd, Right);
              return false;
            case _ =>
          }
        }
      } else {
        match keycode {
          case RecStop =>
            if r.pressed {
              if macroId == 1 {
                macroEnd := RecordEndAt(first, macroPointer, Left);
              } else {
                rMacroEnd := RecordEndAt(last, macroPointer, Right);
              }
              macroId := 0;
            }
            return false;
          case Play1 => return false;
          case Play2 => return false;
          case _ =>
            if macroId == 1 {
              macroPointer := RecordKeyAt(first, macroPointer, rMacroEnd, Left, r);
            } else {
              macroPointer := RecordKeyAt(last, macroPointer, macroEnd, Right, r);
            }
            return true;
        }
      }
      return true;
    }
  }
}

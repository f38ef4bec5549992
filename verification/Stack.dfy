/** The operand stack and the activation stack: a vector that doubles when it is full, and the
    index of the next free slot. */
module Stack {
  import opened Wasm

  class Stack<T(0)> {
    var slots: array<T>
    var index: nat

    ghost predicate Valid()
      reads this
    {
      slots.Length > 0 && index <= slots.Length
    }

    ghost function Contents(): (c: seq<T>)
      reads this, slots
      requires Valid()
      ensures |c| == index
    {
      slots[..index]
    }

    constructor (size: nat)
      requires size > 0
      ensures Valid() && Contents() == [] && fresh(slots)
    {
      slots := new T[size];
      index := 0;
    }

    method Push(e: T)
      requires Valid()
      modifies this, slots
      ensures Valid() && Contents() == old(Contents()) + [e]
      ensures slots == old(slots) || fresh(slots)
    {
      if index >= slots.Length {
        Grow();
      }
      slots[index] := e;
      index := index + 1;
    }

    method Grow()
      requires Valid()
      modifies this`slots
      ensures Valid() && Contents() == old(Contents()) && fresh(slots) && slots.Length == 2 * old(slots.Length)
    {
      var bigger := new T[2 * slots.Length];
      var i := 0;
      while i < slots.Length
        modifies bigger
        invariant 0 <= i <= slots.Length
        invariant bigger[..i] == slots[..i]
      {
        bigger[i] := slots[i];
        i := i + 1;
      }
      assert bigger[..index] == bigger[..i][..index] && slots[..index] == slots[..i][..index];
      slots := bigger;
    }

    method Pop() returns (e: T)
      requires Valid() && index > 0
      modifies this`index
      ensures Valid() && old(Contents()) == Contents() + [e]
    {
      index := index - 1;
      e := slots[index];
    }

    /** `peek(i)`: the operand `i` places below the top. */
    method Peek(i: nat) returns (e: T)
      requires Valid() && i < index
      ensures e == Contents()[index - 1 - i]
    {
      e := slots[index - 1 - i];
    }

    /** The check lets the slot just above the top through, with whatever was left in it. */
    method Get(i: nat) returns (e: Option<T>)
      requires Valid() && i < slots.Length
      ensures e == if i <= index then Some(slots[i]) else None
      ensures i < index ==> e == Some(Contents()[i])
    {
      e := if i <= index then Some(slots[i]) else None;
    }

    method Set(i: nat, e: T) returns (ok: bool)
      requires Valid() && i < slots.Length
      modifies slots
      ensures Valid() && (ok <==> i <= index)
      ensures Contents() == if i < index then old(Contents())[i := e] else old(Contents())
    {
      ok := i <= index;
      if ok {
        slots[i] := e;
      }
    }

    /** Drops everything from `i` on. */
    method Eat(i: nat)
      requires Valid() && i <= index
      modifies this`index
      ensures Valid() && Contents() == old(Contents())[..i]
    {
      index := i;
    }

    /** Moves the top down to slot `i` and drops the rest. */
    method Compact(i: nat)
      requires Valid() && i < index
      modifies this`index, slots
      ensures Valid() && Contents() == old(Contents())[..i] + [old(Contents())[|old(Contents())| - 1]]
    {
      slots[i] := slots[index - 1];
      index := i + 1;
    }
  }
}

/** Bulk copies and fills, which move one element per dispatch and run the same opcode again, with
    their progress kept in their operands on the stack. */
module BulkOps {
  import opened Wasm
  import Stack

  function CopyRun<T>(b: Bulk<T>, n: nat): BulkResult<T>
    decreases n
  {
    if n == 0 then Again(b)
    else
      match CopyStep(b)
      case Again(b') => CopyRun(b', n - 1)
      case r => r
  }

  function FillRun<T>(b: Bulk<T>, low: u32 -> T, n: nat): BulkResult<T>
    decreases n
  {
    if n == 0 then Again(b)
    else
      match FillStep(b, low)
      case Again(b') => FillRun(b', low, n - 1)
      case r => r
  }

  /** The elements at `src` appear at `dst`, as they were before; the rest stays. */
  function Memmove<T>(elems: seq<T>, dst: nat, src: nat, size: nat): (r: seq<T>)
    requires InBounds(elems, src, size) && InBounds(elems, dst, size)
    ensures |r| == |elems|
  {
    elems[..dst] + elems[src..src + size] + elems[dst + size..]
  }

  function Filled<T>(elems: seq<T>, dst: nat, size: nat, x: T): (r: seq<T>)
    requires InBounds(elems, dst, size)
    ensures |r| == |elems|
  {
    elems[..dst] + seq(size, i => x) + elems[dst + size..]
  }

  /** Moving the first element before the others is safe when the target lies below. */
  lemma MoveFirst<T>(elems: seq<T>, dst: nat, src: nat, size: nat)
    requires InBounds(elems, src, size) && InBounds(elems, dst, size) && size > 0 && dst <= src
    ensures Memmove(elems[dst := elems[src]], dst + 1, src + 1, size - 1) == Memmove(elems, dst, src, size)
  {
    var a := Memmove(elems[dst := elems[src]], dst + 1, src + 1, size - 1);
    var b := Memmove(elems, dst, src, size);
    forall i | 0 <= i < |elems|
      ensures a[i] == b[i]
    {
      if dst < i < dst + size {
        assert a[i] == elems[dst := elems[src]][src + 1 + (i - (dst + 1))];
      }
    }
  }

  /** Moving the last one first is safe when the target lies above. */
  lemma MoveLast<T>(elems: seq<T>, dst: nat, src: nat, size: nat)
    requires InBounds(elems, src, size) && InBounds(elems, dst, size) && size > 0 && dst > src
    ensures Memmove(elems[dst + size - 1 := elems[src + size - 1]], dst, src, size - 1) ==
            Memmove(elems, dst, src, size)
  {
    var a := Memmove(elems[dst + size - 1 := elems[src + size - 1]], dst, src, size - 1);
    var b := Memmove(elems, dst, src, size);
    forall i | 0 <= i < |elems|
      ensures a[i] == b[i]
    {
      if dst <= i < dst + size - 1 {
        assert a[i] == elems[dst + size - 1 := elems[src + size - 1]][src + (i - dst)];
      }
    }
  }

  lemma FillFirst<T>(elems: seq<T>, dst: nat, size: nat, x: T)
    requires InBounds(elems, dst, size) && size > 0
    ensures Filled(elems[dst := x], dst + 1, size - 1, x) == Filled(elems, dst, size, x)
  {
    var a := Filled(elems[dst := x], dst + 1, size - 1, x);
    var b := Filled(elems, dst, size, x);
    forall i | 0 <= i < |elems|
      ensures a[i] == b[i]
    {
    }
  }

  predicate CopyFits<T>(b: Bulk<T>) {
    InBounds(b.elems, b.src, b.size) && InBounds(b.elems, b.dst, b.size)
  }

  function CopyTarget<T>(b: Bulk<T>): seq<T>
    requires CopyFits(b)
  {
    Memmove(b.elems, b.dst, b.src, b.size)
  }

  /** One dispatch that is not the last but one leaves a smaller copy with the same outcome. */
  lemma CopyContinues<T>(b: Bulk<T>)
    requires |b.elems| <= U32_LIMIT && CopyFits(b) && b.size > 0 && (b.size > 1 || b.dst > b.src)
    ensures CopyStep(b).Again?
    ensures
      var b' := CopyStep(b).b;
      && |b'.elems| == |b.elems| && b'.size == b.size - 1
      && CopyFits(b') && CopyTarget(b') == CopyTarget(b)
  {
    hide Memmove;
    if b.dst <= b.src {
      assert Wrap(b.dst + 1) == b.dst + 1 && Wrap(b.src + 1) == b.src + 1;
      MoveFirst(b.elems, b.dst, b.src, b.size);
    } else {
      MoveLast(b.elems, b.dst, b.src, b.size);
    }
  }

  /** Copying in either direction ends, after one dispatch for each element and a last one, with
      the source range as it was before the copy, whatever the overlap. A range that does not fit
      is a fault of the first dispatch, so nothing has been written. Addresses wrap only once the
      last element is copied, at the end of a memory of the full 4 GiB. */
  lemma {:induction false} CopyIsMemmove<T>(b: Bulk<T>)
    requires |b.elems| <= U32_LIMIT
    ensures InBounds(b.elems, b.src, b.size) && InBounds(b.elems, b.dst, b.size) ==>
              CopyRun(b, b.size + 1) == Done(Memmove(b.elems, b.dst, b.src, b.size))
    ensures !InBounds(b.elems, b.src, b.size) || !InBounds(b.elems, b.dst, b.size) ==> CopyStep(b) == Fault
    decreases b.size
  {
    hide Memmove;
    if CopyFits(b) {
      if b.size == 0 {
        EmptyMove(b.elems, b.dst, b.src);
      } else if b.size == 1 && b.dst <= b.src {
        var b' := CopyStep(b).b;
        MoveFirst(b.elems, b.dst, b.src, b.size);
        LastStep(b', b.dst + 1, b.src + 1);
      } else {
        CopyContinues(b);
        CopyIsMemmove(CopyStep(b).b);
      }
    }
  }

  lemma EmptyMove<T>(elems: seq<T>, dst: nat, src: nat)
    requires InBounds(elems, src, 0) && InBounds(elems, dst, 0)
    ensures Memmove(elems, dst, src, 0) == elems
  {
  }

  /** The dispatch that finds nothing left to copy accepts wrapped addresses. */
  lemma LastStep<T>(b: Bulk<T>, dst: nat, src: nat)
    requires b.size == 0 && b.dst == Wrap(dst) && b.src == Wrap(src)
    requires dst <= |b.elems| <= U32_LIMIT && src <= |b.elems|
    ensures CopyRun(b, 1) == Done(b.elems) && b.elems == Memmove(b.elems, dst, src, 0)
  {
    assert b.dst <= dst && b.src <= src;
    assert CopyStep(b) == Done(b.elems);
  }

  /** No dispatch of a copy in progress faults, so a copy is never left half done. */
  lemma {:induction false} CopyNeverFaultsLater<T>(b: Bulk<T>, n: nat)
    requires |b.elems| <= U32_LIMIT && !CopyStep(b).Fault?
    ensures !CopyRun(b, n).Fault?
    ensures n <= b.size ==> CopyRun(b, n).Again? && CopyRun(b, n).b.size == b.size - n
    decreases n
  {
    if n > 0 && b.size > 0 {
      var b' := CopyStep(b).b;
      if b.size == 1 && b.dst <= b.src {
        LastStep(b', b.dst + 1, b.src + 1);
        assert CopyStep(b') == Done(b'.elems);
      }
      CopyNeverFaultsLater(b', n - 1);
    }
  }

  lemma {:induction false} FillIsRangeFill<T>(b: Bulk<T>, low: u32 -> T)
    requires |b.elems| <= U32_LIMIT
    ensures InBounds(b.elems, b.dst, b.size) ==>
              FillRun(b, low, b.size + 1) == Done(Filled(b.elems, b.dst, b.size, low(b.src)))
    ensures !InBounds(b.elems, b.dst, b.size) ==> FillStep(b, low) == Fault
    decreases b.size
  {
    hide Filled;
    if InBounds(b.elems, b.dst, b.size) {
      var x := low(b.src);
      if b.size == 0 {
        EmptyFill(b.elems, b.dst, x);
      } else {
        var b' := FillStep(b, low).b;
        FillFirst(b.elems, b.dst, b.size, x);
        if b.size == 1 {
          assert b'.dst <= b.dst + 1;
          assert FillRun(b', low, 1) == Done(b'.elems);
          EmptyFill(b'.elems, b.dst + 1, x);
        } else {
          FillIsRangeFill(b', low);
        }
      }
    }
  }

  lemma {:induction false} FillNeverFaultsLater<T>(b: Bulk<T>, low: u32 -> T, n: nat)
    requires |b.elems| <= U32_LIMIT && !FillStep(b, low).Fault?
    ensures !FillRun(b, low, n).Fault?
    ensures n <= b.size ==> FillRun(b, low, n).Again? && FillRun(b, low, n).b.size == b.size - n
    decreases n
  {
    if n > 0 && b.size > 0 {
      var b' := FillStep(b, low).b;
      assert b.size == 1 ==> b'.dst <= |b.elems| && FillStep(b', low) == Done(b'.elems);
      FillNeverFaultsLater(b', low, n - 1);
    }
  }

  lemma EmptyFill<T>(elems: seq<T>, dst: nat, x: T)
    requires InBounds(elems, dst, 0)
    ensures Filled(elems, dst, 0, x) == elems
  {
  }

  /** The part of the interpreter the bulk opcodes touch: a memory of bytes or a table, and the
      operand stack with `size` on top, then `src`, then `dst`. */
  class BulkContext<T(0)> {
    const elems: array<T>
    const os: Stack.Stack<u32>
    const low: u32 -> T
    var pc: nat

    ghost predicate Valid()
      reads this, os
    {
      os.Valid() && os.index >= 3 && (elems as object) != os.slots
    }

    ghost function State(): Bulk<T>
      reads this, elems, os, os.slots
      requires Valid()
    {
      var c := os.Contents();
      Bulk(elems[..], c[|c| - 3], c[|c| - 2], c[|c| - 1])
    }

    constructor (elems: array<T>, os: Stack.Stack<u32>, low: u32 -> T)
      requires os.Valid() && os.index >= 3 && (elems as object) != os.slots
      ensures Valid() && this.elems == elems && this.os == os && this.low == low && pc == 0
    {
      this.elems, this.os, this.low, pc := elems, os, low, 0;
    }

    /** `validate_pointer` reads the last element of the range, and the one before the range if it
        is empty; what lies before element 0 is readable. */
    method ValidatePointer(ptr: u32, len: u32) returns (ok: bool)
      ensures ok <==> InBounds(elems[..], ptr, len)
    {
      ok := ptr as int + len as int - 1 < elems.Length;
    }

    /** Updates the operands in place. */
    method SetOperands(dst: u32, src: u32, size: u32)
      requires Valid()
      modifies os.slots
      ensures Valid() && State() == Bulk(elems[..], dst, src, size)
      ensures os.Contents()[..os.index - 3] == old(os.Contents())[..os.index - 3]
    {
      var n := os.index;
      var ok := os.Set(n - 1, size);
      ok := os.Set(n - 2, src);
      ok := os.Set(n - 3, dst);
    }

    method MoveElement(to: nat, from: nat)
      requires to < elems.Length && from < elems.Length
      modifies elems
      ensures elems[..] == old(elems[..])[to := old(elems[from])]
    {
      elems[to] := elems[from];
    }

    method SetElement(to: nat, x: T)
      requires to < elems.Length
      modifies elems
      ensures elems[..] == old(elems[..])[to := x]
    {
      elems[to] := x;
    }

    method Finish()
      requires Valid()
      modifies os, this`pc
      ensures os.Valid() && os.slots == old(os.slots) && os.Contents() == old(os.Contents())[..old(os.index) - 3]
      ensures pc == old(pc) + 1
    {
      os.Eat(os.index - 3);
      pc := pc + 1;
    }

    /** What one dispatch of a bulk opcode leaves behind. */
    twostate predicate StepDone(r: BulkResult<T>, ok: bool)
      reads this, elems, os, os.slots
      requires old(Valid()) && os.Valid()
    {
      match r
      case Fault => !ok && os.Contents() == old(os.Contents()) && elems[..] == old(elems[..]) && pc == old(pc)
      case Done(c) => ok && os.Contents() == old(os.Contents())[..old(os.index) - 3] && elems[..] == c &&
        pc == old(pc) + 1
      case Again(b) =>
        && ok && Valid() && os.index == old(os.index) && State() == b && pc == old(pc)
        && os.Contents()[..os.index - 3] == old(os.Contents())[..os.index - 3]
    }

    /** `memory.copy` and `table.copy`. */
    method Copy() returns (ok: bool)
      requires Valid() && elems.Length <= U32_LIMIT
      modifies this`pc, os, os.slots, elems
      ensures os.Valid() && os.slots == old(os.slots)
      ensures StepDone(old(CopyStep(State())), ok)
    {
      hide Stack.Stack.Contents;
      var top := os.Peek(0);
      var second := os.Peek(1);
      var third := os.Peek(2);
      var size: nat, src: nat, dst: nat := top, second, third;
      ok := ValidatePointer(src, size);
      if !ok {
        return;
      }
      ok := ValidatePointer(dst, size);
      if !ok {
        return;
      }
      if size == 0 {
        Finish();
      } else if dst <= src {
        MoveElement(dst, src);
        SetOperands(Wrap(dst + 1), Wrap(src + 1), size - 1);
      } else {
        MoveElement(dst + size - 1, src + size - 1);
        SetOperands(dst, src, size - 1);
      }
    }

    /** `memory.fill`. */
    method Fill() returns (ok: bool)
      requires Valid() && elems.Length <= U32_LIMIT
      modifies this`pc, os, os.slots, elems
      ensures os.Valid() && os.slots == old(os.slots)
      ensures StepDone(old(FillStep(State(), low)), ok)
    {
      hide Stack.Stack.Contents;
      var top := os.Peek(0);
      var second := os.Peek(1);
      var third := os.Peek(2);
      var size: nat, src: nat, dst: nat := top, second, third;
      ok := ValidatePointer(dst, size);
      if !ok {
        return;
      }
      if size == 0 {
        Finish();
      } else {
        SetElement(dst, low(second));
        SetOperands(Wrap(dst + 1), src, size - 1);
      }
    }
  }
}

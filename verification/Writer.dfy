/** The bytecode writer: it fills a window of preallocated memory in place, hands out the
    addresses of branch targets, and patches them through those addresses later. */
module Writer {
  import opened Wasm
  import opened Validator
  import opened Scopes
  import opened Bytecode
  import opened Relocation

  lemma DivideBound(a: nat, b: nat, d: nat)
    requires d > 0 && a <= b * d
    ensures a / d <= b
  {
    assert a == a / d * d + a % d;
  }

  /** No instruction is translated to more opcodes than it has source bytes. */
  lemma WidthFits(m: Module, t: Token)
    requires WellSized(m)
    ensures Width(m, t) <= MinBytes(t)
  {
    if t.BrTable? {
      var n := |t.targets|;
      assert n * ENTRY_SIZE <= n * m.opcodeSize;
      DivideBound(n * ENTRY_SIZE, n, m.opcodeSize);
    }
  }

  /** All branch table entries, the default one included, lie in the slots reserved for them. */
  lemma TableFits(m: Module, size: nat)
    requires WellSized(m)
    ensures (size + 1) * ENTRY_SIZE <= TableSlots(m, size) * m.opcodeSize
  {
    var a, d := size * ENTRY_SIZE, m.opcodeSize;
    assert a == a / d * d + a % d;
    assert (a / d + 2) * d == a / d * d + 2 * d;
  }

  lemma {:induction false} CodeFits(m: Module, fd: FuncDecl, i: nat, n: nat)
    requires WellSized(m) && SizesOk(fd) && i <= n <= |fd.body|
    ensures Addr(m, fd, n) - Addr(m, fd, i) <= Consumed(fd, n) - Consumed(fd, i)
    decreases n - i
  {
    if i < n {
      CodeFits(m, fd, i, n - 1);
      WidthFits(m, fd.body[n - 1]);
    }
  }

  class BitcodeWriter {
    const arena: array<Opcode>
    var fbStart: nat
    var fbSize: nat
    var opIndex: nat
    var baseOffset: nat

    ghost predicate Valid()
      reads this
    {
      fbStart + fbSize <= arena.Length && opIndex <= fbSize
    }

    /** The code of the current function so far. */
    ghost function Code(): (c: seq<Opcode>)
      reads this, arena
      requires Valid()
      ensures |c| == opIndex
    {
      arena[fbStart..fbStart + opIndex]
    }

    constructor (memory: array<Opcode>)
      ensures arena == memory && baseOffset == 0 && opIndex == 0 && fbStart == 0 && fbSize == 0
    {
      arena := memory;
      fbStart, fbSize, opIndex, baseOffset := 0, 0, 0, 0;
    }

    method Append(op: Opcode)
      requires Valid() && opIndex < fbSize
      modifies this`opIndex, arena
      ensures Valid() && Code() == old(Code()) + [op]
      ensures arena[..fbStart] == old(arena[..fbStart])
    {
      arena[fbStart + opIndex] := op;
      opIndex := opIndex + 1;
    }

    method EmitIf() returns (slot: SlotAddr)
      requires Valid() && opIndex < fbSize
      modifies this`opIndex, arena
      ensures Valid() && Code() == old(Code()) + [OIf(0)] && slot == OpSlot(old(opIndex))
      ensures arena[..fbStart] == old(arena[..fbStart])
    {
      slot := OpSlot(opIndex);
      Append(OIf(0));
    }

    /** The `if` that is waiting jumps past the `else`. */
    method EmitElse(ifLoc: SlotAddr) returns (slot: SlotAddr)
      requires Valid() && opIndex < fbSize && Writable(Code(), ifLoc)
      modifies this`opIndex, arena
      ensures Valid() && slot == OpSlot(old(opIndex))
      ensures Code() == Patch(old(Code()) + [OElse(0)], ifLoc, baseOffset + old(opIndex) + 1)
      ensures arena[..fbStart] == old(arena[..fbStart])
    {
      slot := OpSlot(opIndex);
      Append(OElse(0));
      Write(ifLoc, baseOffset + opIndex);
    }

    method EmitBranch(op: Opcode) returns (slot: SlotAddr)
      requires Valid() && opIndex < fbSize
      modifies this`opIndex, arena
      ensures Valid() && Code() == old(Code()) + [op] && slot == OpSlot(old(opIndex))
      ensures arena[..fbStart] == old(arena[..fbStart])
    {
      slot := OpSlot(opIndex);
      Append(op);
    }

    /** Reserves the table after the opcode, and marks its end: the mark is overwritten by the
        next instruction. Fails when no byte of the body is left for one. */
    method EmitBrTable(m: Module, size: nat) returns (ok: bool, at: nat)
      requires Valid() && WellSized(m) && opIndex + 1 + TableSlots(m, size) <= fbSize
      modifies this`opIndex, arena
      ensures Valid() && at == old(opIndex)
      ensures ok <==> opIndex < fbSize
      ensures Code() == old(Code()) + [OBrTable(size, seq(size + 1, i => Entry(0, 0)))] +
              seq(TableSlots(m, size), i => OTableData)
      ensures arena[..fbStart] == old(arena[..fbStart])
    {
      at := opIndex;
      ghost var code := Code();
      Append(OBrTable(size, seq(size + 1, i => Entry(0, 0))));
      ghost var head := Code();
      var offset := TableSlots(m, size);
      var i := 0;
      while i < offset
        invariant 0 <= i <= offset && Valid() && opIndex == at + 1 + i
        invariant Code() == head + seq(i, x => OTableData)
        invariant arena[..fbStart] == old(arena[..fbStart])
      {
        Append(OTableData);
        i := i + 1;
      }
      ok := opIndex < fbSize;
      if ok {
        ghost var done := Code();
        arena[fbStart + opIndex] := OError;
        assert Code() == done;
      }
    }

    method EmitCase(at: nat, i: nat, data: nat) returns (slot: SlotAddr)
      requires Valid() && at < opIndex && Code()[at].OBrTable? && i < |Code()[at].entries|
      modifies arena
      ensures Valid() && slot == CaseSlot(at, i)
      ensures Code() == old(Code())[at := WithPop(old(Code())[at], i, data)]
      ensures arena[..fbStart] == old(arena[..fbStart])
    {
      var op := arena[fbStart + at];
      arena[fbStart + at] := WithPop(op, i, data);
      slot := CaseSlot(at, i);
    }

    /** `fix_branch`: stores an absolute target through a branch address. */
    method FixBranch(slot: SlotAddr, target: nat)
      requires Valid()
      modifies arena
      ensures Valid() && Code() == Patch(old(Code()), slot, baseOffset + target)
      ensures arena[..fbStart] == old(arena[..fbStart])
    {
      Write(slot, baseOffset + target);
    }

    method Write(slot: SlotAddr, pc: nat)
      requires Valid()
      modifies arena
      ensures Valid() && Code() == Patch(old(Code()), slot, pc)
      ensures arena[..fbStart] == old(arena[..fbStart])
    {
      if slot.at < opIndex {
        arena[fbStart + slot.at] := PatchOp(arena[fbStart + slot.at], slot, pc);
      }
    }

    method FixAll(slots: seq<SlotAddr>, target: nat)
      requires Valid()
      modifies arena
      ensures Valid() && Code() == PatchAll(old(Code()), slots, baseOffset + target)
      ensures arena[..fbStart] == old(arena[..fbStart])
    {
      var i := 0;
      while i < |slots|
        invariant 0 <= i <= |slots| && Valid()
        invariant Code() == PatchAll(old(Code()), slots[..i], baseOffset + target)
        invariant arena[..fbStart] == old(arena[..fbStart])
      {
        FixBranch(slots[i], target);
        assert slots[..i + 1][..i] == slots[..i];
        i := i + 1;
      }
      assert slots[..|slots|] == slots;
    }
  }

  function WithPop(op: Opcode, i: nat, data: nat): Opcode
    requires op.OBrTable? && i < |op.entries|
  {
    op.(entries := op.entries[i := op.entries[i].(stackPop := data)])
  }
}

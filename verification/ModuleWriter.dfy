/** Writing out all function bodies of a module, one after the other, into one code segment. */
module ModuleWriter {
  import opened Wasm
  import opened Validator
  import opened Bytecode
  import opened Relocation
  import opened Writer
  import opened Parser
  import opened Arena
  import Locals

  predicate AllSizesOk(m: Module) {
    forall k :: 0 <= k < |m.funcs| ==> SizesOk(m.funcs[k])
  }

  ghost predicate AcceptsFirst(m: Module, k: nat)
  {
    k <= |m.funcs| && forall j :: 0 <= j < k ==> Accepts(m, m.funcs[j])
  }

  /** The position of function `k`: the sizes of the functions before it. */
  function Base(m: Module, k: nat): nat
    requires WellSized(m) && k <= |m.funcs|
  {
    if k == 0 then 0 else Base(m, k - 1) + FuncSize(m, m.funcs[k - 1])
  }

  /** The finished code of the first `k` functions, without gaps. */
  ghost function ModuleCode(m: Module, k: nat): (c: seq<Opcode>)
    requires WellSized(m) && AcceptsFirst(m, k)
    ensures |c| == Base(m, k)
  {
    if k == 0 then [] else ModuleCode(m, k - 1) + FuncCode(m, m.funcs[k - 1], Base(m, k - 1))
  }

  lemma {:induction false} BaseMonotone(m: Module, j: nat, k: nat)
    requires WellSized(m) && j <= k <= |m.funcs|
    ensures Base(m, j) <= Base(m, k)
    ensures j < k ==> Base(m, j) + FuncSize(m, m.funcs[j]) <= Base(m, k)
    decreases k - j
  {
    if j < k {
      BaseMonotone(m, j + 1, k);
      assert Base(m, j + 1) == Base(m, j) + FuncSize(m, m.funcs[j]);
    }
  }

  /** Each function's code stands at its base. */
  lemma {:induction false} FunctionAt(m: Module, k: nat, j: nat)
    requires WellSized(m) && AcceptsFirst(m, k) && j < k
    ensures Base(m, j) + FuncSize(m, m.funcs[j]) <= Base(m, k)
    ensures ModuleCode(m, k)[Base(m, j)..Base(m, j) + FuncSize(m, m.funcs[j])] == FuncCode(m, m.funcs[j], Base(m, j))
    decreases k
  {
    hide Accepts, FuncCode, FuncSize;
    BaseMonotone(m, j, k);
    if j < k - 1 {
      FunctionAt(m, k - 1, j);
      var b, n := Base(m, j), FuncSize(m, m.funcs[j]);
      assert ModuleCode(m, k)[b..b + n] == ModuleCode(m, k - 1)[b..b + n];
    }
  }

  /** The code segment starts at byte `codeBase` of the arena; `align` is the alignment of an
      opcode. The next free byte is the one after the code written so far. */
  ghost predicate Laid(m: Module, w: BitcodeWriter, alloc: GrowableAllocator, codeBase: nat, align: nat)
    reads w, alloc
  {
    && WellSized(m)
    && align > 0 && m.opcodeSize % align == 0 && codeBase % align == 0 && alloc.capacity % align == 0
    && alloc.Valid() && codeBase <= alloc.capacity
    && w.arena.Length == (alloc.capacity - codeBase) / m.opcodeSize
    && alloc.offset == codeBase + m.opcodeSize * w.baseOffset
  }

  /** The room left for the next function, in opcodes. */
  function RoomLeft(m: Module, capacity: nat, codeBase: nat, base: nat): nat
    requires m.opcodeSize > 0
  {
    if codeBase + m.opcodeSize * base <= capacity
    then (capacity - (codeBase + m.opcodeSize * base)) / m.opcodeSize else 0
  }

  /** `emit_prologue`: one opcode for every source byte of the body. */
  method EmitPrologue(m: Module, w: BitcodeWriter, alloc: GrowableAllocator, codeBase: nat, align: nat, size: nat)
    returns (ok: bool)
    requires Laid(m, w, alloc, codeBase, align)
    modifies alloc, w`opIndex, w`fbStart, w`fbSize
    ensures alloc.Valid()
    ensures ok <==> size <= RoomLeft(m, alloc.capacity, codeBase, w.baseOffset)
    ensures ok ==> w.Valid() && w.fbStart == w.baseOffset && w.fbSize == size && w.opIndex == 0
    ensures ok ==> alloc.offset == codeBase + m.opcodeSize * (w.baseOffset + size)
  {
    hide AlignUp, RoomLeft;
    var s := m.opcodeSize;
    OffsetAligned(m, codeBase, align, w.baseOffset);
    RoomFits(m, alloc.capacity, codeBase, w.baseOffset, size);
    var start := alloc.Alloc(s, align, size);
    if start.None? {
      return false;
    }
    w.opIndex := 0;
    w.fbStart := (start.value - codeBase) / s;
    w.fbSize := size;
    return true;
  }

  lemma RoomFits(m: Module, capacity: nat, codeBase: nat, base: nat, size: nat)
    requires m.opcodeSize > 0 && codeBase + m.opcodeSize * base <= capacity
    ensures size <= RoomLeft(m, capacity, codeBase, base) <==>
            codeBase + m.opcodeSize * base + m.opcodeSize * size <= capacity
    ensures m.opcodeSize * (base + size) == m.opcodeSize * base + m.opcodeSize * size
    ensures m.opcodeSize * base / m.opcodeSize == base
    ensures codeBase + m.opcodeSize * (base + size) <= capacity ==> base + size <= (capacity - codeBase) / m.opcodeSize
  {
    var s := m.opcodeSize;
    DivUnique(s * base, s, base, 0);
    ElementsFit(capacity - (codeBase + s * base), s, size);
    ElementsFit(capacity - codeBase, s, base + size);
    Times(s, base, size);
  }

  lemma Times(s: nat, base: nat, size: nat)
    ensures s * (base + size) == s * base + s * size
  {
  }

  lemma OffsetAligned(m: Module, codeBase: nat, align: nat, base: nat)
    requires align > 0 && m.opcodeSize % align == 0 && codeBase % align == 0
    ensures AlignUp(codeBase + m.opcodeSize * base, align) == codeBase + m.opcodeSize * base
  {
    MultipleOf(base, m.opcodeSize, align);
    assert base * m.opcodeSize == m.opcodeSize * base;
    SumAligned(codeBase, m.opcodeSize * base, align);
    AlignedStays(codeBase + m.opcodeSize * base, align);
  }

  /** The tail of a vector that ends the arena can be reclaimed. */
  lemma TailOf(s: nat, start: nat, size: nat, full: nat, codeBase: nat)
    requires s > 0 && size <= full
    ensures codeBase + s * (start + size) + s * (full - size) == codeBase + s * (start + full)
    ensures full - size <= (codeBase + s * (start + full)) / s
  {
    assert s * (start + size) + s * (full - size) == s * (start + full);
    assert s * (start + size) >= 0;
    ElementsFit(codeBase + s * (start + full), s, full - size);
  }

  /** A block at the end of the arena lies past all code written so far. */
  lemma NewBlock(s: nat, codeBase: nat, size: nat, capacity: nat, align: nat)
    requires s > 0 && align > 0 && capacity % align == 0 && codeBase + s * size <= capacity
    ensures codeBase <= AlignUp(codeBase + s * size, align) <= capacity
    ensures (AlignUp(codeBase + s * size, align) - codeBase) / s >= size
  {
    hide AlignUp;
    var offset := codeBase + s * size;
    AlignWithin(offset, capacity, align);
    ElementsFit(AlignUp(offset, align) - codeBase, s, size);
    assert s * size >= 0;
  }

  /** `resize` of the code vector. Shrinking gives the tail back to the arena; growing would
      move to a new block without copying, so everything written would be lost. */
  method Resize(m: Module, w: BitcodeWriter, alloc: GrowableAllocator, codeBase: nat, align: nat, size: nat)
    returns (ok: bool)
    requires WellSized(m) && alloc.Valid() && w.Valid() && codeBase <= alloc.capacity && align > 0 &&
            alloc.capacity % align == 0
    requires alloc.offset == codeBase + m.opcodeSize * (w.fbStart + w.fbSize)
    modifies alloc, w`fbStart, w`fbSize
    ensures alloc.Valid() && w.opIndex == old(w.opIndex)
    ensures size <= old(w.fbSize) ==>
              ok && w.fbStart == old(w.fbStart) && w.fbSize == size &&
              alloc.offset == codeBase + m.opcodeSize * (w.fbStart + size)
    ensures size > old(w.fbSize) ==>
              var start := AlignUp(old(alloc.offset), align);
              && codeBase <= start <= alloc.capacity
              && (ok <==> start + m.opcodeSize * size <= alloc.capacity)
              && (ok ==>
                    && w.fbStart == (start - codeBase) / m.opcodeSize >= old(w.fbStart + w.fbSize) && w.fbSize == size
                    && alloc.offset == start + m.opcodeSize * size)
              && (!ok ==> w.fbStart == old(w.fbStart) && w.fbSize == old(w.fbSize))
  {
    hide AlignUp;
    if size > w.fbSize {
      ok := Grow(m.opcodeSize, w, alloc, codeBase, align, size);
    } else {
      ok := Shrink(m.opcodeSize, w, alloc, codeBase, size);
    }
  }

  method Grow(s: nat, w: BitcodeWriter, alloc: GrowableAllocator, codeBase: nat, align: nat, size: nat)
    returns (ok: bool)
    requires s > 0 && alloc.Valid() && align > 0 && alloc.capacity % align == 0
    requires alloc.offset == codeBase + s * (w.fbStart + w.fbSize)
    modifies alloc, w`fbStart, w`fbSize
    ensures alloc.Valid()
    ensures
      var start := AlignUp(old(alloc.offset), align);
      && codeBase <= start <= alloc.capacity
      && (ok <==> start + s * size <= alloc.capacity)
      && (ok ==>
            && w.fbStart == (start - codeBase) / s >= old(w.fbStart + w.fbSize) && w.fbSize == size
            && alloc.offset == start + s * size)
      && (!ok ==> w.fbStart == old(w.fbStart) && w.fbSize == old(w.fbSize))
  {
    hide AlignUp;
    NewBlock(s, codeBase, w.fbStart + w.fbSize, alloc.capacity, align);
    var start := alloc.Alloc(s, align, size);
    ok := start.Some?;
    if ok {
      w.fbStart := (start.value - codeBase) / s;
      w.fbSize := size;
    }
  }

  method Shrink(s: nat, w: BitcodeWriter, alloc: GrowableAllocator, codeBase: nat, size: nat) returns (ok: bool)
    requires s > 0 && alloc.Valid() && size <= w.fbSize
    requires alloc.offset == codeBase + s * (w.fbStart + w.fbSize)
    modifies alloc, w`fbSize
    ensures alloc.Valid() && ok && w.fbSize == size
    ensures alloc.offset == codeBase + s * (w.fbStart + size)
  {
    var tail := w.fbSize - size;
    var start := codeBase + s * (w.fbStart + size);
    TailOf(s, w.fbStart, size, w.fbSize, codeBase);
    ok := alloc.Reclaim(start, s, tail);
    w.fbSize := size;
  }

  /** `maximum_stack` after the first `k` functions. */
  ghost function MaximumStack(m: Module, k: nat): nat
    requires AcceptsFirst(m, k)
  {
    if k == 0 then 0 else Max(MaximumStack(m, k - 1), FuncStack(m, m.funcs[k - 1]))
  }

  datatype Outcome = Written(starts: seq<nat>, maximumStack: nat) | Rejected(func: nat) | OutOfMemory(func: nat)

  /** A single function: its table of locals, prologue, body, epilogue, finalize. `stack` is the depth
      of its operands and the number of its declared locals. */
  method WriteFunction(m: Module, w: BitcodeWriter, alloc: GrowableAllocator, codeBase: nat, align: nat, fd: FuncDecl)
    returns (memory: bool, accepted: bool, stack: nat)
    requires Laid(m, w, alloc, codeBase, align) && SizesOk(fd)
    requires w.baseOffset <= w.arena.Length
    modifies alloc, w, w.arena
    ensures memory <==>
            |LocalTypes(fd)| >= U32_LIMIT ||
              Consumed(fd, |fd.body|) <= RoomLeft(m, alloc.capacity, codeBase, old(w.baseOffset))
    ensures memory ==> (accepted <==> Accepts(m, fd))
    ensures memory && accepted ==> stack == FuncStack(m, fd)
    ensures memory && accepted ==>
              && Laid(m, w, alloc, codeBase, align)
              && w.fbStart == old(w.baseOffset)
              && w.baseOffset == old(w.baseOffset) + FuncSize(m, fd) <= w.arena.Length
              && w.arena[..w.baseOffset] == old(w.arena[..w.baseOffset]) + FuncCode(m, fd, old(w.baseOffset))
  {
    hide Accepts, Code, Run, Consumed, AlignUp, FuncStack, Locals.LocalTypesTable.Valid, RoomLeft, LocalTypes;
    ghost var base := w.baseOffset;
    ghost var before := w.arena[..base];
    accepted, stack := false, 0;
    var locals := new Locals.LocalTypesTable(fd);
    memory := locals.Build();
    if !memory {
      TooManyLocals(m, fd);
      return true, false, 0;
    }
    memory := EmitPrologue(m, w, alloc, codeBase, align, BodyBytes(fd));
    if !memory {
      return;
    }
    assert w.arena[..base] == before;
    accepted, stack := CompileBody(m, w, fd, locals);
    if !accepted {
      return;
    }
    assert w.arena[..base] == before;
    BodyNotFull(m, fd);
    EmitEpilogue(m, w, alloc, codeBase, align, fd);
    assert w.arena[..w.baseOffset] == w.arena[..base] + w.arena[base..w.baseOffset];
  }

  /** The body between prologue and epilogue. */
  method CompileBody(m: Module, w: BitcodeWriter, fd: FuncDecl, locals: Locals.LocalTypesTable)
    returns (ok: bool, stack: nat)
    requires WellSized(m) && SizesOk(fd) && locals.Valid() && locals.fd == fd
    requires w.Valid() && w.fbSize == Consumed(fd, |fd.body|) && w.opIndex == 0
    modifies w`opIndex, w.arena
    ensures w.Valid() && w.arena[..w.fbStart] == old(w.arena[..w.fbStart])
    ensures ok <==> Accepts(m, fd)
    ensures ok ==> w.Code() == Code(m, fd, w.baseOffset, |fd.body|) && stack == FuncStack(m, fd)
  {
    hide Accepts, Code, Run, Locals.LocalTypesTable.Valid;
    stack := 0;
    var parser := new BodyParser(m, fd, locals, w);
    ok := parser.ParseFunctionBodyCode();
    if ok {
      var declared := locals.LocalsCount();
      stack := parser.tracker.maximumOperandDepth + declared;
    }
  }

  lemma TooManyLocals(m: Module, fd: FuncDecl)
    requires |LocalTypes(fd)| >= U32_LIMIT
    ensures !Accepts(m, fd)
  {
  }

  /** `emit_epilogue` and `finalize`: the function ends with its return, and the rest of its
      memory goes back to the arena. */
  method EmitEpilogue(m: Module, w: BitcodeWriter, alloc: GrowableAllocator, codeBase: nat, align: nat, fd: FuncDecl)
    requires WellSized(m) && alloc.Valid() && w.Valid() && codeBase <= alloc.capacity && align > 0 &&
            alloc.capacity % align == 0
    requires alloc.offset == codeBase + m.opcodeSize * (w.fbStart + w.fbSize)
    requires w.opIndex + 1 <= w.fbSize && w.baseOffset == w.fbStart
    modifies alloc, w, w.arena
    ensures alloc.Valid() && w.fbStart == old(w.fbStart)
    ensures w.baseOffset == old(w.baseOffset) + old(w.opIndex) + 1 <= w.arena.Length
    ensures alloc.offset == codeBase + m.opcodeSize * w.baseOffset
    ensures w.arena[w.fbStart..w.baseOffset] == old(w.Code()) + [ReturnOp(m, fd)]
    ensures w.arena[..w.fbStart] == old(w.arena[..w.fbStart])
  {
    ghost var code := w.Code();
    var resized := Resize(m, w, alloc, codeBase, align, w.opIndex + 1);
    w.arena[w.fbStart + w.fbSize - 1] := ReturnOp(m, fd);
    assert w.Code() == code;
    w.opIndex := w.opIndex + 1;
    resized := Resize(m, w, alloc, codeBase, align, w.opIndex);
    w.baseOffset := w.baseOffset + w.opIndex;
  }

  function BodyBytes(fd: FuncDecl): nat
    requires SizesOk(fd)
  {
    Consumed(fd, |fd.body|)
  }

  /** The last instruction of an accepted body is an `end`, which takes a byte and emits nothing. */
  lemma BodyNotFull(m: Module, fd: FuncDecl)
    requires WellSized(m) && SizesOk(fd) && Accepts(m, fd)
    ensures Addr(m, fd, |fd.body|) + 1 <= Consumed(fd, |fd.body|)
  {
    var n := |fd.body| - 1;
    assert Run(m, fd, n).Some?;
    Scopes.StepToEmpty(m, fd);
    CodeFits(m, fd, 0, n);
  }

  lemma NoneWritten(m: Module)
    requires WellSized(m)
    ensures AcceptsFirst(m, 0) && Base(m, 0) == 0 && ModuleCode(m, 0) == [] && MaximumStack(m, 0) == 0
  {
  }

  lemma NextWritten(m: Module, k: nat)
    requires WellSized(m) && k < |m.funcs| && AcceptsFirst(m, k) && Accepts(m, m.funcs[k])
    ensures AcceptsFirst(m, k + 1)
    ensures Base(m, k + 1) == Base(m, k) + FuncSize(m, m.funcs[k])
    ensures ModuleCode(m, k + 1) == ModuleCode(m, k) + FuncCode(m, m.funcs[k], Base(m, k))
    ensures MaximumStack(m, k + 1) == Max(MaximumStack(m, k), FuncStack(m, m.funcs[k]))
  {
    hide Accepts, FuncSize, FuncCode, FuncStack;
  }

  /** `write_code_out`: the code of function `k` starts at the sum of the sizes before it, as
      branch targets assume, and no vector ever grows. */
  method WriteCodeOut(m: Module, w: BitcodeWriter, alloc: GrowableAllocator, codeBase: nat, align: nat)
    returns (r: Outcome)
    requires AllSizesOk(m) && Laid(m, w, alloc, codeBase, align) && w.baseOffset == 0
    modifies alloc, w, w.arena
    ensures r.Written? ==>
              && AcceptsFirst(m, |m.funcs|)
              && w.baseOffset == Base(m, |m.funcs|) <= w.arena.Length
              && w.arena[..w.baseOffset] == ModuleCode(m, |m.funcs|)
              && |r.starts| == |m.funcs|
              && (forall k :: 0 <= k < |m.funcs| ==> r.starts[k] == Base(m, k))
              && r.maximumStack == MaximumStack(m, |m.funcs|)
    ensures r.Rejected? ==> AcceptsFirst(m, r.func) && r.func < |m.funcs| && !Accepts(m, m.funcs[r.func])
    ensures r.OutOfMemory? ==>
              && AcceptsFirst(m, r.func) && r.func < |m.funcs|
              && BodyBytes(m.funcs[r.func]) > RoomLeft(m, alloc.capacity, codeBase, Base(m, r.func))
  {
    hide Accepts, AcceptsFirst, ModuleCode, Base, MaximumStack, FuncSize, FuncCode, Consumed, FuncStack;
    NoneWritten(m);
    assert w.arena[..w.baseOffset] == [];
    var k, maximum := 0, 0;
    var starts: seq<nat> := [];
    while k < |m.funcs|
      invariant 0 <= k <= |m.funcs| && AcceptsFirst(m, k)
      invariant Laid(m, w, alloc, codeBase, align) && w.baseOffset == Base(m, k) <= w.arena.Length
      invariant w.arena[..w.baseOffset] == ModuleCode(m, k)
      invariant |starts| == k && forall j :: 0 <= j < k ==> starts[j] == Base(m, j)
      invariant maximum == MaximumStack(m, k)
    {
      var memory, accepted, stack := WriteFunction(m, w, alloc, codeBase, align, m.funcs[k]);
      if !memory {
        return OutOfMemory(k);
      }
      if !accepted {
        return Rejected(k);
      }
      NextWritten(m, k);
      starts := starts + [w.fbStart];
      maximum := Max(maximum, stack);
      k := k + 1;
    }
    return Written(starts, maximum);
  }
}

/** Bulk copies and fills as instructions: the steps an instruction takes until it is done, in the
    structured semantics and in the interpreter. */
module BulkSteps {
  import opened Wasm
  import opened Bytecode
  import opened Source
  import opened Machine
  import opened BulkOps

  /** `n` evaluations of one instruction, each going on with the operands the last one left. */
  function EvalRun(op: PlainOp, args: seq<Value>, st: Store, n: nat): EvalResult
    requires |args| == Arity(op)
    decreases n
  {
    if n == 0 then Repeated(args, st)
    else
      match Eval(op, args, st)
      case Repeated(args', st') => EvalRun(op, args', st', n - 1)
      case r => r
  }

  /** Where the structured semantics is after an instruction over the operands `vals`. */
  function SourceAfter(s: Config, vals: seq<Value>, tl: Instrs, r: EvalResult): Config
    requires s.Running? && s.cur.labels != []
  {
    match r
    case Evaluated(results, store) => Continue(s.(store := store), vals + results, tl)
    case Repeated(args, store) => Continue(s.(store := store), vals + args, s.cur.code)
    case Trapped => Aborted
    case Stuck => GoesWrong
  }

  /** And where the interpreter is. */
  function MachineAfter(s: MState, os: seq<Value>, r: EvalResult): Result {
    match r
    case Evaluated(results, store) => Next(s.(pc := IncPc(s.pc), os := os + results, store := store))
    case Repeated(args, store) => Next(s.(os := os + args, store := store))
    case Trapped => MTrap
    case Stuck => MStuck
  }

  predicate SourceAt(s: Config, op: PlainOp, vals: seq<Value>, args: seq<Value>, tl: Instrs) {
    && s.Running? && s.cur.labels != []
    && s.cur.code == ICons(Basic(Plain(op)), tl)
    && TopVals(s.cur) == vals + args && |args| == Arity(op)
  }

  predicate MachineAt(image: Image, s: MState, op: PlainOp, os: seq<Value>, args: seq<Value>) {
    && s.pc.At? && s.pc.n < |image.code| && image.code[s.pc.n] == OPlain(op)
    && s.os == os + args && |args| == Arity(op)
  }

  lemma {:induction false} SourceRepeats(
      p: Program, s: Config, op: PlainOp, vals: seq<Value>, args: seq<Value>, tl: Instrs, n: nat)
    requires SourceAt(s, op, vals, args, tl)
    requires n > 0 ==> EvalRun(op, args, s.store, n - 1).Repeated?
    ensures SourceRun(p, s, n) == SourceAfter(s, vals, tl, EvalRun(op, args, s.store, n))
    decreases n
  {
    hide Eval;
    var all := vals + args;
    assert all[..|all| - |args|] == vals && all[|all| - |args|..] == args;
    if n > 0 {
      var s' := SourceStep(p, s);
      var r := Eval(op, args, s.store);
      assert s' == SourceAfter(s, vals, tl, r);
      if n > 1 {
        SourceRepeats(p, s', op, vals, r.args, tl, n - 1);
      }
    }
  }

  lemma {:induction false} MachineRepeats(
      p: Program, image: Image, s: MState, op: PlainOp, os: seq<Value>, args: seq<Value>, n: nat)
    requires MachineAt(image, s, op, os, args)
    requires n > 0 ==> EvalRun(op, args, s.store, n - 1).Repeated?
    ensures MRun(p, image, s, n) == MachineAfter(s, os, EvalRun(op, args, s.store, n))
    decreases n
  {
    hide Eval;
    assert s.os[..|s.os| - |args|] == os && s.os[|s.os| - |args|..] == args;
    if n > 0 {
      var r := Eval(op, args, s.store);
      assert MStep(p, image, s) == MachineAfter(s, os, r);
      if n > 1 {
        MachineRepeats(p, image, MStep(p, image, s).s, op, os, r.args, n - 1);
      }
    }
  }

  function BulkArgs(dst: u32, src: u32, size: u32): seq<Value> {
    [VI32(dst), VI32(src), VI32(size)]
  }

  lemma {:induction false} EvalCopies(st: Store, b: Bulk<u8>, n: nat)
    ensures EvalRun(MemoryCopy, BulkArgs(b.dst, b.src, b.size), st.(memory := b.elems), n) ==
            BulkResultOf(CopyRun(b, n), st, m => st.(memory := m))
    decreases n
  {
    hide CopyStep;
    if n > 0 && CopyStep(b).Again? {
      EvalCopies(st, CopyStep(b).b, n - 1);
    }
  }

  lemma {:induction false} EvalFills(st: Store, b: Bulk<u8>, n: nat)
    ensures EvalRun(MemoryFill, BulkArgs(b.dst, b.src, b.size), st.(memory := b.elems), n) ==
            BulkResultOf(FillRun(b, LowByte, n), st, m => st.(memory := m))
    decreases n
  {
    hide FillStep;
    if n > 0 && FillStep(b, LowByte).Again? {
      EvalFills(st, FillStep(b, LowByte).b, n - 1);
    }
  }

  lemma {:induction false} EvalTableCopies(st: Store, b: Bulk<nat>, n: nat)
    ensures EvalRun(TableCopy, BulkArgs(b.dst, b.src, b.size), st.(table := b.elems), n) ==
            BulkResultOf(CopyRun(b, n), st, t => st.(table := t))
    decreases n
  {
    hide CopyStep;
    if n > 0 && CopyStep(b).Again? {
      EvalTableCopies(st, CopyStep(b).b, n - 1);
    }
  }

  /** The store a whole bulk instruction leaves, if its ranges fit. */
  function BulkMeans(op: PlainOp, st: Store, dst: u32, src: u32, size: u32): Option<Store> {
    match op
    case MemoryCopy =>
      if InBounds(st.memory, src, size) && InBounds(st.memory, dst, size)
      then Some(st.(memory := Memmove(st.memory, dst, src, size))) else None
    case MemoryFill =>
      if InBounds(st.memory, dst, size)
      then Some(st.(memory := Filled(st.memory, dst, size, LowByte(src)))) else None
    case TableCopy =>
      if InBounds(st.table, src, size) && InBounds(st.table, dst, size)
      then Some(st.(table := Memmove(st.table, dst, src, size))) else None
    case _ => None
  }

  predicate IsBulk(op: PlainOp) {
    op.MemoryCopy? || op.MemoryFill? || op.TableCopy?
  }

  /** Byte for byte what that store is: the range at `dst` holds what the range at `src` held, or the low
      byte of the operand, and all else is as it was. A range past the end is refused, also one of no
      elements. */
  lemma BulkWrites(op: PlainOp, st: Store, dst: u32, src: u32, size: u32) returns (q: nat, low: u8)
    requires IsBulk(op)
    ensures src == 256 * q + low
    ensures
      var r, mem, table := BulkMeans(op, st, dst, src, size), st.memory, st.table;
      match op
      case MemoryCopy =>
        if src + size > |mem| || dst + size > |mem| then r == None
        else
          && r.Some? && r.value == st.(memory := r.value.memory) && |r.value.memory| == |mem|
          && forall a :: 0 <= a < |mem| ==>
               r.value.memory[a] == if dst <= a < dst + size then mem[src + (a - dst)] else mem[a]
      case MemoryFill =>
        if dst + size > |mem| then r == None
        else
          && r.Some? && r.value == st.(memory := r.value.memory) && |r.value.memory| == |mem|
          && forall a :: 0 <= a < |mem| ==> r.value.memory[a] == if dst <= a < dst + size then low else mem[a]
      case TableCopy =>
        if src + size > |table| || dst + size > |table| then r == None
        else
          && r.Some? && r.value == st.(table := r.value.table) && |r.value.table| == |table|
          && forall a :: 0 <= a < |table| ==>
               r.value.table[a] == if dst <= a < dst + size then table[src + (a - dst)] else table[a]
      case _ => true
  {
    q, low := src / 0x100, src % 0x100;
  }

  /** A 32-bit number addresses all of the memory and the table. */
  predicate Addressable(st: Store) {
    |st.memory| <= U32_LIMIT && |st.table| <= U32_LIMIT
  }

  /** A bulk instruction is done after one evaluation for each element and a last one, or traps at
      the first. */
  lemma BulkEvaluates(op: PlainOp, st: Store, dst: u32, src: u32, size: u32)
    requires IsBulk(op) && Addressable(st)
    ensures
      var args := BulkArgs(dst, src, size);
      match BulkMeans(op, st, dst, src, size)
      case None => Eval(op, args, st).Trapped?
      case Some(st') =>
        EvalRun(op, args, st, size).Repeated? && EvalRun(op, args, st, size + 1) == Evaluated([], st')
  {
    hide Memmove, Filled, CopyRun, FillRun, EvalRun;
    match op
    case MemoryCopy =>
      var b := Bulk(st.memory, dst, src, size);
      assert st.(memory := b.elems) == st;
      CopyIsMemmove(b);
      if !CopyStep(b).Fault? {
        CopyNeverFaultsLater(b, size);
      }
      EvalCopies(st, b, size);
      EvalCopies(st, b, size + 1);
    case MemoryFill =>
      var b := Bulk(st.memory, dst, src, size);
      assert st.(memory := b.elems) == st;
      FillIsRangeFill(b, LowByte);
      if !FillStep(b, LowByte).Fault? {
        FillNeverFaultsLater(b, LowByte, size);
      }
      EvalFills(st, b, size);
      EvalFills(st, b, size + 1);
    case TableCopy =>
      var b := Bulk(st.table, dst, src, size);
      assert st.(table := b.elems) == st;
      CopyIsMemmove(b);
      if !CopyStep(b).Fault? {
        CopyNeverFaultsLater(b, size);
      }
      EvalTableCopies(st, b, size);
      EvalTableCopies(st, b, size + 1);
  }

  /** In the structured semantics: the whole range moves and control goes on behind the
      instruction, or the run aborts with nothing written. */
  lemma SourceBulk(
      p: Program, s: Config, op: PlainOp, vals: seq<Value>, dst: u32, src: u32, size: u32, tl: Instrs)
    requires IsBulk(op) && SourceAt(s, op, vals, BulkArgs(dst, src, size), tl)
    requires Addressable(s.store)
    ensures
      match BulkMeans(op, s.store, dst, src, size)
      case None => SourceStep(p, s) == Aborted
      case Some(st) => SourceRun(p, s, size + 1) == Continue(s.(store := st), vals, tl)
  {
    hide BulkMeans, SourceStep, Eval, SourceRun;
    var args := BulkArgs(dst, src, size);
    BulkEvaluates(op, s.store, dst, src, size);
    assert vals + [] == vals;
    if BulkMeans(op, s.store, dst, src, size).Some? {
      SourceRepeats(p, s, op, vals, args, tl, size + 1);
    } else {
      SourceRepeats(p, s, op, vals, args, tl, 1) by { assert EvalRun(op, args, s.store, 0).Repeated?; }
      assert SourceRun(p, s, 1) == SourceStep(p, s) by { OneStep(p, s); }
    }
  }

  lemma OneStep(p: Program, s: Config)
    ensures SourceRun(p, s, 1) == SourceStep(p, s)
  {
    assert SourceRun(p, s, 1) == SourceRun(p, SourceStep(p, s), 0);
  }

  /** In the interpreter: as many dispatches of one opcode, and the program counter moves with the
      last of them. */
  lemma MachineBulk(
      p: Program, image: Image, s: MState, op: PlainOp, os: seq<Value>, dst: u32, src: u32, size: u32)
    requires IsBulk(op) && MachineAt(image, s, op, os, BulkArgs(dst, src, size))
    requires Addressable(s.store)
    ensures
      match BulkMeans(op, s.store, dst, src, size)
      case None => MStep(p, image, s) == MTrap
      case Some(st) => MRun(p, image, s, size + 1) == Next(s.(pc := IncPc(s.pc), os := os, store := st))
  {
    hide BulkMeans, MStep, Eval, MRun;
    var args := BulkArgs(dst, src, size);
    BulkEvaluates(op, s.store, dst, src, size);
    assert os + [] == os;
    if BulkMeans(op, s.store, dst, src, size).Some? {
      MachineRepeats(p, image, s, op, os, args, size + 1);
    } else {
      TrapsAtOnce(p, image, s, op, os, args);
    }
  }

  lemma TrapsAtOnce(p: Program, image: Image, s: MState, op: PlainOp, os: seq<Value>, args: seq<Value>)
    requires MachineAt(image, s, op, os, args) && Eval(op, args, s.store).Trapped?
    ensures MStep(p, image, s) == MTrap
  {
    hide Eval;
    assert s.os[|s.os| - |args|..] == args;
  }
}

/** Values, value types, operations and modules shared by the compiler, the source
    semantics and the machine. */
module Wasm {

  datatype Option<+T> = None | Some(value: T) {
    predicate IsFailure() {
      None?
    }

    function PropagateFailure<U>(): Option<U>
      requires None?
    {
      None
    }

    function Extract(): T
      requires Some?
    {
      value
    }
  }

  const U32_LIMIT: nat := 0x1_0000_0000
  const U64_LIMIT: nat := 0x1_0000_0000_0000_0000

  type u8 = x: nat | x < 0x100
  type u32 = x: nat | x < 0x1_0000_0000
  type u64 = x: nat | x < 0x1_0000_0000_0000_0000

  datatype ValType = I32 | I64 | F32 | F64

  /** An element of the operand stack: a tagged union, as in `operand_stack_elem`. */
  datatype Value = VI32(i32: u32) | VI64(i64: u64) | VF32(f32: u32) | VF64(f64: u64)

  function TypeOf(v: Value): ValType {
    match v
    case VI32(_) => I32
    case VI64(_) => I64
    case VF32(_) => F32
    case VF64(_) => F64
  }

  /** The number 0 of type `t`. */
  predicate IsZero(t: ValType, v: Value) {
    (t.I32? ==> v == VI32(0)) && (t.I64? ==> v == VI64(0)) && (t.F32? ==> v == VF32(0)) && (t.F64? ==> v == VF64(0))
  }

  function Zero(t: ValType): (v: Value)
    ensures IsZero(t, v)
  {
    match t
    case I32 => VI32(0)
    case I64 => VI64(0)
    case F32 => VF32(0)
    case F64 => VF64(0)
  }

  /** The value of type `t` with the given bits, as a host function returns it. */
  function FromBits(t: ValType, bits: u64): (v: Value)
    ensures TypeOf(v) == t
  {
    match t
    case I32 => VI32(bits % U32_LIMIT)
    case I64 => VI64(bits)
    case F32 => VF32(bits % U32_LIMIT)
    case F64 => VF64(bits)
  }

  predicate HasTypes(vs: seq<Value>, ts: seq<ValType>) {
    |vs| == |ts| && forall i :: 0 <= i < |vs| ==> TypeOf(vs[i]) == ts[i]
  }

  /** At most one result, as every function and block type has. */
  function ResultTypes(t: Option<ValType>): (ts: seq<ValType>) {
    if t.Some? then [t.value] else []
  }

  datatype FuncType = FuncType(params: seq<ValType>, result: Option<ValType>)

  datatype GlobalType = GlobalType(content: ValType, mutable: bool)

  datatype LocalEntry = LocalEntry(count: nat, valType: ValType)

  /** Instructions that do not transfer control: they pop operands, may read or write the
      store, and push at most one result. The last three work in steps. */
  datatype PlainOp =
    | Nop
    | Const(v: Value)
    | I32Eqz
    | I32LtU
    | I32Add
    | I32RemU
    | I32WrapI64
    | I64ExtendUI32
    | GlobalGet(global: nat)
    | GlobalSet(global: nat)
    | I32Load8U(offset: u32)
    | I32Store8(offset: u32)
    | MemoryCopy
    | MemoryFill
    | TableCopy

  /** The mutable state outside the stacks: global variables, linear memory and the table, whose
      entries are only moved around. */
  datatype Store = Store(globals: seq<Value>, memory: seq<u8>, table: seq<nat>)

  function Arity(op: PlainOp): nat {
    match op
    case Nop => 0
    case Const(_) => 0
    case I32Eqz => 1
    case I32LtU => 2
    case I32Add => 2
    case I32RemU => 2
    case I32WrapI64 => 1
    case I64ExtendUI32 => 1
    case GlobalGet(_) => 0
    case GlobalSet(_) => 1
    case I32Load8U(_) => 1
    case I32Store8(_) => 2
    case MemoryCopy => 3
    case MemoryFill => 3
    case TableCopy => 3
  }

  datatype Signature = Signature(ins: seq<ValType>, outs: seq<ValType>)

  /** The operand types an instruction is checked against; None is a validation error. */
  function PlainSig(globals: seq<GlobalType>, op: PlainOp): (s: Option<Signature>)
    ensures s.Some? ==> |s.value.ins| == Arity(op) && |s.value.outs| <= 1
  {
    match op
    case Nop => Some(Signature([], []))
    case Const(v) => Some(Signature([], [TypeOf(v)]))
    case I32Eqz => Some(Signature([I32], [I32]))
    case I32LtU => Some(Signature([I32, I32], [I32]))
    case I32Add => Some(Signature([I32, I32], [I32]))
    case I32RemU => Some(Signature([I32, I32], [I32]))
    case I32WrapI64 => Some(Signature([I64], [I32]))
    case I64ExtendUI32 => Some(Signature([I32], [I64]))
    case GlobalGet(g) =>
      if g < |globals| then Some(Signature([], [globals[g].content])) else None
    case GlobalSet(g) =>
      if g < |globals| && globals[g].mutable then Some(Signature([globals[g].content], [])) else None
    case I32Load8U(_) => Some(Signature([I32], [I32]))
    case I32Store8(_) => Some(Signature([I32, I32], []))
    case MemoryCopy => Some(Signature([I32, I32, I32], []))
    case MemoryFill => Some(Signature([I32, I32, I32], []))
    case TableCopy => Some(Signature([I32, I32, I32], []))
  }

  /** Memory or table contents and the three operands, as one dispatch finds them. */
  datatype Bulk<T> = Bulk(elems: seq<T>, dst: u32, src: u32, size: u32)

  /** `Again` leaves the program counter where it is. */
  datatype BulkResult<T> = Again(b: Bulk<T>) | Done(elems: seq<T>) | Fault

  predicate InBounds<T>(elems: seq<T>, ptr: nat, len: nat) {
    ptr + len <= |elems|
  }

  /** Addresses are 32-bit numbers. */
  function Wrap(x: nat): u32 {
    x % U32_LIMIT
  }

  /** One element, from the low end when the target lies below the source, and else from the high end. */
  function CopyStep<T>(b: Bulk<T>): BulkResult<T> {
    if !InBounds(b.elems, b.src, b.size) || !InBounds(b.elems, b.dst, b.size) then Fault
    else if b.size == 0 then Done(b.elems)
    else if b.dst <= b.src then
      Again(Bulk(b.elems[b.dst := b.elems[b.src]], Wrap(b.dst + 1), Wrap(b.src + 1), b.size - 1))
    else
      Again(b.(elems := b.elems[b.dst + b.size - 1 := b.elems[b.src + b.size - 1]], size := b.size - 1))
  }

  /** The operand `src` is the value to fill with; `low` takes its low bits. */
  function FillStep<T>(b: Bulk<T>, low: u32 -> T): BulkResult<T> {
    if !InBounds(b.elems, b.dst, b.size) then Fault
    else if b.size == 0 then Done(b.elems)
    else Again(b.(elems := b.elems[b.dst := low(b.src)], dst := Wrap(b.dst + 1), size := b.size - 1))
  }

  /** `Stuck` is an operand of the wrong type: the source semantics has no rule, and the
      interpreter would read the wrong alternative of its tagged union. `Repeated` is an instruction
      that is not done yet and runs again with other operands. */
  datatype EvalResult =
    | Evaluated(results: seq<Value>, store: Store)
    | Repeated(args: seq<Value>, store: Store)
    | Trapped
    | Stuck

  function LowByte(x: u32): u8 {
    x % 0x100
  }

  /** A bulk step on part of the store, which `put` writes back. */
  function BulkResultOf<T>(r: BulkResult<T>, st: Store, put: seq<T> -> Store): EvalResult {
    match r
    case Again(b) => Repeated([VI32(b.dst), VI32(b.src), VI32(b.size)], put(b.elems))
    case Done(elems) => Evaluated([], put(elems))
    case Fault => Trapped
  }

  /** The operands of a bulk instruction over the given elements. */
  function BulkOf<T>(elems: seq<T>, args: seq<Value>): Option<Bulk<T>>
    requires |args| == 3
  {
    if args[0].VI32? && args[1].VI32? && args[2].VI32?
    then Some(Bulk(elems, args[0].i32, args[1].i32, args[2].i32)) else None
  }

  function B2I(b: bool): Value {
    if b then VI32(1) else VI32(0)
  }

  function Eval(op: PlainOp, args: seq<Value>, st: Store): (r: EvalResult)
    requires |args| == Arity(op)
    ensures r.Repeated? ==> |r.args| == Arity(op) == 3
  {
    match op
    case Nop => Evaluated([], st)
    case Const(v) => Evaluated([v], st)
    case I32Eqz => if args[0].VI32? then Evaluated([B2I(args[0].i32 == 0)], st) else Stuck
    case I32LtU =>
      if args[0].VI32? && args[1].VI32? then Evaluated([B2I(args[0].i32 < args[1].i32)], st) else Stuck
    case I32Add =>
      if args[0].VI32? && args[1].VI32?
      then Evaluated([VI32((args[0].i32 + args[1].i32) % U32_LIMIT)], st) else Stuck
    case I32RemU =>
      if !(args[0].VI32? && args[1].VI32?) then Stuck
      else if args[1].i32 == 0 then Trapped
      else Evaluated([VI32(args[0].i32 % args[1].i32)], st)
    case I32WrapI64 => if args[0].VI64? then Evaluated([VI32(args[0].i64 % U32_LIMIT)], st) else Stuck
    case I64ExtendUI32 => if args[0].VI32? then Evaluated([VI64(args[0].i32)], st) else Stuck
    case GlobalGet(g) => if g < |st.globals| then Evaluated([st.globals[g]], st) else Stuck
    case GlobalSet(g) =>
      if g < |st.globals| && TypeOf(args[0]) == TypeOf(st.globals[g])
      then Evaluated([], st.(globals := st.globals[g := args[0]])) else Stuck
    case I32Load8U(offset) =>
      if !args[0].VI32? then Stuck
      else if args[0].i32 + offset < |st.memory| then Evaluated([VI32(st.memory[args[0].i32 + offset])], st)
      else Trapped
    case I32Store8(offset) =>
      if !(args[0].VI32? && args[1].VI32?) then Stuck
      else if args[0].i32 + offset < |st.memory|
      then Evaluated([], st.(memory := st.memory[args[0].i32 + offset := args[1].i32 % 0x100]))
      else Trapped
    case MemoryCopy =>
      var b := BulkOf(st.memory, args);
      if b.None? then Stuck else BulkResultOf(CopyStep(b.value), st, m => st.(memory := m))
    case MemoryFill =>
      var b := BulkOf(st.memory, args);
      if b.None? then Stuck else BulkResultOf(FillStep(b.value, LowByte), st, m => st.(memory := m))
    case TableCopy =>
      var b := BulkOf(st.table, args);
      if b.None? then Stuck else BulkResultOf(CopyStep(b.value), st, t => st.(table := t))
  }

  predicate StoreOk(globals: seq<GlobalType>, st: Store) {
    |st.globals| == |globals| &&
    forall g :: 0 <= g < |globals| ==> TypeOf(st.globals[g]) == globals[g].content
  }

  /** Well typed operands never get stuck, give results of the declared types, and keep the
      types of the globals. */
  lemma EvalTyped(globals: seq<GlobalType>, op: PlainOp, args: seq<Value>, st: Store)
    requires PlainSig(globals, op).Some?
    requires HasTypes(args, PlainSig(globals, op).value.ins)
    requires StoreOk(globals, st)
    ensures !Eval(op, args, st).Stuck?
    ensures Eval(op, args, st).Evaluated? ==>
              HasTypes(Eval(op, args, st).results, PlainSig(globals, op).value.outs) &&
              StoreOk(globals, Eval(op, args, st).store)
    ensures Eval(op, args, st).Repeated? ==>
              HasTypes(Eval(op, args, st).args, PlainSig(globals, op).value.ins) &&
              StoreOk(globals, Eval(op, args, st).store)
  {
    var ins := PlainSig(globals, op).value.ins;
    assert |ins| > 2 ==> TypeOf(args[2]) == ins[2];
    assert |ins| > 0 ==> TypeOf(args[0]) == ins[0];
    assert |ins| > 1 ==> TypeOf(args[1]) == ins[1];
  }

  datatype FuncDecl = FuncDecl(
    ft: FuncType, locals: seq<LocalEntry>, body: seq<Token>, sizes: seq<nat>, stackUsage: u32)

  /** The parts of a module the compiler reads. `limitBytes` is `stack_limit_is_bytes`;
      `opcodeSize` is the size in bytes of one bytecode element. */
  datatype Module = Module(
    imports: seq<FuncType>, funcs: seq<FuncDecl>, globals: seq<GlobalType>,
    limitBytes: bool, opcodeSize: nat)

  /** A bytecode element is at least as large as one entry of a branch table. */
  predicate WellSized(m: Module) {
    m.opcodeSize >= 8
  }

  function Repeat(t: ValType, n: nat): (ts: seq<ValType>)
    ensures |ts| == n && forall i :: 0 <= i < n ==> ts[i] == t
  {
    seq(n, i => t)
  }

  /** The declared locals of a function, one type each. */
  function Expand(entries: seq<LocalEntry>): seq<ValType> {
    if entries == [] then []
      else Expand(entries[..|entries| - 1]) + Repeat(entries[|entries| - 1].valType, entries[|entries| - 1].count)
  }

  /** Parameters, then declared locals: the types local indices refer to. */
  function LocalTypes(fd: FuncDecl): seq<ValType> {
    fd.ft.params + Expand(fd.locals)
  }

  /** Function indices count the imports first. */
  function TypeOfFunc(m: Module, f: nat): Option<FuncType> {
    if f < |m.imports| then Some(m.imports[f])
    else if f - |m.imports| < |m.funcs| then Some(m.funcs[f - |m.imports|].ft)
    else None
  }

  /** One decoded instruction of a function body. */
  datatype Token =
    | Plain(op: PlainOp)
    | Unreachable
    | Drop
    | Select
    | LocalGet(local: nat)
    | LocalSet(local: nat)
    | LocalTee(local: nat)
    | Block(bt: Option<ValType>)
    | Loop(bt: Option<ValType>)
    | If(bt: Option<ValType>)
    | Else
    | End
    | Br(target: nat)
    | BrIf(target: nat)
    | BrTable(targets: seq<nat>, default: nat)
    | Return
    | Call(func: nat)

  /** The least number of source bytes an instruction takes. */
  function MinBytes(t: Token): nat {
    match t
    case Plain(Nop) => 1
    case Plain(Const(_)) => 2
    case Plain(GlobalGet(_)) => 2
    case Plain(GlobalSet(_)) => 2
    case Plain(I32Load8U(_)) => 3
    case Plain(I32Store8(_)) => 3
    case Plain(MemoryCopy) => 4
    case Plain(MemoryFill) => 3
    case Plain(TableCopy) => 4
    case Plain(_) => 1
    case Unreachable => 1
    case Drop => 1
    case Select => 1
    case LocalGet(_) => 2
    case LocalSet(_) => 2
    case LocalTee(_) => 2
    case Block(_) => 2
    case Loop(_) => 2
    case If(_) => 2
    case Else => 1
    case End => 1
    case Br(_) => 2
    case BrIf(_) => 2
    case BrTable(targets, _) => |targets| + 3
    case Return => 1
    case Call(_) => 2
  }

  /** The source bytes of the first `n` instructions; LEB128 operands may take more than their
      least number of bytes. */
  function Consumed(fd: FuncDecl, n: nat): nat
    requires n <= |fd.body| == |fd.sizes|
  {
    if n == 0 then 0 else Consumed(fd, n - 1) + fd.sizes[n - 1]
  }

  /** And a function type has no more parameters than a 32-bit number counts. */
  predicate SizesOk(fd: FuncDecl) {
    |fd.ft.params| < U32_LIMIT &&
    |fd.sizes| == |fd.body| && forall i :: 0 <= i < |fd.body| ==> fd.sizes[i] >= MinBytes(fd.body[i])
  }
}

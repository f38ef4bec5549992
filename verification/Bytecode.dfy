/** The bytecode an accepted body compiles to, with every branch target in place: what the
    single pass with its relocation lists has to arrive at. */
module Bytecode {
  import opened Wasm
  import opened Validator
  import opened Scopes

  const ENTRY_SIZE: nat := 8

  datatype Entry = Entry(stackPop: nat, pc: nat)

  /** `OTableData` is a slot holding raw branch table bytes, which are never dispatched. */
  datatype Opcode =
    | OPlain(op: PlainOp)
    | OUnreachable
    | ODrop
    | OSelect
    | OLocalGet(local: nat)
    | OLocalSet(local: nat)
    | OLocalTee(local: nat)
    | OCall(func: nat)
    | OIf(pc: nat)
    | OElse(pc: nat)
    | OBr(data: nat, pc: nat)
    | OBrIf(data: nat, pc: nat)
    | OBrTable(size: nat, entries: seq<Entry>)
    | OTableData
    | OReturn(numLocals: nat, returnCount: nat, stackSize: nat)
    | OError

  /** The slots after a `br_table` opcode that its entries, the default included, are laid over. */
  function TableSlots(m: Module, size: nat): nat
    requires WellSized(m)
  {
    size * ENTRY_SIZE / m.opcodeSize + 2
  }

  function Width(m: Module, t: Token): nat
    requires WellSized(m)
  {
    match t
    case Block(_) => 0
    case Loop(_) => 0
    case End => 0
    case BrTable(targets, _) => 1 + TableSlots(m, |targets|)
    case _ => 1
  }

  /** The bytecode position of instruction `n` within its function. */
  function Addr(m: Module, fd: FuncDecl, n: nat): nat
    requires WellSized(m) && n <= |fd.body|
  {
    if n == 0 then 0 else Addr(m, fd, n - 1) + Width(m, fd.body[n - 1])
  }

  lemma {:induction false} AddrMonotone(m: Module, fd: FuncDecl, i: nat, n: nat)
    requires WellSized(m) && i <= n <= |fd.body|
    ensures Addr(m, fd, i) <= Addr(m, fd, n)
    ensures i < n ==> Addr(m, fd, i) + Width(m, fd.body[i]) <= Addr(m, fd, n)
    decreases n - i
  {
    if i < n {
      AddrMonotone(m, fd, i + 1, n);
      assert Addr(m, fd, i + 1) == Addr(m, fd, i) + Width(m, fd.body[i]);
    }
  }

  /** The branch targets an instruction leaves to be filled in. */
  function NumSlots(t: Token): nat {
    match t
    case If(_) => 1
    case Else => 1
    case Br(_) => 1
    case BrIf(_) => 1
    case Return => 1
    case BrTable(targets, _) => |targets| + 1
    case _ => 0
  }

  /** There is a state before instruction `i`, with a scope open. */
  predicate Inside(m: Module, fd: FuncDecl, i: nat) {
    i < |fd.body| && Run(m, fd, i).Some? && Run(m, fd, i).value.ctrls != []
  }

  /** The scope that branch target `j` of instruction `i` belongs to, by its opener. */
  function Owner(m: Module, fd: FuncDecl, i: nat, j: nat): (o: int)
    requires Inside(m, fd, i) && j < NumSlots(fd.body[i])
    ensures -1 <= o <= i
    ensures fd.body[i].If? ==> o == i
  {
    ScopesAt(m, fd, i);
    var s := Run(m, fd, i).value;
    var t := fd.body[i];
    if t.If? then i
    else if t.Else? then Last(s).opener
    else
      var l := Targets(s, t)[j];
      if l < |s.ctrls| then s.ctrls[|s.ctrls| - 1 - l].opener else -1
  }

  lemma ScopesAt(m: Module, fd: FuncDecl, n: nat)
    requires n <= |fd.body| && Run(m, fd, n).Some?
    ensures forall k :: 0 <= k < |Run(m, fd, n).value.ctrls| ==> ScopeOk(m, fd, n, k)
    ensures forall k :: 0 <= k < |Run(m, fd, n).value.ctrls| ==> -1 <= Run(m, fd, n).value.ctrls[k].opener < n
  {
    hide Step;
    forall k {:trigger Run(m, fd, n).value.ctrls[k]} | 0 <= k < |Run(m, fd, n).value.ctrls|
      ensures ScopeOk(m, fd, n, k)
    {
      ScopesOk(m, fd, n, k);
    }
  }

  predicate IsLoop(fd: FuncDecl, o: int) {
    0 <= o < |fd.body| && fd.body[o].Loop?
  }

  /** The instruction whose processing makes the target known. */
  function ResolvedAt(m: Module, fd: FuncDecl, i: nat, j: nat): nat
    requires Inside(m, fd, i) && j < NumSlots(fd.body[i])
  {
    if fd.body[i].If? then Close(m, fd, i) else EndOf(m, fd, Owner(m, fd, i, j))
  }

  predicate Resolved(m: Module, fd: FuncDecl, i: nat, j: nat, n: nat)
    requires Inside(m, fd, i) && j < NumSlots(fd.body[i])
  {
    IsLoop(fd, Owner(m, fd, i, j)) || ResolvedAt(m, fd, i, j) < n
  }

  /** The instruction control continues at: the start of a loop, the `end` of any other scope,
      and for an untaken `if` the instruction after its `else` if it has one. */
  function Dest(m: Module, fd: FuncDecl, i: nat, j: nat): (d: nat)
    requires Inside(m, fd, i) && j < NumSlots(fd.body[i])
    ensures d <= |fd.body|
  {
    var o := Owner(m, fd, i, j);
    if fd.body[i].If? then
      var c := Close(m, fd, i);
      if c < |fd.body| && fd.body[c].Else? then c + 1 else c
    else if IsLoop(fd, o) then o
    else EndOf(m, fd, o)
  }

  function TargetPc(m: Module, fd: FuncDecl, base: nat, i: nat, j: nat): nat
    requires WellSized(m) && Inside(m, fd, i) && j < NumSlots(fd.body[i])
  {
    base + Addr(m, fd, Dest(m, fd, i, j))
  }

  /** The number of operands to discard, with the high bit set to keep the topmost. */
  function EncodeDepth(depth: nat, labelType: Option<ValType>): nat {
    if labelType.Some? then depth + RESULT_FLAG else depth
  }

  /** The encoded operand count of label `j` of a branch, 0 when the branch is rejected. */
  function JumpInfo(s: State, t: Token, j: nat): nat
    requires IsBranch(t) && s.ctrls != [] && |s.ctrls| == |s.ops.segs| && j < |Targets(s, t)|
  {
    var s0 := BeforeBranch(s, t);
    if s0.None? then 0
    else
      var sj := CheckTargets(s0.value, Targets(s, t), j);
      var l := Targets(s, t)[j];
      if sj.None? || l >= |s.ctrls| || DepthChange(sj.value, l) < 0 then 0
      else EncodeDepth(DepthChange(sj.value, l), LabelType(s.ctrls[|s.ctrls| - 1 - l]))
  }

  /** What instruction `i` is translated to. */
  function Emit(m: Module, fd: FuncDecl, base: nat, i: nat): (ops: seq<Opcode>)
    requires WellSized(m) && Inside(m, fd, i)
    ensures |ops| == Width(m, fd.body[i])
  {
    var s := Run(m, fd, i).value;
    var t := fd.body[i];
    match t
    case Plain(op) => [OPlain(op)]
    case Unreachable => [OUnreachable]
    case Drop => [ODrop]
    case Select => [OSelect]
    case LocalGet(x) => [OLocalGet(x)]
    case LocalSet(x) => [OLocalSet(x)]
    case LocalTee(x) => [OLocalTee(x)]
    case Call(f) => [OCall(f)]
    case If(_) => [OIf(TargetPc(m, fd, base, i, 0))]
    case Else => [OElse(TargetPc(m, fd, base, i, 0))]
    case Br(_) => [OBr(JumpInfo(s, t, 0), TargetPc(m, fd, base, i, 0))]
    case Return => [OBr(JumpInfo(s, t, 0), TargetPc(m, fd, base, i, 0))]
    case BrIf(_) => [OBrIf(JumpInfo(s, t, 0), TargetPc(m, fd, base, i, 0))]
    case BrTable(targets, _) =>
      var entries := seq(|targets| + 1, j requires 0 <= j <= |targets| =>
        Entry(JumpInfo(s, t, j), TargetPc(m, fd, base, i, j)));
      [OBrTable(|targets|, entries)]
      + seq(TableSlots(m, |targets|), x => OTableData)
    case _ => []
  }

  /** Instructions that are never reached have error opcodes. */
  function OpcodesOf(m: Module, fd: FuncDecl, base: nat, i: nat): (ops: seq<Opcode>)
    requires WellSized(m) && i < |fd.body|
    ensures |ops| == Width(m, fd.body[i])
  {
    if Inside(m, fd, i) then Emit(m, fd, base, i) else seq(Width(m, fd.body[i]), x => OError)
  }

  /** The code of the first `n` instructions. */
  function Code(m: Module, fd: FuncDecl, base: nat, n: nat): (c: seq<Opcode>)
    requires WellSized(m) && n <= |fd.body|
    ensures |c| == Addr(m, fd, n)
  {
    if n == 0 then [] else Code(m, fd, base, n - 1) + OpcodesOf(m, fd, base, n - 1)
  }

  lemma {:induction false} CodeHolds(m: Module, fd: FuncDecl, base: nat, n: nat, i: nat)
    requires WellSized(m) && i < n <= |fd.body| && Run(m, fd, n).Some?
    ensures Inside(m, fd, i)
    ensures Addr(m, fd, i) + Width(m, fd.body[i]) <= Addr(m, fd, n)
    ensures Code(m, fd, base, n)[Addr(m, fd, i)..Addr(m, fd, i) + Width(m, fd.body[i])] == Emit(m, fd, base, i)
    decreases n
  {
    hide Step, Emit, Width;
    RunPrefix(m, fd, i, n);
    AddrMonotone(m, fd, i, n);
    RunPrefix(m, fd, n - 1, n);
    var c := Code(m, fd, base, n - 1);
    if i < n - 1 {
      CodeHolds(m, fd, base, n - 1, i);
      var a, w := Addr(m, fd, i), Width(m, fd.body[i]);
      assert Code(m, fd, base, n)[a..a + w] == c[a..a + w];
    }
  }

  /** The frame size a call of a function charges: bytes, or one per frame. */
  function StackUsage(m: Module, fd: FuncDecl): nat {
    if m.limitBytes then fd.stackUsage else 1
  }

  function ReturnOp(m: Module, fd: FuncDecl): Opcode {
    OReturn(|LocalTypes(fd)|, if fd.ft.result.Some? then 1 else 0, StackUsage(m, fd))
  }

  function FuncSize(m: Module, fd: FuncDecl): nat
    requires WellSized(m)
  {
    Addr(m, fd, |fd.body|) + 1
  }

  /** The finished code of a function that starts at `base`. */
  function FuncCode(m: Module, fd: FuncDecl, base: nat): (c: seq<Opcode>)
    requires WellSized(m) && Accepts(m, fd)
    ensures |c| == FuncSize(m, fd)
  {
    Code(m, fd, base, |fd.body|) + [ReturnOp(m, fd)]
  }
}

/** The interpreter: one flat bytecode array, one operand stack shared by all frames, a stack of
    activation frames, and a budget for active frames. Nothing is checked again: an operand of
    the wrong type or a missing one is `MStuck`. */
module Machine {
  import opened Wasm
  import opened Validator
  import opened Bytecode
  import opened Source

  datatype Pc = At(n: nat) | Halt

  datatype ActivationFrame = ActivationFrame(pc: Pc, lastOpIndex: nat)

  datatype MState = MState(
    pc: Pc, os: seq<Value>, frames: seq<ActivationFrame>, lastOpIndex: nat, remaining: nat, store: Store)

  /** `MExit` is the halt opcode reached through `exit`, with frames still open. */
  datatype Result = Next(s: MState) | MTrap | MExit(final: Store) | MStuck

  /** The bytecode of all functions, and where each function starts. */
  datatype Image = Image(code: seq<Opcode>, starts: seq<nat>)

  function IncPc(pc: Pc): Pc {
    if pc.At? then At(pc.n + 1) else pc
  }

  /** `jump`: keeps the top operand when the high bit is set, and discards the rest. */
  function Jump(s: MState, data: nat, pc: nat): Result {
    var n := |s.os|;
    if data >= RESULT_FLAG then
      var drop := data - RESULT_FLAG;
      if drop == 0 || n < drop then MStuck
      else Next(s.(pc := At(pc), os := s.os[..n - drop] + [s.os[n - 1]]))
    else if n < data then MStuck
    else Next(s.(pc := At(pc), os := s.os[..n - data]))
  }

  /** `apply_pop_call`: the frame's locals go, its result takes their place. */
  function ApplyPopCall(s: MState, numLocals: nat, returnCount: nat, stackSize: nat): Result {
    var n := |s.os|;
    if s.frames == [] then MStuck
    else
      var af := s.frames[|s.frames| - 1];
      var r := s.(pc := af.pc, lastOpIndex := af.lastOpIndex,
                  frames := s.frames[..|s.frames| - 1], remaining := s.remaining + stackSize);
      if returnCount != 0 then
        if n < numLocals + 1 then MStuck else Next(r.(os := s.os[..n - numLocals - 1] + [s.os[n - 1]]))
      else if n < numLocals then MStuck else Next(r.(os := s.os[..n - numLocals]))
  }

  /** Entering a function: its arguments stay where they are and become its first locals. */
  function PushCall(m: Module, image: Image, s: MState, k: nat, returnPc: Pc): Result
    requires k < |m.funcs|
  {
    var n := |s.os|;
    var ft := m.funcs[k].ft;
    var cost := FrameCost(m, |m.imports| + k);
    if n < |ft.params| || k >= |image.starts| then MStuck
    else if cost > s.remaining then MTrap
    else Next(s.(
      pc := At(image.starts[k]),
      os := s.os + Zeros(Expand(m.funcs[k].locals)),
      frames := s.frames + [ActivationFrame(returnPc, s.lastOpIndex)],
      lastOpIndex := n - |ft.params|,
      remaining := s.remaining - cost))
  }

  /** A host function takes its arguments from the stack and leaves its result; the frame it is
      charged for is given back at once. */
  function HostCall(p: Program, s: MState, f: nat): Result
    requires f < |p.m.imports|
  {
    var ft := p.m.imports[f];
    if |s.os| < |ft.params| then MStuck
    else
      var n := |s.os| - |ft.params|;
      var args := s.os[n..];
      if !HasTypes(args, ft.params) then MStuck
      else if FrameCost(p.m, f) > s.remaining then MTrap
      else
        match p.host(f, args, s.store)
        case HostTrap => MTrap
        case HostExit(store) => MExit(store)
        case HostReturn(bits, store) =>
          var results := if ft.result.Some? then [FromBits(ft.result.value, bits)] else [];
          Next(s.(pc := IncPc(s.pc), os := s.os[..n] + results, store := store))
  }

  function CallOp(p: Program, image: Image, s: MState, f: nat): Result {
    if f < |p.m.imports| then HostCall(p, s, f)
    else if f - |p.m.imports| < |p.m.funcs| then PushCall(p.m, image, s, f - |p.m.imports|, IncPc(s.pc))
    else MStuck
  }

  /** One opcode. */
  function Dispatch(p: Program, image: Image, s: MState, op: Opcode): Result {
    var n := |s.os|;
    match op
    case OPlain(op) =>
      if n < Arity(op) then MStuck
      else
        (match Eval(op, s.os[n - Arity(op)..], s.store)
         case Evaluated(results, store) =>
           Next(s.(pc := IncPc(s.pc), os := s.os[..n - Arity(op)] + results, store := store))
         case Repeated(args, store) => Next(s.(os := s.os[..n - Arity(op)] + args, store := store))
         case Trapped => MTrap
         case Stuck => MStuck)
    case OUnreachable => MTrap
    case ODrop => if n == 0 then MStuck else Next(s.(pc := IncPc(s.pc), os := s.os[..n - 1]))
    case OSelect =>
      if n < 3 || !s.os[n - 1].VI32? then MStuck
      else Next(s.(pc := IncPc(s.pc),
                   os := s.os[..n - 3] + [if s.os[n - 1].i32 == 0 then s.os[n - 2] else s.os[n - 3]]))
    case OLocalGet(i) =>
      if s.lastOpIndex + i >= n then MStuck
      else Next(s.(pc := IncPc(s.pc), os := s.os + [s.os[s.lastOpIndex + i]]))
    case OLocalSet(i) =>
      if s.lastOpIndex + i + 1 >= n then MStuck
      else Next(s.(pc := IncPc(s.pc), os := s.os[..n - 1][s.lastOpIndex + i := s.os[n - 1]]))
    case OLocalTee(i) =>
      if s.lastOpIndex + i + 1 >= n then MStuck
      else Next(s.(pc := IncPc(s.pc), os := s.os[..n - 1][s.lastOpIndex + i := s.os[n - 1]] + [s.os[n - 1]]))
    case OCall(f) => CallOp(p, image, s, f)
    case OIf(pc) =>
      if n == 0 || !s.os[n - 1].VI32? then MStuck
      else Next(s.(pc := if s.os[n - 1].i32 == 0 then At(pc) else IncPc(s.pc), os := s.os[..n - 1]))
    case OElse(pc) => Next(s.(pc := At(pc)))
    case OBr(data, pc) => Jump(s, data, pc)
    case OBrIf(data, pc) =>
      if n == 0 || !s.os[n - 1].VI32? then MStuck
      else
        var s' := s.(os := s.os[..n - 1]);
        if s.os[n - 1].i32 != 0 then Jump(s', data, pc) else Next(s'.(pc := IncPc(s.pc)))
    case OBrTable(size, entries) =>
      if n == 0 || !s.os[n - 1].VI32? then MStuck
      else
        var i := if s.os[n - 1].i32 < size then s.os[n - 1].i32 else size;
        if i >= |entries| then MStuck
        else Jump(s.(os := s.os[..n - 1]), entries[i].stackPop, entries[i].pc)
    case OReturn(numLocals, returnCount, stackSize) => ApplyPopCall(s, numLocals, returnCount, stackSize)
    case OTableData => MStuck
    case OError => MStuck
  }

  function MStep(p: Program, image: Image, s: MState): Result {
    if s.pc.Halt? || s.pc.n >= |image.code| then MStuck else Dispatch(p, image, s, image.code[s.pc.n])
  }

  /** `n` dispatches, stopping at the halt opcode. */
  function MRun(p: Program, image: Image, s: MState, n: nat): Result
    decreases n
  {
    if n == 0 || s.pc.Halt? then Next(s)
    else
      match MStep(p, image, s)
      case Next(s') => MRun(p, image, s', n - 1)
      case MTrap => MTrap
      case MExit(st) => MExit(st)
      case MStuck => MStuck
  }
}

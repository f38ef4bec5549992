/** The structured semantics of function bodies: nested instructions, a stack of labels with
    their own operands, and one frame per call, in the style of section 4.4.8 of the
    WebAssembly Core Specification 2.0. */
module Source {
  import opened Wasm
  import opened Validator

  /** `Basic` holds any instruction that is not structured. */
  datatype Instr =
    | Basic(t: Token)
    | BlockI(bt: Option<ValType>, body: Instrs)
    | LoopI(bt: Option<ValType>, body: Instrs)
    | IfI(bt: Option<ValType>, thn: Instrs, hasElse: bool, els: Instrs)

  datatype Instrs = INil | ICons(hd: Instr, tl: Instrs)

  predicate IsBasic(t: Token) {
    IsStraight(t) || IsBranch(t)
  }

  /** The number of tokens an instruction is written with. */
  function LenI(hd: Instr): nat {
    match hd
    case Basic(_) => 1
    case BlockI(_, b) => Len(b) + 2
    case LoopI(_, b) => Len(b) + 2
    case IfI(_, thn, hasElse, els) => Len(thn) + 2 + if hasElse then Len(els) + 1 else 0
  }

  function Len(c: Instrs): nat {
    match c
    case INil => 0
    case ICons(hd, tl) => LenI(hd) + Len(tl)
  }

  predicate TokenAt(body: seq<Token>, i: nat, t: Token) {
    i < |body| && body[i] == t
  }

  /** The tokens of `body` from position `i` on begin with the instruction `hd`. */
  predicate InstrAt(body: seq<Token>, i: nat, hd: Instr)
    decreases hd
  {
    match hd
    case Basic(t) => IsBasic(t) && TokenAt(body, i, t)
    case BlockI(bt, b) =>
      TokenAt(body, i, Block(bt)) && CodeAt(body, i + 1, b) && TokenAt(body, i + 1 + Len(b), End)
    case LoopI(bt, b) =>
      TokenAt(body, i, Loop(bt)) && CodeAt(body, i + 1, b) && TokenAt(body, i + 1 + Len(b), End)
    case IfI(bt, thn, hasElse, els) =>
      && TokenAt(body, i, If(bt))
      && CodeAt(body, i + 1, thn)
      && if hasElse
         then TokenAt(body, i + 1 + Len(thn), Else) && CodeAt(body, i + 2 + Len(thn), els) &&
              TokenAt(body, i + 2 + Len(thn) + Len(els), End)
         else els == INil && TokenAt(body, i + 1 + Len(thn), End)
  }

  /** The tokens of `body` from position `i` on begin with the structured sequence `c`. */
  predicate CodeAt(body: seq<Token>, i: nat, c: Instrs)
    decreases c
  {
    match c
    case INil => i <= |body|
    case ICons(hd, tl) => InstrAt(body, i, hd) && CodeAt(body, i + LenI(hd), tl)
  }

  /** A function body is a structured sequence and the `end` of the function. */
  predicate IsBody(body: seq<Token>, c: Instrs) {
    CodeAt(body, 0, c) && |body| == Len(c) + 1 && body[Len(c)] == End
  }

  /** A host function throws, returns, or calls `exit`, which ends the whole run. It may have changed
      all of the store, also by calling functions of the module. */
  datatype HostResult = HostTrap | HostReturn(bits: u64, store: Store) | HostExit(store: Store)

  /** A module with its structured bodies, the budget for active frames, and the host functions:
      what a host function does is arbitrary, except that it returns its declared type. */
  datatype Program = Program(
    m: Module, bodies: seq<Instrs>, limit: nat, host: (nat, seq<Value>, Store) -> HostResult)

  /** The instructions inside a label see only the operands pushed inside it. A branch to a loop
      label continues with `again`; after any other label control continues with `rest`. */
  datatype Label = Label(arity: Option<ValType>, again: Option<Instrs>, rest: Instrs, vals: seq<Value>)

  datatype Frame = Frame(func: nat, locals: seq<Value>, labels: seq<Label>, code: Instrs)

  datatype Config =
    | Running(callers: seq<Frame>, cur: Frame, store: Store)
    | Finished(results: seq<Value>, final: Store)
    | Aborted
    | Exited(final: Store)
    | GoesWrong

  /** `get_function_stack_size`: what a call of function `f` charges. */
  function FrameCost(m: Module, f: nat): nat {
    if !m.limitBytes then 1
    else if f < |m.imports| then 0
    else if f - |m.imports| < |m.funcs| then m.funcs[f - |m.imports|].stackUsage
    else 0
  }

  function ActiveCost(m: Module, frames: seq<Frame>): nat {
    if frames == [] then 0
    else ActiveCost(m, frames[..|frames| - 1]) + FrameCost(m, |m.imports| + frames[|frames| - 1].func)
  }

  function Zeros(ts: seq<ValType>): (vs: seq<Value>)
    ensures HasTypes(vs, ts)
    ensures forall i :: 0 <= i < |ts| ==> IsZero(ts[i], vs[i])
  {
    seq(|ts|, i requires 0 <= i < |ts| => Zero(ts[i]))
  }

  function TopVals(f: Frame): seq<Value>
    requires f.labels != []
  {
    f.labels[|f.labels| - 1].vals
  }

  function SetTop(f: Frame, vals: seq<Value>): Frame
    requires f.labels != []
  {
    f.(labels := f.labels[|f.labels| - 1 := f.labels[|f.labels| - 1].(vals := vals)])
  }

  /** Operands `vals` replace the current ones and control moves to `code`. */
  function Continue(s: Config, vals: seq<Value>, code: Instrs): Config
    requires s.Running? && s.cur.labels != []
  {
    s.(cur := SetTop(s.cur, vals).(code := code))
  }

  function Enter(s: Config, arity: Option<ValType>, again: Option<Instrs>, rest: Instrs, body: Instrs): Config
    requires s.Running?
  {
    s.(cur := s.cur.(labels := s.cur.labels + [Label(arity, again, rest, [])], code := body))
  }

  /** A branch drops the labels inside its target. At a loop label the loop starts again; at any
      other label the result goes on to the end of that label. */
  function BranchTo(s: Config, vals: seq<Value>, l: nat): Config
    requires s.Running?
  {
    var labels := s.cur.labels;
    if l >= |labels| then GoesWrong
    else
      var k := |labels| - 1 - l;
      if labels[k].again.Some? then
        s.(cur := s.cur.(labels := labels[..k], code := labels[k].again.value))
      else if labels[k].arity.Some? && vals == [] then GoesWrong
      else
        var results := if labels[k].arity.Some? then vals[|vals| - 1..] else [];
        s.(cur := s.cur.(labels := labels[..k] + [labels[k].(vals := results)], code := INil))
  }

  function ReturnFrom(s: Config): Config
    requires s.Running? && s.cur.labels != []
  {
    if s.callers == [] then Finished(TopVals(s.cur), s.store)
    else
      var caller := s.callers[|s.callers| - 1];
      if caller.labels == [] then GoesWrong
      else Running(s.callers[..|s.callers| - 1], SetTop(caller, TopVals(caller) + TopVals(s.cur)), s.store)
  }

  function CallStep(p: Program, s: Config, f: nat, tl: Instrs): Config
    requires s.Running? && s.cur.labels != []
  {
    var ft := TypeOfFunc(p.m, f);
    if ft.None? || |TopVals(s.cur)| < |ft.value.params| then GoesWrong
    else
      var n := |TopVals(s.cur)| - |ft.value.params|;
      var args := TopVals(s.cur)[n..];
      if !HasTypes(args, ft.value.params) then GoesWrong
      else if ActiveCost(p.m, s.callers + [s.cur]) + FrameCost(p.m, f) > p.limit then Aborted
      else if f < |p.m.imports| then
        match p.host(f, args, s.store)
        case HostTrap => Aborted
        case HostExit(store) => Exited(store)
        case HostReturn(bits, store) =>
          var results := if ft.value.result.Some? then [FromBits(ft.value.result.value, bits)] else [];
          Continue(s.(store := store), TopVals(s.cur)[..n] + results, tl)
      else
        var k := f - |p.m.imports|;
        if k >= |p.bodies| || k >= |p.m.funcs| then GoesWrong
        else
          var caller := SetTop(s.cur, TopVals(s.cur)[..n]).(code := tl);
          Running(s.callers + [caller], Activate(p, k, args), s.store)
  }

  /** A fresh frame: the arguments, zeroed locals, and the label of the function body. */
  function Activate(p: Program, k: nat, args: seq<Value>): Frame
    requires k < |p.bodies| && k < |p.m.funcs|
  {
    Frame(k, args + Zeros(Expand(p.m.funcs[k].locals)),
          [Label(p.m.funcs[k].ft.result, None, INil, [])], p.bodies[k])
  }

  function DoPlain(s: Config, op: PlainOp, tl: Instrs): Config
    requires s.Running? && s.cur.labels != []
  {
    var n := |TopVals(s.cur)| - Arity(op);
    if n < 0 then GoesWrong
    else
      match Eval(op, TopVals(s.cur)[n..], s.store)
      case Evaluated(results, store) => Continue(s.(store := store), TopVals(s.cur)[..n] + results, tl)
      case Repeated(args, store) => Continue(s.(store := store), TopVals(s.cur)[..n] + args, s.cur.code)
      case Trapped => Aborted
      case Stuck => GoesWrong
  }

  function DoStraight(p: Program, s: Config, t: Token, tl: Instrs): Config
    requires s.Running? && s.cur.labels != [] && IsStraight(t)
  {
    var vals := TopVals(s.cur);
    match t
    case Plain(op) => DoPlain(s, op, tl)
    case Unreachable => Aborted
    case Drop => if vals == [] then GoesWrong else Continue(s, vals[..|vals| - 1], tl)
    case Select =>
      var n := |vals|;
      if n < 3 || !vals[n - 1].VI32? then GoesWrong
      else Continue(s, vals[..n - 3] + [if vals[n - 1].i32 != 0 then vals[n - 3] else vals[n - 2]], tl)
    case LocalGet(i) =>
      if i >= |s.cur.locals| then GoesWrong else Continue(s, vals + [s.cur.locals[i]], tl)
    case LocalSet(i) =>
      if i >= |s.cur.locals| || vals == [] then GoesWrong
      else
        var s' := s.(cur := s.cur.(locals := s.cur.locals[i := vals[|vals| - 1]]));
        Continue(s', vals[..|vals| - 1], tl)
    case LocalTee(i) =>
      if i >= |s.cur.locals| || vals == [] then GoesWrong
      else
        var s' := s.(cur := s.cur.(locals := s.cur.locals[i := vals[|vals| - 1]]));
        Continue(s', vals, tl)
    case Call(f) => CallStep(p, s, f, tl)
  }

  function DoBranch(s: Config, t: Token, tl: Instrs): Config
    requires s.Running? && s.cur.labels != [] && IsBranch(t)
  {
    var vals := TopVals(s.cur);
    match t
    case Br(l) => BranchTo(s, vals, l)
    case Return => BranchTo(s, vals, |s.cur.labels| - 1)
    case BrIf(l) =>
      if vals == [] || !vals[|vals| - 1].VI32? then GoesWrong
      else if vals[|vals| - 1].i32 != 0 then BranchTo(s, vals[..|vals| - 1], l)
      else Continue(s, vals[..|vals| - 1], tl)
    case BrTable(ls, d) =>
      if vals == [] || !vals[|vals| - 1].VI32? then GoesWrong
      else
        var i := vals[|vals| - 1].i32;
        BranchTo(s, vals[..|vals| - 1], if i < |ls| then ls[i] else d)
  }

  function SourceStep(p: Program, s: Config): Config {
    if !s.Running? then s
    else if s.cur.labels == [] then GoesWrong
    else
      var labels := s.cur.labels;
      var vals := TopVals(s.cur);
      match s.cur.code
      case INil =>
        if |labels| == 1 then ReturnFrom(s)
        else
          var inner := labels[|labels| - 1];
          var outer := s.cur.(labels := labels[..|labels| - 1], code := inner.rest);
          s.(cur := SetTop(outer, TopVals(outer) + inner.vals))
      case ICons(hd, tl) =>
        match hd
        case BlockI(bt, b) => Enter(s, bt, None, tl, b)
        case LoopI(bt, b) => Enter(s, None, Some(s.cur.code), tl, b)
        case IfI(bt, thn, _, els) =>
          if vals == [] || !vals[|vals| - 1].VI32? then GoesWrong
          else
            var c := vals[|vals| - 1].i32;
            Enter(Continue(s, vals[..|vals| - 1], tl), bt, None, tl, if c != 0 then thn else els)
        case Basic(t) =>
          if IsStraight(t) then DoStraight(p, s, t, tl)
          else if IsBranch(t) then DoBranch(s, t, tl)
          else GoesWrong
  }

  function SourceRun(p: Program, s: Config, n: nat): Config
    decreases n
  {
    if n == 0 then s else SourceRun(p, SourceStep(p, s), n - 1)
  }

  predicate Halted(s: Config) {
    !s.Running?
  }
}

/** Calls and returns: the callee's frame is laid over the arguments, and the return puts the
    caller's program counter, frame base and budget back. */
module Calls {
  import opened Wasm
  import opened Validator
  import opened Scopes
  import opened Bytecode
  import opened Source
  import opened Machine
  import opened Nesting
  import opened Frames
  import opened FrameSteps
  import opened FrameOps
  import opened ModuleWriter
  import opened Layout
  import opened Simulation
  import Parser

  predicate AtCall(s: Config) {
    s.Running? && s.cur.code.ICons? && s.cur.code.hd.Basic? && s.cur.code.hd.t.Call?
  }

  lemma CallSource(p: Program, s: Config)
    requires s.Running? && s.cur.labels != [] && s.cur.code.ICons? && s.cur.code.hd.Basic? && s.cur.code.hd.t.Call?
    ensures SourceStep(p, s) == CallStep(p, s, s.cur.code.hd.t.func, s.cur.code.tl)
  {
    hide CallStep;
  }

  /** The caller once its arguments are taken. */
  function Caller(f: Frame, n: nat): Frame
    requires f.labels != [] && n <= |TopVals(f)| && f.code.ICons?
  {
    SetTop(f, TopVals(f)[..n]).(code := f.code.tl)
  }

  lemma CallerShape(f: Frame, n: nat, results: seq<Value>)
    requires f.labels != [] && n <= |TopVals(f)| && f.code.ICons?
    ensures
      var g := Caller(f, n);
      && g.func == f.func && g.labels != [] && TopVals(g) == TopVals(f)[..n]
      && SetTop(g, TopVals(g) + results) == SetTop(f, TopVals(f)[..n] + results).(locals := f.locals, code := f.code.tl)
      && FrameStack(g) == Under(f) + TopVals(f)[..n]
  {
    StackShape(f, TopVals(f)[..n]);
    assert SetTop(Caller(f, n), TopVals(f)[..n] + results).labels == SetTop(f, TopVals(f)[..n] + results).labels;
  }

  /** The arguments are on top of the stack, and the caller waits for the result. */
  lemma CallIsTyped(p: Program, s: Config, at: seq<nat>, pos: nat) returns (n: nat, ft: FuncType)
    requires ConfigOk(p, s, at, pos) && s.cur.code.ICons? && s.cur.code.hd.Basic? && s.cur.code.hd.t.Call?
    ensures s.cur.labels != [] && TypeOfFunc(p.m, s.cur.code.hd.t.func) == Some(ft)
    ensures n + |ft.params| == |TopVals(s.cur)|
    ensures HasTypes(TopVals(s.cur)[n..], ft.params)
    ensures CallerOk(p.m, Caller(s.cur, n), pos + 1, ResultTypes(ft.result))
    ensures CodePcOk(p.m, s.cur, pos) && pos + 1 < |p.m.funcs[s.cur.func].body|
  {
    hide CallersOk, StoreOk, ActiveCost, Run, Accepts, LabelsOk, SegsOk, TopOk, ContinuesAt, SegOk, HasTypes;
    FrameHasPc(p.m, s.cur, pos);
    CallFrame(p.m, s.cur, pos);
    ft := TypeOfFunc(p.m, s.cur.code.hd.t.func).value;
    n := |TopVals(s.cur)| - |ft.params|;
  }

  lemma HostSource(p: Program, s: Config, n: nat, ft: FuncType)
    requires s.Running? && s.cur.labels != [] && s.cur.code.ICons? && s.cur.code.hd.Basic? && s.cur.code.hd.t.Call?
    requires TypeOfFunc(p.m, s.cur.code.hd.t.func) == Some(ft) && n + |ft.params| == |TopVals(s.cur)|
    requires HasTypes(TopVals(s.cur)[n..], ft.params) && s.cur.code.hd.t.func < |p.m.imports|
    ensures
      var f := s.cur.code.hd.t.func;
      var vals := TopVals(s.cur);
      var r := p.host(f, vals[n..], s.store);
      CallStep(p, s, f, s.cur.code.tl) ==
      if ActiveCost(p.m, s.callers + [s.cur]) + FrameCost(p.m, f) > p.limit || r.HostTrap? then Aborted
      else if r.HostExit? then Exited(r.store)
      else
        var results := if ft.result.Some? then [FromBits(ft.result.value, r.bits)] else [];
        Running(s.callers, SetTop(s.cur, vals[..n] + results).(locals := s.cur.locals, code := s.cur.code.tl),
                r.store)
  {
    hide HasTypes, ActiveCost;
  }

  lemma HostDispatch(p: Program, image: Image, ms: MState, below: seq<Value>, vals: seq<Value>, n: nat, f: nat)
    requires f < |p.m.imports| && ms.os == below + vals && n + |p.m.imports[f].params| == |vals|
    requires HasTypes(vals[n..], p.m.imports[f].params)
    ensures
      var ft := p.m.imports[f];
      var r := p.host(f, vals[n..], ms.store);
      Dispatch(p, image, ms, OCall(f)) ==
      if FrameCost(p.m, f) > ms.remaining || r.HostTrap? then MTrap
      else if r.HostExit? then MExit(r.store)
      else
        var results := if ft.result.Some? then [FromBits(ft.result.value, r.bits)] else [];
        Next(ms.(pc := IncPc(ms.pc), os := below + (vals[..n] + results), store := r.store))
  {
    hide HasTypes;
    Replace(below, vals, |vals| - n, []);
    Replace(below, vals, |vals| - n, if p.m.imports[f].result.Some? && p.host(f, vals[n..], ms.store).HostReturn?
            then [FromBits(p.m.imports[f].result.value, p.host(f, vals[n..], ms.store).bits)] else []);
  }

  lemma RemainingIs(p: Program, b: Origin, s: Config, at: seq<nat>, pos: nat)
    requires ConfigOk(p, s, at, pos)
    ensures MachineOf(p, b, s, at, pos).remaining + ActiveCost(p.m, s.callers + [s.cur]) == p.limit
    ensures MachineOf(p, b, s, at, pos).store == s.store
  {
    hide FrameOk, CallersOk, StoreOk, ActFrames, CodePc, ActiveCost;
  }

  lemma ResultTyped(t: Option<ValType>, bits: u64)
    ensures HasTypes(if t.Some? then [FromBits(t.value, bits)] else [], ResultTypes(t))
  {
  }

  lemma SimHostCall(p: Program, image: Image, b: Origin, s: Config, at: seq<nat>, pos: nat)
    requires AtCall(s) && s.cur.code.hd.t.func < |p.m.imports|
    requires ProgramOk(p) && ImageOk(p, image) && ConfigOk(p, s, at, pos)
    ensures Called(p, image, b, s, at, pos, SourceStep(p, s), at, pos + 1)
  {
    hide FrameOk, CallersOk, StoreOk, ActFrames, Run, MStep, SourceStep, ActiveCost, ImageOk, Under, CodePc, CallStep,
         HasTypes, Dispatch, MachineOf, CallerOk, FrameCost, Flat, FrameStack, FromBits, SetTop, TopVals, ResultTypes,
         ProgramOk;
    TopOfStack(p, b, s, at, pos);
    var n, ft := CallIsTyped(p, s, at, pos);
    var f := s.cur.code.hd.t.func;
    CallSource(p, s);
    HostSource(p, s, n, ft);
    StraightMachine(p, image, b, s, at, pos);
    var ms := MachineOf(p, b, s, at, pos);
    RemainingIs(p, b, s, at, pos);
    var vals := TopVals(s.cur);
    HostDispatch(p, image, ms, b.os + Flat(s.callers) + Under(s.cur), vals, n, f);
    var r := p.host(f, vals[n..], s.store);
    if r.HostReturn? {
      var results := if ft.result.Some? then [FromBits(ft.result.value, r.bits)] else [];
      ResultTyped(ft.result, r.bits);
      CallerShape(s.cur, n, results);
      Resumed(p.m, Caller(s.cur, n), pos + 1, ResultTypes(ft.result), results);
      HostStore(p, f, vals[n..], s.store);
      SameLocals(s.cur, vals[..n] + results);
      Advanced(p, b, s, at, pos, s.cur.locals, vals[..n] + results, r.store);
    }
  }

  lemma HostStore(p: Program, f: nat, args: seq<Value>, st: Store)
    requires ProgramOk(p) && StoreOk(p.m.globals, st) && p.host(f, args, st).HostReturn?
    ensures StoreOk(p.m.globals, p.host(f, args, st).store)
  {
    hide StoreOk, AcceptsFirst, IsBody;
    assert HostKeeps(p.m, p.host);
  }

  lemma WasmSource(p: Program, s: Config, n: nat, ft: FuncType)
    requires ProgramOk(p)
    requires s.Running? && s.cur.labels != [] && s.cur.code.ICons? && s.cur.code.hd.Basic? && s.cur.code.hd.t.Call?
    requires TypeOfFunc(p.m, s.cur.code.hd.t.func) == Some(ft) && n + |ft.params| == |TopVals(s.cur)|
    requires HasTypes(TopVals(s.cur)[n..], ft.params) && s.cur.code.hd.t.func >= |p.m.imports|
    ensures
      var f := s.cur.code.hd.t.func;
      var k := f - |p.m.imports|;
      && k < |p.m.funcs| == |p.bodies| && ft == p.m.funcs[k].ft
      && CallStep(p, s, f, s.cur.code.tl) ==
         if ActiveCost(p.m, s.callers + [s.cur]) + FrameCost(p.m, f) > p.limit then Aborted
         else Running(s.callers + [Caller(s.cur, n)], Activate(p, k, TopVals(s.cur)[n..]), s.store)
  {
    hide HasTypes, ActiveCost, AcceptsFirst, IsBody;
  }

  lemma CostDependsOnFunc(m: Module, frames: seq<Frame>, f: Frame, g: Frame)
    requires f.func == g.func
    ensures ActiveCost(m, frames + [f]) == ActiveCost(m, frames + [g]) ==
            ActiveCost(m, frames) + FrameCost(m, |m.imports| + f.func)
  {
    assert (frames + [f])[..|frames|] == frames == (frames + [g])[..|frames|];
  }

  lemma FlatGrows(callers: seq<Frame>, f: Frame)
    ensures Flat(callers + [f]) == Flat(callers) + FrameStack(f)
  {
    assert (callers + [f])[..|callers|] == callers;
  }

  lemma CallersGrow(p: Program, b: Origin, callers: seq<Frame>, at: seq<nat>, f: Frame, pos: nat, callee: nat)
    requires WellSized(p.m) && CallersOk(p.m, callers, at, f.func) && callee < |p.m.funcs|
    requires CallerOk(p.m, f, pos, ResultTypes(p.m.funcs[callee].ft.result))
    ensures CallersOk(p.m, callers + [f], at + [pos], callee)
    ensures CodePcOk(p.m, f, pos)
    ensures ActFrames(p.m, b, callers + [f], at + [pos], callee) ==
            ActFrames(p.m, b, callers, at, f.func) +
              [ActivationFrame(At(CodePc(p.m, f, pos)), |b.os| + |Flat(callers)|)]
  {
    hide FrameOk, Run, SegOk;
    assert (callers + [f])[..|callers|] == callers && (at + [pos])[..|at|] == at;
    FrameHasPc'(p.m, f, pos, ResultTypes(p.m.funcs[callee].ft.result));
  }

  lemma FrameHasPc'(m: Module, f: Frame, pos: nat, pending: seq<ValType>)
    requires FrameOk(m, f, pos, pending)
    ensures CodePcOk(m, f, pos)
  {
  }

  /** The stack of a fresh frame: its arguments and its zeroed locals. */
  lemma FreshStack(p: Program, k: nat, args: seq<Value>)
    requires k < |p.bodies| && k < |p.m.funcs|
    ensures FrameStack(Activate(p, k, args)) == args + Zeros(Expand(p.m.funcs[k].locals))
  {
    ValsEnter([], Activate(p, k, args).labels[0]);
    assert [] + Activate(p, k, args).labels == Activate(p, k, args).labels;
  }

  /** Opening a frame in the machine. */
  lemma Pushed(p: Program, image: Image, ms: MState, below: seq<Value>, vals: seq<Value>, n: nat, k: nat)
    requires ImageOk(p, image) && k < |p.m.funcs| && n + |p.m.funcs[k].ft.params| == |vals| && ms.os == below + vals
    ensures
      CallOp(p, image, ms, |p.m.imports| + k) ==
      if FrameCost(p.m, |p.m.imports| + k) > ms.remaining then MTrap
      else
        Next(ms.(
          pc := At(Base(p.m, k)),
          os := (below + vals[..n]) + (vals[n..] + Zeros(Expand(p.m.funcs[k].locals))),
          frames := ms.frames + [ActivationFrame(IncPc(ms.pc), ms.lastOpIndex)],
          lastOpIndex := |below + vals[..n]|,
          remaining := ms.remaining - FrameCost(p.m, |p.m.imports| + k)))
  {
    hide AcceptsFirst, ModuleCode, Zeros, Expand, FrameCost;
    var z := Zeros(Expand(p.m.funcs[k].locals));
    assert vals == vals[..n] + vals[n..];
    assert (below + vals) + z == (below + vals[..n]) + (vals[n..] + z);
  }

  /** A fresh frame is in place. */
  lemma Activated(p: Program, b: Origin, s: Config, at: seq<nat>, pos: nat, n: nat, k: nat)
    requires ProgramOk(p) && ConfigOk(p, s, at, pos) && s.cur.labels != [] && s.cur.code.ICons?
    requires k < |p.m.funcs| && n + |p.m.funcs[k].ft.params| == |TopVals(s.cur)|
    requires HasTypes(TopVals(s.cur)[n..], p.m.funcs[k].ft.params)
    requires CallerOk(p.m, Caller(s.cur, n), pos + 1, ResultTypes(p.m.funcs[k].ft.result))
    requires ActiveCost(p.m, s.callers + [s.cur]) + FrameCost(p.m, |p.m.imports| + k) <= p.limit
    ensures CodePcOk(p.m, s.cur, pos + 1)
    ensures
      var s' := Running(s.callers + [Caller(s.cur, n)], Activate(p, k, TopVals(s.cur)[n..]), s.store);
      var vals := TopVals(s.cur);
      var below := b.os + Flat(s.callers) + Under(s.cur);
      && ConfigOk(p, s', at + [pos + 1], 0)
      && MachineOf(p, b, s', at + [pos + 1], 0) ==
         MState(
           At(Base(p.m, k)),
           (below + vals[..n]) + (vals[n..] + Zeros(Expand(p.m.funcs[k].locals))),
           ActFrames(p.m, b, s.callers, at, s.cur.func) +
             [ActivationFrame(At(CodePc(p.m, s.cur, pos + 1)), |b.os| + |Flat(s.callers)|)],
           |below + vals[..n]|,
           p.limit - ActiveCost(p.m, s.callers + [s.cur]) - FrameCost(p.m, |p.m.imports| + k),
           s.store)
  {
    hide FrameOk, CallersOk, StoreOk, ActFrames, Run, ActiveCost, Under, CodePc, HasTypes, CallerOk, FrameCost, Flat,
         FrameStack, SetTop, TopVals, ResultTypes, Caller, Activate, IsBody, Accepts;
    var vals := TopVals(s.cur);
    var g := Caller(s.cur, n);
    var args := vals[n..];
    var callee := Activate(p, k, args);
    CallerShape(s.cur, n, []);
    Fresh(p, k, args);
    CalleeFunc(p, k, args);
    CallersGrow(p, b, s.callers, at, g, pos + 1, k);
    CodePcFunc(p.m, g, s.cur, pos + 1);
    CostDependsOnFunc(p.m, s.callers, g, s.cur);
    CostDependsOnFunc(p.m, s.callers + [g], callee, callee);
    FreshStack(p, k, args);
    FlatGrows(s.callers, g);
    StartsAtBase(p.m, callee);
    assert b.os + Flat(s.callers + [g]) == b.os + Flat(s.callers) + Under(s.cur) + vals[..n];
  }

  lemma CalleeFunc(p: Program, k: nat, args: seq<Value>)
    requires k < |p.bodies| && k < |p.m.funcs|
    ensures Activate(p, k, args).func == k
  {
  }

  lemma StartsAtBase(m: Module, f: Frame)
    requires WellSized(m) && f.func < |m.funcs|
    ensures CodePc(m, f, 0) == Base(m, f.func)
  {
  }

  lemma SimWasmCall(p: Program, image: Image, b: Origin, s: Config, at: seq<nat>, pos: nat)
    requires AtCall(s) && s.cur.code.hd.t.func >= |p.m.imports|
    requires ProgramOk(p) && ImageOk(p, image) && ConfigOk(p, s, at, pos)
    ensures !SourceStep(p, s).Exited? && Called(p, image, b, s, at, pos, SourceStep(p, s), at + [pos + 1], 0)
  {
    hide FrameOk, CallersOk, StoreOk, ActFrames, Run, MStep, SourceStep, ActiveCost, ImageOk, Under, CodePc, CallStep,
         ProgramOk, HasTypes, CallOp, CallerOk, FrameCost, Flat, FrameStack, SetTop, TopVals, ResultTypes, Caller,
           Activate;
    TopOfStack(p, b, s, at, pos);
    var n, ft := CallIsTyped(p, s, at, pos);
    var k := s.cur.code.hd.t.func - |p.m.imports|;
    CallSource(p, s);
    WasmSource(p, s, n, ft);
    StraightMachine(p, image, b, s, at, pos);
    Pushed(p, image, MachineOf(p, b, s, at, pos), b.os + Flat(s.callers) + Under(s.cur), TopVals(s.cur), n, k);
    if ActiveCost(p.m, s.callers + [s.cur]) + FrameCost(p.m, |p.m.imports| + k) <= p.limit {
      Activated(p, b, s, at, pos, n, k);
    }
  }

  /** What `execute` leaves behind when its outermost function returns. */
  function ExitState(p: Program, b: Origin, results: seq<Value>, store: Store): MState {
    MState(Halt, b.os + results, b.frames, b.lastOpIndex, p.limit, store)
  }

  /** The `end` of the function is the last instruction, so the return opcode comes next. */
  lemma ReturnFacts(m: Module, f: Frame, pos: nat)
    requires WellSized(m) && FrameOk(m, f, pos, []) && f.code == INil && |f.labels| == 1
    ensures CodePcOk(m, f, pos) &&
            CodePc(m, f, pos) == Base(m, f.func) + Addr(m, m.funcs[f.func], |m.funcs[f.func].body|)
    ensures HasTypes(TopVals(f), ResultTypes(m.funcs[f.func].ft.result))
    ensures |f.locals| == |LocalTypes(m.funcs[f.func])|
    ensures FrameStack(f) == f.locals + TopVals(f)
  {
    hide Run, Accepts, LabelsOk, SegsOk, TopOk, Base, Close, EndOf, ContinuesAt;
    var fd := m.funcs[f.func];
    var s := Run(m, fd, pos).value;
    LabelFacts(m, fd, s.ctrls, f.labels, 0);
    ScopeResult(m, f, pos);
    AtLastEnd(m, fd, pos, f.code);
    ValsOfTop(f, TopVals(f));
    assert SetTop(f, TopVals(f)).labels == f.labels;
    assert Vals(f.labels[..0]) == [];
    assert Addr(m, fd, pos + 1) == Addr(m, fd, pos);
  }

  lemma AtLastEnd(m: Module, fd: FuncDecl, pos: nat, c: Instrs)
    requires Accepts(m, fd) && c == INil && ContinuesAt(m, fd, pos, c, -1)
    requires CtrlsAt(m, fd, pos) == [Ctrl(-1, FuncBody, fd.ft.result)]
    ensures pos + 1 == |fd.body| && fd.body[pos].End?
  {
    hide Run, Accepts, Close, EndOf, CtrlsAt;
    TokenStep(m, fd, pos, -1);
    ScopeRemains(m, fd, pos + 1);
  }

  lemma ReturnDispatch(p: Program, image: Image, ms: MState, fd: FuncDecl, below: seq<Value>, locals: seq<Value>,
      vals: seq<Value>)
    requires ms.pc.At? && ms.pc.n < |image.code| && image.code[ms.pc.n] == ReturnOp(p.m, fd)
    requires ms.os == below + (locals + vals) && |locals| == |LocalTypes(fd)| &&
            HasTypes(vals, ResultTypes(fd.ft.result))
    requires ms.frames != []
    ensures
      var af := ms.frames[|ms.frames| - 1];
      MStep(p, image, ms) ==
      Next(ms.(pc := af.pc, os := below + vals, frames := ms.frames[..|ms.frames| - 1], lastOpIndex := af.lastOpIndex,
               remaining := ms.remaining + StackUsage(p.m, fd)))
  {
    hide LocalTypes;
    var n := |ms.os|;
    assert ms.os[..|below|] == below;
    if fd.ft.result.Some? {
      assert vals == [vals[0]] && ms.os[n - 1] == vals[0];
      assert n - |locals| - 1 == |below|;
    } else {
      assert vals == [] && below + vals == below;
      assert n - |locals| == |below|;
    }
  }

  lemma ReturnSource(p: Program, s: Config)
    requires s.Running? && s.cur.code == INil && |s.cur.labels| == 1
    ensures SourceStep(p, s) == ReturnFrom(s)
  {
  }

  lemma SameCost(m: Module, k: nat)
    requires k < |m.funcs|
    ensures FrameCost(m, |m.imports| + k) == StackUsage(m, m.funcs[k])
  {
  }

  /** The machine after the return, whoever waits for it. */
  lemma Returned(p: Program, image: Image, b: Origin, s: Config, at: seq<nat>, pos: nat)
    requires ImageOk(p, image) && ConfigOk(p, s, at, pos) && s.cur.code == INil && |s.cur.labels| == 1
    ensures HasTypes(TopVals(s.cur), ResultTypes(p.m.funcs[s.cur.func].ft.result))
    ensures
      var ms := MachineOf(p, b, s, at, pos);
      && ms.frames != []
      && var af := ms.frames[|ms.frames| - 1];
      && ActiveCost(p.m, s.callers) <= p.limit
      && MStep(p, image, ms) ==
         Next(MState(af.pc, b.os + Flat(s.callers) + TopVals(s.cur), ms.frames[..|ms.frames| - 1], af.lastOpIndex,
                     p.limit - ActiveCost(p.m, s.callers), s.store))
  {
    hide FrameOk, CallersOk, StoreOk, Run, ActiveCost, ImageOk, CodePc, FrameCost, Flat, MStep, HasTypes, ResultTypes,
         ReturnOp, LocalTypes, FrameStack, Addr, Base;
    FrameHasPc(p.m, s.cur, pos);
    var fd := p.m.funcs[s.cur.func];
    ReturnFacts(p.m, s.cur, pos);
    ReturnAt(p, image, s.cur.func);
    CostDependsOnFunc(p.m, s.callers, s.cur, s.cur);
    SameCost(p.m, s.cur.func);
    var ms := MachineOf(p, b, s, at, pos);
    ReturnDispatch(p, image, ms, fd, b.os + Flat(s.callers), s.cur.locals, TopVals(s.cur));
  }

  lemma SimLastReturn(p: Program, image: Image, b: Origin, s: Config, at: seq<nat>, pos: nat)
    requires ImageOk(p, image) && ConfigOk(p, s, at, pos)
    requires s.cur.code == INil && |s.cur.labels| == 1 && s.callers == []
    ensures SourceStep(p, s).Finished?
    ensures MStep(p, image, MachineOf(p, b, s, at, pos)) ==
            Next(ExitState(p, b, SourceStep(p, s).results, SourceStep(p, s).final))
    ensures HasTypes(SourceStep(p, s).results, ResultTypes(p.m.funcs[s.cur.func].ft.result))
  {
    hide FrameOk, StoreOk, Run, ImageOk, CodePc, FrameCost, MStep, HasTypes, ResultTypes;
    Returned(p, image, b, s, at, pos);
    ReturnSource(p, s);
    var ms := MachineOf(p, b, s, at, pos);
    assert ms.frames == b.frames + [ActivationFrame(Halt, b.lastOpIndex)];
    assert b.os + Flat(s.callers) == b.os;
  }

  lemma SimReturn(p: Program, image: Image, b: Origin, s: Config, at: seq<nat>, pos: nat)
    returns (at': seq<nat>, pos': nat)
    requires ImageOk(p, image) && ConfigOk(p, s, at, pos)
    requires s.cur.code == INil && |s.cur.labels| == 1 && s.callers != []
    ensures Dispatched(p, image, b, s, at, pos, SourceStep(p, s), at', pos')
  {
    hide FrameOk, StoreOk, Run, ActiveCost, ImageOk, CodePc, FrameCost, MStep, HasTypes, ResultTypes, CallersOk,
         CallerOk, SetTop, TopVals, FrameStack, Flat, ActFrames;
    Returned(p, image, b, s, at, pos);
    ReturnSource(p, s);
    at', pos' := ResumeCaller(p, b, s, at, TopVals(s.cur));
  }

  /** The caller below goes on where it waited. */
  lemma ResumeCaller(p: Program, b: Origin, s: Config, at: seq<nat>, results: seq<Value>)
    returns (at': seq<nat>, pos': nat)
    requires WellSized(p.m) && s.Running? && s.callers != [] && CallersOk(p.m, s.callers, at, s.cur.func)
    requires HasTypes(results, ResultTypes(p.m.funcs[s.cur.func].ft.result))
    requires StoreOk(p.m.globals, s.store) && ActiveCost(p.m, s.callers) <= p.limit
    ensures s.callers[|s.callers| - 1].labels != []
    ensures
      var g := s.callers[|s.callers| - 1];
      var s' := Running(s.callers[..|s.callers| - 1], SetTop(g, TopVals(g) + results), s.store);
      var frames := ActFrames(p.m, b, s.callers, at, s.cur.func);
      var af := frames[|frames| - 1];
      && ConfigOk(p, s', at', pos')
      && MachineOf(p, b, s', at', pos') ==
         MState(af.pc, b.os + Flat(s.callers) + results, frames[..|frames| - 1], af.lastOpIndex,
                p.limit - ActiveCost(p.m, s.callers), s.store)
  {
    hide FrameOk, StoreOk, Run, FrameCost, HasTypes, ResultTypes, SetTop, TopVals, FrameStack, Flat, ActiveCost,
         CodePc, SegOk;
    var n := |s.callers| - 1;
    var g := s.callers[n];
    at', pos' := at[..n], at[n];
    var pending := ResultTypes(p.m.funcs[s.cur.func].ft.result);
    FrameHasLabels(p.m, g, pos', pending);
    Resumed(p.m, g, pos', pending, results);
    FrameHasPc'(p.m, g, pos', pending);
    ResumedShape(g, results);
    var g' := SetTop(g, TopVals(g) + results);
    assert s.callers == s.callers[..n] + [g];
    FlatGrows(s.callers[..n], g);
    CostDependsOnFunc(p.m, s.callers[..n], g, g');
    CodePcFunc(p.m, g, g', pos');
    assert b.os + Flat(s.callers[..n]) + FrameStack(g') == b.os + Flat(s.callers) + results;
  }

  lemma FrameHasLabels(m: Module, f: Frame, pos: nat, pending: seq<ValType>)
    requires FrameOk(m, f, pos, pending)
    ensures f.labels != []
  {
  }

  lemma ResumedShape(g: Frame, results: seq<Value>)
    requires g.labels != []
    ensures SetTop(g, TopVals(g) + results).func == g.func
    ensures FrameStack(SetTop(g, TopVals(g) + results)) == FrameStack(g) + results
  {
    StackShape(g, TopVals(g) + results);
  }
}

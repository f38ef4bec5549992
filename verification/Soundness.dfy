/** What holds at every state the interpreter reaches: the height of the stack, the types on it,
    the budget, a bound on the whole stack, and that a callee leaves its caller alone. */
module Soundness {
  import opened Wasm
  import opened Validator
  import opened Bytecode
  import opened Source
  import opened Machine
  import opened Frames
  import opened FrameOps
  import opened ModuleWriter
  import opened Layout
  import opened Simulation
  import opened Calls
  import opened Correctness
  import opened Depths

  /** Every state the machine passes through stands for a configuration of the structured
      semantics. */
  lemma {:induction false} StateIsConfig(p: Program, image: Image, b: Origin, s: Config, at: seq<nat>, pos: nat, n: nat)
    returns (k: nat, at': seq<nat>, pos': nat)
    requires ProgramOk(p) && ImageOk(p, image) && ConfigOk(p, s, at, pos)
    requires
      var r := MRun(p, image, MachineOf(p, b, s, at, pos), n);
      r.Next? && r.s.pc.At?
    ensures ConfigOk(p, SourceRun(p, s, k), at', pos')
    ensures MRun(p, image, MachineOf(p, b, s, at, pos), n) == Next(MachineOf(p, b, SourceRun(p, s, k), at', pos'))
    decreases n, Measure(s)
  {
    hide ImageOk, ProgramOk, MStep, SourceStep, MachineOf, Measure, ConfigOk;
    k, at', pos' := 0, at, pos;
    if n > 0 {
      RunningPc(p, b, s, at, pos);
      var at1, pos1 := StepSimulated(p, image, b, s, at, pos);
      var s1 := SourceStep(p, s);
      if s1.Running? {
        if Silent(p, b, s, at, pos, s1, at1, pos1) {
          k, at', pos' := StateIsConfig(p, image, b, s1, at1, pos1, n);
        } else {
          k, at', pos' := StateIsConfig(p, image, b, s1, at1, pos1, n - 1);
        }
        k := k + 1;
      }
    }
  }

  /** The frame base, locals and operands of the running function, and the position its program
      counter stands for. */
  ghost predicate StateSound(p: Program, t: MState, k: nat, pos: nat) {
    && WellSized(p.m) && k < |p.m.funcs| && t.pc.At?
    && var fd := p.m.funcs[k];
    && Inside(p.m, fd, pos)
    && t.pc.n == Base(p.m, k) + Addr(p.m, fd, pos)
    && |t.os| == t.lastOpIndex + |LocalTypes(fd)| + RecordedDepth(p.m, fd, pos)
    && (!Closes(fd.body[pos]) ==> !Top(Run(p.m, fd, pos).value.ops).unreachable)
    && HasTypes(t.os[t.lastOpIndex..t.lastOpIndex + |LocalTypes(fd)|], LocalTypes(fd))
  }

  lemma ConfigSound(p: Program, b: Origin, s: Config, at: seq<nat>, pos: nat)
    requires ConfigOk(p, s, at, pos)
    ensures StateSound(p, MachineOf(p, b, s, at, pos), s.cur.func, pos)
  {
    hide FrameOk, CallersOk, StoreOk, ActFrames, ActiveCost, Addr, Base, RecordedDepth, Flat, Vals, HasTypes;
    FrameHasPc(p.m, s.cur, pos);
    FrameHeight(p.m, s.cur, pos);
    FrameLocals(p.m, s.cur, pos);
    var t := MachineOf(p, b, s, at, pos);
    var base := b.os + Flat(s.callers);
    assert t.os == base + (s.cur.locals + Vals(s.cur.labels));
    assert t.os[|base|..|base| + |s.cur.locals|] == s.cur.locals;
  }

  lemma FrameLocals(m: Module, f: Frame, pos: nat)
    requires FrameOk(m, f, pos, [])
    ensures HasTypes(f.locals, LocalTypes(m.funcs[f.func])) && |f.locals| == |LocalTypes(m.funcs[f.func])|
  {
    hide Run, Accepts, LabelsOk, SegsOk, TopOk, ContinuesAt;
  }

  /** Stack soundness over whole runs: at every reachable state the stack height is frame base
      plus locals plus the depth recorded for that point of the body. */
  lemma StackSound(p: Program, image: Image, b: Origin, k: nat, args: seq<Value>, store: Store, n: nat)
    requires EntryOk(p, k, args, store) && ImageOk(p, image)
    requires
      var r := MRun(p, image, EntryState(p, b, k, args, store), n);
      r.Next? && r.s.pc.At?
    ensures exists f: nat, pos: nat :: StateSound(p, MRun(p, image, EntryState(p, b, k, args, store), n).s, f, pos)
  {
    hide ImageOk, MachineOf, ConfigOk, StateSound, MRun, AcceptsFirst, IsBody, HasTypes;
    var s0 := EntryConfig(p, k, args, store);
    EntryIsConfig(p, b, k, args, store);
    var j, at, pos := StateIsConfig(p, image, b, s0, [], 0, n);
    var s := SourceRun(p, s0, j);
    RunningConfig(p, s, at, pos);
    ConfigSound(p, b, s, at, pos);
    assert StateSound(p, MRun(p, image, EntryState(p, b, k, args, store), n).s, s.cur.func, pos);
  }

  function CostOf(m: Module, active: seq<nat>): nat {
    if active == [] then 0 else CostOf(m, active[..|active| - 1]) + FrameCost(m, |m.imports| + active[|active| - 1])
  }

  function Funcs(frames: seq<Frame>): (ks: seq<nat>)
    ensures |ks| == |frames|
  {
    seq(|frames|, i requires 0 <= i < |frames| => frames[i].func)
  }

  lemma {:induction false} CostOfFuncs(m: Module, frames: seq<Frame>)
    ensures CostOf(m, Funcs(frames)) == ActiveCost(m, frames)
    decreases |frames|
  {
    if frames != [] {
      CostOfFuncs(m, frames[..|frames| - 1]);
      assert Funcs(frames)[..|frames| - 1] == Funcs(frames[..|frames| - 1]);
    }
  }

  /** The program counter is in the code of function `k`. */
  predicate InCode(m: Module, pc: Pc, k: nat)
    requires WellSized(m)
  {
    k < |m.funcs| && pc.At? && Base(m, k) <= pc.n < Base(m, k) + FuncSize(m, m.funcs[k])
  }

  /** The functions of the frames opened above the first `below`, the running one last: its code
      holds the program counter, and the code of each caller the return address of its callee. */
  ghost predicate OpenFrames(m: Module, below: nat, t: MState, active: seq<nat>)
    requires WellSized(m)
  {
    && active != [] && |t.frames| == below + |active|
    && t.frames[below].pc == Halt
    && (forall i :: 0 <= i < |active| - 1 ==> InCode(m, t.frames[below + 1 + i].pc, active[i]))
    && InCode(m, t.pc, active[|active| - 1])
  }

  lemma PcInCode(m: Module, f: Frame, pos: nat)
    requires WellSized(m) && CodePcOk(m, f, pos)
    ensures InCode(m, At(CodePc(m, f, pos)), f.func)
  {
    AddrMonotone(m, m.funcs[f.func], pos, |m.funcs[f.func].body|);
  }

  lemma {:induction false} ReturnAddresses(m: Module, b: Origin, callers: seq<Frame>, at: seq<nat>, callee: nat)
    requires WellSized(m) && CallersOk(m, callers, at, callee)
    ensures ActFrames(m, b, callers, at, callee)[|b.frames|].pc == Halt
    ensures forall i :: 0 <= i < |callers| ==>
              InCode(m, ActFrames(m, b, callers, at, callee)[|b.frames| + 1 + i].pc, callers[i].func)
    decreases |callers|
  {
    hide FrameOk, SegOk, Run, InCode, CodePc, Flat;
    if callers != [] {
      var n := |callers| - 1;
      var init := ActFrames(m, b, callers[..n], at[..n], callers[n].func);
      ReturnAddresses(m, b, callers[..n], at[..n], callers[n].func);
      FrameHasPc'(m, callers[n], at[n], ResultTypes(m.funcs[callee].ft.result));
      PcInCode(m, callers[n], at[n]);
      forall i | 0 <= i < |callers|
        ensures InCode(m, ActFrames(m, b, callers, at, callee)[|b.frames| + 1 + i].pc, callers[i].func)
      {
        if i < n {
          assert ActFrames(m, b, callers, at, callee)[|b.frames| + 1 + i] == init[|b.frames| + 1 + i];
          assert callers[..n][i] == callers[i];
        }
      }
    }
  }

  /** The remaining budget and the frames still open, each at the cost of its function, add up to
      the budget `execute` began with. */
  lemma BudgetConserved(p: Program, image: Image, b: Origin, k: nat, args: seq<Value>, store: Store, n: nat)
    requires EntryOk(p, k, args, store) && ImageOk(p, image)
    requires
      var r := MRun(p, image, EntryState(p, b, k, args, store), n);
      r.Next? && r.s.pc.At?
    ensures
      var t := MRun(p, image, EntryState(p, b, k, args, store), n).s;
      exists active: seq<nat> ::
        && OpenFrames(p.m, |b.frames|, t, active) && t.frames[..|b.frames|] == b.frames
        && t.remaining + CostOf(p.m, active) == p.limit
  {
    hide ImageOk, ConfigOk, MRun, AcceptsFirst, IsBody, HasTypes, ActiveCost, CostOf, MachineOf, OpenFrames;
    var s0 := EntryConfig(p, k, args, store);
    EntryIsConfig(p, b, k, args, store);
    var j, at, pos := StateIsConfig(p, image, b, s0, [], 0, n);
    var s := SourceRun(p, s0, j);
    FrameCount(p, b, s, at, pos);
    FramesAre(p, b, s, at, pos);
    var active := Funcs(s.callers + [s.cur]);
    CostOfFuncs(p.m, s.callers + [s.cur]);
    RemainingIs(p, b, s, at, pos);
  }

  lemma FramesAre(p: Program, b: Origin, s: Config, at: seq<nat>, pos: nat)
    requires ConfigOk(p, s, at, pos)
    ensures OpenFrames(p.m, |b.frames|, MachineOf(p, b, s, at, pos), Funcs(s.callers + [s.cur]))
  {
    hide FrameOk, StoreOk, ActiveCost, InCode, CallersOk;
    ReturnAddresses(p.m, b, s.callers, at, s.cur.func);
    FrameHasPc(p.m, s.cur, pos);
    PcInCode(p.m, s.cur, pos);
  }

  lemma FrameCount(p: Program, b: Origin, s: Config, at: seq<nat>, pos: nat)
    requires ConfigOk(p, s, at, pos)
    ensures s.Running?
    ensures
      var t := MachineOf(p, b, s, at, pos);
      |t.frames| == |b.frames| + |s.callers| + 1 && t.frames[..|b.frames|] == b.frames
  {
    hide FrameOk, StoreOk, ActiveCost, CallersOk;
    OriginKept(p.m, b, s.callers, at, s.cur.func);
  }

  lemma {:induction false} OriginKept(m: Module, b: Origin, callers: seq<Frame>, at: seq<nat>, callee: nat)
    requires WellSized(m) && CallersOk(m, callers, at, callee)
    ensures ActFrames(m, b, callers, at, callee)[..|b.frames|] == b.frames
    decreases |callers|
  {
    hide FrameOk, SegOk, Run;
    if callers != [] {
      var n := |callers| - 1;
      OriginKept(m, b, callers[..n], at[..n], callers[n].func);
      assert ActFrames(m, b, callers, at, callee)[..|b.frames|] ==
          ActFrames(m, b, callers[..n], at[..n], callers[n].func)[..|b.frames|];
    }
  }

  /** A step either stays in its frame, or opens one above it, or goes back to its caller. */
  predicate Stays(s: Config, s': Config) {
    s.Running? && s'.Running? && s'.callers == s.callers && s'.cur.func == s.cur.func
  }

  predicate Pushes(p: Program, s: Config, s': Config) {
    && s.Running? && s'.Running? && s.cur.labels != [] && s.cur.code.ICons?
    && s'.cur.func < |p.m.funcs|
    && exists n: nat | n <= |TopVals(s.cur)| ::
         s'.callers == s.callers + [Caller(s.cur, n)] && n + |p.m.funcs[s'.cur.func].ft.params| == |TopVals(s.cur)|
  }

  predicate Pops(s: Config, s': Config) {
    && s.Running? && s'.Running? && s.cur.labels != [] && s.callers != []
    && s.cur.code == INil && |s.cur.labels| == 1
    && s'.callers == s.callers[..|s.callers| - 1]
    && var caller := s.callers[|s.callers| - 1];
    && caller.labels != [] && s'.cur == SetTop(caller, TopVals(caller) + TopVals(s.cur))
  }

  lemma StepCallers(p: Program, s: Config)
    requires s.Running? && SourceStep(p, s).Running?
    ensures Stays(s, SourceStep(p, s)) || Pushes(p, s, SourceStep(p, s)) || Pops(s, SourceStep(p, s))
  {
    hide Pushes, Eval, HasTypes, ActiveCost;
    var code := s.cur.code;
    if code.ICons? && code.hd.Basic? && code.hd.t.Call? {
      CallPushes(p, s);
    }
  }

  lemma CallPushes(p: Program, s: Config)
    requires s.Running? && s.cur.labels != [] && s.cur.code.ICons? && s.cur.code.hd.Basic? && s.cur.code.hd.t.Call?
    requires SourceStep(p, s).Running?
    ensures Stays(s, SourceStep(p, s)) || Pushes(p, s, SourceStep(p, s))
  {
    hide HasTypes, ActiveCost, Zeros, Expand;
    CallSource(p, s);
    var f := s.cur.code.hd.t.func;
    var n := |TopVals(s.cur)| - |TypeOfFunc(p.m, f).value.params|;
    if f >= |p.m.imports| {
      assert SourceStep(p, s).callers == s.callers + [Caller(s.cur, n)];
    }
  }

  /** Each caller still holds the operands it had when it called, its arguments not counted. */
  ghost predicate Roomy(m: Module, callers: seq<Frame>, callee: nat)
    decreases |callers|
  {
    callers != [] ==>
      var n := |callers| - 1;
      && callee < |m.funcs| && callers[n].func < |m.funcs| && Accepts(m, m.funcs[callers[n].func])
      && |Vals(callers[n].labels)| + |m.funcs[callee].ft.params| + |Expand(m.funcs[callers[n].func].locals)|
         <= FuncStack(m, m.funcs[callers[n].func])
      && Roomy(m, callers[..n], callers[n].func)
  }

  lemma StepRoomy(p: Program, s: Config, at: seq<nat>, pos: nat)
    requires ConfigOk(p, s, at, pos) && SourceStep(p, s).Running? && Roomy(p.m, s.callers, s.cur.func)
    ensures Roomy(p.m, SourceStep(p, s).callers, SourceStep(p, s).cur.func)
  {
    hide FrameOk, CallersOk, StoreOk, ActiveCost, SourceStep, Accepts, FuncStack, SetTop, TopVals, Caller;
    StepCallers(p, s);
    var s' := SourceStep(p, s);
    if Pushes(p, s, s') {
      FrameBound(p.m, s.cur, pos);
      FrameHasPc(p.m, s.cur, pos);
      var n: nat :| n <= |TopVals(s.cur)| && s'.callers == s.callers + [Caller(s.cur, n)]
        && n + |p.m.funcs[s'.cur.func].ft.params| == |TopVals(s.cur)|;
      CallerShape(s.cur, n, []);
      CallerVals(s.cur, n);
      assert (s.callers + [Caller(s.cur, n)])[..|s.callers|] == s.callers;
    } else if Pops(s, s') {
      var caller := s.callers[|s.callers| - 1];
      ResumedShape(caller, TopVals(s.cur));
    }
  }

  lemma CallerVals(f: Frame, n: nat)
    requires f.labels != [] && n <= |TopVals(f)| && f.code.ICons?
    ensures |Vals(Caller(f, n).labels)| + |TopVals(f)| == |Vals(f.labels)| + n
  {
    ValsOfTop(f, TopVals(f)[..n]);
  }

  lemma {:induction false} RunRoomy(p: Program, image: Image, b: Origin, s: Config, at: seq<nat>, pos: nat, n: nat)
    requires ProgramOk(p) && ImageOk(p, image) && ConfigOk(p, s, at, pos) && Roomy(p.m, s.callers, s.cur.func)
    ensures SourceRun(p, s, n).Running? ==> Roomy(p.m, SourceRun(p, s, n).callers, SourceRun(p, s, n).cur.func)
    decreases n
  {
    hide ImageOk, ProgramOk, MStep, SourceStep, MachineOf, Measure, ConfigOk, Roomy;
    if n > 0 {
      var at', pos' := StepSimulated(p, image, b, s, at, pos);
      if SourceStep(p, s).Running? {
        StepRoomy(p, s, at, pos);
        RunRoomy(p, image, b, SourceStep(p, s), at', pos', n - 1);
      } else {
        HaltedStays(p, SourceStep(p, s), n - 1);
      }
    }
  }

  lemma {:induction false} MaximumStackIs(m: Module, k: nat, j: nat)
    requires AcceptsFirst(m, k) && j < k
    ensures FuncStack(m, m.funcs[j]) <= MaximumStack(m, k)
    decreases k
  {
    hide FuncStack, Accepts;
    if j < k - 1 {
      MaximumStackIs(m, k - 1, j);
    }
  }

  /** A stack of frames takes no more than the outermost function's arguments and one
      `maximum_stack` per frame, since a callee's arguments are operands of its caller. */
  lemma {:induction false} FramesBound(m: Module, callers: seq<Frame>, at: seq<nat>, callee: nat, entry: nat)
    requires WellSized(m) && AcceptsFirst(m, |m.funcs|) && CallersOk(m, callers, at, callee)
    requires Roomy(m, callers, callee) && entry == (if callers == [] then callee else callers[0].func)
    ensures entry < |m.funcs|
    ensures |Flat(callers)| + |m.funcs[callee].ft.params| <=
            |m.funcs[entry].ft.params| + |callers| * MaximumStack(m, |m.funcs|)
    decreases |callers|
  {
    hide FrameOk, SegOk, Run, Accepts, FuncStack, MaximumStack, AcceptsFirst, Vals, Flat;
    if callers == [] {
      assert Flat(callers) == [] by { FlatEmpty(); }
    } else {
      var n := |callers| - 1;
      var f := callers[n];
      assert callers == callers[..n] + [f];
      FlatGrows(callers[..n], f);
      if n > 0 {
        assert callers[..n][0] == callers[0];
      }
      FramesBound(m, callers[..n], at[..n], f.func, entry);
      MaximumStackIs(m, |m.funcs|, f.func);
      CallerLocals(m, f, at[n], ResultTypes(m.funcs[callee].ft.result));
      TimesNext(n, MaximumStack(m, |m.funcs|));
    }
  }

  lemma FlatEmpty()
    ensures Flat([]) == []
  {
  }

  lemma TimesNext(n: nat, x: nat)
    ensures (n + 1) * x == n * x + x
  {
  }

  lemma CallerLocals(m: Module, f: Frame, pos: nat, pending: seq<ValType>)
    requires FrameOk(m, f, pos, pending)
    ensures f.func < |m.funcs| && |f.locals| == |m.funcs[f.func].ft.params| + |Expand(m.funcs[f.func].locals)|
  {
    hide Run, Accepts, LabelsOk, SegsOk, TopOk, ContinuesAt;
  }

  lemma ConfigBound(p: Program, b: Origin, s: Config, at: seq<nat>, pos: nat, entry: nat)
    requires AcceptsFirst(p.m, |p.m.funcs|) && ConfigOk(p, s, at, pos) && Roomy(p.m, s.callers, s.cur.func)
    requires entry == (if s.callers == [] then s.cur.func else s.callers[0].func)
    ensures entry < |p.m.funcs|
    ensures
      var t := MachineOf(p, b, s, at, pos);
      |t.os| <= |b.os| + |p.m.funcs[entry].ft.params| + (|t.frames| - |b.frames|) * MaximumStack(p.m, |p.m.funcs|)
  {
    hide FrameOk, StoreOk, ActiveCost, CallersOk, ActFrames, FuncStack, MaximumStack, Accepts, Vals, Flat, Roomy;
    var max := MaximumStack(p.m, |p.m.funcs|);
    FrameHasPc(p.m, s.cur, pos);
    FrameCount(p, b, s, at, pos);
    FramesBound(p.m, s.callers, at, s.cur.func, entry);
    FrameBound(p.m, s.cur, pos);
    MaximumStackIs(p.m, |p.m.funcs|, s.cur.func);
    CallerLocals(p.m, s.cur, pos, []);
    TimesNext(|s.callers|, max);
  }

  /** The function `execute` was called with stays at the bottom. */
  lemma {:induction false} EntryStays(p: Program, s: Config, n: nat)
    requires s.Running? && SourceRun(p, s, n).Running?
    ensures
      var s' := SourceRun(p, s, n);
      (if s'.callers == [] then s'.cur.func else s'.callers[0].func) ==
        (if s.callers == [] then s.cur.func else s.callers[0].func)
    decreases n
  {
    hide SourceStep, SetTop, TopVals;
    if n > 0 {
      var s1 := SourceStep(p, s);
      if !s1.Running? {
        HaltedStays(p, s1, n - 1);
      }
      StepCallers(p, s);
      if Pushes(p, s, s1) {
        var k: nat :| k <= |TopVals(s.cur)| && s1.callers == s.callers + [Caller(s.cur, k)];
        CallerShape(s.cur, k, []);
      } else if Pops(s, s1) {
        ResumedShape(s.callers[|s.callers| - 1], TopVals(s.cur));
      }
      EntryStays(p, s1, n - 1);
    }
  }

  /** The resource bound: with `d` frames open the operand stack never grows past the entry
      arguments and `d` times `maximum_stack`. */
  lemma ResourceBound(p: Program, image: Image, b: Origin, k: nat, args: seq<Value>, store: Store, n: nat)
    requires EntryOk(p, k, args, store) && ImageOk(p, image)
    requires
      var r := MRun(p, image, EntryState(p, b, k, args, store), n);
      r.Next? && r.s.pc.At?
    ensures
      var t := MRun(p, image, EntryState(p, b, k, args, store), n).s;
      var d := |t.frames| - |b.frames|;
      d > 0 && |t.os| <= |b.os| + |args| + d * MaximumStack(p.m, |p.m.funcs|)
  {
    hide ImageOk, MachineOf, ConfigOk, MRun, AcceptsFirst, IsBody, Accepts, SourceRun, MaximumStack;
    var s0 := EntryConfig(p, k, args, store);
    EntryIsConfig(p, b, k, args, store);
    var j, at, pos := StateIsConfig(p, image, b, s0, [], 0, n);
    var s := SourceRun(p, s0, j);
    RunRoomy(p, image, b, s0, [], 0, j);
    FrameCount(p, b, s, at, pos);
    EntryStays(p, s0, j);
    CalleeFunc(p, k, args);
    ConfigBound(p, b, s, at, pos, k);
  }

  /** The callers below are those of `s0`. */
  predicate Within(s0: Config, s: Config) {
    && s0.Running? && s.Running?
    && |s0.callers| <= |s.callers| && s.callers[..|s0.callers|] == s0.callers
    && (if |s.callers| == |s0.callers| then s.cur.func else s.callers[|s0.callers|].func) == s0.cur.func
  }

  lemma StepWithin(p: Program, s0: Config, s: Config)
    requires Within(s0, s) && SourceStep(p, s).Running?
    ensures
      || Within(s0, SourceStep(p, s))
      || (s.callers == s0.callers && s.cur.func == s0.cur.func && Pops(s, SourceStep(p, s)))
  {
    hide SourceStep, SetTop, TopVals;
    StepCallers(p, s);
    var s' := SourceStep(p, s);
    var c := |s0.callers|;
    if Pushes(p, s, s') {
      var k: nat :| k <= |TopVals(s.cur)| && s'.callers == s.callers + [Caller(s.cur, k)];
      CallerShape(s.cur, k, []);
      assert s'.callers[..c] == s.callers[..c];
    } else if Pops(s, s') {
      ResumedShape(s.callers[|s.callers| - 1], TopVals(s.cur));
      if |s.callers| > c {
        assert s'.callers[..c] == s.callers[..c];
      } else {
        assert s.callers == s.callers[..c];
      }
    }
  }

  lemma {:induction false} FlatPrefix(callers: seq<Frame>, c: nat)
    requires c <= |callers|
    ensures Flat(callers[..c]) <= Flat(callers)
    decreases |callers|
  {
    if c < |callers| {
      assert callers[..|callers| - 1][..c] == callers[..c];
      FlatPrefix(callers[..|callers| - 1], c);
    } else {
      assert callers[..c] == callers;
    }
  }

  lemma WithinStack(p: Program, b: Origin, s0: Config, at0: seq<nat>, pos0: nat, s: Config, at: seq<nat>, pos: nat)
    requires ConfigOk(p, s0, at0, pos0) && ConfigOk(p, s, at, pos) && Within(s0, s)
    ensures
      var ms, t := MachineOf(p, b, s0, at0, pos0), MachineOf(p, b, s, at, pos);
      && |t.frames| >= |ms.frames|
      && ms.lastOpIndex <= |ms.os| && ms.lastOpIndex <= |t.os|
      && t.os[..ms.lastOpIndex] == ms.os[..ms.lastOpIndex] == b.os + Flat(s0.callers)
  {
    hide FrameOk, CallersOk, StoreOk, ActFrames, ActiveCost, CodePc, FrameStack, Flat;
    FlatPrefix(s.callers, |s0.callers|);
    var base := b.os + Flat(s0.callers);
    assert base <= b.os + Flat(s.callers);
  }

  /** No dispatch changes the frames below the last one, whatever the opcode. */
  lemma FramesStep(p: Program, image: Image, t: MState, d: nat)
    requires d <= |t.frames| && MStep(p, image, t).Next?
    ensures
      var t' := MStep(p, image, t).s;
      && |t.frames| - 1 <= |t'.frames| <= |t.frames| + 1
      && (d <= |t'.frames| ==> t'.frames[..d] == t.frames[..d])
      && (|t'.frames| < |t.frames| ==> t'.frames == t.frames[..|t.frames| - 1])
  {
    hide Eval, HasTypes, Zeros, Expand;
  }

  /** What the run of one frame leaves behind: the caller's program counter, frame base, budget
      and stack, with the arguments and locals replaced by a result of the declared type. */
  ghost predicate ReturnedFrom(p: Program, ms: MState, k: nat, t: MState) {
    && k < |p.m.funcs| && ms.frames != [] && ms.lastOpIndex <= |ms.os|
    && var af := ms.frames[|ms.frames| - 1];
    && t.pc == af.pc && t.lastOpIndex == af.lastOpIndex
    && t.frames == ms.frames[..|ms.frames| - 1]
    && t.remaining == ms.remaining + FrameCost(p.m, |p.m.imports| + k)
    && ms.lastOpIndex <= |t.os| && t.os[..ms.lastOpIndex] == ms.os[..ms.lastOpIndex]
    && HasTypes(t.os[ms.lastOpIndex..], ResultTypes(p.m.funcs[k].ft.result))
  }

  lemma ReturnIsolated(p: Program, image: Image, b: Origin, s0: Config, at0: seq<nat>, pos0: nat, s: Config,
      at: seq<nat>, pos: nat)
    requires ImageOk(p, image) && ConfigOk(p, s0, at0, pos0) && ConfigOk(p, s, at, pos) && Within(s0, s)
    requires s.callers == s0.callers && s.cur.code == INil && |s.cur.labels| == 1
    requires MachineOf(p, b, s, at, pos).frames == MachineOf(p, b, s0, at0, pos0).frames
    ensures
      var r := MStep(p, image, MachineOf(p, b, s, at, pos));
      r.Next? && ReturnedFrom(p, MachineOf(p, b, s0, at0, pos0), s0.cur.func, r.s)
  {
    hide FrameOk, CallersOk, StoreOk, ActFrames, ActiveCost, CodePc, FrameStack, Flat, MStep, ImageOk, FrameCost,
         HasTypes, ResultTypes;
    WithinStack(p, b, s0, at0, pos0, s, at, pos);
    Returned(p, image, b, s, at, pos);
    CostDependsOnFunc(p.m, s0.callers, s0.cur, s0.cur);
    FrameHasPc(p.m, s.cur, pos);
    var ms := MachineOf(p, b, s0, at0, pos0);
    var t := MStep(p, image, MachineOf(p, b, s, at, pos)).s;
    var base := b.os + Flat(s0.callers);
    assert t.os == base + TopVals(s.cur);
    assert t.os[|base|..] == TopVals(s.cur);
  }

  /** While the frames of `ms` and their callees run, nothing below the frame base of `ms`
      changes, and when its frame is gone it has returned. */
  lemma {:induction false} FrameIsolated(p: Program, image: Image, b: Origin, s0: Config, at0: seq<nat>, pos0: nat,
                                         s: Config, at: seq<nat>, pos: nat, n: nat)
    requires ProgramOk(p) && ImageOk(p, image) && ConfigOk(p, s0, at0, pos0) && ConfigOk(p, s, at, pos) && Within(s0, s)
    requires
      var ms, t := MachineOf(p, b, s0, at0, pos0), MachineOf(p, b, s, at, pos);
      |ms.frames| <= |t.frames| && t.frames[..|ms.frames|] == ms.frames
    requires MRun(p, image, MachineOf(p, b, s, at, pos), n).Next?
    requires
      var ms := MachineOf(p, b, s0, at0, pos0);
      forall j: nat :: j < n ==>
        var r := MRun(p, image, MachineOf(p, b, s, at, pos), j);
        r.Next? && |r.s.frames| >= |ms.frames|
    ensures
      var ms := MachineOf(p, b, s0, at0, pos0);
      var t := MRun(p, image, MachineOf(p, b, s, at, pos), n).s;
      && (|t.frames| >= |ms.frames| ==>
            ms.lastOpIndex <= |ms.os| && ms.lastOpIndex <= |t.os| && t.os[..ms.lastOpIndex] == ms.os[..ms.lastOpIndex])
      && (|t.frames| < |ms.frames| ==> ReturnedFrom(p, ms, s0.cur.func, t))
    decreases n, Measure(s)
  {
    hide ImageOk, ProgramOk, MStep, SourceStep, MachineOf, Measure, ConfigOk, Pops, ReturnedFrom, Within;
    var ms, t := MachineOf(p, b, s0, at0, pos0), MachineOf(p, b, s, at, pos);
    var d := |ms.frames|;
    RunningPc(p, b, s, at, pos);
    WithinStack(p, b, s0, at0, pos0, s, at, pos);
    if n > 0 {
      var at1, pos1 := StepSimulated(p, image, b, s, at, pos);
      var s1 := SourceStep(p, s);
      if s1.Running? && Silent(p, b, s, at, pos, s1, at1, pos1) {
        SilentWithin(p, image, b, s0, at0, pos0, s, at, pos, at1, pos1);
        FrameIsolated(p, image, b, s0, at0, pos0, s1, at1, pos1, n);
      } else {
        assert MRun(p, image, t, 1) == MStep(p, image, t) by { OneStep(p, image, t); }
        var t1 := MStep(p, image, t).s;
        FramesStep(p, image, t, d);
        forall j: nat | j < n - 1
          ensures
            var r := MRun(p, image, t1, j);
            r.Next? && |r.s.frames| >= d
        {
          assert MRun(p, image, t, j + 1) == MRun(p, image, t1, j);
        }
        DispatchWithin(p, image, b, s0, at0, pos0, s, at, pos, at1, pos1);
        if |t1.frames| >= d {
          FrameIsolated(p, image, b, s0, at0, pos0, s1, at1, pos1, n - 1);
        } else {
          assert n == 1;
        }
      }
    }
  }

  lemma OneStep(p: Program, image: Image, t: MState)
    requires t.pc.At?
    ensures MRun(p, image, t, 1) == MStep(p, image, t)
  {
    hide MStep;
    var r := MStep(p, image, t);
    if r.Next? {
      assert MRun(p, image, r.s, 0) == Next(r.s);
    }
  }

  lemma SilentWithin(p: Program, image: Image, b: Origin, s0: Config, at0: seq<nat>, pos0: nat,
                     s: Config, at: seq<nat>, pos: nat, at1: seq<nat>, pos1: nat)
    requires ImageOk(p, image) && ConfigOk(p, s0, at0, pos0) && ConfigOk(p, s, at, pos) && Within(s0, s)
    requires SourceStep(p, s).Running? && Silent(p, b, s, at, pos, SourceStep(p, s), at1, pos1)
    ensures Within(s0, SourceStep(p, s))
  {
    hide FrameOk, CallersOk, StoreOk, ActFrames, ActiveCost, ImageOk, SourceStep, Measure, Within, MachineOf;
    var s1 := SourceStep(p, s);
    StepWithin(p, s0, s);
    FrameCount(p, b, s, at, pos);
    FrameCount(p, b, s1, at1, pos1);
  }

  lemma DispatchWithin(p: Program, image: Image, b: Origin, s0: Config, at0: seq<nat>, pos0: nat,
                       s: Config, at: seq<nat>, pos: nat, at1: seq<nat>, pos1: nat)
    requires ImageOk(p, image) && ConfigOk(p, s0, at0, pos0) && ConfigOk(p, s, at, pos) && Within(s0, s)
    requires
      var ms, t := MachineOf(p, b, s0, at0, pos0), MachineOf(p, b, s, at, pos);
      |ms.frames| <= |t.frames| && t.frames[..|ms.frames|] == ms.frames
    requires Matches(p, image, b, s, at, pos, SourceStep(p, s), at1, pos1)
    requires SourceStep(p, s).Running? ==> !Silent(p, b, s, at, pos, SourceStep(p, s), at1, pos1)
    requires MStep(p, image, MachineOf(p, b, s, at, pos)).Next?
    ensures
      var ms, t1 := MachineOf(p, b, s0, at0, pos0), MStep(p, image, MachineOf(p, b, s, at, pos)).s;
      var s1 := SourceStep(p, s);
      && (|t1.frames| < |ms.frames| ==> ReturnedFrom(p, ms, s0.cur.func, t1))
      && (|t1.frames| >= |ms.frames| ==>
            s1.Running? && Within(s0, s1) && ConfigOk(p, s1, at1, pos1) && t1 == MachineOf(p, b, s1, at1, pos1))
  {
    hide FrameOk, CallersOk, StoreOk, ActFrames, ActiveCost, ImageOk, SourceStep, Measure, MStep, MachineOf,
         ReturnedFrom, SetTop;
    var s1 := SourceStep(p, s);
    FrameCount(p, b, s, at, pos);
    FrameCount(p, b, s0, at0, pos0);
    if s1.Running? {
      FrameCount(p, b, s1, at1, pos1);
      StepWithin(p, s0, s);
      if !Within(s0, s1) {
        ReturnIsolated(p, image, b, s0, at0, pos0, s, at, pos);
      }
    } else {
      FinishedReturns(p, s);
      ReturnIsolated(p, image, b, s0, at0, pos0, s, at, pos);
    }
  }

  /** The structured semantics finishes only by returning from its outermost frame. */
  lemma FinishedReturns(p: Program, s: Config)
    requires s.Running? && SourceStep(p, s).Finished?
    ensures s.callers == [] && s.cur.code == INil && |s.cur.labels| == 1
    ensures SourceStep(p, s).final == s.store
  {
    hide Eval, HasTypes, ActiveCost;
  }

  /** Whatever state a run has reached, as long as the frame that is open then has not returned
      nothing below its base changes; once it has, the caller finds its program counter, frame
      base, budget, locals and operands as they were, with the arguments replaced by the result. */
  lemma CalleeLeavesCaller(p: Program, image: Image, b: Origin, k: nat, args: seq<Value>, store: Store, i: nat, n: nat)
    requires EntryOk(p, k, args, store) && ImageOk(p, image)
    requires
      var r := MRun(p, image, EntryState(p, b, k, args, store), i);
      && r.Next? && r.s.pc.At?
      && MRun(p, image, r.s, n).Next?
      && forall j: nat :: j < n ==> MRun(p, image, r.s, j).Next? && |MRun(p, image, r.s, j).s.frames| >= |r.s.frames|
    ensures
      var ms := MRun(p, image, EntryState(p, b, k, args, store), i).s;
      var t := MRun(p, image, ms, n).s;
      && (|t.frames| >= |ms.frames| ==>
            ms.lastOpIndex <= |ms.os| && ms.lastOpIndex <= |t.os| && t.os[..ms.lastOpIndex] == ms.os[..ms.lastOpIndex])
      && (|t.frames| < |ms.frames| ==> exists f: nat :: ReturnedFrom(p, ms, f, t))
  {
    hide ImageOk, MachineOf, ConfigOk, MRun, AcceptsFirst, IsBody, HasTypes, SourceRun, ReturnedFrom;
    var s0 := EntryConfig(p, k, args, store);
    EntryIsConfig(p, b, k, args, store);
    var j, at, pos := StateIsConfig(p, image, b, s0, [], 0, i);
    var s := SourceRun(p, s0, j);
    RunningConfig(p, s, at, pos);
    var ms := MachineOf(p, b, s, at, pos);
    assert ms.frames[..|ms.frames|] == ms.frames;
    FrameIsolated(p, image, b, s, at, pos, s, at, pos, n);
    var t := MRun(p, image, ms, n).s;
    if |t.frames| < |ms.frames| {
      assert ReturnedFrom(p, ms, s.cur.func, t);
    }
  }
}

/** Compilation preserves meaning: the interpreter running the flat code of an accepted module
    gives the result, the trap or the divergence of the structured semantics. */
module Correctness {
  import opened Wasm
  import opened Validator
  import opened Source
  import opened Machine
  import opened Nesting
  import opened Frames
  import opened FrameOps
  import opened ModuleWriter
  import opened Layout
  import opened Simulation
  import opened Calls

  /** How a halted run of the structured semantics shows in the machine. */
  function Outcome(p: Program, b: Origin, s: Config): Result
    requires Halted(s)
  {
    match s
    case Finished(results, store) => Next(ExitState(p, b, results, store))
    case Aborted => MTrap
    case Exited(store) => MExit(store)
    case GoesWrong => MStuck
  }

  /** The machine has nothing left to do. */
  predicate Final(r: Result) {
    r.Next? ==> r.s.pc.Halt?
  }

  /** What a step of the structured semantics is in the machine. */
  ghost predicate Matches(p: Program, image: Image, b: Origin, s: Config, at: seq<nat>, pos: nat, s': Config,
      at': seq<nat>, pos': nat)
  {
    && ConfigOk(p, s, at, pos)
    && if s'.Running?
       then Dispatched(p, image, b, s, at, pos, s', at', pos') || Silent(p, b, s, at, pos, s', at', pos')
       else !s'.GoesWrong? && MStep(p, image, MachineOf(p, b, s, at, pos)) == Outcome(p, b, s')
  }

  /** The central step: the structured semantics never goes wrong, and the machine follows it. */
  lemma StepSimulated(p: Program, image: Image, b: Origin, s: Config, at: seq<nat>, pos: nat)
    returns (at': seq<nat>, pos': nat)
    requires ProgramOk(p) && ImageOk(p, image) && ConfigOk(p, s, at, pos)
    ensures Matches(p, image, b, s, at, pos, SourceStep(p, s), at', pos')
  {
    hide FrameOk, CallersOk, StoreOk, ActFrames, ActiveCost, ImageOk, ProgramOk, CodePc, MStep, SourceStep, MachineOf,
         Measure;
    at', pos' := at, pos + 1;
    if s.cur.code == INil {
      FrameHasPc(p.m, s.cur, pos);
      if |s.cur.labels| > 1 {
        pos' := SimExit(p, image, b, s, at, pos);
      } else if s.callers == [] {
        SimLastReturn(p, image, b, s, at, pos);
      } else {
        at', pos' := SimReturn(p, image, b, s, at, pos);
      }
    } else if s.cur.code.hd.Basic? {
      at', pos' := BasicSimulated(p, image, b, s, at, pos);
    } else if s.cur.code.hd.IfI? {
      pos' := SimIf(p, image, b, s, at, pos);
    } else {
      SimEnter(p, image, b, s, at, pos);
    }
  }

  lemma BasicSimulated(p: Program, image: Image, b: Origin, s: Config, at: seq<nat>, pos: nat)
    returns (at': seq<nat>, pos': nat)
    requires ProgramOk(p) && ImageOk(p, image) && ConfigOk(p, s, at, pos)
    requires s.cur.code.ICons? && s.cur.code.hd.Basic?
    ensures Matches(p, image, b, s, at, pos, SourceStep(p, s), at', pos')
  {
    hide FrameOk, CallersOk, StoreOk, ActFrames, ActiveCost, ImageOk, ProgramOk, CodePc, MStep, SourceStep, MachineOf,
         Measure;
    at', pos' := at, pos + 1;
    AtToken(p.m, s.cur, pos);
    match s.cur.code.hd.t
    case Plain(_) => pos' := SimPlain(p, image, b, s, at, pos);
    case Unreachable => SimUnreachable(p, image, b, s, at, pos);
    case Drop => SimStack(p, image, b, s, at, pos);
    case Select => SimStack(p, image, b, s, at, pos);
    case LocalGet(_) => SimLocalGet(p, image, b, s, at, pos);
    case LocalSet(_) => SimLocalWrite(p, image, b, s, at, pos);
    case LocalTee(_) => SimLocalWrite(p, image, b, s, at, pos);
    case Br(_) => pos' := SimBranch(p, image, b, s, at, pos);
    case Return => pos' := SimBranch(p, image, b, s, at, pos);
    case BrIf(_) => pos' := SimBrIf(p, image, b, s, at, pos);
    case BrTable(_, _) => pos' := SimBrTable(p, image, b, s, at, pos);
    case Call(f) =>
      if f < |p.m.imports| {
        SimHostCall(p, image, b, s, at, pos);
      } else {
        SimWasmCall(p, image, b, s, at, pos);
        at', pos' := at + [pos + 1], 0;
      }
    case _ =>
  }

  lemma {:induction false} HaltedStays(p: Program, s: Config, n: nat)
    requires Halted(s)
    ensures SourceRun(p, s, n) == s
    decreases n
  {
    if n > 0 {
      HaltedStays(p, s, n - 1);
    }
  }

  lemma {:induction false} FinalStays(p: Program, image: Image, ms: MState, n: nat, k: nat)
    requires n <= k && Final(MRun(p, image, ms, n))
    ensures MRun(p, image, ms, k) == MRun(p, image, ms, n)
    decreases n
  {
    hide MStep;
    if n > 0 && ms.pc.At? && MStep(p, image, ms).Next? {
      FinalStays(p, image, MStep(p, image, ms).s, n - 1, k - 1);
    }
  }

  /** A run that halts is matched by the machine in no more steps. */
  lemma {:induction false} RunSimulated(p: Program, image: Image, b: Origin, s: Config, at: seq<nat>, pos: nat, n: nat)
    requires ProgramOk(p) && ImageOk(p, image) && ConfigOk(p, s, at, pos)
    ensures
      var s' := SourceRun(p, s, n);
      && !s'.GoesWrong?
      && (Halted(s') ==> MRun(p, image, MachineOf(p, b, s, at, pos), n) == Outcome(p, b, s'))
    decreases n
  {
    hide ImageOk, ProgramOk, MStep, SourceStep, MachineOf, Measure, ConfigOk;
    assert s.Running? by { RunningConfig(p, s, at, pos); }
    if n > 0 {
      var at', pos' := StepSimulated(p, image, b, s, at, pos);
      var s' := SourceStep(p, s);
      var ms := MachineOf(p, b, s, at, pos);
      assert ms.pc.At? by { RunningPc(p, b, s, at, pos); }
      if s'.Running? {
        RunSimulated(p, image, b, s', at', pos', n - 1);
        if Halted(SourceRun(p, s', n - 1)) {
          FinalStays(p, image, MachineOf(p, b, s', at', pos'), n - 1, n);
        }
      } else {
        HaltedStays(p, s', n - 1);
      }
    }
  }

  lemma RunningConfig(p: Program, s: Config, at: seq<nat>, pos: nat)
    requires ConfigOk(p, s, at, pos)
    ensures s.Running?
  {
  }

  lemma RunningPc(p: Program, b: Origin, s: Config, at: seq<nat>, pos: nat)
    requires ConfigOk(p, s, at, pos)
    ensures MachineOf(p, b, s, at, pos).pc.At?
  {
  }

  /** Conversely a machine run that halts is a run of the structured semantics that halts. */
  lemma {:induction false} RunReflected(p: Program, image: Image, b: Origin, s: Config, at: seq<nat>, pos: nat, n: nat)
    returns (k: nat)
    requires ProgramOk(p) && ImageOk(p, image) && ConfigOk(p, s, at, pos)
    requires Final(MRun(p, image, MachineOf(p, b, s, at, pos), n))
    ensures Halted(SourceRun(p, s, k))
    decreases n, Measure(s)
  {
    hide ImageOk, ProgramOk, MStep, SourceStep, MachineOf, Measure, ConfigOk;
    RunningConfig(p, s, at, pos);
    RunningPc(p, b, s, at, pos);
    var at', pos' := StepSimulated(p, image, b, s, at, pos);
    var s' := SourceStep(p, s);
    k := 0;
    if s'.Running? {
      if Silent(p, b, s, at, pos, s', at', pos') {
        k := RunReflected(p, image, b, s', at', pos', n);
      } else {
        k := RunReflected(p, image, b, s', at', pos', n - 1);
      }
    }
    k := k + 1;
  }

  /** A call of function `k` from outside, as `execute` starts it. */
  ghost predicate EntryOk(p: Program, k: nat, args: seq<Value>, store: Store) {
    && ProgramOk(p)
    && k < |p.m.funcs|
    && HasTypes(args, p.m.funcs[k].ft.params)
    && StoreOk(p.m.globals, store)
    && FrameCost(p.m, |p.m.imports| + k) <= p.limit
  }

  function EntryConfig(p: Program, k: nat, args: seq<Value>, store: Store): Config
    requires k < |p.bodies| && k < |p.m.funcs|
  {
    Running([], Activate(p, k, args), store)
  }

  /** The machine once the arguments are pushed and the first frame is open. */
  function EntryState(p: Program, b: Origin, k: nat, args: seq<Value>, store: Store): MState
    requires WellSized(p.m) && k < |p.m.funcs| && FrameCost(p.m, |p.m.imports| + k) <= p.limit
  {
    MState(
      At(Base(p.m, k)),
      b.os + args + Zeros(Expand(p.m.funcs[k].locals)),
      b.frames + [ActivationFrame(Halt, b.lastOpIndex)],
      |b.os|,
      p.limit - FrameCost(p.m, |p.m.imports| + k),
      store)
  }

  lemma EntryIsConfig(p: Program, b: Origin, k: nat, args: seq<Value>, store: Store)
    requires EntryOk(p, k, args, store)
    ensures ConfigOk(p, EntryConfig(p, k, args, store), [], 0)
    ensures MachineOf(p, b, EntryConfig(p, k, args, store), [], 0) == EntryState(p, b, k, args, store)
  {
    hide FrameOk, StoreOk, AcceptsFirst, IsBody, Accepts, HasTypes, FrameCost, ActiveCost, CodePc, Zeros, Expand,
         Activate, FrameStack;
    assert AcceptsFirst(p.m, |p.m.funcs|);
    assert Accepts(p.m, p.m.funcs[k]) by { AcceptsEach(p.m, k); }
    var f := Activate(p, k, args);
    Fresh(p, k, args);
    CalleeFunc(p, k, args);
    FreshStack(p, k, args);
    StartsAtBase(p.m, f);
    CostDependsOnFunc(p.m, [], f, f);
    NoCost(p.m);
    assert b.os + Flat([]) + FrameStack(f) == b.os + args + Zeros(Expand(p.m.funcs[k].locals));
  }

  lemma AcceptsEach(m: Module, k: nat)
    requires AcceptsFirst(m, |m.funcs|) && k < |m.funcs|
    ensures Accepts(m, m.funcs[k])
  {
  }

  lemma NoCost(m: Module)
    ensures ActiveCost(m, []) == 0
  {
  }

  /** Compilation preserves meaning. For any accepted module, arguments, store and whatever is on
      the stacks already, the machine started on the flat code of a function comes to a halt with
      outcome `r` exactly when the structured semantics of that function does. */
  lemma CompilationPreservesMeaning(p: Program, image: Image, b: Origin, k: nat, args: seq<Value>, store: Store,
      r: Result)
    requires EntryOk(p, k, args, store) && ImageOk(p, image) && Final(r)
    ensures
      (exists n :: MRun(p, image, EntryState(p, b, k, args, store), n) == r)
      <==>
      (exists n :: Halted(SourceRun(p, EntryConfig(p, k, args, store), n)) &&
        Outcome(p, b, SourceRun(p, EntryConfig(p, k, args, store), n)) == r)
  {
    hide ImageOk, MachineOf, ConfigOk, SourceRun, MRun, AcceptsFirst, IsBody, HasTypes;
    var s0 := EntryConfig(p, k, args, store);
    var m0 := EntryState(p, b, k, args, store);
    EntryIsConfig(p, b, k, args, store);
    if n :| MRun(p, image, m0, n) == r {
      var j := RunReflected(p, image, b, s0, [], 0, n);
      RunSimulated(p, image, b, s0, [], 0, j);
      FinalAgree(p, image, m0, n, j);
      assert Halted(SourceRun(p, s0, j)) && Outcome(p, b, SourceRun(p, s0, j)) == r;
    }
    if n :| Halted(SourceRun(p, s0, n)) && Outcome(p, b, SourceRun(p, s0, n)) == r {
      RunSimulated(p, image, b, s0, [], 0, n);
    }
  }

  lemma FinalAgree(p: Program, image: Image, ms: MState, n: nat, k: nat)
    requires Final(MRun(p, image, ms, n)) && Final(MRun(p, image, ms, k))
    ensures MRun(p, image, ms, k) == MRun(p, image, ms, n)
  {
    if n <= k {
      FinalStays(p, image, ms, n, k);
    } else {
      FinalStays(p, image, ms, k, n);
    }
  }

  /** The interpreter, which checks nothing, never misses or misreads an operand, never leaves
      the code, and never dispatches a slot of branch table data. */
  lemma NeverStuck(p: Program, image: Image, b: Origin, k: nat, args: seq<Value>, store: Store, n: nat)
    requires EntryOk(p, k, args, store) && ImageOk(p, image)
    ensures !MRun(p, image, EntryState(p, b, k, args, store), n).MStuck?
  {
    hide ImageOk, MachineOf, ConfigOk, SourceRun, MRun, AcceptsFirst, IsBody, HasTypes;
    var s0 := EntryConfig(p, k, args, store);
    var m0 := EntryState(p, b, k, args, store);
    EntryIsConfig(p, b, k, args, store);
    if MRun(p, image, m0, n).MStuck? {
      var j := RunReflected(p, image, b, s0, [], 0, n);
      RunSimulated(p, image, b, s0, [], 0, j);
      FinalAgree(p, image, m0, n, j);
    }
  }

  /** Divergence: one side runs forever exactly when the other does. */
  lemma DivergencePreserved(p: Program, image: Image, b: Origin, k: nat, args: seq<Value>, store: Store)
    requires EntryOk(p, k, args, store) && ImageOk(p, image)
    ensures
      (forall n :: !Final(MRun(p, image, EntryState(p, b, k, args, store), n)))
      <==>
      (forall n :: !Halted(SourceRun(p, EntryConfig(p, k, args, store), n)))
  {
    hide ImageOk, MachineOf, ConfigOk, SourceRun, MRun, AcceptsFirst, IsBody, HasTypes;
    var s0 := EntryConfig(p, k, args, store);
    var m0 := EntryState(p, b, k, args, store);
    EntryIsConfig(p, b, k, args, store);
    if n :| Final(MRun(p, image, m0, n)) {
      var j := RunReflected(p, image, b, s0, [], 0, n);
    }
    if n :| Halted(SourceRun(p, s0, n)) {
      RunSimulated(p, image, b, s0, [], 0, n);
    }
  }
}

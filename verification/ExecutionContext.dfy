/** The interpreter as an object: its stacks, program counter, frame base and budget are changed
    in place by every opcode. Each method is proved to do what the abstract machine does. */
module ExecutionContext {
  import opened Wasm
  import opened Validator
  import opened Bytecode
  import opened Source
  import opened Machine
  import opened ModuleWriter
  import opened Frames
  import opened FrameOps
  import opened Layout
  import opened Correctness
  import opened Calls
  import Stack
  import Soundness
  import Simulation

  datatype Status = Continues | Throws | Exits

  /** What a call of `execute` gives its caller. `Interrupted` stands for an asynchronous abort
      after the given number of dispatches. */
  datatype ExecuteResult = Returned(result: Option<Value>) | ExitCalled | Threw | Interrupted

  function WithLimit(p: Program, limit: nat): Program {
    p.(limit := limit)
  }

  /** The limit only says what budget a run starts with. */
  lemma LimitUnused(p: Program, image: Image, s: MState, limit: nat)
    ensures MStep(WithLimit(p, limit), image, s) == MStep(p, image, s)
  {
  }

  lemma {:induction false} RunLimitUnused(p: Program, image: Image, s: MState, limit: nat, n: nat)
    ensures MRun(WithLimit(p, limit), image, s, n) == MRun(p, image, s, n)
    decreases n
  {
    hide MStep;
    LimitUnused(p, image, s, limit);
    if n > 0 && s.pc.At? && MStep(p, image, s).Next? {
      RunLimitUnused(p, image, MStep(p, image, s).s, limit, n - 1);
    }
  }

  lemma WithLimitOk(p: Program, image: Image, limit: nat)
    requires ProgramOk(p) && ImageOk(p, image)
    ensures ProgramOk(WithLimit(p, limit)) && ImageOk(WithLimit(p, limit), image)
  {
    hide AcceptsFirst, IsBody, ModuleCode;
  }

  lemma ZerosOf(e: seq<LocalEntry>, i: nat, j: nat)
    requires i < |e| && j < e[i].count
    ensures Zeros(Expand(e[..i]) + Repeat(e[i].valType, j + 1)) ==
            Zeros(Expand(e[..i]) + Repeat(e[i].valType, j)) + [Zero(e[i].valType)]
  {
  }

  lemma ZerosNext(e: seq<LocalEntry>, i: nat)
    requires i < |e|
    ensures Expand(e[..i]) + Repeat(e[i].valType, e[i].count) == Expand(e[..i + 1])
    ensures Expand(e[..i]) + Repeat(e[i].valType, 0) == Expand(e[..i])
  {
    assert e[..i + 1][..i] == e[..i];
  }

  /** One more slot for each type in `ts`, with the number 0 of that type, on top of those before. */
  predicate BeginAtZero(ts: seq<ValType>, before: seq<Value>, after: seq<Value>) {
    && |after| == |before| + |ts| && after[..|before|] == before
    && forall i {:trigger ts[i]} :: 0 <= i < |ts| ==>
         match ts[i]
         case I32 => after[|before| + i] == VI32(0)
         case I64 => after[|before| + i] == VI64(0)
         case F32 => after[|before| + i] == VF32(0)
         case F64 => after[|before| + i] == VF64(0)
  }

  lemma ZerosBegin(ts: seq<ValType>, before: seq<Value>)
    ensures BeginAtZero(ts, before, before + Zeros(ts))
  {
    hide Zeros;
  }

  /** Running in two parts. */
  lemma {:induction false} RunSplit(p: Program, image: Image, s: MState, i: nat, j: nat)
    requires MRun(p, image, s, i).Next?
    ensures MRun(p, image, s, i + j) == MRun(p, image, MRun(p, image, s, i).s, j)
    decreases i
  {
    hide MStep;
    if s.pc.Halt? {
    } else if i > 0 {
      RunSplit(p, image, MStep(p, image, s).s, i - 1, j);
    }
  }

  /** What a run of at most `fuel` dispatches leaves behind. A throw or an exit happens in the
      state reached after `steps` dispatches. */
  ghost predicate RunDone(p: Program, image: Image, s: MState, fuel: nat, steps: nat, status: Status, s': MState) {
    var r := MRun(p, image, s, fuel);
    var t := MRun(p, image, s, steps);
    && steps <= fuel
    && (status.Continues? ==> r == Next(s'))
    && (status.Throws? ==> r == MTrap && t == Next(s') && s'.pc.At?)
    && (status.Exits? ==> r.MExit? && t.Next? && t.s.pc.At? && s' == t.s.(pc := Halt, store := r.final))
  }

  /** The stacks still hold what they held when `execute` began. */
  predicate Holds(b: Origin, t: MState) {
    && |b.os| <= |t.os| && t.os[..|b.os|] == b.os
    && |b.frames| <= |t.frames| && t.frames[..|b.frames|] == b.frames
  }

  /** The machine state `execute` starts from. */
  ghost predicate Entered(p: Program, image: Image, b: Origin, k: nat, args: seq<Value>, store: Store, m0: MState) {
    EntryOk(p, k, args, store) && ImageOk(p, image) && m0 == EntryState(p, b, k, args, store)
  }

  /** Whatever happens, what was on the stacks when `execute` began is still there. */
  lemma OriginIntact(p: Program, image: Image, b: Origin, k: nat, args: seq<Value>, store: Store, m0: MState, n: nat,
      t: MState)
    requires Entered(p, image, b, k, args, store, m0)
    requires MRun(p, image, m0, n) == Next(t) && t.pc.At?
    ensures Holds(b, t)
  {
    hide ImageOk, ConfigOk, MRun, AcceptsFirst, IsBody, HasTypes, SourceRun, ActFrames, FrameStack;
    var s0 := EntryConfig(p, k, args, store);
    EntryIsConfig(p, b, k, args, store);
    var j, at, pos := Soundness.StateIsConfig(p, image, b, s0, [], 0, n);
    var s := SourceRun(p, s0, j);
    Soundness.FrameCount(p, b, s, at, pos);
    assert t.os == b.os + (Flat(s.callers) + FrameStack(s.cur));
  }

  /** What the caller of `execute` may conclude about the structured semantics of the function. */
  ghost predicate ExecuteMeans(p: Program, k: nat, args: seq<Value>, store: Store, fuel: nat, r: ExecuteResult,
      store': Store)
  {
    k < |p.m.funcs| && k < |p.bodies| &&
    var s0 := EntryConfig(p, k, args, store);
    match r
    case Returned(result) =>
      exists n: nat, results: seq<Value> ::
        && SourceRun(p, s0, n) == Finished(results, store')
        && results == (if result.Some? then [result.value] else [])
        && HasTypes(results, ResultTypes(p.m.funcs[k].ft.result))
    case ExitCalled => exists n: nat :: SourceRun(p, s0, n) == Exited(store')
    case Threw => exists n: nat :: SourceRun(p, s0, n) == Aborted
    case Interrupted => forall n: nat :: n <= fuel ==> !Halted(SourceRun(p, s0, n))
  }

  /** The same for a function of the host, called directly. */
  predicate HostMeans(p: Program, f: nat, args: seq<Value>, store: Store, r: ExecuteResult, store': Store)
    requires f < |p.m.imports|
  {
    match p.host(f, args, store)
    case HostTrap => r == Threw && store' == store
    case HostExit(st) => r == ExitCalled && store' == st
    case HostReturn(bits, st) =>
      var result := p.m.imports[f].result;
      r == Returned(if result.Some? then Some(FromBits(result.value, bits)) else None) && store' == st
  }

  /** A function that finishes gives a result of its declared type, and leaves globals of their
      declared types, as a host that calls it must. */
  lemma {:induction false} ResultsTyped(p: Program, image: Image, s: Config, at: seq<nat>, pos: nat, n: nat)
    requires ProgramOk(p) && ImageOk(p, image) && ConfigOk(p, s, at, pos) && SourceRun(p, s, n).Finished?
    ensures s.Running?
    ensures
      var entry := if s.callers == [] then s.cur.func else s.callers[0].func;
      entry < |p.m.funcs| && HasTypes(SourceRun(p, s, n).results, ResultTypes(p.m.funcs[entry].ft.result))
    ensures StoreOk(p.m.globals, SourceRun(p, s, n).final)
    decreases n
  {
    hide ImageOk, ProgramOk, MStep, SourceStep, MachineOf, Simulation.Measure, FrameOk, CallersOk, StoreOk, ActiveCost,
         HasTypes, ResultTypes;
    var b := Origin([], [], 0);
    var at', pos' := StepSimulated(p, image, b, s, at, pos);
    var s' := SourceStep(p, s);
    if s'.Running? {
      ResultsTyped(p, image, s', at', pos', n - 1);
      assert SourceRun(p, s, 1) == s' by { assert SourceRun(p, s', 0) == s'; }
      Soundness.EntryStays(p, s, 1);
    } else {
      HaltedStays(p, s', n - 1);
      Soundness.FinishedReturns(p, s);
      Simulation.FrameHasPc(p.m, s.cur, pos);
      SimLastReturn(p, image, b, s, at, pos);
    }
  }

  function ResultOf(ft: FuncType, status: Status, t: MState): ExecuteResult
  {
    match status
    case Throws => Threw
    case Exits => ExitCalled
    case Continues =>
      if t.pc.At? then Interrupted
      else if ft.result.Some? && t.os != [] then Returned(Some(t.os[|t.os| - 1]))
      else Returned(None)
  }

  /** The halt opcode is reached with just the result on top of what was there before. */
  lemma HaltMeans(p: Program, image: Image, b: Origin, k: nat, args: seq<Value>, store: Store, m0: MState, fuel: nat,
      t: MState)
    requires Entered(p, image, b, k, args, store, m0)
    requires MRun(p, image, m0, fuel) == Next(t) && t.pc.Halt?
    ensures k < |p.m.funcs| && Holds(b, t) && (p.m.funcs[k].ft.result.Some? ==> t.os != [])
    ensures ExecuteMeans(p, k, args, store, fuel, ResultOf(p.m.funcs[k].ft, Continues, t), t.store)
  {
    hide *;
    var n, results := HaltedRun(p, image, b, k, args, store, m0, fuel, t);
    Halting(p, b, k, results, t);
    ReturnsMean(p, k, args, store, fuel, n, results, t.store);
  }

  /** The run of the structured semantics behind it, with its typed result. */
  lemma HaltedRun(p: Program, image: Image, b: Origin, k: nat, args: seq<Value>, store: Store, m0: MState, fuel: nat,
      t: MState)
    returns (n: nat, results: seq<Value>)
    requires Entered(p, image, b, k, args, store, m0)
    requires MRun(p, image, m0, fuel) == Next(t) && t.pc.Halt?
    ensures k < |p.m.funcs| && k < |p.bodies|
    ensures SourceRun(p, EntryConfig(p, k, args, store), n) == Finished(results, t.store)
    ensures t == ExitState(p, b, results, t.store) && HasTypes(results, ResultTypes(p.m.funcs[k].ft.result))
  {
    hide ImageOk, ConfigOk, MRun, AcceptsFirst, IsBody, SourceRun, EntryConfig, EntryState, StoreOk, HasTypes,
         FrameCost, ResultTypes, HostKeeps, WellSized;
    CompilationPreservesMeaning(p, image, b, k, args, store, Next(t));
    var s0 := EntryConfig(p, k, args, store);
    n :| Halted(SourceRun(p, s0, n)) && Correctness.Outcome(p, b, SourceRun(p, s0, n)) == Next(t);
    results := SourceRun(p, s0, n).results;
    EntryIsConfig(p, b, k, args, store);
    ResultsTyped(p, image, s0, [], 0, n);
    EntryFunc(p, k, args, store);
  }

  lemma ReturnsMean(p: Program, k: nat, args: seq<Value>, store: Store, fuel: nat, n: nat, results: seq<Value>,
      store': Store)
    requires k < |p.m.funcs| && k < |p.bodies| && |results| <= 1
    requires SourceRun(p, EntryConfig(p, k, args, store), n) == Finished(results, store')
    requires HasTypes(results, ResultTypes(p.m.funcs[k].ft.result))
    ensures ExecuteMeans(p, k, args, store, fuel, Returned(if results == [] then None else Some(results[0])), store')
  {
    hide SourceRun, EntryConfig, HasTypes, ResultTypes;
    assert results == if results == [] then [] else [results[0]];
  }

  lemma Halting(p: Program, b: Origin, k: nat, results: seq<Value>, t: MState)
    requires k < |p.m.funcs| && HasTypes(results, ResultTypes(p.m.funcs[k].ft.result))
    requires t == ExitState(p, b, results, t.store)
    ensures Holds(b, t) && (p.m.funcs[k].ft.result.Some? ==> t.os != [])
    ensures ResultOf(p.m.funcs[k].ft, Continues, t) == Returned(if results == [] then None else Some(results[0]))
    ensures |results| <= 1
  {
  }

  lemma EntryFunc(p: Program, k: nat, args: seq<Value>, store: Store)
    requires k < |p.bodies| && k < |p.m.funcs|
    ensures EntryConfig(p, k, args, store).callers == [] && EntryConfig(p, k, args, store).cur.func == k
  {
  }

  lemma AbortMeans(p: Program, image: Image, b: Origin, k: nat, args: seq<Value>, store: Store, m0: MState, fuel: nat,
      r: Result, store': Store)
    requires Entered(p, image, b, k, args, store, m0)
    requires MRun(p, image, m0, fuel) == r && (r.MTrap? || r == MExit(store'))
    ensures ExecuteMeans(p, k, args, store, fuel, if r.MTrap? then Threw else ExitCalled, store')
  {
    hide ImageOk, ConfigOk, MRun, AcceptsFirst, IsBody, SourceRun, EntryConfig, EntryState, HasTypes, StoreOk,
         FrameCost;
    CompilationPreservesMeaning(p, image, b, k, args, store, r);
    var s0 := EntryConfig(p, k, args, store);
    var n: nat :| Halted(SourceRun(p, s0, n)) && Correctness.Outcome(p, b, SourceRun(p, s0, n)) == r;
    assert SourceRun(p, s0, n) == if r.MTrap? then Aborted else Exited(store');
  }

  lemma InterruptMeans(p: Program, image: Image, b: Origin, k: nat, args: seq<Value>, store: Store, m0: MState,
      fuel: nat, store': Store)
    requires Entered(p, image, b, k, args, store, m0)
    requires !Final(MRun(p, image, m0, fuel))
    ensures ExecuteMeans(p, k, args, store, fuel, Interrupted, store')
  {
    hide ImageOk, ConfigOk, MRun, AcceptsFirst, IsBody, SourceRun, HasTypes;
    var s0 := EntryConfig(p, k, args, store);
    EntryIsConfig(p, b, k, args, store);
    forall n: nat | n <= fuel
      ensures !Halted(SourceRun(p, s0, n))
    {
      if Halted(SourceRun(p, s0, n)) {
        RunSimulated(p, image, b, s0, [], 0, n);
        FinalStays(p, image, m0, n, fuel);
      }
    }
  }

  lemma EntryFacts(p: Program, image: Image, limit: nat, k: nat, args: seq<Value>, store: Store)
    requires ProgramOk(p) && ImageOk(p, image) && k < |p.m.funcs|
    ensures WellSized(p.m) && k < |image.starts| == |p.m.funcs| == |p.bodies| && image.starts[k] == Base(p.m, k)
    ensures ProgramOk(WithLimit(p, limit)) && ImageOk(WithLimit(p, limit), image)
    ensures
      StoreOk(p.m.globals, store) && HasTypes(args, p.m.funcs[k].ft.params) &&
        FrameCost(p.m, |p.m.imports| + k) <= limit ==>
      EntryOk(WithLimit(p, limit), k, args, store)
    ensures HasTypes(args, p.m.funcs[k].ft.params) ==> |args| == |p.m.funcs[k].ft.params|
  {
    hide AcceptsFirst, IsBody, ModuleCode;
    WithLimitOk(p, image, limit);
  }

  lemma ExecuteSafe(p: Program, image: Image, b: Origin, k: nat, args: seq<Value>, store: Store, m0: MState, fuel: nat)
    requires Entered(p, image, b, k, args, store, m0)
    ensures !MRun(p, image, m0, fuel).MStuck?
  {
    hide ImageOk, MRun, EntryState, AcceptsFirst, IsBody;
    NeverStuck(p, image, b, k, args, store, fuel);
  }

  /** However the run ended, the stacks can be cut back, and the result means what it should. */
  lemma Ending(p: Program, image: Image, b: Origin, k: nat, args: seq<Value>, store: Store, m0: MState,
               fuel: nat, steps: nat, status: Status, t: MState)
    requires Entered(p, image, b, k, args, store, m0)
    requires RunDone(p, image, m0, fuel, steps, status, t)
    ensures k < |p.m.funcs| && Holds(b, t) &&
            (status.Continues? && t.pc.Halt? && p.m.funcs[k].ft.result.Some? ==> t.os != [])
    ensures ExecuteMeans(p, k, args, store, fuel, ResultOf(p.m.funcs[k].ft, status, t), t.store)
  {
    hide ImageOk, MRun, EntryState, AcceptsFirst, IsBody, ExecuteMeans, HasTypes, StoreOk;
    match status
    case Continues =>
      if t.pc.At? {
        OriginIntact(p, image, b, k, args, store, m0, fuel, t);
        InterruptMeans(p, image, b, k, args, store, m0, fuel, t.store);
      } else {
        HaltMeans(p, image, b, k, args, store, m0, fuel, t);
      }
    case Throws =>
      OriginIntact(p, image, b, k, args, store, m0, steps, t);
      AbortMeans(p, image, b, k, args, store, m0, fuel, MRun(p, image, m0, fuel), t.store);
    case Exits =>
      OriginIntact(p, image, b, k, args, store, m0, steps, MRun(p, image, m0, steps).s);
      AbortMeans(p, image, b, k, args, store, m0, fuel, MRun(p, image, m0, fuel), t.store);
  }

  lemma RunDoneSame(p: Program, image: Image, limit: nat, s: MState, fuel: nat, steps: nat, status: Status, t: MState)
    requires RunDone(p, image, s, fuel, steps, status, t)
    ensures RunDone(WithLimit(p, limit), image, s, fuel, steps, status, t)
  {
    hide MRun;
    RunLimitUnused(p, image, s, limit, fuel);
    RunLimitUnused(p, image, s, limit, steps);
  }

  class ExecutionContext {
    const p: Program
    const image: Image
    const os: Stack.Stack<Value>
    const calls: Stack.Stack<ActivationFrame>
    var pc: Pc
    var lastOpIndex: nat
    var remaining: nat
    var store: Store

    ghost predicate Valid()
      reads this, os, calls
    {
      os.Valid() && calls.Valid()
    }

    ghost function Repr(): set<object>
      reads this, os, calls
    {
      {this, os, os.slots, calls, calls.slots}
    }

    ghost function State(): MState
      reads this, os, os.slots, calls, calls.slots
      requires Valid()
    {
      MState(pc, os.Contents(), calls.Contents(), lastOpIndex, remaining, store)
    }

    constructor (p: Program, image: Image, store: Store, depth: nat)
      ensures Valid() && fresh(Repr())
      ensures this.p == p && this.image == image
      ensures State() == MState(Halt, [], [], 0, depth, store)
    {
      this.p, this.image, this.store, this.remaining := p, image, store, depth;
      os := new Stack.Stack<Value>(8);
      calls := new Stack.Stack<ActivationFrame>(251);
      pc, lastOpIndex := Halt, 0;
    }

    static lemma JumpIs(s: MState, data: nat, target: nat)
      requires Jump(s, data, target).Next?
      ensures
        var n := |s.os|;
        if data >= RESULT_FLAG then
          0 < data - RESULT_FLAG <= n &&
          Jump(s, data, target) == Next(s.(pc := At(target), os := s.os[..n - (data - RESULT_FLAG)] + [s.os[n - 1]]))
        else data <= n && Jump(s, data, target) == Next(s.(pc := At(target), os := s.os[..n - data]))
    {
    }

    /** Discards `drop` operands and puts the topmost one back. */
    method KeepTop(drop: nat)
      requires Valid() && 0 < drop <= os.index
      modifies os, os.slots
      ensures Valid() && (os.slots == old(os.slots) || fresh(os.slots))
      ensures
        var before := old(State()).os;
        State() == old(State()).(os := before[..|before| - drop] + [before[|before| - 1]])
    {
      ghost var before := os.Contents();
      var keep := os.Pop();
      var n := os.index - (drop - 1);
      os.Eat(n);
      os.Push(keep);
      assert before[..|before| - 1][..n] == before[..n];
    }

    method DoJump(data: nat, target: nat)
      requires Valid() && Jump(State(), data, target).Next?
      modifies this`pc, os, os.slots
      ensures Valid() && Next(State()) == old(Jump(State(), data, target))
      ensures os.slots == old(os.slots) || fresh(os.slots)
    {
      hide Jump;
      JumpIs(State(), data, target);
      pc := At(target);
      if data >= RESULT_FLAG {
        KeepTop(data - RESULT_FLAG);
      } else {
        os.Eat(os.index - data);
      }
    }

    static lemma ApplyPopCallIs(s: MState, numLocals: nat, returnCount: nat, frameSize: nat)
      requires ApplyPopCall(s, numLocals, returnCount, frameSize).Next?
      ensures s.frames != [] && numLocals + (if returnCount != 0 then 1 else 0) <= |s.os|
      ensures
        var af := s.frames[|s.frames| - 1];
        var n := |s.os|;
        ApplyPopCall(s, numLocals, returnCount, frameSize) ==
        Next(MState(
          af.pc,
          if returnCount != 0 then s.os[..n - numLocals - 1] + [s.os[n - 1]] else s.os[..n - numLocals],
          s.frames[..|s.frames| - 1], af.lastOpIndex, s.remaining + frameSize, s.store))
    {
    }

    /** Operands, activation frame and budget one after the other. */
    static lemma PoppedCall(s: MState, t: MState, u: MState, v: MState, numLocals: nat, returnCount: nat,
        frameSize: nat)
      requires ApplyPopCall(s, numLocals, returnCount, frameSize).Next? && s.frames != []
      requires
        var n := |s.os|;
        && numLocals + (if returnCount != 0 then 1 else 0) <= n
        && t == s.(os := if returnCount != 0 then s.os[..n - numLocals - 1] + [s.os[n - 1]] else s.os[..n - numLocals])
      requires
        var af := s.frames[|s.frames| - 1];
        u == t.(pc := af.pc, lastOpIndex := af.lastOpIndex, frames := s.frames[..|s.frames| - 1])
      requires v == u.(remaining := u.remaining + frameSize)
      ensures Next(v) == ApplyPopCall(s, numLocals, returnCount, frameSize)
    {
    }

    /** `apply_pop_call` on the operands. */
    method LeaveLocals(numLocals: nat, returnCount: nat)
      requires Valid() && numLocals + (if returnCount != 0 then 1 else 0) <= |State().os|
      modifies os`index, os.slots
      ensures Valid()
      ensures
        var before, n := old(State()).os, |old(State()).os|;
        State() == old(State()).(
          os := if returnCount != 0 then before[..n - numLocals - 1] + [before[n - 1]] else before[..n - numLocals])
    {
      if returnCount != 0 {
        os.Compact(os.index - numLocals - 1);
      } else {
        os.Eat(os.index - numLocals);
      }
    }

    /** Takes the top activation frame off and restores the registers it holds. */
    method LeaveFrame()
      requires Valid() && State().frames != []
      modifies this`pc, this`lastOpIndex, calls`index
      ensures Valid()
      ensures
        var frames := old(State()).frames;
        var af := frames[|frames| - 1];
        State() == old(State()).(pc := af.pc, lastOpIndex := af.lastOpIndex, frames := frames[..|frames| - 1])
    {
      ghost var frames := calls.Contents();
      var af := calls.Pop();
      assert frames[..|frames| - 1] == calls.Contents();
      pc := af.pc;
      lastOpIndex := af.lastOpIndex;
    }

    /** Gives the budget of a frame back. */
    method Refund(frameSize: nat)
      requires Valid()
      modifies this`remaining
      ensures Valid() && State() == old(State()).(remaining := old(State()).remaining + frameSize)
    {
      remaining := remaining + frameSize;
    }

    method DoApplyPopCall(numLocals: nat, returnCount: nat, frameSize: nat)
      requires Valid() && ApplyPopCall(State(), numLocals, returnCount, frameSize).Next?
      modifies this`pc, this`lastOpIndex, this`remaining, os`index, os.slots, calls`index
      ensures Valid() && Next(State()) == old(ApplyPopCall(State(), numLocals, returnCount, frameSize))
    {
      hide *;
      ghost var s := State();
      ApplyPopCallIs(s, numLocals, returnCount, frameSize);
      LeaveLocals(numLocals, returnCount);
      ghost var t := State();
      LeaveFrame();
      ghost var u := State();
      Refund(frameSize);
      PoppedCall(s, t, u, State(), numLocals, returnCount, frameSize);
    }

    /** `push_call` of function `f`, imports counted: its arguments stay where they are and the frame
        base moves below them. */
    method OpenFrame(f: nat, params: nat, returnPc: Pc) returns (ok: bool)
      requires Valid() && params <= os.index
      modifies this`lastOpIndex, this`remaining, calls, calls.slots
      ensures Valid() && (ok <==> FrameCost(p.m, f) <= old(remaining))
      ensures State() ==
              if ok then
                old(State()).(
                  frames := old(State()).frames + [ActivationFrame(returnPc, old(lastOpIndex))],
                  lastOpIndex := |old(State()).os| - params,
                  remaining := old(remaining) - FrameCost(p.m, f))
              else old(State())
      ensures calls.slots == old(calls.slots) || fresh(calls.slots)
    {
      var cost := FrameCost(p.m, f);
      ok := cost <= remaining;
      if ok {
        remaining := remaining - cost;
        calls.Push(ActivationFrame(returnPc, lastOpIndex));
        lastOpIndex := os.index - params;
      }
    }

    /** `setup_locals`: zeroes, entry by entry. */
    method SetupLocals(k: nat)
      requires Valid() && k < |p.m.funcs|
      modifies os, os.slots
      ensures Valid() && os.Contents() == old(os.Contents()) + Zeros(Expand(p.m.funcs[k].locals))
      ensures BeginAtZero(Expand(p.m.funcs[k].locals), old(os.Contents()), os.Contents())
      ensures os.slots == old(os.slots) || fresh(os.slots)
    {
      hide Zeros, Expand, Repeat, HasTypes, IsZero, BeginAtZero;
      var e := p.m.funcs[k].locals;
      ghost var before := os.Contents();
      var i := 0;
      assert Zeros(Expand(e[..0])) == [] by { NoZeros(e); }
      while i < |e|
        invariant Valid() && 0 <= i <= |e|
        invariant os.Contents() == before + Zeros(Expand(e[..i]))
        invariant os.slots == old(os.slots) || fresh(os.slots)
      {
        ZerosNext(e, i);
        var j := 0;
        while j < e[i].count
          invariant Valid() && 0 <= j <= e[i].count
          invariant os.Contents() == before + Zeros(Expand(e[..i]) + Repeat(e[i].valType, j))
          invariant os.slots == old(os.slots) || fresh(os.slots)
        {
          ZerosOf(e, i, j);
          os.Push(Zero(e[i].valType));
          j := j + 1;
        }
        i := i + 1;
      }
      assert e[..|e|] == e;
      ZerosBegin(Expand(e), before);
    }

    static lemma NoZeros(e: seq<LocalEntry>)
      ensures Zeros(Expand(e[..0])) == []
    {
    }

    method CallFunction(k: nat) returns (ok: bool)
      requires Valid() && k < |p.m.funcs|
      requires !PushCall(p.m, image, State(), k, IncPc(pc)).MStuck?
      modifies Repr()
      ensures Valid() && fresh(Repr() - old(Repr()))
      ensures ok ==> Next(State()) == old(PushCall(p.m, image, State(), k, IncPc(pc)))
      ensures !ok ==> State() == old(State()) && old(PushCall(p.m, image, State(), k, IncPc(pc))) == MTrap
    {
      hide Zeros, Expand;
      ok := OpenFrame(|p.m.imports| + k, |p.m.funcs[k].ft.params|, IncPc(pc));
      if ok {
        SetupLocals(k);
        pc := At(image.starts[k]);
      }
    }

    /** The operands a host function or an operation takes. */
    method TopOperands(n: nat) returns (args: seq<Value>)
      requires Valid() && n <= os.index
      ensures args == os.Contents()[os.index - n..]
    {
      args := os.slots[os.index - n..os.index];
    }

    method ReplaceOperands(n: nat, results: seq<Value>)
      requires Valid() && n <= os.index && |results| <= 1
      modifies os, os.slots
      ensures Valid() && os.Contents() == old(os.Contents())[..old(os.index) - n] + results
      ensures State() == old(State()).(os := old(State()).os[..|old(State()).os| - n] + results)
      ensures os.slots == old(os.slots) || fresh(os.slots)
    {
      os.Eat(os.index - n);
      if |results| == 1 {
        os.Push(results[0]);
      }
    }

    method CallHost(f: nat) returns (status: Status)
      requires Valid() && f < |p.m.imports| && !HostCall(p, State(), f).MStuck?
      modifies this`pc, this`store, os, os.slots
      ensures Valid() && (os.slots == old(os.slots) || fresh(os.slots))
      ensures StepDone(old(HostCall(p, State(), f)), old(State()), status, State())
    {
      hide HasTypes, FrameCost;
      var ft := p.m.imports[f];
      var args := TopOperands(|ft.params|);
      if FrameCost(p.m, f) > remaining {
        return Throws;
      }
      match p.host(f, args, store) {
        case HostTrap =>
          return Throws;
        case HostExit(st) =>
          store := st;
          pc := Halt;
          return Exits;
        case HostReturn(bits, st) =>
          pc := IncPc(pc);
          store := st;
          ReplaceOperands(|ft.params|, if ft.result.Some? then [FromBits(ft.result.value, bits)] else []);
          return Continues;
      }
    }

    static lemma PlainIs(p: Program, image: Image, s: MState, op: PlainOp)
      requires !Dispatch(p, image, s, OPlain(op)).MStuck?
      ensures
        var n := |s.os| - Arity(op);
        n >= 0 &&
        Dispatch(p, image, s, OPlain(op)) ==
        match Eval(op, s.os[n..], s.store)
        case Evaluated(results, store) => Next(s.(pc := IncPc(s.pc), os := s.os[..n] + results, store := store))
        case Repeated(args, store) => Next(s.(os := s.os[..n] + args, store := store))
        case Trapped => MTrap
        case Stuck => MStuck
    {
      hide Eval;
    }

    method DoPlain(op: PlainOp) returns (status: Status)
      requires Valid() && !Dispatch(p, image, State(), OPlain(op)).MStuck?
      modifies this`pc, this`store, os, os.slots
      ensures Valid() && (os.slots == old(os.slots) || fresh(os.slots))
      ensures StepDone(old(Dispatch(p, image, State(), OPlain(op))), old(State()), status, State())
    {
      hide Eval, Dispatch, Stack.Stack.Contents, Arity;
      PlainIs(p, image, State(), op);
      var args := TopOperands(Arity(op));
      match Eval(op, args, store) {
        case Trapped =>
          return Throws;
        case Evaluated(results, st) =>
          AtMostOneResult(op, args, store);
          pc := IncPc(pc);
          ReplaceOperands(Arity(op), results);
          store := st;
          return Continues;
        case Repeated(next, st) =>
          UpdateOperands(next);
          store := st;
          return Continues;
      }
    }

    /** The three operands of an instruction that runs again, changed where they are. */
    method UpdateOperands(args: seq<Value>)
      requires Valid() && |args| == 3 <= os.index
      modifies os.slots
      ensures Valid() && os.slots == old(os.slots)
      ensures State() == old(State()).(os := old(State()).os[..|old(State()).os| - 3] + args)
    {
      ghost var before := os.Contents();
      var n := os.index;
      var ok := os.Set(n - 1, args[2]);
      ok := os.Set(n - 2, args[1]);
      ok := os.Set(n - 3, args[0]);
      assert before[n - 1 := args[2]][n - 2 := args[1]][n - 3 := args[0]] == before[..n - 3] + args;
    }

    static lemma AtMostOneResult(op: PlainOp, args: seq<Value>, st: Store)
      requires |args| == Arity(op)
      ensures Eval(op, args, st).Evaluated? ==> |Eval(op, args, st).results| <= 1
    {
    }

    method DoDrop()
      requires Valid() && os.index > 0
      modifies this`pc, os`index
      ensures Valid()
      ensures State() == old(State()).(pc := IncPc(old(pc)), os := old(State()).os[..|old(State()).os| - 1])
    {
      ghost var before := os.Contents();
      pc := IncPc(pc);
      var e := os.Pop();
      assert before[..|before| - 1] == os.Contents();
    }

    /** `select` works on the top of the stack in place. */
    method DoSelect()
      requires Valid() && os.index >= 3 && os.Contents()[os.index - 1].VI32?
      modifies this`pc, os`index, os.slots
      ensures Valid()
      ensures
        var before := old(State()).os;
        var n := |before|;
        State() == old(State()).(
          pc := IncPc(old(pc)),
          os := before[..n - 3] + [if before[n - 1].i32 == 0 then before[n - 2] else before[n - 3]])
    {
      ghost var before := os.Contents();
      ghost var n := |before|;
      pc := IncPc(pc);
      var c := os.Pop();
      var v2 := os.Pop();
      assert before == os.Contents() + [v2, c];
      if c.i32 == 0 {
        var inRange := os.Set(os.index - 1, v2);
        assert os.Contents() == before[..n - 3] + [v2];
      } else {
        assert os.Contents() == before[..n - 3] + [before[n - 3]];
      }
    }

    static lemma ParametricIs(p: Program, image: Image, s: MState, op: Opcode)
      requires (op.ODrop? || op.OSelect?) && !Dispatch(p, image, s, op).MStuck?
      ensures
        var n := |s.os|;
        if op.ODrop? then n > 0 && Dispatch(p, image, s, op) == Next(s.(pc := IncPc(s.pc), os := s.os[..n - 1]))
        else
          n >= 3 && s.os[n - 1].VI32? &&
          Dispatch(p, image, s, op) ==
          Next(s.(pc := IncPc(s.pc),
                  os := s.os[..n - 3] + [if s.os[n - 1].i32 == 0 then s.os[n - 2] else s.os[n - 3]]))
    {
    }

    method DoParametric(op: Opcode)
      requires op.ODrop? || op.OSelect?
      requires Valid() && !Dispatch(p, image, State(), op).MStuck?
      modifies this`pc, os, os.slots
      ensures Valid() && os.slots == old(os.slots)
      ensures Next(State()) == old(Dispatch(p, image, State(), op))
    {
      hide Dispatch;
      ParametricIs(p, image, State(), op);
      match op {
        case ODrop =>
          DoDrop();
        case OSelect =>
          DoSelect();
      }
    }

    /** Pops an operand into a local. */
    method WriteLocal(i: nat) returns (e: Value)
      requires Valid() && lastOpIndex + i + 1 < os.index
      modifies os`index, os.slots
      ensures Valid()
      ensures
        var before := old(State()).os;
        && e == before[|before| - 1]
        && State() == old(State()).(os := before[..|before| - 1][lastOpIndex + i := e])
    {
      ghost var before := os.Contents();
      e := os.Pop();
      assert before[..|before| - 1] == os.Contents();
      var ok := os.Set(lastOpIndex + i, e);
    }

    /** A local is read through the frame base. */
    method ReadLocal(i: nat)
      requires Valid() && lastOpIndex + i < os.index
      modifies os, os.slots
      ensures Valid() && (os.slots == old(os.slots) || fresh(os.slots))
      ensures State() == old(State()).(os := old(State()).os + [old(State()).os[lastOpIndex + i]])
    {
      var e := os.Get(lastOpIndex + i);
      os.Push(e.value);
    }

    method PushOperand(e: Value)
      requires Valid()
      modifies os, os.slots
      ensures Valid() && (os.slots == old(os.slots) || fresh(os.slots))
      ensures State() == old(State()).(os := old(State()).os + [e])
    {
      os.Push(e);
    }

    static lemma LocalIs(p: Program, image: Image, s: MState, op: Opcode)
      requires (op.OLocalGet? || op.OLocalSet? || op.OLocalTee?) && !Dispatch(p, image, s, op).MStuck?
      ensures
        var n, at := |s.os|, s.lastOpIndex + op.local;
        if op.OLocalGet? then
          at < n && Dispatch(p, image, s, op) == Next(s.(pc := IncPc(s.pc), os := s.os + [s.os[at]]))
        else
          at + 1 < n &&
          Dispatch(p, image, s, op) ==
          Next(s.(pc := IncPc(s.pc),
                  os := s.os[..n - 1][at := s.os[n - 1]] + (if op.OLocalTee? then [s.os[n - 1]] else [])))
    {
      if op.OLocalSet? && s.lastOpIndex + op.local + 1 < |s.os| {
        var os := s.os[..|s.os| - 1][s.lastOpIndex + op.local := s.os[|s.os| - 1]];
        assert os + [] == os;
      }
    }

    method DoLocal(op: Opcode)
      requires op.OLocalGet? || op.OLocalSet? || op.OLocalTee?
      requires Valid() && !Dispatch(p, image, State(), op).MStuck?
      modifies this`pc, os, os.slots
      ensures Valid() && (os.slots == old(os.slots) || fresh(os.slots))
      ensures Next(State()) == old(Dispatch(p, image, State(), op))
    {
      hide Dispatch;
      ghost var s := State();
      LocalIs(p, image, s, op);
      pc := IncPc(pc);
      match op {
        case OLocalGet(i) =>
          ReadLocal(i);
        case OLocalSet(i) =>
          var e := WriteLocal(i);
          assert State().os + [] == State().os;
        case OLocalTee(i) =>
          var e := WriteLocal(i);
          PushOperand(e);
      }
    }

    /** The condition of a branch, or the index of a table. */
    method PopI32() returns (x: u32)
      requires Valid() && os.index > 0 && os.Contents()[os.index - 1].VI32?
      modifies os
      ensures Valid() && os.slots == old(os.slots)
      ensures x == old(os.Contents())[old(os.index) - 1].i32
      ensures State() == old(State()).(os := old(os.Contents())[..old(os.index) - 1])
    {
      ghost var before := os.Contents();
      var c := os.Pop();
      assert before[..|before| - 1] == os.Contents();
      x := c.i32;
    }

    /** Operations that pop an i32 and go one way or another. */
    method DoBranch(op: Opcode)
      requires op.OIf? || op.OElse? || op.OBr? || op.OBrIf? || op.OBrTable?
      requires Valid() && !Dispatch(p, image, State(), op).MStuck?
      modifies this`pc, os, os.slots
      ensures Valid() && (os.slots == old(os.slots) || fresh(os.slots))
      ensures Next(State()) == old(Dispatch(p, image, State(), op))
    {
      hide Jump;
      JumpNext(State(), op);
      match op {
        case OElse(target) =>
          pc := At(target);
        case OBr(data, target) =>
          DoJump(data, target);
        case OIf(target) =>
          pc := IncPc(pc);
          var c := PopI32();
          if c == 0 {
            pc := At(target);
          }
        case OBrIf(data, target) =>
          var c := PopI32();
          if c != 0 {
            DoJump(data, target);
          } else {
            pc := IncPc(pc);
          }
        case OBrTable(size, entries) =>
          var c := PopI32();
          var e := entries[if c < size then c else size];
          DoJump(e.stackPop, e.pc);
      }
    }

    static lemma JumpNext(s: MState, op: Opcode)
      ensures op.OBr? ==> Jump(s, op.data, op.pc).Next? || Jump(s, op.data, op.pc).MStuck?
      ensures op.OBrIf? && s.os != [] ==>
                var s' := s.(os := s.os[..|s.os| - 1]);
                Jump(s', op.data, op.pc).Next? || Jump(s', op.data, op.pc).MStuck?
      ensures op.OBrTable? && s.os != [] ==>
                var s' := s.(os := s.os[..|s.os| - 1]);
                forall j :: 0 <= j < |op.entries| ==>
                  Jump(s', op.entries[j].stackPop, op.entries[j].pc).Next? ||
                    Jump(s', op.entries[j].stackPop, op.entries[j].pc).MStuck?
    {
    }

    /** One dispatch. A step that throws leaves the state to the cleanup of `execute`. */
    method Step() returns (status: Status)
      requires Valid() && pc.At? && !MStep(p, image, State()).MStuck?
      modifies Repr()
      ensures Valid() && fresh(Repr() - old(Repr()))
      ensures StepDone(old(MStep(p, image, State())), old(State()), status, State())
    {
      hide Jump, ApplyPopCall, PushCall, HostCall, Eval;
      var op := image.code[pc.n];
      ghost var s := State();
      assert MStep(p, image, s) == Dispatch(p, image, s, op);
      status := Continues;
      match op {
        case OPlain(o) => status := DoPlain(o);
        case OUnreachable => status := Throws;
        case ODrop => DoParametric(op);
        case OSelect => DoParametric(op);
        case OLocalGet(_) => DoLocal(op);
        case OLocalSet(_) => DoLocal(op);
        case OLocalTee(_) => DoLocal(op);
        case OIf(_) => DoBranch(op);
        case OElse(_) => DoBranch(op);
        case OBr(_, _) => DoBranch(op);
        case OBrIf(_, _) => DoBranch(op);
        case OBrTable(_, _) => DoBranch(op);
        case OReturn(numLocals, returnCount, frameSize) =>
          PopCallNext(s, op);
          DoApplyPopCall(numLocals, returnCount, frameSize);
        case OCall(f) =>
          if f < |p.m.imports| {
            status := CallHost(f);
          } else {
            var ok := CallFunction(f - |p.m.imports|);
            status := if ok then Continues else Throws;
          }
      }
    }

    /** Dispatches until the halt opcode, a throw, or an interruption after `fuel` opcodes. */
    method Run(fuel: nat) returns (status: Status, ghost steps: nat)
      requires Valid() && !MRun(p, image, State(), fuel).MStuck?
      modifies Repr()
      ensures Valid() && fresh(Repr() - old(Repr()))
      ensures RunDone(p, image, old(State()), fuel, steps, status, State())
    {
      hide MStep;
      ghost var s0 := State();
      steps := 0;
      status := Continues;
      var left := fuel;
      while left > 0 && pc.At?
        modifies Repr()
        invariant Valid() && fresh(Repr() - old(Repr()))
        invariant steps + left == fuel
        invariant MRun(p, image, s0, steps) == Next(State())
        invariant status == Continues
      {
        ghost var s := State();
        RunSplit(p, image, s0, steps, left);
        status := Step();
        RunSplit(p, image, s0, steps, 1);
        OneMore(p, image, s, left);
        if !status.Continues? {
          return;
        }
        left := left - 1;
        steps := steps + 1;
      }
      RunSplit(p, image, s0, steps, left);
    }

    static lemma OneMore(p: Program, image: Image, s: MState, left: nat)
      requires left > 0 && s.pc.At?
      ensures MStep(p, image, s).Next? ==> MRun(p, image, s, 1) == MStep(p, image, s)
      ensures MStep(p, image, s).Next? ==> MRun(p, image, s, left) == MRun(p, image, MStep(p, image, s).s, left - 1)
      ensures !MStep(p, image, s).Next? ==> MRun(p, image, s, left) == MStep(p, image, s)
    {
      hide MStep;
      if MStep(p, image, s).Next? {
        assert MRun(p, image, MStep(p, image, s).s, 0) == MStep(p, image, s);
      }
    }

    method PushArgs(args: seq<Value>)
      requires Valid()
      modifies os, os.slots
      ensures Valid() && os.Contents() == old(os.Contents()) + args
      ensures os.slots == old(os.slots) || fresh(os.slots)
    {
      var i := 0;
      while i < |args|
        invariant Valid() && (os.slots == old(os.slots) || fresh(os.slots))
        invariant 0 <= i <= |args| && os.Contents() == old(os.Contents()) + args[..i]
      {
        os.Push(args[i]);
        i := i + 1;
      }
    }

    /** `push_args` and the first frame; the return address is the halt opcode. */
    method Enter(k: nat, args: seq<Value>) returns (ok: bool)
      requires Valid() && WellSized(p.m) && k < |p.m.funcs| == |image.starts| && |args| == |p.m.funcs[k].ft.params|
      requires image.starts[k] == Base(p.m, k)
      modifies Repr()
      ensures Valid() && fresh(Repr() - old(Repr()))
      ensures ok <==> FrameCost(p.m, |p.m.imports| + k) <= old(remaining)
      ensures
        var before := old(State());
        if ok
        then State() == EntryState(WithLimit(p, before.remaining), Origin(before.os, before.frames, before.lastOpIndex),
          k, args, before.store)
        else State() == before.(os := before.os + args)
    {
      hide Zeros, Expand, FrameCost, Base;
      ghost var s := State();
      PushArgs(args);
      ok := OpenFrame(|p.m.imports| + k, |args|, Halt);
      if ok {
        pc := At(image.starts[k]);
        SetupLocals(k);
      }
    }

    /** The guard that puts the context back: the stacks cut to their old heights, and the
        registers and the budget as saved. */
    method Cleanup(ghost s: MState, savedPc: Pc, savedOpIndex: nat, savedDepth: nat, osIndex: nat, asIndex: nat)
      requires savedPc == s.pc && savedOpIndex == s.lastOpIndex && savedDepth == s.remaining
      requires Valid() && osIndex == |s.os| <= os.index && asIndex == |s.frames| <= calls.index
      requires os.Contents()[..osIndex] == s.os && calls.Contents()[..asIndex] == s.frames
      modifies this, os, calls
      ensures Valid() && Repr() == old(Repr())
      ensures State() == s.(store := old(store)) && store == old(store)
    {
      os.Eat(osIndex);
      calls.Eat(asIndex);
      pc, lastOpIndex, remaining := savedPc, savedOpIndex, savedDepth;
    }

    /** `execute` between entering the function and the cleanup. */
    method RunEntered(k: nat, args: seq<Value>, fuel: nat, ghost q: Program, ghost b: Origin, ghost before: Store)
      returns (r: ExecuteResult)
      requires Valid() && k < |p.m.funcs| && q == WithLimit(p, q.limit)
      requires Entered(q, image, b, k, args, before, State())
      modifies Repr()
      ensures Valid() && fresh(Repr() - old(Repr()))
      ensures Holds(b, State())
      ensures ExecuteMeans(q, k, args, before, fuel, r, store)
    {
      hide ProgramOk, ImageOk, StoreOk, MRun, ExecuteMeans, EntryState, FrameCost, HasTypes, Entered, RunDone, Holds;
      ghost var m0 := State();
      ExecuteSafe(q, image, b, k, args, before, m0, fuel);
      RunLimitUnused(p, image, m0, q.limit, fuel);
      ghost var steps;
      var status;
      status, steps := Run(fuel);
      RunDoneSame(p, image, q.limit, m0, fuel, steps, status, State());
      Ending(q, image, b, k, args, before, m0, fuel, steps, status, State());
      match status {
        case Throws => r := Threw;
        case Exits => r := ExitCalled;
        case Continues =>
          if pc.At? {
            r := Interrupted;
          } else {
            r := Returned(None);
            if p.m.funcs[k].ft.result.Some? {
              var v := os.Peek(0);
              r := Returned(Some(v));
            }
          }
      }
    }

    /** `execute` of an imported function: the host is called at once, on a frame of its own. */
    method RunImport(f: nat, args: seq<Value>) returns (r: ExecuteResult)
      requires Valid() && f < |p.m.imports| && |args| == |p.m.imports[f].params|
      modifies Repr()
      ensures Valid() && fresh(Repr() - old(Repr()))
      ensures Holds(Origin(old(os.Contents()), old(calls.Contents()), old(lastOpIndex)), State())
      ensures
        if FrameCost(p.m, f) > old(remaining) then r == Threw && store == old(store)
        else HostMeans(p, f, args, old(store), r, store)
    {
      hide FrameCost, HostMeans;
      PushArgs(args);
      var ok := OpenFrame(f, |args|, Halt);
      if !ok {
        return Threw;
      }
      assert os.Contents()[os.index - |args|..] == args;
      r := InvokeHost(f);
    }

    /** The host function takes its arguments off the stack; a result it leaves there is taken at once. */
    method InvokeHost(f: nat) returns (r: ExecuteResult)
      requires Valid() && f < |p.m.imports| && |p.m.imports[f].params| <= os.index
      modifies this`store, os, os.slots
      ensures Valid() && (os.slots == old(os.slots) || fresh(os.slots))
      ensures old(os.index) - |p.m.imports[f].params| <= os.index <= old(os.index)
      ensures os.Contents() == old(os.Contents())[..os.index]
      ensures HostMeans(p, f, old(os.Contents())[old(os.index) - |p.m.imports[f].params|..], old(store), r, store)
    {
      var ft := p.m.imports[f];
      var args := TopOperands(|ft.params|);
      match p.host(f, args, store) {
        case HostTrap =>
          return Threw;
        case HostExit(st) =>
          store := st;
          return ExitCalled;
        case HostReturn(bits, st) =>
          store := st;
          ReplaceOperands(|ft.params|, if ft.result.Some? then [FromBits(ft.result.value, bits)] else []);
          if ft.result.None? {
            return Returned(None);
          }
          var v := os.Pop();
          return Returned(Some(v));
      }
    }

    /** `execute`: calls function `f`, imports counted, from any state of the context, as a host
        function may while an outer call is in progress. However it ends, both stacks, the program
        counter, the frame base and the budget are as they were before. */
    method Execute(f: nat, args: seq<Value>, fuel: nat) returns (r: ExecuteResult)
      requires Valid() && ProgramOk(p) && ImageOk(p, image) && StoreOk(p.m.globals, store)
      modifies Repr()
      ensures Valid() && fresh(Repr() - old(Repr()))
      ensures State() == old(State()).(store := store)
      ensures
        var ft := TypeOfFunc(p.m, f);
        if ft.None? || !HasTypes(args, ft.value.params) || FrameCost(p.m, f) > old(remaining)
        then r == Threw && store == old(store)
        else if f < |p.m.imports| then HostMeans(p, f, args, old(store), r, store)
        else ExecuteMeans(WithLimit(p, old(remaining)), f - |p.m.imports|, args, old(store), fuel, r, store)
    {
      hide ProgramOk, ImageOk, StoreOk, MRun, ExecuteMeans, HostMeans, EntryState, FrameCost, HasTypes;
      ghost var s := State();
      var savedPc, savedOpIndex, savedDepth := pc, lastOpIndex, remaining;
      var osIndex, asIndex := os.index, calls.index;
      var ft := TypeOfFunc(p.m, f);
      if ft.None? || !HasTypes(args, ft.value.params) {
        return Threw;
      }
      if f < |p.m.imports| {
        SameLengths(args, ft.value.params);
        r := RunImport(f, args);
      } else {
        r := RunFunction(f - |p.m.imports|, args, fuel);
      }
      Cleanup(s, savedPc, savedOpIndex, savedDepth, osIndex, asIndex);
    }

    static lemma SameLengths(vs: seq<Value>, ts: seq<ValType>)
      requires HasTypes(vs, ts)
      ensures |vs| == |ts|
    {
    }

    /** `execute` of a function of the module, counted without the imports. */
    method RunFunction(k: nat, args: seq<Value>, fuel: nat) returns (r: ExecuteResult)
      requires Valid() && ProgramOk(p) && ImageOk(p, image) && StoreOk(p.m.globals, store) && k < |p.m.funcs|
      requires HasTypes(args, p.m.funcs[k].ft.params)
      modifies Repr()
      ensures Valid() && fresh(Repr() - old(Repr()))
      ensures Holds(Origin(old(os.Contents()), old(calls.Contents()), old(lastOpIndex)), State())
      ensures
        if FrameCost(p.m, |p.m.imports| + k) > old(remaining) then r == Threw && store == old(store)
        else ExecuteMeans(WithLimit(p, old(remaining)), k, args, old(store), fuel, r, store)
    {
      hide ProgramOk, ImageOk, StoreOk, MRun, ExecuteMeans, EntryState, FrameCost, HasTypes;
      ghost var s := State();
      ghost var q, b := WithLimit(p, remaining), Origin(s.os, s.frames, s.lastOpIndex);
      EntryFacts(p, image, remaining, k, args, store);
      var ok := Enter(k, args);
      r := Threw;
      if ok {
        r := RunEntered(k, args, fuel, q, b, s.store);
      }
    }

    static lemma PopCallNext(s: MState, op: Opcode)
      requires op.OReturn?
      ensures
        var r := ApplyPopCall(s, op.numLocals, op.returnCount, op.stackSize);
        r.Next? || r.MStuck?
    {
    }
  }

  /** What a method that performs a step leaves behind. */
  ghost predicate StepDone(r: Result, s: MState, status: Status, s': MState) {
    match r
    case Next(t) => status.Continues? && s' == t
    case MTrap => status.Throws? && s' == s
    case MExit(final) => status.Exits? && s' == s.(pc := Halt, store := final)
    case MStuck => false
  }
}

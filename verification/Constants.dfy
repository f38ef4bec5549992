/** What the checks on globals are for: an accepted body sets none but mutable globals, so over any run
    an immutable one keeps its value. */
module Constants {
  import opened Wasm
  import opened Validator
  import opened Bytecode
  import opened Source
  import opened Machine
  import opened Nesting
  import opened Scopes
  import opened ModuleWriter
  import opened Frames
  import opened FrameSteps
  import opened FrameOps
  import opened Layout
  import opened Simulation
  import opened Correctness
  import Soundness

  /** Every global an accepted body names exists, and every one it sets is mutable, also in code that
      is never reached. */
  lemma AcceptedGlobals(m: Module, fd: FuncDecl, i: nat)
    requires Accepts(m, fd) && i < |fd.body|
    ensures fd.body[i].Plain? && fd.body[i].op.GlobalSet? ==>
              fd.body[i].op.global < |m.globals| && m.globals[fd.body[i].op.global].mutable
    ensures fd.body[i].Plain? && fd.body[i].op.GlobalGet? ==> fd.body[i].op.global < |m.globals|
  {
    hide Run, Accepts, PopTypes, PushResult;
    RunAll(m, fd, i);
    RunAll(m, fd, i + 1);
    RunStep(m, fd, i);
  }

  /** And one that exists and is mutable may be set: then only the operand decides. */
  lemma MutableIsSettable(m: Module, fd: FuncDecl, o: Operands, g: nat)
    requires o.segs != [] && g < |m.globals| && m.globals[g].mutable
    ensures StraightStep(m, fd, o, Plain(GlobalSet(g))) == PopType(o, m.globals[g].content)
  {
    hide PopType;
    var t := m.globals[g].content;
    var ts := [t];
    assert ts[|ts| - 1] == t && ts[..|ts| - 1] == [];
    if PopType(o, t).Some? {
      assert PopTypes(PopType(o, t).value, []) == PopType(o, t);
    }
  }

  /** The immutable globals have the same values in both stores. */
  predicate SameConstants(m: Module, st: Store, st': Store) {
    && |st'.globals| == |st.globals| == |m.globals|
    && forall g :: 0 <= g < |m.globals| && !m.globals[g].mutable ==> st'.globals[g] == st.globals[g]
  }

  ghost predicate HostKeepsConstants(m: Module, host: (nat, seq<Value>, Store) -> HostResult) {
    forall f: nat, args, st: Store :: StoreOk(m.globals, st) && !host(f, args, st).HostTrap? ==>
      SameConstants(m, st, host(f, args, st).store)
  }

  lemma EvaluationKeeps(m: Module, op: PlainOp, args: seq<Value>, st: Store)
    requires |args| == Arity(op) && |st.globals| == |m.globals|
    requires op.GlobalSet? ==> op.global < |m.globals| && m.globals[op.global].mutable
    ensures
      var r := Eval(op, args, st);
      r.Evaluated? || r.Repeated? ==> SameConstants(m, st, r.store)
  {
  }

  /** The store a configuration has, if it has one. */
  function StoreOf(s: Config): Option<Store> {
    match s
    case Running(_, _, st) => Some(st)
    case Finished(_, st) => Some(st)
    case Exited(st) => Some(st)
    case _ => None
  }

  /** Nothing but a plain instruction or a host call changes the store. */
  lemma StepStore(p: Program, s: Config)
    requires s.Running?
    ensures
      var s' := SourceStep(p, s);
      StoreOf(s').Some? ==>
        || StoreOf(s') == Some(s.store)
        || (s.cur.code.ICons? && s.cur.code.hd.Basic? && s.cur.code.hd.t.Plain? && s.cur.labels != [] &&
            s' == DoPlain(s, s.cur.code.hd.t.op, s.cur.code.tl))
        || (exists f: nat, args: seq<Value> ::
              var r := p.host(f, args, s.store);
              !r.HostTrap? && StoreOf(s') == Some(r.store))
  {
    hide Eval, HasTypes, ActiveCost;
  }

  lemma PlainStore(m: Module, s: Config, op: PlainOp, tl: Instrs)
    requires s.Running? && s.cur.labels != [] && |s.store.globals| == |m.globals|
    requires op.GlobalSet? ==> op.global < |m.globals| && m.globals[op.global].mutable
    ensures
      var s' := DoPlain(s, op, tl);
      StoreOf(s').Some? ==> SameConstants(m, s.store, StoreOf(s').value)
  {
    hide Eval, SameConstants;
    var n := |TopVals(s.cur)| - Arity(op);
    if n >= 0 {
      EvaluationKeeps(m, op, TopVals(s.cur)[n..], s.store);
    }
  }

  lemma StepKeeps(p: Program, s: Config, at: seq<nat>, pos: nat)
    requires ConfigOk(p, s, at, pos) && HostKeepsConstants(p.m, p.host)
    ensures StoreOf(SourceStep(p, s)).Some? ==> SameConstants(p.m, s.store, StoreOf(SourceStep(p, s)).value)
  {
    hide FrameOk, CallersOk, ActiveCost, SourceStep, DoPlain;
    StepStore(p, s);
    var f := s.cur;
    if f.code.ICons? && f.code.hd.Basic? && f.code.hd.t.Plain? && f.labels != [] {
      AtPlain(p.m, f, pos);
      PlainStore(p.m, s, f.code.hd.t.op, f.code.tl);
    }
  }

  lemma AtPlain(m: Module, f: Frame, pos: nat)
    requires FrameOk(m, f, pos, []) && f.code.ICons? && f.code.hd.Basic? && f.code.hd.t.Plain?
    ensures
      var op := f.code.hd.t.op;
      op.GlobalSet? ==> op.global < |m.globals| && m.globals[op.global].mutable
  {
    hide Run, Accepts, LabelsOk, SegsOk, TopOk, HasTypes, EndOf, Close;
    assert InstrAt(m.funcs[f.func].body, pos, f.code.hd);
    AcceptedGlobals(m, m.funcs[f.func], pos);
  }

  lemma ConstantsChain(m: Module, st: Store, st1: Store, st2: Store)
    requires SameConstants(m, st, st1) && SameConstants(m, st1, st2)
    ensures SameConstants(m, st, st2)
  {
  }

  lemma {:induction false} RunKeeps(p: Program, image: Image, s: Config, at: seq<nat>, pos: nat, n: nat)
    requires ProgramOk(p) && ImageOk(p, image) && ConfigOk(p, s, at, pos) && HostKeepsConstants(p.m, p.host)
    ensures StoreOf(SourceRun(p, s, n)).Some? ==> SameConstants(p.m, s.store, StoreOf(SourceRun(p, s, n)).value)
    decreases n
  {
    hide ImageOk, ProgramOk, MStep, SourceStep, MachineOf, Simulation.Measure, FrameOk, CallersOk, ActiveCost,
         HostKeepsConstants, Dispatched, Silent;
    if n > 0 {
      var at', pos' := StepSimulated(p, image, Origin([], [], 0), s, at, pos);
      StepKeeps(p, s, at, pos);
      var s' := SourceStep(p, s);
      if s'.Running? {
        MatchesRunning(p, image, s, at, pos, s', at', pos');
        RunKeeps(p, image, s', at', pos', n - 1);
        if StoreOf(SourceRun(p, s', n - 1)).Some? {
          ConstantsChain(p.m, s.store, s'.store, StoreOf(SourceRun(p, s', n - 1)).value);
        }
      } else {
        HaltedStays(p, s', n - 1);
      }
    }
  }

  lemma MatchesRunning(p: Program, image: Image, s: Config, at: seq<nat>, pos: nat, s': Config, at': seq<nat>,
      pos': nat)
    requires Matches(p, image, Origin([], [], 0), s, at, pos, s', at', pos') && s'.Running?
    ensures ConfigOk(p, s', at', pos')
  {
    hide ConfigOk, MachineOf, MStep;
  }

  /** At every state a run of the interpreter reaches, and however it ends, each immutable global has
      the value it had at entry, if the host leaves such globals alone. */
  lemma ConstantsStay(p: Program, image: Image, b: Origin, k: nat, args: seq<Value>, store: Store, n: nat, g: nat)
    requires EntryOk(p, k, args, store) && ImageOk(p, image) && HostKeepsConstants(p.m, p.host)
    requires g < |p.m.globals| && !p.m.globals[g].mutable
    ensures g < |store.globals|
    ensures
      match MRun(p, image, EntryState(p, b, k, args, store), n)
      case Next(t) => g < |t.store.globals| && t.store.globals[g] == store.globals[g]
      case MExit(st) => g < |st.globals| && st.globals[g] == store.globals[g]
      case _ => true
  {
    hide ImageOk, ConfigOk, MRun, AcceptsFirst, IsBody, HasTypes, SourceRun, MachineOf, HostKeepsConstants, HostKeeps;
    var s0 := EntryConfig(p, k, args, store);
    var m0 := EntryState(p, b, k, args, store);
    EntryIsConfig(p, b, k, args, store);
    var r := MRun(p, image, m0, n);
    if r.Next? && r.s.pc.At? {
      var j, at, pos := Soundness.StateIsConfig(p, image, b, s0, [], 0, n);
      RunKeeps(p, image, s0, [], 0, j);
      StoreIs(p, b, SourceRun(p, s0, j), at, pos);
    } else if r.Next? || r.MExit? {
      var j := RunReflected(p, image, b, s0, [], 0, n);
      RunSimulated(p, image, b, s0, [], 0, j);
      FinalAgree(p, image, m0, n, j);
      RunKeeps(p, image, s0, [], 0, j);
    }
  }

  lemma StoreIs(p: Program, b: Origin, s: Config, at: seq<nat>, pos: nat)
    requires ConfigOk(p, s, at, pos)
    ensures s.Running? && MachineOf(p, b, s, at, pos).store == s.store
  {
    hide FrameOk, CallersOk, StoreOk, ActiveCost;
  }
}

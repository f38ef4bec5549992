/** Each step of the structured semantics is one step of the interpreter, or none at all for
    entering a block or loop and for passing an `end`. */
module Simulation {
  import opened Wasm
  import opened Validator
  import opened Scopes
  import opened Bytecode
  import opened Relocation
  import opened Source
  import opened Machine
  import opened Nesting
  import opened Frames
  import opened FrameSteps
  import opened FrameOps
  import opened ModuleWriter
  import opened Layout
  import Parser

  /** Steps without an opcode make this smaller. */
  function RestLen(labels: seq<Label>): nat {
    if labels == [] then 0 else RestLen(labels[..|labels| - 1]) + Len(labels[|labels| - 1].rest)
  }

  function Measure(s: Config): nat {
    if s.Running? then Len(s.cur.code) + RestLen(s.cur.labels) + |s.cur.labels| else 0
  }

  /** `s'` is reached with one dispatch. */
  ghost predicate Dispatched(p: Program, image: Image, b: Origin, s: Config, at: seq<nat>, pos: nat, s': Config,
      at': seq<nat>, pos': nat)
  {
    && ConfigOk(p, s, at, pos)
    && ConfigOk(p, s', at', pos')
    && MStep(p, image, MachineOf(p, b, s, at, pos)) == Next(MachineOf(p, b, s', at', pos'))
  }

  /** One dispatch reaches `s'`, or ends the run as `s'` says. */
  ghost predicate Called(p: Program, image: Image, b: Origin, s: Config, at: seq<nat>, pos: nat,
      s': Config, at': seq<nat>, pos': nat)
  {
    && ConfigOk(p, s, at, pos)
    && var r := MStep(p, image, MachineOf(p, b, s, at, pos));
    && (s'.Aborted? ==> r == MTrap)
    && (s'.Exited? ==> r == MExit(s'.final))
    && (s'.Aborted? || s'.Exited? || Dispatched(p, image, b, s, at, pos, s', at', pos'))
  }

  /** `s'` is reached without any. */
  ghost predicate Silent(p: Program, b: Origin, s: Config, at: seq<nat>, pos: nat, s': Config, at': seq<nat>,
      pos': nat)
  {
    && ConfigOk(p, s, at, pos)
    && ConfigOk(p, s', at', pos')
    && MachineOf(p, b, s', at', pos') == MachineOf(p, b, s, at, pos)
    && Measure(s') < Measure(s)
  }

  /** Within one frame only the program counter, the frame's part of the stack and the store move. */
  lemma SameFunction(p: Program, b: Origin, s: Config, at: seq<nat>, pos: nat, s': Config, pos': nat)
    requires ConfigOk(p, s, at, pos) && s'.Running? && s'.callers == s.callers && s'.cur.func == s.cur.func
    requires FrameOk(p.m, s'.cur, pos', []) && StoreOk(p.m.globals, s'.store)
    ensures ConfigOk(p, s', at, pos')
    ensures MachineOf(p, b, s', at, pos') ==
            MachineOf(p, b, s, at, pos).(
              pc := At(CodePc(p.m, s'.cur, pos')), os := b.os + Flat(s.callers) + FrameStack(s'.cur), store := s'.store)
  {
    hide FrameOk, StoreOk, CallersOk, ActFrames;
    assert (s.callers + [s.cur])[..|s.callers|] == s.callers == (s'.callers + [s'.cur])[..|s.callers|];
    assert CodePcOk(p.m, s'.cur, pos') by { FrameHasPc(p.m, s'.cur, pos'); }
  }

  ghost predicate CodePcOk(m: Module, f: Frame, pos: nat) {
    f.func < |m.funcs| && pos < |m.funcs[f.func].body|
  }

  lemma FrameHasPc(m: Module, f: Frame, pos: nat)
    requires FrameOk(m, f, pos, [])
    ensures CodePcOk(m, f, pos) && f.labels != []
  {
  }

  /** The opcode of the instruction a frame is at. */
  lemma OpcodeOf(p: Program, image: Image, s: Config, at: seq<nat>, pos: nat)
    requires ImageOk(p, image) && ConfigOk(p, s, at, pos)
    requires Width(p.m, p.m.funcs[s.cur.func].body[pos]) > 0
    ensures
      var fd := p.m.funcs[s.cur.func];
      && Inside(p.m, fd, pos)
      && CodePc(p.m, s.cur, pos) < |image.code|
      && image.code[CodePc(p.m, s.cur, pos)] == Emit(p.m, fd, Base(p.m, s.cur.func), pos)[0]
  {
    hide Accepts, Emit, Run, Width, CallersOk, LabelsOk, SegsOk, TopOk, ContinuesAt;
    OpcodesAt(p, image, s.cur.func, pos, 0);
  }

  lemma NextPc(m: Module, f: Frame, pos: nat)
    requires WellSized(m) && CodePcOk(m, f, pos)
    ensures CodePc(m, f, pos + 1) == CodePc(m, f, pos) + Width(m, m.funcs[f.func].body[pos])
  {
  }

  /** Operands on top of the stack are the operands of the innermost label. */
  lemma TopOfStack(p: Program, b: Origin, s: Config, at: seq<nat>, pos: nat)
    requires ConfigOk(p, s, at, pos)
    ensures s.cur.labels != []
    ensures MachineOf(p, b, s, at, pos).os == (b.os + Flat(s.callers) + Under(s.cur)) + TopVals(s.cur)
    ensures MachineOf(p, b, s, at, pos).lastOpIndex == |b.os + Flat(s.callers)|
    ensures MachineOf(p, b, s, at, pos).store == s.store
    ensures CodePcOk(p.m, s.cur, pos) && MachineOf(p, b, s, at, pos).pc == At(CodePc(p.m, s.cur, pos))
  {
    hide FrameOk, CallersOk, StoreOk, ActFrames, Run;
    FrameHasPc(p.m, s.cur, pos);
    StackShape(s.cur, []);
    assert b.os + Flat(s.callers) + FrameStack(s.cur) == (b.os + Flat(s.callers) + Under(s.cur)) + TopVals(s.cur);
  }

  /** Taking operands off a stack and putting others on. */
  lemma Replace(below: seq<Value>, vals: seq<Value>, n: nat, results: seq<Value>)
    requires n <= |vals|
    ensures |below + vals| >= n
    ensures (below + vals)[|below + vals| - n..] == vals[|vals| - n..]
    ensures (below + vals)[..|below + vals| - n] + results == below + (vals[..|vals| - n] + results)
  {
  }

  /** The stack once the innermost label has the operands `vals`. */
  lemma StackAfter(b: Origin, callers: seq<Frame>, f: Frame, vals: seq<Value>, code: Instrs)
    requires f.labels != []
    ensures b.os + Flat(callers) + FrameStack(SetTop(f, vals).(code := code)) ==
            (b.os + Flat(callers) + Under(f)) + vals
  {
    StackShape(f, vals);
    assert FrameStack(SetTop(f, vals).(code := code)) == FrameStack(SetTop(f, vals));
  }

  lemma StraightSource(p: Program, s: Config)
    requires s.Running? && s.cur.labels != [] && s.cur.code.ICons? && s.cur.code.hd.Basic? &&
            IsStraight(s.cur.code.hd.t)
    ensures SourceStep(p, s) == DoStraight(p, s, s.cur.code.hd.t, s.cur.code.tl)
  {
    hide DoStraight;
  }

  lemma StraightMachine(p: Program, image: Image, b: Origin, s: Config, at: seq<nat>, pos: nat)
    requires ImageOk(p, image) && ConfigOk(p, s, at, pos)
    requires s.cur.code.ICons? && s.cur.code.hd.Basic? && IsStraight(s.cur.code.hd.t)
    ensures
      var ms := MachineOf(p, b, s, at, pos);
      && MStep(p, image, ms) == Dispatch(p, image, ms, Parser.StraightOp(s.cur.code.hd.t))
      && IncPc(ms.pc) == At(CodePc(p.m, s.cur, pos + 1))
  {
    hide FrameOk, CallersOk, StoreOk, ActFrames, Run, Emit, Dispatch, ActiveCost;
    AtToken(p.m, s.cur, pos);
    OpcodeOf(p, image, s, at, pos);
    EmitStraight(p.m, p.m.funcs[s.cur.func], Base(p.m, s.cur.func), pos);
    NextPc(p.m, s.cur, pos);
  }

  /** The frame goes on after a straight instruction with the operands `vals`. */
  lemma Advanced(p: Program, b: Origin, s: Config, at: seq<nat>, pos: nat, locals: seq<Value>, vals: seq<Value>,
      store: Store)
    requires ConfigOk(p, s, at, pos) && s.cur.labels != [] && s.cur.code.ICons? && |locals| == |s.cur.locals|
    requires FrameOk(p.m, SetTop(s.cur, vals).(locals := locals, code := s.cur.code.tl), pos + 1, [])
    requires StoreOk(p.m.globals, store)
    ensures
      var s' := Running(s.callers, SetTop(s.cur, vals).(locals := locals, code := s.cur.code.tl), store);
      && ConfigOk(p, s', at, pos + 1)
      && MachineOf(p, b, s', at, pos + 1) ==
         MachineOf(p, b, s, at, pos).(
           pc := At(CodePc(p.m, s.cur, pos + 1)),
           os := (b.os + Flat(s.callers) + Under(s.cur.(locals := locals))) + vals,
           store := store)
  {
    hide FrameOk, CallersOk, StoreOk, ActFrames, Run, ActiveCost, MachineOf, Addr;
    var f := s.cur.(locals := locals);
    var s' := Running(s.callers, SetTop(s.cur, vals).(locals := locals, code := s.cur.code.tl), store);
    assert SetTop(f, vals).(code := s.cur.code.tl) == s'.cur;
    FrameHasPc(p.m, s'.cur, pos + 1);
    StackAfter(b, s.callers, f, vals, s.cur.code.tl);
    SameFunction(p, b, s, at, pos, s', pos + 1);
  }

  lemma SimPlain(p: Program, image: Image, b: Origin, s: Config, at: seq<nat>, pos: nat) returns (pos': nat)
    requires ImageOk(p, image) && ConfigOk(p, s, at, pos)
    requires s.cur.code.ICons? && s.cur.code.hd.Basic? && s.cur.code.hd.t.Plain?
    ensures
      var s' := SourceStep(p, s);
      && (s'.Aborted? ==> MStep(p, image, MachineOf(p, b, s, at, pos)) == MTrap)
      && (!s'.Aborted? ==> Dispatched(p, image, b, s, at, pos, s', at, pos'))
  {
    hide FrameOk, CallersOk, StoreOk, ActFrames, Run, Eval, MStep, SourceStep, ActiveCost, ImageOk, Under, CodePc;
    pos' := pos + 1;
    TopOfStack(p, b, s, at, pos);
    var op := s.cur.code.hd.t.op;
    var vals := TopVals(s.cur);
    PlainFrame(p.m, s.cur, pos, s.store);
    StraightSource(p, s);
    StraightMachine(p, image, b, s, at, pos);
    var below := b.os + Flat(s.callers) + Under(s.cur);
    var r := Eval(op, vals[|vals| - Arity(op)..], s.store);
    Replace(below, vals, Arity(op), if r.Evaluated? then r.results else if r.Repeated? then r.args else []);
    if r.Evaluated? {
      Advanced(p, b, s, at, pos, s.cur.locals, vals[..|vals| - Arity(op)] + r.results, r.store);
    } else if r.Repeated? {
      pos' := pos;
      Stayed(p, b, s, at, pos, vals[..|vals| - Arity(op)] + r.args, r.store);
    }
  }

  /** The frame is where it was, with other operands. */
  lemma Stayed(p: Program, b: Origin, s: Config, at: seq<nat>, pos: nat, vals: seq<Value>, store: Store)
    requires ConfigOk(p, s, at, pos) && s.cur.labels != []
    requires FrameOk(p.m, SetTop(s.cur, vals), pos, []) && StoreOk(p.m.globals, store)
    ensures
      var s' := Continue(s.(store := store), vals, s.cur.code);
      && ConfigOk(p, s', at, pos)
      && MachineOf(p, b, s', at, pos) ==
         MachineOf(p, b, s, at, pos).(os := (b.os + Flat(s.callers) + Under(s.cur)) + vals, store := store)
  {
    hide FrameOk, CallersOk, StoreOk, ActFrames, Run, ActiveCost, Addr;
    var s' := Running(s.callers, SetTop(s.cur, vals), store);
    assert s' == Continue(s.(store := store), vals, s.cur.code);
    FrameHasPc(p.m, s'.cur, pos);
    StackAfter(b, s.callers, s.cur, vals, s.cur.code);
    SameFunction(p, b, s, at, pos, s', pos);
  }

  /** Where a step within the frame leaves the structured semantics. */
  function Moved(s: Config, locals: seq<Value>, vals: seq<Value>): Config
    requires s.Running? && s.cur.labels != [] && s.cur.code.ICons?
  {
    Running(s.callers, SetTop(s.cur, vals).(locals := locals, code := s.cur.code.tl), s.store)
  }

  lemma DropSteps(p: Program, image: Image, s: Config, ms: MState, below: seq<Value>)
    requires s.Running? && s.cur.labels != [] && s.cur.code.ICons? && s.cur.code.hd == Basic(Drop)
    requires TopVals(s.cur) != [] && ms.os == below + TopVals(s.cur)
    ensures
      var vals := TopVals(s.cur)[..|TopVals(s.cur)| - 1];
      && DoStraight(p, s, Drop, s.cur.code.tl) == Moved(s, s.cur.locals, vals)
      && Dispatch(p, image, ms, ODrop) == Next(ms.(pc := IncPc(ms.pc), os := below + vals))
  {
    var vals := TopVals(s.cur);
    assert (below + vals)[..|below + vals| - 1] == below + vals[..|vals| - 1];
  }

  /** The operands `select` leaves. */
  function Picked(vals: seq<Value>): seq<Value>
    requires |vals| >= 3 && vals[|vals| - 1].VI32?
  {
    var n := |vals|;
    vals[..n - 3] + [if vals[n - 1].i32 != 0 then vals[n - 3] else vals[n - 2]]
  }

  lemma SelectSteps(p: Program, image: Image, s: Config, ms: MState, below: seq<Value>)
    requires s.Running? && s.cur.labels != [] && s.cur.code.ICons? && s.cur.code.hd == Basic(Select)
    requires |TopVals(s.cur)| >= 3 && TopVals(s.cur)[|TopVals(s.cur)| - 1].VI32? && ms.os == below + TopVals(s.cur)
    ensures DoStraight(p, s, Select, s.cur.code.tl) == Moved(s, s.cur.locals, Picked(TopVals(s.cur)))
    ensures Dispatch(p, image, ms, OSelect) ==
            Next(ms.(pc := IncPc(ms.pc), os := below + Picked(TopVals(s.cur))))
  {
    hide TopVals;
    var vals := TopVals(s.cur);
    var n := |vals|;
    Replace(below, vals, 3, [if vals[n - 1].i32 != 0 then vals[n - 3] else vals[n - 2]]);
    var m := |below + vals|;
    assert ms.os[m - 1] == vals[n - 1] && ms.os[m - 2] == vals[n - 2] && ms.os[m - 3] == vals[n - 3];
  }

  lemma SimStack(p: Program, image: Image, b: Origin, s: Config, at: seq<nat>, pos: nat)
    requires ImageOk(p, image) && ConfigOk(p, s, at, pos)
    requires s.cur.code.ICons? && s.cur.code.hd.Basic? && (s.cur.code.hd.t.Drop? || s.cur.code.hd.t.Select?)
    ensures Dispatched(p, image, b, s, at, pos, SourceStep(p, s), at, pos + 1)
  {
    hide FrameOk, CallersOk, StoreOk, ActFrames, Run, MStep, SourceStep, ActiveCost, ImageOk, Under, CodePc,
         MachineOf, DoStraight, Dispatch, SetTop, TopVals, Flat;
    TopOfStack(p, b, s, at, pos);
    StraightSource(p, s);
    StraightMachine(p, image, b, s, at, pos);
    var vals := TopVals(s.cur);
    var ms := MachineOf(p, b, s, at, pos);
    var below := b.os + Flat(s.callers) + Under(s.cur);
    assert s.cur.(locals := s.cur.locals) == s.cur;
    if s.cur.code.hd.t.Drop? {
      DropFrame(p.m, s.cur, pos);
      DropSteps(p, image, s, ms, below);
      SameLocals(s.cur, vals[..|vals| - 1]);
      Advanced(p, b, s, at, pos, s.cur.locals, vals[..|vals| - 1], s.store);
    } else {
      SelectFrame(p.m, s.cur, pos);
      SelectSteps(p, image, s, ms, below);
      SameLocals(s.cur, Picked(vals));
      Advanced(p, b, s, at, pos, s.cur.locals, Picked(vals), s.store);
    }
  }

  /** A local is found above the frame's base. */
  lemma LocalOnStack(base: seq<Value>, f: Frame, vals: seq<Value>, i: nat, v: Value)
    requires f.labels != [] && i < |f.locals|
    ensures |base| + i < |base + Under(f)|
    ensures ((base + Under(f)) + vals)[|base| + i] == f.locals[i]
    ensures ((base + Under(f)) + vals)[|base| + i := v] == (base + Under(f.(locals := f.locals[i := v]))) + vals
  {
  }

  lemma WriteOnStack(base: seq<Value>, f: Frame, vals: seq<Value>, i: nat, v: Value)
    requires f.labels != [] && i < |f.locals| && vals != [] && v == vals[|vals| - 1]
    ensures
      var os := (base + Under(f)) + vals;
      var below := base + Under(f.(locals := f.locals[i := v]));
      && |base| + i + 1 < |os| && os[|os| - 1] == v
      && os[..|os| - 1][|base| + i := v] == below + vals[..|vals| - 1]
      && os[..|os| - 1][|base| + i := v] + [v] == below + vals
  {
    hide Under;
    var n := |vals| - 1;
    assert ((base + Under(f)) + vals)[..|base + Under(f)| + n] == (base + Under(f)) + vals[..n];
    LocalOnStack(base, f, vals[..n], i, v);
    assert vals == vals[..n] + [v];
  }

  lemma SimLocalGet(p: Program, image: Image, b: Origin, s: Config, at: seq<nat>, pos: nat)
    requires ImageOk(p, image) && ConfigOk(p, s, at, pos)
    requires s.cur.code.ICons? && s.cur.code.hd.Basic? && s.cur.code.hd.t.LocalGet?
    ensures Dispatched(p, image, b, s, at, pos, SourceStep(p, s), at, pos + 1)
  {
    hide FrameOk, CallersOk, StoreOk, ActFrames, Run, MStep, SourceStep, ActiveCost, ImageOk, Under, CodePc;
    TopOfStack(p, b, s, at, pos);
    var vals := TopVals(s.cur);
    StraightSource(p, s);
    StraightMachine(p, image, b, s, at, pos);
    LocalGetFrame(p.m, s.cur, pos);
    var i := s.cur.code.hd.t.local;
    var below := b.os + Flat(s.callers) + Under(s.cur);
    LocalOnStack(b.os + Flat(s.callers), s.cur, vals, i, s.cur.locals[i]);
    assert (below + vals) + [s.cur.locals[i]] == below + (vals + [s.cur.locals[i]]);
    Advanced(p, b, s, at, pos, s.cur.locals, vals + [s.cur.locals[i]], s.store);
  }

  lemma WriteSteps(p: Program, image: Image, s: Config, ms: MState, base: seq<Value>)
    requires s.Running? && s.cur.labels != [] && s.cur.code.ICons? && s.cur.code.hd.Basic?
    requires s.cur.code.hd.t.LocalSet? || s.cur.code.hd.t.LocalTee?
    requires s.cur.code.hd.t.local < |s.cur.locals| && TopVals(s.cur) != []
    requires ms.os == (base + Under(s.cur)) + TopVals(s.cur) && ms.lastOpIndex == |base|
    ensures
      var t, vals := s.cur.code.hd.t, TopVals(s.cur);
      var locals := s.cur.locals[t.local := vals[|vals| - 1]];
      var vals' := if t.LocalSet? then vals[..|vals| - 1] else vals;
      && DoStraight(p, s, t, s.cur.code.tl) == Moved(s, locals, vals')
      && Dispatch(p, image, ms, Parser.StraightOp(t)) ==
         Next(ms.(pc := IncPc(ms.pc), os := (base + Under(s.cur.(locals := locals))) + vals'))
  {
    hide Under;
    WriteOnStack(base, s.cur, TopVals(s.cur), s.cur.code.hd.t.local, TopVals(s.cur)[|TopVals(s.cur)| - 1]);
  }

  lemma SimLocalWrite(p: Program, image: Image, b: Origin, s: Config, at: seq<nat>, pos: nat)
    requires ImageOk(p, image) && ConfigOk(p, s, at, pos)
    requires s.cur.code.ICons? && s.cur.code.hd.Basic? && (s.cur.code.hd.t.LocalSet? || s.cur.code.hd.t.LocalTee?)
    ensures Dispatched(p, image, b, s, at, pos, SourceStep(p, s), at, pos + 1)
  {
    hide FrameOk, CallersOk, StoreOk, ActFrames, Run, MStep, SourceStep, ActiveCost, ImageOk, Under, CodePc,
         MachineOf, DoStraight, Dispatch, SetTop, TopVals, Flat, Parser.StraightOp;
    TopOfStack(p, b, s, at, pos);
    StraightSource(p, s);
    StraightMachine(p, image, b, s, at, pos);
    LocalWriteFrame(p.m, s.cur, pos);
    var t, vals := s.cur.code.hd.t, TopVals(s.cur);
    WriteSteps(p, image, s, MachineOf(p, b, s, at, pos), b.os + Flat(s.callers));
    Advanced(p, b, s, at, pos, s.cur.locals[t.local := vals[|vals| - 1]],
             if t.LocalSet? then vals[..|vals| - 1] else vals, s.store);
  }

  lemma SimUnreachable(p: Program, image: Image, b: Origin, s: Config, at: seq<nat>, pos: nat)
    requires ImageOk(p, image) && ConfigOk(p, s, at, pos)
    requires s.cur.code.ICons? && s.cur.code.hd.Basic? && s.cur.code.hd.t.Unreachable?
    ensures SourceStep(p, s).Aborted? && MStep(p, image, MachineOf(p, b, s, at, pos)) == MTrap
  {
    hide FrameOk, CallersOk, StoreOk, ActFrames, Run, MStep, SourceStep, ActiveCost, ImageOk, CodePc;
    TopOfStack(p, b, s, at, pos);
    StraightSource(p, s);
    StraightMachine(p, image, b, s, at, pos);
  }

  /** Entering a block or a loop takes no dispatch. */
  lemma SimEnter(p: Program, image: Image, b: Origin, s: Config, at: seq<nat>, pos: nat)
    requires ImageOk(p, image) && ConfigOk(p, s, at, pos)
    requires s.cur.code.ICons? && (s.cur.code.hd.BlockI? || s.cur.code.hd.LoopI?)
    ensures Silent(p, b, s, at, pos, SourceStep(p, s), at, pos + 1)
  {
    hide FrameOk, CallersOk, StoreOk, ActFrames, Run, ActiveCost, ImageOk, CodePc, MachineOf;
    TopOfStack(p, b, s, at, pos);
    var s' := SourceStep(p, s);
    EnterBlock(p.m, s.cur, pos);
    SameFunction(p, b, s, at, pos, s', pos + 1);
    var l := s'.cur.labels[|s.cur.labels|];
    ValsEnter(s.cur.labels, l);
    assert Vals(s'.cur.labels) == Vals(s.cur.labels);
    RestLenEnter(s.cur.labels, l);
    OpenerAt(p.m, s.cur, pos);
    NextPc(p.m, s.cur, pos);
    SamePc(p, b, s, at, pos);
    CodePcFunc(p.m, s'.cur, s.cur, pos + 1);
    assert ConfigOk(p, s', at, pos + 1);
    assert FrameStack(s'.cur) == FrameStack(s.cur);
    assert Len(s.cur.code) == LenI(s.cur.code.hd) + Len(s.cur.code.tl);
    assert Measure(s') < Measure(s);
    assert MachineOf(p, b, s', at, pos + 1) == MachineOf(p, b, s, at, pos);
  }

  lemma CodePcFunc(m: Module, f: Frame, g: Frame, pos: nat)
    requires WellSized(m) && f.func == g.func < |m.funcs| && pos <= |m.funcs[f.func].body|
    ensures CodePc(m, f, pos) == CodePc(m, g, pos)
  {
  }

  lemma SamePc(p: Program, b: Origin, s: Config, at: seq<nat>, pos: nat)
    requires ConfigOk(p, s, at, pos)
    ensures
      var ms := MachineOf(p, b, s, at, pos);
      ms == ms.(pc := At(CodePc(p.m, s.cur, pos)), os := b.os + Flat(s.callers) + FrameStack(s.cur), store := s.store)
  {
    hide FrameOk, CallersOk, StoreOk, ActFrames;
  }

  lemma RestLenEnter(labels: seq<Label>, l: Label)
    ensures RestLen(labels + [l]) == RestLen(labels) + Len(l.rest)
  {
    assert (labels + [l])[..|labels|] == labels;
  }

  /** The token of a structured instruction. */
  lemma OpenerAt(m: Module, f: Frame, pos: nat)
    requires FrameOk(m, f, pos, []) && f.code.ICons? && !f.code.hd.Basic?
    ensures CodePcOk(m, f, pos)
    ensures
      var t := m.funcs[f.func].body[pos];
      && Opens(t) && t.bt == f.code.hd.bt
      && (t.If? <==> f.code.hd.IfI?)
  {
    hide Run, Accepts, LabelsOk, SegsOk, TopOk;
    assert InstrAt(m.funcs[f.func].body, pos, f.code.hd);
  }

  /** Where the one branch target of an `if` or an `else` goes. */
  lemma IfTarget(m: Module, f: Frame, pos: nat, base: nat)
    requires WellSized(m) && FrameOk(m, f, pos, []) && f.code.ICons? && f.code.hd.IfI?
    ensures
      var fd := m.funcs[f.func];
      && Inside(m, fd, pos) && fd.body[pos].If?
      && IfPos(f.code.hd, pos, false) <= |fd.body|
      && TargetPc(m, fd, base, pos, 0) == base + Addr(m, fd, IfPos(f.code.hd, pos, false))
  {
    hide Accepts, LabelsOk, SegsOk, TopOk, EndOf, Close, Run;
    var fd := m.funcs[f.func];
    AfterInstr(m, fd, pos, f.code, Last(Run(m, fd, pos).value).opener);
    RunAll(m, fd, pos);
  }

  lemma IfOpcode(p: Program, image: Image, s: Config, at: seq<nat>, pos: nat)
    requires ImageOk(p, image) && ConfigOk(p, s, at, pos) && s.cur.code.ICons? && s.cur.code.hd.IfI?
    ensures CodePcOk(p.m, s.cur, pos) && p.m.funcs[s.cur.func].body[pos].If?
    ensures
      var pos' := IfPos(s.cur.code.hd, pos, false);
      && pos' <= |p.m.funcs[s.cur.func].body|
      && CodePc(p.m, s.cur, pos) < |image.code|
      && image.code[CodePc(p.m, s.cur, pos)] == OIf(Base(p.m, s.cur.func) + Addr(p.m, p.m.funcs[s.cur.func], pos'))
  {
    hide FrameOk, CallersOk, StoreOk, Run, ActiveCost, ImageOk, CodePc, TargetPc, Addr, Base;
    OpenerAt(p.m, s.cur, pos);
    OpcodeOf(p, image, s, at, pos);
    IfTarget(p.m, s.cur, pos, Base(p.m, s.cur.func));
  }

  /** The frame inside an `if`, and its stack. */
  lemma IfEntered(p: Program, b: Origin, s: Config, at: seq<nat>, pos: nat, taken: bool)
    requires ConfigOk(p, s, at, pos) && s.cur.code.ICons? && s.cur.code.hd.IfI?
    ensures s.cur.labels != [] && TopVals(s.cur) != [] && TopVals(s.cur)[|TopVals(s.cur)| - 1].VI32?
    ensures
      var f := s.cur;
      var vals := TopVals(f);
      var g := Frame(f.func, f.locals, SetTop(f, vals[..|vals| - 1]).labels + [IfLabel(f)], if taken then f.code.hd.thn
          else f.code.hd.els);
      var s' := s.(cur := g);
      var pos' := IfPos(f.code.hd, pos, taken);
      && CodePcOk(p.m, g, pos')
      && ConfigOk(p, s', at, pos')
      && MachineOf(p, b, s', at, pos') ==
         MachineOf(p, b, s, at, pos).(pc := At(CodePc(p.m, f, pos')), os :=
           (b.os + Flat(s.callers) + Under(f)) + vals[..|vals| - 1])
  {
    hide FrameOk, CallersOk, StoreOk, ActFrames, Run, ActiveCost, CodePc, Under;
    TopOfStack(p, b, s, at, pos);
    var f := s.cur;
    var vals := TopVals(f);
    EnterIf(p.m, f, pos, taken);
    var pos' := IfPos(f.code.hd, pos, taken);
    var init := vals[..|vals| - 1];
    var g := Frame(f.func, f.locals, SetTop(f, init).labels + [IfLabel(f)], if taken then f.code.hd.thn
        else f.code.hd.els);
    FrameHasPc(p.m, g, pos');
    SameFunction(p, b, s, at, pos, s.(cur := g), pos');
    ValsEnter(SetTop(f, init).labels, IfLabel(f));
    StackAfter(b, s.callers, f, init, f.code);
    assert Vals(SetTop(f, init).labels) + [] == Vals(SetTop(f, init).labels);
    assert FrameStack(g) == FrameStack(SetTop(f, init).(code := f.code));
    CodePcFunc(p.m, g, f, pos');
  }

  lemma SimIf(p: Program, image: Image, b: Origin, s: Config, at: seq<nat>, pos: nat) returns (pos': nat)
    requires ImageOk(p, image) && ConfigOk(p, s, at, pos)
    requires s.cur.code.ICons? && s.cur.code.hd.IfI?
    ensures Dispatched(p, image, b, s, at, pos, SourceStep(p, s), at, pos')
  {
    hide FrameOk, CallersOk, StoreOk, ActFrames, Run, ActiveCost, ImageOk, CodePc, Under, MachineOf, SourceStep, MStep,
         Flat, FrameStack, SetTop, Addr, Base;
    TopOfStack(p, b, s, at, pos);
    IfEntered(p, b, s, at, pos, true);
    var f := s.cur;
    var vals := TopVals(f);
    var taken := vals[|vals| - 1].i32 != 0;
    IfOpcode(p, image, s, at, pos);
    IfEntered(p, b, s, at, pos, taken);
    pos' := IfPos(f.code.hd, pos, taken);
    Replace(b.os + Flat(s.callers) + Under(f), vals, 1, []);
    IfPcs(p.m, f, pos, pos', taken);
    IfSource(p, s);
    IfDispatch(p, image, MachineOf(p, b, s, at, pos), CodePc(p.m, f, pos),
      Base(p.m, f.func) + Addr(p.m, p.m.funcs[f.func], IfPos(f.code.hd, pos, false)));
  }

  lemma IfSource(p: Program, s: Config)
    requires s.Running? && s.cur.labels != [] && s.cur.code.ICons? && s.cur.code.hd.IfI?
    requires TopVals(s.cur) != [] && TopVals(s.cur)[|TopVals(s.cur)| - 1].VI32?
    ensures
      var f := s.cur;
      var vals := TopVals(f);
      var part := if vals[|vals| - 1].i32 != 0 then f.code.hd.thn else f.code.hd.els;
      SourceStep(p, s) == s.(cur := Frame(f.func, f.locals, SetTop(f, vals[..|vals| - 1]).labels + [IfLabel(f)], part))
  {
  }

  lemma IfDispatch(p: Program, image: Image, ms: MState, pc: nat, target: nat)
    requires ms.pc == At(pc) && pc < |image.code| && image.code[pc] == OIf(target)
    requires ms.os != [] && ms.os[|ms.os| - 1].VI32?
    ensures MStep(p, image, ms) ==
            Next(ms.(pc := At(if ms.os[|ms.os| - 1].i32 == 0 then target else pc + 1), os := ms.os[..|ms.os| - 1]))
  {
  }

  lemma IfPcs(m: Module, f: Frame, pos: nat, pos': nat, taken: bool)
    requires WellSized(m) && CodePcOk(m, f, pos) && f.code.ICons? && f.code.hd.IfI? && m.funcs[f.func].body[pos].If?
    requires pos' == IfPos(f.code.hd, pos, taken) && pos' <= |m.funcs[f.func].body|
    ensures CodePc(m, f, pos') == if taken then CodePc(m, f, pos) + 1
            else Base(m, f.func) + Addr(m, m.funcs[f.func], pos')
  {
    NextPc(m, f, pos);
  }

  /** Passing the `end` of a label takes no dispatch; reaching an `else` from above takes its jump. */
  lemma SimExit(p: Program, image: Image, b: Origin, s: Config, at: seq<nat>, pos: nat) returns (pos': nat)
    requires ImageOk(p, image) && ConfigOk(p, s, at, pos)
    requires s.cur.code == INil && |s.cur.labels| > 1
    ensures
      || Silent(p, b, s, at, pos, SourceStep(p, s), at, pos')
      || Dispatched(p, image, b, s, at, pos, SourceStep(p, s), at, pos')
  {
    hide CallersOk, StoreOk, ActFrames, Run, ActiveCost, ImageOk, CodePc, Under, Addr, Base, FrameOk;
    TopOfStack(p, b, s, at, pos);
    var f := s.cur;
    var last := |f.labels| - 1;
    var inner := f.labels[last];
    var outer := f.(labels := f.labels[..last], code := inner.rest);
    var g := SetTop(outer, TopVals(outer) + inner.vals);
    var s' := SourceStep(p, s);
    assert s' == s.(cur := g);
    pos' := ExitPos(p.m, f, pos);
    SameFunction(p, b, s, at, pos, s', pos');
    ExitStack(f);
    CodePcFunc(p.m, g, f, pos');
    SamePc(p, b, s, at, pos);
    if p.m.funcs[f.func].body[pos].Else? {
      ExitByElse(p, image, s, at, pos, pos');
    } else {
      ExitMeasure(s, s');
    }
  }

  /** The position after the `end` of the innermost label. */
  lemma ExitPos(m: Module, f: Frame, pos: nat) returns (pos': nat)
    requires WellSized(m) && FrameOk(m, f, pos, []) && f.code == INil && |f.labels| > 1
    ensures
      var outer := f.(labels := f.labels[..|f.labels| - 1], code := f.labels[|f.labels| - 1].rest);
      FrameOk(m, SetTop(outer, TopVals(outer) + f.labels[|f.labels| - 1].vals), pos', [])
    ensures
      var fd := m.funcs[f.func];
      var o := Last(Run(m, fd, pos).value).opener;
      && CodePcOk(m, f, pos) && pos' <= |fd.body|
      && -1 <= o < |fd.body| && pos' == EndOf(m, fd, o) + 1
      && (fd.body[pos].End? || fd.body[pos].Else?)
      && CodePc(m, f, pos') == Base(m, f.func) + Addr(m, fd, EndOf(m, fd, o))
      && (fd.body[pos].End? ==> CodePc(m, f, pos') == CodePc(m, f, pos))
  {
    hide Run, Accepts, LabelsOk, SegsOk, TopOk, EndOf, Close, Base;
    var fd := m.funcs[f.func];
    var s := Run(m, fd, pos).value;
    var k := |f.labels| - 1;
    LabelFacts(m, fd, s.ctrls, f.labels, k);
    ScopeAtEnd(m, fd, pos, k);
    ExitLabel(m, f, pos);
    pos' := EndOf(m, fd, Last(s).opener) + 1;
  }

  lemma ExitStack(f: Frame)
    requires |f.labels| > 1
    ensures
      var outer := f.(labels := f.labels[..|f.labels| - 1], code := f.labels[|f.labels| - 1].rest);
      FrameStack(SetTop(outer, TopVals(outer) + f.labels[|f.labels| - 1].vals)) == FrameStack(f)
  {
    var last := |f.labels| - 1;
    var outer := f.(labels := f.labels[..last], code := f.labels[last].rest);
    ValsOfTop(outer, TopVals(outer) + f.labels[last].vals);
    assert Vals(f.labels) == Vals(outer.labels) + f.labels[last].vals;
    assert Vals(outer.labels) == Vals(outer.labels[..last - 1]) + TopVals(outer);
  }

  lemma ExitMeasure(s: Config, s': Config)
    requires s.Running? && s.cur.code == INil && |s.cur.labels| > 1
    requires
      var f := s.cur;
      var outer := f.(labels := f.labels[..|f.labels| - 1], code := f.labels[|f.labels| - 1].rest);
      s' == s.(cur := SetTop(outer, TopVals(outer) + f.labels[|f.labels| - 1].vals))
    ensures Measure(s') < Measure(s)
  {
    var f := s.cur;
    var outer := f.(labels := f.labels[..|f.labels| - 1], code := f.labels[|f.labels| - 1].rest);
    RestLenTop(outer, TopVals(outer) + f.labels[|f.labels| - 1].vals);
  }

  lemma RestLenTop(f: Frame, vals: seq<Value>)
    requires f.labels != []
    ensures RestLen(SetTop(f, vals).labels) == RestLen(f.labels)
  {
    assert SetTop(f, vals).labels[..|f.labels| - 1] == f.labels[..|f.labels| - 1];
  }

  lemma ExitByElse(p: Program, image: Image, s: Config, at: seq<nat>, pos: nat, pos': nat)
    requires ImageOk(p, image) && ConfigOk(p, s, at, pos)
    requires s.cur.code == INil && p.m.funcs[s.cur.func].body[pos].Else?
    requires
      var fd := p.m.funcs[s.cur.func];
      var o := Last(Run(p.m, fd, pos).value).opener;
      && -1 <= o < |fd.body| && pos' == EndOf(p.m, fd, o) + 1 <= |fd.body|
      && CodePc(p.m, s.cur, pos') == Base(p.m, s.cur.func) + Addr(p.m, fd, EndOf(p.m, fd, o))
    ensures CodePc(p.m, s.cur, pos) < |image.code| &&
            image.code[CodePc(p.m, s.cur, pos)] == OElse(CodePc(p.m, s.cur, pos'))
  {
    hide Accepts, LabelsOk, SegsOk, TopOk, CallersOk, EndOf, Close, Base, CodePc, ImageOk, ContinuesAt, Emit, Run,
         Addr, Width;
    var fd := p.m.funcs[s.cur.func];
    ElseWidth(p.m, fd, pos);
    OpcodeOf(p, image, s, at, pos);
    RunAll(p.m, fd, pos + 1);
    ElseEmit(p.m, fd, Base(p.m, s.cur.func), pos);
  }

  lemma ElseWidth(m: Module, fd: FuncDecl, pos: nat)
    requires WellSized(m) && pos < |fd.body| && fd.body[pos].Else?
    ensures Width(m, fd.body[pos]) == 1
  {
  }

  /** The jump of an `else` goes to the `end` of its scope. */
  lemma ElseEmit(m: Module, fd: FuncDecl, base: nat, pos: nat)
    requires WellSized(m) && Inside(m, fd, pos) && fd.body[pos].Else? && Run(m, fd, pos + 1).Some?
    ensures
      var o := Last(Run(m, fd, pos).value).opener;
      -1 <= o < |fd.body| && Emit(m, fd, base, pos) == [OElse(base + Addr(m, fd, EndOf(m, fd, o)))]
  {
    hide Step, EndOf, Addr;
    var s := Run(m, fd, pos).value;
    StepShape(m, fd, s, fd.body[pos], pos);
    ScopesOk(m, fd, pos, |s.ctrls| - 1);
  }

  /** Without a result a jump leaves what lies below `rest`. */
  lemma JumpDrops(ms: MState, below: seq<Value>, rest: seq<Value>, pc: nat)
    requires ms.os == below + rest && |rest| < RESULT_FLAG
    ensures Jump(ms, |rest|, pc) == Next(ms.(pc := At(pc), os := below))
  {
    assert ms.os[..|ms.os| - |rest|] == below;
  }

  /** With a result it also leaves the top. */
  lemma JumpKeeps(ms: MState, below: seq<Value>, rest: seq<Value>, pc: nat)
    requires ms.os == below + rest && 0 < |rest| < RESULT_FLAG
    ensures Jump(ms, |rest| + RESULT_FLAG, pc) == Next(ms.(pc := At(pc), os := below + [rest[|rest| - 1]]))
  {
    assert ms.os[..|ms.os| - |rest|] == below;
    assert ms.os[|ms.os| - 1] == rest[|rest| - 1];
  }

  /** The operands above the entry of label `k`, with those of the branch on top. */
  lemma OperandsAbove(f: Frame, vals: seq<Value>, k: nat) returns (rest: seq<Value>)
    requires k < |f.labels|
    ensures Vals(SetTop(f, vals).labels) == Vals(f.labels[..k]) + rest && |rest| == Above(f, vals, k)
    ensures vals != [] ==> rest != [] && rest[|rest| - 1] == vals[|vals| - 1]
  {
    ValsOfTop(f, vals);
    ValsBelow(f, vals, k);
    var all := Vals(SetTop(f, vals).labels);
    rest := all[|Vals(f.labels[..k])|..];
  }

  lemma LastOnly(vals: seq<Value>)
    requires vals != []
    ensures vals[|vals| - 1..] == [vals[|vals| - 1]]
  {
  }

  lemma Regroup(base: seq<Value>, locals: seq<Value>, below: seq<Value>, rest: seq<Value>)
    ensures base + (locals + (below + rest)) == (base + (locals + below)) + rest
  {
  }

  /** A jump leaves exactly the operands below the label, and the result it takes along. */
  lemma JumpUnwinds(base: seq<Value>, f: Frame, vals: seq<Value>, k: nat, ms: MState, pc: nat)
    requires k < |f.labels| && (f.labels[k].arity.Some? ==> vals != [])
    requires f.labels[k].again.Some? ==> f.labels[k].arity.None?
    requires ms.os == base + FrameStack(SetTop(f, vals)) && 0 <= Above(f, vals, k) < RESULT_FLAG
    ensures Jump(ms, EncodeDepth(Above(f, vals, k), f.labels[k].arity), pc) ==
            Next(ms.(pc := At(pc), os := base + FrameStack(Branched(f, vals, k))))
  {
    hide Jump, Vals, Branched, Above;
    var below := Vals(f.labels[..k]);
    var rest := OperandsAbove(f, vals, k);
    Regroup(base, f.locals, below, rest);
    BranchedStack(f, vals, k);
    Regroup(base, f.locals, below, BranchResults(f.labels[k], vals));
    assert SetTop(f, vals).locals == f.locals;
    if f.labels[k].arity.Some? {
      LastOnly(vals);
      JumpKeeps(ms, base + (f.locals + below), rest, pc);
    } else {
      JumpDrops(ms, base + (f.locals + below), rest, pc);
    }
  }

  lemma ValsBelow(f: Frame, vals: seq<Value>, k: nat)
    requires k < |f.labels|
    ensures Vals(f.labels[..k]) <= Vals(SetTop(f, vals).labels)
    ensures |Vals(SetTop(f, vals).labels)| >= |Vals(f.labels[..k])| + |vals|
  {
    var last := |f.labels| - 1;
    assert f.labels[..last][..k] == f.labels[..k];
    ValsPrefix(f.labels[..last], k);
    ValsOfTop(f, vals);
  }

  lemma BranchedStack(f: Frame, vals: seq<Value>, k: nat)
    requires k < |f.labels| && (f.labels[k].arity.Some? ==> vals != [])
    requires f.labels[k].again.Some? ==> f.labels[k].arity.None?
    ensures FrameStack(Branched(f, vals, k)) == f.locals + (Vals(f.labels[..k]) + BranchResults(f.labels[k], vals))
  {
    if f.labels[k].again.Some? {
      assert Vals(f.labels[..k]) + [] == Vals(f.labels[..k]);
    } else {
      ValsEnter(f.labels[..k], f.labels[k].(vals := BranchResults(f.labels[k], vals)));
    }
  }

  /** The structured side of a branch to label `k`. */
  lemma BranchSource(s: Config, vals: seq<Value>, k: nat)
    requires s.Running? && k < |s.cur.labels| && (s.cur.labels[k].arity.Some? ==> vals != [])
    ensures BranchTo(s, vals, |s.cur.labels| - 1 - k) == s.(cur := Branched(s.cur, vals, k))
  {
  }

  /** The patched target is where the structured branch continues. */
  lemma BranchDest(m: Module, f: Frame, pos: nat, base: nat, j: nat)
    requires WellSized(m) && FrameOk(m, f, pos, []) && f.code.ICons? && f.code.hd.Basic? && IsBranch(f.code.hd.t)
    requires j < NumSlots(f.code.hd.t)
    ensures CodePcOk(m, f, pos) && m.funcs[f.func].body[pos] == f.code.hd.t
    ensures
      var fd := m.funcs[f.func];
      && Inside(m, fd, pos)
      && |Targets(Run(m, fd, pos).value, f.code.hd.t)| == NumSlots(f.code.hd.t)
      && var l := Targets(Run(m, fd, pos).value, f.code.hd.t)[j];
      && l < |f.labels|
      && BranchPos(m, f, pos, LabelOf(f, l)) <= |fd.body|
      && TargetPc(m, fd, base, pos, j) == base + Addr(m, fd, BranchPos(m, f, pos, LabelOf(f, l)))
  {
    hide Run, Accepts, LabelsOk, SegsOk, TopOk, EndOf, Close, Owner, JumpInfo, ContinuesAt, Addr;
    var fd := m.funcs[f.func];
    var s := Run(m, fd, pos).value;
    AtToken(m, f, pos);
    BranchFacts(m, f, pos, j);
    var l := Targets(s, f.code.hd.t)[j];
    LabelFacts(m, fd, s.ctrls, f.labels, LabelOf(f, l));
    OwnerOfBranch(m, fd, pos, j);
  }

  /** The configuration after a branch, and the jump that leads to it. */
  lemma BranchTaken(p: Program, b: Origin, s: Config, at: seq<nat>, pos: nat, j: nat) returns (k: nat, pos': nat)
    requires ConfigOk(p, s, at, pos) && s.cur.code.ICons? && s.cur.code.hd.Basic? && IsBranch(s.cur.code.hd.t)
    requires j < NumSlots(s.cur.code.hd.t)
    ensures CodePcOk(p.m, s.cur, pos) && s.cur.labels != []
    ensures
      var f := s.cur;
      var fd := p.m.funcs[f.func];
      var t := f.code.hd.t;
      var vals := BranchRest(t, TopVals(f));
      && fd.body[pos] == t && Inside(p.m, fd, pos)
      && (t.BrIf? || t.BrTable? ==> TopVals(f) != [] && TopVals(f)[|TopVals(f)| - 1].VI32?)
      && |Targets(Run(p.m, fd, pos).value, t)| == NumSlots(t)
      && k < |f.labels| && |f.labels| - 1 - k == Targets(Run(p.m, fd, pos).value, t)[j]
      && (f.labels[k].arity.Some? ==> vals != [])
      && var s' := s.(cur := Branched(f, vals, k));
      && BranchTo(s, vals, |f.labels| - 1 - k) == s'
      && ConfigOk(p, s', at, pos')
      && var ms := MachineOf(p, b, s, at, pos).(os := (b.os + Flat(s.callers) + Under(f)) + vals);
      && Jump(ms, JumpInfo(Run(p.m, fd, pos).value, t, j), TargetPc(p.m, fd, Base(p.m, f.func), pos, j)) ==
        Next(MachineOf(p, b, s', at, pos'))
  {
    hide Run, FrameOk, CallersOk, StoreOk, ActFrames, JumpInfo, TargetPc, Under, Branched, ActiveCost, Above, Jump,
         Targets, Addr, Base;
    var f := s.cur;
    var t := f.code.hd.t;
    TopOfStack(p, b, s, at, pos);
    FrameHasPc(p.m, f, pos);
    BranchDest(p.m, f, pos, Base(p.m, f.func), j);
    BranchFacts(p.m, f, pos, j);
    var vals := BranchRest(t, TopVals(f));
    k := LabelOf(f, Targets(Run(p.m, p.m.funcs[f.func], pos).value, t)[j]);
    BranchFrame(p.m, f, pos, vals, k);
    pos' := BranchPos(p.m, f, pos, k);
    BranchSource(s, vals, k);
    LoopHasNoResult(p.m, f, pos, k);
    var s' := s.(cur := Branched(f, vals, k));
    BranchedFunc(f, vals, k);
    SameFunction(p, b, s, at, pos, s', pos');
    StackShape(f, vals);
    var base := b.os + Flat(s.callers);
    assert base + FrameStack(SetTop(f, vals)) == (base + Under(f)) + vals;
    var ms := MachineOf(p, b, s, at, pos).(os := (base + Under(f)) + vals);
    JumpUnwinds(base, f, vals, k, ms, TargetPc(p.m, p.m.funcs[f.func], Base(p.m, f.func), pos, j));
    CodePcFunc(p.m, s'.cur, f, pos');
  }

  lemma BranchedFunc(f: Frame, vals: seq<Value>, k: nat)
    requires k < |f.labels| && (f.labels[k].arity.Some? ==> vals != [])
    ensures Branched(f, vals, k).func == f.func
  {
  }

  lemma LoopHasNoResult(m: Module, f: Frame, pos: nat, k: nat)
    requires FrameOk(m, f, pos, []) && k < |f.labels|
    ensures f.labels[k].again.Some? ==> f.labels[k].arity.None?
  {
    hide Run, Accepts, SegsOk, TopOk, ContinuesAt;
    LabelFacts(m, m.funcs[f.func], Run(m, m.funcs[f.func], pos).value.ctrls, f.labels, k);
  }

  /** The opcode of a branch. */
  lemma BranchOpcode(p: Program, image: Image, s: Config, at: seq<nat>, pos: nat)
    requires ImageOk(p, image) && ConfigOk(p, s, at, pos)
    requires CodePcOk(p.m, s.cur, pos) && IsBranch(p.m.funcs[s.cur.func].body[pos])
    ensures
      var fd := p.m.funcs[s.cur.func];
      var t := fd.body[pos];
      var base := Base(p.m, s.cur.func);
      && Inside(p.m, fd, pos) && CodePc(p.m, s.cur, pos) < |image.code|
      && var r := Run(p.m, fd, pos).value;
      && var op := image.code[CodePc(p.m, s.cur, pos)];
      && |Targets(r, t)| == NumSlots(t)
      && (t.Br? || t.Return? ==> op == OBr(JumpInfo(r, t, 0), TargetPc(p.m, fd, base, pos, 0)))
      && (t.BrIf? ==> op == OBrIf(JumpInfo(r, t, 0), TargetPc(p.m, fd, base, pos, 0)))
      && (t.BrTable? ==>
            && op.OBrTable? && op.size == |t.targets| && |op.entries| == |t.targets| + 1
            && forall j :: 0 <= j <= |t.targets| ==>
              op.entries[j] == Entry(JumpInfo(r, t, j), TargetPc(p.m, fd, base, pos, j)))
  {
    hide FrameOk, CallersOk, StoreOk, Run, ActiveCost, ImageOk, CodePc, JumpInfo, TargetPc, Base;
    OpcodeOf(p, image, s, at, pos);
  }

  lemma BranchSourceStep(p: Program, s: Config)
    requires s.Running? && s.cur.labels != [] && s.cur.code.ICons? && s.cur.code.hd.Basic? && IsBranch(s.cur.code.hd.t)
    ensures SourceStep(p, s) == DoBranch(s, s.cur.code.hd.t, s.cur.code.tl)
  {
    hide DoBranch;
  }

  lemma SimBranch(p: Program, image: Image, b: Origin, s: Config, at: seq<nat>, pos: nat) returns (pos': nat)
    requires ImageOk(p, image) && ConfigOk(p, s, at, pos)
    requires s.cur.code.ICons? && s.cur.code.hd.Basic? && (s.cur.code.hd.t.Br? || s.cur.code.hd.t.Return?)
    ensures Dispatched(p, image, b, s, at, pos, SourceStep(p, s), at, pos')
  {
    hide FrameOk, CallersOk, StoreOk, ActFrames, Run, ActiveCost, ImageOk, CodePc, Under, Jump, ApplyPopCall, CallOp,
         JumpInfo, TargetPc, BranchTo, Base, Branched;
    var k;
    k, pos' := BranchTaken(p, b, s, at, pos, 0);
    BranchOpcode(p, image, s, at, pos);
    BranchSourceStep(p, s);
    TopOfStack(p, b, s, at, pos);
    LabelCount(p.m, s.cur, pos);
  }

  lemma LabelCount(m: Module, f: Frame, pos: nat)
    requires FrameOk(m, f, pos, [])
    ensures |Run(m, m.funcs[f.func], pos).value.ctrls| == |f.labels|
  {
    hide Run;
  }

  lemma BrIfDispatch(p: Program, image: Image, ms: MState, pc: nat, data: nat, target: nat)
    requires ms.pc == At(pc) && pc < |image.code| && image.code[pc] == OBrIf(data, target)
    requires ms.os != [] && ms.os[|ms.os| - 1].VI32?
    ensures
      var s' := ms.(os := ms.os[..|ms.os| - 1]);
      MStep(p, image, ms) ==
      if ms.os[|ms.os| - 1].i32 != 0 then Jump(s', data, target) else Next(s'.(pc := At(pc + 1)))
  {
    hide Jump;
  }

  lemma BrTableDispatch(p: Program, image: Image, ms: MState, pc: nat, size: nat, entries: seq<Entry>)
    requires ms.pc == At(pc) && pc < |image.code| && image.code[pc] == OBrTable(size, entries)
    requires ms.os != [] && ms.os[|ms.os| - 1].VI32? && |entries| == size + 1
    ensures
      var s' := ms.(os := ms.os[..|ms.os| - 1]);
      var i := ms.os[|ms.os| - 1].i32;
      var e := entries[if i < size then i else size];
      MStep(p, image, ms) == Jump(s', e.stackPop, e.pc)
  {
    hide Jump;
  }

  lemma BrIfSource(s: Config)
    requires s.Running? && s.cur.labels != [] && s.cur.code.ICons? && s.cur.code.hd.Basic? && s.cur.code.hd.t.BrIf?
    requires TopVals(s.cur) != [] && TopVals(s.cur)[|TopVals(s.cur)| - 1].VI32?
    ensures
      var vals := TopVals(s.cur);
      var rest := vals[..|vals| - 1];
      DoBranch(s, s.cur.code.hd.t, s.cur.code.tl) ==
      if vals[|vals| - 1].i32 != 0 then BranchTo(s, rest, s.cur.code.hd.t.target)
      else s.(cur := SetTop(s.cur, rest).(code := s.cur.code.tl))
  {
    hide BranchTo;
  }

  /** The stack without the condition or index on top. */
  lemma WithoutTop(below: seq<Value>, vals: seq<Value>)
    requires vals != []
    ensures (below + vals) != [] && (below + vals)[|below + vals| - 1] == vals[|vals| - 1]
    ensures (below + vals)[..|below + vals| - 1] == below + vals[..|vals| - 1]
  {
  }

  lemma SimBrIf(p: Program, image: Image, b: Origin, s: Config, at: seq<nat>, pos: nat) returns (pos': nat)
    requires ImageOk(p, image) && ConfigOk(p, s, at, pos)
    requires s.cur.code.ICons? && s.cur.code.hd.Basic? && s.cur.code.hd.t.BrIf?
    ensures Dispatched(p, image, b, s, at, pos, SourceStep(p, s), at, pos')
  {
    hide FrameOk, CallersOk, StoreOk, ActFrames, Run, ActiveCost, ImageOk, CodePc, Under, Jump, JumpInfo, TargetPc,
         BranchTo, Base, Branched, MStep, SourceStep, DoBranch, FrameStack, Flat, TopVals, SetTop;
    var k;
    k, pos' := BranchTaken(p, b, s, at, pos, 0);
    BranchOpcode(p, image, s, at, pos);
    BranchSourceStep(p, s);
    TopOfStack(p, b, s, at, pos);
    var vals := TopVals(s.cur);
    BrIfSource(s);
    var ms := MachineOf(p, b, s, at, pos);
    var r := Run(p.m, p.m.funcs[s.cur.func], pos).value;
    WithoutTop(b.os + Flat(s.callers) + Under(s.cur), vals);
    BrIfDispatch(p, image, ms, CodePc(p.m, s.cur, pos), JumpInfo(r, s.cur.code.hd.t, 0),
      TargetPc(p.m, p.m.funcs[s.cur.func], Base(p.m, s.cur.func), pos, 0));
    if vals[|vals| - 1].i32 == 0 {
      pos' := pos + 1;
      BrIfFallsThrough(p, b, s, at, pos);
    }
  }

  lemma BrIfFallsThrough(p: Program, b: Origin, s: Config, at: seq<nat>, pos: nat)
    requires ConfigOk(p, s, at, pos) && s.cur.code.ICons? && s.cur.code.hd.Basic? && s.cur.code.hd.t.BrIf?
    ensures s.cur.labels != [] && TopVals(s.cur) != []
    ensures
      var vals := TopVals(s.cur);
      var s' := s.(cur := SetTop(s.cur, vals[..|vals| - 1]).(code := s.cur.code.tl));
      && ConfigOk(p, s', at, pos + 1)
      && MachineOf(p, b, s', at, pos + 1) ==
         MachineOf(p, b, s, at, pos).(
           pc := At(CodePc(p.m, s.cur, pos) + 1),
           os := (b.os + Flat(s.callers) + Under(s.cur)) + vals[..|vals| - 1])
  {
    hide FrameOk, CallersOk, StoreOk, ActFrames, Run, ActiveCost, CodePc, Under, MachineOf, Flat, FrameStack;
    TopOfStack(p, b, s, at, pos);
    var vals := TopVals(s.cur);
    NotTaken(p.m, s.cur, pos);
    SameLocals(s.cur, vals[..|vals| - 1]);
    Advanced(p, b, s, at, pos, s.cur.locals, vals[..|vals| - 1], s.store);
    AtToken(p.m, s.cur, pos);
    NextPc(p.m, s.cur, pos);
    SamePc(p, b, s, at, pos);
  }

  lemma SameLocals(f: Frame, vals: seq<Value>)
    requires f.labels != [] && f.code.ICons?
    ensures SetTop(f, vals).(locals := f.locals, code := f.code.tl) == SetTop(f, vals).(code := f.code.tl)
    ensures f.(locals := f.locals) == f
  {
  }

  lemma BrTableSource(s: Config, r: Validator.State)
    requires s.Running? && s.cur.labels != [] && s.cur.code.ICons? && s.cur.code.hd.Basic? && s.cur.code.hd.t.BrTable?
    requires TopVals(s.cur) != [] && TopVals(s.cur)[|TopVals(s.cur)| - 1].VI32?
    requires r.ctrls != []
    ensures
      var vals := TopVals(s.cur);
      var t := s.cur.code.hd.t;
      var i := vals[|vals| - 1].i32;
      DoBranch(s, t, s.cur.code.tl) ==
      BranchTo(s, vals[..|vals| - 1], Targets(r, t)[if i < |t.targets| then i else |t.targets|])
  {
    hide BranchTo;
  }

  lemma SimBrTable(p: Program, image: Image, b: Origin, s: Config, at: seq<nat>, pos: nat) returns (pos': nat)
    requires ImageOk(p, image) && ConfigOk(p, s, at, pos)
    requires s.cur.code.ICons? && s.cur.code.hd.Basic? && s.cur.code.hd.t.BrTable?
    ensures Dispatched(p, image, b, s, at, pos, SourceStep(p, s), at, pos')
  {
    hide FrameOk, CallersOk, StoreOk, ActFrames, Run, ActiveCost, ImageOk, CodePc, Under, Jump, JumpInfo, TargetPc,
         BranchTo, Base, Branched, MStep, SourceStep, DoBranch, FrameStack, Flat, TopVals, SetTop, Targets;
    var k;
    k, pos' := BranchTaken(p, b, s, at, pos, 0);
    var t := s.cur.code.hd.t;
    var vals := TopVals(s.cur);
    var i := vals[|vals| - 1].i32;
    var j := if i < |t.targets| then i else |t.targets|;
    k, pos' := BranchTaken(p, b, s, at, pos, j);
    BranchOpcode(p, image, s, at, pos);
    BranchSourceStep(p, s);
    TopOfStack(p, b, s, at, pos);
    var r := Run(p.m, p.m.funcs[s.cur.func], pos).value;
    BrTableSource(s, r);
    var ms := MachineOf(p, b, s, at, pos);
    WithoutTop(b.os + Flat(s.callers) + Under(s.cur), vals);
    var pc := CodePc(p.m, s.cur, pos);
    var op := image.code[pc];
    BrTableDispatch(p, image, ms, pc, op.size, op.entries);
  }

  lemma AtToken(m: Module, f: Frame, pos: nat)
    requires FrameOk(m, f, pos, []) && f.code.ICons? && f.code.hd.Basic?
    ensures CodePcOk(m, f, pos) && f.labels != [] && m.funcs[f.func].body[pos] == f.code.hd.t && IsBasic(f.code.hd.t)
    ensures IsStraight(f.code.hd.t) ==> |m.funcs[f.func].body| > pos
  {
    hide Run, Accepts;
    AtBasic(m, f, pos);
  }

  lemma EmitStraight(m: Module, fd: FuncDecl, base: nat, pos: nat)
    requires WellSized(m) && Inside(m, fd, pos) && IsStraight(fd.body[pos])
    ensures Width(m, fd.body[pos]) == 1
    ensures Emit(m, fd, base, pos) == [Parser.StraightOp(fd.body[pos])]
  {
    Parser.StraightEmit(m, fd, base, pos);
  }
}

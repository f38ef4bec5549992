/** How the frames and labels of the structured semantics lie on the one operand stack. */
module Layout {
  import opened Wasm
  import opened Validator
  import opened Scopes
  import opened Bytecode
  import opened Source
  import opened Machine
  import opened Frames
  import opened FrameOps
  import opened ModuleWriter

  function FrameStack(f: Frame): seq<Value> {
    f.locals + Vals(f.labels)
  }

  function Flat(frames: seq<Frame>): seq<Value> {
    if frames == [] then [] else Flat(frames[..|frames| - 1]) + FrameStack(frames[|frames| - 1])
  }

  /** What was on the stacks when this `execute` began. */
  datatype Origin = Origin(os: seq<Value>, frames: seq<ActivationFrame>, lastOpIndex: nat)

  function CodePc(m: Module, f: Frame, pos: nat): nat
    requires WellSized(m) && f.func < |m.funcs| && pos <= |m.funcs[f.func].body|
  {
    Base(m, f.func) + Addr(m, m.funcs[f.func], pos)
  }

  /** Every caller waits at its position for the result of the function it called. */
  ghost predicate CallersOk(m: Module, callers: seq<Frame>, at: seq<nat>, callee: nat)
    decreases |callers|
  {
    && |at| == |callers|
    && callee < |m.funcs|
    && (callers != [] ==>
          var n := |callers| - 1;
          && CallerOk(m, callers[n], at[n], ResultTypes(m.funcs[callee].ft.result))
          && CallersOk(m, callers[..n], at[..n], callers[n].func))
  }

  ghost function ActFrames(m: Module, b: Origin, callers: seq<Frame>, at: seq<nat>,
      callee: nat): (r: seq<ActivationFrame>)
    requires WellSized(m) && CallersOk(m, callers, at, callee)
    ensures |r| == |b.frames| + |callers| + 1
    decreases |callers|
  {
    if callers == [] then b.frames + [ActivationFrame(Halt, b.lastOpIndex)]
    else
      var n := |callers| - 1;
      ActFrames(m, b, callers[..n], at[..n], callers[n].func)
      + [ActivationFrame(At(CodePc(m, callers[n], at[n])), |b.os| + |Flat(callers[..n])|)]
  }

  /** What a host function leaves in the globals has the declared types. */
  ghost predicate HostKeeps(m: Module, host: (nat, seq<Value>, Store) -> HostResult) {
    forall f: nat, args, st: Store :: StoreOk(m.globals, st) && host(f, args, st).HostReturn? ==>
      StoreOk(m.globals, host(f, args, st).store)
  }

  ghost predicate ProgramOk(p: Program) {
    && HostKeeps(p.m, p.host)
    && WellSized(p.m)
    && AcceptsFirst(p.m, |p.m.funcs|)
    && |p.bodies| == |p.m.funcs|
    && forall k :: 0 <= k < |p.bodies| ==> IsBody(p.m.funcs[k].body, p.bodies[k])
  }

  ghost predicate ImageOk(p: Program, image: Image) {
    && WellSized(p.m)
    && AcceptsFirst(p.m, |p.m.funcs|)
    && image.code == ModuleCode(p.m, |p.m.funcs|)
    && |image.starts| == |p.m.funcs|
    && forall k :: 0 <= k < |p.m.funcs| ==> image.starts[k] == Base(p.m, k)
  }

  /** A configuration the structured semantics can be in, with `pos` the token position of the
      running frame and `at` those of its callers. */
  ghost predicate ConfigOk(p: Program, s: Config, at: seq<nat>, pos: nat) {
    && s.Running?
    && WellSized(p.m)
    && FrameOk(p.m, s.cur, pos, [])
    && CallersOk(p.m, s.callers, at, s.cur.func)
    && StoreOk(p.m.globals, s.store)
    && ActiveCost(p.m, s.callers + [s.cur]) <= p.limit
  }

  /** The one machine state that stands for it. */
  ghost function MachineOf(p: Program, b: Origin, s: Config, at: seq<nat>, pos: nat): MState
    requires ConfigOk(p, s, at, pos)
  {
    MState(
      At(CodePc(p.m, s.cur, pos)),
      b.os + Flat(s.callers) + FrameStack(s.cur),
      ActFrames(p.m, b, s.callers, at, s.cur.func),
      |b.os| + |Flat(s.callers)|,
      p.limit - ActiveCost(p.m, s.callers + [s.cur]),
      s.store)
  }

  /** The opcodes of an instruction stand where the program counter says. */
  lemma OpcodesAt(p: Program, image: Image, k: nat, pos: nat, x: nat)
    requires ImageOk(p, image) && k < |p.m.funcs| && pos < |p.m.funcs[k].body|
    requires x < Width(p.m, p.m.funcs[k].body[pos])
    ensures Accepts(p.m, p.m.funcs[k]) && Inside(p.m, p.m.funcs[k], pos)
    ensures
      var fd := p.m.funcs[k];
      var a := Base(p.m, k) + Addr(p.m, fd, pos) + x;
      a < |image.code| && image.code[a] == Emit(p.m, fd, Base(p.m, k), pos)[x]
  {
    hide Accepts, Emit, Run, Width, Code, FuncCode, Addr, Base, ModuleCode;
    var fd := p.m.funcs[k];
    var n := |fd.body|;
    FunctionAt(p.m, |p.m.funcs|, k);
    AcceptsRuns(p.m, fd);
    CodeHolds(p.m, fd, Base(p.m, k), n, pos);
    var a, w := Addr(p.m, fd, pos), Width(p.m, fd.body[pos]);
    InSlice(Code(p.m, fd, Base(p.m, k), n), a, w, x);
    FuncCodeIs(p.m, fd, Base(p.m, k), a + x);
    InSlice(image.code, Base(p.m, k), FuncSize(p.m, fd), a + x);
  }

  lemma FuncCodeIs(m: Module, fd: FuncDecl, base: nat, i: nat)
    requires WellSized(m) && Accepts(m, fd) && i <= Addr(m, fd, |fd.body|)
    ensures Run(m, fd, |fd.body|).Some?
    ensures FuncCode(m, fd, base)[i] ==
            if i < Addr(m, fd, |fd.body|) then Code(m, fd, base, |fd.body|)[i] else ReturnOp(m, fd)
  {
    hide Run, Code;
  }

  lemma AcceptsRuns(m: Module, fd: FuncDecl)
    requires Accepts(m, fd)
    ensures Run(m, fd, |fd.body|).Some?
  {
  }

  lemma InSlice<T>(c: seq<T>, b: nat, n: nat, i: nat)
    requires b + n <= |c| && i < n
    ensures c[b..b + n][i] == c[b + i]
  {
  }

  /** The return opcode ends the function. */
  lemma ReturnAt(p: Program, image: Image, k: nat)
    requires ImageOk(p, image) && k < |p.m.funcs|
    ensures
      var fd := p.m.funcs[k];
      var a := Base(p.m, k) + Addr(p.m, fd, |fd.body|);
      a < |image.code| && image.code[a] == ReturnOp(p.m, fd)
  {
    hide Accepts, Run, Code, FuncCode, Addr, Base, ModuleCode, ReturnOp;
    var fd := p.m.funcs[k];
    FunctionAt(p.m, |p.m.funcs|, k);
    var a := Addr(p.m, fd, |fd.body|);
    FuncCodeIs(p.m, fd, Base(p.m, k), a);
    InSlice(image.code, Base(p.m, k), FuncSize(p.m, fd), a);
  }

  /** The operands of the innermost label are on top of the stack, above these. */
  function Under(f: Frame): seq<Value>
    requires f.labels != []
  {
    f.locals + Vals(f.labels[..|f.labels| - 1])
  }

  lemma StackShape(f: Frame, vals: seq<Value>)
    requires f.labels != []
    ensures FrameStack(f) == Under(f) + TopVals(f)
    ensures FrameStack(SetTop(f, vals)) == Under(f) + vals
  {
    ValsOfTop(f, vals);
    assert f.locals + Vals(f.labels) == f.locals + Vals(f.labels[..|f.labels| - 1]) + TopVals(f);
  }

  lemma {:induction false} ValsPrefix(labels: seq<Label>, k: nat)
    requires k <= |labels|
    ensures Vals(labels[..k]) <= Vals(labels)
    decreases |labels|
  {
    if k < |labels| {
      assert labels[..|labels| - 1][..k] == labels[..k];
      ValsPrefix(labels[..|labels| - 1], k);
    } else {
      assert labels[..k] == labels;
    }
  }

  /** An empty label takes no room. */
  lemma ValsEnter(labels: seq<Label>, l: Label)
    ensures Vals(labels + [l]) == Vals(labels) + l.vals
  {
    assert (labels + [l])[..|labels|] == labels;
  }
}

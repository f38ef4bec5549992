/** How tight the limits are: the maximum stack of a module is no larger than it must be, and the limit
    on active frames counts what it says it counts. */
module Limits {
  import opened Wasm
  import opened Validator
  import opened Bytecode
  import opened Source
  import opened Machine
  import opened Nesting
  import opened Scopes
  import opened FrameSteps
  import opened ModuleWriter
  import opened Frames
  import opened Layout
  import opened Simulation
  import opened Correctness
  import opened Effects
  import opened Soundness
  import Depths

  /** If the maximum went up, it went up to the depth now. */
  predicate Attained(o: Operands, r: Operands) {
    r.maxDepth == o.maxDepth || r.maxDepth == DepthOf(r)
  }

  /** The instruction leaves its scope for good. */
  predicate Leaves(t: Token) {
    t.Br? || t.BrTable? || t.Return?
  }

  /** Checking the result of a branch from below an unreachable point holds one operand more than is
      tracked before and after it. */
  predicate OneMore(o: Operands, max: nat) {
    o.segs != [] && Top(o) == Seg(true, []) && DepthOf(o) + 1 == max
  }

  lemma PushAttains(o: Operands, t: Tag)
    ensures PushTag(o, t).Some? ==>
              Attained(o, PushTag(o, t).value) && DepthOf(PushTag(o, t).value) <= PushTag(o, t).value.maxDepth
  {
    assert (o.root + [t])[..|o.root|] == o.root;
  }

  /** One operand is popped and pushed again, or there was none to pop. */
  lemma TopAttains(o: Operands, t: Option<ValType>)
    requires o.segs != [] && TopType(o, t).Some?
    ensures
      var r := TopType(o, t).value;
      && Attained(o, r)
      && (r == o || (DepthOf(r) == DepthOf(o) + (if Top(o).vals == [] then 1 else 0) && Top(r).vals != [] &&
                     (Top(o).vals == [] ==> Top(o).unreachable) && DepthOf(r) <= r.maxDepth))
  {
    hide Depth, PushTag, PopType;
    if t.Some? {
      PopsOne(o, t.value);
      PushAttains(PopType(o, t.value).value, Known(t.value));
    }
  }

  lemma PopsOne(o: Operands, t: ValType)
    requires PopType(o, t).Some?
    ensures
      var r := PopType(o, t).value;
      if Top(o).vals == [] then r == o && Top(o).unreachable else DepthOf(r) + 1 == DepthOf(o)
  {
    hide Depth;
  }

  lemma StraightAttains(m: Module, fd: FuncDecl, o: Operands, t: Token)
    requires o.segs != [] && StraightStep(m, fd, o, t).Some?
    ensures Attained(o, StraightStep(m, fd, o, t).value)
  {
    hide PopType, PushTag, PopTag, PopTypes, TopType, DepthOf, LocalTypes;
    match t
    case Plain(op) =>
      var sig := PlainSig(m.globals, op).value;
      if sig.outs != [] {
        PushAttains(PopTypes(o, sig.ins).value, Known(sig.outs[0]));
      }
    case Call(f) =>
      var ft := TypeOfFunc(m, f).value;
      if ft.result.Some? {
        PushAttains(PopTypes(o, ft.params).value, Known(ft.result.value));
      }
    case Select => SelectAttains(o);
    case LocalGet(i) => PushAttains(o, Known(LocalTypeAt(fd, i).value));
    case LocalTee(i) => TopAttains(o, LocalTypeAt(fd, i));
    case _ =>
  }

  lemma SelectAttains(o: Operands)
    requires SelectStep(o).Some?
    ensures Attained(o, SelectStep(o).value)
  {
    hide PopType, PushTag, PopTag, DepthOf;
    var o1 := PopType(o, I32).value;
    var p0 := PopTag(o1).value;
    var p1 := PopTag(p0.rest).value;
    PushAttains(p1.rest, if p0.tag != Any then p0.tag else p1.tag);
  }

  /** While labels are checked the depth is what it was, or one more above an unreachable point. */
  predicate Checking(o: Operands, r: Operands) {
    && o.segs != [] && r.segs != [] && Attained(o, r)
    && (|| DepthOf(r) == DepthOf(o)
        || (Top(o) == Seg(true, []) && DepthOf(r) == DepthOf(o) + 1 && Top(r).vals != []))
    && (Top(o).vals != [] ==> Top(r).vals != [])
    && (Top(r).vals == [] ==> Top(r) == Top(o))
  }

  lemma {:induction false} TargetsAttain(s: Validator.State, ls: seq<nat>, c: nat)
    requires |s.ctrls| == |s.ops.segs| && s.ctrls != [] && c <= |ls| && CheckTargets(s, ls, c).Some?
    ensures Checking(s.ops, CheckTargets(s, ls, c).value.ops)
    decreases c
  {
    hide TopType, DepthOf;
    if c > 0 {
      hide Checking;
      TargetsAttain(s, ls, c - 1);
      var s' := CheckTargets(s, ls, c - 1).value;
      CheckOne(s.ops, s'.ops, LabelType(s'.ctrls[|s'.ctrls| - 1 - ls[c - 1]]));
    }
  }

  lemma CheckOne(o: Operands, r: Operands, t: Option<ValType>)
    requires Checking(o, r) && TopType(r, t).Some?
    ensures Checking(o, TopType(r, t).value)
  {
    hide TopType, DepthOf;
    TopAttains(r, t);
  }

  /** One step of the algorithm: a new maximum is the depth after it, or stands for the result of a
      branch that was checked from below an unreachable point. */
  predicate StepMax(o: Operands, r: Operands, t: Token) {
    Attained(o, r) || (Leaves(t) && OneMore(o, r.maxDepth))
  }

  lemma BranchAttains(s: Validator.State, t: Token)
    requires IsBranch(t) && s.ctrls != [] && |s.ctrls| == |s.ops.segs| && BranchStep(s, t).Some?
    requires Depths.Bounded(s.ops)
    ensures StepMax(s.ops, BranchStep(s, t).value.ops, t)
  {
    hide PopType, DepthOf, CheckTargets, SameTypes, Targets, Top, WithTop;
    var s0 := BeforeBranch(s, t).value;
    if t.BrIf? || t.BrTable? {
      PopsOne(s.ops, I32);
    }
    var ls := Targets(s0, t);
    TargetsAttain(s0, ls, |ls|);
    Depths.TargetsTrack(s0, ls, |ls|);
  }

  lemma EndAttains(s: Validator.State)
    requires s.ctrls != [] && |s.ctrls| == |s.ops.segs| && EndStep(s).Some?
    ensures Attained(s.ops, EndStep(s).value.ops)
  {
    hide PopType, DepthOf, PushTag;
    var c := s.ctrls[|s.ctrls| - 1];
    var o := if c.expected.Some? then PopType(s.ops, c.expected.value).value else s.ops;
    if c.expected.Some? {
      PushAttains(o.(segs := o.segs[..|o.segs| - 1]), Known(c.expected.value));
    }
  }

  lemma StepAttains(m: Module, fd: FuncDecl, s: Validator.State, t: Token, pos: nat)
    requires |s.ctrls| == |s.ops.segs| && Step(m, fd, s, t, pos).Some? && Depths.Bounded(s.ops)
    ensures StepMax(s.ops, Step(m, fd, s, t, pos).value.ops, t)
  {
    hide Attained, ElseStep, EndStep, BranchStep, StraightStep, DepthOf, PopType, OneMore;
    if t.End? {
      EndAttains(s);
    } else if t.Else? {
      ElseAttains(s);
    } else if IsBranch(t) {
      BranchAttains(s, t);
    } else if Opens(t) {
      SameMax(s.ops, Step(m, fd, s, t, pos).value.ops);
    } else {
      StraightAttains(m, fd, s.ops, t);
    }
  }

  lemma SameMax(o: Operands, r: Operands)
    requires r.maxDepth == o.maxDepth
    ensures Attained(o, r)
  {
  }

  lemma ElseAttains(s: Validator.State)
    requires s.ctrls != [] && |s.ctrls| == |s.ops.segs| && ElseStep(s).Some?
    ensures Attained(s.ops, ElseStep(s).value.ops)
  {
    hide PopType, DepthOf;
  }

  /** Where the maximum so far was reached. */
  lemma {:induction false} PeakSoFar(m: Module, fd: FuncDecl, i: nat) returns (n: nat)
    requires i <= |fd.body| && Run(m, fd, i).Some?
    ensures n <= i && Run(m, fd, n).Some?
    ensures
      var o, max := Run(m, fd, n).value.ops, Run(m, fd, i).value.ops.maxDepth;
      DepthOf(o) == max || (n < i && Leaves(fd.body[n]) && OneMore(o, max))
    decreases i
  {
    hide Step, DepthOf, OneMore, Leaves;
    n := i;
    if i == 0 {
      Depths.EmptyDepth(fd);
    } else {
      RunPrefix(m, fd, i - 1, i);
      Depths.DepthBounded(m, fd, i - 1, i - 1);
      var s := Run(m, fd, i - 1).value;
      RunStep(m, fd, i - 1);
      StepAttains(m, fd, s, fd.body[i - 1], i - 1);
      var r := Run(m, fd, i).value.ops;
      if DepthOf(r) != r.maxDepth {
        if Leaves(fd.body[i - 1]) && OneMore(s.ops, r.maxDepth) {
          n := i - 1;
        } else {
          n := PeakSoFar(m, fd, i - 1);
        }
      }
    }
  }

  /** What a function contributes to `maximum_stack` is reached at some point of its body: by the operands
      tracked there and the declared locals, or by these and the result of a branch, in code that is never
      reached. */
  lemma FuncStackReached(m: Module, fd: FuncDecl) returns (n: nat)
    requires Accepts(m, fd)
    ensures n <= |fd.body| && Run(m, fd, n).Some?
    ensures
      var o := Run(m, fd, n).value.ops;
      || FuncStack(m, fd) == DepthOf(o) + |Expand(fd.locals)|
      || (&& n < |fd.body| && (fd.body[n].Br? || fd.body[n].BrTable? || fd.body[n].Return?)
          && o.segs != [] && Top(o) == Seg(true, [])
          && FuncStack(m, fd) == DepthOf(o) + 1 + |Expand(fd.locals)|)
  {
    hide Run, DepthOf, Expand;
    n := PeakSoFar(m, fd, |fd.body|);
  }

  /** `maximum_stack` is that of some function; it is 0 in a module without any. */
  lemma {:induction false} MaximumReached(m: Module, k: nat) returns (j: nat)
    requires AcceptsFirst(m, k)
    ensures k == 0 ==> MaximumStack(m, k) == 0
    ensures k > 0 ==> j < k && MaximumStack(m, k) == FuncStack(m, m.funcs[j])
    decreases k
  {
    hide FuncStack, Accepts;
    j := 0;
    if k > 1 {
      j := MaximumReached(m, k - 1);
    }
    if k > 0 && FuncStack(m, m.funcs[k - 1]) == MaximumStack(m, k) {
      j := k - 1;
    }
  }

  lemma {:induction false} CallsCost(m: Module, active: seq<nat>)
    requires !m.limitBytes
    ensures CostOf(m, active) == |active|
    decreases |active|
  {
    if active != [] {
      CallsCost(m, active[..|active| - 1]);
    }
  }

  /** The stack usage of the functions in `active`, in bytes. */
  function BytesOf(m: Module, active: seq<nat>): nat
    requires forall i :: 0 <= i < |active| ==> active[i] < |m.funcs|
  {
    if active == [] then 0 else m.funcs[active[0]].stackUsage + BytesOf(m, active[1..])
  }

  lemma {:induction false} BytesMore(m: Module, active: seq<nat>, k: nat)
    requires k < |m.funcs| && forall i :: 0 <= i < |active| ==> active[i] < |m.funcs|
    ensures BytesOf(m, active + [k]) == BytesOf(m, active) + m.funcs[k].stackUsage
  {
    if active == [] {
      assert BytesOf(m, [k]) == m.funcs[k].stackUsage + BytesOf(m, [k][1..]);
      assert active + [k] == [k];
    } else {
      BytesMore(m, active[1..], k);
      assert (active + [k])[1..] == active[1..] + [k];
    }
  }

  lemma {:induction false} BytesCost(m: Module, active: seq<nat>)
    requires m.limitBytes && forall i :: 0 <= i < |active| ==> active[i] < |m.funcs|
    ensures CostOf(m, active) == BytesOf(m, active)
    decreases |active|
  {
    if active != [] {
      var n := |active| - 1;
      BytesCost(m, active[..n]);
      BytesMore(m, active[..n], active[n]);
      assert active == active[..n] + [active[n]];
    }
  }

  /** With a limit counted in calls, the frames a run has open and the calls it may still open are that
      limit, at every state it reaches. So there are never more frames than the limit. */
  lemma FramesCounted(p: Program, image: Image, b: Origin, k: nat, args: seq<Value>, store: Store, n: nat)
    requires EntryOk(p, k, args, store) && ImageOk(p, image) && !p.m.limitBytes
    requires
      var r := MRun(p, image, EntryState(p, b, k, args, store), n);
      r.Next? && r.s.pc.At?
    ensures
      var t := MRun(p, image, EntryState(p, b, k, args, store), n).s;
      |t.frames| > |b.frames| && (|t.frames| - |b.frames|) + t.remaining == p.limit
  {
    hide ImageOk, AcceptsFirst, IsBody, HasTypes, MRun, InCode, CostOf;
    BudgetConserved(p, image, b, k, args, store, n);
    var t := MRun(p, image, EntryState(p, b, k, args, store), n).s;
    var active: seq<nat> :| OpenFrames(p.m, |b.frames|, t, active) && t.remaining + CostOf(p.m, active) == p.limit;
    CallsCost(p.m, active);
  }

  /** With a limit counted in bytes, the stack usage of the functions whose frames are open and the bytes
      left are that limit. */
  lemma BytesCounted(p: Program, image: Image, b: Origin, k: nat, args: seq<Value>, store: Store, n: nat)
    returns (active: seq<nat>)
    requires EntryOk(p, k, args, store) && ImageOk(p, image) && p.m.limitBytes
    requires
      var r := MRun(p, image, EntryState(p, b, k, args, store), n);
      r.Next? && r.s.pc.At?
    ensures WellSized(p.m) && forall i :: 0 <= i < |active| ==> active[i] < |p.m.funcs|
    ensures
      var t := MRun(p, image, EntryState(p, b, k, args, store), n).s;
      OpenFrames(p.m, |b.frames|, t, active) && BytesOf(p.m, active) + t.remaining == p.limit
  {
    hide ImageOk, AcceptsFirst, IsBody, HasTypes, MRun, CostOf, BytesOf;
    BudgetConserved(p, image, b, k, args, store, n);
    var t := MRun(p, image, EntryState(p, b, k, args, store), n).s;
    active :| OpenFrames(p.m, |b.frames|, t, active) && t.remaining + CostOf(p.m, active) == p.limit;
    BytesCost(p.m, active);
  }

  lemma {:induction false} OneMoreStep(p: Program, image: Image, s: MState, n: nat)
    requires MRun(p, image, s, n).Next? && MRun(p, image, s, n).s.pc.At?
    ensures MStep(p, image, MRun(p, image, s, n).s).MStuck? ==> MRun(p, image, s, n + 1).MStuck?
    decreases n
  {
    hide MStep;
    if n > 0 {
      OneMoreStep(p, image, MStep(p, image, s).s, n - 1);
    }
  }

  /** A call the limit leaves no room for traps, and any other one goes ahead: with a limit counted in
      calls, at the call that would open one frame too many, a host function's frame included; with a
      limit counted in bytes, when the function needs more than is left, and a host function needs none. */
  lemma CallRefused(p: Program, image: Image, b: Origin, k: nat, args: seq<Value>, store: Store, n: nat, f: nat)
    requires EntryOk(p, k, args, store) && ImageOk(p, image)
    requires
      var r := MRun(p, image, EntryState(p, b, k, args, store), n);
      r.Next? && OnMachine(image, r.s, OCall(f))
    ensures
      var t := MRun(p, image, EntryState(p, b, k, args, store), n).s;
      var r := MStep(p, image, t);
      && (f >= |p.m.imports| ==> f - |p.m.imports| < |p.m.funcs|)
      && (f >= |p.m.imports| && !p.m.limitBytes ==>
            if |t.frames| - |b.frames| == p.limit then r == MTrap else r.Next? && |r.s.frames| == |t.frames| + 1)
      && (f >= |p.m.imports| && p.m.limitBytes ==>
            if t.remaining < p.m.funcs[f - |p.m.imports|].stackUsage then r == MTrap
            else r.Next? && |r.s.frames| == |t.frames| + 1)
      && (f < |p.m.imports| && !p.m.limitBytes && |t.frames| - |b.frames| == p.limit ==> r == MTrap)
      && (f < |p.m.imports| && (p.m.limitBytes || |t.frames| - |b.frames| < p.limit) ==>
            var params := |p.m.imports[f].params|;
            && |t.os| >= params
            && (r == MTrap <==> p.host(f, t.os[|t.os| - params..], t.store).HostTrap?))
  {
    hide ImageOk, AcceptsFirst, IsBody, HasTypes, MRun, Expand, Zeros;
    var m0 := EntryState(p, b, k, args, store);
    var t := MRun(p, image, m0, n).s;
    if !p.m.limitBytes {
      FramesCounted(p, image, b, k, args, store, n);
    }
    NeverStuck(p, image, b, k, args, store, n + 1);
    OneMoreStep(p, image, m0, n);
    assert MStep(p, image, t) == CallOp(p, image, t, f);
  }

  function Total(sizes: seq<nat>): nat {
    if sizes == [] then 0 else sizes[0] + Total(sizes[1..])
  }

  lemma {:induction false} TotalMore(sizes: seq<nat>, x: nat)
    ensures Total(sizes + [x]) == Total(sizes) + x
  {
    if sizes == [] {
      assert Total([x]) == x + Total([x][1..]);
      assert sizes + [x] == [x];
    } else {
      TotalMore(sizes[1..], x);
      assert (sizes + [x])[1..] == sizes[1..] + [x];
    }
  }

  lemma {:induction false} ConsumedIs(fd: FuncDecl, n: nat)
    requires n <= |fd.body| == |fd.sizes|
    ensures Consumed(fd, n) == Total(fd.sizes[..n])
    decreases n
  {
    if n > 0 {
      ConsumedIs(fd, n - 1);
      TotalMore(fd.sizes[..n - 1], fd.sizes[n - 1]);
      assert fd.sizes[..n] == fd.sizes[..n - 1] + [fd.sizes[n - 1]];
    }
  }

  /** There is memory for a function exactly when one opcode for each byte of its body fits behind the code
      before it. */
  lemma MemoryNeeded(m: Module, fd: FuncDecl, capacity: nat, codeBase: nat, base: nat)
    requires m.opcodeSize > 0 && |fd.body| == |fd.sizes| && codeBase + m.opcodeSize * base <= capacity
    ensures Consumed(fd, |fd.body|) <= RoomLeft(m, capacity, codeBase, base) <==>
            codeBase + m.opcodeSize * (base + Total(fd.sizes)) <= capacity
  {
    hide RoomLeft, Consumed;
    ConsumedIs(fd, |fd.body|);
    assert fd.sizes[..|fd.body|] == fd.sizes;
    RoomFits(m, capacity, codeBase, base, Total(fd.sizes));
  }
}

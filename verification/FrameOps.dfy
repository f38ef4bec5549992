/** Instructions inside a frame: operands of the tracked types are there when an instruction
    needs them, and it leaves operands of the tracked types. */
module FrameOps {
  import opened Wasm
  import opened Validator
  import opened Scopes
  import opened Bytecode
  import opened Source
  import opened Nesting
  import opened Frames
  import opened FrameSteps

  /** The state of the validation algorithm at the instruction `f` is about to execute. */
  lemma AtBasic(m: Module, f: Frame, pos: nat)
    requires FrameOk(m, f, pos, []) && f.code.ICons? && f.code.hd.Basic?
    ensures
      var fd := m.funcs[f.func];
      var s := Run(m, fd, pos).value;
      && fd.body[pos] == f.code.hd.t && IsBasic(fd.body[pos])
      && SegOk(s.ops.segs[|f.labels| - 1], TopVals(f), [])
      && Run(m, fd, pos + 1).Some?
      && Run(m, fd, pos + 1) == Step(m, fd, s, fd.body[pos], pos)
  {
    hide Run, Accepts, Step, EndOf, Close, LabelsOk, SegsOk, SegOk;
    var fd := m.funcs[f.func];
    assert InstrAt(fd.body, pos, f.code.hd);
    RunAll(m, fd, pos + 1);
    RunStep(m, fd, pos);
  }

  /** The operands after a straight instruction are those the algorithm tracks. */
  lemma AfterStraight(m: Module, f: Frame, pos: nat)
    requires FrameOk(m, f, pos, []) && f.code.ICons? && f.code.hd.Basic? && IsStraight(f.code.hd.t)
    ensures
      var fd := m.funcs[f.func];
      var o := StraightStep(m, fd, Run(m, fd, pos).value.ops, f.code.hd.t);
      && Run(m, fd, pos + 1).Some? && o.Some?
      && Run(m, fd, pos + 1).value.ops == o.value
  {
    hide Run, Accepts, EndOf, Close, LabelsOk, SegsOk, SegOk, StraightStep, FrameOk, IsBasic;
    AtBasic(m, f, pos);
  }

  /** Control goes on with the operands `vals`, which are the tracked ones. */
  lemma Continues(m: Module, f: Frame, pos: nat, locals: seq<Value>, vals: seq<Value>, pending: seq<ValType>)
    requires FrameOk(m, f, pos, []) && f.code.ICons? && f.code.hd.Basic?
    requires HasTypes(locals, LocalTypes(m.funcs[f.func]))
    requires
      var r := Run(m, m.funcs[f.func], pos + 1);
      r.Some? && |r.value.ops.segs| >= |f.labels| && SegOk(r.value.ops.segs[|f.labels| - 1], vals, pending)
    ensures FrameOk(m, SetTop(f, vals).(locals := locals, code := f.code.tl), pos + 1, pending)
  {
    hide Run, Accepts, LabelsOk, SegsOk, TopOk, ContinuesAt, SegOk, HasTypes;
    Fallthrough(m, f, pos, SetTop(f, vals).(locals := locals, code := f.code.tl), pending);
  }

  /** The arguments of an instruction are on top of the operands and have its types. */
  lemma PlainArgs(m: Module, f: Frame, pos: nat)
    requires FrameOk(m, f, pos, []) && f.code.ICons? && f.code.hd.Basic? && f.code.hd.t.Plain?
    ensures f.labels != []
    ensures
      var op, vals := f.code.hd.t.op, TopVals(f);
      && Arity(op) <= |vals| && PlainSig(m.globals, op).Some?
      && HasTypes(vals[|vals| - Arity(op)..], PlainSig(m.globals, op).value.ins)
  {
    hide Run, Accepts, EndOf, Close, LabelsOk, SegsOk, SegOk, ContinuesAt, PopTypes, PushResult, HasTypes;
    AtBasic(m, f, pos);
    AfterStraight(m, f, pos);
    PopTypesOk(Run(m, m.funcs[f.func], pos).value.ops, PlainSig(m.globals, f.code.hd.t.op).value.ins, TopVals(f));
  }

  lemma PlainDone(m: Module, f: Frame, pos: nat, results: seq<Value>)
    requires FrameOk(m, f, pos, []) && f.code.ICons? && f.code.hd.Basic? && f.code.hd.t.Plain?
    requires PlainSig(m.globals, f.code.hd.t.op).Some?
    requires HasTypes(results, PlainSig(m.globals, f.code.hd.t.op).value.outs)
    requires Arity(f.code.hd.t.op) <= |TopVals(f)|
    ensures
      var op, vals := f.code.hd.t.op, TopVals(f);
      FrameOk(m, SetTop(f, vals[..|vals| - Arity(op)] + results).(code := f.code.tl), pos + 1, [])
  {
    hide Run, Accepts, EndOf, Close, LabelsOk, SegsOk, SegOk, ContinuesAt, PopTypes, PushResult, HasTypes, PlainSig;
    AtBasic(m, f, pos);
    AfterStraight(m, f, pos);
    var o := Run(m, m.funcs[f.func], pos).value.ops;
    var op, vals := f.code.hd.t.op, TopVals(f);
    var sig := PlainSig(m.globals, op).value;
    PopTypesOk(o, sig.ins, vals);
    var t := if sig.outs == [] then None else Some(sig.outs[0]);
    assert ResultTypes(t) == sig.outs;
    PushResultOk(PopTypes(o, sig.ins).value, t, vals[..|vals| - Arity(op)], results);
    Continues(m, f, pos, f.locals, vals[..|vals| - Arity(op)] + results, []);
  }

  lemma PlainFrame(m: Module, f: Frame, pos: nat, store: Store)
    requires FrameOk(m, f, pos, []) && f.code.ICons? && f.code.hd.Basic? && f.code.hd.t.Plain?
    requires StoreOk(m.globals, store)
    ensures f.labels != []
    ensures
      var op, vals := f.code.hd.t.op, TopVals(f);
      && Arity(op) <= |vals|
      && var r := Eval(op, vals[|vals| - Arity(op)..], store);
      && !r.Stuck?
      && (r.Evaluated? ==>
            && StoreOk(m.globals, r.store)
            && FrameOk(m, SetTop(f, vals[..|vals| - Arity(op)] + r.results).(code := f.code.tl), pos + 1, []))
      && (r.Repeated? ==>
            StoreOk(m.globals, r.store) && FrameOk(m, SetTop(f, vals[..|vals| - Arity(op)] + r.args), pos, []))
  {
    hide FrameOk, Eval, HasTypes, PlainSig, StoreOk, Arity;
    PlainArgs(m, f, pos);
    var op, vals := f.code.hd.t.op, TopVals(f);
    var args := vals[|vals| - Arity(op)..];
    EvalTyped(m.globals, op, args, store);
    var r := Eval(op, args, store);
    if r.Evaluated? {
      PlainDone(m, f, pos, r.results);
    } else if r.Repeated? {
      SameTyped(vals, |vals| - Arity(op), PlainSig(m.globals, op).value.ins, r.args);
      Retyped(m, f, pos, vals[..|vals| - Arity(op)] + r.args);
    }
  }

  lemma SameTyped(vals: seq<Value>, n: nat, ts: seq<ValType>, args: seq<Value>)
    requires n <= |vals| && HasTypes(vals[n..], ts) && HasTypes(args, ts)
    ensures |vals[..n] + args| == |vals| && forall i :: 0 <= i < |vals| ==>
            TypeOf((vals[..n] + args)[i]) == TypeOf(vals[i])
  {
    forall i | n <= i < |vals|
      ensures TypeOf((vals[..n] + args)[i]) == TypeOf(vals[i])
    {
      assert vals[n..][i - n] == vals[i];
    }
  }

  lemma SegRetyped(seg: Seg, vals: seq<Value>, vals': seq<Value>)
    requires SegOk(seg, vals, []) && |vals'| == |vals|
    requires forall i :: 0 <= i < |vals'| ==> TypeOf(vals'[i]) == TypeOf(vals[i])
    ensures SegOk(seg, vals', [])
  {
  }

  /** Other operands of the same types: the frame has not moved. */
  lemma Retyped(m: Module, f: Frame, pos: nat, vals: seq<Value>)
    requires FrameOk(m, f, pos, []) && f.labels != [] && f.code.ICons? && |vals| == |TopVals(f)|
    requires forall i :: 0 <= i < |vals| ==> TypeOf(vals[i]) == TypeOf(TopVals(f)[i])
    ensures FrameOk(m, SetTop(f, vals), pos, [])
  {
    hide Run, Accepts, EndOf, Close, LabelOk, ContinuesAt, HasTypes, SegOk;
    var s := Run(m, m.funcs[f.func], pos).value;
    SegRetyped(s.ops.segs[|f.labels| - 1], TopVals(f), vals);
    var labels := SetTop(f, vals).labels;
    LabelsKept(m, m.funcs[f.func], s.ctrls, f.labels, s.ctrls, labels);
    SegsKept(s.ops.segs, f.labels, |f.labels| - 1, s.ops.segs, labels, |f.labels| - 1);
  }

  lemma DropFrame(m: Module, f: Frame, pos: nat)
    requires FrameOk(m, f, pos, []) && f.code.ICons? && f.code.hd.Basic? && f.code.hd.t.Drop?
    ensures TopVals(f) != []
    ensures FrameOk(m, SetTop(f, TopVals(f)[..|TopVals(f)| - 1]).(code := f.code.tl), pos + 1, [])
  {
    hide Run, Accepts, EndOf, Close, LabelsOk, SegsOk, SegOk, ContinuesAt, PopTag;
    AtBasic(m, f, pos);
    AfterStraight(m, f, pos);
    PopTagOk(Run(m, m.funcs[f.func], pos).value.ops, TopVals(f));
    Continues(m, f, pos, f.locals, TopVals(f)[..|TopVals(f)| - 1], []);
  }

  lemma SelectFrame(m: Module, f: Frame, pos: nat)
    requires FrameOk(m, f, pos, []) && f.code.ICons? && f.code.hd.Basic? && f.code.hd.t.Select?
    ensures
      var vals := TopVals(f);
      var n := |vals|;
      && n >= 3 && vals[n - 1].VI32?
      && var picked := if vals[n - 1].i32 != 0 then vals[n - 3] else vals[n - 2];
      FrameOk(m, SetTop(f, vals[..n - 3] + [picked]).(code := f.code.tl), pos + 1, [])
  {
    hide Run, Accepts, EndOf, Close, LabelsOk, SegsOk, SegOk, ContinuesAt, PopTag, PopType, PushTag;
    AtBasic(m, f, pos);
    AfterStraight(m, f, pos);
    var o := Run(m, m.funcs[f.func], pos).value.ops;
    var vals := TopVals(f);
    var n := |vals|;
    PopTypeOk(o, I32, vals);
    var o1 := PopType(o, I32).value;
    PopTagOk(o1, vals[..n - 1]);
    var o2 := PopTag(o1).value.rest;
    PopTagOk(o2, vals[..n - 1][..n - 2]);
    assert vals[..n - 1][..n - 2][..n - 3] == vals[..n - 3];
    var picked := if vals[n - 1].i32 != 0 then vals[n - 3] else vals[n - 2];
    PushTagOk(PopTag(o2).value.rest, PopTag(o1).value.tag, vals[..n - 3], picked);
    Continues(m, f, pos, f.locals, vals[..n - 3] + [picked], []);
  }

  lemma LocalGetFrame(m: Module, f: Frame, pos: nat)
    requires FrameOk(m, f, pos, []) && f.code.ICons? && f.code.hd.Basic? && f.code.hd.t.LocalGet?
    ensures
      var i := f.code.hd.t.local;
      && i < |f.locals|
      && FrameOk(m, SetTop(f, TopVals(f) + [f.locals[i]]).(code := f.code.tl), pos + 1, [])
  {
    hide Run, Accepts, EndOf, Close, LabelsOk, SegsOk, SegOk, ContinuesAt, PushTag;
    AtBasic(m, f, pos);
    AfterStraight(m, f, pos);
    var o := Run(m, m.funcs[f.func], pos).value.ops;
    var i := f.code.hd.t.local;
    PushTagOk(o, Known(LocalTypes(m.funcs[f.func])[i]), TopVals(f), f.locals[i]);
    Continues(m, f, pos, f.locals, TopVals(f) + [f.locals[i]], []);
  }

  /** `local.set`, and `local.tee` which keeps the operand. */
  lemma LocalWriteFrame(m: Module, f: Frame, pos: nat)
    requires FrameOk(m, f, pos, []) && f.code.ICons? && f.code.hd.Basic? &&
            (f.code.hd.t.LocalSet? || f.code.hd.t.LocalTee?)
    ensures
      var i := f.code.hd.t.local;
      var vals := TopVals(f);
      && i < |f.locals| && vals != []
      && FrameOk(m, SetTop(f, if f.code.hd.t.LocalSet? then vals[..|vals| - 1] else vals).(
                      locals := f.locals[i := vals[|vals| - 1]], code := f.code.tl), pos + 1, [])
  {
    hide Run, Accepts, EndOf, Close, LabelsOk, SegsOk, SegOk, ContinuesAt, PopType, TopType;
    AtBasic(m, f, pos);
    AfterStraight(m, f, pos);
    var o := Run(m, m.funcs[f.func], pos).value.ops;
    var i := f.code.hd.t.local;
    var vals := TopVals(f);
    var t := LocalTypes(m.funcs[f.func])[i];
    if f.code.hd.t.LocalSet? {
      PopTypeOk(o, t, vals);
      Continues(m, f, pos, f.locals[i := vals[|vals| - 1]], vals[..|vals| - 1], []);
    } else {
      TopTypeOk(o, t, vals);
      Continues(m, f, pos, f.locals[i := vals[|vals| - 1]], vals, []);
    }
  }

  /** A frame that waits for `pending` results of a call. */
  predicate CallerOk(m: Module, f: Frame, pos: nat, pending: seq<ValType>) {
    FrameOk(m, f, pos, pending) &&
    SegOk(Run(m, m.funcs[f.func], pos).value.ops.segs[|f.labels| - 1], TopVals(f), pending)
  }

  /** A call: the arguments are there, and the caller waits for a result of the declared type. */
  lemma CallFrame(m: Module, f: Frame, pos: nat)
    requires FrameOk(m, f, pos, []) && f.code.ICons? && f.code.hd.Basic? && f.code.hd.t.Call?
    ensures
      var ft := TypeOfFunc(m, f.code.hd.t.func);
      var vals := TopVals(f);
      && ft.Some? && |ft.value.params| <= |vals|
      && HasTypes(vals[|vals| - |ft.value.params|..], ft.value.params)
      && var rest := vals[..|vals| - |ft.value.params|];
      CallerOk(m, SetTop(f, rest).(code := f.code.tl), pos + 1, ResultTypes(ft.value.result))
  {
    hide Run, Accepts, EndOf, Close, LabelsOk, SegsOk, SegOk, ContinuesAt, PopTypes, PushResult;
    AtBasic(m, f, pos);
    AfterStraight(m, f, pos);
    var o := Run(m, m.funcs[f.func], pos).value.ops;
    var ft := TypeOfFunc(m, f.code.hd.t.func).value;
    var vals := TopVals(f);
    PopTypesOk(o, ft.params, vals);
    PushResultPending(PopTypes(o, ft.params).value, ft.result, vals[..|vals| - |ft.params|]);
    Continues(m, f, pos, f.locals, vals[..|vals| - |ft.params|], ResultTypes(ft.result));
  }

  /** The awaited results arrive. */
  lemma Resumed(m: Module, f: Frame, pos: nat, pending: seq<ValType>, results: seq<Value>)
    requires CallerOk(m, f, pos, pending) && HasTypes(results, pending)
    ensures FrameOk(m, SetTop(f, TopVals(f) + results), pos, [])
  {
    hide Run, Accepts, EndOf, Close, ContinuesAt, LabelOk, SegOk, HasTypes;
    var s := Run(m, m.funcs[f.func], pos).value;
    var f' := SetTop(f, TopVals(f) + results);
    ResultArrives(s.ops.segs[|f.labels| - 1], TopVals(f), pending, results);
    LabelsKept(m, m.funcs[f.func], s.ctrls, f.labels, s.ctrls, f'.labels);
    SegsKept(s.ops.segs, f.labels, |f.labels| - 1, s.ops.segs, f'.labels, |f.labels| - 1);
    TopIsStrong(s, f');
  }

  /** A fresh frame at the start of its body. */
  lemma Fresh(p: Program, k: nat, args: seq<Value>)
    requires k < |p.bodies| && k < |p.m.funcs| && Accepts(p.m, p.m.funcs[k])
    requires IsBody(p.m.funcs[k].body, p.bodies[k]) && HasTypes(args, p.m.funcs[k].ft.params)
    ensures FrameOk(p.m, Activate(p, k, args), 0, [])
  {
    hide Accepts, Step;
    var fd := p.m.funcs[k];
    var f := Activate(p, k, args);
    BodyEnds(p.m, fd, p.bodies[k]);
    assert LabelOk(p.m, fd, Init(fd).ctrls, f.labels, 0);
  }

  /** The `end` of a function body is the end of its outermost scope. */
  lemma BodyEnds(m: Module, fd: FuncDecl, c: Instrs)
    requires Accepts(m, fd) && IsBody(fd.body, c)
    ensures EndOf(m, fd, -1) == Len(c) && Close(m, fd, -1) == Len(c)
  {
    hide Accepts, Step;
    Balanced(m, fd, 0, c, -1);
    TokenStep(m, fd, Len(c), -1);
  }

  /** All operands of a list of labels, outermost first. */
  function Vals(labels: seq<Label>): seq<Value> {
    if labels == [] then [] else Vals(labels[..|labels| - 1]) + labels[|labels| - 1].vals
  }

  /** The tracked depth is the number of operands that are really there. */
  lemma {:induction false} DepthIsHeight(segs: seq<Seg>, labels: seq<Label>, n: nat)
    requires SegsOk(segs, labels, n)
    ensures Depth(segs[..n]) == |Vals(labels[..n])|
    decreases n
  {
    if n > 0 {
      assert segs[..n][..n - 1] == segs[..n - 1] && labels[..n][..n - 1] == labels[..n - 1];
      DepthIsHeight(segs, labels, n - 1);
      assert SegOk(segs[n - 1], labels[n - 1].vals, []);
    }
  }

  lemma EntryIsHeight(m: Module, f: Frame, pos: nat, k: nat, pending: seq<ValType>)
    requires FrameOk(m, f, pos, pending) && k < |f.labels|
    ensures EntryDepth(Run(m, m.funcs[f.func], pos).value.ops, k) ==
            |Run(m, m.funcs[f.func], pos).value.ops.root| + |Vals(f.labels[..k])|
  {
    hide Run, SegOk, Accepts;
    var s := Run(m, m.funcs[f.func], pos).value;
    SegsKept(s.ops.segs, f.labels, |f.labels| - 1, s.ops.segs, f.labels, k);
    DepthIsHeight(s.ops.segs, f.labels, k);
  }

  /** The operands once the condition or the index of a branch is popped. */
  function BranchRest(t: Token, vals: seq<Value>): seq<Value> {
    if (t.BrIf? || t.BrTable?) && vals != [] then vals[..|vals| - 1] else vals
  }

  function LabelOf(f: Frame, l: nat): nat
    requires l < |f.labels|
  {
    |f.labels| - 1 - l
  }

  /** The operands above the entry of label `k` when branching with the operands `vals`. */
  function Above(f: Frame, vals: seq<Value>, k: nat): int
    requires f.labels != [] && k < |f.labels|
  {
    |Vals(SetTop(f, vals).labels)| - |Vals(f.labels[..k])|
  }

  /** The branch condition is there, every label exists and finds its result on top, and the
      encoded operand count of every label is the number of operands to discard. */
  lemma BranchFacts(m: Module, f: Frame, pos: nat, j: nat)
    requires FrameOk(m, f, pos, []) && f.code.ICons? && f.code.hd.Basic? && IsBranch(f.code.hd.t)
    requires j < NumSlots(f.code.hd.t)
    ensures
      var s := Run(m, m.funcs[f.func], pos).value;
      var t := f.code.hd.t;
      var vals := BranchRest(t, TopVals(f));
      && (t.BrIf? || t.BrTable? ==> TopVals(f) != [] && TopVals(f)[|TopVals(f)| - 1].VI32?)
      && |Targets(s, t)| == NumSlots(t)
      && var l := Targets(s, t)[j];
      && l < |f.labels| == |s.ctrls|
      && var k := LabelOf(f, l);
      && (f.labels[k].arity.Some? ==> vals != [] && TypeOf(vals[|vals| - 1]) == f.labels[k].arity.value)
      && 0 <= Above(f, vals, k) < RESULT_FLAG
      && JumpInfo(s, t, j) == EncodeDepth(Above(f, vals, k), f.labels[k].arity)
  {
    hide Run, Accepts, EndOf, Close, SegsOk, ContinuesAt, SegOk, LabelOk, BranchStep, JumpInfo, Targets, LabelsOk,
         EntryDepth, Step;
    var fd := m.funcs[f.func];
    var s := Run(m, fd, pos).value;
    var t := f.code.hd.t;
    AtBasic(m, f, pos);
    assert BranchStep(s, t).Some? by { StepOfBranch(m, fd, s, t, pos); }
    BranchChecked(s, t, j, TopVals(f));
    var k := LabelOf(f, Targets(s, t)[j]);
    LabelFacts(m, fd, s.ctrls, f.labels, k);
    EntryIsHeight(m, f, pos, k, []);
    EntryIsHeight(m, f, pos, |f.labels| - 1, []);
    ValsOfTop(f, BranchRest(t, TopVals(f)));
  }

  lemma StepOfBranch(m: Module, fd: FuncDecl, s: Validator.State, t: Token, pos: nat)
    requires |s.ctrls| == |s.ops.segs| && IsBranch(t) && Step(m, fd, s, t, pos).Some?
    ensures s.ctrls != [] && BranchStep(s, t).Some?
  {
    hide BranchStep;
  }

  lemma ValsOfTop(f: Frame, vals: seq<Value>)
    requires f.labels != []
    ensures Vals(SetTop(f, vals).labels) == Vals(f.labels[..|f.labels| - 1]) + vals
  {
    var last := |f.labels| - 1;
    assert SetTop(f, vals).labels[..last] == f.labels[..last];
  }

  /** The condition or index of a branch is an i32, and its labels have been checked. */
  lemma BranchCondition(s: Validator.State, t: Token, vals: seq<Value>)
    requires |s.ctrls| == |s.ops.segs| && s.ctrls != [] && IsBranch(t)
    requires BranchStep(s, t).Some? && SegOk(s.ops.segs[|s.ctrls| - 1], vals, [])
    ensures t.BrIf? || t.BrTable? ==> vals != [] && vals[|vals| - 1].VI32?
    ensures BeforeBranch(s, t).Some?
    ensures SegOk(Top(BeforeBranch(s, t).value.ops), BranchRest(t, vals), [])
    ensures |Targets(s, t)| == NumSlots(t)
    ensures CheckTargets(BeforeBranch(s, t).value, Targets(s, t), |Targets(s, t)|).Some?
  {
    hide CheckTargets, PopType, SegOk, SameTypes;
    if t.BrIf? || t.BrTable? {
      PopTypeOk(s.ops, I32, vals);
    }
    Targets0(s, BeforeBranch(s, t).value, t);
  }

  /** A branch to label `l` with the operands `vals` finds its result, and `info` is what it discards. */
  predicate LabelFits(s: Validator.State, l: nat, vals: seq<Value>, info: nat) {
    && l < |s.ctrls| == |s.ops.segs|
    && var k := |s.ctrls| - 1 - l;
    && var lt := LabelType(s.ctrls[k]);
    && (lt.Some? ==> vals != [] && TypeOf(vals[|vals| - 1]) == lt.value)
    && var d := EntryDepth(s.ops, |s.ctrls| - 1) + |vals| - EntryDepth(s.ops, k);
    && 0 <= d < RESULT_FLAG && info == EncodeDepth(d, lt)
  }

  /** The same on the side of the validation algorithm. */
  lemma BranchChecked(s: Validator.State, t: Token, j: nat, vals: seq<Value>)
    requires |s.ctrls| == |s.ops.segs| && s.ctrls != [] && IsBranch(t) && j < NumSlots(t)
    requires BranchStep(s, t).Some? && SegOk(s.ops.segs[|s.ctrls| - 1], vals, [])
    ensures t.BrIf? || t.BrTable? ==> vals != [] && vals[|vals| - 1].VI32?
    ensures |Targets(s, t)| == NumSlots(t)
    ensures LabelFits(s, Targets(s, t)[j], BranchRest(t, vals), JumpInfo(s, t, j))
  {
    hide CheckTarget, CheckTargets, SegOk, BranchStep, DepthChange, EntryDepth, Targets, BeforeBranch;
    var ls := Targets(s, t);
    var vals0 := BranchRest(t, vals);
    BranchCondition(s, t, vals);
    var s0 := BeforeBranch(s, t).value;
    CheckTargetsPrefix(s0, ls, j, |ls|);
    CheckTargetsPrefix(s0, ls, j + 1, |ls|);
    CheckTargetsOk(s0, ls, |ls|, vals0);
    CheckTargetsOk(s0, ls, j, vals0);
    TargetDepth(s, s0, CheckTargets(s0, ls, j).value, |s.ctrls| - 1 - ls[j], vals0, ls[j]);
  }

  lemma Targets0(s: Validator.State, s0: Validator.State, t: Token)
    requires s.ctrls == s0.ctrls && s.ctrls != [] && IsBranch(t)
    ensures Targets(s, t) == Targets(s0, t) && |Targets(s, t)| == NumSlots(t)
  {
  }

  lemma {:induction false} CheckTargetsPrefix(s: Validator.State, ls: seq<nat>, c: nat, n: nat)
    requires |s.ctrls| == |s.ops.segs| && c <= n <= |ls| && CheckTargets(s, ls, n).Some?
    ensures CheckTargets(s, ls, c).Some?
    ensures c > 0 ==> CheckTarget(CheckTargets(s, ls, c - 1).value, ls[c - 1]).Some?
    decreases n - c
  {
    hide CheckTarget;
    if c < n {
      CheckTargetsPrefix(s, ls, c, n - 1);
    }
  }

  lemma TargetDepth(s: Validator.State, s0: Validator.State, sj: Validator.State, k: nat, vals0: seq<Value>, l: nat)
    requires |s.ctrls| == |s.ops.segs| && k < |s.ctrls| && l == |s.ctrls| - 1 - k
    requires s0.ctrls == s.ctrls == sj.ctrls && SameBelow(s.ops, s0.ops) && sj.ops.segs == s0.ops.segs &&
            sj.ops.root == s0.ops.root
    requires SegOk(Top(s0.ops), vals0, []) && CheckTarget(sj, l).Some?
    ensures DepthChange(sj, l) == EntryDepth(s.ops, |s.ctrls| - 1) + |vals0| - EntryDepth(s.ops, k)
    ensures 0 <= DepthChange(sj, l) < RESULT_FLAG
  {
    hide TopType;
    assert s0.ops.segs[..k] == s0.ops.segs[..|s.ctrls| - 1][..k] == s.ops.segs[..|s.ctrls| - 1][..k] == s.ops.segs[..k];
    DepthGrows(sj.ops.segs, k);
  }

  lemma {:induction false} DepthGrows(segs: seq<Seg>, k: nat)
    requires k <= |segs|
    ensures Depth(segs[..k]) <= Depth(segs)
    decreases |segs|
  {
    if k < |segs| {
      assert segs[..|segs| - 1][..k] == segs[..k];
      DepthGrows(segs[..|segs| - 1], k);
    } else {
      assert segs[..k] == segs;
    }
  }

  /** The result a branch takes along. */
  function BranchResults(l: Label, vals: seq<Value>): seq<Value>
    requires l.arity.Some? ==> vals != []
  {
    if l.arity.Some? then vals[|vals| - 1..] else []
  }

  /** The frame after a branch to label `k`. */
  function Branched(f: Frame, vals: seq<Value>, k: nat): Frame
    requires k < |f.labels| && (f.labels[k].arity.Some? ==> vals != [])
  {
    if f.labels[k].again.Some? then Frame(f.func, f.locals, f.labels[..k], f.labels[k].again.value)
    else Frame(f.func, f.locals, f.labels[..k] + [f.labels[k].(vals := BranchResults(f.labels[k], vals))], INil)
  }

  /** Where it continues: at the start of a loop, at the `end` of any other scope. */
  function BranchPos(m: Module, f: Frame, pos: nat, k: nat): nat
    requires FrameOk(m, f, pos, []) && k < |f.labels|
  {
    var fd := m.funcs[f.func];
    var s := Run(m, fd, pos).value;
    LabelFacts(m, fd, s.ctrls, f.labels, k);
    var o := s.ctrls[k].opener;
    if f.labels[k].again.Some? && o >= 0 then o else EndOf(m, fd, o)
  }

  lemma BranchFrame(m: Module, f: Frame, pos: nat, vals: seq<Value>, k: nat)
    requires FrameOk(m, f, pos, []) && k < |f.labels|
    requires f.labels[k].arity.Some? ==> vals != [] && TypeOf(vals[|vals| - 1]) == f.labels[k].arity.value
    ensures FrameOk(m, Branched(f, vals, k), BranchPos(m, f, pos, k), [])
  {
    hide Run, Accepts, Step, EndOf, Close, LabelsOk, SegsOk, ContinuesAt, SegOk, LabelOk, TopOk;
    var fd := m.funcs[f.func];
    var s := Run(m, fd, pos).value;
    LabelFacts(m, fd, s.ctrls, f.labels, k);
    if f.labels[k].again.Some? {
      BranchToLoop(m, f, pos, vals, k);
    } else {
      BranchToEnd(m, f, pos, vals, k);
    }
  }

  lemma BranchToLoop(m: Module, f: Frame, pos: nat, vals: seq<Value>, k: nat)
    requires FrameOk(m, f, pos, []) && k < |f.labels| && f.labels[k].again.Some?
    requires f.labels[k].arity.Some? ==> vals != []
    ensures Run(m, m.funcs[f.func], pos).value.ctrls[k].opener >= 0
    ensures FrameOk(m, Branched(f, vals, k), Run(m, m.funcs[f.func], pos).value.ctrls[k].opener, [])
  {
    hide Run, Accepts, Step, EndOf, Close, ContinuesAt, SegOk, TopOk, LabelOk;
    var fd := m.funcs[f.func];
    var s := Run(m, fd, pos).value;
    LabelFacts(m, fd, s.ctrls, f.labels, k);
    ScopeAtLoop(m, fd, pos, k);
    var o := s.ctrls[k].opener;
    var r := Run(m, fd, o).value;
    var f' := Branched(f, vals, k);
    LabelsKept(m, fd, s.ctrls, f.labels, r.ctrls, f'.labels);
    SegsKept(s.ops.segs, f.labels, |f.labels| - 1, r.ops.segs, f'.labels, k - 1);
    assert SegOk(s.ops.segs[k - 1], f.labels[k - 1].vals, []);
    TopIsStrong(r, f');
  }

  lemma BranchToEnd(m: Module, f: Frame, pos: nat, vals: seq<Value>, k: nat)
    requires FrameOk(m, f, pos, []) && k < |f.labels| && f.labels[k].again.None?
    requires f.labels[k].arity.Some? ==> vals != [] && TypeOf(vals[|vals| - 1]) == f.labels[k].arity.value
    requires -1 <= Run(m, m.funcs[f.func], pos).value.ctrls[k].opener < |m.funcs[f.func].body|
    ensures FrameOk(m, Branched(f, vals, k),
            EndOf(m, m.funcs[f.func], Run(m, m.funcs[f.func], pos).value.ctrls[k].opener), [])
  {
    hide Run, Accepts, Step, EndOf, Close, SegOk, LabelOk, LabelsOk, SegsOk, TopOk, ContinuesAt, HasTypes, LocalTypes;
    var fd := m.funcs[f.func];
    var s := Run(m, fd, pos).value;
    LabelFacts(m, fd, s.ctrls, f.labels, k);
    ScopeAtEnd(m, fd, pos, k);
    var e := EndOf(m, fd, s.ctrls[k].opener);
    var r := Run(m, fd, e).value;
    var f' := Branched(f, vals, k);
    FuncScope(m, fd, e, pos, k);
    LabelsKept(m, fd, s.ctrls, f.labels, r.ctrls, f'.labels);
    SegsKept(s.ops.segs, f.labels, |f.labels| - 1, r.ops.segs, f'.labels, k);
    NothingLeft(m, fd, e, s.ctrls[k].opener);
    ResultOnTop(r, f', f.labels[k], vals);
  }

  lemma NothingLeft(m: Module, fd: FuncDecl, e: nat, o: int)
    requires -1 <= o < |fd.body| && e == EndOf(m, fd, o) < |fd.body| && fd.body[e].End?
    ensures ContinuesAt(m, fd, e, INil, o)
  {
    hide EndOf, Close;
  }

  lemma ResultOnTop(s: Validator.State, f: Frame, l: Label, vals: seq<Value>)
    requires |f.labels| == |s.ctrls| == |s.ops.segs| > 0 && f.code == INil
    requires l.arity.Some? ==> vals != [] && TypeOf(vals[|vals| - 1]) == l.arity.value
    requires TopVals(f) == BranchResults(l, vals) && Last(s).expected == l.arity
    ensures TopOk(s, f, [])
  {
    hide SegOk;
  }

  /** The outermost scope, and only that, is the function itself. */
  lemma FuncScope(m: Module, fd: FuncDecl, e: nat, pos: nat, k: nat)
    requires e <= |fd.body| && pos <= |fd.body| && Run(m, fd, e).Some? && Run(m, fd, pos).Some?
    requires k < |Run(m, fd, e).value.ctrls| && k < |Run(m, fd, pos).value.ctrls|
    ensures Run(m, fd, e).value.ctrls[k].kind.FuncBody? <==> Run(m, fd, pos).value.ctrls[k].kind.FuncBody?
  {
    hide Run;
    ScopesOk(m, fd, e, k);
    ScopesOk(m, fd, pos, k);
  }

  /** A `br_if` that is not taken. */
  lemma NotTaken(m: Module, f: Frame, pos: nat)
    requires FrameOk(m, f, pos, []) && f.code.ICons? && f.code.hd.Basic? && f.code.hd.t.BrIf?
    ensures TopVals(f) != []
    ensures FrameOk(m, SetTop(f, TopVals(f)[..|TopVals(f)| - 1]).(code := f.code.tl), pos + 1, [])
  {
    hide Run, Accepts, EndOf, Close, LabelsOk, SegsOk, SegOk, ContinuesAt, CheckTargets, BeforeBranch, Targets, Step;
    var fd := m.funcs[f.func];
    var s := Run(m, fd, pos).value;
    AtBasic(m, f, pos);
    assert BranchStep(s, f.code.hd.t).Some? && Step(m, fd, s, f.code.hd.t, pos) == BranchStep(s, f.code.hd.t) by {
      BranchStepIs(m, fd, s, f.code.hd.t, pos);
    }
    BranchCondition(s, f.code.hd.t, TopVals(f));
    var s0 := BeforeBranch(s, f.code.hd.t).value;
    Targets0(s, s0, f.code.hd.t);
    CheckTargetsOk(s0, Targets(s, f.code.hd.t), |Targets(s, f.code.hd.t)|, BranchRest(f.code.hd.t, TopVals(f)));
    Continues(m, f, pos, f.locals, TopVals(f)[..|TopVals(f)| - 1], []);
  }

  lemma BranchStepIs(m: Module, fd: FuncDecl, s: Validator.State, t: Token, pos: nat)
    requires |s.ctrls| == |s.ops.segs| && IsBranch(t) && Step(m, fd, s, t, pos).Some?
    ensures s.ctrls != [] && Step(m, fd, s, t, pos) == BranchStep(s, t)
  {
    hide BranchStep;
  }
}

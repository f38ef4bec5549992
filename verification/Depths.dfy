/** The tracked operand depth: it never passes the recorded maximum, and it is the height of the
    running frame's operands. */
module Depths {
  import opened Wasm
  import opened Validator
  import opened Scopes
  import opened Bytecode
  import opened Source
  import opened Nesting
  import opened Frames
  import opened FrameSteps
  import opened FrameOps
  import Patched

  predicate Bounded(o: Operands) {
    DepthOf(o) <= o.maxDepth
  }

  /** `r` comes from `o` and has kept the maximum. */
  predicate Tracks(o: Operands, r: Operands) {
    (Bounded(o) ==> Bounded(r)) && o.maxDepth <= r.maxDepth
  }

  lemma PushTracks(o: Operands, t: Tag)
    ensures PushTag(o, t).Some? ==> Tracks(o, PushTag(o, t).value)
  {
  }

  lemma PopTracks(o: Operands, t: ValType)
    ensures PopType(o, t).Some? ==> Tracks(o, PopType(o, t).value) && DepthOf(PopType(o, t).value) <= DepthOf(o)
  {
    hide Depth;
  }

  lemma PopTagTracks(o: Operands)
    ensures PopTag(o).Some? ==> Tracks(o, PopTag(o).value.rest)
  {
    hide Depth;
  }

  lemma {:induction false} PopTypesTracks(o: Operands, ts: seq<ValType>)
    ensures PopTypes(o, ts).Some? ==> Tracks(o, PopTypes(o, ts).value)
    decreases |ts|
  {
    hide PopType, DepthOf;
    if ts != [] && PopType(o, ts[|ts| - 1]).Some? {
      PopTracks(o, ts[|ts| - 1]);
      PopTypesTracks(PopType(o, ts[|ts| - 1]).value, ts[..|ts| - 1]);
    }
  }

  lemma TopTracks(o: Operands, t: Option<ValType>)
    ensures TopType(o, t).Some? ==> Tracks(o, TopType(o, t).value)
  {
    hide PopType, PushTag, DepthOf;
    if t.Some? && PopType(o, t.value).Some? {
      PopTracks(o, t.value);
      PushTracks(PopType(o, t.value).value, Known(t.value));
    }
  }

  lemma UnreachableTracks(o: Operands)
    requires o.segs != []
    ensures Tracks(o, StartUnreachable(o))
  {
    hide Depth;
  }

  lemma {:induction false} TargetsTrack(s: Validator.State, ls: seq<nat>, c: nat)
    requires |s.ctrls| == |s.ops.segs| && c <= |ls|
    ensures CheckTargets(s, ls, c).Some? ==> Tracks(s.ops, CheckTargets(s, ls, c).value.ops)
    decreases c
  {
    hide TopType, DepthOf;
    if c > 0 {
      TargetsTrack(s, ls, c - 1);
      if CheckTargets(s, ls, c).Some? {
        var s' := CheckTargets(s, ls, c - 1).value;
        TopTracks(s'.ops, LabelType(s'.ctrls[|s'.ctrls| - 1 - ls[c - 1]]));
      }
    }
  }

  lemma BranchTracks(s: Validator.State, t: Token)
    requires IsBranch(t) && s.ctrls != [] && |s.ctrls| == |s.ops.segs|
    ensures BranchStep(s, t).Some? ==> Tracks(s.ops, BranchStep(s, t).value.ops)
  {
    hide PopType, DepthOf, CheckTargets, SameTypes, Targets;
    PopTracks(s.ops, I32);
    if BeforeBranch(s, t).Some? {
      var s0 := BeforeBranch(s, t).value;
      var ls := Targets(s0, t);
      TargetsTrack(s0, ls, |ls|);
      if CheckTargets(s0, ls, |ls|).Some? {
        UnreachableTracks(CheckTargets(s0, ls, |ls|).value.ops);
      }
    }
  }

  lemma StraightTracks(m: Module, fd: FuncDecl, o: Operands, t: Token)
    requires o.segs != []
    ensures StraightStep(m, fd, o, t).Some? ==> Tracks(o, StraightStep(m, fd, o, t).value)
  {
    hide PopType, DepthOf, PushTag, PopTag, PopTypes, TopType, StartUnreachable, LocalTypes;
    match t
    case Plain(op) =>
      var sig := PlainSig(m.globals, op);
      if sig.Some? {
        PopTypesTracks(o, sig.value.ins);
        if PopTypes(o, sig.value.ins).Some? && sig.value.outs != [] {
          PushTracks(PopTypes(o, sig.value.ins).value, Known(sig.value.outs[0]));
        }
      }
    case Call(f) =>
      var ft := TypeOfFunc(m, f);
      if ft.Some? {
        PopTypesTracks(o, ft.value.params);
        if PopTypes(o, ft.value.params).Some? && ft.value.result.Some? {
          PushTracks(PopTypes(o, ft.value.params).value, Known(ft.value.result.value));
        }
      }
    case Unreachable => UnreachableTracks(o);
    case Drop => PopTagTracks(o);
    case Select => SelectTracks(o);
    case LocalGet(i) => if LocalTypeAt(fd, i).Some? { PushTracks(o, Known(LocalTypeAt(fd, i).value)); }
    case LocalSet(i) => if LocalTypeAt(fd, i).Some? { PopTracks(o, LocalTypeAt(fd, i).value); }
    case LocalTee(i) => TopTracks(o, LocalTypeAt(fd, i));
    case _ =>
  }

  lemma SelectTracks(o: Operands)
    ensures SelectStep(o).Some? ==> Tracks(o, SelectStep(o).value)
  {
    hide PopType, DepthOf, PushTag, PopTag;
    PopTracks(o, I32);
    if SelectStep(o).Some? {
      var o1 := PopType(o, I32).value;
      PopTagTracks(o1);
      var p0 := PopTag(o1).value;
      PopTagTracks(p0.rest);
      var p1 := PopTag(p0.rest).value;
      PushTracks(p1.rest, if p0.tag != Any then p0.tag else p1.tag);
    }
  }

  /** After an `end` the scope outside has just the result on top. */
  lemma EndDepth(s: Validator.State)
    requires s.ctrls != [] && |s.ctrls| == |s.ops.segs| && EndStep(s).Some?
    ensures
      var c := s.ctrls[|s.ctrls| - 1];
      var r := EndStep(s).value;
      && DepthOf(r.ops) == EntryDepth(s.ops, |s.ctrls| - 1) + |ResultTypes(c.expected)|
      && Tracks(s.ops, r.ops)
  {
    hide PopType;
    var c := s.ctrls[|s.ctrls| - 1];
    var o := if c.expected.Some? then PopType(s.ops, c.expected.value).value else s.ops;
    if c.expected.Some? {
      PopTracks(s.ops, c.expected.value);
    }
    var o' := o.(segs := o.segs[..|o.segs| - 1]);
    assert DepthOf(o) == DepthOf(o') + |Top(o).vals|;
    assert s.ops.segs[..|s.ops.segs| - 1] == o'.segs;
    if c.expected.Some? {
      PushTracks(o', Known(c.expected.value));
      PushDepth(o', Known(c.expected.value));
    }
  }

  lemma PushDepth(o: Operands, t: Tag)
    requires PushTag(o, t).Some?
    ensures DepthOf(PushTag(o, t).value) == DepthOf(o) + 1
  {
  }

  lemma ElseTracks(s: Validator.State)
    requires s.ctrls != [] && |s.ctrls| == |s.ops.segs|
    ensures ElseStep(s).Some? ==> Tracks(s.ops, ElseStep(s).value.ops)
  {
    hide PopType, Depth;
    if Last(s).expected.Some? {
      PopTracks(s.ops, Last(s).expected.value);
    }
  }

  lemma OpenTracks(s: Validator.State, pos: nat, kind: Kind, bt: Option<ValType>)
    ensures Tracks(s.ops, Open(s, pos, kind, bt).ops)
  {
    var r := Open(s, pos, kind, bt).ops;
    assert r.segs[..|r.segs| - 1] == s.ops.segs;
  }

  lemma StepTracks(m: Module, fd: FuncDecl, s: Validator.State, t: Token, pos: nat)
    requires |s.ctrls| == |s.ops.segs| && Step(m, fd, s, t, pos).Some?
    ensures Tracks(s.ops, Step(m, fd, s, t, pos).value.ops)
  {
    hide Tracks, Open, ElseStep, EndStep, BranchStep, StraightStep;
    if t.Else? {
      ElseTracks(s);
    } else if t.End? {
      EndDepth(s);
    } else if IsBranch(t) {
      BranchTracks(s, t);
    } else if Opens(t) {
      OpenTracks(s, pos, KindOf(t), t.bt);
      if t.If? {
        IfTracks(s, pos, t.bt);
      }
    } else {
      StraightTracks(m, fd, s.ops, t);
    }
  }

  lemma IfTracks(s: Validator.State, pos: nat, bt: Option<ValType>)
    requires PopType(s.ops, I32).Some?
    ensures Tracks(s.ops, Open(s.(ops := PopType(s.ops, I32).value), pos, ThenBody, bt).ops)
  {
    hide PopType, DepthOf, Open;
    PopTracks(s.ops, I32);
    OpenTracks(s.(ops := PopType(s.ops, I32).value), pos, ThenBody, bt);
  }

  /** `maximum_operand_depth` bounds the depth before every instruction. */
  lemma {:induction false} DepthBounded(m: Module, fd: FuncDecl, i: nat, n: nat)
    requires i <= n <= |fd.body| && Run(m, fd, n).Some?
    ensures Run(m, fd, i).Some?
    ensures DepthOf(Run(m, fd, i).value.ops) <= Run(m, fd, i).value.ops.maxDepth <= Run(m, fd, n).value.ops.maxDepth
    decreases n
  {
    hide Step, DepthOf;
    if n == 0 {
      assert Bounded(Init(fd).ops) by { EmptyDepth(fd); }
    } else {
      DepthBounded(m, fd, n - 1, n - 1);
      StepTracks(m, fd, Run(m, fd, n - 1).value, fd.body[n - 1], n - 1);
      if i < n {
        DepthBounded(m, fd, i, n - 1);
      }
    }
  }

  lemma EmptyDepth(fd: FuncDecl)
    ensures DepthOf(Init(fd).ops) == 0
  {
  }

  predicate Closes(t: Token) {
    t.End? || t.Else?
  }

  /** The operand depth recorded for position `pos`. Where a scope closes it holds its result and
      nothing else, also when the tracker has seen the code before it to be unreachable. */
  function RecordedDepth(m: Module, fd: FuncDecl, pos: nat): nat
    requires Inside(m, fd, pos)
  {
    var s := Run(m, fd, pos).value;
    if Closes(fd.body[pos]) then EntryDepth(s.ops, |s.ctrls| - 1) + |ResultTypes(Last(s).expected)|
    else DepthOf(s.ops)
  }

  /** Where the code before a closing instruction is reachable, the recorded depth is the
      tracked one. */
  lemma RecordedIsTracked(m: Module, fd: FuncDecl, pos: nat)
    requires Accepts(m, fd) && Inside(m, fd, pos) && !Top(Run(m, fd, pos).value.ops).unreachable
    ensures RecordedDepth(m, fd, pos) == DepthOf(Run(m, fd, pos).value.ops)
  {
    hide Run, Step, Accepts;
    if Closes(fd.body[pos]) {
      var s := Run(m, fd, pos).value;
      CloseEmpties(m, fd, pos);
      var c := Last(s).expected;
      var o := WithoutResult(s.ops, c).value;
      assert o.segs[..|o.segs| - 1] == s.ops.segs[..|s.ops.segs| - 1];
    }
  }

  lemma NoRoot(m: Module, fd: FuncDecl, n: nat)
    requires n <= |fd.body| && Run(m, fd, n).Some? && Run(m, fd, n).value.ctrls != []
    ensures Run(m, fd, n).value.ops.root == []
  {
    hide Step;
    if n > 0 {
      StepShape(m, fd, Run(m, fd, n - 1).value, fd.body[n - 1], n - 1);
      NoRoot(m, fd, n - 1);
    }
  }

  /** The height of a frame's operands is the recorded depth, and code the validation algorithm
      holds unreachable is never run. */
  lemma FrameHeight(m: Module, f: Frame, pos: nat)
    requires FrameOk(m, f, pos, [])
    ensures Inside(m, m.funcs[f.func], pos)
    ensures |Vals(f.labels)| == RecordedDepth(m, m.funcs[f.func], pos)
    ensures !Closes(m.funcs[f.func].body[pos]) ==> !Top(Run(m, m.funcs[f.func], pos).value.ops).unreachable
  {
    hide Run, Accepts, LabelsOk, ContinuesAt, SegOk, HasTypes, EndOf, Close;
    var fd := m.funcs[f.func];
    var s := Run(m, fd, pos).value;
    var last := |f.labels| - 1;
    EntryIsHeight(m, f, pos, last, []);
    NoRoot(m, fd, pos);
    assert |Vals(f.labels)| == |Vals(f.labels[..last])| + |TopVals(f)|;
    AtClose(m, f, pos);
    if Closes(fd.body[pos]) {
      ScopeResult(m, f, pos);
      assert |TopVals(f)| == |ResultTypes(Last(s).expected)|
          by { SameLength(TopVals(f), ResultTypes(Last(s).expected)); }
    } else {
      assert SegOk(s.ops.segs[last], TopVals(f), []);
      SegSize(s.ops.segs[last], TopVals(f), []);
    }
  }

  lemma SameLength(vs: seq<Value>, ts: seq<ValType>)
    requires HasTypes(vs, ts)
    ensures |vs| == |ts|
  {
  }

  lemma SegSize(seg: Seg, vals: seq<Value>, pending: seq<ValType>)
    requires SegOk(seg, vals, pending)
    ensures |seg.vals| == |vals| + |pending| && !seg.unreachable
  {
  }

  /** A frame is at a closing instruction exactly when it has no code left in its scope. */
  lemma AtClose(m: Module, f: Frame, pos: nat)
    requires FrameOk(m, f, pos, [])
    ensures Closes(m.funcs[f.func].body[pos]) <==> f.code == INil
  {
    hide Run, Accepts, LabelsOk, SegsOk, TopOk, EndOf, Close;
    if f.code.ICons? {
      assert InstrAt(m.funcs[f.func].body, pos, f.code.hd);
    }
  }

  /** A frame never holds more operands than the recorded maximum. */
  lemma FrameBound(m: Module, f: Frame, pos: nat)
    requires FrameOk(m, f, pos, [])
    ensures Accepts(m, m.funcs[f.func])
    ensures |Vals(f.labels)| + |Expand(m.funcs[f.func].locals)| <= FuncStack(m, m.funcs[f.func])
  {
    hide Run, LabelsOk, SegsOk, TopOk, ContinuesAt, EndOf, Close, HasTypes, Step;
    var fd := m.funcs[f.func];
    FrameHeight(m, f, pos);
    DepthBounded(m, fd, pos, |fd.body|);
    if Closes(fd.body[pos]) {
      ClosingBound(m, fd, pos);
    }
  }

  lemma ClosingBound(m: Module, fd: FuncDecl, pos: nat)
    requires Accepts(m, fd) && Inside(m, fd, pos) && Closes(fd.body[pos])
    ensures RecordedDepth(m, fd, pos) <= Run(m, fd, |fd.body|).value.ops.maxDepth
  {
    hide Run, Step, DepthOf, Accepts;
    var s := Run(m, fd, pos).value;
    var k := |s.ctrls| - 1;
    assert Run(m, fd, |fd.body|).Some? by { RunAll(m, fd, |fd.body|); }
    Patched.ScopeCloses(m, fd, pos, k);
    ScopeAtEnd(m, fd, pos, k);
    var e := EndOf(m, fd, s.ctrls[k].opener);
    var r := Run(m, fd, e).value;
    RunAll(m, fd, e + 1);
    RunStep(m, fd, e);
    EndStepIs(m, fd, r, e);
    EndDepth(r);
    DepthBounded(m, fd, e + 1, |fd.body|);
    NoRoot(m, fd, pos);
    NoRoot(m, fd, e);
    assert r.ops.segs[..k] == s.ops.segs[..k];
  }

  lemma EndStepIs(m: Module, fd: FuncDecl, s: Validator.State, pos: nat)
    requires |s.ctrls| == |s.ops.segs| && pos < |fd.body| && fd.body[pos].End? && s.ctrls != []
    ensures Step(m, fd, s, fd.body[pos], pos) == EndStep(s)
  {
  }
}

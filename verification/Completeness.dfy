/** Completeness of the validation algorithm: every structured, well typed body is accepted, as long
    as its counts stay within the limits of their 32 bits. With soundness, the parser accepts exactly
    the well typed bodies. */
module Completeness {
  import opened Wasm
  import opened Validator
  import opened Scopes
  import opened Bytecode
  import opened Source
  import opened Nesting
  import opened FrameSteps
  import opened Typing
  import Depths

  /** How far one step may raise the operand depth. */
  predicate Grows(o: Operands, r: Operands) {
    DepthOf(r) <= DepthOf(o) + 1
  }

  lemma PopShrinks(o: Operands, t: ValType)
    requires PopType(o, t).Some?
    ensures DepthOf(PopType(o, t).value) <= DepthOf(o)
  {
    hide Depth;
  }

  lemma PopTagShrinks(o: Operands)
    requires PopTag(o).Some?
    ensures DepthOf(PopTag(o).value.rest) <= DepthOf(o)
  {
    hide Depth;
  }

  lemma {:induction false} PopTypesShrinks(o: Operands, ts: seq<ValType>)
    requires PopTypes(o, ts).Some?
    ensures DepthOf(PopTypes(o, ts).value) <= DepthOf(o)
    decreases |ts|
  {
    hide PopType, DepthOf;
    if ts != [] {
      PopShrinks(o, ts[|ts| - 1]);
      PopTypesShrinks(PopType(o, ts[|ts| - 1]).value, ts[..|ts| - 1]);
    }
  }

  lemma PushGrows(o: Operands, t: Tag)
    requires PushTag(o, t).Some?
    ensures DepthOf(PushTag(o, t).value) == DepthOf(o) + 1
  {
  }

  /** Constraining the top pushes only where there was nothing to pop. */
  lemma TopDepth(o: Operands, t: Option<ValType>)
    requires o.segs != [] && TopType(o, t).Some?
    ensures
      var r := TopType(o, t).value;
      && r.segs != []
      && (t.None? ==> r == o)
      && (t.Some? ==> Top(r).vals != [] && DepthOf(r) == DepthOf(o) + if Top(o).vals == [] then 1 else 0)
  {
    hide Depth;
  }

  /** However many labels a branch has, together they push at most once. */
  lemma {:induction false} TargetsDepth(s: State, ls: seq<nat>, c: nat)
    requires |s.ctrls| == |s.ops.segs| && s.ctrls != [] && c <= |ls| && CheckTargets(s, ls, c).Some?
    ensures
      var r := CheckTargets(s, ls, c).value.ops;
      r.segs != [] && (DepthOf(r) == DepthOf(s.ops) || (DepthOf(r) == DepthOf(s.ops) + 1 && Top(r).vals != []))
    ensures Top(s.ops).vals != [] ==>
            DepthOf(CheckTargets(s, ls, c).value.ops) == DepthOf(s.ops) &&
              Top(CheckTargets(s, ls, c).value.ops).vals != []
    decreases c
  {
    hide TopType, DepthOf;
    if c > 0 {
      TargetsDepth(s, ls, c - 1);
      var s' := CheckTargets(s, ls, c - 1).value;
      TopDepth(s'.ops, LabelType(s'.ctrls[|s'.ctrls| - 1 - ls[c - 1]]));
    }
  }

  /** What fits before a pop fits after it. */
  lemma PopWorks(o: Operands, t: ValType, base: seq<ValType>)
    requires o.segs != [] && Fits(Top(o), base + [t])
    ensures PopType(o, t).Some? && Fits(Top(PopType(o, t).value), base)
  {
    var top, ts := Top(o), base + [t];
    if top.vals != [] {
      var n := |top.vals| - 1;
      assert TagFits(top.vals[n], ts[|ts| - 1]);
      forall i {:trigger top.vals[..n][i]} | 0 <= i < n
        ensures TagFits(top.vals[..n][i], base[|base| - n + i])
      {
        assert TagFits(top.vals[i], ts[|ts| - |top.vals| + i]);
      }
    }
  }

  lemma PopTagWorks(o: Operands, t: ValType, base: seq<ValType>)
    requires o.segs != [] && Fits(Top(o), base + [t])
    ensures PopTag(o).Some? && TagFits(PopTag(o).value.tag, t) && Fits(Top(PopTag(o).value.rest), base)
  {
    var top, ts := Top(o), base + [t];
    if top.vals != [] {
      var n := |top.vals| - 1;
      assert TagFits(top.vals[n], ts[|ts| - 1]);
      forall i {:trigger top.vals[..n][i]} | 0 <= i < n
        ensures TagFits(top.vals[..n][i], base[|base| - n + i])
      {
        assert TagFits(top.vals[i], ts[|ts| - |top.vals| + i]);
      }
    }
  }

  lemma PushWorks(o: Operands, tag: Tag, ts: seq<ValType>, t: ValType)
    requires o.segs != [] && Fits(Top(o), ts) && TagFits(tag, t) && DepthOf(o) < U32_LIMIT - 1
    ensures PushTag(o, tag).Some? && Fits(Top(PushTag(o, tag).value), ts + [t])
  {
    hide Depth;
    var vals, ts' := Top(o).vals + [tag], ts + [t];
    forall i {:trigger vals[i]} | 0 <= i < |vals|
      ensures TagFits(vals[i], ts'[|ts'| - |vals| + i])
    {
      if i < |Top(o).vals| {
        assert TagFits(Top(o).vals[i], ts[|ts| - |Top(o).vals| + i]);
      }
    }
  }

  lemma {:induction false} PopTypesWork(o: Operands, args: seq<ValType>, base: seq<ValType>)
    requires o.segs != [] && Fits(Top(o), base + args)
    ensures PopTypes(o, args).Some? && Fits(Top(PopTypes(o, args).value), base)
    decreases |args|
  {
    hide PopType, Fits;
    if args == [] {
      assert base + args == base;
    } else {
      var n := |args| - 1;
      assert base + args == (base + args[..n]) + [args[n]];
      PopWorks(o, args[n], base + args[..n]);
      PopTypesWork(PopType(o, args[n]).value, args[..n], base);
    }
  }

  lemma PushResultWorks(o: Operands, t: Option<ValType>, base: seq<ValType>)
    requires o.segs != [] && Fits(Top(o), base) && DepthOf(o) < U32_LIMIT - 1
    ensures PushResult(o, t).Some? && Fits(Top(PushResult(o, t).value), base + ResultTypes(t))
  {
    hide Fits, DepthOf, PushTag;
    if t.Some? {
      PushWorks(o, Known(t.value), base, t.value);
    } else {
      assert base + ResultTypes(t) == base;
    }
  }

  lemma TopWorks(o: Operands, t: Option<ValType>, ts: seq<ValType>)
    requires o.segs != [] && Fits(Top(o), ts) && Ends(ts, ResultTypes(t)) && DepthOf(o) < U32_LIMIT - 1
    ensures TopType(o, t).Some? && Fits(Top(TopType(o, t).value), ts)
  {
    hide Fits, DepthOf, PushTag, PopType;
    if t.Some? {
      var base := ts[..|ts| - 1];
      assert ts == base + [t.value];
      PopWorks(o, t.value, base);
      PopShrinks(o, t.value);
      PushWorks(PopType(o, t.value).value, Known(t.value), base, t.value);
    }
  }

  /** A straight instruction passes wherever it is well typed. */
  lemma StraightWorks(m: Module, fd: FuncDecl, o: Operands, t: Token, ins: seq<ValType>, outs: seq<ValType>)
    requires o.segs != [] && IsStraight(t) && Fits(Top(o), ins) && StraightHas(m, fd, t, ins, outs)
    requires DepthOf(o) < U32_LIMIT - 1
    ensures StraightStep(m, fd, o, t).Some? && Fits(Top(StraightStep(m, fd, o, t).value), outs)
  {
    hide Fits, PopType, PopTag, PushTag, PopTypes, TopType, LocalTypes, DepthOf, PushResult, SelectStep, Over, Ends,
         PlainHas, PlainSig;
    match t
    case Plain(op) =>
      SignatureIsType(m.globals, op, ins, outs);
      var sig := PlainSig(m.globals, op).value;
      var t := if sig.outs == [] then None else Some(sig.outs[0]);
      assert ResultTypes(t) == sig.outs;
      SignatureWorks(o, sig.ins, t, ins, outs);
    case Call(f) =>
      var ft := TypeOfFunc(m, f).value;
      SignatureWorks(o, ft.params, ft.result, ins, outs);
    case Unreachable =>
      AnyFits(o, outs);
    case Drop =>
      var v: ValType :| Over(ins, [v], outs, []);
      PopsOne(ins, v, outs);
      PopTagWorks(o, v, outs);
    case Select =>
      SelectWorks(o, ins, outs);
    case LocalGet(i) =>
      var lt := LocalTypes(fd)[i];
      PushesOne(ins, lt, outs);
      PushWorks(o, Known(lt), ins, lt);
    case LocalSet(i) =>
      var lt := LocalTypes(fd)[i];
      PopsOne(ins, lt, outs);
      PopWorks(o, lt, outs);
    case LocalTee(i) =>
      var lt := LocalTypes(fd)[i];
      KeepsTop(ins, lt, outs);
      TopWorks(o, Some(lt), ins);
  }

  lemma PopsOne(ins: seq<ValType>, t: ValType, outs: seq<ValType>)
    requires Over(ins, [t], outs, [])
    ensures ins == outs + [t]
  {
    var base :| ins == base + [t] && outs == base + [];
    assert outs == base;
  }

  lemma PushesOne(ins: seq<ValType>, t: ValType, outs: seq<ValType>)
    requires Over(ins, [], outs, [t])
    ensures outs == ins + [t]
  {
    var base :| ins == base + [] && outs == base + [t];
    assert ins == base;
  }

  lemma KeepsTop(ins: seq<ValType>, t: ValType, outs: seq<ValType>)
    requires Over(ins, [t], outs, [t])
    ensures ins == outs && Ends(ins, [t])
  {
    var base :| ins == base + [t] && outs == base + [t];
    assert ins[|ins| - 1..] == [t];
  }

  /** After an unconditional branch anything fits. */
  lemma AnyFits(o: Operands, outs: seq<ValType>)
    requires o.segs != []
    ensures Fits(Top(StartUnreachable(o)), outs)
  {
    hide Depth;
  }

  lemma SignatureWorks(o: Operands, args: seq<ValType>, result: Option<ValType>, ins: seq<ValType>, outs: seq<ValType>)
    requires o.segs != [] && Fits(Top(o), ins) && Over(ins, args, outs, ResultTypes(result)) &&
            DepthOf(o) < U32_LIMIT - 1
    ensures PopTypes(o, args).Some? && PushResult(PopTypes(o, args).value, result).Some?
    ensures PushResult(PopTypes(o, args).value, result).value.segs != []
    ensures Fits(Top(PushResult(PopTypes(o, args).value, result).value), outs)
  {
    hide Fits, DepthOf, PopTypes, PushResult;
    var base :| ins == base + args && outs == base + ResultTypes(result);
    PopTypesWork(o, args, base);
    PopTypesShrinks(o, args);
    PushResultWorks(PopTypes(o, args).value, result, base);
  }

  lemma SelectWorks(o: Operands, ins: seq<ValType>, outs: seq<ValType>)
    requires o.segs != [] && Fits(Top(o), ins) && DepthOf(o) < U32_LIMIT - 1
    requires exists v: ValType :: Over(ins, [v, v, I32], outs, [v])
    ensures SelectStep(o).Some? && Fits(Top(SelectStep(o).value), outs)
  {
    hide Fits, PopType, PopTag, PushTag, DepthOf;
    var v: ValType :| Over(ins, [v, v, I32], outs, [v]);
    var base :| ins == base + [v, v, I32] && outs == base + [v];
    assert ins == base + [v] + [v] + [I32];
    PopWorks(o, I32, base + [v] + [v]);
    PopShrinks(o, I32);
    var o1 := PopType(o, I32).value;
    PopTagWorks(o1, v, base + [v]);
    PopTagShrinks(o1);
    var p0 := PopTag(o1).value;
    PopTagWorks(p0.rest, v, base);
    PopTagShrinks(p0.rest);
    var p1 := PopTag(p0.rest).value;
    PushWorks(p1.rest, if p0.tag != Any then p0.tag else p1.tag, base, v);
  }

  lemma LabelWorks(s: State, l: nat, ts: seq<ValType>)
    requires |s.ctrls| == |s.ops.segs| && l < |s.ctrls| && Fits(Top(s.ops), ts)
    requires Ends(ts, ResultTypes(LabelType(s.ctrls[|s.ctrls| - 1 - l]))) && DepthOf(s.ops) < RESULT_FLAG
    ensures CheckTarget(s, l).Some? && Fits(Top(CheckTarget(s, l).value.ops), ts)
  {
    hide TopType, Fits, Ends, DepthOf, EntryDepth;
    TopWorks(s.ops, LabelType(s.ctrls[|s.ctrls| - 1 - l]), ts);
  }

  ghost predicate LabelsFind(ctrls: seq<Ctrl>, ls: seq<nat>, c: nat, ts: seq<ValType>)
    requires c <= |ls|
  {
    forall j {:trigger ls[j]} :: 0 <= j < c ==>
      ls[j] < |ctrls| && Ends(ts, ResultTypes(LabelType(ctrls[|ctrls| - 1 - ls[j]])))
  }

  /** The labels of a branch pass when each finds its result on top. */
  lemma {:induction false} TargetsWork(s: State, ls: seq<nat>, c: nat, ts: seq<ValType>)
    requires |s.ctrls| == |s.ops.segs| && s.ctrls != [] && c <= |ls| && Fits(Top(s.ops), ts)
    requires LabelsFind(s.ctrls, ls, c, ts) && DepthOf(s.ops) + 1 < RESULT_FLAG
    ensures CheckTargets(s, ls, c).Some? && Fits(Top(CheckTargets(s, ls, c).value.ops), ts)
    decreases c
  {
    hide CheckTarget, Fits, Ends, DepthOf;
    if c > 0 {
      TargetsWork(s, ls, c - 1, ts);
      TargetsDepth(s, ls, c - 1);
      LabelWorks(CheckTargets(s, ls, c - 1).value, ls[c - 1], ts);
    }
  }

  lemma LabelIs(ctrls: seq<Ctrl>, l: nat)
    requires l < |ctrls|
    ensures LabelAt(LabelsOf(ctrls), l) == LabelType(ctrls[|ctrls| - 1 - l])
    ensures LabelsOf(ctrls)[0] == LabelType(ctrls[0])
  {
  }

  /** The operands the labels of a branch are checked against. */
  lemma BranchOperands(s: State, t: Token, ins: seq<ValType>, outs: seq<ValType>) returns (ts: seq<ValType>)
    requires IsBranch(t) && s.ctrls != [] && BranchHas(LabelsOf(s.ctrls), t, ins, outs)
    ensures ins == if t.BrIf? || t.BrTable? then ts + [I32] else ts
    ensures t.BrIf? ==> outs == ts
    ensures LabelsFind(s.ctrls, Targets(s, t), |Targets(s, t)|, ts)
    ensures t.BrTable? ==> SameTypes(s.ctrls, Targets(s, t))
  {
    hide LabelsOf, Ends, Over, LabelAt;
    match t
    case Br(l) =>
      ts := ins;
      LabelIs(s.ctrls, l);
    case Return =>
      ts := ins;
      LabelIs(s.ctrls, 0);
    case BrIf(l) =>
      LabelIs(s.ctrls, l);
      ts := outs;
      ConditionOver(ins, ResultTypes(LabelAt(LabelsOf(s.ctrls), l)), outs);
    case BrTable(ls, d) =>
      ts := TableOperands(s.ctrls, ls, d, ins, outs);
  }

  lemma ConditionOver(ins: seq<ValType>, r: seq<ValType>, outs: seq<ValType>)
    requires Over(ins, r + [I32], outs, r)
    ensures ins == outs + [I32] && Ends(outs, r)
  {
    var base :| ins == base + (r + [I32]) && outs == base + r;
    assert ins == outs + [I32];
    assert outs[|outs| - |r|..] == r;
  }

  lemma TableOperands(ctrls: seq<Ctrl>, ls: seq<nat>, d: nat, ins: seq<ValType>, outs: seq<ValType>)
    returns (ts: seq<ValType>)
    requires BranchHas(LabelsOf(ctrls), BrTable(ls, d), ins, outs)
    ensures ins == ts + [I32] && LabelsFind(ctrls, ls + [d], |ls| + 1, ts) && SameTypes(ctrls, ls + [d])
  {
    hide LabelsOf, SameTypes;
    TableLabels(ctrls, ls, d);
    var r := ResultTypes(LabelAt(LabelsOf(ctrls), d));
    ts := ins[..|ins| - 1];
    OperandsUnder(ins, r, I32);
  }

  lemma OperandsUnder(ins: seq<ValType>, r: seq<ValType>, t: ValType)
    requires Ends(ins, r + [t])
    ensures ins != [] && ins == ins[..|ins| - 1] + [t] && Ends(ins[..|ins| - 1], r)
  {
    var top := ins[|ins| - |r + [t]|..];
    assert top[|r|] == t;
    assert ins[..|ins| - 1][|ins| - 1 - |r|..] == top[..|r|] == r;
  }

  lemma TableLabels(ctrls: seq<Ctrl>, ls: seq<nat>, d: nat)
    requires d < |ctrls|
    requires forall j :: 0 <= j < |ls| ==>
            ls[j] < |ctrls| && LabelAt(LabelsOf(ctrls), ls[j]) == LabelAt(LabelsOf(ctrls), d)
    ensures forall j {:trigger (ls + [d])[j]} :: 0 <= j < |ls| + 1 ==>
              (ls + [d])[j] < |ctrls| && LabelType(ctrls[|ctrls| - 1 - (ls + [d])[j]]) == LabelAt(LabelsOf(ctrls), d)
    ensures SameTypes(ctrls, ls + [d])
  {
  }

  lemma BranchWorks(s: State, t: Token, ins: seq<ValType>, outs: seq<ValType>)
    requires IsBranch(t) && s.ctrls != [] && |s.ctrls| == |s.ops.segs| && BranchHas(LabelsOf(s.ctrls), t, ins, outs)
    requires Fits(Top(s.ops), ins) && DepthOf(s.ops) + 1 < RESULT_FLAG
    ensures BranchStep(s, t).Some? && Fits(Top(BranchStep(s, t).value.ops), outs)
  {
    hide Fits, Ends, DepthOf, PopType, CheckTargets, BranchHas, SameTypes;
    var ts := BranchOperands(s, t, ins, outs);
    if t.BrIf? || t.BrTable? {
      PopWorks(s.ops, I32, ts);
      PopShrinks(s.ops, I32);
    }
    var s0 := BeforeBranch(s, t).value;
    var ls := Targets(s0, t);
    assert ls == Targets(s, t);
    TargetsWork(s0, ls, |ls|, ts);
    AnyFits(CheckTargets(s0, ls, |ls|).value.ops, outs);
  }

  lemma StraightGrows(m: Module, fd: FuncDecl, o: Operands, t: Token)
    requires o.segs != [] && StraightStep(m, fd, o, t).Some?
    ensures Grows(o, StraightStep(m, fd, o, t).value)
  {
    hide PopType, DepthOf, PushTag, PopTag, PopTypes, TopType, LocalTypes, PushResult;
    match t
    case Plain(op) =>
      var sig := PlainSig(m.globals, op).value;
      PopTypesShrinks(o, sig.ins);
      ResultGrows(PopTypes(o, sig.ins).value, if sig.outs == [] then None else Some(sig.outs[0]));
    case Call(f) =>
      var ft := TypeOfFunc(m, f).value;
      PopTypesShrinks(o, ft.params);
      ResultGrows(PopTypes(o, ft.params).value, ft.result);
    case Unreachable => UnreachableShrinks(o);
    case Drop => PopTagShrinks(o);
    case Select =>
      PopShrinks(o, I32);
      var o1 := PopType(o, I32).value;
      PopTagShrinks(o1);
      var p0 := PopTag(o1).value;
      PopTagShrinks(p0.rest);
      var p1 := PopTag(p0.rest).value;
      PushGrows(p1.rest, if p0.tag != Any then p0.tag else p1.tag);
    case LocalGet(i) => PushGrows(o, Known(LocalTypes(fd)[i]));
    case LocalSet(i) => PopShrinks(o, LocalTypes(fd)[i]);
    case LocalTee(i) => TopDepth(o, Some(LocalTypes(fd)[i]));
  }

  lemma ResultGrows(o: Operands, t: Option<ValType>)
    requires PushResult(o, t).Some?
    ensures Grows(o, PushResult(o, t).value)
  {
    hide DepthOf, PushTag;
    if t.Some? {
      PushGrows(o, Known(t.value));
    }
  }

  lemma UnreachableShrinks(o: Operands)
    requires o.segs != []
    ensures DepthOf(StartUnreachable(o)) <= DepthOf(o)
  {
    hide Depth;
  }

  lemma BranchGrows(s: State, t: Token)
    requires IsBranch(t) && s.ctrls != [] && |s.ctrls| == |s.ops.segs| && BranchStep(s, t).Some?
    ensures Grows(s.ops, BranchStep(s, t).value.ops)
  {
    hide PopType, DepthOf, CheckTargets, SameTypes, Targets;
    if t.BrIf? || t.BrTable? {
      PopShrinks(s.ops, I32);
    }
    var s0 := BeforeBranch(s, t).value;
    var ls := Targets(s0, t);
    TargetsDepth(s0, ls, |ls|);
    UnreachableShrinks(CheckTargets(s0, ls, |ls|).value.ops);
  }

  lemma ScopeDepth(o: Operands)
    ensures DepthOf(PushScope(o)) == DepthOf(o)
  {
    assert PushScope(o).segs[..|o.segs|] == o.segs;
  }

  lemma EmptyScopeDepth(o: Operands)
    requires o.segs != [] && Top(o).vals == []
    ensures DepthOf(o.(segs := o.segs[..|o.segs| - 1])) == DepthOf(o)
  {
  }

  lemma EndGrows(s: State)
    requires s.ctrls != [] && |s.ctrls| == |s.ops.segs| && EndStep(s).Some?
    ensures Grows(s.ops, EndStep(s).value.ops)
  {
    hide PopType, DepthOf, PushResult;
    var c := Last(s);
    if c.expected.Some? {
      PopShrinks(s.ops, c.expected.value);
    }
    var o := if c.expected.Some? then PopType(s.ops, c.expected.value).value else s.ops;
    EmptyScopeDepth(o);
    ResultGrows(o.(segs := o.segs[..|o.segs| - 1]), c.expected);
  }

  lemma ElseGrows(s: State)
    requires s.ctrls != [] && |s.ctrls| == |s.ops.segs| && ElseStep(s).Some?
    ensures Grows(s.ops, ElseStep(s).value.ops)
  {
    hide PopType, Depth;
    var c := Last(s);
    if c.expected.Some? {
      PopShrinks(s.ops, c.expected.value);
    }
  }

  /** One instruction raises the operand depth by one at most. */
  lemma StepGrows(m: Module, fd: FuncDecl, s: State, t: Token, pos: nat)
    requires |s.ctrls| == |s.ops.segs| && Step(m, fd, s, t, pos).Some?
    ensures Grows(s.ops, Step(m, fd, s, t, pos).value.ops)
  {
    hide DepthOf, PopType, EndStep, ElseStep, BranchStep, StraightStep;
    if Opens(t) {
      if t.If? {
        PopShrinks(s.ops, I32);
        ScopeDepth(PopType(s.ops, I32).value);
      }
      ScopeDepth(s.ops);
    } else if t.Else? {
      ElseGrows(s);
    } else if t.End? {
      EndGrows(s);
    } else if IsBranch(t) {
      BranchGrows(s, t);
    } else {
      StraightGrows(m, fd, s.ops, t);
    }
  }

  /** So the depth before instruction `n` is at most `n`. */
  lemma {:induction false} DepthBelow(m: Module, fd: FuncDecl, n: nat)
    requires n <= |fd.body| && Run(m, fd, n).Some?
    ensures DepthOf(Run(m, fd, n).value.ops) <= n
    decreases n
  {
    hide Step, DepthOf;
    if n == 0 {
      Depths.EmptyDepth(fd);
    } else {
      DepthBelow(m, fd, n - 1);
      StepGrows(m, fd, Run(m, fd, n - 1).value, fd.body[n - 1], n - 1);
    }
  }

  /** A scope whose operands are its result can be left, and the result joins what was outside. */
  lemma CloseWorks(s: State, o: Operands, base: seq<ValType>)
    requires |s.ctrls| == |s.ops.segs| > 1 && !(Last(s).kind.ThenBody? && Last(s).expected.Some?)
    requires s.ops.segs[..|s.ops.segs| - 1] == o.segs && s.ops.root == o.root
    requires Fits(Top(s.ops), ResultTypes(Last(s).expected)) && Fits(Top(o), base) && DepthOf(s.ops) < U32_LIMIT - 1
    ensures EndStep(s).Some? && EndStep(s).value.ctrls == s.ctrls[..|s.ctrls| - 1]
    ensures SameBelow(o, EndStep(s).value.ops) && Fits(Top(EndStep(s).value.ops), base + ResultTypes(Last(s).expected))
  {
    hide PopType, PushResult, DepthOf, Fits;
    var c := Last(s);
    var o1 := LeavesResult(s.ops, c.expected);
    EmptyScopeDepth(o1);
    var o2 := o1.(segs := o1.segs[..|o1.segs| - 1]);
    assert o2.segs == o.segs;
    assert Top(o2) == Top(o);
    PushResultWorks(o2, c.expected, base);
  }

  /** Popping the result of a scope leaves it empty. */
  lemma LeavesResult(o: Operands, t: Option<ValType>) returns (r: Operands)
    requires o.segs != [] && Fits(Top(o), ResultTypes(t))
    ensures t.Some? ==> PopType(o, t.value) == Some(r)
    ensures t.None? ==> r == o
    ensures SameBelow(o, r) && Top(r).vals == [] && DepthOf(r) <= DepthOf(o)
  {
    hide Depth;
    if t.Some? {
      assert [] + [t.value] == ResultTypes(t);
      PopWorks(o, t.value, []);
      PopShrinks(o, t.value);
      r := PopType(o, t.value).value;
    } else {
      r := o;
    }
  }

  lemma ElseWorks(s: State)
    requires |s.ctrls| == |s.ops.segs| > 0 && Last(s).kind.ThenBody? && Fits(Top(s.ops), ResultTypes(Last(s).expected))
    ensures ElseStep(s).Some? && ElseStep(s).value.ctrls == s.ctrls[|s.ctrls| - 1 := Last(s).(kind := ElseBody)]
    ensures SameBelow(s.ops, ElseStep(s).value.ops) && Top(ElseStep(s).value.ops) == Seg(false, [])
  {
    hide PopType, DepthOf, Fits;
    var o := LeavesResult(s.ops, Last(s).expected);
  }

  /** The end of the function itself. */
  lemma FinishWorks(s: State)
    requires |s.ctrls| == |s.ops.segs| == 1 && !Last(s).kind.ThenBody?
    requires Fits(Top(s.ops), ResultTypes(Last(s).expected)) && DepthOf(s.ops) < U32_LIMIT - 1
    ensures EndStep(s).Some? && EndStep(s).value.ctrls == []
  {
    hide PopType, Fits, Depth;
    var o := LeavesResult(s.ops, Last(s).expected);
    EmptyScopeDepth(o);
  }

  /** The operand depth before every instruction that is reached stays within its 32 bits, with the
      topmost for the flag of a branch. */
  ghost predicate WithinLimits(m: Module, fd: FuncDecl) {
    forall n {:trigger Run(m, fd, n)} :: 0 <= n <= |fd.body| && Run(m, fd, n).Some? ==>
      DepthOf(Run(m, fd, n).value.ops) + 1 < RESULT_FLAG
  }

  /** The scopes open at `j` are those at `i`, and only the operands of the innermost one differ. */
  ghost predicate Kept(m: Module, fd: FuncDecl, i: nat, j: nat) {
    && i <= |fd.body| && j <= |fd.body| && Run(m, fd, i).Some? && Run(m, fd, j).Some?
    && Run(m, fd, j).value.ctrls == Run(m, fd, i).value.ctrls
    && SameBelow(Run(m, fd, i).value.ops, Run(m, fd, j).value.ops)
  }

  lemma KeptTwice(m: Module, fd: FuncDecl, i: nat, j: nat, k: nat)
    requires Kept(m, fd, i, j) && Kept(m, fd, j, k)
    ensures Kept(m, fd, i, k)
  {
    hide Run;
  }

  /** Structured code that is well typed for operands that fit passes, and leaves operands that fit. */
  lemma {:induction false} CodePasses(m: Module, fd: FuncDecl, i: nat, c: Instrs, ins: seq<ValType>, outs: seq<ValType>)
    requires WithinLimits(m, fd) && CodeAt(fd.body, i, c) && i + Len(c) < |fd.body| && StateFits(m, fd, i, ins)
    requires CodeHas(m, fd, LabelsOf(CtrlsAt(m, fd, i)), c, ins, outs)
    ensures StateFits(m, fd, i + Len(c), outs) && Kept(m, fd, i, i + Len(c))
    decreases c, 1
  {
    hide Run, InstrAt, InstrHas, WithinLimits, Fits;
    if c.ICons? {
      var labels := LabelsOf(CtrlsAt(m, fd, i));
      var mid: seq<ValType> :| InstrHas(m, fd, labels, c.hd, ins, mid) && CodeHas(m, fd, labels, c.tl, mid, outs);
      InstrPasses(m, fd, i, c.hd, ins, mid);
      CodePasses(m, fd, i + LenI(c.hd), c.tl, mid, outs);
      KeptTwice(m, fd, i, i + LenI(c.hd), i + Len(c));
    }
  }

  lemma {:induction false} InstrPasses(m: Module, fd: FuncDecl, i: nat, hd: Instr, ins: seq<ValType>,
      outs: seq<ValType>)
    requires WithinLimits(m, fd) && InstrAt(fd.body, i, hd) && i + LenI(hd) < |fd.body| && StateFits(m, fd, i, ins)
    requires InstrHas(m, fd, LabelsOf(CtrlsAt(m, fd, i)), hd, ins, outs)
    ensures StateFits(m, fd, i + LenI(hd), outs) && Kept(m, fd, i, i + LenI(hd))
    decreases hd, 1
  {
    hide Run, WithinLimits, Fits, StateFits, Kept, CodeHas, CtrlsAt, CodeAt, StraightHas, BranchHas;
    match hd
    case Basic(t) => BasicPasses(m, fd, i, t, ins, outs);
    case BlockI(bt, b) => ScopePasses(m, fd, i, b, ins, ins);
    case LoopI(bt, b) => ScopePasses(m, fd, i, b, ins, ins);
    case IfI(bt, thn, hasElse, els) =>
      var base := ins[..|ins| - 1];
      assert ins == base + [I32];
      if hasElse {
        IfElsePasses(m, fd, i, hd, ins, base);
      } else {
        NoElse(m, fd, LabelsOf(CtrlsAt(m, fd, i)) + [bt], bt);
        ScopePasses(m, fd, i, thn, ins, base);
      }
  }

  lemma BasicPasses(m: Module, fd: FuncDecl, i: nat, t: Token, ins: seq<ValType>, outs: seq<ValType>)
    requires WithinLimits(m, fd) && i + 1 < |fd.body| && fd.body[i] == t && StateFits(m, fd, i, ins)
    requires if IsStraight(t) then StraightHas(m, fd, t, ins, outs)
            else IsBranch(t) && BranchHas(LabelsOf(CtrlsAt(m, fd, i)), t, ins, outs)
    ensures StateFits(m, fd, i + 1, outs) && Kept(m, fd, i, i + 1)
  {
    hide Run, Fits, StraightHas, BranchHas, StraightStep, BranchStep, DepthOf;
    var s := Run(m, fd, i).value;
    RunStep(m, fd, i);
    if IsStraight(t) {
      StraightWorks(m, fd, s.ops, t, ins, outs);
    } else {
      BranchWorks(s, t, ins, outs);
    }
  }

  /** What an opening instruction leaves outside its scope. */
  function Outside(o: Operands, t: Token): Option<Operands> {
    if t.If? then PopType(o, I32) else Some(o)
  }

  lemma Opened(m: Module, fd: FuncDecl, i: nat, ins: seq<ValType>, base: seq<ValType>)
    requires i + 1 < |fd.body| && Opens(fd.body[i]) && StateFits(m, fd, i, ins)
    requires ins == if fd.body[i].If? then base + [I32] else base
    ensures Outside(Run(m, fd, i).value.ops, fd.body[i]).Some?
    ensures StateFits(m, fd, i + 1, [])
    ensures
      var s, r := Run(m, fd, i).value, Run(m, fd, i + 1).value;
      var o := Outside(s.ops, fd.body[i]).value;
      && SameBelow(s.ops, o) && o.segs != [] && Fits(Top(o), base)
      && r.ctrls == s.ctrls + [Ctrl(i, KindOf(fd.body[i]), fd.body[i].bt)]
      && r.ops.segs[..|r.ops.segs| - 1] == o.segs && r.ops.root == o.root
  {
    hide Run, PopType;
    var s := Run(m, fd, i).value;
    RunStep(m, fd, i);
    if fd.body[i].If? {
      PopWorks(s.ops, I32, base);
    }
  }

  /** The end of a scope opened at `i` whose operands at `e` are its result. */
  lemma Closed(m: Module, fd: FuncDecl, i: nat, e: nat, base: seq<ValType>)
    requires WithinLimits(m, fd) && i < e && e + 1 < |fd.body| && Opens(fd.body[i]) && fd.body[e].End?
    requires Run(m, fd, i).Some? && Run(m, fd, i).value.ctrls != [] && Run(m, fd, e).Some?
    requires Outside(Run(m, fd, i).value.ops, fd.body[i]).Some?
    requires
      var s, r := Run(m, fd, i).value, Run(m, fd, e).value;
      var o := Outside(s.ops, fd.body[i]).value;
      && SameBelow(s.ops, o) && o.segs != [] && Fits(Top(o), base)
      && |r.ctrls| == |s.ctrls| + 1 && r.ctrls[..|s.ctrls|] == s.ctrls
      && Last(r).expected == fd.body[i].bt && (Last(r).kind.ThenBody? ==> fd.body[i].bt.None?)
      && r.ops.segs[..|r.ops.segs| - 1] == o.segs && r.ops.root == o.root
    requires StateFits(m, fd, e, ResultTypes(fd.body[i].bt))
    ensures StateFits(m, fd, e + 1, base + ResultTypes(fd.body[i].bt)) && Kept(m, fd, i, e + 1)
  {
    hide Run, Fits, DepthOf, EndStep, Outside;
    var s, r := Run(m, fd, i).value, Run(m, fd, e).value;
    var o := Outside(s.ops, fd.body[i]).value;
    RunStep(m, fd, e);
    CloseWorks(r, o, base);
  }

  /** Without a second part there is no result. */
  lemma NoElse(m: Module, fd: FuncDecl, labels: Labels, bt: Option<ValType>)
    requires CodeHas(m, fd, labels, INil, [], ResultTypes(bt))
    ensures bt.None?
  {
  }

  /** A block, a loop, or an if without an else. */
  lemma {:induction false} ScopePasses(m: Module, fd: FuncDecl, i: nat, b: Instrs, ins: seq<ValType>,
      base: seq<ValType>)
    requires WithinLimits(m, fd) && i < |fd.body| && Opens(fd.body[i]) && StateFits(m, fd, i, ins)
    requires CodeAt(fd.body, i + 1, b) && i + Len(b) + 2 < |fd.body| && fd.body[i + Len(b) + 1].End?
    requires ins == (if fd.body[i].If? then base + [I32] else base) && (fd.body[i].If? ==> fd.body[i].bt.None?)
    requires
      var lt := if fd.body[i].Loop? then None else fd.body[i].bt;
      CodeHas(m, fd, LabelsOf(CtrlsAt(m, fd, i)) + [lt], b, [], ResultTypes(fd.body[i].bt))
    ensures StateFits(m, fd, i + Len(b) + 2, base + ResultTypes(fd.body[i].bt)) && Kept(m, fd, i, i + Len(b) + 2)
    decreases b, 2
  {
    hide Run, WithinLimits, Fits, CodeHas, CodeAt, Outside, LabelsOf, DepthOf;
    Opened(m, fd, i, ins, base);
    var s, r := Run(m, fd, i).value, Run(m, fd, i + 1).value;
    var c := Ctrl(i, KindOf(fd.body[i]), fd.body[i].bt);
    LabelsMore(s.ctrls, c);
    CodePasses(m, fd, i + 1, b, [], ResultTypes(fd.body[i].bt));
    var e := i + 1 + Len(b);
    assert Last(Run(m, fd, e).value) == c;
    Closed(m, fd, i, e, base);
  }

  /** An if with an else. */
  lemma {:induction false} IfElsePasses(m: Module, fd: FuncDecl, i: nat, hd: Instr, ins: seq<ValType>,
      base: seq<ValType>)
    requires hd.IfI? && hd.hasElse && WithinLimits(m, fd) && i < |fd.body| && fd.body[i].If? &&
            StateFits(m, fd, i, ins) && ins == base + [I32]
    requires CodeAt(fd.body, i + 1, hd.thn) && CodeAt(fd.body, i + Len(hd.thn) + 2, hd.els)
    requires i + Len(hd.thn) + Len(hd.els) + 3 < |fd.body|
    requires fd.body[i + Len(hd.thn) + 1].Else? && fd.body[i + Len(hd.thn) + Len(hd.els) + 2].End?
    requires CodeHas(m, fd, LabelsOf(CtrlsAt(m, fd, i)) + [fd.body[i].bt], hd.thn, [], ResultTypes(fd.body[i].bt))
    requires CodeHas(m, fd, LabelsOf(CtrlsAt(m, fd, i)) + [fd.body[i].bt], hd.els, [], ResultTypes(fd.body[i].bt))
    ensures
      var e := i + Len(hd.thn) + Len(hd.els) + 3;
      StateFits(m, fd, e, base + ResultTypes(fd.body[i].bt)) && Kept(m, fd, i, e)
    decreases hd, 0
  {
    hide Run, WithinLimits, Fits, CodeHas, CodeAt, Outside, LabelsOf, DepthOf;
    var bt := fd.body[i].bt;
    Opened(m, fd, i, ins, base);
    var s := Run(m, fd, i).value;
    LabelsMore(s.ctrls, Ctrl(i, ThenBody, bt));
    LabelsMore(s.ctrls, Ctrl(i, ElseBody, bt));
    CodePasses(m, fd, i + 1, hd.thn, [], ResultTypes(bt));
    var j := i + 1 + Len(hd.thn);
    ElsePasses(m, fd, j);
    CodePasses(m, fd, j + 1, hd.els, [], ResultTypes(bt));
    Closed(m, fd, i, j + 1 + Len(hd.els), base);
  }

  lemma ElsePasses(m: Module, fd: FuncDecl, j: nat)
    requires j + 1 < |fd.body| && fd.body[j].Else? && Run(m, fd, j).Some? && Run(m, fd, j).value.ctrls != []
    requires Last(Run(m, fd, j).value).kind.ThenBody? &&
            StateFits(m, fd, j, ResultTypes(Last(Run(m, fd, j).value).expected))
    ensures StateFits(m, fd, j + 1, [])
    ensures
      var s, r := Run(m, fd, j).value, Run(m, fd, j + 1).value;
      && r.ctrls == s.ctrls[..|s.ctrls| - 1] + [Last(s).(kind := ElseBody)]
      && SameBelow(s.ops, r.ops)
  {
    hide Run, ElseStep;
    RunStep(m, fd, j);
    ElseWorks(Run(m, fd, j).value);
  }

  /** A structured, well typed body is accepted if its counts stay within their limits. */
  lemma WellTypedIsAccepted(m: Module, fd: FuncDecl, c: Instrs)
    requires IsBody(fd.body, c) && WellTyped(m, fd, c) && WithinLimits(m, fd) && |LocalTypes(fd)| < U32_LIMIT
    ensures Accepts(m, fd)
  {
    hide CodeHas, CodeAt, DepthOf, EndStep, LocalTypes, Run, WithinLimits;
    var n := |fd.body| - 1;
    Starts(m, fd);
    CodePasses(m, fd, 0, c, [], ResultTypes(fd.ft.result));
    RunStep(m, fd, n);
    DepthLimited(m, fd, n);
    FinishWorks(Run(m, fd, n).value);
  }

  lemma DepthLimited(m: Module, fd: FuncDecl, n: nat)
    requires WithinLimits(m, fd) && n <= |fd.body| && Run(m, fd, n).Some?
    ensures DepthOf(Run(m, fd, n).value.ops) + 1 < RESULT_FLAG
  {
    hide Run, DepthOf;
  }

  lemma Starts(m: Module, fd: FuncDecl)
    ensures Run(m, fd, 0) == Some(Init(fd)) && LabelsOf(CtrlsAt(m, fd, 0)) == [fd.ft.result]
  {
    LabelsMore([], Ctrl(-1, FuncBody, fd.ft.result));
    assert LabelsOf([]) + [fd.ft.result] == LabelsOf(CtrlsAt(m, fd, 0));
  }

  /** A body of fewer than 2147483647 instructions has no count that is too large. */
  lemma ShortBody(m: Module, fd: FuncDecl)
    requires |fd.body| + 1 < RESULT_FLAG
    ensures WithinLimits(m, fd)
  {
    hide Run, DepthOf;
    forall n {:trigger Run(m, fd, n)} | 0 <= n <= |fd.body| && Run(m, fd, n).Some?
      ensures DepthOf(Run(m, fd, n).value.ops) + 1 < RESULT_FLAG
    {
      DepthBelow(m, fd, n);
    }
  }

  /** The single pass is exact: a body of fewer than 2147483647 instructions is accepted if and only if
      its tokens spell structured code that is well typed, and its locals can be counted. */
  lemma AcceptedExactly(m: Module, fd: FuncDecl)
    requires |fd.body| < 2147483647
    ensures Accepts(m, fd) <==>
            |LocalTypes(fd)| < 4294967296 && exists c: Instrs :: IsBody(fd.body, c) && WellTyped(m, fd, c)
  {
    hide Run, WellTyped, IsBody, LocalTypes, WithinLimits;
    if Accepts(m, fd) {
      AcceptedIsStructured(m, fd);
      var c :| IsBody(fd.body, c);
      AcceptedIsWellTyped(m, fd, c);
    }
    if |LocalTypes(fd)| < U32_LIMIT && exists c: Instrs :: IsBody(fd.body, c) && WellTyped(m, fd, c) {
      var c: Instrs :| IsBody(fd.body, c) && WellTyped(m, fd, c);
      ShortBody(m, fd);
      WellTypedIsAccepted(m, fd, c);
    }
  }
}

/** Every way control moves inside a frame keeps the frame as the validation algorithm saw it. */
module FrameSteps {
  import opened Wasm
  import opened Validator
  import opened Scopes
  import opened Source
  import opened Nesting
  import opened Frames

  /** Scope `k`, open at `pos`, is the innermost scope again at its `end`, and the scopes outside
      it hold the same operands there. */
  lemma ScopeAtEnd(m: Module, fd: FuncDecl, pos: nat, k: nat)
    requires Accepts(m, fd) && pos <= |fd.body| && Run(m, fd, pos).Some? && k < |Run(m, fd, pos).value.ctrls|
    requires -1 <= Run(m, fd, pos).value.ctrls[k].opener < |fd.body|
    requires EndOf(m, fd, Run(m, fd, pos).value.ctrls[k].opener) < |fd.body|
    ensures
      var s := Run(m, fd, pos).value;
      var e := EndOf(m, fd, s.ctrls[k].opener);
      && fd.body[e].End? == true
      && Run(m, fd, e).Some?
      && var r := Run(m, fd, e).value;
      && |r.ctrls| == k + 1
      && r.ctrls[k].opener == s.ctrls[k].opener && r.ctrls[k].expected == s.ctrls[k].expected
      && (r.ctrls[k].kind.LoopBody? <==> s.ctrls[k].kind.LoopBody?)
      && (forall j :: 0 <= j < k ==> r.ctrls[j] == s.ctrls[j] && r.ops.segs[j] == s.ops.segs[j])
  {
    hide Step, Accepts, Run, FindClose, Close, EndOf;
    var s := Run(m, fd, pos).value;
    var o := s.ctrls[k].opener;
    var e := EndOf(m, fd, o);
    RunAll(m, fd, e);
    var r := Run(m, fd, e).value;
    ScopesOk(m, fd, pos, k);
    ScopesOk(m, fd, e, |r.ctrls| - 1);
    assert IsClose(m, fd, o, e);
    if fd.body[e].Else? {
      ElseIsNotEnd(m, fd, o);
    }
  }

  /** What `EndOf` finds is never an `else`: a scope has at most one. */
  lemma ElseIsNotEnd(m: Module, fd: FuncDecl, o: int)
    requires Accepts(m, fd) && -1 <= o < |fd.body| && EndOf(m, fd, o) < |fd.body|
    ensures fd.body[EndOf(m, fd, o)].End?
  {
    hide Step, Accepts;
    var e := EndOf(m, fd, o);
    var c := Close(m, fd, o);
    RunAll(m, fd, e);
    var r := Run(m, fd, e).value;
    ScopesOk(m, fd, e, |r.ctrls| - 1);
    RunAll(m, fd, e + 1);
    StepShape(m, fd, r, fd.body[e], e);
  }

  /** A loop scope: before its opener the scopes outside it are as they are inside. */
  lemma ScopeAtLoop(m: Module, fd: FuncDecl, pos: nat, k: nat)
    requires Accepts(m, fd) && pos <= |fd.body| && Run(m, fd, pos).Some? && k < |Run(m, fd, pos).value.ctrls|
    requires Run(m, fd, pos).value.ctrls[k].kind.LoopBody?
    ensures
      var s := Run(m, fd, pos).value;
      var o := s.ctrls[k].opener;
      && 0 <= o < |fd.body| && Run(m, fd, o).Some? && fd.body[o].Loop?
      && Run(m, fd, o).value.ctrls == s.ctrls[..k]
      && (forall j :: 0 <= j < k ==> Run(m, fd, o).value.ops.segs[j] == s.ops.segs[j])
  {
    hide Step, Accepts;
    var s := Run(m, fd, pos).value;
    ScopesOk(m, fd, pos, k);
    var o := s.ctrls[k].opener;
    RunAll(m, fd, o);
    RunAll(m, fd, o + 1);
    var before, inside := Run(m, fd, o).value, Run(m, fd, o + 1).value;
    StepShape(m, fd, before, fd.body[o], o);
    assert before.ctrls == s.ctrls[..k];
    forall j | 0 <= j < k
      ensures before.ops.segs[j] == s.ops.segs[j]
    {
      assert inside.ops.segs[..|before.ctrls|][j] == before.ops.segs[j];
    }
  }

  lemma BasicShape(m: Module, fd: FuncDecl, pos: nat)
    requires pos < |fd.body| && IsBasic(fd.body[pos]) && Run(m, fd, pos).Some? && Run(m, fd, pos + 1).Some?
    ensures
      var s, r := Run(m, fd, pos).value, Run(m, fd, pos + 1).value;
      && r.ctrls == s.ctrls
      && forall k {:trigger r.ops.segs[k]} :: 0 <= k < |s.ctrls| - 1 ==> r.ops.segs[k] == s.ops.segs[k]
  {
    hide Step;
    StepShape(m, fd, Run(m, fd, pos).value, fd.body[pos], pos);
  }

  /** The instruction at `pos` does not touch the scopes, and control goes on after it. */
  lemma Fallthrough(m: Module, f: Frame, pos: nat, f': Frame, pending: seq<ValType>)
    requires FrameOk(m, f, pos, []) && f.code.ICons? && f.code.hd.Basic?
    requires f'.func == f.func && f'.code == f.code.tl
    requires f'.labels == SetTop(f, TopVals'(f')).labels
    requires HasTypes(f'.locals, LocalTypes(m.funcs[f.func]))
    requires Run(m, m.funcs[f.func], pos + 1).Some?
    requires
      var r := Run(m, m.funcs[f.func], pos + 1).value;
      |r.ops.segs| >= |f.labels| && SegOk(r.ops.segs[|f.labels| - 1], TopVals'(f'), pending)
    ensures FrameOk(m, f', pos + 1, pending)
  {
    hide Step, Accepts, SegOk, LabelsOk, SegsOk, Run, TopOk, ContinuesAt, HasTypes, LocalTypes, IsBasic, LabelOk;
    var fd := m.funcs[f.func];
    var s, r := Run(m, fd, pos).value, Run(m, fd, pos + 1).value;
    BasicContinues(m, fd, pos, f.code, Last(s).opener);
    BasicShape(m, fd, pos);
    LabelsKept(m, fd, s.ctrls, f.labels, r.ctrls, f'.labels);
    SegsKept(s.ops.segs, f.labels, |f.labels| - 1, r.ops.segs, f'.labels, |f.labels| - 1);
    TopIsTracked(r, f', pending);
  }

  lemma BasicContinues(m: Module, fd: FuncDecl, pos: nat, c: Instrs, o: int)
    requires ContinuesAt(m, fd, pos, c, o) && c.ICons? && c.hd.Basic?
    ensures pos + 1 < |fd.body| && IsBasic(fd.body[pos]) && ContinuesAt(m, fd, pos + 1, c.tl, o)
  {
    hide EndOf, Close, IsBasic;
    assert InstrAt(fd.body, pos, c.hd);
  }

  lemma TopIsTracked(s: Validator.State, f: Frame, pending: seq<ValType>)
    requires |f.labels| == |s.ctrls| == |s.ops.segs| > 0
    requires SegOk(s.ops.segs[|f.labels| - 1], TopVals(f), pending)
    ensures TopOk(s, f, pending)
  {
    hide SegOk;
  }

  function TopVals'(f: Frame): seq<Value> {
    if f.labels == [] then [] else TopVals(f)
  }

  /** At the `end` or `else` of a scope its operands are exactly its result. */
  lemma ScopeResult(m: Module, f: Frame, pos: nat)
    requires FrameOk(m, f, pos, []) && f.code == INil
    ensures HasTypes(TopVals(f), ResultTypes(Last(Run(m, m.funcs[f.func], pos).value).expected))
  {
    hide Run, Accepts, Step, LabelsOk, SegsOk, SegOk, HasTypes, PopType;
    var fd := m.funcs[f.func];
    var s := Run(m, fd, pos).value;
    if SegOk(s.ops.segs[|f.labels| - 1], TopVals(f), []) {
      CloseEmpties(m, fd, pos);
      OnlyResult(s.ops, Last(s).expected, TopVals(f));
    }
  }

  function WithoutResult(o: Operands, expected: Option<ValType>): Option<Operands> {
    if expected.Some? then PopType(o, expected.value) else Some(o)
  }

  lemma CloseEmpties(m: Module, fd: FuncDecl, pos: nat)
    requires Accepts(m, fd) && pos < |fd.body| && (fd.body[pos].End? || fd.body[pos].Else?)
    requires Run(m, fd, pos).Some? && Run(m, fd, pos).value.ctrls != []
    ensures
      var s := Run(m, fd, pos).value;
      var o := WithoutResult(s.ops, Last(s).expected);
      o.Some? && o.value.segs != [] && Top(o.value).vals == []
  {
    hide Run, Accepts;
    RunAll(m, fd, pos + 1);
    RunStep(m, fd, pos);
  }

  lemma OnlyResult(o: Operands, expected: Option<ValType>, vals: seq<Value>)
    requires o.segs != [] && SegOk(Top(o), vals, []) && WithoutResult(o, expected).Some?
    requires WithoutResult(o, expected).value.segs != [] && Top(WithoutResult(o, expected).value).vals == []
    ensures HasTypes(vals, ResultTypes(expected))
  {
    if expected.Some? {
      PopTypeOk(o, expected.value, vals);
    }
  }

  lemma RunStep(m: Module, fd: FuncDecl, pos: nat)
    requires pos < |fd.body| && Run(m, fd, pos).Some?
    ensures Run(m, fd, pos + 1) == Step(m, fd, Run(m, fd, pos).value, fd.body[pos], pos)
  {
    hide Step;
  }

  /** Leaving a label at its end: its result joins the operands outside. */
  lemma ExitLabel(m: Module, f: Frame, pos: nat)
    requires FrameOk(m, f, pos, []) && f.code == INil && |f.labels| > 1
    ensures
      var fd := m.funcs[f.func];
      var o := Last(Run(m, fd, pos).value).opener;
      var inner := f.labels[|f.labels| - 1];
      var outer := f.(labels := f.labels[..|f.labels| - 1], code := inner.rest);
      && -1 <= o < |fd.body|
      && FrameOk(m, SetTop(outer, TopVals(outer) + inner.vals), EndOf(m, fd, o) + 1, [])
  {
    hide Run, Accepts, SegOk, Step, EndOf, Close, ContinuesAt, LabelOk, TopOk;
    var fd := m.funcs[f.func];
    var s := Run(m, fd, pos).value;
    var k := |f.labels| - 1;
    LabelFacts(m, fd, s.ctrls, f.labels, k);
    ScopeResult(m, f, pos);
    ScopeAtEnd(m, fd, pos, k);
    var e := EndOf(m, fd, Last(s).opener);
    assert SegOk(s.ops.segs[k - 1], f.labels[k - 1].vals, []);
    EndMovesResult(m, fd, e, f.labels[k - 1].vals, f.labels[k].vals);
    var outer := f.(labels := f.labels[..k], code := f.labels[k].rest);
    var f' := SetTop(outer, TopVals(outer) + f.labels[k].vals);
    ExitedFrame(m, fd, s, Run(m, fd, e + 1).value, f, f');
    ContinuesWithin(m, fd, e + 1, f'.code, s.ctrls[k - 1].opener);
    TopIsStrong(Run(m, fd, e + 1).value, f');
  }

  lemma LabelFacts(m: Module, fd: FuncDecl, ctrls: seq<Ctrl>, labels: seq<Label>, k: nat)
    requires LabelsOk(m, fd, ctrls, labels) && k < |labels|
    ensures -1 <= ctrls[k].opener < |fd.body| && EndOf(m, fd, ctrls[k].opener) < |fd.body|
    ensures k > 0 ==> ContinuesAt(m, fd, EndOf(m, fd, ctrls[k].opener) + 1, labels[k].rest, ctrls[k - 1].opener)
    ensures labels[k].arity == LabelType(ctrls[k]) && labels[k].again.Some? == ctrls[k].kind.LoopBody?
    ensures k == 0 ==> ctrls[k] == Ctrl(-1, FuncBody, fd.ft.result)
    ensures labels[k].again.Some? ==>
              k > 0 && ctrls[k].opener >= 0 &&
                ContinuesAt(m, fd, ctrls[k].opener, labels[k].again.value, ctrls[k - 1].opener)
  {
    hide EndOf, ContinuesAt;
    assert LabelOk(m, fd, ctrls, labels, k);
  }

  lemma TopIsStrong(s: Validator.State, f: Frame)
    requires |f.labels| == |s.ctrls| == |s.ops.segs| > 0
    requires SegOk(s.ops.segs[|f.labels| - 1], TopVals(f), [])
    ensures TopOk(s, f, [])
  {
  }

  lemma ExitedFrame(m: Module, fd: FuncDecl, s: Validator.State, r: Validator.State, f: Frame, f': Frame)
    requires LabelsOk(m, fd, s.ctrls, f.labels) && |f.labels| > 1 && SegsOk(s.ops.segs, f.labels, |f.labels| - 1)
    requires |r.ctrls| == |r.ops.segs| == |f.labels| - 1
    requires forall j :: 0 <= j < |r.ctrls| ==> r.ctrls[j] == s.ctrls[j]
    requires forall j :: 0 <= j < |r.ctrls| - 1 ==> r.ops.segs[j] == s.ops.segs[j]
    requires |f'.labels| == |f.labels| - 1 &&
            f'.labels == f.labels[..|f'.labels|][|f'.labels| - 1 := f'.labels[|f'.labels| - 1]]
    requires SameLabel(f'.labels[|f'.labels| - 1], f.labels[|f'.labels| - 1])
    ensures LabelsOk(m, fd, r.ctrls, f'.labels)
    ensures SegsOk(r.ops.segs, f'.labels, |f'.labels| - 1)
  {
    hide SegOk, LabelOk;
    LabelsKept(m, fd, s.ctrls, f.labels, r.ctrls, f'.labels);
    SegsKept(s.ops.segs, f.labels, |f.labels| - 1, r.ops.segs, f'.labels, |f'.labels| - 1);
  }

  lemma ContinuesWithin(m: Module, fd: FuncDecl, i: nat, c: Instrs, o: int)
    requires ContinuesAt(m, fd, i, c, o)
    ensures i < |fd.body|
  {
  }

  lemma EndMovesResult(m: Module, fd: FuncDecl, e: nat, outer: seq<Value>, results: seq<Value>)
    requires Accepts(m, fd) && e < |fd.body| && fd.body[e].End? && Run(m, fd, e).Some?
    requires |Run(m, fd, e).value.ctrls| > 1
    requires SegOk(Run(m, fd, e).value.ops.segs[|Run(m, fd, e).value.ctrls| - 2], outer, [])
    requires HasTypes(results, ResultTypes(Last(Run(m, fd, e).value).expected))
    ensures
      var s := Run(m, fd, e).value;
      && Run(m, fd, e + 1).Some?
      && var r := Run(m, fd, e + 1).value;
      && r.ctrls == s.ctrls[..|s.ctrls| - 1]
      && (forall j :: 0 <= j < |r.ctrls| - 1 ==> r.ops.segs[j] == s.ops.segs[j])
      && SegOk(r.ops.segs[|r.ctrls| - 1], outer + results, [])
  {
    hide Run, Accepts, SegOk;
    RunAll(m, fd, e + 1);
    RunStep(m, fd, e);
    var s := Run(m, fd, e).value;
    var expected := Last(s).expected;
    StepShape(m, fd, s, fd.body[e], e);
    var o' := if expected.Some? then PopType(s.ops, expected.value).value else s.ops;
    var o := o'.(segs := o'.segs[..|o'.segs| - 1]);
    SegsBelow(s.ops, o');
    PushResultOk(o, expected, outer, results);
  }

  /** The position after the instruction that starts at `pos`, where the label it opens continues. */
  lemma AfterInstr(m: Module, fd: FuncDecl, pos: nat, c: Instrs, o: int)
    requires Accepts(m, fd) && ContinuesAt(m, fd, pos, c, o) && c.ICons?
    ensures InstrAt(fd.body, pos, c.hd) && pos + LenI(c.hd) < |fd.body| && LenI(c.hd) > 0
    ensures ContinuesAt(m, fd, pos + LenI(c.hd), c.tl, o)
    ensures !c.hd.Basic? ==> EndOf(m, fd, pos) == pos + LenI(c.hd) - 1
    ensures c.hd.IfI? ==> Close(m, fd, pos) == pos + 1 + Len(c.hd.thn)
    ensures CtrlsAt(m, fd, pos + LenI(c.hd)) == CtrlsAt(m, fd, pos)
  {
    hide Accepts, EndOf, Close, InstrAt, Run, Step, CtrlsAt, FindClose, IsClose, LenI;
    LenPositive(c.hd);
    BalancedInstr(m, fd, pos, c.hd, -2);
  }

  lemma LenPositive(hd: Instr)
    ensures LenI(hd) > 0
  {
  }

  /** A new innermost label at `pos'`, whose scope was opened by the instruction at `pos`; `outer`
      are the operands left below it. */
  lemma Entered(m: Module, f: Frame, pos: nat, outer: seq<Value>, l: Label, body: Instrs, pos': nat)
    requires FrameOk(m, f, pos, []) && f.code.ICons? && !f.code.hd.Basic?
    requires |f.labels| > 0 && l.rest == f.code.tl && l.vals == []
    requires
      var fd := m.funcs[f.func];
      && pos < pos' < |fd.body|
      && Run(m, fd, pos').Some?
      && ContinuesAt(m, fd, pos', body, pos)
      && var s, r := Run(m, fd, pos).value, Run(m, fd, pos').value;
      && |r.ctrls| == |s.ctrls| + 1
      && r.ctrls[..|s.ctrls|] == s.ctrls
      && r.ctrls[|s.ctrls|].opener == pos
      && l.arity == LabelType(r.ctrls[|s.ctrls|])
      && (l.again.Some? <==> r.ctrls[|s.ctrls|].kind.LoopBody?)
      && (l.again.Some? ==> l.again == Some(f.code) && f.code.hd.LoopI?)
      && (forall j :: 0 <= j < |s.ctrls| - 1 ==> r.ops.segs[j] == s.ops.segs[j])
      && SegOk(r.ops.segs[|s.ctrls| - 1], outer, [])
      && (SegOk(r.ops.segs[|s.ctrls|], [], []) || (body == INil && r.ctrls[|s.ctrls|].expected == None))
    ensures FrameOk(m, Frame(f.func, f.locals, SetTop(f, outer).labels + [l], body), pos', [])
  {
    hide Run, Accepts, SegOk, Step, EndOf, Close, ContinuesAt, LabelsOk, SegsOk, TopOk, HasTypes, LocalTypes, LabelOk;
    var fd := m.funcs[f.func];
    var s, r := Run(m, fd, pos).value, Run(m, fd, pos').value;
    var f' := Frame(f.func, f.locals, SetTop(f, outer).labels + [l], body);
    EnteredLabels(m, f, pos, outer, l, r.ctrls[|f.labels|]);
    assert r.ctrls == s.ctrls + [r.ctrls[|f.labels|]];
    EnteredSegs(s.ops.segs, f.labels, r.ops.segs, f'.labels);
    EnteredTop(r, f');
  }

  /** The labels around the instruction stay, and its own is added. */
  lemma EnteredLabels(m: Module, f: Frame, pos: nat, outer: seq<Value>, l: Label, c: Ctrl)
    requires FrameOk(m, f, pos, []) && f.code.ICons? && !f.code.hd.Basic?
    requires |f.labels| > 0 && l.rest == f.code.tl
    requires c.opener == pos && l.arity == LabelType(c) && (l.again.Some? <==> c.kind.LoopBody?)
    requires l.again.Some? ==> l.again == Some(f.code) && f.code.hd.LoopI?
    ensures
      var fd := m.funcs[f.func];
      LabelsOk(m, fd, Run(m, fd, pos).value.ctrls + [c], SetTop(f, outer).labels + [l])
  {
    hide Run, Accepts, EndOf, Close, ContinuesAt, LabelOk, TopOk, SegsOk, HasTypes, LocalTypes, LenI;
    var fd := m.funcs[f.func];
    var ctrls := Run(m, fd, pos).value.ctrls;
    var labels := SetTop(f, outer).labels;
    AfterInstr(m, fd, pos, f.code, ctrls[|ctrls| - 1].opener);
    LabelsKept(m, fd, ctrls, f.labels, ctrls, labels);
    NewLabel(m, fd, ctrls, f, labels, c, l, pos);
    LabelsGrow(m, fd, ctrls, labels, c, l);
  }

  lemma NewLabel(m: Module, fd: FuncDecl, ctrls: seq<Ctrl>, f: Frame, labels: seq<Label>, c: Ctrl, l: Label, pos: nat)
    requires |labels| == |ctrls| > 0 && f.code.ICons? && !f.code.hd.Basic?
    requires c.opener == pos < |fd.body| && l.rest == f.code.tl && l.arity == LabelType(c)
    requires EndOf(m, fd, pos) == pos + LenI(f.code.hd) - 1 && EndOf(m, fd, pos) < |fd.body|
    requires ContinuesAt(m, fd, pos + LenI(f.code.hd), f.code.tl, ctrls[|ctrls| - 1].opener)
    requires ContinuesAt(m, fd, pos, f.code, ctrls[|ctrls| - 1].opener)
    requires (l.again.Some? <==> c.kind.LoopBody?) && (l.again.Some? ==> l.again == Some(f.code) && f.code.hd.LoopI?)
    ensures LabelOk(m, fd, ctrls + [c], labels + [l], |labels|)
  {
    hide ContinuesAt, EndOf;
  }

  lemma EnteredSegs(segs: seq<Seg>, labels: seq<Label>, segs': seq<Seg>, labels': seq<Label>)
    requires |labels'| == |labels| + 1 > 1 && |segs'| >= |labels| && SegsOk(segs, labels, |labels| - 1)
    requires forall j :: 0 <= j < |labels| - 1 ==> segs'[j] == segs[j] && labels'[j] == labels[j]
    requires SegOk(segs'[|labels| - 1], labels'[|labels| - 1].vals, [])
    ensures SegsOk(segs', labels', |labels|)
  {
    hide SegOk;
  }

  lemma EnteredTop(r: Validator.State, f: Frame)
    requires |f.labels| == |r.ctrls| == |r.ops.segs| > 0 && TopVals(f) == []
    requires SegOk(r.ops.segs[|f.labels| - 1], [], []) || (f.code == INil && Last(r).expected == None)
    ensures TopOk(r, f, [])
  {
  }

  /** A `block` or `loop` opens one scope and leaves the others alone. */
  lemma OpenedScope(m: Module, fd: FuncDecl, pos: nat)
    requires Accepts(m, fd) && pos < |fd.body| && Opens(fd.body[pos]) && !fd.body[pos].If?
    ensures Run(m, fd, pos).Some? && Run(m, fd, pos + 1).Some?
    ensures
      var s, r := Run(m, fd, pos).value, Run(m, fd, pos + 1).value;
      && |s.ctrls| == |s.ops.segs| && |r.ops.segs| == |s.ctrls| + 1
      && r.ctrls == s.ctrls + [Ctrl(pos, KindOf(fd.body[pos]), fd.body[pos].bt)]
      && (forall j :: 0 <= j < |s.ctrls| ==> r.ops.segs[j] == s.ops.segs[j])
      && r.ops.segs[|s.ctrls|] == Seg(false, [])
  {
    hide Run, Accepts, Step;
    RunAll(m, fd, pos);
    RunAll(m, fd, pos + 1);
    RunStep(m, fd, pos);
    var s, r := Run(m, fd, pos).value, Run(m, fd, pos + 1).value;
    StepShape(m, fd, s, fd.body[pos], pos);
    assert forall j :: 0 <= j < |s.ctrls| ==> r.ops.segs[..|s.ctrls|][j] == s.ops.segs[j];
  }

  /** Entering a `block` or a `loop`. */
  lemma EnterBlock(m: Module, f: Frame, pos: nat)
    requires FrameOk(m, f, pos, []) && f.code.ICons? && (f.code.hd.BlockI? || f.code.hd.LoopI?)
    ensures
      var loop := f.code.hd.LoopI?;
      var l := Label(if loop then None else f.code.hd.bt, if loop then Some(f.code) else None, f.code.tl, []);
      FrameOk(m, Frame(f.func, f.locals, f.labels + [l], f.code.hd.body), pos + 1, [])
  {
    hide Run, Accepts, EndOf, Close, LabelsOk, SegsOk, HasTypes, LenI, CodeAt, Step, FindClose, CtrlsAt;
    var fd := m.funcs[f.func];
    var s := Run(m, fd, pos).value;
    AfterInstr(m, fd, pos, f.code, Last(s).opener);
    OpenedScope(m, fd, pos);
    var loop := f.code.hd.LoopI?;
    var l := Label(if loop then None else f.code.hd.bt, if loop then Some(f.code) else None, f.code.tl, []);
    assert TopStrong(s, f) by { assert f.code != INil; }
    BodyContinues(m, fd, pos, f.code.hd);
    assert SetTop(f, TopVals(f)).labels == f.labels;
    Entered(m, f, pos, TopVals(f), l, f.code.hd.body, pos + 1);
  }

  predicate TopStrong(s: Validator.State, f: Frame) {
    |f.labels| == |s.ctrls| == |s.ops.segs| > 0 && SegOk(s.ops.segs[|f.labels| - 1], TopVals(f), [])
  }

  /** Where the parts of a structured instruction continue. */
  lemma BodyContinues(m: Module, fd: FuncDecl, pos: nat, hd: Instr)
    requires Accepts(m, fd) && InstrAt(fd.body, pos, hd) && !hd.Basic? && pos + LenI(hd) < |fd.body|
    requires EndOf(m, fd, pos) == pos + LenI(hd) - 1
    requires hd.IfI? ==> Close(m, fd, pos) == pos + 1 + Len(hd.thn)
    ensures !hd.IfI? ==> ContinuesAt(m, fd, pos + 1, hd.body, pos)
    ensures hd.IfI? ==> ContinuesAt(m, fd, pos + 1, hd.thn, pos)
    ensures hd.IfI? && hd.hasElse ==> ContinuesAt(m, fd, pos + 2 + Len(hd.thn), hd.els, pos)
    ensures hd.IfI? && !hd.hasElse ==> ContinuesAt(m, fd, pos + 1 + Len(hd.thn), hd.els, pos)
  {
    hide Accepts, EndOf, Close, Run, Step;
  }

  function IfLabel(f: Frame): Label
    requires f.code.ICons? && f.code.hd.IfI?
  {
    Label(f.code.hd.bt, None, f.code.tl, [])
  }

  /** Where an `if` goes on: in its first part, or past its `else`, or at its `end`. */
  function IfPos(hd: Instr, pos: nat, taken: bool): nat
    requires hd.IfI?
  {
    if taken then pos + 1 else if hd.hasElse then pos + 2 + Len(hd.thn) else pos + 1 + Len(hd.thn)
  }

  lemma IfCondition(m: Module, f: Frame, pos: nat)
    requires FrameOk(m, f, pos, []) && f.code.ICons? && f.code.hd.IfI?
    ensures
      var fd := m.funcs[f.func];
      var s := Run(m, fd, pos).value;
      var vals := TopVals(f);
      var k := |f.labels|;
      && vals != [] && vals[|vals| - 1].VI32?
      && Run(m, fd, pos + 1).Some?
      && var r := Run(m, fd, pos + 1).value;
      && r.ctrls == s.ctrls + [Ctrl(pos, ThenBody, f.code.hd.bt)]
      && (forall j :: 0 <= j < k - 1 ==> r.ops.segs[j] == s.ops.segs[j])
      && SegOk(r.ops.segs[k - 1], vals[..|vals| - 1], [])
      && r.ops.segs[k] == Seg(false, [])
  {
    hide Run, Accepts, EndOf, Close, LabelOk, PopType;
    var fd := m.funcs[f.func];
    var s := Run(m, fd, pos).value;
    assert InstrAt(fd.body, pos, f.code.hd);
    RunAll(m, fd, pos + 1);
    RunStep(m, fd, pos);
    assert TopStrong(s, f) by { assert f.code != INil; }
    PopTypeOk(s.ops, I32, TopVals(f));
    SegsBelow(s.ops, PopType(s.ops, I32).value);
  }

  /** Inside an `if`, at its second part or its end, the scopes outside are as they were. */
  lemma IfScopes(m: Module, fd: FuncDecl, pos: nat, hd: Instr)
    requires Accepts(m, fd) && InstrAt(fd.body, pos, hd) && hd.IfI? && pos + LenI(hd) < |fd.body|
    requires Run(m, fd, pos + 1).Some? && Run(m, fd, pos).Some?
    requires Run(m, fd, pos + 1).value.ctrls == Run(m, fd, pos).value.ctrls + [Ctrl(pos, ThenBody, hd.bt)]
    ensures
      var p := IfPos(hd, pos, false);
      && p < |fd.body| && Run(m, fd, p).Some?
      && var s, r := Run(m, fd, pos + 1).value, Run(m, fd, p).value;
      var k := |s.ctrls| - 1;
      && |r.ctrls| == |s.ctrls|
      && r.ctrls[..k] == s.ctrls[..k]
      && SameScope(r.ctrls[k], s.ctrls[k]) && !r.ctrls[k].kind.LoopBody?
      && (forall j :: 0 <= j < k ==> r.ops.segs[j] == s.ops.segs[j])
      && (hd.hasElse ==> r.ops.segs[k] == Seg(false, []))
      && (!hd.hasElse ==> hd.bt == None)
  {
    hide Accepts, EndOf, Close, FindClose, Run, CtrlsAt, ScopeOk, InstrAt, CodeAt, Len;
    var e1 := pos + 1 + Len(hd.thn);
    var p := IfPos(hd, pos, false);
    IfTokens(fd.body, pos, hd);
    Balanced(m, fd, pos + 1, hd.thn, -2);
    TokenStep(m, fd, e1, -2);
    RunAll(m, fd, e1);
    RunAll(m, fd, p);
    var s := Run(m, fd, pos + 1).value;
    CtrlsOf(m, fd, pos + 1);
    CtrlsOf(m, fd, e1);
    CtrlsOf(m, fd, p);
    SegsAtOpener(m, fd, p, |s.ctrls| - 1);
    IfCloses(m, fd, e1);
  }

  lemma IfTokens(body: seq<Token>, pos: nat, hd: Instr)
    requires InstrAt(body, pos, hd) && hd.IfI? && pos + LenI(hd) < |body|
    ensures
      var e1 := pos + 1 + Len(hd.thn);
      && e1 < |body| && CodeAt(body, pos + 1, hd.thn)
      && IfPos(hd, pos, false) == (if hd.hasElse then e1 + 1 else e1) < |body|
      && (if hd.hasElse then body[e1].Else? else body[e1].End?)
  {
  }

  lemma CtrlsOf(m: Module, fd: FuncDecl, i: nat)
    requires i <= |fd.body| && Run(m, fd, i).Some?
    ensures CtrlsAt(m, fd, i) == Run(m, fd, i).value.ctrls
  {
    hide Run;
  }

  lemma SegsAtOpener(m: Module, fd: FuncDecl, n: nat, k: nat)
    requires n <= |fd.body| && Run(m, fd, n).Some? && k < |Run(m, fd, n).value.ctrls|
    ensures
      var s := Run(m, fd, n).value;
      var o := s.ctrls[k].opener;
      && -1 <= o < n && Run(m, fd, o + 1).Some?
      && var r := Run(m, fd, o + 1).value;
      && |r.ctrls| == |r.ops.segs| == k + 1
      && forall j {:trigger r.ops.segs[j]} {:trigger s.ops.segs[j]} :: 0 <= j < k ==> r.ops.segs[j] == s.ops.segs[j]
  {
    hide Run, Close, EndOf, FindClose;
    ScopesOk(m, fd, n, k);
  }

  /** What an `else` leaves in its scope, and what the `end` of an `if` without `else` demands. */
  lemma IfCloses(m: Module, fd: FuncDecl, e: nat)
    requires Accepts(m, fd) && e < |fd.body| && Run(m, fd, e).Some? && Run(m, fd, e).value.ctrls != []
    ensures fd.body[e].Else? ==>
              Run(m, fd, e + 1).Some? && Run(m, fd, e + 1).value.ops.segs != [] &&
                Top(Run(m, fd, e + 1).value.ops) == Seg(false, [])
    ensures fd.body[e].End? && Last(Run(m, fd, e).value).kind.ThenBody? ==> Last(Run(m, fd, e).value).expected == None
  {
    hide Accepts, Run;
    RunAll(m, fd, e + 1);
    RunStep(m, fd, e);
  }

  /** Entering an `if`, whichever way its condition went. */
  lemma EnterIf(m: Module, f: Frame, pos: nat, taken: bool)
    requires FrameOk(m, f, pos, []) && f.code.ICons? && f.code.hd.IfI?
    ensures
      var vals := TopVals(f);
      var hd := f.code.hd;
      && vals != [] && vals[|vals| - 1].VI32?
      && var labels := SetTop(f, vals[..|vals| - 1]).labels + [IfLabel(f)];
      FrameOk(m, Frame(f.func, f.locals, labels, if taken then hd.thn else hd.els), IfPos(hd, pos, taken), [])
  {
    hide Run, Accepts, Step, EndOf, Close, LabelOk, SegOk, LabelsOk, SegsOk, ContinuesAt, InstrAt;
    var fd := m.funcs[f.func];
    var s := Run(m, fd, pos).value;
    var hd := f.code.hd;
    var vals := TopVals(f);
    IfCondition(m, f, pos);
    AfterInstr(m, fd, pos, f.code, Last(s).opener);
    BodyContinues(m, fd, pos, hd);
    EmptySeg();
    var p := IfPos(hd, pos, taken);
    if !taken {
      IfScopes(m, fd, pos, hd);
      NoElse(m, fd, pos, hd);
    }
    ContinuesWithin(m, fd, p, if taken then hd.thn else hd.els, pos);
    Entered(m, f, pos, vals[..|vals| - 1], IfLabel(f), if taken then hd.thn else hd.els, p);
  }

  lemma EmptySeg()
    ensures SegOk(Seg(false, []), [], [])
  {
  }

  lemma NoElse(m: Module, fd: FuncDecl, pos: nat, hd: Instr)
    requires InstrAt(fd.body, pos, hd) && hd.IfI?
    ensures !hd.hasElse ==> hd.els == INil
  {
  }
}

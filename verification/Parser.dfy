/** The single pass over a function body: `parse_function_body_code` with its control stack,
    its operand tracker and its code writer, all updated in place. */
module Parser {
  import opened Wasm
  import opened Validator
  import opened Scopes
  import opened Bytecode
  import opened Relocation
  import opened Patched
  import opened Tracker
  import opened Writer
  import Locals

  lemma ShapeGrows(m: Module, fd: FuncDecl, base: nat, n: nat, code: seq<Opcode>, more: seq<Opcode>)
    requires WellSized(m) && n < |fd.body| && Run(m, fd, n + 1).Some? && Run(m, fd, n).Some? && Inside(m, fd, n)
    requires SameShape(code, Code(m, fd, base, n)) && SameShape(more, Emit(m, fd, base, n))
    ensures SameShape(code + more, Code(m, fd, base, n + 1))
  {
    hide Step, Emit, Erase;
    assert Code(m, fd, base, n + 1) == Code(m, fd, base, n) + Emit(m, fd, base, n);
  }

  lemma ShapeKept(code: seq<Opcode>, code': seq<Opcode>, other: seq<Opcode>)
    requires SameShape(code', code) && SameShape(code, other)
    ensures SameShape(code', other)
  {
  }

  /** There is room for instruction `n`, and for one more opcode after it unless it is the last. */
  lemma Room(m: Module, fd: FuncDecl, n: nat)
    requires WellSized(m) && SizesOk(fd) && n < |fd.body|
    ensures Addr(m, fd, n) + Width(m, fd.body[n]) <= Consumed(fd, |fd.body|)
    ensures n + 1 < |fd.body| ==> Addr(m, fd, n) + Width(m, fd.body[n]) < Consumed(fd, |fd.body|)
  {
    CodeFits(m, fd, 0, n + 1);
    ConsumedGrows(fd, n + 1, |fd.body|);
  }

  lemma {:induction false} ConsumedGrows(fd: FuncDecl, i: nat, n: nat)
    requires SizesOk(fd) && i <= n <= |fd.body|
    ensures Consumed(fd, i) + (n - i) <= Consumed(fd, n)
    decreases n - i
  {
    if i < n {
      ConsumedGrows(fd, i, n - 1);
    }
  }

  /** The operands, the code and the control stack after `n` instructions. */
  ghost predicate Progress(m: Module, fd: FuncDecl, base: nat, n: nat, view: Operands, code: seq<Opcode>,
      pcs: seq<PcElem>)
  {
    && WellSized(m) && SizesOk(fd)
    && n <= |fd.body|
    && Run(m, fd, n).Some?
    && view == Run(m, fd, n).value.ops
    && |pcs| == |Run(m, fd, n).value.ctrls|
    && |code| == Addr(m, fd, n)
    && RelocOk(m, fd, base, n, 0, code, pcs)
    && SameShape(code, Code(m, fd, base, n))
  }

  function StraightOp(t: Token): Opcode
    requires IsStraight(t)
  {
    match t
    case Plain(op) => OPlain(op)
    case Unreachable => OUnreachable
    case Drop => ODrop
    case Select => OSelect
    case LocalGet(x) => OLocalGet(x)
    case LocalSet(x) => OLocalSet(x)
    case LocalTee(x) => OLocalTee(x)
    case Call(f) => OCall(f)
  }

  lemma StraightEmit(m: Module, fd: FuncDecl, base: nat, n: nat)
    requires WellSized(m) && Inside(m, fd, n) && IsStraight(fd.body[n])
    ensures Emit(m, fd, base, n) == [StraightOp(fd.body[n])]
    ensures Width(m, fd.body[n]) == 1 && NumSlots(fd.body[n]) == 0
  {
    hide Step, Run, JumpInfo, TargetPc;
  }

  lemma StraightRun(m: Module, fd: FuncDecl, n: nat)
    requires n < |fd.body| && Run(m, fd, n).Some? && Run(m, fd, n).value.ctrls != [] && IsStraight(fd.body[n])
    ensures Inside(m, fd, n)
    ensures
      var s := Run(m, fd, n).value;
      var o := StraightStep(m, fd, s.ops, fd.body[n]);
      Run(m, fd, n + 1) == if o.Some? then Some(s.(ops := o.value)) else None
  {
    hide StraightStep;
  }

  lemma OpenRun(m: Module, fd: FuncDecl, n: nat)
    requires n < |fd.body| && Run(m, fd, n).Some? && Run(m, fd, n).value.ctrls != [] && Opens(fd.body[n])
    ensures Inside(m, fd, n)
    ensures
      var s := Run(m, fd, n).value;
      var t := fd.body[n];
      var o := if t.If? then PopType(s.ops, I32) else Some(s.ops);
      && Run(m, fd, n + 1) == (if o.Some? then Some(Open(s.(ops := o.value), n, KindOf(t), t.bt)) else None)
      && (o.Some? ==> |o.value.segs| == |s.ctrls| && EntryDepth(PushScope(o.value), |s.ctrls|) == DepthOf(o.value))
  {
    hide Depth;
    var s := Run(m, fd, n).value;
    var t := fd.body[n];
    var o := if t.If? then PopType(s.ops, I32) else Some(s.ops);
    if o.Some? {
      assert PushScope(o.value).segs[..|s.ctrls|] == o.value.segs;
    }
  }

  lemma ElseRun(m: Module, fd: FuncDecl, n: nat)
    requires n < |fd.body| && Run(m, fd, n).Some? && Run(m, fd, n).value.ctrls != [] && fd.body[n].Else?
    ensures Inside(m, fd, n)
    ensures Run(m, fd, n + 1) == ElseStep(Run(m, fd, n).value)
  {
    hide ElseStep;
  }

  lemma EndRun(m: Module, fd: FuncDecl, n: nat)
    requires n < |fd.body| && Run(m, fd, n).Some? && Run(m, fd, n).value.ctrls != [] && fd.body[n].End?
    ensures Inside(m, fd, n)
    ensures Run(m, fd, n + 1) == EndStep(Run(m, fd, n).value)
  {
    hide EndStep;
  }

  lemma NoEmit(m: Module, fd: FuncDecl, base: nat, n: nat)
    requires WellSized(m) && Inside(m, fd, n) && Width(m, fd.body[n]) == 0
    ensures Emit(m, fd, base, n) == []
  {
  }

  lemma OpenEmit(m: Module, fd: FuncDecl, base: nat, n: nat)
    requires WellSized(m) && Inside(m, fd, n) && Opens(fd.body[n])
    ensures SameShape(if fd.body[n].If? then [OIf(0)] else [], Emit(m, fd, base, n))
  {
    hide Step, Run, JumpInfo, TargetPc;
  }

  lemma ElseEmit(m: Module, fd: FuncDecl, base: nat, n: nat)
    requires WellSized(m) && Inside(m, fd, n) && fd.body[n].Else?
    ensures SameShape([OElse(0)], Emit(m, fd, base, n))
  {
    hide Step, Run, JumpInfo, TargetPc;
  }

  /** Leaving the `then` scope empty-handed and entering a fresh one resets the innermost scope. */
  lemma ResetScope(o: Operands)
    requires o.segs != [] && Top(o).vals == []
    ensures PopScope(o, None).Some?
    ensures PushScope(PopScope(o, None).value) == WithTop(o, Seg(false, []))
  {
    assert o.segs[..|o.segs| - 1] + [Seg(false, [])] == o.segs[|o.segs| - 1 := Seg(false, [])];
  }

  /** What an element of the control stack holds about the scope it stands for. */
  lemma LastElem(m: Module, fd: FuncDecl, base: nat, n: nat, code: seq<Opcode>, pcs: seq<PcElem>)
    requires RelocOk(m, fd, base, n, 0, code, pcs) && pcs != []
    ensures
      var c, e := Last(Run(m, fd, n).value), pcs[|pcs| - 1];
      && e.isIf == c.kind.ThenBody? && e.expected == c.expected
      && (e.isIf ==>
        e.reloc.Pending? && e.reloc.slots != [] && e.reloc.slots[0] == OpSlot(Addr(m, fd, c.opener)) &&
          0 <= c.opener < n)
      && (e.isIf ==> Writable(code, e.reloc.slots[0]))
  {
    hide Step, Resolved, TargetPc;
    var s := Run(m, fd, n).value;
    var last := |pcs| - 1;
    assert ElemOk(m, fd, n, 0, s.ops, s.ctrls[last], pcs[last], last);
    ScopesOk(m, fd, n, last);
    if pcs[last].isIf {
      var o := s.ctrls[last].opener;
      assert Emitted(fd, n, 0, o, 0);
      assert SlotOk(m, fd, base, n, s.ctrls, code, pcs, o, 0);
    }
  }

  lemma PatchKeepsShape(code: seq<Opcode>, a: SlotAddr, pc: nat)
    ensures SameShape(Patch(code, a, pc), code)
  {
    PatchEffect(code, a, pc, a);
  }

  lemma SameShapeRefl(code: seq<Opcode>)
    ensures SameShape(code, code)
  {
  }

  lemma StraightStart(m: Module, fd: FuncDecl, base: nat, n: nat, view: Operands, code: seq<Opcode>, pcs: seq<PcElem>)
    requires Progress(m, fd, base, n, view, code, pcs) && n < |fd.body| && pcs != [] && IsStraight(fd.body[n])
    ensures view.segs != [] && |code| < Consumed(fd, |fd.body|)
    ensures StraightStep(m, fd, view, fd.body[n]).Some? <==> Run(m, fd, n + 1).Some?
    ensures StraightStep(m, fd, view, fd.body[n]).Some? ==>
              Progress(m, fd, base, n + 1, StraightStep(m, fd, view, fd.body[n]).value,
                code + [StraightOp(fd.body[n])], pcs)
  {
    hide Step, StraightStep, Emit, SameShape, RelocOk;
    var op := StraightOp(fd.body[n]);
    Room(m, fd, n);
    StraightRun(m, fd, n);
    StraightEmit(m, fd, base, n);
    if Run(m, fd, n + 1).Some? {
      Advance(m, fd, base, n, code, [op], pcs);
      SameShapeRefl([op]);
      ShapeGrows(m, fd, base, n, code, [op]);
    }
  }

  lemma OpenStart(m: Module, fd: FuncDecl, base: nat, n: nat, view: Operands, code: seq<Opcode>, pcs: seq<PcElem>)
    requires Progress(m, fd, base, n, view, code, pcs) && n < |fd.body| && pcs != [] && Opens(fd.body[n])
    ensures view.segs != [] && |code| < Consumed(fd, |fd.body|)
    ensures |code| == Addr(m, fd, n)
    ensures
      var t := fd.body[n];
      var o := if t.If? then PopType(view, I32) else Some(view);
      && (o.Some? <==> Run(m, fd, n + 1).Some?)
      && (o.Some? ==>
            Progress(m, fd, base, n + 1, PushScope(o.value), code + (if t.If? then [OIf(0)] else []),
                     pcs + [Opened(m, fd, n, DepthOf(o.value))]))
  {
    hide Step, Emit, SameShape, RelocOk, Opened;
    var t := fd.body[n];
    var more := if t.If? then [OIf(0)] else [];
    Room(m, fd, n);
    WidthBelowBytes(m, fd, n);
    OpenRun(m, fd, n);
    OpenEmit(m, fd, base, n);
    if Run(m, fd, n + 1).Some? {
      OpenScope(m, fd, base, n, code, more, pcs);
      ShapeGrows(m, fd, base, n, code, more);
    }
  }

  lemma WidthBelowBytes(m: Module, fd: FuncDecl, n: nat)
    requires WellSized(m) && SizesOk(fd) && n < |fd.body|
    ensures Addr(m, fd, n) < Consumed(fd, |fd.body|)
  {
    CodeFits(m, fd, 0, n);
    ConsumedGrows(fd, n, |fd.body|);
  }

  lemma ElseStart(m: Module, fd: FuncDecl, base: nat, n: nat, view: Operands, code: seq<Opcode>, pcs: seq<PcElem>)
    requires Progress(m, fd, base, n, view, code, pcs) && n < |fd.body| && pcs != [] && fd.body[n].Else?
    ensures view.segs != [] && |code| < Consumed(fd, |fd.body|)
    ensures
      var e := pcs[|pcs| - 1];
      var o := if e.expected.Some? then PopType(view, e.expected.value) else Some(view);
      && (e.isIf && o.Some? && PopScope(o.value, None).Some? <==> Run(m, fd, n + 1).Some?)
      && (e.isIf ==> e.reloc.Pending? && e.reloc.slots != [] && Writable(code, e.reloc.slots[0]))
      && (e.isIf && o.Some? && PopScope(o.value, None).Some? ==>
            Progress(m, fd, base, n + 1, PushScope(PopScope(o.value, None).value),
                     Patch(code + [OElse(0)], e.reloc.slots[0], base + |code| + 1),
                     pcs[|pcs| - 1 := e.(isIf := false, reloc := Pending(e.reloc.slots[0 := OpSlot(|code|)]))]))
  {
    hide Step, Emit, SameShape, RelocOk, Patch;
    Room(m, fd, n);
    ElseRun(m, fd, n);
    ElseEmit(m, fd, base, n);
    LastElem(m, fd, base, n, code, pcs);
    var e := pcs[|pcs| - 1];
    var o := if e.expected.Some? then PopType(view, e.expected.value) else Some(view);
    if e.isIf && o.Some? && Top(o.value).vals == [] {
      ResetScope(o.value);
      ElseScope(m, fd, base, n, code, OElse(0), pcs);
      PatchKeepsShape(code + [OElse(0)], e.reloc.slots[0], base + |code| + 1);
      ShapeGrows(m, fd, base, n, code, [OElse(0)]);
      ShapeKept(code + [OElse(0)], Patch(code + [OElse(0)], e.reloc.slots[0], base + |code| + 1),
        Code(m, fd, base, n + 1));
    }
  }

  lemma EndStart(m: Module, fd: FuncDecl, base: nat, n: nat, view: Operands, code: seq<Opcode>, pcs: seq<PcElem>)
    requires Progress(m, fd, base, n, view, code, pcs) && n < |fd.body| && pcs != [] && fd.body[n].End?
    ensures view.segs != []
    ensures
      var e := pcs[|pcs| - 1];
      var o := if e.isIf && e.expected.Some? then None else PopScope(view, e.expected);
      && (o.Some? <==> Run(m, fd, n + 1).Some?)
      && (o.Some? ==>
            Progress(m, fd, base, n + 1, o.value,
                     if e.reloc.Pending? then PatchAll(code, e.reloc.slots, base + |code|) else code, pcs[..|pcs| - 1]))
  {
    hide Step, Emit, SameShape, RelocOk, PatchAll;
    EndRun(m, fd, n);
    NoEmit(m, fd, base, n);
    LastElem(m, fd, base, n, code, pcs);
    var e := pcs[|pcs| - 1];
    var code' := if e.reloc.Pending? then PatchAll(code, e.reloc.slots, base + |code|) else code;
    if Run(m, fd, n + 1).Some? {
      EndScope(m, fd, base, n, code, pcs);
      SameShapeRefl([]);
      ShapeKept(code, code', Code(m, fd, base, n));
      ShapeGrows(m, fd, base, n, code', []);
      assert code' + [] == code';
    }
  }

  lemma DepthAboveEntry(o: Operands, k: nat)
    requires k <= |o.segs|
    ensures EntryDepth(o, k) <= DepthOf(o)
    decreases |o.segs|
  {
    if k < |o.segs| {
      var init := o.(segs := o.segs[..|o.segs| - 1]);
      assert init.segs[..k] == o.segs[..k];
      DepthAboveEntry(init, k);
    } else {
      assert o.segs[..k] == o.segs;
    }
  }

  /** The control stack agrees with the scopes on entry depths and label types. */
  predicate LabelsAgree(s: State, pcs: seq<PcElem>) {
    |s.ctrls| == |s.ops.segs| == |pcs| &&
    forall k {:trigger pcs[k]} :: 0 <= k < |pcs| ==>
      pcs[k].operandDepth == EntryDepth(s.ops, k) && pcs[k].labelResult == LabelType(s.ctrls[k])
  }

  lemma LabelsAgreeBelow(s: State, r: Operands, pcs: seq<PcElem>)
    requires LabelsAgree(s, pcs) && SameBelow(s.ops, r)
    ensures LabelsAgree(s.(ops := r), pcs)
  {
    SegsBelow(s.ops, r);
    forall k {:trigger pcs[k]} | 0 <= k < |pcs|
      ensures pcs[k].operandDepth == EntryDepth(r, k)
    {
      EntryDepthKept(s.ops, r, k);
    }
  }

  /** The check of one label as the parser makes it, from its control stack. */
  function CheckLabel(pcs: seq<PcElem>, o: Operands, l: nat): (r: Option<Operands>)
    ensures r.Some? ==> l < |pcs| && SameBelow(o, r.value)
  {
    if l >= |pcs| then None
    else
      var e := pcs[|pcs| - 1 - l];
      if DepthOf(o) - e.operandDepth >= RESULT_FLAG then None else TopType(o, e.labelResult)
  }

  lemma CheckLabelIs(s: State, pcs: seq<PcElem>, l: nat)
    requires LabelsAgree(s, pcs)
    ensures CheckTarget(s, l).Some? <==> CheckLabel(pcs, s.ops, l).Some?
    ensures CheckTarget(s, l).Some? ==>
              CheckTarget(s, l).value == s.(ops := CheckLabel(pcs, s.ops, l).value) &&
              DepthChange(s, l) == DepthOf(s.ops) - pcs[|pcs| - 1 - l].operandDepth >= 0
  {
    if l < |pcs| {
      DepthAboveEntry(s.ops, |pcs| - 1 - l);
      assert pcs[|pcs| - 1 - l].labelResult == LabelType(s.ctrls[|pcs| - 1 - l]);
    }
  }

  lemma ProgressLabels(m: Module, fd: FuncDecl, base: nat, n: nat, c: nat, code: seq<Opcode>, pcs: seq<PcElem>)
    requires RelocOk(m, fd, base, n, c, code, pcs)
    ensures LabelsAgree(Run(m, fd, n).value, pcs)
  {
    hide Run, AllSlotsOk;
    var s := Run(m, fd, n).value;
    forall k {:trigger pcs[k]} | 0 <= k < |pcs|
      ensures pcs[k].operandDepth == EntryDepth(s.ops, k) && pcs[k].labelResult == LabelType(s.ctrls[k])
    {
      assert ElemOk(m, fd, n, c, s.ops, s.ctrls[k], pcs[k], k);
    }
  }

  lemma BranchRun(m: Module, fd: FuncDecl, n: nat)
    requires n < |fd.body| && Run(m, fd, n).Some? && Run(m, fd, n).value.ctrls != [] && IsBranch(fd.body[n])
    ensures Inside(m, fd, n)
    ensures Run(m, fd, n + 1) == BranchStep(Run(m, fd, n).value, fd.body[n])
  {
    hide BranchStep;
  }

  function BranchOp(t: Token, data: nat): Opcode {
    if t.BrIf? then OBrIf(data, 0) else OBr(data, 0)
  }

  /** One target of a branch whose opcode is in place. */
  lemma OneTarget(m: Module, fd: FuncDecl, base: nat, n: nat, c: nat, s: State, code: seq<Opcode>, pcs: seq<PcElem>)
    requires WellSized(m) && RelocOk(m, fd, base, n, c, code, pcs) && n < |fd.body| && Inside(m, fd, n) &&
            IsBranch(fd.body[n])
    requires c < NumSlots(fd.body[n]) && Writable(code, SlotOf(m, fd, n, c))
    requires s.ctrls == Run(m, fd, n).value.ctrls && SameBelow(Run(m, fd, n).value.ops, s.ops)
    ensures |pcs| == |s.ctrls| && LabelsAgree(s, pcs)
    ensures
      var l := Targets(s, fd.body[n])[c];
      l < |pcs| ==>
        var r := WithSlot(base, |pcs| - 1 - l, SlotOf(m, fd, n, c), code, pcs);
        && RelocOk(m, fd, base, n, c + 1, r.0, r.1) && SameShape(r.0, code)
        && LabelsAgree(s, r.1)
  {
    hide Run, RelocOk, WithSlot, SameShape;
    assert |pcs| == |s.ctrls| by { ProgressLabels(m, fd, base, n, c, code, pcs); }
    ProgressLabels(m, fd, base, n, c, code, pcs);
    LabelsAgreeBelow(Run(m, fd, n).value, s.ops, pcs);
    var l := Targets(s, fd.body[n])[c];
    assert Targets(s, fd.body[n]) == Targets(Run(m, fd, n).value, fd.body[n]);
    if l < |pcs| {
      var r := WithSlot(base, |pcs| - 1 - l, SlotOf(m, fd, n, c), code, pcs);
      AddSlot(m, fd, base, n, c, code, pcs);
      ProgressLabels(m, fd, base, n, c + 1, r.0, r.1);
      LabelsAgreeBelow(Run(m, fd, n).value, s.ops, r.1);
    }
  }

  function BranchLabel(t: Token, n: nat): nat
    requires n > 0 && (t.Br? || t.BrIf? || t.Return?)
  {
    if t.Return? then n - 1 else t.target
  }

  /** The operands once the condition of a `br_if` is popped. */
  function BranchOperands(t: Token, o: Operands): (r: Option<Operands>)
    ensures r.Some? ==> SameBelow(o, r.value)
  {
    if t.BrIf? then PopType(o, I32) else Some(o)
  }

  function BranchCheck(t: Token, pcs: seq<PcElem>, o: Operands): (r: Option<Operands>)
    requires pcs != [] && (t.Br? || t.BrIf? || t.Return?)
    ensures r.Some? ==> BranchLabel(t, |pcs|) < |pcs|
  {
    var o0 :- BranchOperands(t, o);
    CheckLabel(pcs, o0, BranchLabel(t, |pcs|))
  }

  /** Checking the one label of a branch from the control stack comes to the same operands, and
      the same encoded operand count, as the validation algorithm. */
  lemma BranchTypes(s: State, t: Token, pcs: seq<PcElem>)
    requires LabelsAgree(s, pcs) && pcs != [] && (t.Br? || t.BrIf? || t.Return?)
    ensures Targets(s, t) == [BranchLabel(t, |pcs|)]
    ensures BranchCheck(t, pcs, s.ops).Some? <==> BranchStep(s, t).Some?
    ensures BranchOperands(t, s.ops).Some? && BranchLabel(t, |pcs|) < |pcs| ==>
              DepthOf(BranchOperands(t, s.ops).value) >= pcs[|pcs| - 1 - BranchLabel(t, |pcs|)].operandDepth
    ensures BranchCheck(t, pcs, s.ops).Some? ==>
              var o1 := BranchCheck(t, pcs, s.ops).value;
              var e := pcs[|pcs| - 1 - BranchLabel(t, |pcs|)];
              && |o1.segs| == |pcs|
              && BranchStep(s, t).value.ops == (if t.BrIf? then o1 else StartUnreachable(o1))
              && JumpInfo(s, t, 0) ==
                EncodeDepth(DepthOf(BranchOperands(t, s.ops).value) - e.operandDepth, e.labelResult)
  {
    hide PopType, BranchStep, JumpInfo, CheckTarget, CheckLabel, DepthOf, EntryDepth, DepthChange, LabelType;
    var l := BranchLabel(t, |pcs|);
    var o0 := BranchOperands(t, s.ops);
    BranchStepOne(s, t);
    if o0.Some? {
      var s0 := s.(ops := o0.value);
      LabelsAgreeBelow(s, o0.value, pcs);
      CheckLabelIs(s0, pcs, l);
      if l < |pcs| {
        DepthAboveEntry(o0.value, |pcs| - 1 - l);
        assert pcs[|pcs| - 1 - l].operandDepth == EntryDepth(o0.value, |pcs| - 1 - l);
      }
    }
  }

  /** A branch with one label. */
  lemma BranchStepOne(s: State, t: Token)
    requires |s.ctrls| == |s.ops.segs| && s.ctrls != [] && (t.Br? || t.BrIf? || t.Return?)
    ensures Targets(s, t) == [BranchLabel(t, |s.ctrls|)]
    ensures BranchOperands(t, s.ops).None? ==> BranchStep(s, t).None?
    ensures BranchOperands(t, s.ops).Some? ==>
              var s0 := s.(ops := BranchOperands(t, s.ops).value);
              var l := BranchLabel(t, |s.ctrls|);
              && (BranchStep(s, t).Some? <==> CheckTarget(s0, l).Some?)
              && (CheckTarget(s0, l).Some? ==>
                    && l < |s.ctrls| && CheckTarget(s0, l).value.ops.segs != []
                    && BranchStep(s, t).value.ops ==
                       (if t.BrIf? then CheckTarget(s0, l).value.ops
                         else StartUnreachable(CheckTarget(s0, l).value.ops))
                    && (DepthChange(s0, l) >= 0 ==>
                      JumpInfo(s, t, 0) == EncodeDepth(DepthChange(s0, l), LabelType(s.ctrls[|s.ctrls| - 1 - l]))))
  {
    hide PopType, CheckTarget, DepthChange, LabelType, StartUnreachable;
    var o0 := BranchOperands(t, s.ops);
    if o0.Some? {
      OneTargetList(s.(ops := o0.value), t);
    }
  }

  /** The control stack and code after a branch with the encoded operand count `data`. */
  function BranchResult(base: nat, t: Token, data: nat, code: seq<Opcode>,
      pcs: seq<PcElem>): (r: (seq<Opcode>, seq<PcElem>))
    requires pcs != [] && (t.Br? || t.BrIf? || t.Return?) && BranchLabel(t, |pcs|) < |pcs|
  {
    WithSlot(base, |pcs| - 1 - BranchLabel(t, |pcs|), OpSlot(|code|), code + [BranchOp(t, data)], pcs)
  }

  lemma BranchStart(m: Module, fd: FuncDecl, base: nat, n: nat, view: Operands, code: seq<Opcode>, pcs: seq<PcElem>)
    requires Progress(m, fd, base, n, view, code, pcs) && n < |fd.body| && pcs != []
    requires fd.body[n].Br? || fd.body[n].BrIf? || fd.body[n].Return?
    ensures |view.segs| == |pcs| && |code| < Consumed(fd, |fd.body|)
    ensures BranchCheck(fd.body[n], pcs, view).Some? <==> Run(m, fd, n + 1).Some?
    ensures BranchOperands(fd.body[n], view).Some? && BranchLabel(fd.body[n], |pcs|) < |pcs| ==>
              DepthOf(BranchOperands(fd.body[n], view).value) >=
              pcs[|pcs| - 1 - BranchLabel(fd.body[n], |pcs|)].operandDepth
    ensures BranchCheck(fd.body[n], pcs, view).Some? ==>
              var o1 := BranchCheck(fd.body[n], pcs, view).value;
              var e := pcs[|pcs| - 1 - BranchLabel(fd.body[n], |pcs|)];
              var data := EncodeDepth(DepthOf(BranchOperands(fd.body[n], view).value) - e.operandDepth, e.labelResult);
              var r := BranchResult(base, fd.body[n], data, code, pcs);
              && |o1.segs| == |pcs|
              && Progress(m, fd, base, n + 1, if fd.body[n].BrIf? then o1 else StartUnreachable(o1), r.0, r.1)
  {
    hide Step, Emit, SameShape, RelocOk, WithSlot, TargetPc, CheckLabel, JumpInfo, PopType, Targets, LabelsAgree,
         EncodeDepth, DepthOf, BranchStep, Run, Consumed, Code;
    var t := fd.body[n];
    var s := Run(m, fd, n).value;
    Room(m, fd, n);
    BranchRun(m, fd, n);
    ProgressLabels(m, fd, base, n, 0, code, pcs);
    BranchTypes(s, t, pcs);
    if BranchCheck(t, pcs, view).Some? {
      var s0 := s.(ops := BranchOperands(t, view).value);
      var e := pcs[|pcs| - 1 - BranchLabel(t, |pcs|)];
      var data := EncodeDepth(DepthOf(s0.ops) - e.operandDepth, e.labelResult);
      var op := BranchOp(t, data);
      RelocExtended(m, fd, base, n, 0, code, [op], pcs);
      TargetsSame(s0, s, t);
      OneTarget(m, fd, base, n, 0, s0, code + [op], pcs);
      var r := BranchResult(base, t, data, code, pcs);
      Advance(m, fd, base, n, r.0, [], r.1);
      assert r.0 + [] == r.0;
      BranchEmit(m, fd, base, n, op);
      ShapeGrows(m, fd, base, n, code, [op]);
      ShapeKept(code + [op], r.0, Code(m, fd, base, n + 1));
    }
  }

  lemma TargetsSame(s: State, r: State, t: Token)
    requires s.ctrls == r.ctrls && s.ctrls != [] && IsBranch(t)
    ensures Targets(s, t) == Targets(r, t)
  {
  }

  /** A branch with a single label checks just that label. */
  lemma OneTargetList(s: State, t: Token)
    requires |s.ctrls| == |s.ops.segs| && s.ctrls != [] && (t.Br? || t.BrIf? || t.Return?)
    ensures |Targets(s, t)| == 1
    ensures CheckTargets(s, Targets(s, t), 0) == Some(s)
    ensures CheckTargets(s, Targets(s, t), 1) == CheckTarget(s, Targets(s, t)[0])
  {
    hide CheckTarget;
  }

  lemma BranchEmit(m: Module, fd: FuncDecl, base: nat, n: nat, op: Opcode)
    requires WellSized(m) && Inside(m, fd, n) && (fd.body[n].Br? || fd.body[n].BrIf? || fd.body[n].Return?)
    requires op == BranchOp(fd.body[n], JumpInfo(Run(m, fd, n).value, fd.body[n], 0))
    ensures SameShape([op], Emit(m, fd, base, n))
  {
    hide Step, Run, JumpInfo, TargetPc;
  }

  lemma {:induction false} CheckTargetsNone(s: State, ls: seq<nat>, c: nat, n: nat)
    requires |s.ctrls| == |s.ops.segs| && c <= n <= |ls| && CheckTargets(s, ls, c).None?
    ensures CheckTargets(s, ls, n).None?
    decreases n - c
  {
    hide CheckTarget;
    if c < n {
      CheckTargetsNone(s, ls, c, n - 1);
    }
  }

  function TableData(m: Module, size: nat): seq<Opcode>
    requires WellSized(m)
  {
    seq(TableSlots(m, size), i => OTableData)
  }

  function EmptyTable(size: nat): Opcode {
    OBrTable(size, seq(size + 1, i => Entry(0, 0)))
  }

  /** The operands with the first `c` labels of a `br_table` checked. */
  predicate TableTypes(s: State, t: Token, c: nat, view: Operands) {
    && t.BrTable? && s.ctrls != [] && |s.ctrls| == |s.ops.segs|
    && c <= |t.targets| + 1
    && BeforeBranch(s, t).Some?
    && CheckTargets(BeforeBranch(s, t).value, Targets(s, t), c) == Some(State(s.ctrls, view))
  }

  /** A `br_table` opcode with the operand counts of its first `c` entries filled in. */
  predicate TableOk(s: State, t: Token, c: nat, op: Opcode) {
    && t.BrTable? && s.ctrls != [] && |s.ctrls| == |s.ops.segs|
    && op.OBrTable? && op.size == |t.targets| && |op.entries| == |t.targets| + 1 && c <= |op.entries|
    && forall j :: 0 <= j < c ==> op.entries[j].stackPop == JumpInfo(s, t, j)
  }

  ghost predicate TableCode(m: Module, fd: FuncDecl, base: nat, n: nat, c: nat, code: seq<Opcode>, pcs: seq<PcElem>) {
    && WellSized(m) && Inside(m, fd, n) && fd.body[n].BrTable?
    && LabelsAgree(Run(m, fd, n).value, pcs)
    && RelocOk(m, fd, base, n, c, code, pcs)
    && var a := Addr(m, fd, n);
    && |code| == a + 1 + TableSlots(m, |fd.body[n].targets|)
    && SameShape(code[..a], Code(m, fd, base, n))
    && TableOk(Run(m, fd, n).value, fd.body[n], c, code[a])
    && code[a + 1..] == TableData(m, |fd.body[n].targets|)
  }

  lemma TableRoom(m: Module, fd: FuncDecl, base: nat, n: nat, view: Operands, code: seq<Opcode>, pcs: seq<PcElem>)
    requires Progress(m, fd, base, n, view, code, pcs) && n < |fd.body| && pcs != [] && fd.body[n].BrTable?
    ensures |code| + 1 + TableSlots(m, |fd.body[n].targets|) <= Consumed(fd, |fd.body|)
    ensures |code| + 1 + TableSlots(m, |fd.body[n].targets|) == Consumed(fd, |fd.body|) ==> !Accepts(m, fd)
  {
    hide Step, SameShape, RelocOk, Code;
    Room(m, fd, n);
    if n + 1 == |fd.body| && Accepts(m, fd) {
      StepToEmpty(m, fd);
    }
  }

  lemma TableStart(m: Module, fd: FuncDecl, base: nat, n: nat, view: Operands, code: seq<Opcode>, pcs: seq<PcElem>)
    requires Progress(m, fd, base, n, view, code, pcs) && n < |fd.body| && pcs != [] && fd.body[n].BrTable?
    ensures Run(m, fd, n).Some? && Run(m, fd, n).value.ctrls != [] && |view.segs| == |pcs|
    ensures Run(m, fd, n).value.ops == view && |code| == Addr(m, fd, n)
    ensures PopType(view, I32).Some? ==> TableTypes(Run(m, fd, n).value, fd.body[n], 0, PopType(view, I32).value)
    ensures PopType(view, I32).None? ==> Run(m, fd, n + 1).None?
    ensures TableCode(m, fd, base, n, 0,
            code + [EmptyTable(|fd.body[n].targets|)] + TableData(m, |fd.body[n].targets|), pcs)
  {
    hide Run, Step, SameShape, RelocOk, Code, CheckTargets, EmptyTable, TableData, TableCode, PopType, Targets;
    BranchRun(m, fd, n);
    TableStartCode(m, fd, base, n, view, code, pcs);
    TableStartTypes(Run(m, fd, n).value, fd.body[n]);
  }

  lemma TableStartTypes(s: State, t: Token)
    requires t.BrTable? && s.ctrls != [] && |s.ctrls| == |s.ops.segs|
    ensures PopType(s.ops, I32).Some? ==> TableTypes(s, t, 0, PopType(s.ops, I32).value)
    ensures PopType(s.ops, I32).None? ==> BranchStep(s, t).None?
  {
    hide PopType;
  }

  lemma TableStartCode(m: Module, fd: FuncDecl, base: nat, n: nat, view: Operands, code: seq<Opcode>,
      pcs: seq<PcElem>)
    requires Progress(m, fd, base, n, view, code, pcs) && n < |fd.body| && pcs != [] && fd.body[n].BrTable?
    requires Inside(m, fd, n)
    ensures TableCode(m, fd, base, n, 0,
            code + [EmptyTable(|fd.body[n].targets|)] + TableData(m, |fd.body[n].targets|), pcs)
  {
    hide Run, Step, Emit, SameShape, RelocOk, Code, CheckTarget, LabelsAgree, JumpInfo;
    var t := fd.body[n];
    var head := code + [EmptyTable(|t.targets|)];
    var data := TableData(m, |t.targets|);
    RelocExtended(m, fd, base, n, 0, code, [EmptyTable(|t.targets|)], pcs);
    RelocExtended(m, fd, base, n, 0, head, data, pcs);
    ProgressLabels(m, fd, base, n, 0, code, pcs);
    assert (head + data)[..Addr(m, fd, n)] == code;
    assert (head + data)[Addr(m, fd, n) + 1..] == data;
  }

  /** Filling in the operand count of an entry leaves the targets alone. */
  lemma PopEffect(code: seq<Opcode>, at: nat, i: nat, data: nat, a: SlotAddr)
    requires at < |code| && code[at].OBrTable? && i < |code[at].entries| && Writable(code, a)
    ensures
      var code' := code[at := WithPop(code[at], i, data)];
      Writable(code', a) && PcAt(code', a) == PcAt(code, a)
  {
  }

  /** Label `c` of a `br_table`, checked against the control stack. */
  lemma CaseTypes(s: State, t: Token, c: nat, view: Operands, pcs: seq<PcElem>, l: nat)
    requires LabelsAgree(s, pcs) && TableTypes(s, t, c, view) && c <= |t.targets| && l == Targets(s, t)[c]
    ensures |view.segs| == |pcs|
    ensures l < |pcs| ==> DepthOf(view) >= pcs[|pcs| - 1 - l].operandDepth
    ensures CheckLabel(pcs, view, l).None? ==> BranchStep(s, t).None?
    ensures CheckLabel(pcs, view, l).Some? ==>
              && TableTypes(s, t, c + 1, CheckLabel(pcs, view, l).value)
              && JumpInfo(s, t, c) ==
                EncodeDepth(DepthOf(view) - pcs[|pcs| - 1 - l].operandDepth, pcs[|pcs| - 1 - l].labelResult)
              && pcs[|pcs| - 1 - l].labelResult == LabelType(s.ctrls[|pcs| - 1 - l])
  {
    hide TopType, PopType, DepthOf, EntryDepth, LabelType, CheckTarget, CheckLabel, DepthChange, EncodeDepth,
         BranchStep, JumpInfo;
    var s0 := BeforeBranch(s, t).value;
    var sc := State(s.ctrls, view);
    CaseJump(s, t, c, view, l);
    LabelsAgreeBelow(s, s0.ops, pcs);
    LabelsAgreeBelow(s0, view, pcs);
    CheckLabelIs(sc, pcs, l);
    if l < |pcs| {
      DepthAboveEntry(view, |pcs| - 1 - l);
      assert pcs[|pcs| - 1 - l].operandDepth == EntryDepth(view, |pcs| - 1 - l);
    }
    if CheckLabel(pcs, view, l).None? {
      CheckTargetsNone(s0, Targets(s, t), c + 1, |Targets(s, t)|);
      NoBranch(s, t);
    }
  }

  lemma CaseJump(s: State, t: Token, c: nat, view: Operands, l: nat)
    requires |s.ctrls| == |s.ops.segs| && s.ctrls != [] && TableTypes(s, t, c, view) && c <= |t.targets| &&
            l == Targets(s, t)[c]
    ensures |view.segs| == |s.ctrls|
    ensures CheckTargets(BeforeBranch(s, t).value, Targets(s, t), c + 1) == CheckTarget(State(s.ctrls, view), l)
    ensures l < |s.ctrls| && DepthChange(State(s.ctrls, view), l) >= 0 ==>
              JumpInfo(s, t, c) == EncodeDepth(DepthChange(State(s.ctrls, view), l),
                LabelType(s.ctrls[|s.ctrls| - 1 - l]))
  {
    hide PopType, DepthChange, LabelType, CheckTarget;
  }

  lemma NoBranch(s: State, t: Token)
    requires t.BrTable? && s.ctrls != [] && |s.ctrls| == |s.ops.segs| && BeforeBranch(s, t).Some?
    requires CheckTargets(BeforeBranch(s, t).value, Targets(s, t), |Targets(s, t)|).None?
    ensures BranchStep(s, t).None?
  {
    hide PopType, CheckTargets;
  }

  lemma CaseStart(m: Module, fd: FuncDecl, base: nat, n: nat, c: nat, s: State, view: Operands, code: seq<Opcode>,
      pcs: seq<PcElem>, l: nat)
    requires TableCode(m, fd, base, n, c, code, pcs) && s == Run(m, fd, n).value
    requires TableTypes(s, fd.body[n], c, view) && c <= |fd.body[n].targets| && l == Targets(s, fd.body[n])[c]
    ensures |view.segs| == |pcs| == |s.ctrls| && pcs != []
    ensures l < |pcs| ==> DepthOf(view) >= pcs[|pcs| - 1 - l].operandDepth
    ensures CheckLabel(pcs, view, l).None? ==> Run(m, fd, n + 1).None?
    ensures CheckLabel(pcs, view, l).Some? ==>
              && TableTypes(s, fd.body[n], c + 1, CheckLabel(pcs, view, l).value)
              && JumpInfo(s, fd.body[n], c) ==
                EncodeDepth(DepthOf(view) - pcs[|pcs| - 1 - l].operandDepth, pcs[|pcs| - 1 - l].labelResult)
              && pcs[|pcs| - 1 - l].labelResult == LabelType(s.ctrls[|pcs| - 1 - l])
    ensures Addr(m, fd, n) < |code| && code[Addr(m, fd, n)].OBrTable? && c < |code[Addr(m, fd, n)].entries|
    ensures l < |pcs| ==>
              var a := Addr(m, fd, n);
              var code' := code[a := WithPop(code[a], c, JumpInfo(s, fd.body[n], c))];
              var r := WithSlot(base, |pcs| - 1 - l, CaseSlot(a, c), code', pcs);
              TableCode(m, fd, base, n, c + 1, r.0, r.1)
  {
    hide Step, RelocOk, SameShape, Code, TableTypes, LabelsAgree, CheckLabel, JumpInfo, BranchStep, EncodeDepth;
    CaseTypes(s, fd.body[n], c, view, pcs, l);
    BranchRun(m, fd, n);
    assert |pcs| == |s.ctrls| by { LabelsLength(s, pcs); }
    if l < |pcs| {
      CaseCode(m, fd, base, n, c, code, pcs, l);
    }
  }

  lemma LabelsLength(s: State, pcs: seq<PcElem>)
    requires LabelsAgree(s, pcs)
    ensures |pcs| == |s.ctrls|
  {
  }

  /** Entry `c` of a `br_table` is filled in and its target recorded. */
  lemma CaseCode(m: Module, fd: FuncDecl, base: nat, n: nat, c: nat, code: seq<Opcode>, pcs: seq<PcElem>, l: nat)
    requires TableCode(m, fd, base, n, c, code, pcs) && c <= |fd.body[n].targets|
    requires l == Targets(Run(m, fd, n).value, fd.body[n])[c] && l < |pcs|
    ensures Addr(m, fd, n) < |code| && code[Addr(m, fd, n)].OBrTable? && c < |code[Addr(m, fd, n)].entries|
    ensures
      var a := Addr(m, fd, n);
      var code' := code[a := WithPop(code[a], c, JumpInfo(Run(m, fd, n).value, fd.body[n], c))];
      var r := WithSlot(base, |pcs| - 1 - l, CaseSlot(a, c), code', pcs);
      TableCode(m, fd, base, n, c + 1, r.0, r.1)
  {
    hide Step, RelocOk, Code, JumpInfo, TargetPc, Writable, PcAt, LabelsAgree;
    var a := Addr(m, fd, n);
    var s := Run(m, fd, n).value;
    var code' := code[a := WithPop(code[a], c, JumpInfo(s, fd.body[n], c))];
    forall x: SlotAddr {:trigger Writable(code, x)} | Writable(code, x)
      ensures Writable(code', x) && PcAt(code', x) == PcAt(code, x)
    {
      PopEffect(code, a, c, JumpInfo(s, fd.body[n], c), x);
    }
    RelocSame(m, fd, base, n, c, code, code', pcs);
    CaseWritable(code', a, c);
    OneTarget(m, fd, base, n, c, s, code', pcs);
    CaseShape(m, fd, base, n, c, code, pcs, l);
  }

  lemma CaseWritable(code: seq<Opcode>, a: nat, c: nat)
    requires a < |code| && code[a].OBrTable? && c < |code[a].entries|
    ensures Writable(code, CaseSlot(a, c))
  {
  }

  lemma CaseShape(m: Module, fd: FuncDecl, base: nat, n: nat, c: nat, code: seq<Opcode>, pcs: seq<PcElem>, l: nat)
    requires TableCode(m, fd, base, n, c, code, pcs) && c <= |fd.body[n].targets| && l < |pcs|
    ensures
      var a := Addr(m, fd, n);
      var s := Run(m, fd, n).value;
      var code' := code[a := WithPop(code[a], c, JumpInfo(s, fd.body[n], c))];
      var r := WithSlot(base, |pcs| - 1 - l, CaseSlot(a, c), code', pcs);
      && |r.0| == |code|
      && r.0[..a] == code[..a]
      && TableOk(s, fd.body[n], c + 1, r.0[a])
      && r.0[a + 1..] == code[a + 1..]
  {
    hide Step, RelocOk, Code, JumpInfo, TargetPc, SameShape, Run;
  }

  /** When every label is recorded the table is complete. */
  lemma TableDone(m: Module, fd: FuncDecl, base: nat, n: nat, view: Operands, code: seq<Opcode>, pcs: seq<PcElem>)
    requires SizesOk(fd) && n < |fd.body| && fd.body[n].BrTable?
    requires TableCode(m, fd, base, n, |fd.body[n].targets| + 1, code, pcs)
    requires TableTypes(Run(m, fd, n).value, fd.body[n], |fd.body[n].targets| + 1, view)
    ensures view.segs != []
    ensures SameTypes(Run(m, fd, n).value.ctrls, Targets(Run(m, fd, n).value, fd.body[n])) ==>
              Run(m, fd, n + 1).Some? && Progress(m, fd, base, n + 1, StartUnreachable(view), code, pcs)
    ensures !SameTypes(Run(m, fd, n).value.ctrls, Targets(Run(m, fd, n).value, fd.body[n])) ==> Run(m, fd, n + 1).None?
  {
    hide Step, RelocOk, Code, SameTypes, Emit, JumpInfo, TableOk, SameShape, CheckTargets;
    var s := Run(m, fd, n).value;
    BranchRun(m, fd, n);
    if SameTypes(s.ctrls, Targets(s, fd.body[n])) {
      Advance(m, fd, base, n, code, [], pcs);
      assert code + [] == code;
      var a := Addr(m, fd, n);
      assert code == code[..a] + ([code[a]] + code[a + 1..]);
      TableEmit(m, fd, base, n, code[a]);
      ShapeGrows(m, fd, base, n, code[..a], [code[a]] + code[a + 1..]);
    }
  }

  lemma TableEmit(m: Module, fd: FuncDecl, base: nat, n: nat, op: Opcode)
    requires WellSized(m) && Inside(m, fd, n) && fd.body[n].BrTable?
    requires TableOk(Run(m, fd, n).value, fd.body[n], |fd.body[n].targets| + 1, op)
    ensures SameShape([op] + TableData(m, |fd.body[n].targets|), Emit(m, fd, base, n))
  {
    hide Step, Run, JumpInfo, TargetPc;
    var want := Emit(m, fd, base, n);
    assert want[1..] == TableData(m, |fd.body[n].targets|);
    assert Erase(want[0]).entries == Erase(op).entries;
  }

  /** The first `c` labels exist and have the given type. */
  predicate OfType(s: State, ls: seq<nat>, c: nat, resultType: Option<ValType>) {
    c <= |ls| && forall j :: 0 <= j < c ==> ls[j] < |s.ctrls| && LabelType(s.ctrls[|s.ctrls| - 1 - ls[j]]) == resultType
  }

  lemma NoneOfType(s: State, ls: seq<nat>)
    ensures OfType(s, ls, 0, None)
  {
  }

  lemma OfTypeStep(s: State, ls: seq<nat>, c: nat, resultType: Option<ValType>, one: Option<ValType>)
    requires OfType(s, ls, c, resultType) && c < |ls| && ls[c] < |s.ctrls| &&
            one == LabelType(s.ctrls[|s.ctrls| - 1 - ls[c]])
    ensures c == 0 || resultType == one ==> OfType(s, ls, c + 1, one)
    ensures c > 0 && resultType != one ==> !SameTypes(s.ctrls, ls)
  {
  }

  lemma OfTypeSame(s: State, ls: seq<nat>, resultType: Option<ValType>)
    requires OfType(s, ls, |ls|, resultType) && ls != []
    ensures SameTypes(s.ctrls, ls)
  {
  }

  /** Two labels of different types: the `br_table` is rejected. */
  lemma DifferentTypes(m: Module, fd: FuncDecl, n: nat, s: State)
    requires Inside(m, fd, n) && fd.body[n].BrTable? && s == Run(m, fd, n).value
    requires !SameTypes(s.ctrls, Targets(s, fd.body[n]))
    ensures Run(m, fd, n + 1).None?
  {
    hide Step, Run, CheckTargets, LabelType, SameTypes;
    BranchRun(m, fd, n);
    if BeforeBranch(s, fd.body[n]).Some? {
      TargetsSame(s, BeforeBranch(s, fd.body[n]).value, fd.body[n]);
    }
  }

  lemma NotAccepted(m: Module, fd: FuncDecl, n: nat)
    requires n < |fd.body| && (Run(m, fd, n + 1).None? || !Accepts(m, fd))
    ensures !Accepts(m, fd)
  {
    hide Step;
    if Accepts(m, fd) {
      RunPrefix(m, fd, n + 1, |fd.body|);
    }
  }

  /** Instructions after the end of the function. */
  lemma ClosedEarly(m: Module, fd: FuncDecl, base: nat, n: nat, view: Operands, code: seq<Opcode>, pcs: seq<PcElem>)
    requires Progress(m, fd, base, n, view, code, pcs) && n < |fd.body| && pcs == []
    ensures !Accepts(m, fd)
  {
    hide Step, RelocOk, SameShape;
    if Accepts(m, fd) {
      RunPrefix(m, fd, n, |fd.body|);
    }
  }

  lemma Finished(m: Module, fd: FuncDecl, base: nat, view: Operands, code: seq<Opcode>, pcs: seq<PcElem>)
    requires Progress(m, fd, base, |fd.body|, view, code, pcs) && |LocalTypes(fd)| < U32_LIMIT
    ensures Run(m, fd, |fd.body|).Some? && view == Run(m, fd, |fd.body|).value.ops
    ensures Accepts(m, fd) <==> pcs == []
    ensures Accepts(m, fd) ==> code == Code(m, fd, base, |fd.body|)
  {
    hide Step, RelocOk, SameShape;
    if Accepts(m, fd) {
      Complete(m, fd, base, code, pcs);
    }
  }

  class BodyParser {
    const m: Module
    const fd: FuncDecl
    const writer: BitcodeWriter
    const tracker: OperandStackTypeTracker
    const locals: Locals.LocalTypesTable
    var pcStack: seq<PcElem>
    var pos: nat

    ghost predicate Valid()
      reads this, writer, writer.arena, tracker, locals
    {
      && WellSized(m) && SizesOk(fd)
      && locals.Valid() && locals.fd == fd
      && tracker.Valid()
      && writer.Valid() && writer.fbSize == Consumed(fd, |fd.body|)
      && Progress(m, fd, writer.baseOffset, pos, tracker.view, writer.Code(), pcStack)
    }

    constructor (m: Module, fd: FuncDecl, locals: Locals.LocalTypesTable, writer: BitcodeWriter)
      requires WellSized(m) && SizesOk(fd) && locals.Valid() && locals.fd == fd
      requires writer.Valid() && writer.fbSize == Consumed(fd, |fd.body|) && writer.opIndex == 0
      ensures Valid() && pos == 0 && pcStack != [] && this.m == m && this.fd == fd && this.writer == writer &&
              fresh(tracker)
      ensures this.locals == locals
    {
      this.m := m;
      this.fd := fd;
      this.writer := writer;
      this.locals := locals;
      tracker := new OperandStackTypeTracker();
      pcStack := [PcElem(0, fd.ft.result, fd.ft.result, false, Pending([]))];
      pos := 0;
    }

    /** Type checks an instruction that stays in its scope and gives its opcode. */
    method TrackStraight(t: Token) returns (ok: bool, op: Opcode)
      requires tracker.Valid() && tracker.view.segs != [] && IsStraight(t) && locals.Valid() && locals.fd == fd
      modifies tracker
      ensures ok <==> StraightStep(m, fd, old(tracker.view), t).Some?
      ensures ok ==> tracker.Valid() && tracker.view == StraightStep(m, fd, old(tracker.view), t).value
      ensures op == StraightOp(t)
    {
      op := StraightOp(t);
      match t {
        case Plain(p) =>
          var sig := PlainSig(m.globals, p);
          if sig.None? {
            return false, op;
          }
          ok := tracker.PopParams(sig.value.ins);
          if ok && sig.value.outs != [] {
            ok := tracker.Push(Known(sig.value.outs[0]));
          }
        case Unreachable =>
          tracker.MarkUnreachable();
          ok := true;
        case Drop =>
          var dropped;
          ok, dropped := tracker.PopAny();
        case Select =>
          ok := SelectOperands();
        case LocalGet(i) =>
          var lt := locals.TypeAt(i);
          if lt.None? {
            return false, op;
          }
          ok := tracker.Push(Known(lt.value));
        case LocalSet(i) =>
          var lt := locals.TypeAt(i);
          if lt.None? {
            return false, op;
          }
          ok := tracker.Pop(lt.value);
        case LocalTee(i) =>
          var lt := locals.TypeAt(i);
          if lt.None? {
            return false, op;
          }
          ok := tracker.Constrain(lt);
        case Call(f) =>
          var ft := TypeOfFunc(m, f);
          if ft.None? {
            return false, op;
          }
          ok := tracker.PopParams(ft.value.params);
          if ok && ft.value.result.Some? {
            ok := tracker.Push(Known(ft.value.result.value));
          }
      }
    }

    method Straight() returns (ok: bool)
      requires Valid() && pos < |fd.body| && IsStraight(fd.body[pos]) && pcStack != []
      modifies this`pos, tracker, writer`opIndex, writer.arena
      ensures writer.Valid() && writer.arena[..writer.fbStart] == old(writer.arena[..writer.fbStart])
      ensures ok <==> Run(m, fd, old(pos) + 1).Some?
      ensures ok ==> Valid() && pos == old(pos) + 1
    {
      hide Run, StraightStep, Progress, OperandStackTypeTracker.Valid, BitcodeWriter.Code, Consumed, LocalTypes;
      StraightStart(m, fd, writer.baseOffset, pos, tracker.view, writer.Code(), pcStack);
      var op;
      ok, op := TrackStraight(fd.body[pos]);
      if ok {
        writer.Append(op);
        pos := pos + 1;
      }
    }

    method EnterBlock() returns (ok: bool)
      requires Valid() && pos < |fd.body| && Opens(fd.body[pos]) && pcStack != []
      modifies this, tracker, writer`opIndex, writer.arena
      ensures writer.Valid() && writer.arena[..writer.fbStart] == old(writer.arena[..writer.fbStart])
      ensures ok <==> Run(m, fd, old(pos) + 1).Some?
      ensures ok ==> Valid() && pos == old(pos) + 1
    {
      hide Run, Progress, Addr, DepthOf, OperandStackTypeTracker.Valid, BitcodeWriter.Code, Consumed, LocalTypes;
      OpenStart(m, fd, writer.baseOffset, pos, tracker.view, writer.Code(), pcStack);
      ghost var code := writer.Code();
      var t := fd.body[pos];
      var reloc: Reloc := Pending([]);
      if t.Loop? {
        reloc := LabelAt(writer.opIndex);
      } else if t.If? {
        var branch := writer.EmitIf();
        reloc := Pending([branch]);
        ok := tracker.Pop(I32);
        if !ok {
          return;
        }
      }
      assert writer.Code() == code + if t.If? then [OIf(0)] else [];
      var depth := tracker.Depth();
      pcStack := pcStack + [PcElem(depth, t.bt, if t.Loop? then None else t.bt, t.If?, reloc)];
      tracker.EnterScope();
      pos := pos + 1;
      return true;
    }

    method ElseBranch() returns (ok: bool)
      requires Valid() && pos < |fd.body| && fd.body[pos].Else? && pcStack != []
      modifies this, tracker, writer`opIndex, writer.arena
      ensures writer.Valid() && writer.arena[..writer.fbStart] == old(writer.arena[..writer.fbStart])
      ensures ok <==> Run(m, fd, old(pos) + 1).Some?
      ensures ok ==> Valid() && pos == old(pos) + 1
    {
      hide Run, Progress, Patch, Writable, PopScope, PopType, OperandStackTypeTracker.Valid, BitcodeWriter.Code,
           Consumed, LocalTypes;
      ElseStart(m, fd, writer.baseOffset, pos, tracker.view, writer.Code(), pcStack);
      var last := |pcStack| - 1;
      var element := pcStack[last];
      if !element.isIf {
        return false;
      }
      if element.expected.Some? {
        ok := tracker.Pop(element.expected.value);
        if !ok {
          return;
        }
      }
      ok := tracker.LeaveScope(None);
      if !ok {
        return;
      }
      tracker.EnterScope();
      var slot := writer.EmitElse(element.reloc.slots[0]);
      pcStack := pcStack[last := element.(isIf := false, reloc := Pending(element.reloc.slots[0 := slot]))];
      pos := pos + 1;
    }

    method ExitScope() returns (ok: bool)
      requires Valid() && pos < |fd.body| && fd.body[pos].End? && pcStack != []
      modifies this, tracker, writer.arena
      ensures writer.Valid() && writer.arena[..writer.fbStart] == old(writer.arena[..writer.fbStart])
      ensures ok <==> Run(m, fd, old(pos) + 1).Some?
      ensures ok ==> Valid() && pos == old(pos) + 1
    {
      hide Run, Progress, PatchAll, PopScope, PopType, OperandStackTypeTracker.Valid, BitcodeWriter.Code, Consumed,
           LocalTypes;
      EndStart(m, fd, writer.baseOffset, pos, tracker.view, writer.Code(), pcStack);
      var back := pcStack[|pcStack| - 1];
      if back.isIf && back.expected.Some? {
        return false;
      }
      var endPos := writer.opIndex;
      if back.reloc.Pending? {
        writer.FixAll(back.reloc.slots, endPos);
      }
      ok := tracker.LeaveScope(back.expected);
      if ok {
        pcStack := pcStack[..|pcStack| - 1];
        pos := pos + 1;
      }
    }

    /** `compute_depth_change` and the range check of `encode_depth_change`. */
    method DepthChangeOf(l: nat) returns (ok: bool, data: nat)
      requires tracker.Valid() && tracker.view.segs != [] && |pcStack| == |tracker.view.segs|
      requires l < |pcStack| ==> DepthOf(tracker.view) >= pcStack[|pcStack| - 1 - l].operandDepth
      modifies tracker
      ensures ok <==> CheckLabel(pcStack, old(tracker.view), l).Some?
      ensures ok ==> tracker.Valid() && tracker.view == CheckLabel(pcStack, old(tracker.view), l).value
      ensures ok ==> l < |pcStack|
      ensures ok ==>
                var e := pcStack[|pcStack| - 1 - l];
                data == EncodeDepth(DepthOf(old(tracker.view)) - e.operandDepth, e.labelResult)
    {
      if l >= |pcStack| {
        return false, 0;
      }
      var branchTarget := pcStack[|pcStack| - l - 1];
      var depth := tracker.Depth();
      var result := depth - branchTarget.operandDepth;
      ok := tracker.Constrain(branchTarget.labelResult);
      if !ok || result >= RESULT_FLAG {
        return false, 0;
      }
      return true, EncodeDepth(result, branchTarget.labelResult);
    }

    /** Writes the target of a loop label; otherwise puts the branch on the label's list. */
    method HandleBranchTarget(l: nat, address: SlotAddr)
      requires writer.Valid() && l < |pcStack|
      modifies this`pcStack, writer.arena
      ensures writer.Valid() && writer.arena[..writer.fbStart] == old(writer.arena[..writer.fbStart])
      ensures (writer.Code(), pcStack) ==
              WithSlot(writer.baseOffset, |old(pcStack)| - 1 - l, address, old(writer.Code()), old(pcStack))
    {
      hide BitcodeWriter.Code, Patch;
      var k := |pcStack| - l - 1;
      match pcStack[k].reloc {
        case LabelAt(target) =>
          writer.FixBranch(address, target);
        case Pending(slots) =>
          pcStack := pcStack[k := pcStack[k].(reloc := Pending(slots + [address]))];
      }
    }

    method Branch() returns (ok: bool)
      requires Valid() && pos < |fd.body| && pcStack != []
      requires fd.body[pos].Br? || fd.body[pos].BrIf? || fd.body[pos].Return?
      modifies this, tracker, writer`opIndex, writer.arena
      ensures writer.Valid() && writer.arena[..writer.fbStart] == old(writer.arena[..writer.fbStart])
      ensures ok <==> Run(m, fd, old(pos) + 1).Some?
      ensures ok ==> Valid() && pos == old(pos) + 1
    {
      hide Run, Progress, WithSlot, CheckLabel, PopType, EncodeDepth, DepthOf, OperandStackTypeTracker.Valid,
           BitcodeWriter.Code, Consumed, LocalTypes;
      BranchStart(m, fd, writer.baseOffset, pos, tracker.view, writer.Code(), pcStack);
      var t := fd.body[pos];
      var l := BranchLabel(t, |pcStack|);
      if t.BrIf? {
        ok := tracker.Pop(I32);
        if !ok {
          return;
        }
      }
      var data;
      ok, data := DepthChangeOf(l);
      if !ok {
        return;
      }
      var branch := writer.EmitBranch(BranchOp(t, data));
      HandleBranchTarget(l, branch);
      if !t.BrIf? {
        tracker.MarkUnreachable();
      }
      pos := pos + 1;
    }

    /** One label of a `br_table`: its check, its entry and its target. */
    method TableCase(ghost s: State, ghost n: nat, at: nat, c: nat, l: nat)
      returns (ok: bool, labelResult: Option<ValType>)
      requires writer.Valid() && tracker.Valid()
      requires TableCode(m, fd, writer.baseOffset, n, c, writer.Code(), pcStack) && at == Addr(m, fd, n)
      requires s == Run(m, fd, n).value && c <= |fd.body[n].targets| && l == Targets(s, fd.body[n])[c]
      requires TableTypes(s, fd.body[n], c, tracker.view)
      modifies this`pcStack, tracker, writer.arena
      ensures writer.Valid() && writer.arena[..writer.fbStart] == old(writer.arena[..writer.fbStart])
      ensures !ok ==> Run(m, fd, n + 1).None?
      ensures ok ==>
                && tracker.Valid()
                && TableCode(m, fd, writer.baseOffset, n, c + 1, writer.Code(), pcStack)
                && TableTypes(s, fd.body[n], c + 1, tracker.view)
                && l < |s.ctrls| && labelResult == LabelType(s.ctrls[|s.ctrls| - 1 - l])
    {
      hide Run, TableCode, TableTypes, WithSlot, CheckLabel, Addr, Targets, OperandStackTypeTracker.Valid,
           BitcodeWriter.Code, Consumed, LocalTypes, EncodeDepth, DepthOf, JumpInfo;
      CaseStart(m, fd, writer.baseOffset, n, c, s, tracker.view, writer.Code(), pcStack, l);
      var data;
      ok, data := DepthChangeOf(l);
      labelResult := None;
      if ok {
        labelResult := pcStack[|pcStack| - 1 - l].labelResult;
        var branch := writer.EmitCase(at, c, data);
        HandleBranchTarget(l, branch);
      }
    }

    /** All labels of a `br_table`, which must have the same type. */
    method TableCases(ghost s: State, ghost n: nat, at: nat, t: Token) returns (ok: bool)
      requires writer.Valid() && tracker.Valid() && Inside(m, fd, n) && fd.body[n].BrTable? && t == fd.body[n]
      requires TableCode(m, fd, writer.baseOffset, n, 0, writer.Code(), pcStack) && at == Addr(m, fd, n)
      requires s == Run(m, fd, n).value && TableTypes(s, t, 0, tracker.view)
      modifies this`pcStack, tracker, writer.arena
      ensures writer.Valid() && writer.arena[..writer.fbStart] == old(writer.arena[..writer.fbStart])
      ensures !ok ==> Run(m, fd, n + 1).None?
      ensures ok ==>
                && tracker.Valid()
                && TableCode(m, fd, writer.baseOffset, n, |t.targets| + 1, writer.Code(), pcStack)
                && TableTypes(s, t, |t.targets| + 1, tracker.view)
                && SameTypes(s.ctrls, Targets(s, t))
    {
      hide Run, TableCode, TableTypes, OperandStackTypeTracker.Valid, BitcodeWriter.Code, Consumed, LocalTypes, Addr,
           LabelType, OfType, SameTypes;
      var resultType: Option<ValType> := None;
      var i := 0;
      ghost var ls := Targets(s, t);
      assert ls == t.targets + [t.default];
      assert OfType(s, ls, 0, None) by { NoneOfType(s, ls); }
      while i < |t.targets|
        invariant 0 <= i <= |t.targets|
        invariant writer.Valid() && tracker.Valid()
        invariant TableCode(m, fd, writer.baseOffset, n, i, writer.Code(), pcStack)
        invariant TableTypes(s, t, i, tracker.view)
        invariant OfType(s, ls, i, resultType)
        invariant writer.arena[..writer.fbStart] == old(writer.arena[..writer.fbStart])
      {
        ok, resultType := SameTypeCase(s, n, at, i, t.targets[i], resultType);
        if !ok {
          return;
        }
        i := i + 1;
      }
      ok, resultType := SameTypeCase(s, n, at, |t.targets|, t.default, resultType);
      if ok {
        OfTypeSame(s, ls, resultType);
      }
    }

    /** A label of a `br_table`, compared with the type of the labels before it. */
    method SameTypeCase(ghost s: State, ghost n: nat, at: nat, c: nat, l: nat, resultType: Option<ValType>)
      returns (ok: bool, oneResult: Option<ValType>)
      requires writer.Valid() && tracker.Valid() && Inside(m, fd, n) && fd.body[n].BrTable?
      requires TableCode(m, fd, writer.baseOffset, n, c, writer.Code(), pcStack) && at == Addr(m, fd, n)
      requires s == Run(m, fd, n).value && c <= |fd.body[n].targets| && l == Targets(s, fd.body[n])[c]
      requires TableTypes(s, fd.body[n], c, tracker.view) && OfType(s, Targets(s, fd.body[n]), c, resultType)
      modifies this`pcStack, tracker, writer.arena
      ensures writer.Valid() && writer.arena[..writer.fbStart] == old(writer.arena[..writer.fbStart])
      ensures !ok ==> Run(m, fd, n + 1).None?
      ensures ok ==>
                && tracker.Valid()
                && TableCode(m, fd, writer.baseOffset, n, c + 1, writer.Code(), pcStack)
                && TableTypes(s, fd.body[n], c + 1, tracker.view)
                && OfType(s, Targets(s, fd.body[n]), c + 1, oneResult)
    {
      hide Run, TableCode, TableTypes, OperandStackTypeTracker.Valid, BitcodeWriter.Code, Consumed, LocalTypes, Addr,
           LabelType, OfType, SameTypes;
      ok, oneResult := TableCase(s, n, at, c, l);
      if ok {
        OfTypeStep(s, Targets(s, fd.body[n]), c, resultType, oneResult);
        if c > 0 && resultType != oneResult {
          DifferentTypes(m, fd, n, s);
          ok := false;
        }
      }
    }

    method Table() returns (ok: bool)
      requires Valid() && pos < |fd.body| && fd.body[pos].BrTable? && pcStack != []
      modifies this, tracker, writer`opIndex, writer.arena
      ensures writer.Valid() && writer.arena[..writer.fbStart] == old(writer.arena[..writer.fbStart])
      ensures !ok ==> Run(m, fd, old(pos) + 1).None? || !Accepts(m, fd)
      ensures ok ==> Valid() && pos == old(pos) + 1
    {
      hide Run, Progress, TableCode, TableTypes, OperandStackTypeTracker.Valid, BitcodeWriter.Code, Consumed,
           LocalTypes, Addr, PopType, Accepts, SameTypes;
      var t := fd.body[pos];
      ghost var n := pos;
      TableStart(m, fd, writer.baseOffset, n, tracker.view, writer.Code(), pcStack);
      TableRoom(m, fd, writer.baseOffset, n, tracker.view, writer.Code(), pcStack);
      ok := tracker.Pop(I32);
      if !ok {
        return;
      }
      var at;
      ok, at := writer.EmitBrTable(m, |t.targets|);
      if !ok {
        return;
      }
      ghost var s := Run(m, fd, n).value;
      ok := TableCases(s, n, at, t);
      if !ok {
        return;
      }
      TableDone(m, fd, writer.baseOffset, n, tracker.view, writer.Code(), pcStack);
      tracker.MarkUnreachable();
      pos := pos + 1;
    }

    /** One iteration of the parser's loop. */
    method Instruction() returns (ok: bool)
      requires Valid() && pos < |fd.body| && pcStack != []
      modifies this, tracker, writer`opIndex, writer.arena
      ensures writer.Valid() && writer.arena[..writer.fbStart] == old(writer.arena[..writer.fbStart])
      ensures !ok ==> Run(m, fd, old(pos) + 1).None? || !Accepts(m, fd)
      ensures ok ==> Valid() && pos == old(pos) + 1
    {
      hide Run, Progress, Accepts, OperandStackTypeTracker.Valid, BitcodeWriter.Code, Consumed, LocalTypes;
      var t := fd.body[pos];
      if t.Block? || t.Loop? || t.If? {
        ok := EnterBlock();
      } else if t.Else? {
        ok := ElseBranch();
      } else if t.End? {
        ok := ExitScope();
      } else if t.Br? || t.BrIf? || t.Return? {
        ok := Branch();
      } else if t.BrTable? {
        ok := Table();
      } else {
        ok := Straight();
      }
    }

    /** Accepts exactly the bodies the validation algorithm accepts, and leaves their code with
        every branch target patched. */
    method ParseFunctionBodyCode() returns (ok: bool)
      requires Valid() && pos == 0 && pcStack != []
      modifies this, tracker, writer`opIndex, writer.arena
      ensures writer.Valid() && writer.arena[..writer.fbStart] == old(writer.arena[..writer.fbStart])
      ensures ok <==> Accepts(m, fd)
      ensures ok ==> writer.Code() == Code(m, fd, writer.baseOffset, |fd.body|)
      ensures ok ==>
              Run(m, fd, |fd.body|).Some? && tracker.maximumOperandDepth == Run(m, fd, |fd.body|).value.ops.maxDepth
    {
      hide Run, Progress, Accepts, OperandStackTypeTracker.Valid, BitcodeWriter.Code, Consumed, LocalTypes,
           Locals.LocalTypesTable.Valid;
      while pos < |fd.body|
        invariant Valid() && pos <= |fd.body|
        invariant pcStack == [] ==> pos == |fd.body|
        invariant writer.arena[..writer.fbStart] == old(writer.arena[..writer.fbStart])
      {
        ghost var n := pos;
        ok := Instruction();
        if !ok {
          NotAccepted(m, fd, n);
          return;
        }
        if pcStack == [] && pos != |fd.body| {
          ClosedEarly(m, fd, writer.baseOffset, pos, tracker.view, writer.Code(), pcStack);
          return false;
        }
      }
      locals.Complete();
      Finished(m, fd, writer.baseOffset, tracker.view, writer.Code(), pcStack);
      tracker.MaximumIs();
      return pcStack == [];
    }

    method SelectOperands() returns (ok: bool)
      requires tracker.Valid() && tracker.view.segs != []
      modifies tracker
      ensures ok <==> SelectStep(old(tracker.view)).Some?
      ensures ok ==> tracker.Valid() && tracker.view == SelectStep(old(tracker.view)).value
    {
      ok := tracker.Pop(I32);
      if !ok {
        return;
      }
      var t0, t1;
      ok, t0 := tracker.PopAny();
      if !ok {
        return;
      }
      ok, t1 := tracker.PopAny();
      if !ok {
        return;
      }
      if !(t0 == t1 || t0 == Any || t1 == Any) {
        return false;
      }
      ok := tracker.Push(if t0 != Any then t0 else t1);
    }
  }
}

/** Declarative typing of structured instructions, as section 3.3 of the WebAssembly Core
    Specification 2.0 gives it, and soundness of the validation algorithm: every body the parser
    accepts is well typed. */
module Typing {
  import opened Wasm
  import opened Validator
  import opened Scopes
  import opened Bytecode
  import opened Source
  import opened Nesting
  import opened FrameSteps
  import Depths

  /** The results the labels around an instruction take, the innermost last. */
  type Labels = seq<Option<ValType>>

  function LabelAt(labels: Labels, l: nat): Option<ValType>
    requires l < |labels|
  {
    labels[|labels| - 1 - l]
  }

  /** Instruction `hd` takes operands of types `ins` to operands of types `outs`; what lies below
      the operands it uses stays. After an unconditional branch any operands may follow. */
  ghost predicate InstrHas(m: Module, fd: FuncDecl, labels: Labels, hd: Instr, ins: seq<ValType>, outs: seq<ValType>)
    decreases hd
  {
    match hd
    case Basic(t) =>
      if IsStraight(t) then StraightHas(m, fd, t, ins, outs)
      else IsBranch(t) && BranchHas(labels, t, ins, outs)
    case BlockI(bt, b) =>
      outs == ins + ResultTypes(bt) && CodeHas(m, fd, labels + [bt], b, [], ResultTypes(bt))
    case LoopI(bt, b) =>
      outs == ins + ResultTypes(bt) && CodeHas(m, fd, labels + [None], b, [], ResultTypes(bt))
    case IfI(bt, thn, _, els) =>
      && ins != [] && ins[|ins| - 1] == I32
      && outs == ins[..|ins| - 1] + ResultTypes(bt)
      && CodeHas(m, fd, labels + [bt], thn, [], ResultTypes(bt))
      && CodeHas(m, fd, labels + [bt], els, [], ResultTypes(bt))
  }

  ghost predicate CodeHas(m: Module, fd: FuncDecl, labels: Labels, c: Instrs, ins: seq<ValType>, outs: seq<ValType>)
    decreases c
  {
    match c
    case INil => ins == outs
    case ICons(hd, tl) =>
      exists mid: seq<ValType> :: InstrHas(m, fd, labels, hd, ins, mid) && CodeHas(m, fd, labels, tl, mid, outs)
  }

  /** `ins` and `outs` differ in these operands on top of a common rest. */
  ghost predicate Over(ins: seq<ValType>, args: seq<ValType>, outs: seq<ValType>, results: seq<ValType>) {
    exists base: seq<ValType> :: ins == base + args && outs == base + results
  }

  ghost predicate Ends(ins: seq<ValType>, args: seq<ValType>) {
    |args| <= |ins| && ins[|ins| - |args|..] == args
  }

  /** The types of section 3.3 for the instructions that transfer no control. Only a mutable global may
      be set. */
  ghost predicate PlainHas(globals: seq<GlobalType>, op: PlainOp, ins: seq<ValType>, outs: seq<ValType>) {
    match op
    case Nop => Over(ins, [], outs, [])
    case Const(VI32(_)) => Over(ins, [], outs, [I32])
    case Const(VI64(_)) => Over(ins, [], outs, [I64])
    case Const(VF32(_)) => Over(ins, [], outs, [F32])
    case Const(VF64(_)) => Over(ins, [], outs, [F64])
    case I32Eqz => Over(ins, [I32], outs, [I32])
    case I32LtU => Over(ins, [I32, I32], outs, [I32])
    case I32Add => Over(ins, [I32, I32], outs, [I32])
    case I32RemU => Over(ins, [I32, I32], outs, [I32])
    case I32WrapI64 => Over(ins, [I64], outs, [I32])
    case I64ExtendUI32 => Over(ins, [I32], outs, [I64])
    case GlobalGet(g) => g < |globals| && Over(ins, [], outs, [globals[g].content])
    case GlobalSet(g) => g < |globals| && globals[g].mutable && Over(ins, [globals[g].content], outs, [])
    case I32Load8U(_) => Over(ins, [I32], outs, [I32])
    case I32Store8(_) => Over(ins, [I32, I32], outs, [])
    case MemoryCopy => Over(ins, [I32, I32, I32], outs, [])
    case MemoryFill => Over(ins, [I32, I32, I32], outs, [])
    case TableCopy => Over(ins, [I32, I32, I32], outs, [])
  }

  /** The signatures of the parser are these types. */
  lemma SignatureIsType(globals: seq<GlobalType>, op: PlainOp, ins: seq<ValType>, outs: seq<ValType>)
    ensures PlainHas(globals, op, ins, outs) <==>
            PlainSig(globals, op).Some? &&
            Over(ins, PlainSig(globals, op).value.ins, outs, PlainSig(globals, op).value.outs)
  {
    hide Over;
  }

  ghost predicate StraightHas(m: Module, fd: FuncDecl, t: Token, ins: seq<ValType>, outs: seq<ValType>) {
    match t
    case Plain(op) => PlainHas(m.globals, op, ins, outs)
    case Unreachable => true
    case Drop => exists v: ValType :: Over(ins, [v], outs, [])
    case Select => exists v: ValType :: Over(ins, [v, v, I32], outs, [v])
    case LocalGet(i) => i < |LocalTypes(fd)| && Over(ins, [], outs, [LocalTypes(fd)[i]])
    case LocalSet(i) => i < |LocalTypes(fd)| && Over(ins, [LocalTypes(fd)[i]], outs, [])
    case LocalTee(i) => i < |LocalTypes(fd)| && Over(ins, [LocalTypes(fd)[i]], outs, [LocalTypes(fd)[i]])
    case Call(f) =>
      var ft := TypeOfFunc(m, f);
      ft.Some? && Over(ins, ft.value.params, outs, ResultTypes(ft.value.result))
    case _ => false
  }

  ghost predicate BranchHas(labels: Labels, t: Token, ins: seq<ValType>, outs: seq<ValType>) {
    match t
    case Br(l) => l < |labels| && Ends(ins, ResultTypes(LabelAt(labels, l)))
    case Return => labels != [] && Ends(ins, ResultTypes(labels[0]))
    case BrIf(l) =>
      && l < |labels|
      && var r := ResultTypes(LabelAt(labels, l));
      Over(ins, r + [I32], outs, r)
    case BrTable(ls, d) =>
      && d < |labels|
      && var r := LabelAt(labels, d);
      && Ends(ins, ResultTypes(r) + [I32])
      && forall j :: 0 <= j < |ls| ==> ls[j] < |labels| && LabelAt(labels, ls[j]) == r
    case _ => false
  }

  /** A body is well typed if it takes no operands to the results of its function. */
  ghost predicate WellTyped(m: Module, fd: FuncDecl, c: Instrs) {
    CodeHas(m, fd, [fd.ft.result], c, [], ResultTypes(fd.ft.result))
  }

  /** `ts` is one of the stacks a tracked scope stands for: operands of unknown type may have any
      type, and below an unreachable point any operands may lie. */
  predicate Fits(seg: Seg, ts: seq<ValType>) {
    && |seg.vals| <= |ts| && (!seg.unreachable ==> |seg.vals| == |ts|)
    && forall i {:trigger seg.vals[i]} :: 0 <= i < |seg.vals| ==> TagFits(seg.vals[i], ts[|ts| - |seg.vals| + i])
  }

  predicate TagFits(tag: Tag, t: ValType) {
    tag == Any || tag == Known(t)
  }

  /** Some stack always fits. */
  lemma SomeFit(seg: Seg) returns (ts: seq<ValType>)
    ensures Fits(seg, ts)
  {
    ts := seq(|seg.vals|, i requires 0 <= i < |seg.vals| => if seg.vals[i].Known? then seg.vals[i].t else I32);
  }

  lemma PopFits(o: Operands, t: ValType, base: seq<ValType>)
    requires PopType(o, t).Some? && Fits(Top(PopType(o, t).value), base)
    ensures o.segs != [] && Fits(Top(o), base + [t])
  {
  }

  lemma PopTagFits(o: Operands, t: ValType, base: seq<ValType>)
    requires PopTag(o).Some? && PopTag(o).value.rest.segs != []
    requires Fits(Top(PopTag(o).value.rest), base) && TagFits(PopTag(o).value.tag, t)
    ensures o.segs != [] && Fits(Top(o), base + [t])
  {
  }

  lemma PushFits(o: Operands, tag: Tag, ts: seq<ValType>)
    requires o.segs != [] && PushTag(o, tag).Some? && Fits(Top(PushTag(o, tag).value), ts)
    ensures ts != [] && Fits(Top(o), ts[..|ts| - 1]) && TagFits(tag, ts[|ts| - 1])
  {
    var vals := Top(o).vals + [tag];
    assert vals[|vals| - 1] == tag;
    forall i {:trigger Top(o).vals[i]} | 0 <= i < |Top(o).vals|
      ensures TagFits(Top(o).vals[i], ts[..|ts| - 1][|ts| - 1 - |Top(o).vals| + i])
    {
      assert vals[i] == Top(o).vals[i];
    }
  }

  lemma {:induction false} PopTypesFit(o: Operands, args: seq<ValType>, base: seq<ValType>)
    requires o.segs != [] && PopTypes(o, args).Some? && Fits(Top(PopTypes(o, args).value), base)
    ensures Fits(Top(o), base + args)
    decreases |args|
  {
    hide PopType, Fits;
    if args == [] {
      assert base + args == base;
    } else {
      var n := |args| - 1;
      var o' := PopType(o, args[n]).value;
      PopTypesFit(o', args[..n], base);
      PopFits(o, args[n], base + args[..n]);
      assert (base + args[..n]) + [args[n]] == base + args;
    }
  }

  lemma PushResultFits(o: Operands, t: Option<ValType>, ts: seq<ValType>) returns (base: seq<ValType>)
    requires o.segs != [] && PushResult(o, t).Some? && Fits(Top(PushResult(o, t).value), ts)
    ensures ts == base + ResultTypes(t) && Fits(Top(o), base)
  {
    if t.Some? {
      PushFits(o, Known(t.value), ts);
      base := ts[..|ts| - 1];
    } else {
      base := ts;
    }
  }

  /** What fits after constraining the top fits before, and has the type on top. */
  lemma TopFits(o: Operands, t: Option<ValType>, ts: seq<ValType>)
    requires o.segs != [] && TopType(o, t).Some? && Fits(Top(TopType(o, t).value), ts)
    ensures Fits(Top(o), ts) && Ends(ts, ResultTypes(t))
  {
    hide PopType, PushTag, Fits;
    if t.Some? {
      var o' := PopType(o, t.value).value;
      PushFits(o', Known(t.value), ts);
      PopFits(o, t.value, ts[..|ts| - 1]);
      assert ts == ts[..|ts| - 1] + [ts[|ts| - 1]];
    } else {
      assert ts[|ts|..] == [];
    }
  }

  lemma {:induction false} TargetsFit(s: State, ls: seq<nat>, c: nat, ts: seq<ValType>)
    requires |s.ctrls| == |s.ops.segs| && s.ctrls != [] && c <= |ls| && CheckTargets(s, ls, c).Some?
    requires Fits(Top(CheckTargets(s, ls, c).value.ops), ts)
    ensures Fits(Top(s.ops), ts)
    ensures forall j :: 0 <= j < c ==> Ends(ts, ResultTypes(LabelType(s.ctrls[|s.ctrls| - 1 - ls[j]])))
    decreases c
  {
    hide TopType, Fits, Ends, ResultTypes, LabelType;
    if c > 0 {
      var s' := CheckTargets(s, ls, c - 1).value;
      TopFits(s'.ops, LabelType(s'.ctrls[|s'.ctrls| - 1 - ls[c - 1]]), ts);
      TargetsFit(s, ls, c - 1, ts);
    }
  }

  function LabelsOf(ctrls: seq<Ctrl>): (r: Labels)
    ensures |r| == |ctrls|
  {
    seq(|ctrls|, i requires 0 <= i < |ctrls| => LabelType(ctrls[i]))
  }

  /** A straight instruction is typed for every stack that fits what the algorithm has after it. */
  lemma StraightTyped(m: Module, fd: FuncDecl, o: Operands, t: Token, outs: seq<ValType>) returns (ins: seq<ValType>)
    requires o.segs != [] && IsStraight(t) && StraightStep(m, fd, o, t).Some?
    requires Fits(Top(StraightStep(m, fd, o, t).value), outs)
    ensures Fits(Top(o), ins) && StraightHas(m, fd, t, ins, outs)
  {
    hide Fits, PopType, PopTag, PushTag, PopTypes, TopType, LocalTypes, PlainHas, PlainSig;
    match t
    case Plain(op) =>
      var sig := PlainSig(m.globals, op).value;
      var o' := PopTypes(o, sig.ins).value;
      var base := PushResultFits(o', if sig.outs == [] then None else Some(sig.outs[0]), outs);
      PopTypesFit(o, sig.ins, base);
      ins := base + sig.ins;
      assert outs == base + sig.outs;
      SignatureIsType(m.globals, op, ins, outs);
    case Call(f) =>
      var ft := TypeOfFunc(m, f).value;
      var base := PushResultFits(PopTypes(o, ft.params).value, ft.result, outs);
      PopTypesFit(o, ft.params, base);
      ins := base + ft.params;
    case Unreachable =>
      ins := SomeFit(Top(o));
    case Drop =>
      var tag := PopTag(o).value.tag;
      var v := if tag.Known? then tag.t else I32;
      PopTagFits(o, v, outs);
      ins := outs + [v];
      assert outs == outs + [] && Over(ins, [v], outs, []);
    case Select =>
      ins := SelectTyped(o, outs);
    case LocalGet(i) =>
      PushFits(o, Known(LocalTypes(fd)[i]), outs);
      ins := outs[..|outs| - 1];
      assert ins == ins + [] && outs == ins + [outs[|outs| - 1]];
      assert Over(ins, [], outs, [LocalTypes(fd)[i]]);
    case LocalSet(i) =>
      PopFits(o, LocalTypes(fd)[i], outs);
      ins := outs + [LocalTypes(fd)[i]];
      assert outs == outs + [] && Over(ins, [LocalTypes(fd)[i]], outs, []);
    case LocalTee(i) =>
      TopFits(o, Some(LocalTypes(fd)[i]), outs);
      ins := outs;
      assert outs == outs[..|outs| - 1] + [LocalTypes(fd)[i]];
  }

  lemma SelectTyped(o: Operands, outs: seq<ValType>) returns (ins: seq<ValType>)
    requires o.segs != [] && SelectStep(o).Some? && Fits(Top(SelectStep(o).value), outs)
    ensures Fits(Top(o), ins) && exists v: ValType :: Over(ins, [v, v, I32], outs, [v])
  {
    hide Fits, PopType, PopTag, PushTag;
    var o1 := PopType(o, I32).value;
    var p0 := PopTag(o1).value;
    var p1 := PopTag(p0.rest).value;
    PushFits(p1.rest, if p0.tag != Any then p0.tag else p1.tag, outs);
    var base, v := outs[..|outs| - 1], outs[|outs| - 1];
    PopTagFits(p0.rest, v, base);
    PopTagFits(o1, v, base + [v]);
    PopFits(o, I32, base + [v] + [v]);
    ins := base + [v] + [v] + [I32];
    assert ins == base + [v, v, I32] && outs == base + [v];
    assert Over(ins, [v, v, I32], outs, [v]);
  }

  lemma BranchTyped(s: State, t: Token, outs: seq<ValType>) returns (ins: seq<ValType>)
    requires IsBranch(t) && s.ctrls != [] && |s.ctrls| == |s.ops.segs| && BranchStep(s, t).Some?
    requires Fits(Top(BranchStep(s, t).value.ops), outs)
    ensures Fits(Top(s.ops), ins) && BranchHas(LabelsOf(s.ctrls), t, ins, outs)
  {
    hide Fits, PopType, CheckTargets;
    var s0 := BeforeBranch(s, t).value;
    var ls := Targets(s0, t);
    var s1 := CheckTargets(s0, ls, |ls|).value;
    var ts := outs;
    if !t.BrIf? {
      ts := SomeFit(Top(s1.ops));
    }
    TargetsFit(s0, ls, |ls|, ts);
    ins := ts;
    if t.BrIf? || t.BrTable? {
      PopFits(s.ops, I32, ts);
      ins := ts + [I32];
    }
    Branches(s, s0, t, ts, outs);
  }

  /** Every label finds its result on top. */
  lemma Branches(s: State, s0: State, t: Token, ts: seq<ValType>, outs: seq<ValType>)
    requires IsBranch(t) && s.ctrls != [] && s0.ctrls == s.ctrls && (t.BrIf? ==> outs == ts)
    requires forall j :: 0 <= j < |Targets(s0, t)| ==>
               Targets(s0, t)[j] < |s.ctrls| &&
                 Ends(ts, ResultTypes(LabelType(s.ctrls[|s.ctrls| - 1 - Targets(s0, t)[j]])))
    requires t.BrTable? ==> SameTypes(s.ctrls, Targets(s0, t))
    ensures BranchHas(LabelsOf(s.ctrls), t, if t.BrIf? || t.BrTable? then ts + [I32] else ts, outs)
  {
    hide Ends, Over, LabelType;
    var ls := Targets(s0, t);
    assert ls[0] < |s.ctrls|;
    EndsWithOperand(ts, ResultTypes(LabelType(s.ctrls[|s.ctrls| - 1 - ls[0]])));
    if t.BrTable? {
      TableTargets(s, t, ls);
    }
  }

  lemma EndsWithOperand(ts: seq<ValType>, r: seq<ValType>)
    requires Ends(ts, r)
    ensures Ends(ts + [I32], r + [I32]) && Over(ts + [I32], r + [I32], ts, r)
  {
    var base := ts[..|ts| - |r|];
    assert ts == base + r && ts + [I32] == base + (r + [I32]);
  }

  lemma TableTargets(s: State, t: Token, ls: seq<nat>)
    requires t.BrTable? && ls == t.targets + [t.default] && SameTypes(s.ctrls, ls)
    ensures t.default < |s.ctrls| && ls[0] < |s.ctrls|
    ensures LabelType(s.ctrls[|s.ctrls| - 1 - ls[0]]) == LabelAt(LabelsOf(s.ctrls), t.default)
    ensures forall j :: 0 <= j < |t.targets| ==>
              t.targets[j] < |s.ctrls| &&
                LabelAt(LabelsOf(s.ctrls), t.targets[j]) == LabelAt(LabelsOf(s.ctrls), t.default)
  {
    assert ls[|ls| - 1] == t.default;
    assert LabelType(s.ctrls[|s.ctrls| - 1 - ls[|ls| - 1]]) == LabelType(s.ctrls[|s.ctrls| - 1 - ls[0]]);
    forall j | 0 <= j < |t.targets|
      ensures t.targets[j] < |s.ctrls| &&
              LabelAt(LabelsOf(s.ctrls), t.targets[j]) == LabelAt(LabelsOf(s.ctrls), t.default)
    {
      assert ls[j] == t.targets[j];
    }
  }

  /** Typing of structured code from its tokens, backwards from what holds after it. */
  lemma {:induction false} CodeTyped(m: Module, fd: FuncDecl, i: nat, c: Instrs, outs: seq<ValType>)
    returns (ins: seq<ValType>)
    requires Accepts(m, fd) && CodeAt(fd.body, i, c) && i + Len(c) < |fd.body|
    requires StateFits(m, fd, i + Len(c), outs)
    ensures StateFits(m, fd, i, ins)
    ensures CodeHas(m, fd, LabelsOf(CtrlsAt(m, fd, i)), c, ins, outs)
    decreases c, 1
  {
    hide Run, Accepts, CtrlsAt, StateFits, InstrAt, CodeHas, InstrHas, LabelsOf, LenI;
    if c == INil {
      ins := outs;
      NothingTyped(m, fd, LabelsOf(CtrlsAt(m, fd, i)), outs);
    } else {
      BalancedInstr(m, fd, i, c.hd, -2);
      var mid := CodeTyped(m, fd, i + LenI(c.hd), c.tl, outs);
      ins := InstrTyped(m, fd, i, c.hd, mid);
      ConsTyped(m, fd, LabelsOf(CtrlsAt(m, fd, i)), c, ins, mid, outs);
    }
  }

  lemma NothingTyped(m: Module, fd: FuncDecl, labels: Labels, outs: seq<ValType>)
    ensures CodeHas(m, fd, labels, INil, outs, outs)
  {
  }

  lemma ConsTyped(m: Module, fd: FuncDecl, labels: Labels, c: Instrs, ins: seq<ValType>, mid: seq<ValType>,
      outs: seq<ValType>)
    requires c.ICons? && InstrHas(m, fd, labels, c.hd, ins, mid) && CodeHas(m, fd, labels, c.tl, mid, outs)
    ensures CodeHas(m, fd, labels, c, ins, outs)
  {
    hide InstrHas;
  }

  /** The innermost scope at `i` may hold the operands `ts`. */
  ghost predicate StateFits(m: Module, fd: FuncDecl, i: nat, ts: seq<ValType>) {
    i < |fd.body| && Run(m, fd, i).Some? && Run(m, fd, i).value.ctrls != [] && Fits(Top(Run(m, fd, i).value.ops), ts)
  }

  lemma {:induction false} InstrTyped(m: Module, fd: FuncDecl, i: nat, hd: Instr, outs: seq<ValType>)
    returns (ins: seq<ValType>)
    requires Accepts(m, fd) && InstrAt(fd.body, i, hd) && i + LenI(hd) < |fd.body|
    requires StateFits(m, fd, i + LenI(hd), outs)
    ensures StateFits(m, fd, i, ins)
    ensures InstrHas(m, fd, LabelsOf(CtrlsAt(m, fd, i)), hd, ins, outs)
    decreases hd, 1
  {
    hide Accepts, CtrlsAt, CodeHas, Len, StateFits, StraightHas, BranchHas, Run, CodeAt, EndOf, Close;
    if hd.Basic? {
      ins := BasicTyped(m, fd, i, hd.t, outs);
    } else {
      BalancedInstr(m, fd, i, hd, -2);
      OpensIs(fd.body, i, hd);
      LenPositive(hd);
      TokenStep(m, fd, i, -2);
      ins := ScopeTyped(m, fd, i, outs);
      if hd.IfI? {
        IfTyped(m, fd, i, hd);
      } else {
        BlockTyped(m, fd, i, hd);
      }
    }
  }

  lemma {:induction false} BlockTyped(m: Module, fd: FuncDecl, i: nat, hd: Instr)
    requires Accepts(m, fd) && InstrAt(fd.body, i, hd) && (hd.BlockI? || hd.LoopI?) && i + LenI(hd) < |fd.body|
    ensures CodeHas(m, fd, LabelsOf(CtrlsAt(m, fd, i)) + [if hd.LoopI? then None else hd.bt], hd.body, [],
            ResultTypes(hd.bt))
    decreases hd, 0
  {
    hide Accepts, CtrlsAt, CodeHas, Len, Run, CodeAt;
    TokenStep(m, fd, i, -2);
    FreshScope(m, fd, i);
    BodyTyped(m, fd, i + 1, hd.body, CtrlsAt(m, fd, i), Ctrl(i, KindOf(fd.body[i]), hd.bt));
  }

  lemma {:induction false} IfTyped(m: Module, fd: FuncDecl, i: nat, hd: Instr)
    requires Accepts(m, fd) && InstrAt(fd.body, i, hd) && hd.IfI? && i + LenI(hd) < |fd.body|
    ensures CodeHas(m, fd, LabelsOf(CtrlsAt(m, fd, i)) + [hd.bt], hd.thn, [], ResultTypes(hd.bt))
    ensures CodeHas(m, fd, LabelsOf(CtrlsAt(m, fd, i)) + [hd.bt], hd.els, [], ResultTypes(hd.bt))
    decreases hd, 0
  {
    hide Accepts, CtrlsAt, CodeHas, Len, Run, CodeAt;
    TokenStep(m, fd, i, -2);
    FreshScope(m, fd, i);
    BodyTyped(m, fd, i + 1, hd.thn, CtrlsAt(m, fd, i), Ctrl(i, ThenBody, hd.bt));
    ElseTyped(m, fd, i, hd, CtrlsAt(m, fd, i));
  }

  lemma OpensIs(body: seq<Token>, i: nat, hd: Instr)
    requires InstrAt(body, i, hd) && !hd.Basic?
    ensures i < |body| && Opens(body[i]) && body[i].bt == hd.bt && (body[i].If? <==> hd.IfI?)
  {
  }

  lemma LabelsMore(outer: seq<Ctrl>, c: Ctrl)
    ensures LabelsOf(outer + [c]) == LabelsOf(outer) + [LabelType(c)]
  {
  }

  lemma BasicTyped(m: Module, fd: FuncDecl, i: nat, t: Token, outs: seq<ValType>) returns (ins: seq<ValType>)
    requires Accepts(m, fd) && IsBasic(t) && TokenAt(fd.body, i, t) && StateFits(m, fd, i + 1, outs)
    ensures StateFits(m, fd, i, ins)
    ensures if IsStraight(t) then StraightHas(m, fd, t, ins, outs)
            else BranchHas(LabelsOf(CtrlsAt(m, fd, i)), t, ins, outs)
  {
    hide Accepts, Run, Fits, StraightStep, BranchStep, StraightHas, BranchHas;
    RunAll(m, fd, i);
    RunStep(m, fd, i);
    var s := Run(m, fd, i).value;
    if IsStraight(t) {
      ins := StraightTyped(m, fd, s.ops, t, outs);
    } else {
      ins := BranchTyped(s, t, outs);
    }
  }

  /** A scope takes its operands from the scope outside, and leaves its result there. */
  lemma ScopeTyped(m: Module, fd: FuncDecl, i: nat, outs: seq<ValType>) returns (ins: seq<ValType>)
    requires Accepts(m, fd) && i < |fd.body| && Opens(fd.body[i])
    requires EndOf(m, fd, i) + 1 < |fd.body| && StateFits(m, fd, EndOf(m, fd, i) + 1, outs)
    requires CtrlsAt(m, fd, EndOf(m, fd, i) + 1) == CtrlsAt(m, fd, i) != []
    ensures StateFits(m, fd, i, ins)
    ensures
      var r := ResultTypes(fd.body[i].bt);
      if fd.body[i].If? then ins != [] && ins[|ins| - 1] == I32 && outs == ins[..|ins| - 1] + r else outs == ins + r
  {
    hide Accepts, Run, Fits, EndOf, Step;
    var e := EndOf(m, fd, i);
    RunAll(m, fd, i);
    RunAll(m, fd, i + 1);
    RunAll(m, fd, e);
    RunStep(m, fd, e);
    var base := ScopeLeaves(m, fd, i, e, outs);
    ins := ScopeEntered(m, fd, i, base);
  }

  /** What lies outside the scope once its result is taken. */
  lemma ScopeLeaves(m: Module, fd: FuncDecl, i: nat, e: nat, outs: seq<ValType>) returns (base: seq<ValType>)
    requires Accepts(m, fd) && i < |fd.body| && Opens(fd.body[i]) && e == EndOf(m, fd, i) && e + 1 < |fd.body|
    requires StateFits(m, fd, e + 1, outs) && CtrlsAt(m, fd, e + 1) == CtrlsAt(m, fd, i) != []
    ensures Run(m, fd, i + 1).Some? && |Run(m, fd, i + 1).value.ops.segs| > 1
    ensures
      var segs := Run(m, fd, i + 1).value.ops.segs;
      outs == base + ResultTypes(fd.body[i].bt) && Fits(segs[|segs| - 2], base)
  {
    hide Accepts, Run, Fits, Step, FindClose;
    RunAll(m, fd, i);
    RunStep(m, fd, i);
    RunAll(m, fd, i + 1);
    RunAll(m, fd, e);
    RunStep(m, fd, e);
    ElseIsNotEnd(m, fd, i);
    var s := Run(m, fd, e).value;
    var k := |s.ctrls| - 1;
    StepShape(m, fd, s, fd.body[e], e);
    StepShape(m, fd, Run(m, fd, i).value, fd.body[i], i);
    assert s.ctrls[k].opener == i;
    ExpectedIs(m, fd, e, k);
    SegsAtOpener(m, fd, e, k);
    Depths.EndStepIs(m, fd, s, e);
    base := EndFits(s, outs);
  }

  lemma ExpectedIs(m: Module, fd: FuncDecl, n: nat, k: nat)
    requires n <= |fd.body| && Run(m, fd, n).Some? && k < |Run(m, fd, n).value.ctrls| &&
            Run(m, fd, n).value.ctrls[k].opener >= 0
    ensures
      var c := Run(m, fd, n).value.ctrls[k];
      0 <= c.opener < n && Opens(fd.body[c.opener]) && c.expected == fd.body[c.opener].bt
  {
    hide Run, FindClose, Close, EndOf;
    ScopesOk(m, fd, n, k);
  }

  lemma EndFits(s: State, outs: seq<ValType>) returns (base: seq<ValType>)
    requires |s.ctrls| == |s.ops.segs| > 1 && EndStep(s).Some? && Fits(Top(EndStep(s).value.ops), outs)
    ensures outs == base + ResultTypes(Last(s).expected) && Fits(s.ops.segs[|s.ops.segs| - 2], base)
  {
    hide PopType, Fits, PushTag;
    var c := Last(s).expected;
    var o := if c.Some? then PopType(s.ops, c.value).value else s.ops;
    var o' := o.(segs := o.segs[..|o.segs| - 1]);
    base := PushResultFits(o', c, outs);
    assert Top(o') == o.segs[..|o.segs| - 1][|o.segs| - 2] == s.ops.segs[..|s.ops.segs| - 1][|s.ops.segs| - 2];
  }

  lemma ScopeEntered(m: Module, fd: FuncDecl, i: nat, base: seq<ValType>) returns (ins: seq<ValType>)
    requires i < |fd.body| && Opens(fd.body[i]) && Run(m, fd, i).Some? && Run(m, fd, i).value.ctrls != []
    requires Run(m, fd, i + 1).Some? && |Run(m, fd, i + 1).value.ops.segs| > 1
    requires
      var segs := Run(m, fd, i + 1).value.ops.segs;
      Fits(segs[|segs| - 2], base)
    ensures StateFits(m, fd, i, ins)
    ensures if fd.body[i].If? then ins == base + [I32] else ins == base
  {
    hide Run, Fits, PopType;
    RunStep(m, fd, i);
    var s := Run(m, fd, i).value;
    ins := base;
    if fd.body[i].If? {
      PopFits(s.ops, I32, base);
      ins := base + [I32];
    }
  }

  /** A scope starts without operands. */
  lemma FreshScope(m: Module, fd: FuncDecl, i: nat)
    requires Accepts(m, fd) && i < |fd.body| && Opens(fd.body[i])
    ensures i + 1 < |fd.body| ==>
            Run(m, fd, i + 1).Some? && Run(m, fd, i + 1).value.ops.segs != [] &&
              Top(Run(m, fd, i + 1).value.ops) == Seg(false, [])
  {
    hide Accepts, Run, Step;
    RunAll(m, fd, i);
    RunAll(m, fd, i + 1);
    RunStep(m, fd, i);
    StepShape(m, fd, Run(m, fd, i).value, fd.body[i], i);
  }

  /** The code of one scope, from its start without operands to its result. */
  lemma {:induction false} BodyTyped(m: Module, fd: FuncDecl, j: nat, b: Instrs, outer: seq<Ctrl>, c: Ctrl)
    requires Accepts(m, fd) && CodeAt(fd.body, j, b) && j + Len(b) < |fd.body|
    requires fd.body[j + Len(b)].End? || fd.body[j + Len(b)].Else?
    requires CtrlsAt(m, fd, j) == outer + [c]
    requires Run(m, fd, j).Some? && Run(m, fd, j).value.ops.segs != [] && Top(Run(m, fd, j).value.ops) == Seg(false, [])
    ensures CodeHas(m, fd, LabelsOf(outer) + [LabelType(c)], b, [], ResultTypes(c.expected))
    decreases b, 2
  {
    hide Accepts, Run, CodeHas, FindClose;
    var e := j + Len(b);
    Balanced(m, fd, j, b, -2);
    RunAll(m, fd, e);
    CloseEmpties(m, fd, e);
    ClosingFits(Run(m, fd, e).value.ops, c.expected);
    var ins := CodeTyped(m, fd, j, b, ResultTypes(c.expected));
    assert ins == [];
    LabelsMore(outer, c);
  }

  lemma ClosingFits(o: Operands, expected: Option<ValType>)
    requires WithoutResult(o, expected).Some? && WithoutResult(o, expected).value.segs != []
    requires Top(WithoutResult(o, expected).value).vals == []
    ensures o.segs != [] && Fits(Top(o), ResultTypes(expected))
  {
    if expected.Some? {
      assert Fits(Top(PopType(o, expected.value).value), []);
      PopFits(o, expected.value, []);
      assert [] + [expected.value] == [expected.value];
    }
  }

  /** The second part of an `if`; without one there is no result. */
  lemma {:induction false} ElseTyped(m: Module, fd: FuncDecl, i: nat, hd: Instr, outer: seq<Ctrl>)
    requires Accepts(m, fd) && InstrAt(fd.body, i, hd) && hd.IfI? && i + LenI(hd) < |fd.body|
    requires outer == CtrlsAt(m, fd, i)
    ensures CodeHas(m, fd, LabelsOf(outer) + [hd.bt], hd.els, [], ResultTypes(hd.bt))
    decreases hd.els, 3
  {
    hide Accepts, Run, CodeHas, FindClose, CtrlsAt, Step, LabelsOf, CodeAt, EndOf, Close;
    var e := i + 1 + Len(hd.thn);
    TokenStep(m, fd, i, -2);
    Balanced(m, fd, i + 1, hd.thn, -2);
    TokenStep(m, fd, e, -2);
    RunAll(m, fd, e);
    IfCloses(m, fd, e);
    CtrlsOf(m, fd, e);
    if hd.hasElse {
      BodyTyped(m, fd, e + 1, hd.els, outer, Ctrl(i, ElseBody, hd.bt));
    } else {
      EmptyTyped(m, fd, LabelsOf(outer) + [hd.bt]);
    }
  }

  lemma EmptyTyped(m: Module, fd: FuncDecl, labels: Labels)
    ensures CodeHas(m, fd, labels, INil, [], [])
  {
  }

  /** Soundness of the validation algorithm: every accepted body is well typed. */
  lemma AcceptedIsWellTyped(m: Module, fd: FuncDecl, c: Instrs)
    requires Accepts(m, fd) && IsBody(fd.body, c)
    ensures WellTyped(m, fd, c)
  {
    hide Accepts, CodeHas, FindClose;
    BodyTyped(m, fd, 0, c, [], Ctrl(-1, FuncBody, fd.ft.result));
    assert LabelsOf([]) + [fd.ft.result] == [fd.ft.result];
  }
}

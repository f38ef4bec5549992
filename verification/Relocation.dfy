/** Relocation lists: which branch targets have been written while the parser is under way,
    and which are still waiting on an open scope. */
module Relocation {
  import opened Wasm
  import opened Validator
  import opened Scopes
  import opened Bytecode

  /** Where a branch target is stored: in an opcode, or in entry `j` of a branch table. */
  datatype SlotAddr = OpSlot(at: nat) | CaseSlot(at: nat, j: nat)

  /** The address of a backward label, or the targets to patch at the end of the scope. */
  datatype Reloc = LabelAt(target: nat) | Pending(slots: seq<SlotAddr>)

  /** An element of the parser's control stack. In an open `if` without `else`, the first
      pending slot is that of the `if` itself. */
  datatype PcElem = PcElem(
    operandDepth: nat, expected: Option<ValType>, labelResult: Option<ValType>, isIf: bool, reloc: Reloc)

  function PcOf(op: Opcode): nat {
    match op
    case OIf(pc) => pc
    case OElse(pc) => pc
    case OBr(_, pc) => pc
    case OBrIf(_, pc) => pc
    case _ => 0
  }

  predicate HasPc(op: Opcode) {
    op.OIf? || op.OElse? || op.OBr? || op.OBrIf?
  }

  function WithPc(op: Opcode, pc: nat): Opcode {
    match op
    case OIf(_) => OIf(pc)
    case OElse(_) => OElse(pc)
    case OBr(d, _) => OBr(d, pc)
    case OBrIf(d, _) => OBrIf(d, pc)
    case _ => op
  }

  predicate Writable(code: seq<Opcode>, s: SlotAddr) {
    s.at < |code| &&
    match s
    case OpSlot(at) => HasPc(code[at])
    case CaseSlot(at, j) => code[at].OBrTable? && j < |code[at].entries|
  }

  function PcAt(code: seq<Opcode>, s: SlotAddr): nat
    requires Writable(code, s)
  {
    match s
    case OpSlot(at) => PcOf(code[at])
    case CaseSlot(at, j) => code[at].entries[j].pc
  }

  function PatchOp(op: Opcode, s: SlotAddr, pc: nat): Opcode {
    match s
    case OpSlot(_) => WithPc(op, pc)
    case CaseSlot(_, j) =>
      if op.OBrTable? && j < |op.entries| then op.(entries := op.entries[j := op.entries[j].(pc := pc)]) else op
  }

  function Patch(code: seq<Opcode>, s: SlotAddr, pc: nat): (r: seq<Opcode>)
    ensures |r| == |code|
  {
    if s.at < |code| then code[s.at := PatchOp(code[s.at], s, pc)] else code
  }

  function PatchAll(code: seq<Opcode>, slots: seq<SlotAddr>, pc: nat): (r: seq<Opcode>)
    ensures |r| == |code|
  {
    if slots == [] then code
    else Patch(PatchAll(code, slots[..|slots| - 1], pc), slots[|slots| - 1], pc)
  }

  /** An opcode without its branch targets. */
  function Erase(op: Opcode): Opcode {
    match op
    case OBrTable(size, entries) =>
      OBrTable(size, seq(|entries|, j requires 0 <= j < |entries| => entries[j].(pc := 0)))
    case _ => WithPc(op, 0)
  }

  predicate SameShape(code: seq<Opcode>, other: seq<Opcode>) {
    |code| == |other| && forall a :: 0 <= a < |code| ==> Erase(code[a]) == Erase(other[a])
  }

  lemma PatchErase(op: Opcode, s: SlotAddr, pc: nat)
    ensures Erase(PatchOp(op, s, pc)) == Erase(op)
  {
    if s.CaseSlot? && op.OBrTable? && s.j < |op.entries| {
      var e := op.entries[s.j := op.entries[s.j].(pc := pc)];
      assert Erase(PatchOp(op, s, pc)).entries == Erase(op).entries;
    }
  }

  /** Patching one slot changes that slot's target and nothing else. */
  lemma PatchEffect(code: seq<Opcode>, s: SlotAddr, pc: nat, t: SlotAddr)
    ensures SameShape(Patch(code, s, pc), code)
    ensures Writable(Patch(code, s, pc), t) <==> Writable(code, t)
    ensures Writable(code, t) ==> PcAt(Patch(code, s, pc), t) == if t == s then pc else PcAt(code, t)
  {
    if s.at < |code| {
      PatchErase(code[s.at], s, pc);
    }
  }

  lemma {:induction false} PatchAllEffect(code: seq<Opcode>, slots: seq<SlotAddr>, pc: nat, t: SlotAddr)
    ensures SameShape(PatchAll(code, slots, pc), code)
    ensures Writable(PatchAll(code, slots, pc), t) <==> Writable(code, t)
    ensures Writable(code, t) ==> PcAt(PatchAll(code, slots, pc), t) == if t in slots then pc else PcAt(code, t)
    decreases |slots|
  {
    if slots != [] {
      var init := slots[..|slots| - 1];
      PatchAllEffect(code, init, pc, t);
      PatchEffect(PatchAll(code, init, pc), slots[|slots| - 1], pc, t);
      assert slots == init + [slots[|slots| - 1]];
    }
  }

  function SlotOf(m: Module, fd: FuncDecl, i: nat, j: nat): SlotAddr
    requires WellSized(m) && i < |fd.body|
  {
    if fd.body[i].BrTable? then CaseSlot(Addr(m, fd, i), j) else OpSlot(Addr(m, fd, i))
  }

  /** Targets of the instructions before `n`, and the first `c` targets of instruction `n`. */
  predicate Emitted(fd: FuncDecl, n: nat, c: nat, i: nat, j: nat) {
    i < |fd.body| && j < NumSlots(fd.body[i]) && (i < n || (i == n && j < c))
  }

  /** Target `j` of instruction `i` has been written if it is known, and otherwise waits in the
      list of the scope it belongs to, and in no other. */
  predicate SlotOk(m: Module, fd: FuncDecl, base: nat, n: nat, ctrls: seq<Ctrl>, code: seq<Opcode>, pcs: seq<PcElem>,
      i: nat, j: nat)
  {
    && WellSized(m)
    && |pcs| == |ctrls|
    && Inside(m, fd, i) && j < NumSlots(fd.body[i])
    && var a := SlotOf(m, fd, i, j);
    && Writable(code, a)
    && (Resolved(m, fd, i, j, n) ==> PcAt(code, a) == TargetPc(m, fd, base, i, j))
    && (forall k :: 0 <= k < |pcs| && pcs[k].reloc.Pending? ==>
          (a in pcs[k].reloc.slots <==> ctrls[k].opener == Owner(m, fd, i, j) && !Resolved(m, fd, i, j, n)))
  }

  ghost predicate AllSlotsOk(m: Module, fd: FuncDecl, base: nat, n: nat, c: nat, ctrls: seq<Ctrl>, code: seq<Opcode>,
      pcs: seq<PcElem>)
  {
    forall i: nat, j: nat {:trigger Emitted(fd, n, c, i, j)} :: Emitted(fd, n, c, i, j) ==>
      SlotOk(m, fd, base, n, ctrls, code, pcs, i, j)
  }

  /** A slot that exists already: before position `at`, or one of the first `c` targets there. */
  predicate Before(s: SlotAddr, at: nat, c: nat) {
    s.at < at || (s.at == at && (if s.CaseSlot? then s.j < c else 0 < c))
  }

  predicate ElemOk(m: Module, fd: FuncDecl, n: nat, c: nat, o: Operands, ctrl: Ctrl, e: PcElem, k: nat)
    requires WellSized(m) && n <= |fd.body| && k <= |o.segs|
  {
    && e.operandDepth == EntryDepth(o, k)
    && e.expected == ctrl.expected
    && e.labelResult == LabelType(ctrl)
    && e.isIf == ctrl.kind.ThenBody?
    && e.reloc.LabelAt? == ctrl.kind.LoopBody?
    && (e.reloc.LabelAt? ==> 0 <= ctrl.opener < |fd.body| && e.reloc.target == Addr(m, fd, ctrl.opener))
    && (e.reloc.Pending? ==> forall s :: s in e.reloc.slots ==> Before(s, Addr(m, fd, n), c))
    && (e.isIf ==>
          && 0 <= ctrl.opener < |fd.body|
          && e.reloc.slots != []
          && e.reloc.slots[0] == OpSlot(Addr(m, fd, ctrl.opener))
          && e.reloc.slots[0] !in e.reloc.slots[1..])
  }

  predicate ElemsOk(m: Module, fd: FuncDecl, n: nat, c: nat, s: State, pcs: seq<PcElem>)
    requires WellSized(m) && n <= |fd.body| && |s.ctrls| == |s.ops.segs|
  {
    |pcs| == |s.ctrls| &&
    forall k {:trigger pcs[k]} :: 0 <= k < |pcs| ==> ElemOk(m, fd, n, c, s.ops, s.ctrls[k], pcs[k], k)
  }

  /** A target that becomes known at `n` belongs to the scope whose `else` or `end` is there. */
  lemma ResolvedStep(m: Module, fd: FuncDecl, i: nat, j: nat, n: nat)
    requires n < |fd.body| && Run(m, fd, n).Some? && Inside(m, fd, i) && j < NumSlots(fd.body[i])
    ensures Resolved(m, fd, i, j, n + 1) <==> Resolved(m, fd, i, j, n) || ResolvedAt(m, fd, i, j) == n
    ensures ResolvedAt(m, fd, i, j) == n ==> IsClose(m, fd, Owner(m, fd, i, j), n)
  {
  }

  /** At the `else` or `end` of a scope exactly the right waiting targets become known. */
  lemma ResolvedByClose(m: Module, fd: FuncDecl, i: nat, j: nat, n: nat)
    requires n < |fd.body| && Run(m, fd, n + 1).Some? && Run(m, fd, n).Some?
    requires Inside(m, fd, n) && Inside(m, fd, i) && j < NumSlots(fd.body[i])
    requires fd.body[n].End? || fd.body[n].Else?
    requires Owner(m, fd, i, j) == Last(Run(m, fd, n).value).opener
    requires !Resolved(m, fd, i, j, n)
    ensures fd.body[n].End? ==> ResolvedAt(m, fd, i, j) == n && Dest(m, fd, i, j) == n
    ensures fd.body[n].Else? && fd.body[i].If? ==> ResolvedAt(m, fd, i, j) == n && Dest(m, fd, i, j) == n + 1
    ensures fd.body[n].Else? && !fd.body[i].If? ==> ResolvedAt(m, fd, i, j) != n
  {
    hide Step;
    var s := Run(m, fd, n).value;
    StepShape(m, fd, s, fd.body[n], n);
    ScopesOk(m, fd, n, |s.ctrls| - 1);
    var o := Last(s).opener;
    assert IsClose(m, fd, o, n);
    assert FindClose(m, fd, o, n) == n;
  }

  /** The relocation state after `n` instructions and the first `c` targets of the next one. */
  ghost predicate RelocOk(m: Module, fd: FuncDecl, base: nat, n: nat, c: nat, code: seq<Opcode>, pcs: seq<PcElem>) {
    && WellSized(m)
    && n <= |fd.body|
    && Run(m, fd, n).Some?
    && var s := Run(m, fd, n).value;
    && ElemsOk(m, fd, n, c, s, pcs)
    && AllSlotsOk(m, fd, base, n, c, s.ctrls, code, pcs)
  }

  lemma EntryDepthKept(o: Operands, r: Operands, k: nat)
    requires k <= |o.segs| && k <= |r.segs| && o.root == r.root
    requires forall j :: 0 <= j < k ==> r.segs[j] == o.segs[j]
    ensures EntryDepth(r, k) == EntryDepth(o, k)
  {
    assert r.segs[..k] == o.segs[..k];
  }

  lemma EmittedWidth(m: Module, t: Token)
    requires WellSized(m) && NumSlots(t) > 0
    ensures Width(m, t) > 0
  {
  }

  /** Code grows at its end; what is already there stays writable and keeps its targets. */
  lemma PrefixKept(code: seq<Opcode>, more: seq<Opcode>, a: SlotAddr)
    requires Writable(code, a)
    ensures Writable(code + more, a) && PcAt(code + more, a) == PcAt(code, a)
  {
  }

  /** An instruction that neither opens nor closes a scope, once its targets are recorded. */
  lemma Advance(m: Module, fd: FuncDecl, base: nat, n: nat, code: seq<Opcode>, more: seq<Opcode>, pcs: seq<PcElem>)
    requires n < |fd.body| && Run(m, fd, n + 1).Some?
    requires RelocOk(m, fd, base, n, NumSlots(fd.body[n]), code, pcs)
    requires !Opens(fd.body[n]) && !fd.body[n].End? && !fd.body[n].Else?
    ensures RelocOk(m, fd, base, n + 1, 0, code + more, pcs)
  {
    hide Step, Resolved, ResolvedAt, Owner, TargetPc;
    RunPrefix(m, fd, n, n + 1);
    var t := fd.body[n];
    var s, r := Run(m, fd, n).value, Run(m, fd, n + 1).value;
    StepShape(m, fd, s, t, n);
    if NumSlots(t) > 0 {
      EmittedWidth(m, t);
    }
    forall k {:trigger pcs[k]} | 0 <= k < |pcs|
      ensures ElemOk(m, fd, n + 1, 0, r.ops, r.ctrls[k], pcs[k], k)
    {
      assert ElemOk(m, fd, n, NumSlots(t), s.ops, s.ctrls[k], pcs[k], k);
      EntryDepthKept(s.ops, r.ops, k);
    }
    forall i: nat, j: nat {:trigger Emitted(fd, n + 1, 0, i, j)} | Emitted(fd, n + 1, 0, i, j)
      ensures SlotOk(m, fd, base, n + 1, r.ctrls, code + more, pcs, i, j)
    {
      assert Emitted(fd, n, NumSlots(t), i, j);
      assert SlotOk(m, fd, base, n, s.ctrls, code, pcs, i, j);
      ResolvedStep(m, fd, i, j, n);
      PrefixKept(code, more, SlotOf(m, fd, i, j));
    }
  }

  /** Two targets in different places have different addresses. */
  lemma SlotsDistinct(m: Module, fd: FuncDecl, i: nat, j: nat, n: nat, c: nat)
    requires WellSized(m) && n < |fd.body| && c < NumSlots(fd.body[n]) && Emitted(fd, n, c, i, j)
    ensures SlotOf(m, fd, i, j) != SlotOf(m, fd, n, c)
    ensures i < n ==> SlotOf(m, fd, i, j).at < Addr(m, fd, n)
  {
    if i < n {
      EmittedWidth(m, fd.body[i]);
      AddrMonotone(m, fd, i, n);
    }
  }

  /** Records the target of label `l` in the list of its scope, or writes it for a loop. */
  function WithSlot(base: nat, k: nat, a: SlotAddr, code: seq<Opcode>,
      pcs: seq<PcElem>): (r: (seq<Opcode>, seq<PcElem>))
    requires k < |pcs|
    ensures |r.0| == |code| && |r.1| == |pcs|
  {
    match pcs[k].reloc
    case LabelAt(target) => (Patch(code, a, base + target), pcs)
    case Pending(slots) => (code, pcs[k := pcs[k].(reloc := Pending(slots + [a]))])
  }

  lemma AddSlot(m: Module, fd: FuncDecl, base: nat, n: nat, c: nat, code: seq<Opcode>, pcs: seq<PcElem>)
    requires n < |fd.body| && RelocOk(m, fd, base, n, c, code, pcs)
    requires Run(m, fd, n).value.ctrls != [] && IsBranch(fd.body[n]) && c < NumSlots(fd.body[n])
    requires Targets(Run(m, fd, n).value, fd.body[n])[c] < |pcs|
    requires Writable(code, SlotOf(m, fd, n, c))
    ensures
      var k := |pcs| - 1 - Targets(Run(m, fd, n).value, fd.body[n])[c];
      var r := WithSlot(base, k, SlotOf(m, fd, n, c), code, pcs);
      RelocOk(m, fd, base, n, c + 1, r.0, r.1) && SameShape(r.0, code)
  {
    hide Step, Run, ResolvedAt, Resolved, Owner, SlotOk, ElemOk, SlotOf, Patch;
    var s := Run(m, fd, n).value;
    var k := |pcs| - 1 - Targets(s, fd.body[n])[c];
    var a := SlotOf(m, fd, n, c);
    var r := WithSlot(base, k, a, code, pcs);
    if pcs[k].reloc.LabelAt? {
      PatchEffect(code, a, base + pcs[k].reloc.target, a);
    }
    forall x {:trigger r.1[x]} | 0 <= x < |pcs|
      ensures ElemOk(m, fd, n, c + 1, s.ops, s.ctrls[x], r.1[x], x)
    {
      ElemKept(m, fd, n, c, s.ops, s.ctrls[x], pcs[x], x);
    }
    forall i: nat, j: nat {:trigger Emitted(fd, n, c + 1, i, j)} | Emitted(fd, n, c + 1, i, j)
      ensures SlotOk(m, fd, base, n, s.ctrls, r.0, r.1, i, j)
    {
      if i == n && j == c {
        SlotAdded(m, fd, base, n, c, code, pcs, k);
      } else {
        assert Emitted(fd, n, c, i, j);
        SlotUntouched(m, fd, base, n, c, s.ctrls, code, pcs, k, i, j);
      }
    }
  }

  lemma SlotUntouched(m: Module, fd: FuncDecl, base: nat, n: nat, c: nat, ctrls: seq<Ctrl>, code: seq<Opcode>,
      pcs: seq<PcElem>, k: nat, i: nat, j: nat)
    requires WellSized(m) && n < |fd.body| && c < NumSlots(fd.body[n]) && Emitted(fd, n, c, i, j) && k < |pcs|
    requires SlotOk(m, fd, base, n, ctrls, code, pcs, i, j)
    ensures
      var r := WithSlot(base, k, SlotOf(m, fd, n, c), code, pcs);
      SlotOk(m, fd, base, n, ctrls, r.0, r.1, i, j)
  {
    hide Step, ResolvedAt, Resolved, Owner, Run, Inside;
    var a := SlotOf(m, fd, n, c);
    SlotsDistinct(m, fd, i, j, n, c);
    if pcs[k].reloc.LabelAt? {
      PatchEffect(code, a, base + pcs[k].reloc.target, SlotOf(m, fd, i, j));
    }
  }

  /** A new slot keeps what is known of a control stack element, appended to it or not. */
  lemma ElemKept(m: Module, fd: FuncDecl, n: nat, c: nat, o: Operands, ctrl: Ctrl, e: PcElem, k: nat)
    requires WellSized(m) && n < |fd.body| && c < NumSlots(fd.body[n]) && k <= |o.segs| &&
            ElemOk(m, fd, n, c, o, ctrl, e, k)
    ensures ElemOk(m, fd, n, c + 1, o, ctrl, e, k)
    ensures e.reloc.Pending? ==>
              ElemOk(m, fd, n, c + 1, o, ctrl, e.(reloc := Pending(e.reloc.slots + [SlotOf(m, fd, n, c)])), k)
  {
    if e.isIf {
      var a := SlotOf(m, fd, n, c);
      assert (e.reloc.slots + [a])[1..] == e.reloc.slots[1..] + [a];
      assert e.reloc.slots[0] in e.reloc.slots;
    }
  }

  /** The scope of a label is open before the branch and known to be a loop or not. */
  lemma OwnerOfBranch(m: Module, fd: FuncDecl, n: nat, c: nat)
    requires Inside(m, fd, n) && IsBranch(fd.body[n]) && c < NumSlots(fd.body[n])
    requires Targets(Run(m, fd, n).value, fd.body[n])[c] < |Run(m, fd, n).value.ctrls|
    ensures
      var s := Run(m, fd, n).value;
      var k := |s.ctrls| - 1 - Targets(s, fd.body[n])[c];
      && Owner(m, fd, n, c) == s.ctrls[k].opener
      && (IsLoop(fd, s.ctrls[k].opener) <==> s.ctrls[k].kind.LoopBody?)
      && (Resolved(m, fd, n, c, n) <==> s.ctrls[k].kind.LoopBody?)
      && (forall x :: 0 <= x < |s.ctrls| && s.ctrls[x].opener == s.ctrls[k].opener ==> x == k)
  {
    hide Run, ScopeOk, EndOf, Close;
    var s := Run(m, fd, n).value;
    var k := |s.ctrls| - 1 - Targets(s, fd.body[n])[c];
    OpenScopeFacts(m, fd, n, k);
    OpenersDiffer(m, fd, n, k);
  }

  lemma OpenScopeFacts(m: Module, fd: FuncDecl, n: nat, k: nat)
    requires n <= |fd.body| && Run(m, fd, n).Some? && k < |Run(m, fd, n).value.ctrls|
    ensures
      var c := Run(m, fd, n).value.ctrls[k];
      && -1 <= c.opener < n
      && (IsLoop(fd, c.opener) <==> c.kind.LoopBody?)
      && EndOf(m, fd, c.opener) >= n
  {
    hide Run;
    ScopesOk(m, fd, n, k);
  }

  lemma OpenersDiffer(m: Module, fd: FuncDecl, n: nat, k: nat)
    requires n <= |fd.body| && Run(m, fd, n).Some? && k < |Run(m, fd, n).value.ctrls|
    ensures
      var ctrls := Run(m, fd, n).value.ctrls;
      forall x :: 0 <= x < |ctrls| && ctrls[x].opener == ctrls[k].opener ==> x == k
  {
    hide Run;
    var ctrls := Run(m, fd, n).value.ctrls;
    ScopesOk(m, fd, n, k);
    forall x | 0 <= x < |ctrls| && ctrls[x].opener == ctrls[k].opener
      ensures x == k
    {
      ScopesOk(m, fd, n, x);
    }
  }

  lemma SlotAdded(m: Module, fd: FuncDecl, base: nat, n: nat, c: nat, code: seq<Opcode>, pcs: seq<PcElem>, k: nat)
    requires n < |fd.body| && RelocOk(m, fd, base, n, c, code, pcs)
    requires Run(m, fd, n).value.ctrls != [] && IsBranch(fd.body[n]) && c < NumSlots(fd.body[n])
    requires Targets(Run(m, fd, n).value, fd.body[n])[c] < |pcs| &&
            k == |pcs| - 1 - Targets(Run(m, fd, n).value, fd.body[n])[c]
    requires Writable(code, SlotOf(m, fd, n, c))
    ensures
      var r := WithSlot(base, k, SlotOf(m, fd, n, c), code, pcs);
      SlotOk(m, fd, base, n, Run(m, fd, n).value.ctrls, r.0, r.1, n, c)
  {
    hide Step, ResolvedAt, Resolved, Owner;
    var s := Run(m, fd, n).value;
    var a := SlotOf(m, fd, n, c);
    var r := WithSlot(base, k, a, code, pcs);
    OwnerOfBranch(m, fd, n, c);
    assert ElemOk(m, fd, n, c, s.ops, s.ctrls[k], pcs[k], k);
    if pcs[k].reloc.LabelAt? {
      PatchEffect(code, a, base + pcs[k].reloc.target, a);
    }
    forall x | 0 <= x < |pcs| && pcs[x].reloc.Pending?
      ensures a !in pcs[x].reloc.slots
    {
      assert ElemOk(m, fd, n, c, s.ops, s.ctrls[x], pcs[x], x);
    }
  }

  /** The control stack element pushed for a `block`, `loop` or `if`. */
  function Opened(m: Module, fd: FuncDecl, n: nat, depth: nat): PcElem
    requires WellSized(m) && n < |fd.body| && Opens(fd.body[n])
  {
    var t := fd.body[n];
    PcElem(depth, t.bt, if t.Loop? then None else t.bt, t.If?,
           if t.Loop? then LabelAt(Addr(m, fd, n)) else if t.If? then Pending([OpSlot(Addr(m, fd, n))])
             else Pending([]))
  }

  lemma OpenScope(m: Module, fd: FuncDecl, base: nat, n: nat, code: seq<Opcode>, more: seq<Opcode>, pcs: seq<PcElem>)
    requires n < |fd.body| && Run(m, fd, n + 1).Some? && Opens(fd.body[n])
    requires RelocOk(m, fd, base, n, 0, code, pcs) && |code| == Addr(m, fd, n)
    requires |more| == Width(m, fd.body[n]) && (fd.body[n].If? ==> more[0].OIf?)
    ensures
      var r := Run(m, fd, n + 1).value;
      RelocOk(m, fd, base, n + 1, 0, code + more, pcs + [Opened(m, fd, n, EntryDepth(r.ops, |pcs|))])
  {
    hide Step, ResolvedAt, Resolved, Owner, TargetPc, SlotOk;
    RunPrefix(m, fd, n, n + 1);
    var s, r := Run(m, fd, n).value, Run(m, fd, n + 1).value;
    StepShape(m, fd, s, fd.body[n], n);
    var pcs' := pcs + [Opened(m, fd, n, EntryDepth(r.ops, |pcs|))];
    forall k {:trigger pcs'[k]} | 0 <= k < |pcs'|
      ensures ElemOk(m, fd, n + 1, 0, r.ops, r.ctrls[k], pcs'[k], k)
    {
      if k < |pcs| {
        assert ElemOk(m, fd, n, 0, s.ops, s.ctrls[k], pcs[k], k);
        EntryDepthKept(s.ops, r.ops, k);
      }
    }
    forall i: nat, j: nat {:trigger Emitted(fd, n + 1, 0, i, j)} | Emitted(fd, n + 1, 0, i, j)
      ensures SlotOk(m, fd, base, n + 1, r.ctrls, code + more, pcs', i, j)
    {
      if i < n {
        assert Emitted(fd, n, 0, i, j);
        SlotBeyondOpen(m, fd, base, n, code, more, pcs, i, j);
      } else {
        SlotOfIf(m, fd, base, n, code, more, pcs);
      }
    }
  }

  /** Earlier targets are not affected by a scope opened after them. */
  lemma SlotBeyondOpen(m: Module, fd: FuncDecl, base: nat, n: nat, code: seq<Opcode>, more: seq<Opcode>,
      pcs: seq<PcElem>, i: nat, j: nat)
    requires WellSized(m) && n < |fd.body| && Run(m, fd, n + 1).Some? && Run(m, fd, n).Some? && Opens(fd.body[n])
    requires i < n && j < NumSlots(fd.body[i])
    requires SlotOk(m, fd, base, n, Run(m, fd, n).value.ctrls, code, pcs, i, j)
    ensures
      var r := Run(m, fd, n + 1).value;
      |r.ops.segs| > |pcs| &&
      SlotOk(m, fd, base, n + 1, r.ctrls, code + more, pcs + [Opened(m, fd, n, EntryDepth(r.ops, |pcs|))], i, j)
  {
    hide Step, ResolvedAt, Resolved, TargetPc;
    StepShape(m, fd, Run(m, fd, n).value, fd.body[n], n);
    ResolvedStep(m, fd, i, j, n);
    PrefixKept(code, more, SlotOf(m, fd, i, j));
    EmittedWidth(m, fd.body[i]);
    AddrMonotone(m, fd, i, n);
  }

  /** The slot of a new `if` waits on the scope it opens. */
  lemma SlotOfIf(m: Module, fd: FuncDecl, base: nat, n: nat, code: seq<Opcode>, more: seq<Opcode>, pcs: seq<PcElem>)
    requires n < |fd.body| && Run(m, fd, n + 1).Some? && fd.body[n].If?
    requires RelocOk(m, fd, base, n, 0, code, pcs) && |code| == Addr(m, fd, n)
    requires |more| == 1 && more[0].OIf?
    ensures
      var r := Run(m, fd, n + 1).value;
      |r.ops.segs| > |pcs| &&
      SlotOk(m, fd, base, n + 1, r.ctrls, code + more, pcs + [Opened(m, fd, n, EntryDepth(r.ops, |pcs|))], n, 0)
  {
    hide Step;
    RunPrefix(m, fd, n, n + 1);
    var s := Run(m, fd, n).value;
    StepShape(m, fd, s, fd.body[n], n);
    ScopesAt(m, fd, n);
    forall x | 0 <= x < |pcs| && pcs[x].reloc.Pending?
      ensures OpSlot(Addr(m, fd, n)) !in pcs[x].reloc.slots
    {
      assert ElemOk(m, fd, n, 0, s.ops, s.ctrls[x], pcs[x], x);
    }
  }

  /** At an `else`: the `if` jumps here, and the slot of the `else` takes its place. */
  lemma ElseScope(m: Module, fd: FuncDecl, base: nat, n: nat, code: seq<Opcode>, op: Opcode, pcs: seq<PcElem>)
    requires n < |fd.body| && Run(m, fd, n + 1).Some? && fd.body[n].Else?
    requires RelocOk(m, fd, base, n, 0, code, pcs) && |code| == Addr(m, fd, n) && op.OElse?
    ensures pcs != [] && pcs[|pcs| - 1].isIf && pcs[|pcs| - 1].reloc.Pending? && pcs[|pcs| - 1].reloc.slots != []
    ensures
      var e := pcs[|pcs| - 1];
      RelocOk(m, fd, base, n + 1, 0, Patch(code + [op], e.reloc.slots[0], base + Addr(m, fd, n + 1)),
              pcs[|pcs| - 1 := e.(isIf := false, reloc := Pending(e.reloc.slots[0 := OpSlot(Addr(m, fd, n))]))])
  {
    hide Step, ResolvedAt, Resolved, Owner, TargetPc, SlotOk, Run, Patch, PatchAll;
    RunLast(m, fd, n);
    var s, r := Run(m, fd, n).value, Run(m, fd, n + 1).value;
    StepShape(m, fd, s, fd.body[n], n);
    var last := |pcs| - 1;
    var e := pcs[last];
    assert ElemOk(m, fd, n, 0, s.ops, s.ctrls[last], e, last);
    var e' := e.(isIf := false, reloc := Pending(e.reloc.slots[0 := OpSlot(Addr(m, fd, n))]));
    var pcs' := pcs[last := e'];
    var code' := Patch(code + [op], e.reloc.slots[0], base + Addr(m, fd, n + 1));
    forall k {:trigger pcs'[k]} | 0 <= k < |pcs'|
      ensures ElemOk(m, fd, n + 1, 0, r.ops, r.ctrls[k], pcs'[k], k)
    {
      assert ElemOk(m, fd, n, 0, s.ops, s.ctrls[k], pcs[k], k);
      EntryDepthKept(s.ops, r.ops, k);
      assert k != last ==> r.ctrls[k] == s.ctrls[k] && pcs'[k] == pcs[k];
      forall x | x in e'.reloc.slots
        ensures Before(x, Addr(m, fd, n + 1), 0)
      {
        assert x == OpSlot(Addr(m, fd, n)) || x in e.reloc.slots;
      }
    }
    forall i: nat, j: nat {:trigger Emitted(fd, n + 1, 0, i, j)} | Emitted(fd, n + 1, 0, i, j)
      ensures SlotOk(m, fd, base, n + 1, r.ctrls, code', pcs', i, j)
    {
      if i < n {
        assert Emitted(fd, n, 0, i, j);
        assert SlotOk(m, fd, base, n, s.ctrls, code, pcs, i, j);
        SlotAtElse(m, fd, base, n, code, op, pcs, i, j);
      } else {
        SlotOfElse(m, fd, base, n, code, op, pcs);
      }
    }
  }

  lemma SlotAtElse(m: Module, fd: FuncDecl, base: nat, n: nat, code: seq<Opcode>, op: Opcode, pcs: seq<PcElem>, i: nat,
      j: nat)
    requires WellSized(m) && n < |fd.body| && Run(m, fd, n + 1).Some? && Run(m, fd, n).Some? && fd.body[n].Else?
    requires i < n && j < NumSlots(fd.body[i]) && Run(m, fd, n).value.ctrls != [] && |code| == Addr(m, fd, n)
    requires SlotOk(m, fd, base, n, Run(m, fd, n).value.ctrls, code, pcs, i, j)
    requires ElemOk(m, fd, n, 0, Run(m, fd, n).value.ops, Last(Run(m, fd, n).value), pcs[|pcs| - 1], |pcs| - 1)
    requires pcs[|pcs| - 1].isIf && pcs[|pcs| - 1].reloc.Pending?
    ensures
      var e := pcs[|pcs| - 1];
      SlotOk(m, fd, base, n + 1, Run(m, fd, n + 1).value.ctrls,
        Patch(code + [op], e.reloc.slots[0], base + Addr(m, fd, n + 1)),
             pcs[|pcs| - 1 := e.(isIf := false, reloc := Pending(e.reloc.slots[0 := OpSlot(Addr(m, fd, n))]))], i, j)
  {
    hide Step, ResolvedAt, Resolved, Patch, PcAt, Writable, SlotOf, Owner, Run, ScopeOk, FindClose, Close, EndOf, Addr;
    var s := Run(m, fd, n).value;
    var e := pcs[|pcs| - 1];
    var a := SlotOf(m, fd, i, j);
    RunLast(m, fd, n);
    StepShape(m, fd, s, fd.body[n], n);
    ResolvedStep(m, fd, i, j, n);
    PrefixKept(code, [op], a);
    PatchEffect(code + [op], e.reloc.slots[0], base + Addr(m, fd, n + 1), a);
    SlotsBefore(m, fd, i, j, n);
    var slots' := e.reloc.slots[0 := OpSlot(Addr(m, fd, n))];
    assert slots' == [OpSlot(Addr(m, fd, n))] + e.reloc.slots[1..];
    assert e.reloc.slots == [e.reloc.slots[0]] + e.reloc.slots[1..];
    assert a in slots' <==> a in e.reloc.slots && a != e.reloc.slots[0];
    ScopesOk(m, fd, n, |pcs| - 1);
    OpenerBefore(m, fd, n, |pcs| - 1);
    OpenerKind(m, fd, n, |pcs| - 1);
    SlotOfOpener(m, fd, i, j, Last(s).opener);
    if Owner(m, fd, i, j) == Last(s).opener && !Resolved(m, fd, i, j, n) {
      ResolvedByClose(m, fd, i, j, n);
    }
    if a == e.reloc.slots[0] {
      assert a in e.reloc.slots;
    }
  }

  lemma SlotsBefore(m: Module, fd: FuncDecl, i: nat, j: nat, n: nat)
    requires WellSized(m) && i < n <= |fd.body| && j < NumSlots(fd.body[i])
    ensures SlotOf(m, fd, i, j).at < Addr(m, fd, n)
  {
    EmittedWidth(m, fd.body[i]);
    AddrMonotone(m, fd, i, n);
  }

  /** Only the `if` at `o` has the address its pending slot starts with. */
  lemma SlotOfOpener(m: Module, fd: FuncDecl, i: nat, j: nat, o: int)
    requires WellSized(m) && i < |fd.body| && j < NumSlots(fd.body[i]) && 0 <= o < |fd.body| && fd.body[o].If?
    ensures SlotOf(m, fd, i, j) == OpSlot(Addr(m, fd, o)) <==> i == o
  {
    EmittedWidth(m, fd.body[i]);
    EmittedWidth(m, fd.body[o]);
    if i < o {
      AddrMonotone(m, fd, i, o);
    } else if o < i {
      AddrMonotone(m, fd, o, i);
    }
  }

  lemma SlotOfElse(m: Module, fd: FuncDecl, base: nat, n: nat, code: seq<Opcode>, op: Opcode, pcs: seq<PcElem>)
    requires n < |fd.body| && Run(m, fd, n + 1).Some? && fd.body[n].Else?
    requires RelocOk(m, fd, base, n, 0, code, pcs) && |code| == Addr(m, fd, n) && op.OElse? && pcs != []
    requires pcs[|pcs| - 1].isIf && pcs[|pcs| - 1].reloc.Pending? && pcs[|pcs| - 1].reloc.slots != []
    ensures
      var e := pcs[|pcs| - 1];
      SlotOk(m, fd, base, n + 1, Run(m, fd, n + 1).value.ctrls,
        Patch(code + [op], e.reloc.slots[0], base + Addr(m, fd, n + 1)),
             pcs[|pcs| - 1 := e.(isIf := false, reloc := Pending(e.reloc.slots[0 := OpSlot(Addr(m, fd, n))]))], n, 0)
  {
    hide Step, Run, Patch, PatchOp, PatchAll, Resolved, Owner, PcAt, TargetPc;
    RunPrefix(m, fd, n, n + 1);
    var last := |pcs| - 1;
    var e := pcs[last];
    var a := OpSlot(Addr(m, fd, n));
    OwnerAtElse(m, fd, n);
    PatchEffect(code + [op], e.reloc.slots[0], base + Addr(m, fd, n + 1), a);
    assert e.reloc.slots[0 := a][0] == a;
    forall x | 0 <= x < |pcs| && pcs[x].reloc.Pending?
      ensures a !in pcs[x].reloc.slots
    {
      assert ElemOk(m, fd, n, 0, Run(m, fd, n).value.ops, Run(m, fd, n).value.ctrls[x], pcs[x], x);
    }
  }

  lemma OwnerAtElse(m: Module, fd: FuncDecl, n: nat)
    requires n < |fd.body| && Run(m, fd, n + 1).Some? && Run(m, fd, n).Some? && fd.body[n].Else?
    ensures
      var s, r := Run(m, fd, n).value, Run(m, fd, n + 1).value;
      && Inside(m, fd, n)
      && |r.ctrls| == |s.ctrls|
      && Owner(m, fd, n, 0) == Last(s).opener
      && !Resolved(m, fd, n, 0, n + 1)
      && (forall x :: 0 <= x < |s.ctrls| ==> r.ctrls[x].opener == s.ctrls[x].opener)
      && (forall x :: 0 <= x < |s.ctrls| && s.ctrls[x].opener == Last(s).opener ==> x == |s.ctrls| - 1)
  {
    hide Step;
    RunPrefix(m, fd, n, n + 1);
    var s := Run(m, fd, n).value;
    StepShape(m, fd, s, fd.body[n], n);
    ScopesOk(m, fd, n, |s.ctrls| - 1);
    assert IsClose(m, fd, Last(s).opener, n);
    assert FindClose(m, fd, Last(s).opener, n) == n;
  }

  /** At an `end`: every target waiting on the scope is patched to this position. */
  lemma EndScope(m: Module, fd: FuncDecl, base: nat, n: nat, code: seq<Opcode>, pcs: seq<PcElem>)
    requires n < |fd.body| && Run(m, fd, n + 1).Some? && fd.body[n].End?
    requires RelocOk(m, fd, base, n, 0, code, pcs)
    ensures pcs != []
    ensures
      var e := pcs[|pcs| - 1];
      var code' := if e.reloc.Pending? then PatchAll(code, e.reloc.slots, base + Addr(m, fd, n)) else code;
      RelocOk(m, fd, base, n + 1, 0, code', pcs[..|pcs| - 1]) && SameShape(code', code)
  {
    hide Step, ResolvedAt, Resolved, Owner, TargetPc, SlotOk, Run, Patch, PatchAll;
    RunLast(m, fd, n);
    var s, r := Run(m, fd, n).value, Run(m, fd, n + 1).value;
    StepShape(m, fd, s, fd.body[n], n);
    var last := |pcs| - 1;
    var e := pcs[last];
    var code' := if e.reloc.Pending? then PatchAll(code, e.reloc.slots, base + Addr(m, fd, n)) else code;
    if e.reloc.Pending? {
      PatchAllEffect(code, e.reloc.slots, base + Addr(m, fd, n), OpSlot(0));
    }
    forall k {:trigger pcs[..last][k]} | 0 <= k < last
      ensures ElemOk(m, fd, n + 1, 0, r.ops, r.ctrls[k], pcs[..last][k], k)
    {
      assert ElemOk(m, fd, n, 0, s.ops, s.ctrls[k], pcs[k], k);
      EntryDepthKept(s.ops, r.ops, k);
    }
    forall i: nat, j: nat {:trigger Emitted(fd, n + 1, 0, i, j)} | Emitted(fd, n + 1, 0, i, j)
      ensures SlotOk(m, fd, base, n + 1, r.ctrls, code', pcs[..last], i, j)
    {
      assert Emitted(fd, n, 0, i, j);
      assert SlotOk(m, fd, base, n, s.ctrls, code, pcs, i, j);
      assert ElemOk(m, fd, n, 0, s.ops, s.ctrls[last], e, last);
      SlotAtEnd(m, fd, base, n, code, pcs, i, j);
    }
  }

  lemma SlotAtEnd(m: Module, fd: FuncDecl, base: nat, n: nat, code: seq<Opcode>, pcs: seq<PcElem>, i: nat, j: nat)
    requires WellSized(m) && n < |fd.body| && Run(m, fd, n + 1).Some? && Run(m, fd, n).Some? && fd.body[n].End?
    requires i < n && j < NumSlots(fd.body[i]) && Run(m, fd, n).value.ctrls != []
    requires SlotOk(m, fd, base, n, Run(m, fd, n).value.ctrls, code, pcs, i, j)
    requires ElemOk(m, fd, n, 0, Run(m, fd, n).value.ops, Last(Run(m, fd, n).value), pcs[|pcs| - 1], |pcs| - 1)
    ensures
      var e := pcs[|pcs| - 1];
      var code' := if e.reloc.Pending? then PatchAll(code, e.reloc.slots, base + Addr(m, fd, n)) else code;
      SlotOk(m, fd, base, n + 1, Run(m, fd, n + 1).value.ctrls, code', pcs[..|pcs| - 1], i, j)
  {
    hide Step, ResolvedAt, Patch, PatchAll, PcAt, Writable, SlotOf, Owner, Run, ScopeOk, FindClose, Close, EndOf, Addr;
    var s := Run(m, fd, n).value;
    var last := |pcs| - 1;
    var e := pcs[last];
    var a := SlotOf(m, fd, i, j);
    RunLast(m, fd, n);
    StepShape(m, fd, s, fd.body[n], n);
    ResolvedStep(m, fd, i, j, n);
    ScopesOk(m, fd, n, last);
    if e.reloc.Pending? {
      PatchAllEffect(code, e.reloc.slots, base + Addr(m, fd, n), a);
    }
    if Owner(m, fd, i, j) == Last(s).opener && !Resolved(m, fd, i, j, n) {
      ResolvedByClose(m, fd, i, j, n);
    }
    assert forall k :: 0 <= k < last ==> pcs[..last][k] == pcs[k] && Run(m, fd, n + 1).value.ctrls[k] == s.ctrls[k];
    OpenerBefore(m, fd, n, last);
    OpenerKind(m, fd, n, last);
  }

  /** Relocations do not care how the rest of the code changes. */
  lemma RelocSame(m: Module, fd: FuncDecl, base: nat, n: nat, c: nat, code: seq<Opcode>, code': seq<Opcode>,
      pcs: seq<PcElem>)
    requires RelocOk(m, fd, base, n, c, code, pcs)
    requires forall a: SlotAddr {:trigger Writable(code, a)} :: Writable(code, a) ==>
            Writable(code', a) && PcAt(code', a) == PcAt(code, a)
    ensures RelocOk(m, fd, base, n, c, code', pcs)
  {
    hide Step, Run, Resolved, Owner, Writable, PcAt, TargetPc, ElemOk;
    var s := Run(m, fd, n).value;
    forall i: nat, j: nat {:trigger Emitted(fd, n, c, i, j)} | Emitted(fd, n, c, i, j)
      ensures SlotOk(m, fd, base, n, s.ctrls, code', pcs, i, j)
    {
      assert SlotOk(m, fd, base, n, s.ctrls, code, pcs, i, j);
    }
  }

  lemma RelocExtended(m: Module, fd: FuncDecl, base: nat, n: nat, c: nat, code: seq<Opcode>, more: seq<Opcode>,
      pcs: seq<PcElem>)
    requires RelocOk(m, fd, base, n, c, code, pcs)
    ensures RelocOk(m, fd, base, n, c, code + more, pcs)
  {
    hide RelocOk;
    forall a: SlotAddr {:trigger Writable(code, a)} | Writable(code, a)
      ensures Writable(code + more, a) && PcAt(code + more, a) == PcAt(code, a)
    {
      PrefixKept(code, more, a);
    }
    RelocSame(m, fd, base, n, c, code, code + more, pcs);
  }
}

/** Where branches go: every target is the structured continuation of its label, and there is an
    opcode to dispatch there. */
module BranchTargets {
  import opened Wasm
  import opened Validator
  import opened Scopes
  import opened Bytecode
  import opened FrameSteps
  import Nesting
  import Relocation
  import Patched

  predicate Dispatchable(op: Opcode) {
    !op.OTableData? && !op.OError?
  }

  /** At the address of any instruction of an accepted body, and at the end of the body, stands
      an opcode; never a slot of branch table data. */
  lemma {:induction false} OpcodeAt(m: Module, fd: FuncDecl, base: nat, d: nat)
    requires WellSized(m) && Accepts(m, fd) && d <= |fd.body|
    ensures Addr(m, fd, d) < FuncSize(m, fd)
    ensures Dispatchable(FuncCode(m, fd, base)[Addr(m, fd, d)])
    decreases |fd.body| - d
  {
    hide Run, Accepts;
    var n := |fd.body|;
    Nesting.RunAll(m, fd, n);
    AddrMonotone(m, fd, d, n);
    if d < n {
      if Width(m, fd.body[d]) == 0 {
        assert Addr(m, fd, d + 1) == Addr(m, fd, d);
        OpcodeAt(m, fd, base, d + 1);
      } else {
        CodeHolds(m, fd, base, n, d);
        FirstOpcode(m, fd, base, d);
        var a := Addr(m, fd, d);
        assert Code(m, fd, base, n)[a] == Code(m, fd, base, n)[a..a + Width(m, fd.body[d])][0];
      }
    }
  }

  lemma FirstOpcode(m: Module, fd: FuncDecl, base: nat, i: nat)
    requires WellSized(m) && Inside(m, fd, i) && Width(m, fd.body[i]) > 0
    ensures Dispatchable(Emit(m, fd, base, i)[0])
  {
    hide Run, TargetPc, JumpInfo;
  }

  /** Every branch target of the finished code lies in the same function, and on an opcode. */
  lemma TargetsLand(m: Module, fd: FuncDecl, base: nat, i: nat, j: nat)
    requires WellSized(m) && Accepts(m, fd) && i < |fd.body| && j < NumSlots(fd.body[i])
    ensures Inside(m, fd, i)
    ensures
      var target := TargetPc(m, fd, base, i, j);
      && base <= target < base + FuncSize(m, fd)
      && Dispatchable(FuncCode(m, fd, base)[target - base])
  {
    hide Run, Accepts, FuncCode, Dest;
    Nesting.RunAll(m, fd, i);
    OpcodeAt(m, fd, base, Dest(m, fd, i, j));
  }

  /** Branch target `j` of a branch goes where its label continues: to the start of a loop, and
      otherwise to the `end` at which that very scope is the innermost one. */
  lemma TargetIsContinuation(m: Module, fd: FuncDecl, base: nat, i: nat, j: nat)
    requires WellSized(m) && Accepts(m, fd) && i < |fd.body| && IsBranch(fd.body[i]) && j < NumSlots(fd.body[i])
    ensures Inside(m, fd, i)
    ensures
      var s := Run(m, fd, i).value;
      && |Targets(s, fd.body[i])| == NumSlots(fd.body[i])
      && var l := Targets(s, fd.body[i])[j];
      && l < |s.ctrls|
      && var k := |s.ctrls| - 1 - l;
      && var c := s.ctrls[k];
      && (c.kind.LoopBody? ==>
            && 0 <= c.opener < i && fd.body[c.opener].Loop?
            && TargetPc(m, fd, base, i, j) == base + Addr(m, fd, c.opener))
      && (!c.kind.LoopBody? ==>
            exists e: nat ::
              && i < e < |fd.body| && fd.body[e].End? && Run(m, fd, e).Some?
              && |Run(m, fd, e).value.ctrls| == k + 1
              && Last(Run(m, fd, e).value).opener == c.opener
              && TargetPc(m, fd, base, i, j) == base + Addr(m, fd, e))
  {
    hide Run, Accepts, ScopeOk, Close;
    Nesting.RunAll(m, fd, i);
    LabelsExist(m, fd, i);
    var s := Run(m, fd, i).value;
    var k := |s.ctrls| - 1 - Targets(s, fd.body[i])[j];
    Relocation.OwnerOfBranch(m, fd, i, j);
    Relocation.OpenScopeFacts(m, fd, i, k);
    if !s.ctrls[k].kind.LoopBody? {
      Patched.ScopeCloses(m, fd, i, k);
      ScopeAtEnd(m, fd, i, k);
      NotItsOwnEnd(m, fd, i, s.ctrls[k].opener);
    }
  }

  /** An untaken `if` goes on after its own `else`, or at its own `end` if it has none. */
  lemma IfTargetIs(m: Module, fd: FuncDecl, base: nat, i: nat)
    requires WellSized(m) && Accepts(m, fd) && i < |fd.body| && fd.body[i].If?
    ensures Inside(m, fd, i)
    ensures
      exists c: nat ::
        && i < c < |fd.body| && IsClose(m, fd, i, c) && (forall x :: i < x < c ==> !IsClose(m, fd, i, x))
        && TargetPc(m, fd, base, i, 0) == base + Addr(m, fd, if fd.body[c].Else? then c + 1 else c)
  {
    hide Run, Step, Accepts, ScopeOk, Addr, IsClose;
    Nesting.RunAll(m, fd, i);
    Nesting.RunAll(m, fd, i + 1);
    var s := Run(m, fd, i).value;
    RunStep(m, fd, i);
    StepShape(m, fd, s, fd.body[i], i);
    Patched.ScopeCloses(m, fd, i + 1, |s.ctrls|);
    assert IsClose(m, fd, i, Close(m, fd, i));
  }

  /** The `then` part of an `if` with an `else` jumps to the `end` of both. */
  lemma ElseTargetIs(m: Module, fd: FuncDecl, base: nat, i: nat)
    requires WellSized(m) && Accepts(m, fd) && i < |fd.body| && fd.body[i].Else?
    ensures Inside(m, fd, i)
    ensures
      exists e: nat ::
        && i < e < |fd.body| && fd.body[e].End? && IsClose(m, fd, Last(Run(m, fd, i).value).opener, e)
        && TargetPc(m, fd, base, i, 0) == base + Addr(m, fd, e)
  {
    hide Run, Step, Accepts, ScopeOk, Addr, IsClose, FindClose, Close, EndOf;
    Nesting.RunAll(m, fd, i);
    Nesting.RunAll(m, fd, i + 1);
    var s := Run(m, fd, i).value;
    var k := |s.ctrls| - 1;
    RunStep(m, fd, i);
    StepShape(m, fd, s, fd.body[i], i);
    Relocation.OpenScopeFacts(m, fd, i, k);
    Patched.ScopeCloses(m, fd, i, k);
    ScopeAtEnd(m, fd, i, k);
    assert IsClose(m, fd, s.ctrls[k].opener, EndOf(m, fd, s.ctrls[k].opener));
  }

  lemma LabelsExist(m: Module, fd: FuncDecl, i: nat)
    requires Accepts(m, fd) && i < |fd.body| && IsBranch(fd.body[i]) && Inside(m, fd, i)
    ensures
      var s := Run(m, fd, i).value;
      && |Targets(s, fd.body[i])| == NumSlots(fd.body[i])
      && forall j :: 0 <= j < NumSlots(fd.body[i]) ==> Targets(s, fd.body[i])[j] < |s.ctrls|
  {
    hide Run, Accepts, CheckTargets, PopType, SameTypes;
    var s := Run(m, fd, i).value;
    Nesting.RunAll(m, fd, i + 1);
    RunStep(m, fd, i);
    var s0 := BeforeBranch(s, fd.body[i]).value;
    assert CheckTargets(s0, Targets(s0, fd.body[i]), |Targets(s0, fd.body[i])|).Some?;
  }

  lemma NotItsOwnEnd(m: Module, fd: FuncDecl, i: nat, o: int)
    requires i < |fd.body| && IsBranch(fd.body[i]) && -1 <= o < |fd.body| && EndOf(m, fd, o) < |fd.body|
    ensures EndOf(m, fd, o) != i
  {
  }
}

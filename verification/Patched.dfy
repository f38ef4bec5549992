/** When every scope is closed no relocation is left, and the patched code is the code the
    structure of the body calls for. */
module Patched {
  import opened Wasm
  import opened Validator
  import opened Scopes
  import opened Bytecode
  import opened Relocation

  /** A scope that is open somewhere in an accepted body has an `end`. */
  lemma {:induction false} ScopeCloses(m: Module, fd: FuncDecl, n: nat, k: nat)
    requires Accepts(m, fd) && n <= |fd.body| && Run(m, fd, n).Some?
    requires k < |Run(m, fd, n).value.ctrls|
    ensures -1 <= Run(m, fd, n).value.ctrls[k].opener < |fd.body|
    ensures EndOf(m, fd, Run(m, fd, n).value.ctrls[k].opener) < |fd.body|
    decreases |fd.body| - n
  {
    hide Step;
    ScopesAt(m, fd, n);
    assert n < |fd.body|;
    RunPrefix(m, fd, n + 1, |fd.body|);
    var s := Run(m, fd, n).value;
    StepShape(m, fd, s, fd.body[n], n);
    if fd.body[n].End? && k == |s.ctrls| - 1 {
      assert ScopeOk(m, fd, n, k);
      assert IsClose(m, fd, Last(s).opener, n);
      assert FindClose(m, fd, Last(s).opener, n) == n;
    } else {
      ScopeCloses(m, fd, n + 1, k);
    }
  }

  lemma AllResolved(m: Module, fd: FuncDecl, i: nat, j: nat)
    requires Accepts(m, fd) && i < |fd.body| && j < NumSlots(fd.body[i])
    requires Inside(m, fd, i)
    ensures Resolved(m, fd, i, j, |fd.body|)
  {
    hide Step, FindClose, IsClose, Run;
    var t := fd.body[i];
    RunPrefix(m, fd, i + 1, |fd.body|);
    RunLast(m, fd, i);
    var s := Run(m, fd, i).value;
    StepShape(m, fd, s, t, i);
    if t.If? {
      ScopeCloses(m, fd, i + 1, |s.ctrls|);
    } else if t.Else? {
      ScopeCloses(m, fd, i, |s.ctrls| - 1);
    } else if Targets(s, t)[j] < |s.ctrls| {
      ScopeCloses(m, fd, i, |s.ctrls| - 1 - Targets(s, t)[j]);
    } else {
      StartsOpen(m, fd);
      ScopeCloses(m, fd, 0, 0);
    }
  }

  lemma StartsOpen(m: Module, fd: FuncDecl)
    ensures Run(m, fd, 0).Some? && |Run(m, fd, 0).value.ctrls| == 1 && Run(m, fd, 0).value.ctrls[0].opener == -1
  {
  }

  /** Every target of the first `n` instructions is in place. */
  ghost predicate TargetsIn(m: Module, fd: FuncDecl, base: nat, n: nat, code: seq<Opcode>)
    requires WellSized(m)
  {
    forall i: nat, j: nat {:trigger Emitted(fd, n, 0, i, j)} :: Emitted(fd, n, 0, i, j) ==>
      Inside(m, fd, i) && Writable(code, SlotOf(m, fd, i, j)) &&
      PcAt(code, SlotOf(m, fd, i, j)) == TargetPc(m, fd, base, i, j)
  }

  lemma TargetsInInit(m: Module, fd: FuncDecl, base: nat, n: nat, code: seq<Opcode>)
    requires WellSized(m) && 0 < n <= |fd.body| && TargetsIn(m, fd, base, n, code)
    requires Addr(m, fd, n - 1) <= |code|
    ensures TargetsIn(m, fd, base, n - 1, code[..Addr(m, fd, n - 1)])
  {
    hide TargetPc, Run, Addr, SlotOf;
    var init := code[..Addr(m, fd, n - 1)];
    forall i: nat, j: nat {:trigger Emitted(fd, n - 1, 0, i, j)} | Emitted(fd, n - 1, 0, i, j)
      ensures Inside(m, fd, i) && Writable(init, SlotOf(m, fd, i, j))
      ensures PcAt(init, SlotOf(m, fd, i, j)) == TargetPc(m, fd, base, i, j)
    {
      assert Emitted(fd, n, 0, i, j);
      SlotsBefore(m, fd, i, j, n - 1);
    }
  }

  lemma ShapeSplits(code: seq<Opcode>, init: seq<Opcode>, ops: seq<Opcode>)
    requires SameShape(code, init + ops)
    ensures SameShape(code[..|init|], init) && SameShape(code[|init|..], ops)
  {
    hide Erase;
    forall x | 0 <= x < |init|
      ensures Erase(code[..|init|][x]) == Erase(init[x])
    {
      assert (init + ops)[x] == init[x];
    }
    forall x | 0 <= x < |ops|
      ensures Erase(code[|init|..][x]) == Erase(ops[x])
    {
      assert (init + ops)[|init| + x] == ops[x];
    }
  }

  /** The opcodes of the last of `n` instructions. */
  lemma LastDetermined(m: Module, fd: FuncDecl, base: nat, n: nat, code: seq<Opcode>)
    requires WellSized(m) && n < |fd.body| && Inside(m, fd, n) && Addr(m, fd, n) <= |code|
    requires SameShape(code[Addr(m, fd, n)..], Emit(m, fd, base, n)) && TargetsIn(m, fd, base, n + 1, code)
    ensures code[Addr(m, fd, n)..] == Emit(m, fd, base, n)
  {
    hide Emit, TargetPc, Erase, Run, Addr;
    var a := Addr(m, fd, n);
    forall x | 0 <= x < |code| - a
      ensures code[a..][x] == Emit(m, fd, base, n)[x]
    {
      assert Erase(code[a..][x]) == Erase(Emit(m, fd, base, n)[x]);
      OpcodeDetermined(m, fd, base, n, code, x);
    }
  }

  /** Opcodes of the right shape with every target in place are the expected opcodes. */
  lemma {:induction false} CodeDetermined(m: Module, fd: FuncDecl, base: nat, n: nat, code: seq<Opcode>)
    requires WellSized(m) && n <= |fd.body| && Run(m, fd, n).Some?
    requires SameShape(code, Code(m, fd, base, n)) && TargetsIn(m, fd, base, n, code)
    ensures code == Code(m, fd, base, n)
    decreases n
  {
    hide Step, Emit, TargetsIn, SameShape;
    if n > 0 {
      RunPrefix(m, fd, n - 1, n);
      var a := Addr(m, fd, n - 1);
      assert Code(m, fd, base, n) == Code(m, fd, base, n - 1) + Emit(m, fd, base, n - 1);
      SameLength(code, Code(m, fd, base, n));
      ShapeSplits(code, Code(m, fd, base, n - 1), Emit(m, fd, base, n - 1));
      TargetsInInit(m, fd, base, n, code);
      CodeDetermined(m, fd, base, n - 1, code[..a]);
      LastDetermined(m, fd, base, n - 1, code);
      assert code == code[..a] + code[a..];
    } else {
      SameLength(code, []);
    }
  }

  lemma SameLength(code: seq<Opcode>, other: seq<Opcode>)
    requires SameShape(code, other)
    ensures |code| == |other|
  {
  }

  lemma OpcodeDetermined(m: Module, fd: FuncDecl, base: nat, i: nat, code: seq<Opcode>, x: nat)
    requires WellSized(m) && Inside(m, fd, i) && x < Width(m, fd.body[i])
    requires Addr(m, fd, i) + x < |code|
    requires Erase(code[Addr(m, fd, i) + x]) == Erase(Emit(m, fd, base, i)[x])
    requires forall j: nat {:trigger Emitted(fd, i + 1, 0, i, j)} :: Emitted(fd, i + 1, 0, i, j) ==>
               Writable(code, SlotOf(m, fd, i, j)) && PcAt(code, SlotOf(m, fd, i, j)) == TargetPc(m, fd, base, i, j)
    ensures code[Addr(m, fd, i) + x] == Emit(m, fd, base, i)[x]
  {
    hide Step, TargetPc, JumpInfo, Owner, Run;
    var a := Addr(m, fd, i);
    var want := Emit(m, fd, base, i)[x];
    if HasPc(want) {
      assert Emitted(fd, i + 1, 0, i, 0);
    } else if want.OBrTable? {
      var got := code[a + x];
      assert x == 0 && got.OBrTable? && |got.entries| == |Erase(got).entries| == |want.entries|;
      forall j | 0 <= j < |want.entries|
        ensures got.entries[j].pc == want.entries[j].pc
      {
        assert Emitted(fd, i + 1, 0, i, j);
      }
      SameEntries(got, want);
    }
  }

  /** Equal but for their targets, and those are equal as well. */
  lemma SameEntries(got: Opcode, want: Opcode)
    requires got.OBrTable? && want.OBrTable? && Erase(got) == Erase(want) && |got.entries| == |want.entries|
    requires forall j :: 0 <= j < |want.entries| ==> got.entries[j].pc == want.entries[j].pc
    ensures got == want
  {
    forall j | 0 <= j < |want.entries|
      ensures got.entries[j] == want.entries[j]
    {
      assert Erase(got).entries[j] == got.entries[j].(pc := 0);
      assert Erase(want).entries[j] == want.entries[j].(pc := 0);
    }
    assert got.entries == want.entries;
  }

  /** The relocation lists have done their work. */
  lemma Complete(m: Module, fd: FuncDecl, base: nat, code: seq<Opcode>, pcs: seq<PcElem>)
    requires WellSized(m) && Accepts(m, fd)
    requires RelocOk(m, fd, base, |fd.body|, 0, code, pcs)
    requires SameShape(code, Code(m, fd, base, |fd.body|))
    ensures code == Code(m, fd, base, |fd.body|)
  {
    hide Step, TargetPc, Resolved;
    forall i: nat, j: nat {:trigger Emitted(fd, |fd.body|, 0, i, j)} | Emitted(fd, |fd.body|, 0, i, j)
      ensures Inside(m, fd, i) && Writable(code, SlotOf(m, fd, i, j))
      ensures PcAt(code, SlotOf(m, fd, i, j)) == TargetPc(m, fd, base, i, j)
    {
      assert SlotOk(m, fd, base, |fd.body|, [], code, pcs, i, j);
      AllResolved(m, fd, i, j);
    }
    CodeDetermined(m, fd, base, |fd.body|, code);
  }
}

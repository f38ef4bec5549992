/** Entering a function and coming back from the host: what the slots of a new frame hold, and what a
    host function's bits become. */
module Entries {
  import opened Wasm
  import opened Bytecode
  import opened Source
  import opened Machine
  import opened Effects

  /** In the structured semantics the first locals are the arguments, and every declared local begins
      as the number 0 of its type. */
  lemma ActivationHolds(p: Program, k: nat, args: seq<Value>)
    requires k < |p.bodies| && k < |p.m.funcs|
    ensures
      var f, ts := Activate(p, k, args), Expand(p.m.funcs[k].locals);
      && |f.locals| == |args| + |ts| && f.locals[..|args|] == args
      && forall i {:trigger ts[i]} :: 0 <= i < |ts| ==>
           match ts[i]
           case I32 => f.locals[|args| + i] == VI32(0)
           case I64 => f.locals[|args| + i] == VI64(0)
           case F32 => f.locals[|args| + i] == VF32(0)
           case F64 => f.locals[|args| + i] == VF64(0)
  {
    hide Expand;
  }

  /** In the interpreter the arguments stay where they are and the frame base moves below them; every
      declared local begins as the number 0 of its type. */
  lemma CallHolds(p: Program, image: Image, s: MState, k: nat, below: seq<Value>, args: seq<Value>)
    requires k < |p.m.funcs| && |args| == |p.m.funcs[k].ft.params| && s.os == below + args
    requires OnMachine(image, s, OCall(|p.m.imports| + k)) && MStep(p, image, s).Next?
    ensures
      var t, ts := MStep(p, image, s).s, Expand(p.m.funcs[k].locals);
      && |t.os| == |below| + |args| + |ts| && t.os[..|below| + |args|] == s.os
      && t.lastOpIndex == |below| && t.store == s.store
      && t.frames == s.frames + [ActivationFrame(At(s.pc.n + 1), s.lastOpIndex)]
      && forall i {:trigger ts[i]} :: 0 <= i < |ts| ==>
           match ts[i]
           case I32 => t.os[t.lastOpIndex + |args| + i] == VI32(0)
           case I64 => t.os[t.lastOpIndex + |args| + i] == VI64(0)
           case F32 => t.os[t.lastOpIndex + |args| + i] == VF32(0)
           case F64 => t.os[t.lastOpIndex + |args| + i] == VF64(0)
  {
    hide Expand;
  }

  /** The value a host function's bits stand for: all of them in a 64-bit type, the low ones in a
      32-bit type. */
  lemma BitsAre(t: ValType, bits: u64) returns (q: nat, low: u32)
    ensures bits == q * 0x1_0000_0000 + low
    ensures
      match t
      case I32 => FromBits(t, bits) == VI32(low)
      case I64 => FromBits(t, bits) == VI64(bits)
      case F32 => FromBits(t, bits) == VF32(low)
      case F64 => FromBits(t, bits) == VF64(bits)
  {
    q, low := bits / U32_LIMIT, bits % U32_LIMIT;
  }

  /** What a host call pushes for these bits. */
  predicate Pushes(t: Option<ValType>, bits: u64, results: seq<Value>) {
    match t
    case None => results == []
    case Some(t) =>
      && |results| == 1
      && match t
         case I32 => results[0].VI32? && LowPart(bits, results[0].i32)
         case I64 => results[0] == VI64(bits)
         case F32 => results[0].VF32? && LowPart(bits, results[0].f32)
         case F64 => results[0] == VF64(bits)
  }

  /** Some multiple of 2^32 away. */
  predicate LowPart(bits: u64, low: u32) {
    exists q: nat | q <= bits :: bits == q * 0x1_0000_0000 + low
  }

  lemma ResultPushed(t: Option<ValType>, bits: u64)
    ensures Pushes(t, bits, if t.Some? then [FromBits(t.value, bits)] else [])
  {
    if t.Some? {
      var q, low := BitsAre(t.value, bits);
      assert q <= bits;
    }
  }

  /** A host call within the budget takes its arguments, in order, off the stack of the interpreter. */
  lemma HostCallHolds(p: Program, image: Image, s: MState, f: nat, below: seq<Value>, args: seq<Value>)
    requires f < |p.m.imports| && HasTypes(args, p.m.imports[f].params) && s.os == below + args
    requires OnMachine(image, s, OCall(f)) && FrameCost(p.m, f) <= s.remaining
    ensures
      match p.host(f, args, s.store)
      case HostTrap => MStep(p, image, s) == MTrap
      case HostExit(st) => MStep(p, image, s) == MExit(st)
      case HostReturn(bits, st) =>
        exists results: seq<Value> ::
          Pushes(p.m.imports[f].result, bits, results) && MachineAfterStep(p, image, s, below + results, st)
  {
    hide HasTypes, FrameCost, Pushes, FromBits;
    TypesSize(args, p.m.imports[f].params);
    assert s.os[|s.os| - |args|..] == args && s.os[..|s.os| - |args|] == below;
    var ft := p.m.imports[f];
    assert MStep(p, image, s) == HostCall(p, s, f);
    var r := p.host(f, args, s.store);
    if r.HostReturn? {
      var results := if ft.result.Some? then [FromBits(ft.result.value, r.bits)] else [];
      ResultPushed(ft.result, r.bits);
      assert MachineAfterStep(p, image, s, below + results, r.store);
    }
  }

  /** And off the operands of the structured semantics. */
  lemma HostCallMeans(p: Program, s: Config, f: nat, below: seq<Value>, args: seq<Value>, tl: Instrs)
    requires f < |p.m.imports| && HasTypes(args, p.m.imports[f].params)
    requires OnSource(s, Call(f), below + args, tl)
    requires ActiveCost(p.m, s.callers + [s.cur]) + FrameCost(p.m, f) <= p.limit
    ensures
      match p.host(f, args, s.store)
      case HostTrap => SourceStep(p, s) == Aborted
      case HostExit(st) => SourceStep(p, s) == Exited(st)
      case HostReturn(bits, st) =>
        exists results: seq<Value> ::
          Pushes(p.m.imports[f].result, bits, results) && SourceAfterStep(p, s, below + results, tl, st)
  {
    hide HasTypes, FrameCost, ActiveCost, Pushes, FromBits;
    TypesSize(args, p.m.imports[f].params);
    var vals := below + args;
    assert vals[|vals| - |args|..] == args && vals[..|vals| - |args|] == below;
    var ft := p.m.imports[f];
    assert SourceStep(p, s) == CallStep(p, s, f, tl);
    var r := p.host(f, args, s.store);
    if r.HostReturn? {
      var results := if ft.result.Some? then [FromBits(ft.result.value, r.bits)] else [];
      ResultPushed(ft.result, r.bits);
      SameFrame(s.cur, below + results, tl);
      assert SourceAfterStep(p, s, below + results, tl, r.store);
    }
  }

  lemma TypesSize(vs: seq<Value>, ts: seq<ValType>)
    requires HasTypes(vs, ts)
    ensures |vs| == |ts|
  {
  }
}

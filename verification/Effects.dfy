/** What each instruction does to operands that are written out, in the interpreter and in the
    structured semantics alike, and how instructions go together. Numbers are given by what they are,
    not by how they are computed. */
module Effects {
  import opened Wasm
  import opened Bytecode
  import opened Source
  import opened Machine
  import opened BulkOps
  import opened BulkSteps

  /** One dispatch goes on with the next opcode. */
  ghost predicate MachineAfterStep(p: Program, image: Image, s: MState, os: seq<Value>, st: Store) {
    s.pc.At? && MStep(p, image, s) == Next(s.(pc := At(s.pc.n + 1), os := os, store := st))
  }

  /** One step goes on with `tl` in the same label of the same frame. */
  ghost predicate SourceAfterStep(p: Program, s: Config, vals: seq<Value>, tl: Instrs, st: Store) {
    s.Running? && s.cur.labels != [] &&
    SourceStep(p, s) == Running(s.callers, WithOperands(s.cur, vals, tl), st)
  }

  /** With `args` on top, one step of either level puts `results` in their place, turns the store `st`
      into `st'` and goes on behind the instruction. */
  ghost predicate Does(p: Program, image: Image, op: PlainOp, args: seq<Value>, st: Store, results: seq<Value>,
      st': Store)
  {
    && (forall s: MState, os: seq<Value> :: MachineAt(image, s, op, os, args) && s.store == st ==>
          MachineAfterStep(p, image, s, os + results, st'))
    && (forall s: Config, vals: seq<Value>, tl: Instrs :: SourceAt(s, op, vals, args, tl) && s.store == st ==>
          SourceAfterStep(p, s, vals + results, tl, st'))
  }

  /** Or both trap. */
  ghost predicate Traps(p: Program, image: Image, op: PlainOp, args: seq<Value>, st: Store) {
    && (forall s: MState, os: seq<Value> :: MachineAt(image, s, op, os, args) && s.store == st ==>
          MStep(p, image, s) == MTrap)
    && (forall s: Config, vals: seq<Value>, tl: Instrs :: SourceAt(s, op, vals, args, tl) && s.store == st ==>
          SourceStep(p, s) == Aborted)
  }

  /** The frame with other operands in its innermost label, at `code`. */
  function WithOperands(f: Frame, vals: seq<Value>, code: Instrs): Frame
    requires f.labels != []
  {
    var k := |f.labels| - 1;
    Frame(f.func, f.locals, f.labels[..k] + [Label(f.labels[k].arity, f.labels[k].again, f.labels[k].rest, vals)], code)
  }

  lemma MachineEvaluates(p: Program, image: Image, s: MState, op: PlainOp, os: seq<Value>, args: seq<Value>)
    requires MachineAt(image, s, op, os, args)
    ensures
      match Eval(op, args, s.store)
      case Evaluated(results, st) =>
        MStep(p, image, s) == Next(s.(pc := At(s.pc.n + 1), os := os + results, store := st))
      case Trapped => MStep(p, image, s) == MTrap
      case _ => true
  {
    hide Eval;
    assert s.os[..|s.os| - |args|] == os && s.os[|s.os| - |args|..] == args;
  }

  lemma SourceEvaluates(p: Program, s: Config, op: PlainOp, vals: seq<Value>, args: seq<Value>, tl: Instrs)
    requires SourceAt(s, op, vals, args, tl)
    ensures
      match Eval(op, args, s.store)
      case Evaluated(results, st) =>
        SourceStep(p, s) == Running(s.callers, WithOperands(s.cur, vals + results, tl), st)
      case Trapped => SourceStep(p, s) == Aborted
      case _ => true
  {
    hide Eval;
    var all := vals + args;
    assert all[..|all| - |args|] == vals && all[|all| - |args|..] == args;
    var r := Eval(op, args, s.store);
    assert SourceStep(p, s) == DoPlain(s, op, tl);
    if r.Evaluated? {
      SameFrame(s.cur, vals + r.results, tl);
    }
  }

  lemma SameFrame(f: Frame, vals: seq<Value>, code: Instrs)
    requires f.labels != []
    ensures SetTop(f, vals).(code := code) == WithOperands(f, vals, code)
  {
    assert SetTop(f, vals).labels == WithOperands(f, vals, code).labels;
  }

  lemma EvaluationDoes(p: Program, image: Image, op: PlainOp, args: seq<Value>, st: Store, results: seq<Value>,
      st': Store)
    requires |args| == Arity(op) && Eval(op, args, st) == Evaluated(results, st')
    ensures Does(p, image, op, args, st, results, st')
  {
    hide Eval, MStep, SourceStep, WithOperands;
    forall s: MState, os: seq<Value> | MachineAt(image, s, op, os, args) && s.store == st
      ensures MachineAfterStep(p, image, s, os + results, st')
    {
      MachineEvaluates(p, image, s, op, os, args);
    }
    forall s: Config, vals: seq<Value>, tl: Instrs | SourceAt(s, op, vals, args, tl) && s.store == st
      ensures SourceAfterStep(p, s, vals + results, tl, st')
    {
      SourceEvaluates(p, s, op, vals, args, tl);
    }
  }

  lemma EvaluationTraps(p: Program, image: Image, op: PlainOp, args: seq<Value>, st: Store)
    requires |args| == Arity(op) && Eval(op, args, st) == Trapped
    ensures Traps(p, image, op, args, st)
  {
    hide Eval, MStep, SourceStep, WithOperands;
    forall s: MState, os: seq<Value> | MachineAt(image, s, op, os, args) && s.store == st
      ensures MStep(p, image, s) == MTrap
    {
      MachineEvaluates(p, image, s, op, os, args);
    }
    forall s: Config, vals: seq<Value>, tl: Instrs | SourceAt(s, op, vals, args, tl) && s.store == st
      ensures SourceStep(p, s) == Aborted
    {
      SourceEvaluates(p, s, op, vals, args, tl);
    }
  }

  lemma NopDoes(p: Program, image: Image, st: Store)
    ensures Does(p, image, Nop, [], st, [], st)
  {
    EvaluationDoes(p, image, Nop, [], st, [], st);
  }

  lemma ConstDoes(p: Program, image: Image, st: Store, v: Value)
    ensures Does(p, image, Const(v), [], st, [v], st)
  {
    EvaluationDoes(p, image, Const(v), [], st, [v], st);
  }

  lemma EqzDoes(p: Program, image: Image, st: Store, x: u32)
    ensures Does(p, image, I32Eqz, [VI32(x)], st, [VI32(if x == 0 then 1 else 0)], st)
  {
    EvaluationDoes(p, image, I32Eqz, [VI32(x)], st, [VI32(if x == 0 then 1 else 0)], st);
  }

  lemma LtUDoes(p: Program, image: Image, st: Store, x: u32, y: u32)
    ensures Does(p, image, I32LtU, [VI32(x), VI32(y)], st, [VI32(if x < y then 1 else 0)], st)
  {
    EvaluationDoes(p, image, I32LtU, [VI32(x), VI32(y)], st, [VI32(if x < y then 1 else 0)], st);
  }

  /** The sum, or the sum less 2^32. */
  lemma AddDoes(p: Program, image: Image, st: Store, x: u32, y: u32) returns (r: u32)
    ensures r == x + y || r + 0x1_0000_0000 == x + y
    ensures Does(p, image, I32Add, [VI32(x), VI32(y)], st, [VI32(r)], st)
  {
    r := (x + y) % U32_LIMIT;
    EvaluationDoes(p, image, I32Add, [VI32(x), VI32(y)], st, [VI32(r)], st);
  }

  /** What is left of `x` when `y` is taken off `q` times; there is none for zero. */
  lemma RemUDoes(p: Program, image: Image, st: Store, x: u32, y: u32) returns (q: nat, r: u32)
    ensures y == 0 ==> Traps(p, image, I32RemU, [VI32(x), VI32(y)], st)
    ensures y != 0 ==> x == q * y + r && r < y && Does(p, image, I32RemU, [VI32(x), VI32(y)], st, [VI32(r)], st)
  {
    if y == 0 {
      q, r := 0, 0;
      EvaluationTraps(p, image, I32RemU, [VI32(x), VI32(y)], st);
    } else {
      q, r := x / y, x % y;
      EvaluationDoes(p, image, I32RemU, [VI32(x), VI32(y)], st, [VI32(r)], st);
    }
  }

  /** The low 32 bits. */
  lemma WrapDoes(p: Program, image: Image, st: Store, x: u64) returns (q: nat, r: u32)
    ensures x == q * 0x1_0000_0000 + r
    ensures Does(p, image, I32WrapI64, [VI64(x)], st, [VI32(r)], st)
  {
    q, r := x / U32_LIMIT, x % U32_LIMIT;
    EvaluationDoes(p, image, I32WrapI64, [VI64(x)], st, [VI32(r)], st);
  }

  lemma ExtendDoes(p: Program, image: Image, st: Store, x: u32)
    ensures Does(p, image, I64ExtendUI32, [VI32(x)], st, [VI64(x)], st)
  {
    EvaluationDoes(p, image, I64ExtendUI32, [VI32(x)], st, [VI64(x)], st);
  }

  lemma GlobalGetDoes(p: Program, image: Image, st: Store, g: nat)
    requires g < |st.globals|
    ensures Does(p, image, GlobalGet(g), [], st, [st.globals[g]], st)
  {
    EvaluationDoes(p, image, GlobalGet(g), [], st, [st.globals[g]], st);
  }

  /** That global and nothing else. */
  lemma GlobalSetDoes(p: Program, image: Image, st: Store, g: nat, v: Value) returns (st': Store)
    requires g < |st.globals| && TypeOf(v) == TypeOf(st.globals[g])
    ensures |st'.globals| == |st.globals| && st'.memory == st.memory && st'.table == st.table
    ensures forall h :: 0 <= h < |st.globals| ==> st'.globals[h] == if h == g then v else st.globals[h]
    ensures Does(p, image, GlobalSet(g), [v], st, [], st')
  {
    st' := st.(globals := st.globals[g := v]);
    EvaluationDoes(p, image, GlobalSet(g), [v], st, [], st');
  }

  /** The byte at the sum of the address and the offset, which does not wrap. */
  lemma LoadDoes(p: Program, image: Image, st: Store, addr: u32, offset: u32)
    ensures addr + offset >= |st.memory| ==> Traps(p, image, I32Load8U(offset), [VI32(addr)], st)
    ensures addr + offset < |st.memory| ==>
              Does(p, image, I32Load8U(offset), [VI32(addr)], st, [VI32(st.memory[addr + offset])], st)
  {
    if addr + offset < |st.memory| {
      EvaluationDoes(p, image, I32Load8U(offset), [VI32(addr)], st, [VI32(st.memory[addr + offset])], st);
    } else {
      EvaluationTraps(p, image, I32Load8U(offset), [VI32(addr)], st);
    }
  }

  /** The low byte of the value goes there and nothing else changes. */
  lemma StoreDoes(p: Program, image: Image, st: Store, addr: u32, v: u32, offset: u32)
    returns (q: nat, b: u8, st': Store)
    ensures v == q * 0x100 + b
    ensures addr + offset >= |st.memory| ==> Traps(p, image, I32Store8(offset), [VI32(addr), VI32(v)], st)
    ensures addr + offset < |st.memory| ==>
              && |st'.memory| == |st.memory| && st'.globals == st.globals && st'.table == st.table
              && (forall a :: 0 <= a < |st.memory| ==>
                    st'.memory[a] == if a == addr + offset then b else st.memory[a])
              && Does(p, image, I32Store8(offset), [VI32(addr), VI32(v)], st, [], st')
  {
    q, b, st' := v / 0x100, v % 0x100, st;
    if addr + offset < |st.memory| {
      st' := st.(memory := st.memory[addr + offset := b]);
      EvaluationDoes(p, image, I32Store8(offset), [VI32(addr), VI32(v)], st, [], st');
    } else {
      EvaluationTraps(p, image, I32Store8(offset), [VI32(addr), VI32(v)], st);
    }
  }

  /** The instructions `ops` one after the other, and then `tl`. */
  function Spell(ops: seq<PlainOp>, tl: Instrs): Instrs {
    if ops == [] then tl else ICons(Basic(Plain(ops[0])), Spell(ops[1..], tl))
  }

  predicate Spelled(image: Image, s: MState, ops: seq<PlainOp>) {
    s.pc.At? && s.pc.n + |ops| <= |image.code| && forall i :: 0 <= i < |ops| ==>
      image.code[s.pc.n + i] == OPlain(ops[i])
  }

  /** So many dispatches, from `args` on top to `results`. */
  ghost predicate MachineRuns(p: Program, image: Image, ops: seq<PlainOp>, args: seq<Value>, st: Store,
      results: seq<Value>, st': Store, s: MState, os: seq<Value>)
  {
    Spelled(image, s, ops) && s.os == os + args && s.store == st ==>
      MRun(p, image, s, |ops|) == Next(s.(pc := At(s.pc.n + |ops|), os := os + results, store := st'))
  }

  /** And as many steps of the structured semantics. */
  ghost predicate SourceRuns(p: Program, ops: seq<PlainOp>, args: seq<Value>, st: Store, results: seq<Value>,
      st': Store, s: Config, vals: seq<Value>, tl: Instrs)
  {
    s.Running? && s.cur.labels != [] && s.cur.code == Spell(ops, tl) && TopVals(s.cur) == vals + args &&
    s.store == st ==>
      SourceRun(p, s, |ops|) == Running(s.callers, WithOperands(s.cur, vals + results, tl), st')
  }

  ghost predicate RunsTo(p: Program, image: Image, ops: seq<PlainOp>, args: seq<Value>, st: Store,
      results: seq<Value>, st': Store)
  {
    && (forall s: MState, os: seq<Value> :: MachineRuns(p, image, ops, args, st, results, st', s, os))
    && (forall s: Config, vals: seq<Value>, tl: Instrs :: SourceRuns(p, ops, args, st, results, st', s, vals, tl))
  }

  lemma NoneRuns(p: Program, image: Image, args: seq<Value>, st: Store)
    ensures RunsTo(p, image, [], args, st, args, st)
  {
    forall s: Config, vals: seq<Value>, tl: Instrs
      ensures SourceRuns(p, [], args, st, args, st, s, vals, tl)
    {
      if s.Running? && s.cur.labels != [] && TopVals(s.cur) == vals + args {
        assert SetTop(s.cur, vals + args).labels == s.cur.labels;
        SameFrame(s.cur, vals + args, s.cur.code);
      }
    }
  }

  /** One instruction before others; it leaves `below` alone. */
  lemma FirstRuns(p: Program, image: Image, all: seq<PlainOp>, from: seq<Value>, op: PlainOp, below: seq<Value>,
      args: seq<Value>, st: Store, mid: seq<Value>, st1: Store, ops: seq<PlainOp>, next: seq<Value>,
      results: seq<Value>, st': Store)
    requires all == [op] + ops && from == below + args && next == below + mid
    requires |args| == Arity(op) && Does(p, image, op, args, st, mid, st1)
    requires RunsTo(p, image, ops, next, st1, results, st')
    ensures RunsTo(p, image, all, from, st, results, st')
  {
    hide MachineRuns, SourceRuns, Does, RunsTo, Arity;
    forall s: MState, os: seq<Value>
      ensures MachineRuns(p, image, all, from, st, results, st', s, os)
    {
      MachineFirst(p, image, op, ops, below, args, st, mid, st1, results, st', s, os);
    }
    forall s: Config, vals: seq<Value>, tl: Instrs
      ensures SourceRuns(p, all, from, st, results, st', s, vals, tl)
    {
      SourceFirst(p, image, op, ops, below, args, st, mid, st1, results, st', s, vals, tl);
    }
    EachRuns(p, image, all, from, st, results, st');
  }

  lemma EachRuns(p: Program, image: Image, ops: seq<PlainOp>, args: seq<Value>, st: Store, results: seq<Value>,
      st': Store)
    requires forall s: MState, os: seq<Value> :: MachineRuns(p, image, ops, args, st, results, st', s, os)
    requires forall s: Config, vals: seq<Value>, tl: Instrs ::
               SourceRuns(p, ops, args, st, results, st', s, vals, tl)
    ensures RunsTo(p, image, ops, args, st, results, st')
  {
    hide MachineRuns, SourceRuns;
  }

  lemma MachineFirst(p: Program, image: Image, op: PlainOp, ops: seq<PlainOp>, below: seq<Value>, args: seq<Value>,
      st: Store, mid: seq<Value>, st1: Store, results: seq<Value>, st': Store, s: MState, os: seq<Value>)
    requires |args| == Arity(op) && Does(p, image, op, args, st, mid, st1)
    requires RunsTo(p, image, ops, below + mid, st1, results, st')
    ensures MachineRuns(p, image, [op] + ops, below + args, st, results, st', s, os)
  {
    hide MStep, RunsTo, Spelled, MRun, Arity;
    if Spelled(image, s, [op] + ops) && s.os == os + (below + args) && s.store == st {
      assert s.os == (os + below) + args && os + (below + mid) == (os + below) + mid;
      SpelledFirst(image, s, op, ops);
      var s1 := s.(pc := At(s.pc.n + 1), os := os + (below + mid), store := st1);
      assert MachineAt(image, s, op, os + below, args);
      assert MachineAfterStep(p, image, s, (os + below) + mid, st1);
      SpelledRest(image, s, op, ops, s1);
      assert MachineRuns(p, image, ops, below + mid, st1, results, st', s1, os)
        by { MachineRest(p, image, ops, below + mid, st1, results, st', s1, os); }
      RunFirst(p, image, s, s1, |ops|);
    }
  }

  lemma SpelledFirst(image: Image, s: MState, op: PlainOp, ops: seq<PlainOp>)
    requires Spelled(image, s, [op] + ops)
    ensures s.pc.At? && s.pc.n < |image.code| && image.code[s.pc.n] == OPlain(op)
  {
    assert ([op] + ops)[0] == op && image.code[s.pc.n + 0] == OPlain(([op] + ops)[0]);
  }

  lemma SpelledRest(image: Image, s: MState, op: PlainOp, ops: seq<PlainOp>, s1: MState)
    requires Spelled(image, s, [op] + ops) && s1.pc == At(s.pc.n + 1)
    ensures Spelled(image, s1, ops)
  {
    forall i | 0 <= i < |ops|
      ensures image.code[s1.pc.n + i] == OPlain(ops[i])
    {
      assert image.code[s.pc.n + (i + 1)] == OPlain(([op] + ops)[i + 1]);
    }
  }

  lemma MachineRest(p: Program, image: Image, ops: seq<PlainOp>, args: seq<Value>, st: Store, results: seq<Value>,
      st': Store, s: MState, os: seq<Value>)
    requires RunsTo(p, image, ops, args, st, results, st')
    ensures MachineRuns(p, image, ops, args, st, results, st', s, os)
  {
    hide MachineRuns, SourceRuns;
  }

  lemma RunFirst(p: Program, image: Image, s: MState, s1: MState, n: nat)
    requires s.pc.At? && MStep(p, image, s) == Next(s1)
    ensures MRun(p, image, s, n + 1) == MRun(p, image, s1, n)
  {
    hide MStep;
  }

  lemma SourceFirst(p: Program, image: Image, op: PlainOp, ops: seq<PlainOp>, below: seq<Value>, args: seq<Value>,
      st: Store, mid: seq<Value>, st1: Store, results: seq<Value>, st': Store, s: Config, vals: seq<Value>, tl: Instrs)
    requires |args| == Arity(op) && Does(p, image, op, args, st, mid, st1)
    requires RunsTo(p, image, ops, below + mid, st1, results, st')
    ensures SourceRuns(p, [op] + ops, below + args, st, results, st', s, vals, tl)
  {
    hide SourceStep, RunsTo, SourceRun, Arity, Spell;
    if s.Running? && s.cur.labels != [] && s.cur.code == Spell([op] + ops, tl) &&
       TopVals(s.cur) == vals + (below + args) && s.store == st {
      SpellFirst(op, ops, tl);
      assert TopVals(s.cur) == (vals + below) + args && vals + (below + mid) == (vals + below) + mid;
      assert SourceAt(s, op, vals + below, args, Spell(ops, tl));
      assert SourceAfterStep(p, s, (vals + below) + mid, Spell(ops, tl), st1);
      var s1 := Running(s.callers, WithOperands(s.cur, vals + (below + mid), Spell(ops, tl)), st1);
      assert SourceRuns(p, ops, below + mid, st1, results, st', s1, vals, tl)
        by { SourceRest(p, image, ops, below + mid, st1, results, st', s1, vals, tl); }
      SourceRunFirst(p, s, s1, |ops|);
      TwiceWith(s.cur, vals + (below + mid), Spell(ops, tl), vals + results, tl);
    }
  }

  lemma SpellFirst(op: PlainOp, ops: seq<PlainOp>, tl: Instrs)
    ensures Spell([op] + ops, tl) == ICons(Basic(Plain(op)), Spell(ops, tl))
  {
    assert ([op] + ops)[1..] == ops;
  }

  lemma SourceRest(p: Program, image: Image, ops: seq<PlainOp>, args: seq<Value>, st: Store, results: seq<Value>,
      st': Store, s: Config, vals: seq<Value>, tl: Instrs)
    requires RunsTo(p, image, ops, args, st, results, st')
    ensures SourceRuns(p, ops, args, st, results, st', s, vals, tl)
  {
    hide MachineRuns, SourceRuns;
  }

  lemma SourceRunFirst(p: Program, s: Config, s1: Config, n: nat)
    requires SourceStep(p, s) == s1
    ensures SourceRun(p, s, n + 1) == SourceRun(p, s1, n)
  {
    hide SourceStep;
  }

  lemma TwiceWith(f: Frame, vals: seq<Value>, code: Instrs, vals': seq<Value>, code': Instrs)
    requires f.labels != []
    ensures WithOperands(f, vals, code).labels != [] && TopVals(WithOperands(f, vals, code)) == vals
    ensures WithOperands(WithOperands(f, vals, code), vals', code') == WithOperands(f, vals', code')
  {
    var k := |f.labels| - 1;
    assert WithOperands(f, vals, code).labels[..k] == f.labels[..k];
  }

  /** A remainder is below its divisor. */
  lemma RemainderIsBelow(p: Program, image: Image, st: Store, x: u32, y: u32)
    requires y != 0
    ensures RunsTo(p, image, [I32RemU, Const(VI32(y)), I32LtU], [VI32(x), VI32(y)], st, [VI32(1)], st)
  {
    hide Does, RunsTo;
    var q, r := RemUDoes(p, image, st, x, y);
    var v, w := VI32(y), VI32(r);
    ConstDoes(p, image, st, v);
    LtUDoes(p, image, st, r, y);
    NoneRuns(p, image, [VI32(1)], st);
    FirstRuns(p, image, [I32LtU], [w, v], I32LtU, [], [w, v], st, [VI32(1)], st, [], [VI32(1)], [VI32(1)], st);
    FirstRuns(p, image, [Const(v), I32LtU], [w], Const(v), [w], [], st, [v], st, [I32LtU], [w, v], [VI32(1)], st);
    FirstRuns(p, image, [I32RemU, Const(v), I32LtU], [VI32(x), v], I32RemU, [], [VI32(x), v], st, [w], st,
              [Const(v), I32LtU], [w], [VI32(1)], st);
  }

  /** Wrapping undoes extending. */
  lemma WrapUndoesExtend(p: Program, image: Image, st: Store, x: u32)
    ensures RunsTo(p, image, [I64ExtendUI32, I32WrapI64], [VI32(x)], st, [VI32(x)], st)
  {
    hide Does, RunsTo;
    ExtendDoes(p, image, st, x);
    var q, r := WrapDoes(p, image, st, x);
    assert q == 0 && r == x;
    var v, w := VI32(x), VI64(x);
    NoneRuns(p, image, [v], st);
    FirstRuns(p, image, [I32WrapI64], [w], I32WrapI64, [], [w], st, [v], st, [], [v], [v], st);
    FirstRuns(p, image, [I64ExtendUI32, I32WrapI64], [v], I64ExtendUI32, [], [v], st, [w], st, [I32WrapI64], [w],
              [v], st);
  }

  /** A byte that was stored is loaded again. */
  lemma LoadAfterStore(p: Program, image: Image, st: Store, addr: u32, v: u32, offset: u32)
    returns (q: nat, b: u8, st': Store)
    requires addr + offset < |st.memory|
    ensures v == q * 0x100 + b
    ensures RunsTo(p, image, [I32Store8(offset), Const(VI32(addr)), I32Load8U(offset)], [VI32(addr), VI32(v)], st,
                   [VI32(b)], st')
  {
    hide Does, RunsTo;
    q, b, st' := StoreDoes(p, image, st, addr, v, offset);
    var a, r, load := VI32(addr), VI32(b), I32Load8U(offset);
    ConstDoes(p, image, st', a);
    LoadDoes(p, image, st', addr, offset);
    NoneRuns(p, image, [r], st');
    FirstRuns(p, image, [load], [a], load, [], [a], st', [r], st', [], [r], [r], st');
    FirstRuns(p, image, [Const(a), load], [], Const(a), [], [], st', [a], st', [load], [a], [r], st');
    FirstRuns(p, image, [I32Store8(offset), Const(a), load], [a, VI32(v)], I32Store8(offset), [], [a, VI32(v)], st, [],
              st', [Const(a), load], [], [r], st');
  }

  /** A global holds what was put into it. */
  lemma GetAfterSet(p: Program, image: Image, st: Store, g: nat, v: Value) returns (st': Store)
    requires g < |st.globals| && TypeOf(v) == TypeOf(st.globals[g])
    ensures RunsTo(p, image, [GlobalSet(g), GlobalGet(g)], [v], st, [v], st')
  {
    hide Does, RunsTo;
    st' := GlobalSetDoes(p, image, st, g, v);
    GlobalGetDoes(p, image, st', g);
    NoneRuns(p, image, [v], st');
    FirstRuns(p, image, [GlobalGet(g)], [], GlobalGet(g), [], [], st', [v], st', [], [v], [v], st');
    FirstRuns(p, image, [GlobalSet(g), GlobalGet(g)], [v], GlobalSet(g), [], [v], st, [], st', [GlobalGet(g)], [], [v],
              st');
  }

  predicate OnMachine(image: Image, s: MState, op: Opcode) {
    s.pc.At? && s.pc.n < |image.code| && image.code[s.pc.n] == op
  }

  predicate OnSource(s: Config, t: Token, vals: seq<Value>, tl: Instrs) {
    s.Running? && s.cur.labels != [] && s.cur.code == ICons(Basic(t), tl) && TopVals(s.cur) == vals
  }

  lemma DropEffect(p: Program, image: Image, ms: MState, s: Config, os: seq<Value>, tl: Instrs, v: Value)
    requires OnMachine(image, ms, ODrop) && ms.os == os + [v]
    requires OnSource(s, Drop, os + [v], tl)
    ensures MachineAfterStep(p, image, ms, os, ms.store) && SourceAfterStep(p, s, os, tl, s.store)
  {
    assert (os + [v])[..|os + [v]| - 1] == os;
    SameFrame(s.cur, os, tl);
  }

  /** The condition decides between the two operands below it. */
  lemma SelectEffect(p: Program, image: Image, ms: MState, s: Config, os: seq<Value>, tl: Instrs, v: Value, w: Value,
      c: u32)
    requires OnMachine(image, ms, OSelect) && ms.os == os + [v, w, VI32(c)]
    requires OnSource(s, Select, os + [v, w, VI32(c)], tl)
    ensures c != 0 ==>
            MachineAfterStep(p, image, ms, os + [v], ms.store) && SourceAfterStep(p, s, os + [v], tl, s.store)
    ensures c == 0 ==>
            MachineAfterStep(p, image, ms, os + [w], ms.store) && SourceAfterStep(p, s, os + [w], tl, s.store)
  {
    var all := os + [v, w, VI32(c)];
    assert all[..|all| - 3] == os && all[|all| - 1] == VI32(c) && all[|all| - 2] == w && all[|all| - 3] == v;
    SameFrame(s.cur, os + [if c != 0 then v else w], tl);
  }

  lemma UnreachableEffect(p: Program, image: Image, ms: MState, s: Config, os: seq<Value>, tl: Instrs)
    requires OnMachine(image, ms, OUnreachable) && OnSource(s, Unreachable, os, tl)
    ensures MStep(p, image, ms) == MTrap && SourceStep(p, s) == Aborted
  {
  }

  /** Local `i` of the interpreter lies `i` places above the frame base. */
  lemma LocalGetEffect(p: Program, image: Image, ms: MState, s: Config, os: seq<Value>, tl: Instrs, i: nat)
    requires OnMachine(image, ms, OLocalGet(i)) && OnSource(s, LocalGet(i), os, tl)
    requires ms.lastOpIndex + i < |ms.os| && i < |s.cur.locals|
    ensures MachineAfterStep(p, image, ms, ms.os + [ms.os[ms.lastOpIndex + i]], ms.store)
    ensures SourceAfterStep(p, s, os + [s.cur.locals[i]], tl, s.store)
  {
    SameFrame(s.cur, os + [s.cur.locals[i]], tl);
  }

  /** `local.set` takes the operand away, `local.tee` leaves it, and only that local changes. */
  lemma LocalWriteEffect(p: Program, image: Image, ms: MState, s: Config, vals: seq<Value>, tl: Instrs, i: nat,
      v: Value, tee: bool)
    requires OnMachine(image, ms, if tee then OLocalTee(i) else OLocalSet(i))
    requires OnSource(s, if tee then LocalTee(i) else LocalSet(i), vals + [v], tl)
    requires ms.os != [] && ms.os[|ms.os| - 1] == v && ms.lastOpIndex + i + 1 < |ms.os| && i < |s.cur.locals|
    ensures MStep(p, image, ms).Next? && SourceStep(p, s).Running?
    ensures
      var t := MStep(p, image, ms).s;
      && t == ms.(pc := At(ms.pc.n + 1), os := t.os) && |t.os| == |ms.os| - (if tee then 0 else 1)
      && forall j :: 0 <= j < |t.os| ==> t.os[j] == if j == ms.lastOpIndex + i then v else ms.os[j]
    ensures
      var f := SourceStep(p, s).cur;
      && SourceStep(p, s) == Running(s.callers, f, s.store) && |f.locals| == |s.cur.locals|
      && f == WithOperands(s.cur, if tee then vals + [v] else vals, tl).(locals := f.locals)
      && forall j :: 0 <= j < |f.locals| ==> f.locals[j] == if j == i then v else s.cur.locals[j]
  {
    assert (vals + [v])[..|vals + [v]| - 1] == vals;
    var f := s.cur.(locals := s.cur.locals[i := v]);
    SameFrame(f, if tee then vals + [v] else vals, tl);
  }

  /** A branch on zero is none; on anything else it is the unconditional one with the rest. */
  lemma BrIfEffect(p: Program, image: Image, ms: MState, s: Config, os: seq<Value>, tl: Instrs, data: nat, pc: nat,
      l: nat, c: u32)
    requires OnMachine(image, ms, OBrIf(data, pc)) && ms.os == os + [VI32(c)]
    requires OnSource(s, BrIf(l), os + [VI32(c)], tl)
    ensures c == 0 ==> MachineAfterStep(p, image, ms, os, ms.store) && SourceAfterStep(p, s, os, tl, s.store)
    ensures c != 0 ==>
              && MStep(p, image, ms) == Dispatch(p, image, ms.(os := os), OBr(data, pc))
              && SourceStep(p, s) == SourceStep(p,
                Running(s.callers, WithOperands(s.cur, os, ICons(Basic(Br(l)), tl)), s.store))
  {
    hide MStep, SourceStep, WithOperands;
    BrIfMachine(p, image, ms, os, data, pc, c);
    BrIfSource(p, s, os, tl, l, c);
  }

  lemma BrIfMachine(p: Program, image: Image, ms: MState, os: seq<Value>, data: nat, pc: nat, c: u32)
    requires OnMachine(image, ms, OBrIf(data, pc)) && ms.os == os + [VI32(c)]
    ensures
      if c == 0 then MachineAfterStep(p, image, ms, os, ms.store)
      else MStep(p, image, ms) == Dispatch(p, image, ms.(os := os), OBr(data, pc))
  {
    hide Jump;
    var all := os + [VI32(c)];
    assert all[..|all| - 1] == os && all[|all| - 1] == VI32(c);
  }

  lemma BrIfSource(p: Program, s: Config, os: seq<Value>, tl: Instrs, l: nat, c: u32)
    requires OnSource(s, BrIf(l), os + [VI32(c)], tl)
    ensures
      if c == 0 then SourceAfterStep(p, s, os, tl, s.store)
      else SourceStep(p, s) == SourceStep(p,
        Running(s.callers, WithOperands(s.cur, os, ICons(Basic(Br(l)), tl)), s.store))
  {
    hide BranchTo, Eval;
    var all := os + [VI32(c)];
    assert all[..|all| - 1] == os && all[|all| - 1] == VI32(c);
    if c == 0 {
      SameFrame(s.cur, os, tl);
    } else {
      BranchSame(s, os, l, ICons(Basic(Br(l)), tl));
    }
  }

  /** Where a branch goes does not depend on the operands it drops. */
  lemma BranchSame(s: Config, vals: seq<Value>, l: nat, code: Instrs)
    requires s.Running? && s.cur.labels != []
    ensures BranchTo(Running(s.callers, WithOperands(s.cur, vals, code), s.store), vals, l) == BranchTo(s, vals, l)
  {
    var labels, labels' := s.cur.labels, WithOperands(s.cur, vals, code).labels;
    if l < |labels| {
      var k := |labels| - 1 - l;
      assert labels'[..k] == labels[..k];
    }
  }

  /** The table entry at the index, and the default for every index past the table. */
  lemma BrTableEffect(p: Program, image: Image, ms: MState, s: Config, os: seq<Value>, tl: Instrs,
      entries: seq<Entry>, ls: seq<nat>, d: nat, c: u32)
    requires OnMachine(image, ms, OBrTable(|ls|, entries)) && |entries| == |ls| + 1 && ms.os == os + [VI32(c)]
    requires OnSource(s, BrTable(ls, d), os + [VI32(c)], tl)
    ensures
      var e := entries[if c < |ls| then c else |ls|];
      MStep(p, image, ms) == Dispatch(p, image, ms.(os := os), OBr(e.stackPop, e.pc))
    ensures
      var code := ICons(Basic(Br(if c < |ls| then ls[c] else d)), tl);
      SourceStep(p, s) == SourceStep(p, Running(s.callers, WithOperands(s.cur, os, code), s.store))
  {
    hide MStep, SourceStep, WithOperands;
    BrTableMachine(p, image, ms, os, entries, |ls|, c);
    BrTableSource(p, s, os, tl, ls, d, c);
  }

  lemma BrTableMachine(p: Program, image: Image, ms: MState, os: seq<Value>, entries: seq<Entry>, n: nat, c: u32)
    requires OnMachine(image, ms, OBrTable(n, entries)) && |entries| == n + 1 && ms.os == os + [VI32(c)]
    ensures
      var e := entries[if c < n then c else n];
      MStep(p, image, ms) == Dispatch(p, image, ms.(os := os), OBr(e.stackPop, e.pc))
  {
    hide Jump;
    var all := os + [VI32(c)];
    assert all[..|all| - 1] == os && all[|all| - 1] == VI32(c);
  }

  lemma BrTableSource(p: Program, s: Config, os: seq<Value>, tl: Instrs, ls: seq<nat>, d: nat, c: u32)
    requires OnSource(s, BrTable(ls, d), os + [VI32(c)], tl)
    ensures
      var code := ICons(Basic(Br(if c < |ls| then ls[c] else d)), tl);
      SourceStep(p, s) == SourceStep(p, Running(s.callers, WithOperands(s.cur, os, code), s.store))
  {
    hide BranchTo, Eval;
    var all := os + [VI32(c)];
    assert all[..|all| - 1] == os && all[|all| - 1] == VI32(c);
    var l := if c < |ls| then ls[c] else d;
    BranchSame(s, os, l, ICons(Basic(Br(l)), tl));
  }

  /** An `if` runs its first part for every condition but zero. */
  lemma IfEffect(p: Program, image: Image, ms: MState, s: Config, os: seq<Value>, pc: nat, hd: Instr, tl: Instrs,
      c: u32)
    requires OnMachine(image, ms, OIf(pc)) && ms.os == os + [VI32(c)]
    requires s.Running? && s.cur.labels != [] && hd.IfI? && s.cur.code == ICons(hd, tl)
    requires TopVals(s.cur) == os + [VI32(c)]
    ensures MStep(p, image, ms) == Next(ms.(pc := At(if c == 0 then pc else ms.pc.n + 1), os := os))
    ensures
      var f := WithOperands(s.cur, os, if c == 0 then hd.els else hd.thn);
      SourceStep(p, s) == Running(s.callers, f.(labels := f.labels + [Label(hd.bt, None, tl, [])]), s.store)
  {
    var all := os + [VI32(c)];
    assert all[..|all| - 1] == os && all[|all| - 1] == VI32(c);
    SameFrame(s.cur, os, tl);
    assert WithOperands(s.cur, os, hd.thn).labels == WithOperands(s.cur, os, tl).labels;
  }
}

/** The validation algorithm on scopes: what `operand_stack_type_tracker` and the control stack
    of `parse_function_body_code` compute, with one segment of operands per open scope. */
module Validator {
  import opened Wasm

  /** `Any` is the type of an operand taken from below an unreachable point. */
  datatype Tag = Known(t: ValType) | Any

  /** The operands pushed in one scope. When `unreachable`, any operands may lie below them. */
  datatype Seg = Seg(unreachable: bool, vals: seq<Tag>)

  /** `root` lies below every scope: it holds the result once the function body is closed. */
  datatype Operands = Operands(root: seq<Tag>, segs: seq<Seg>, maxDepth: nat)

  function Depth(segs: seq<Seg>): nat {
    if segs == [] then 0 else Depth(segs[..|segs| - 1]) + |segs[|segs| - 1].vals|
  }

  function DepthOf(o: Operands): nat {
    |o.root| + Depth(o.segs)
  }

  /** The operand depth at which scope `k` was entered. */
  function EntryDepth(o: Operands, k: nat): nat
    requires k <= |o.segs|
  {
    |o.root| + Depth(o.segs[..k])
  }

  function Top(o: Operands): Seg
    requires o.segs != []
  {
    o.segs[|o.segs| - 1]
  }

  function WithTop(o: Operands, s: Seg): (r: Operands)
    requires o.segs != []
    ensures SameBelow(o, r) && Top(r) == s && r.maxDepth == o.maxDepth
    ensures DepthOf(r) == DepthOf(o) - |Top(o).vals| + |s.vals|
  {
    var r := o.(segs := o.segs[|o.segs| - 1 := s]);
    assert r.segs[..|r.segs| - 1] == o.segs[..|o.segs| - 1];
    r
  }

  /** Nothing but the innermost scope differs. */
  predicate SameBelow(o: Operands, r: Operands) {
    |r.segs| == |o.segs| && r.root == o.root &&
    (o.segs != [] ==> r.segs[..|r.segs| - 1] == o.segs[..|o.segs| - 1])
  }

  function Max(x: nat, y: nat): nat {
    if x < y then y else x
  }

  function PushTag(o: Operands, t: Tag): (r: Option<Operands>)
    ensures r.Some? && o.segs != [] ==>
              SameBelow(o, r.value) && Top(r.value) == Top(o).(vals := Top(o).vals + [t]) &&
              DepthOf(r.value) == DepthOf(o) + 1 && r.value.maxDepth == Max(DepthOf(o) + 1, o.maxDepth)
  {
    if DepthOf(o) >= U32_LIMIT - 1 then None
    else
      var max := Max(DepthOf(o) + 1, o.maxDepth);
      if o.segs == [] then Some(Operands(o.root + [t], [], max))
      else Some(WithTop(o, Top(o).(vals := Top(o).vals + [t])).(maxDepth := max))
  }

  function PopType(o: Operands, t: ValType): (r: Option<Operands>)
    ensures r.Some? ==> o.segs != [] && SameBelow(o, r.value) && r.value.maxDepth == o.maxDepth
  {
    if o.segs == [] then None
    else
      var top := Top(o);
      if top.vals == [] then if top.unreachable then Some(o) else None
      else
        var last := top.vals[|top.vals| - 1];
        if last == Known(t) || last == Any
        then Some(WithTop(o, top.(vals := top.vals[..|top.vals| - 1]))) else None
  }

  datatype Popped = Popped(tag: Tag, rest: Operands)

  function PopTag(o: Operands): (r: Option<Popped>)
    ensures r.Some? ==> o.segs != [] && SameBelow(o, r.value.rest) && r.value.rest.maxDepth == o.maxDepth
  {
    if o.segs == [] then None
    else
      var top := Top(o);
      if top.vals == [] then if top.unreachable then Some(Popped(Any, o)) else None
      else
        Some(Popped(top.vals[|top.vals| - 1], WithTop(o, top.(vals := top.vals[..|top.vals| - 1]))))
  }

  /** Pops operands of the given types, the last one first. */
  function PopTypes(o: Operands, ts: seq<ValType>): (r: Option<Operands>)
    ensures r.Some? ==> SameBelow(o, r.value) && r.value.maxDepth == o.maxDepth
    decreases |ts|
  {
    if ts == [] then Some(o)
    else
      var o' :- PopType(o, ts[|ts| - 1]);
      PopTypes(o', ts[..|ts| - 1])
  }

  function PushResult(o: Operands, t: Option<ValType>): (r: Option<Operands>)
    ensures r.Some? && o.segs != [] ==> SameBelow(o, r.value)
  {
    if t.None? then Some(o) else PushTag(o, Known(t.value))
  }

  /** Constrains the top operand: pop it and push it back. */
  function TopType(o: Operands, t: Option<ValType>): (r: Option<Operands>)
    ensures r.Some? ==> SameBelow(o, r.value)
  {
    if t.None? then Some(o)
    else
      var o' :- PopType(o, t.value);
      PushTag(o', Known(t.value))
  }

  function StartUnreachable(o: Operands): Operands
    requires o.segs != []
  {
    WithTop(o, Seg(true, []))
  }

  function PushScope(o: Operands): Operands {
    o.(segs := o.segs + [Seg(false, [])])
  }

  /** Leaves a scope that must hold exactly its result, which moves to the scope outside. */
  function PopScope(o: Operands, expected: Option<ValType>): (r: Option<Operands>)
    ensures r.Some? ==> o.segs != [] && |r.value.segs| == |o.segs| - 1
    ensures r.Some? && |o.segs| > 1 ==> SameBelow(o.(segs := o.segs[..|o.segs| - 1]), r.value)
  {
    var o' :- if expected.Some? then PopType(o, expected.value) else if o.segs == [] then None else Some(o);
    if Top(o').vals != [] then None
    else PushResult(o'.(segs := o'.segs[..|o'.segs| - 1]), expected)
  }

  datatype Kind = FuncBody | BlockBody | LoopBody | ThenBody | ElseBody

  /** An open structured instruction; `opener` is its position, -1 for the function itself. */
  datatype Ctrl = Ctrl(opener: int, kind: Kind, expected: Option<ValType>)

  /** A branch to a loop goes to its start and carries nothing. */
  function LabelType(c: Ctrl): Option<ValType> {
    if c.kind.LoopBody? then None else c.expected
  }

  datatype State = State(ctrls: seq<Ctrl>, ops: Operands)

  const RESULT_FLAG: nat := 0x8000_0000

  /** The operands above the entry of the label's scope, its result included. */
  function DepthChange(s: State, l: nat): int
    requires l < |s.ctrls| == |s.ops.segs|
  {
    DepthOf(s.ops) - EntryDepth(s.ops, |s.ctrls| - 1 - l)
  }

  function CheckTarget(s: State, l: nat): (r: Option<State>)
    requires |s.ctrls| == |s.ops.segs|
    ensures r.Some? ==> l < |s.ctrls| && r.value.ctrls == s.ctrls && SameBelow(s.ops, r.value.ops)
  {
    if l >= |s.ctrls| || DepthChange(s, l) >= RESULT_FLAG then None
    else
      var o :- TopType(s.ops, LabelType(s.ctrls[|s.ctrls| - 1 - l]));
      Some(s.(ops := o))
  }

  /** The state after the first `c` labels of a branch have been checked. */
  function CheckTargets(s: State, ls: seq<nat>, c: nat): (r: Option<State>)
    requires |s.ctrls| == |s.ops.segs| && c <= |ls|
    ensures r.Some? ==> r.value.ctrls == s.ctrls && SameBelow(s.ops, r.value.ops)
    ensures r.Some? ==> forall j :: 0 <= j < c ==> ls[j] < |s.ctrls|
  {
    if c == 0 then Some(s)
    else
      var s' :- CheckTargets(s, ls, c - 1);
      CheckTarget(s', ls[c - 1])
  }

  predicate IsBranch(t: Token) {
    t.Br? || t.BrIf? || t.BrTable? || t.Return?
  }

  /** The labels a branch may go to; `return` names the outermost one. */
  function Targets(s: State, t: Token): (ls: seq<nat>)
    requires IsBranch(t) && s.ctrls != []
    ensures |ls| > 0
  {
    match t
    case Br(l) => [l]
    case BrIf(l) => [l]
    case BrTable(ls, d) => ls + [d]
    case Return => [|s.ctrls| - 1]
  }

  function BeforeBranch(s: State, t: Token): (r: Option<State>)
    requires IsBranch(t)
    ensures r.Some? ==> r.value.ctrls == s.ctrls && SameBelow(s.ops, r.value.ops)
  {
    if t.BrIf? || t.BrTable? then
      var o :- PopType(s.ops, I32);
      Some(s.(ops := o))
    else Some(s)
  }

  predicate SameTypes(ctrls: seq<Ctrl>, ls: seq<nat>) {
    forall j :: 0 <= j < |ls| ==>
      ls[j] < |ctrls| && ls[0] < |ctrls| &&
      LabelType(ctrls[|ctrls| - 1 - ls[j]]) == LabelType(ctrls[|ctrls| - 1 - ls[0]])
  }

  function BranchStep(s: State, t: Token): (r: Option<State>)
    requires IsBranch(t) && s.ctrls != [] && |s.ctrls| == |s.ops.segs|
    ensures r.Some? ==> r.value.ctrls == s.ctrls && SameBelow(s.ops, r.value.ops)
  {
    var s0 :- BeforeBranch(s, t);
    var ls := Targets(s0, t);
    var s1 :- CheckTargets(s0, ls, |ls|);
    if t.BrIf? then Some(s1)
    else if t.BrTable? && !SameTypes(s.ctrls, ls) then None
    else Some(s1.(ops := StartUnreachable(s1.ops)))
  }

  function EndStep(s: State): (r: Option<State>)
    requires s.ctrls != [] && |s.ctrls| == |s.ops.segs|
    ensures r.Some? ==> r.value.ctrls == s.ctrls[..|s.ctrls| - 1] && |r.value.ctrls| == |r.value.ops.segs|
    ensures r.Some? && |s.ctrls| > 1 ==>
              SameBelow(s.ops.(segs := s.ops.segs[..|s.ops.segs| - 1]), r.value.ops)
  {
    var c := s.ctrls[|s.ctrls| - 1];
    if c.kind.ThenBody? && c.expected.Some? then None
    else
      var o :- PopScope(s.ops, c.expected);
      Some(State(s.ctrls[..|s.ctrls| - 1], o))
  }

  function ElseStep(s: State): (r: Option<State>)
    requires s.ctrls != [] && |s.ctrls| == |s.ops.segs|
    ensures r.Some? ==> |r.value.ctrls| == |s.ctrls| && SameBelow(s.ops, r.value.ops)
    ensures r.Some? ==> Top(r.value.ops) == Seg(false, [])
    ensures r.Some? ==> r.value.ctrls[..|s.ctrls| - 1] == s.ctrls[..|s.ctrls| - 1]
  {
    var c := s.ctrls[|s.ctrls| - 1];
    if !c.kind.ThenBody? then None
    else
      var o :- if c.expected.Some? then PopType(s.ops, c.expected.value) else Some(s.ops);
      if Top(o).vals != [] then None
      else Some(State(s.ctrls[|s.ctrls| - 1 := c.(kind := ElseBody)], WithTop(o, Seg(false, []))))
  }

  function Open(s: State, pos: nat, kind: Kind, bt: Option<ValType>): State {
    State(s.ctrls + [Ctrl(pos, kind, bt)], PushScope(s.ops))
  }

  function SelectStep(o: Operands): (r: Option<Operands>)
    ensures r.Some? ==> SameBelow(o, r.value)
  {
    var o1 :- PopType(o, I32);
    var p0 :- PopTag(o1);
    var p1 :- PopTag(p0.rest);
    if p0.tag == p1.tag || p0.tag == Any || p1.tag == Any
    then PushTag(p1.rest, if p0.tag != Any then p0.tag else p1.tag) else None
  }

  function LocalTypeAt(fd: FuncDecl, i: nat): Option<ValType> {
    if i < |LocalTypes(fd)| then Some(LocalTypes(fd)[i]) else None
  }

  /** Instructions that neither open, close nor leave a scope. */
  function StraightStep(m: Module, fd: FuncDecl, o: Operands, t: Token): (r: Option<Operands>)
    requires o.segs != []
    ensures r.Some? ==> SameBelow(o, r.value)
  {
    match t
    case Plain(op) =>
      var sig :- PlainSig(m.globals, op);
      var o' :- PopTypes(o, sig.ins);
      PushResult(o', if sig.outs == [] then None else Some(sig.outs[0]))
    case Unreachable => Some(StartUnreachable(o))
    case Drop => var p :- PopTag(o); Some(p.rest)
    case Select => SelectStep(o)
    case LocalGet(i) => var lt :- LocalTypeAt(fd, i); PushTag(o, Known(lt))
    case LocalSet(i) => var lt :- LocalTypeAt(fd, i); PopType(o, lt)
    case LocalTee(i) => var lt :- LocalTypeAt(fd, i); TopType(o, Some(lt))
    case Call(f) =>
      var ft :- TypeOfFunc(m, f);
      var o' :- PopTypes(o, ft.params);
      PushResult(o', ft.result)
    case _ => None
  }

  predicate IsStraight(t: Token) {
    t.Plain? || t.Unreachable? || t.Drop? || t.Select? || t.LocalGet? || t.LocalSet? || t.LocalTee? || t.Call?
  }

  /** One iteration of the parser's loop: None is a rejected module. */
  function Step(m: Module, fd: FuncDecl, s: State, t: Token, pos: nat): (r: Option<State>)
    requires |s.ctrls| == |s.ops.segs|
    ensures r.Some? ==> s.ctrls != [] && |r.value.ctrls| == |r.value.ops.segs|
  {
    if s.ctrls == [] then None
    else if t.Block? then Some(Open(s, pos, BlockBody, t.bt))
    else if t.Loop? then Some(Open(s, pos, LoopBody, t.bt))
    else if t.If? then var o :- PopType(s.ops, I32); Some(Open(s.(ops := o), pos, ThenBody, t.bt))
    else if t.Else? then ElseStep(s)
    else if t.End? then EndStep(s)
    else if IsBranch(t) then BranchStep(s, t)
    else var o :- StraightStep(m, fd, s.ops, t); Some(s.(ops := o))
  }

  function Init(fd: FuncDecl): State {
    State([Ctrl(-1, FuncBody, fd.ft.result)], Operands([], [Seg(false, [])], 0))
  }

  /** The state before instruction `n`. */
  function Run(m: Module, fd: FuncDecl, n: nat): (r: Option<State>)
    requires n <= |fd.body|
    ensures r.Some? ==> |r.value.ctrls| == |r.value.ops.segs|
  {
    if n == 0 then Some(Init(fd))
    else
      var s :- Run(m, fd, n - 1);
      Step(m, fd, s, fd.body[n - 1], n - 1)
  }

  /** The whole body is consumed and every scope is closed, and local indices have 32 bits. */
  predicate Accepts(m: Module, fd: FuncDecl) {
    var r := Run(m, fd, |fd.body|);
    r.Some? && r.value.ctrls == [] && |LocalTypes(fd)| < U32_LIMIT
  }

  /** What one function contributes to `maximum_stack`: its operands and its declared locals. */
  function FuncStack(m: Module, fd: FuncDecl): nat
    requires Accepts(m, fd)
  {
    Run(m, fd, |fd.body|).value.ops.maxDepth + |Expand(fd.locals)|
  }

  lemma {:induction false} RunPrefix(m: Module, fd: FuncDecl, i: nat, n: nat)
    requires i <= n <= |fd.body| && Run(m, fd, n).Some?
    ensures Run(m, fd, i).Some?
    ensures i < n ==> Run(m, fd, i).value.ctrls != []
    decreases n - i
  {
    hide Step;
    if i < n {
      assert Run(m, fd, n - 1).Some?;
      RunPrefix(m, fd, i, n - 1);
    }
  }
}

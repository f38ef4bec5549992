/** Structured instructions and token positions: a balanced stretch of an accepted body leaves
    the open scopes as it found them, and every accepted body is structured. */
module Nesting {
  import opened Wasm
  import opened Validator
  import opened Scopes
  import opened Source

  /** Every instruction of an accepted body is reached with a scope open. */
  lemma RunAll(m: Module, fd: FuncDecl, i: nat)
    requires Accepts(m, fd) && i <= |fd.body|
    ensures Run(m, fd, i).Some?
    ensures i < |fd.body| ==> Run(m, fd, i).value.ctrls != []
  {
    hide Step;
    RunPrefix(m, fd, i, |fd.body|);
  }

  /** One token: what it does to the open scopes, and that it closes no scope but the innermost. */
  lemma TokenStep(m: Module, fd: FuncDecl, i: nat, o: int)
    requires Accepts(m, fd) && i < |fd.body|
    ensures
      var cs, t := CtrlsAt(m, fd, i), fd.body[i];
      && cs != []
      && (Opens(t) ==> CtrlsAt(m, fd, i + 1) == cs + [Ctrl(i, KindOf(t), t.bt)])
      && (t.End? ==> CtrlsAt(m, fd, i + 1) == cs[..|cs| - 1])
      && (t.Else? ==> cs[|cs| - 1].kind.ThenBody?)
      && (t.Else? ==> CtrlsAt(m, fd, i + 1) == cs[..|cs| - 1] + [cs[|cs| - 1].(kind := ElseBody)])
      && (!Opens(t) && !t.End? && !t.Else? ==> CtrlsAt(m, fd, i + 1) == cs)
      && ((!t.End? && !t.Else?) || cs[|cs| - 1].opener != o ==> FindClose(m, fd, o, i) == FindClose(m, fd, o, i + 1))
      && ((t.End? || t.Else?) && cs[|cs| - 1].opener == o ==> FindClose(m, fd, o, i) == i)
  {
    hide Step, Accepts;
    RunAll(m, fd, i);
    RunAll(m, fd, i + 1);
    StepShape(m, fd, Run(m, fd, i).value, fd.body[i], i);
  }

  /** A structured sequence neither closes nor changes a scope that was open before it. */
  lemma {:induction false} Balanced(m: Module, fd: FuncDecl, i: nat, c: Instrs, o: int)
    requires Accepts(m, fd) && CodeAt(fd.body, i, c) && i + Len(c) < |fd.body|
    requires o < i
    ensures CtrlsAt(m, fd, i + Len(c)) == CtrlsAt(m, fd, i)
    ensures FindClose(m, fd, o, i) == FindClose(m, fd, o, i + Len(c))
    decreases c, 1
  {
    hide Run, Accepts, FindClose, CtrlsAt, InstrAt;
    if c.ICons? {
      BalancedInstr(m, fd, i, c.hd, o);
      Balanced(m, fd, i + LenI(c.hd), c.tl, o);
    }
  }

  lemma {:induction false} BalancedInstr(m: Module, fd: FuncDecl, i: nat, hd: Instr, o: int)
    requires Accepts(m, fd) && InstrAt(fd.body, i, hd) && i + LenI(hd) < |fd.body|
    requires o < i
    ensures CtrlsAt(m, fd, i + LenI(hd)) == CtrlsAt(m, fd, i)
    ensures FindClose(m, fd, o, i) == FindClose(m, fd, o, i + LenI(hd))
    ensures !hd.Basic? ==> EndOf(m, fd, i) == i + LenI(hd) - 1
    ensures hd.IfI? ==> Close(m, fd, i) == i + 1 + Len(hd.thn)
    decreases hd, 1
  {
    hide Run, Accepts, FindClose, CtrlsAt, Close, EndOf, CodeAt, Len, Step;
    if hd.IfI? && hd.hasElse {
      BalancedIfElse(m, fd, i, hd, o);
    } else if !hd.Basic? {
      BalancedBlock(m, fd, i, hd, o);
    } else {
      TokenStep(m, fd, i, o);
    }
  }

  lemma {:induction false} BalancedIfElse(m: Module, fd: FuncDecl, i: nat, hd: Instr, o: int)
    requires Accepts(m, fd) && InstrAt(fd.body, i, hd) && i + LenI(hd) < |fd.body|
    requires o < i && hd.IfI? && hd.hasElse
    ensures CtrlsAt(m, fd, i + LenI(hd)) == CtrlsAt(m, fd, i)
    ensures FindClose(m, fd, o, i) == FindClose(m, fd, o, i + LenI(hd))
    ensures EndOf(m, fd, i) == i + LenI(hd) - 1
    ensures Close(m, fd, i) == i + 1 + Len(hd.thn)
    decreases hd, 0
  {
    hide Run, Accepts, FindClose, CtrlsAt, Close, EndOf, CodeAt, Len, Step;
    var e1 := i + 1 + Len(hd.thn);
    var e2 := e1 + 1 + Len(hd.els);
    Balanced(m, fd, i + 1, hd.thn, o);
    Balanced(m, fd, i + 1, hd.thn, i);
    Balanced(m, fd, e1 + 1, hd.els, o);
    Balanced(m, fd, e1 + 1, hd.els, i);
    TwoPartScope(m, fd, i, e1, e2, o);
  }

  lemma {:induction false} BalancedBlock(m: Module, fd: FuncDecl, i: nat, hd: Instr, o: int)
    requires Accepts(m, fd) && InstrAt(fd.body, i, hd) && i + LenI(hd) < |fd.body|
    requires o < i && !hd.Basic? && !(hd.IfI? && hd.hasElse)
    ensures CtrlsAt(m, fd, i + LenI(hd)) == CtrlsAt(m, fd, i)
    ensures FindClose(m, fd, o, i) == FindClose(m, fd, o, i + LenI(hd))
    ensures EndOf(m, fd, i) == i + LenI(hd) - 1
    ensures hd.IfI? ==> Close(m, fd, i) == i + 1 + Len(hd.thn)
    decreases hd, 0
  {
    hide Run, Accepts, FindClose, CtrlsAt, Close, EndOf, CodeAt, Len, Step;
    var b := if hd.IfI? then hd.thn else hd.body;
    Balanced(m, fd, i + 1, b, o);
    Balanced(m, fd, i + 1, b, i);
    OnePartScope(m, fd, i, i + 1 + Len(b), o);
  }

  /** A scope opened at `i` with a balanced body up to its `end` at `e`. */
  lemma OnePartScope(m: Module, fd: FuncDecl, i: nat, e: nat, o: int)
    requires Accepts(m, fd) && o < i < e && e + 1 < |fd.body| && Opens(fd.body[i]) && fd.body[e].End?
    requires CtrlsAt(m, fd, e) == CtrlsAt(m, fd, i + 1)
    requires forall x :: x == o || x == i ==> FindClose(m, fd, x, i + 1) == FindClose(m, fd, x, e)
    ensures CtrlsAt(m, fd, e + 1) == CtrlsAt(m, fd, i)
    ensures FindClose(m, fd, o, i) == FindClose(m, fd, o, e + 1)
    ensures Close(m, fd, i) == EndOf(m, fd, i) == e
  {
    hide Run, Accepts, FindClose, CtrlsAt;
    TokenStep(m, fd, i, o);
    TokenStep(m, fd, e, o);
    TokenStep(m, fd, e, i);
  }

  /** The same with an `else` at `e1`. */
  lemma TwoPartScope(m: Module, fd: FuncDecl, i: nat, e1: nat, e2: nat, o: int)
    requires Accepts(m, fd) && o < i < e1 < e2 && e2 + 1 < |fd.body|
    requires Opens(fd.body[i]) && fd.body[e1].Else? && fd.body[e2].End?
    requires CtrlsAt(m, fd, e1) == CtrlsAt(m, fd, i + 1) && CtrlsAt(m, fd, e2) == CtrlsAt(m, fd, e1 + 1)
    requires forall x :: x == o || x == i ==> FindClose(m, fd, x, i + 1) == FindClose(m, fd, x, e1)
    requires forall x :: x == o || x == i ==> FindClose(m, fd, x, e1 + 1) == FindClose(m, fd, x, e2)
    ensures CtrlsAt(m, fd, e2 + 1) == CtrlsAt(m, fd, i)
    ensures FindClose(m, fd, o, i) == FindClose(m, fd, o, e2 + 1)
    ensures Close(m, fd, i) == e1 && EndOf(m, fd, i) == e2
  {
    hide Run, Accepts, FindClose, CtrlsAt;
    TokenStep(m, fd, i, o);
    TokenStep(m, fd, e1, o);
    TokenStep(m, fd, e1, i);
    TokenStep(m, fd, e2, o);
    TokenStep(m, fd, e2, i);
  }

  /** Reads off the structured sequence that starts at `i` and ends at an `end` or `else`. */
  lemma {:induction false} Structured(m: Module, fd: FuncDecl, i: nat) returns (c: Instrs)
    requires Accepts(m, fd) && i < |fd.body|
    ensures CodeAt(fd.body, i, c) && i + Len(c) < |fd.body|
    ensures fd.body[i + Len(c)].End? || fd.body[i + Len(c)].Else?
    ensures CtrlsAt(m, fd, i + Len(c)) == CtrlsAt(m, fd, i)
    decreases |fd.body| - i
  {
    hide Run, Accepts, FindClose, CtrlsAt, Step, InstrAt, CodeAt, Len, LenI, EndOf, Close;
    var t := fd.body[i];
    if t.End? || t.Else? {
      Empty(fd.body, i);
      return INil;
    }
    var hd: Instr;
    if Opens(t) {
      hd := StructuredInstr(m, fd, i);
      BalancedInstr(m, fd, i, hd, -2);
    } else {
      hd := Basic(t);
      Single(fd.body, i);
      TokenStep(m, fd, i, -2);
      ScopeRemains(m, fd, i + 1);
    }
    var tl := Structured(m, fd, i + LenI(hd));
    Cons(fd.body, i, hd, tl);
    c := ICons(hd, tl);
  }

  lemma Empty(body: seq<Token>, i: nat)
    requires i <= |body|
    ensures CodeAt(body, i, INil) && Len(INil) == 0
  {
  }

  lemma Single(body: seq<Token>, i: nat)
    requires i < |body| && !Opens(body[i]) && !body[i].End? && !body[i].Else?
    ensures InstrAt(body, i, Basic(body[i])) && LenI(Basic(body[i])) == 1
  {
  }

  lemma Cons(body: seq<Token>, i: nat, hd: Instr, tl: Instrs)
    requires InstrAt(body, i, hd) && CodeAt(body, i + LenI(hd), tl)
    ensures CodeAt(body, i, ICons(hd, tl)) && Len(ICons(hd, tl)) == LenI(hd) + Len(tl)
  {
  }

  lemma {:induction false} StructuredInstr(m: Module, fd: FuncDecl, i: nat) returns (hd: Instr)
    requires Accepts(m, fd) && i < |fd.body| && Opens(fd.body[i])
    ensures InstrAt(fd.body, i, hd) && i + LenI(hd) <= |fd.body| && LenI(hd) > 0
    ensures i + LenI(hd) < |fd.body|
    decreases |fd.body| - i, 0
  {
    hide Run, Accepts, FindClose, CtrlsAt, Step, CodeAt, Len, LabelType, InstrAt, LenI;
    var t := fd.body[i];
    TokenStep(m, fd, i, -2);
    ScopeRemains(m, fd, i + 1);
    var c1 := Structured(m, fd, i + 1);
    var e1 := i + 1 + Len(c1);
    TokenStep(m, fd, e1, -2);
    ScopeRemains(m, fd, e1 + 1);
    if fd.body[e1].Else? {
      var c2 := Structured(m, fd, e1 + 1);
      var e2 := e1 + 1 + Len(c2);
      TokenStep(m, fd, e2, -2);
      ScopeRemains(m, fd, e2 + 1);
      hd := IfElseAt(fd.body, i, c1, c2);
    } else {
      hd := ScopeAt(fd.body, i, c1);
    }
  }

  /** A block, a loop, or an if without a second part. */
  lemma ScopeAt(body: seq<Token>, i: nat, c: Instrs) returns (hd: Instr)
    requires i < |body| && Opens(body[i]) && CodeAt(body, i + 1, c) && TokenAt(body, i + 1 + Len(c), End)
    ensures InstrAt(body, i, hd) && LenI(hd) == Len(c) + 2
  {
    hide CodeAt, Len;
    var t := body[i];
    hd := if t.If? then IfI(t.bt, c, false, INil) else if t.Loop? then LoopI(t.bt, c) else BlockI(t.bt, c);
    assert TokenAt(body, i, t);
  }

  lemma IfElseAt(body: seq<Token>, i: nat, c1: Instrs, c2: Instrs) returns (hd: Instr)
    requires i < |body| && body[i].If? && CodeAt(body, i + 1, c1) && TokenAt(body, i + 1 + Len(c1), Else)
    requires CodeAt(body, i + 2 + Len(c1), c2) && TokenAt(body, i + 2 + Len(c1) + Len(c2), End)
    ensures InstrAt(body, i, hd) && LenI(hd) == Len(c1) + Len(c2) + 3
  {
    hide CodeAt, Len;
    hd := IfI(body[i].bt, c1, true, c2);
    assert TokenAt(body, i, body[i]);
  }

  lemma ScopeRemains(m: Module, fd: FuncDecl, i: nat)
    requires Accepts(m, fd) && i <= |fd.body|
    ensures i < |fd.body| <==> CtrlsAt(m, fd, i) != []
  {
    hide Step;
    RunAll(m, fd, i);
  }

  /** Grammar soundness: the tokens of an accepted body are a structured sequence and `end`. */
  lemma AcceptedIsStructured(m: Module, fd: FuncDecl)
    requires Accepts(m, fd)
    ensures exists c: Instrs :: IsBody(fd.body, c)
  {
    hide Step, Accepts;
    ScopeRemains(m, fd, 0);
    var c := Structured(m, fd, 0);
    TokenStep(m, fd, Len(c), -2);
    ScopeRemains(m, fd, Len(c) + 1);
    assert IsBody(fd.body, c);
  }
}

/** How scopes nest along an accepted body: what an open scope remembers, and where it closes. */
module Scopes {
  import opened Wasm
  import opened Validator

  predicate Opens(t: Token) {
    t.Block? || t.Loop? || t.If?
  }

  function KindOf(t: Token): Kind
    requires Opens(t)
  {
    if t.Block? then BlockBody else if t.Loop? then LoopBody else ThenBody
  }

  function Last(s: State): Ctrl
    requires s.ctrls != []
  {
    s.ctrls[|s.ctrls| - 1]
  }

  /** The effect of one step on the scopes: only the innermost scope is touched. */
  lemma StepShape(m: Module, fd: FuncDecl, s: State, t: Token, pos: nat)
    requires |s.ctrls| == |s.ops.segs| && Step(m, fd, s, t, pos).Some?
    ensures
      var r := Step(m, fd, s, t, pos).value;
      && (Opens(t) ==>
            && r.ctrls == s.ctrls + [Ctrl(pos, KindOf(t), t.bt)]
            && r.ops.segs[|s.ctrls|] == Seg(false, [])
            && (!t.If? ==> r.ops.segs[..|s.ctrls|] == s.ops.segs))
      && (r.ctrls != [] ==> r.ops.root == s.ops.root)
      && (t.End? ==> r.ctrls == s.ctrls[..|s.ctrls| - 1])
      && (t.Else? ==> Last(s).kind.ThenBody? && r.ctrls == s.ctrls[|s.ctrls| - 1 := Last(s).(kind := ElseBody)])
      && (!Opens(t) && !t.End? && !t.Else? ==> r.ctrls == s.ctrls)
      && (forall k {:trigger r.ops.segs[k]} :: 0 <= k < |s.ctrls| - 1 && k < |r.ctrls| - 1 ==>
        r.ops.segs[k] == s.ops.segs[k])
  {
    var r := Step(m, fd, s, t, pos).value;
    if t.End? {
      if |s.ctrls| > 1 {
        SegsBelow(s.ops.(segs := s.ops.segs[..|s.ops.segs| - 1]), r.ops);
      }
    } else if t.If? {
      var o := PopType(s.ops, I32).value;
      SegsBelow(s.ops, o);
    } else if !Opens(t) {
      SegsBelow(s.ops, r.ops);
    }
  }

  lemma SegsBelow(o: Operands, r: Operands)
    requires SameBelow(o, r)
    ensures forall k {:trigger r.segs[k]} :: 0 <= k < |o.segs| - 1 ==> r.segs[k] == o.segs[k]
  {
    forall k | 0 <= k < |o.segs| - 1
      ensures r.segs[k] == o.segs[k]
    {
      assert r.segs[..|r.segs| - 1][k] == o.segs[..|o.segs| - 1][k];
    }
  }

  /** `e` holds the `else` or `end` of the scope opened at `o`. */
  predicate IsClose(m: Module, fd: FuncDecl, o: int, e: nat) {
    && e < |fd.body|
    && (fd.body[e].End? || fd.body[e].Else?)
    && Run(m, fd, e).Some?
    && Run(m, fd, e).value.ctrls != []
    && Last(Run(m, fd, e).value).opener == o
  }

  /** The first `else` or `end` of the scope opened at `o`, from position `e` on; the length
      of the body if there is none. */
  function FindClose(m: Module, fd: FuncDecl, o: int, e: nat): (r: nat)
    requires e <= |fd.body|
    ensures e <= r <= |fd.body|
    ensures r < |fd.body| ==> IsClose(m, fd, o, r)
    ensures forall i :: e <= i < r ==> !IsClose(m, fd, o, i)
    decreases |fd.body| - e
  {
    if e == |fd.body| || IsClose(m, fd, o, e) then e else FindClose(m, fd, o, e + 1)
  }

  function Close(m: Module, fd: FuncDecl, o: int): (r: nat)
    requires -1 <= o < |fd.body|
    ensures o < r <= |fd.body|
  {
    FindClose(m, fd, o, o + 1)
  }

  /** The `end` of the scope opened at `o`, past its `else` if it has one. */
  function EndOf(m: Module, fd: FuncDecl, o: int): (r: nat)
    requires -1 <= o < |fd.body|
    ensures o < r <= |fd.body|
    ensures r < |fd.body| ==> IsClose(m, fd, o, r)
  {
    var c := Close(m, fd, o);
    if c < |fd.body| && fd.body[c].Else? then FindClose(m, fd, o, c + 1) else c
  }

  /** What the state before instruction `n` says about its open scope `k`. */
  predicate ScopeOk(m: Module, fd: FuncDecl, n: nat, k: nat)
    requires n <= |fd.body| && Run(m, fd, n).Some?
  {
    var s := Run(m, fd, n).value;
    k < |s.ctrls| ==>
      var c := s.ctrls[k];
      && -1 <= c.opener < n
      && (k == 0 ==> c == Ctrl(-1, FuncBody, fd.ft.result))
      && (k > 0 ==> c.opener >= 0 && Opens(fd.body[c.opener]) && c.expected == fd.body[c.opener].bt &&
                    (c.kind == KindOf(fd.body[c.opener]) || (c.kind.ElseBody? && fd.body[c.opener].If?)))
      && Run(m, fd, c.opener + 1).Some?
      && |Run(m, fd, c.opener + 1).value.ctrls| == k + 1
      && (forall j :: 0 <= j < k ==> s.ctrls[j].opener < c.opener)
      && (forall j :: 0 <= j < k ==>
            Run(m, fd, c.opener + 1).value.ctrls[j] == s.ctrls[j] &&
            Run(m, fd, c.opener + 1).value.ops.segs[j] == s.ops.segs[j])
      && if c.kind.ElseBody?
         then Close(m, fd, c.opener) < n && fd.body[Close(m, fd, c.opener)].Else? &&
              EndOf(m, fd, c.opener) == FindClose(m, fd, c.opener, n)
         else Close(m, fd, c.opener) == FindClose(m, fd, c.opener, n)
  }

  predicate ScopesHold(m: Module, fd: FuncDecl, n: nat) {
    n <= |fd.body| && Run(m, fd, n).Some? && forall j :: 0 <= j < |Run(m, fd, n).value.ctrls| ==> ScopeOk(m, fd, n, j)
  }

  lemma {:induction false} ScopesOk(m: Module, fd: FuncDecl, n: nat, k: nat)
    requires n <= |fd.body| && Run(m, fd, n).Some?
    ensures ScopeOk(m, fd, n, k)
    decreases n
  {
    hide Step, ScopeOk, Run;
    if k >= |Run(m, fd, n).value.ctrls| {
      NoScope(m, fd, n, k);
    } else if n == 0 {
      FirstScope(m, fd, k);
    } else {
      RunLast(m, fd, n - 1);
      var p := Run(m, fd, n - 1).value;
      StepShape(m, fd, p, fd.body[n - 1], n - 1);
      forall j {:trigger ScopeOk(m, fd, n - 1, j)} | 0 <= j < |p.ctrls|
        ensures ScopeOk(m, fd, n - 1, j)
      {
        ScopesOk(m, fd, n - 1, j);
      }
      assert ScopesHold(m, fd, n - 1);
      if k < |p.ctrls| {
        ScopeKept(m, fd, n - 1, k);
      } else {
        ScopeOpened(m, fd, n - 1);
      }
    }
  }

  lemma NoScope(m: Module, fd: FuncDecl, n: nat, k: nat)
    requires n <= |fd.body| && Run(m, fd, n).Some? && k >= |Run(m, fd, n).value.ctrls|
    ensures ScopeOk(m, fd, n, k)
  {
    hide Run, Step;
  }

  lemma FirstScope(m: Module, fd: FuncDecl, k: nat)
    requires Run(m, fd, 0).Some?
    ensures ScopeOk(m, fd, 0, k)
  {
    hide Step, IsClose, FindClose;
  }

  lemma RunLast(m: Module, fd: FuncDecl, n: nat)
    requires n < |fd.body| && Run(m, fd, n + 1).Some?
    ensures Run(m, fd, n).Some? && Run(m, fd, n + 1) == Step(m, fd, Run(m, fd, n).value, fd.body[n], n)
  {
    hide Step;
  }

  /** The open scopes before instruction `n`. */
  function CtrlsAt(m: Module, fd: FuncDecl, n: nat): seq<Ctrl> {
    if n <= |fd.body| && Run(m, fd, n).Some? then Run(m, fd, n).value.ctrls else []
  }

  /** The last instruction of an accepted body is an `end`. */
  lemma StepToEmpty(m: Module, fd: FuncDecl)
    requires Accepts(m, fd)
    ensures |fd.body| > 0 && fd.body[|fd.body| - 1].End?
  {
    hide Step;
    var n := |fd.body| - 1;
    StepShape(m, fd, Run(m, fd, n).value, fd.body[n], n);
  }

  lemma ScopeOpened(m: Module, fd: FuncDecl, n: nat)
    requires n < |fd.body| && Run(m, fd, n + 1).Some?
    requires Opens(fd.body[n]) && ScopesHold(m, fd, n)
    ensures ScopeOk(m, fd, n + 1, |CtrlsAt(m, fd, n)|)
  {
    hide Step, Run, IsClose, FindClose, ScopeOk;
    RunLast(m, fd, n);
    var p := Run(m, fd, n).value;
    StepShape(m, fd, p, fd.body[n], n);
    forall j | 0 <= j < |p.ctrls|
      ensures p.ctrls[j].opener < n
    {
      assert ScopeOk(m, fd, n, j);
      OpenerBefore(m, fd, n, j);
    }
    NewScope(m, fd, n, p, Run(m, fd, n + 1).value);
  }

  lemma OpenerBefore(m: Module, fd: FuncDecl, n: nat, k: nat)
    requires n <= |fd.body| && Run(m, fd, n).Some? && ScopeOk(m, fd, n, k) && k < |Run(m, fd, n).value.ctrls|
    ensures -1 <= Run(m, fd, n).value.ctrls[k].opener < n
    ensures forall j :: 0 <= j < k ==> Run(m, fd, n).value.ctrls[j].opener < Run(m, fd, n).value.ctrls[k].opener
  {
    hide Run, IsClose, FindClose, Close, EndOf;
  }

  /** Only an `if` opens a scope with a first part, and only a `loop` opens a loop. */
  lemma OpenerKind(m: Module, fd: FuncDecl, n: nat, k: nat)
    requires n <= |fd.body| && Run(m, fd, n).Some? && k < |Run(m, fd, n).value.ctrls| && ScopeOk(m, fd, n, k)
    ensures
      var c := Run(m, fd, n).value.ctrls[k];
      && (c.kind.ThenBody? ==> 0 <= c.opener < n && fd.body[c.opener].If?)
      && (c.kind.LoopBody? ==> 0 <= c.opener < n && fd.body[c.opener].Loop?)
  {
    hide Run, IsClose, FindClose, Close, EndOf;
  }

  /** A scope that has just been opened has nothing closed behind it. */
  lemma NewScope(m: Module, fd: FuncDecl, n: nat, p: State, s: State)
    requires n < |fd.body| && Run(m, fd, n) == Some(p) && Run(m, fd, n + 1) == Some(s) && Opens(fd.body[n])
    requires p.ctrls != [] && s.ctrls == p.ctrls + [Ctrl(n, KindOf(fd.body[n]), fd.body[n].bt)]
    requires forall j :: 0 <= j < |p.ctrls| ==> p.ctrls[j].opener < n
    ensures ScopeOk(m, fd, n + 1, |p.ctrls|)
  {
    hide Run, IsClose, FindClose;
  }

  lemma ScopeKept(m: Module, fd: FuncDecl, n: nat, k: nat)
    requires n < |fd.body| && ScopesHold(m, fd, n) && Run(m, fd, n + 1).Some?
    requires k < |CtrlsAt(m, fd, n)| && k < |CtrlsAt(m, fd, n + 1)|
    ensures ScopeOk(m, fd, n + 1, k)
  {
    hide Step, Run, ScopeOk, IsClose;
    RunLast(m, fd, n);
    var p, s := Run(m, fd, n).value, Run(m, fd, n + 1).value;
    StepShape(m, fd, p, fd.body[n], n);
    assert ScopeOk(m, fd, n, k);
    if fd.body[n].Else? && k == |p.ctrls| - 1 {
      ScopeElse(m, fd, n, p, s);
    } else {
      NotClosed(m, fd, n, k);
      ScopeSame(m, fd, n, k, p, s);
    }
  }

  /** Scopes below the innermost one are not closed, and none is but by an `else` or `end`. */
  lemma NotClosed(m: Module, fd: FuncDecl, n: nat, k: nat)
    requires n < |fd.body| && ScopesHold(m, fd, n) && k < |Run(m, fd, n).value.ctrls|
    requires fd.body[n].Else? || fd.body[n].End? ==> k < |Run(m, fd, n).value.ctrls| - 1
    ensures !IsClose(m, fd, Run(m, fd, n).value.ctrls[k].opener, n)
  {
    hide Run, ScopeOk;
    var p := Run(m, fd, n).value;
    assert ScopeOk(m, fd, n, |p.ctrls| - 1);
    OpenerBefore(m, fd, n, |p.ctrls| - 1);
  }

  lemma FindNext(m: Module, fd: FuncDecl, o: int, n: nat)
    requires n < |fd.body| && !IsClose(m, fd, o, n)
    ensures FindClose(m, fd, o, n) == FindClose(m, fd, o, n + 1)
  {
    hide IsClose;
  }

  /** The scopes outside scope `k` are the same in both states. */
  predicate SameOutside(p: State, s: State, k: nat) {
    && k < |p.ctrls| && k < |s.ctrls| && k < |p.ops.segs| && k < |s.ops.segs|
    && forall j :: 0 <= j < k ==> s.ctrls[j] == p.ctrls[j] && s.ops.segs[j] == p.ops.segs[j]
  }

  /** An instruction that does not close a scope leaves it as it was. */
  lemma ScopeSame(m: Module, fd: FuncDecl, n: nat, k: nat, p: State, s: State)
    requires n < |fd.body| && Run(m, fd, n) == Some(p) && Run(m, fd, n + 1) == Some(s)
    requires SameOutside(p, s, k) && s.ctrls[k] == p.ctrls[k]
    requires !IsClose(m, fd, p.ctrls[k].opener, n)
    requires ScopeOk(m, fd, n, k)
    ensures ScopeOk(m, fd, n + 1, k)
  {
    hide Run, IsClose, FindClose, Close, EndOf;
    FindNext(m, fd, p.ctrls[k].opener, n);
  }

  /** An `else` closes the first part of the innermost scope. */
  lemma ScopeElse(m: Module, fd: FuncDecl, n: nat, p: State, s: State)
    requires n < |fd.body| && Run(m, fd, n) == Some(p) && Run(m, fd, n + 1) == Some(s) && fd.body[n].Else?
    requires p.ctrls != [] && Last(p).kind.ThenBody? && SameOutside(p, s, |p.ctrls| - 1)
    requires s.ctrls == p.ctrls[|p.ctrls| - 1 := Last(p).(kind := ElseBody)]
    requires ScopeOk(m, fd, n, |p.ctrls| - 1)
    ensures ScopeOk(m, fd, n + 1, |p.ctrls| - 1)
  {
    hide Run, IsClose, FindClose, Close, EndOf;
    assert IsClose(m, fd, Last(p).opener, n) by { ElseIsClose(m, fd, n, p); }
    ElseCloses(m, fd, n, Last(p).opener);
  }

  lemma ElseIsClose(m: Module, fd: FuncDecl, n: nat, p: State)
    requires n < |fd.body| && Run(m, fd, n) == Some(p) && fd.body[n].Else? && p.ctrls != []
    ensures IsClose(m, fd, Last(p).opener, n)
  {
    hide Run;
  }

  lemma ElseCloses(m: Module, fd: FuncDecl, n: nat, o: int)
    requires -1 <= o < n < |fd.body| && fd.body[n].Else? && IsClose(m, fd, o, n)
    requires Close(m, fd, o) == FindClose(m, fd, o, n)
    ensures Close(m, fd, o) == n && EndOf(m, fd, o) == FindClose(m, fd, o, n + 1)
  {
    hide IsClose;
  }
}

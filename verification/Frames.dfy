/** What the validation algorithm promises about a running frame: its operands have the types it
    tracked, and every label continues where the positions say. */
module Frames {
  import opened Wasm
  import opened Validator
  import opened Scopes
  import opened Source
  import opened Nesting

  /** `vals` are the operands of a scope, but for `pending` results still to come on top. */
  predicate SegOk(seg: Seg, vals: seq<Value>, pending: seq<ValType>) {
    && !seg.unreachable
    && |seg.vals| == |vals| + |pending|
    && (forall i :: 0 <= i < |vals| ==> seg.vals[i] == Known(TypeOf(vals[i])))
    && (forall i :: 0 <= i < |pending| ==> seg.vals[|vals| + i] == Known(pending[i]))
  }

  lemma PopTypeOk(o: Operands, t: ValType, vals: seq<Value>)
    requires o.segs != [] && SegOk(Top(o), vals, []) && PopType(o, t).Some?
    ensures vals != [] && TypeOf(vals[|vals| - 1]) == t
    ensures SegOk(Top(PopType(o, t).value), vals[..|vals| - 1], [])
  {
  }

  lemma PopTagOk(o: Operands, vals: seq<Value>)
    requires o.segs != [] && SegOk(Top(o), vals, []) && PopTag(o).Some?
    ensures vals != [] && PopTag(o).value.tag == Known(TypeOf(vals[|vals| - 1]))
    ensures SegOk(Top(PopTag(o).value.rest), vals[..|vals| - 1], [])
  {
  }

  lemma PushTagOk(o: Operands, t: Tag, vals: seq<Value>, v: Value)
    requires o.segs != [] && SegOk(Top(o), vals, []) && PushTag(o, t).Some? && t == Known(TypeOf(v))
    ensures SegOk(Top(PushTag(o, t).value), vals + [v], [])
  {
  }

  lemma {:induction false} PopTypesOk(o: Operands, ts: seq<ValType>, vals: seq<Value>)
    requires o.segs != [] && SegOk(Top(o), vals, []) && PopTypes(o, ts).Some?
    ensures |ts| <= |vals|
    ensures HasTypes(vals[|vals| - |ts|..], ts)
    ensures SegOk(Top(PopTypes(o, ts).value), vals[..|vals| - |ts|], [])
    decreases |ts|
  {
    hide PopType, SegOk;
    if ts != [] {
      var n := |ts| - 1;
      PopTypeOk(o, ts[n], vals);
      var o' := PopType(o, ts[n]).value;
      var init := vals[..|vals| - 1];
      PopTypesOk(o', ts[..n], init);
      assert init[..|init| - n] == vals[..|vals| - |ts|];
      forall i | 0 <= i < |ts|
        ensures TypeOf(vals[|vals| - |ts|..][i]) == ts[i]
      {
        if i < n {
          assert vals[|vals| - |ts|..][i] == init[|init| - n..][i];
        }
      }
    } else {
      assert vals[..|vals|] == vals;
    }
  }

  lemma PushResultOk(o: Operands, t: Option<ValType>, vals: seq<Value>, results: seq<Value>)
    requires o.segs != [] && SegOk(Top(o), vals, []) && PushResult(o, t).Some?
    requires HasTypes(results, ResultTypes(t))
    ensures SegOk(Top(PushResult(o, t).value), vals + results, [])
  {
    if t.Some? {
      PushTagOk(o, Known(t.value), vals, results[0]);
      assert results == [results[0]];
    } else {
      assert vals + results == vals;
    }
  }

  /** The same while the result is still pending. */
  lemma PushResultPending(o: Operands, t: Option<ValType>, vals: seq<Value>)
    requires o.segs != [] && SegOk(Top(o), vals, []) && PushResult(o, t).Some?
    ensures SegOk(Top(PushResult(o, t).value), vals, ResultTypes(t))
  {
  }

  lemma ResultArrives(seg: Seg, vals: seq<Value>, pending: seq<ValType>, results: seq<Value>)
    requires SegOk(seg, vals, pending) && HasTypes(results, pending)
    ensures SegOk(seg, vals + results, [])
  {
  }

  lemma TopTypeOk(o: Operands, t: ValType, vals: seq<Value>)
    requires o.segs != [] && SegOk(Top(o), vals, []) && TopType(o, Some(t)).Some?
    ensures vals != [] && TypeOf(vals[|vals| - 1]) == t
    ensures TopType(o, Some(t)).value.segs == o.segs && TopType(o, Some(t)).value.root == o.root
  {
    PopTypeOk(o, t, vals);
    var top := Top(o);
    assert top.vals[..|top.vals| - 1] + [Known(t)] == top.vals;
  }

  /** In reachable code the labels of a branch leave the operands as they are. */
  lemma {:induction false} CheckTargetsOk(s: Validator.State, ls: seq<nat>, c: nat, vals: seq<Value>)
    requires |s.ctrls| == |s.ops.segs| && s.ctrls != [] && c <= |ls|
    requires SegOk(Top(s.ops), vals, []) && CheckTargets(s, ls, c).Some?
    ensures CheckTargets(s, ls, c).value.ops.segs == s.ops.segs && CheckTargets(s, ls, c).value.ops.root == s.ops.root
    ensures forall j :: 0 <= j < c ==>
              ls[j] < |s.ctrls| &&
              var t := LabelType(s.ctrls[|s.ctrls| - 1 - ls[j]]);
              t.Some? ==> vals != [] && TypeOf(vals[|vals| - 1]) == t.value
    decreases c
  {
    hide SegOk, LabelType, CheckTarget;
    if c > 0 {
      CheckTargetsOk(s, ls, c - 1, vals);
      var s' := CheckTargets(s, ls, c - 1).value;
      assert Top(s'.ops) == Top(s.ops);
      CheckTargetOk(s', ls[c - 1], vals);
    }
  }

  lemma CheckTargetOk(s: Validator.State, l: nat, vals: seq<Value>)
    requires |s.ctrls| == |s.ops.segs| && s.ctrls != []
    requires SegOk(Top(s.ops), vals, []) && CheckTarget(s, l).Some?
    ensures l < |s.ctrls| && CheckTarget(s, l).value.ctrls == s.ctrls
    ensures CheckTarget(s, l).value.ops.segs == s.ops.segs && CheckTarget(s, l).value.ops.root == s.ops.root
    ensures
      var t := LabelType(s.ctrls[|s.ctrls| - 1 - l]);
      t.Some? ==> vals != [] && TypeOf(vals[|vals| - 1]) == t.value
  {
    hide TopType, SegOk, LabelType;
    var t := LabelType(s.ctrls[|s.ctrls| - 1 - l]);
    if t.Some? {
      TopTypeOk(s.ops, t.value, vals);
    } else {
      TopTypeNone(s.ops);
    }
  }

  lemma TopTypeNone(o: Operands)
    ensures TopType(o, None) == Some(o)
  {
  }

  /** The tokens at `i` are the structured sequence `c` and then the `end`, or the `else`, of the
      scope opened at `o`. */
  predicate ContinuesAt(m: Module, fd: FuncDecl, i: nat, c: Instrs, o: int) {
    && -1 <= o < |fd.body|
    && CodeAt(fd.body, i, c)
    && var e := i + Len(c);
    && e < |fd.body|
    && ((fd.body[e].End? && e == EndOf(m, fd, o)) || (fd.body[e].Else? && e == Close(m, fd, o)))
  }

  /** Label `k` is the scope `ctrls[k]`: it continues after that scope's `end`, or at its start. */
  predicate LabelOk(m: Module, fd: FuncDecl, ctrls: seq<Ctrl>, labels: seq<Label>, k: nat)
    requires k < |labels| && k < |ctrls|
  {
    var c, l := ctrls[k], labels[k];
    && l.arity == LabelType(c)
    && (k == 0 ==> c == Ctrl(-1, FuncBody, fd.ft.result))
    && l.again.Some? == c.kind.LoopBody?
    && -1 <= c.opener < |fd.body|
    && EndOf(m, fd, c.opener) < |fd.body|
    && (k > 0 ==> ContinuesAt(m, fd, EndOf(m, fd, c.opener) + 1, l.rest, ctrls[k - 1].opener))
    && (l.again.Some? ==>
          k > 0 && c.opener >= 0 && l.again.value.ICons? && l.again.value.hd.LoopI? &&
          ContinuesAt(m, fd, c.opener, l.again.value, ctrls[k - 1].opener))
  }

  predicate LabelsOk(m: Module, fd: FuncDecl, ctrls: seq<Ctrl>, labels: seq<Label>) {
    |labels| == |ctrls| && forall k {:trigger labels[k]} {:trigger LabelOk(m, fd, ctrls, labels, k)} ::
      0 <= k < |labels| ==> LabelOk(m, fd, ctrls, labels, k)
  }

  /** The operands of the first `n` labels are as tracked. */
  predicate SegsOk(segs: seq<Seg>, labels: seq<Label>, n: nat) {
    n <= |segs| && n <= |labels| && forall k {:trigger labels[k]} :: 0 <= k < n ==> SegOk(segs[k], labels[k].vals, [])
  }

  /** All that a label takes from its scope. */
  predicate SameScope(c: Ctrl, d: Ctrl) {
    c.opener == d.opener && c.expected == d.expected &&
    (c.kind.LoopBody? <==> d.kind.LoopBody?) && (c.kind.FuncBody? <==> d.kind.FuncBody?)
  }

  predicate SameLabel(l: Label, r: Label) {
    l.arity == r.arity && l.again == r.again && l.rest == r.rest
  }

  lemma LabelKept(m: Module, fd: FuncDecl, ctrls: seq<Ctrl>, labels: seq<Label>, ctrls': seq<Ctrl>,
      labels': seq<Label>, k: nat)
    requires k < |labels| && k < |ctrls| && k < |labels'| && k < |ctrls'| && LabelOk(m, fd, ctrls, labels, k)
    requires SameScope(ctrls'[k], ctrls[k]) && SameLabel(labels'[k], labels[k])
    requires k > 0 ==> ctrls'[k - 1].opener == ctrls[k - 1].opener
    ensures LabelOk(m, fd, ctrls', labels', k)
  {
    hide ContinuesAt, EndOf;
  }

  /** Labels stay in place when some inside them go and operands change. */
  lemma LabelsKept(m: Module, fd: FuncDecl, ctrls: seq<Ctrl>, labels: seq<Label>, ctrls': seq<Ctrl>,
      labels': seq<Label>)
    requires LabelsOk(m, fd, ctrls, labels) && |ctrls'| == |labels'| <= |labels|
    requires forall k {:trigger labels'[k]} {:trigger ctrls'[k]} :: 0 <= k < |labels'| ==>
            SameScope(ctrls'[k], ctrls[k]) && SameLabel(labels'[k], labels[k])
    ensures LabelsOk(m, fd, ctrls', labels')
  {
    hide LabelOk;
    forall k {:trigger LabelOk(m, fd, ctrls', labels', k)} | 0 <= k < |labels'|
      ensures LabelOk(m, fd, ctrls', labels', k)
    {
      assert LabelOk(m, fd, ctrls, labels, k);
      if k > 0 {
        assert SameScope(ctrls'[k - 1], ctrls[k - 1]);
      }
      LabelKept(m, fd, ctrls, labels, ctrls', labels', k);
    }
  }

  /** Likewise when a label is added. */
  lemma LabelsGrow(m: Module, fd: FuncDecl, ctrls: seq<Ctrl>, labels: seq<Label>, c: Ctrl, l: Label)
    requires LabelsOk(m, fd, ctrls, labels) && labels != []
    requires LabelOk(m, fd, ctrls + [c], labels + [l], |labels|)
    ensures LabelsOk(m, fd, ctrls + [c], labels + [l])
  {
    hide LabelOk;
    forall k {:trigger LabelOk(m, fd, ctrls + [c], labels + [l], k)} | 0 <= k < |labels| + 1
      ensures LabelOk(m, fd, ctrls + [c], labels + [l], k)
    {
      if k < |labels| {
        assert LabelOk(m, fd, ctrls, labels, k);
        LabelKept(m, fd, ctrls, labels, ctrls + [c], labels + [l], k);
      }
    }
  }

  lemma SegsKept(segs: seq<Seg>, labels: seq<Label>, n: nat, segs': seq<Seg>, labels': seq<Label>, n': nat)
    requires SegsOk(segs, labels, n) && n' <= n && n' <= |segs'| && n' <= |labels'|
    requires forall k {:trigger segs'[k]} :: 0 <= k < n' ==> segs'[k] == segs[k]
    requires forall k {:trigger labels'[k]} :: 0 <= k < n' ==> labels'[k].vals == labels[k].vals
    ensures SegsOk(segs', labels', n')
  {
    hide SegOk;
    forall k {:trigger labels'[k]} | 0 <= k < n'
      ensures SegOk(segs'[k], labels'[k].vals, [])
    {
      assert SegOk(segs[k], labels[k].vals, []);
    }
  }

  /** The operands of the innermost label: as tracked, or, at the end of the scope, the result
      of the scope. */
  predicate TopOk(s: Validator.State, f: Frame, pending: seq<ValType>)
    requires |f.labels| == |s.ctrls| == |s.ops.segs| > 0
  {
    || SegOk(s.ops.segs[|f.labels| - 1], TopVals(f), pending)
    || (f.code == INil && pending == [] && HasTypes(TopVals(f), ResultTypes(Last(s).expected)))
  }

  predicate FrameOk(m: Module, f: Frame, pos: nat, pending: seq<ValType>) {
    && f.func < |m.funcs|
    && var fd := m.funcs[f.func];
    && Accepts(m, fd)
    && pos < |fd.body|
    && Run(m, fd, pos).Some?
    && var s := Run(m, fd, pos).value;
    && |f.labels| == |s.ctrls| > 0
    && HasTypes(f.locals, LocalTypes(fd))
    && ContinuesAt(m, fd, pos, f.code, Last(s).opener)
    && LabelsOk(m, fd, s.ctrls, f.labels)
    && SegsOk(s.ops.segs, f.labels, |f.labels| - 1)
    && TopOk(s, f, pending)
  }
}

/** The operand tracker as the parser keeps it: one flat vector of tags with scope and
    unreachable markers, updated in place, and a running operand count. Every method is proved
    to act on the flat vector as the validation algorithm acts on its segments. */
module Tracker {
  import opened Wasm
  import opened Validator

  datatype StackTag = TypeTag(tag: Tag) | UnreachableTag | ScopeTag

  function Tags(vals: seq<Tag>): (ts: seq<StackTag>)
    ensures |ts| == |vals|
    ensures forall i :: 0 <= i < |vals| ==> ts[i] == TypeTag(vals[i])
  {
    seq(|vals|, i requires 0 <= i < |vals| => TypeTag(vals[i]))
  }

  function FlatSeg(s: Seg): seq<StackTag> {
    [ScopeTag] + (if s.unreachable then [UnreachableTag] else []) + Tags(s.vals)
  }

  function FlatSegs(segs: seq<Seg>): seq<StackTag> {
    if segs == [] then [] else FlatSegs(segs[..|segs| - 1]) + FlatSeg(segs[|segs| - 1])
  }

  function Flat(o: Operands): seq<StackTag> {
    Tags(o.root) + FlatSegs(o.segs)
  }

  /** Everything below the innermost scope. */
  function Below(o: Operands): seq<StackTag>
    requires o.segs != []
  {
    Tags(o.root) + FlatSegs(o.segs[..|o.segs| - 1])
  }

  lemma FlatTop(o: Operands)
    requires o.segs != []
    ensures Flat(o) == Below(o) + FlatSeg(Top(o))
  {
  }

  lemma FlatReplaceTop(o: Operands, s: Seg)
    requires o.segs != []
    ensures Flat(WithTop(o, s)) == Below(o) + FlatSeg(s)
  {
    FlatTop(WithTop(o, s));
    assert WithTop(o, s).segs[..|o.segs| - 1] == o.segs[..|o.segs| - 1];
  }

  lemma TagsSnoc(vals: seq<Tag>, t: Tag)
    ensures Tags(vals + [t]) == Tags(vals) + [TypeTag(t)]
  {
  }

  lemma FlatSegPop(s: Seg)
    requires s.vals != []
    ensures FlatSeg(s) == FlatSeg(s.(vals := s.vals[..|s.vals| - 1])) + [TypeTag(s.vals[|s.vals| - 1])]
  {
    assert s.vals == s.vals[..|s.vals| - 1] + [s.vals[|s.vals| - 1]];
    TagsSnoc(s.vals[..|s.vals| - 1], s.vals[|s.vals| - 1]);
  }

  /** The last tag tells what the innermost scope looks like. */
  lemma LastTag(o: Operands)
    requires o.segs != []
    ensures Flat(o) != []
    ensures
      var last := Flat(o)[|Flat(o)| - 1];
      var top := Top(o);
      last == if top.vals != [] then TypeTag(top.vals[|top.vals| - 1])
              else if top.unreachable then UnreachableTag else ScopeTag
  {
    FlatTop(o);
    if Top(o).vals != [] {
      FlatSegPop(Top(o));
    }
  }

  /** Dropping the last tag when it is an operand drops the last operand. */
  lemma DropOperand(o: Operands)
    requires o.segs != [] && Top(o).vals != []
    ensures
      var top := Top(o);
      Flat(o)[..|Flat(o)| - 1] == Flat(WithTop(o, top.(vals := top.vals[..|top.vals| - 1])))
  {
    var top := Top(o);
    FlatTop(o);
    FlatSegPop(top);
    FlatReplaceTop(o, top.(vals := top.vals[..|top.vals| - 1]));
  }

  function WithoutMark(state: seq<StackTag>): (r: seq<StackTag>)
    requires state != []
    ensures r <= state
  {
    if state[|state| - 1] == UnreachableTag then state[..|state| - 1] else state
  }

  /** Under an unreachable marker, if there is one, lies the marker of the scope exactly when the
      scope has no operands left. */
  lemma ScopeMark(o: Operands)
    requires o.segs != []
    ensures Flat(o) != [] && WithoutMark(Flat(o)) != []
    ensures
      var s := WithoutMark(Flat(o));
      var r := o.(segs := o.segs[..|o.segs| - 1]);
      && (s[|s| - 1] == ScopeTag <==> Top(o).vals == [])
      && (Top(o).vals == [] ==> s[..|s| - 1] == Flat(r) && DepthOf(r) == DepthOf(o))
  {
    LastTag(o);
    FlatTop(o);
    var s := WithoutMark(Flat(o));
    if Top(o).vals == [] {
      assert s == Below(o) + [ScopeTag];
    }
  }

  /** The entries of the vector that are operands and not markers. */
  function Untagged(state: seq<StackTag>): nat {
    if state == [] then 0
    else Untagged(state[..|state| - 1]) + if state[|state| - 1].TypeTag? then 1 else 0
  }

  lemma {:induction false} UntaggedSum(a: seq<StackTag>, b: seq<StackTag>)
    ensures Untagged(a + b) == Untagged(a) + Untagged(b)
    decreases |b|
  {
    if b == [] {
      assert a + b == a;
    } else {
      var n := |b| - 1;
      UntaggedSum(a, b[..n]);
      assert (a + b)[..|a + b| - 1] == a + b[..n];
    }
  }

  lemma {:induction false} UntaggedTags(vals: seq<Tag>)
    ensures Untagged(Tags(vals)) == |vals|
    decreases |vals|
  {
    if vals != [] {
      var n := |vals| - 1;
      UntaggedTags(vals[..n]);
      assert Tags(vals)[..n] == Tags(vals[..n]);
    }
  }

  /** `operand_depth` counts exactly the untagged entries of `state`. */
  lemma {:induction false} DepthIsUntagged(o: Operands)
    ensures Untagged(Flat(o)) == DepthOf(o)
    decreases |o.segs|
  {
    UntaggedTags(o.root);
    if o.segs == [] {
      assert Flat(o) == Tags(o.root);
    } else {
      var s := Top(o);
      DepthIsUntagged(o.(segs := o.segs[..|o.segs| - 1]));
      var marks := [ScopeTag] + (if s.unreachable then [UnreachableTag] else []);
      assert Untagged([ScopeTag]) == 0;
      UntaggedSum([ScopeTag], if s.unreachable then [UnreachableTag] else []);
      UntaggedSum(marks, Tags(s.vals));
      UntaggedTags(s.vals);
      FlatTop(o);
      UntaggedSum(Below(o), FlatSeg(s));
    }
  }

  /** A push appends one entry and counts one operand more. */
  lemma PushedFlat(o: Operands, t: Tag)
    ensures PushTag(o, t).Some? <==> DepthOf(o) < U32_LIMIT - 1
    ensures
      var r := PushTag(o, t);
      r.Some? ==>
        && Flat(r.value) == Flat(o) + [TypeTag(t)] && DepthOf(r.value) == DepthOf(o) + 1
        && r.value.maxDepth == Max(DepthOf(o) + 1, o.maxDepth)
  {
    if o.segs == [] {
      TagsSnoc(o.root, t);
    } else {
      FlatTop(o);
      FlatReplaceTop(o, Top(o).(vals := Top(o).vals + [t]));
      TagsSnoc(Top(o).vals, t);
    }
  }

  class OperandStackTypeTracker {
    var state: seq<StackTag>
    var operandDepth: nat
    var maximumOperandDepth: nat
    ghost var view: Operands

    ghost predicate Valid()
      reads this
    {
      state == Flat(view) && operandDepth == DepthOf(view) && maximumOperandDepth == view.maxDepth
    }

    constructor ()
      ensures Valid() && view == Operands([], [Seg(false, [])], 0)
    {
      state := [ScopeTag];
      operandDepth := 0;
      maximumOperandDepth := 0;
      view := Operands([], [Seg(false, [])], 0);
    }

    /** The running count is the number of operands in the vector. */
    lemma DepthCounts()
      requires Valid()
      ensures operandDepth == Untagged(state)
    {
      DepthIsUntagged(view);
    }

    lemma MaximumIs()
      requires Valid()
      ensures maximumOperandDepth == view.maxDepth
    {
    }

    method Depth() returns (d: nat)
      requires Valid()
      ensures d == DepthOf(view)
    {
      d := operandDepth;
    }

    method Push(t: Tag) returns (ok: bool)
      requires Valid()
      modifies this
      ensures ok <==> PushTag(old(view), t).Some?
      ensures ok ==> Valid() && view == PushTag(old(view), t).value
    {
      hide Flat, DepthOf, PushTag;
      PushedFlat(view, t);
      if operandDepth >= U32_LIMIT - 1 {
        return false;
      }
      operandDepth := operandDepth + 1;
      maximumOperandDepth := Max(operandDepth, maximumOperandDepth);
      state := state + [TypeTag(t)];
      view := PushTag(view, t).value;
      return true;
    }

    method Pop(expected: ValType) returns (ok: bool)
      requires Valid() && view.segs != []
      modifies this
      ensures ok <==> PopType(old(view), expected).Some?
      ensures ok ==> Valid() && view == PopType(old(view), expected).value
    {
      hide Flat, DepthOf;
      LastTag(view);
      var back := state[|state| - 1];
      if back != UnreachableTag {
        if !(back == TypeTag(Known(expected)) || back == TypeTag(Any)) {
          return false;
        }
        DropOperand(view);
        DepthPositive(view);
        operandDepth := operandDepth - 1;
        state := state[..|state| - 1];
        view := PopType(view, expected).value;
      }
      return true;
    }

    method PopAny() returns (ok: bool, result: Tag)
      requires Valid() && view.segs != []
      modifies this
      ensures ok <==> PopTag(old(view)).Some?
      ensures ok ==> Valid() && Popped(result, view) == PopTag(old(view)).value
    {
      hide Flat, DepthOf;
      LastTag(view);
      var back := state[|state| - 1];
      if back == ScopeTag {
        return false, Any;
      }
      if back == UnreachableTag {
        return true, Any;
      }
      DropOperand(view);
      DepthPositive(view);
      operandDepth := operandDepth - 1;
      state := state[..|state| - 1];
      view := PopTag(view).value.rest;
      return true, back.tag;
    }

    method Constrain(expected: Option<ValType>) returns (ok: bool)
      requires Valid() && view.segs != []
      modifies this
      ensures ok <==> TopType(old(view), expected).Some?
      ensures ok ==> Valid() && view == TopType(old(view), expected).value
    {
      if expected.None? {
        return true;
      }
      ok := Pop(expected.value);
      if ok {
        ok := Push(Known(expected.value));
      }
    }

    method PopParams(ts: seq<ValType>) returns (ok: bool)
      requires Valid() && view.segs != []
      modifies this
      ensures ok <==> PopTypes(old(view), ts).Some?
      ensures ok ==> Valid() && view == PopTypes(old(view), ts).value
    {
      hide Flat, DepthOf, PopType;
      var i := 0;
      assert ts[..|ts|] == ts;
      while i < |ts|
        invariant 0 <= i <= |ts|
        invariant Valid() && view.segs != []
        invariant PopTypes(old(view), ts) == PopTypes(view, ts[..|ts| - i])
      {
        ghost var rest := ts[..|ts| - i];
        assert rest[..|rest| - 1] == ts[..|ts| - (i + 1)];
        ok := Pop(ts[|ts| - i - 1]);
        if !ok {
          return;
        }
        i := i + 1;
      }
      return true;
    }

    method MarkUnreachable()
      requires Valid() && view.segs != []
      modifies this
      ensures Valid() && view == StartUnreachable(old(view))
    {
      hide Flat, Below, DepthOf, StartUnreachable, FlatSeg;
      ghost var o := view;
      DepthOfTop(o);
      TagAt(o, |state|);
      while state != [] && state[|state| - 1] != ScopeTag
        invariant o.segs != [] && view == o
        invariant |Below(o)| + 1 <= |state| <= |Flat(o)| && state == Flat(o)[..|state|]
        invariant |state| == |Below(o)| + 1 ==> operandDepth == DepthOf(o) - |Top(o).vals|
        invariant |state| > |Below(o)| + 1 ==> operandDepth == DepthOf(o) - (|Flat(o)| - |state|)
        invariant maximumOperandDepth == o.maxDepth
        decreases |state|
      {
        TagAt(o, |state|);
        if state[|state| - 1] != UnreachableTag {
          operandDepth := operandDepth - 1;
        }
        state := state[..|state| - 1];
      }
      TagAt(o, |state|);
      UnreachableFlat(o);
      state := state + [UnreachableTag];
      view := StartUnreachable(o);
    }

    method EnterScope()
      requires Valid()
      modifies this
      ensures Valid() && view == PushScope(old(view))
    {
      ghost var o := view;
      state := state + [ScopeTag];
      view := PushScope(o);
      assert view.segs[..|view.segs| - 1] == o.segs;
    }

    method LeaveScope(expected: Option<ValType>) returns (ok: bool)
      requires Valid() && view.segs != []
      modifies this
      ensures ok <==> PopScope(old(view), expected).Some?
      ensures ok ==> Valid() && view == PopScope(old(view), expected).value
    {
      hide Flat, DepthOf;
      if expected.Some? {
        ok := Pop(expected.value);
        if !ok {
          return;
        }
      }
      ghost var o := view;
      ScopeMark(o);
      if state[|state| - 1] == UnreachableTag {
        state := state[..|state| - 1];
      }
      if state == [] || state[|state| - 1] != ScopeTag {
        return false;
      }
      state := state[..|state| - 1];
      view := o.(segs := o.segs[..|o.segs| - 1]);
      if expected.Some? {
        ok := Push(Known(expected.value));
        return;
      }
      return true;
    }
  }

  lemma DepthPositive(o: Operands)
    requires o.segs != [] && Top(o).vals != []
    ensures DepthOf(o) > 0
  {
  }

  /** Which tag ends a prefix that reaches into the innermost scope. */
  lemma TagAt(o: Operands, n: nat)
    requires o.segs != [] && |Below(o)| + 1 <= n <= |Flat(o)|
    ensures Flat(o)[n - 1] == ScopeTag <==> n == |Below(o)| + 1
    ensures Flat(o)[n - 1] == UnreachableTag <==> Top(o).unreachable && n == |Below(o)| + 2
  {
    FlatTop(o);
    assert Flat(o)[n - 1] == FlatSeg(Top(o))[n - 1 - |Below(o)|];
  }

  lemma UnreachableFlat(o: Operands)
    requires o.segs != []
    ensures |Below(o)| + 1 <= |Flat(o)|
    ensures Flat(StartUnreachable(o)) == Flat(o)[..|Below(o)| + 1] + [UnreachableTag]
    ensures DepthOf(StartUnreachable(o)) == DepthOf(o) - |Top(o).vals|
    ensures StartUnreachable(o).maxDepth == o.maxDepth
  {
    FlatTop(o);
    FlatReplaceTop(o, Seg(true, []));
    assert Flat(o)[..|Below(o)| + 1] == Below(o) + [ScopeTag];
  }

  lemma DepthOfTop(o: Operands)
    requires o.segs != []
    ensures DepthOf(o) >= |Top(o).vals|
    ensures |Flat(o)| == |Below(o)| + 1 + (if Top(o).unreachable then 1 else 0) + |Top(o).vals|
  {
  }
}

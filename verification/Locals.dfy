/** Local variable types, looked up in run-length form: a vector of running totals, searched for
    the first total past the index. */
module Locals {
  import opened Wasm
  import opened Validator

  /** The running total before entry `i`: parameters, then the declared locals. */
  function Boundary(fd: FuncDecl, i: nat): nat
    requires i <= |fd.locals|
  {
    |fd.ft.params| + |Expand(fd.locals[..i])|
  }

  lemma NextBoundary(fd: FuncDecl, i: nat)
    requires i < |fd.locals|
    ensures Boundary(fd, i + 1) == Boundary(fd, i) + fd.locals[i].count
  {
    assert fd.locals[..i + 1][..i] == fd.locals[..i];
  }

  lemma {:induction false} BoundariesGrow(fd: FuncDecl, i: nat, j: nat)
    requires i <= j <= |fd.locals|
    ensures Boundary(fd, i) <= Boundary(fd, j)
    decreases j
  {
    if i < j {
      NextBoundary(fd, j - 1);
      BoundariesGrow(fd, i, j - 1);
    }
  }

  /** Between two running totals every local has the type of that entry. */
  lemma {:induction false} TypeBetween(entries: seq<LocalEntry>, p: nat, x: nat)
    requires p < |entries| && |Expand(entries[..p])| <= x < |Expand(entries[..p + 1])|
    ensures x < |Expand(entries)| && Expand(entries)[x] == entries[p].valType
    decreases |entries|
  {
    var n := |entries| - 1;
    if p < n {
      assert entries[..n][..p] == entries[..p] && entries[..n][..p + 1] == entries[..p + 1];
      TypeBetween(entries[..n], p, x);
    } else {
      assert entries[..p + 1] == entries && entries[..n] == entries[..p];
    }
  }

  class LocalTypesTable {
    const fd: FuncDecl
    var boundaries: seq<u32>

    ghost predicate Valid()
      reads this
    {
      && |boundaries| == |fd.locals| + 1
      && forall i :: 0 <= i <= |fd.locals| ==> boundaries[i] == Boundary(fd, i)
    }

    /** A table that could be built names every local. */
    lemma Complete()
      requires Valid()
      ensures |LocalTypes(fd)| < U32_LIMIT
    {
      assert fd.locals[..|fd.locals|] == fd.locals;
      assert boundaries[|fd.locals|] == Boundary(fd, |fd.locals|);
    }

    constructor (fd: FuncDecl)
      ensures this.fd == fd
    {
      this.fd := fd;
      boundaries := [];
    }

    /** Fails exactly when there are more locals than a 32-bit index can name. */
    method Build() returns (ok: bool)
      requires |fd.ft.params| < U32_LIMIT
      modifies this
      ensures ok <==> |LocalTypes(fd)| < U32_LIMIT
      ensures ok ==> Valid()
    {
      var count: u32 := |fd.ft.params|;
      boundaries := [count];
      var i := 0;
      assert fd.locals[..0] == [];
      while i < |fd.locals|
        invariant 0 <= i <= |fd.locals| && |boundaries| == i + 1
        invariant count == Boundary(fd, i)
        invariant forall j :: 0 <= j <= i ==> boundaries[j] == Boundary(fd, j)
      {
        NextBoundary(fd, i);
        if count > U32_LIMIT - 1 - fd.locals[i].count {
          BoundariesGrow(fd, i + 1, |fd.locals|);
          assert fd.locals[..|fd.locals|] == fd.locals;
          return false;
        }
        count := count + fd.locals[i].count;
        boundaries := boundaries + [count];
        i := i + 1;
      }
      assert fd.locals[..|fd.locals|] == fd.locals;
      return true;
    }

    /** `std::upper_bound`: the first total greater than the index. */
    method UpperBound(index: nat) returns (pos: nat)
      requires Valid()
      ensures pos <= |boundaries|
      ensures forall i :: 0 <= i < pos ==> boundaries[i] <= index
      ensures forall i :: pos <= i < |boundaries| ==> boundaries[i] > index
    {
      pos := 0;
      var count := |boundaries|;
      while count > 0
        invariant 0 <= count && pos + count <= |boundaries|
        invariant forall i :: 0 <= i < pos ==> boundaries[i] <= index
        invariant forall i :: pos + count <= i < |boundaries| ==> boundaries[i] > index
      {
        var step := count / 2;
        var mid := pos + step;
        if boundaries[mid] <= index {
          forall i | 0 <= i <= mid
            ensures boundaries[i] <= index
          {
            BoundariesGrow(fd, i, mid);
          }
          pos := mid + 1;
          count := count - step - 1;
        } else {
          forall i | mid <= i < |boundaries|
            ensures boundaries[i] > index
          {
            BoundariesGrow(fd, mid, i);
          }
          count := step;
        }
      }
    }

    /** The lookup agrees with the expanded list of types, zero-length entries included. */
    method TypeAt(index: nat) returns (r: Option<ValType>)
      requires Valid()
      ensures r == LocalTypeAt(fd, index)
    {
      assert fd.locals[..|fd.locals|] == fd.locals;
      if index >= boundaries[|boundaries| - 1] {
        return None;
      }
      var pos := UpperBound(index);
      if pos == 0 {
        assert fd.locals[..0] == [] && boundaries[0] > index;
        return Some(fd.ft.params[index]);
      }
      assert boundaries[pos - 1] <= index < boundaries[pos];
      TypeBetween(fd.locals, pos - 1, index - |fd.ft.params|);
      return Some(fd.locals[pos - 1].valType);
    }

    /** The declared locals, parameters not counted. */
    method LocalsCount() returns (n: nat)
      requires Valid()
      ensures n == |Expand(fd.locals)|
    {
      assert fd.locals[..|fd.locals|] == fd.locals;
      n := boundaries[|boundaries| - 1] - |fd.ft.params|;
    }
  }
}

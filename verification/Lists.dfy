/** The two intrusive lists of the profiler, with items named by their index: a circular doubly
    linked list with a header, and chains that start in a table. Both are proved to be sequences. */
module Lists {

  predicate Distinct(s: seq<nat>) {
    forall i, j :: 0 <= i < j < |s| ==> s[i] != s[j]
  }

  function Without(s: seq<nat>, j: nat): seq<nat>
    requires j < |s|
  {
    s[..j] + s[j + 1..]
  }

  function Succ(i: nat, n: nat): nat {
    if i + 1 < n then i + 1 else 0
  }

  /** The nodes of `cycle` are linked in that order, both ways, and the last to the first. */
  predicate Linked(next: seq<nat>, prev: seq<nat>, cycle: seq<nat>) {
    && (forall i {:trigger cycle[i]} :: 0 <= i < |cycle| ==> cycle[i] < |next| && cycle[i] < |prev|)
    && (forall i {:trigger cycle[i]} :: 0 <= i < |cycle| ==>
          next[cycle[i]] == cycle[Succ(i, |cycle|)] && prev[cycle[Succ(i, |cycle|)]] == cycle[i])
  }

  lemma LinkAt(next: seq<nat>, prev: seq<nat>, cycle: seq<nat>, i: nat)
    requires Linked(next, prev, cycle) && i < |cycle|
    ensures cycle[i] < |next| && cycle[i] < |prev|
    ensures
      var s := cycle[Succ(i, |cycle|)];
      s < |next| && s < |prev| && next[cycle[i]] == s && prev[s] == cycle[i]
  {
    assert cycle[Succ(i, |cycle|)] < |prev|;
  }

  lemma DistinctAt(s: seq<nat>, i: nat, j: nat)
    requires Distinct(s) && i < |s| && j < |s| && i != j
    ensures s[i] != s[j]
  {
  }

  /** Links that are right one by one. */
  lemma LinkedByOne(next: seq<nat>, prev: seq<nat>, cycle: seq<nat>)
    requires forall i {:trigger LinkOk(next, prev, cycle, i)} :: 0 <= i < |cycle| ==> LinkOk(next, prev, cycle, i)
    ensures Linked(next, prev, cycle)
  {
    forall i {:trigger cycle[i]} | 0 <= i < |cycle|
      ensures cycle[i] < |next| && cycle[i] < |prev|
    {
      assert LinkOk(next, prev, cycle, i);
    }
    forall i {:trigger cycle[i]} | 0 <= i < |cycle|
      ensures next[cycle[i]] == cycle[Succ(i, |cycle|)] && prev[cycle[Succ(i, |cycle|)]] == cycle[i]
    {
      assert LinkOk(next, prev, cycle, i);
    }
  }

  predicate LinkOk(next: seq<nat>, prev: seq<nat>, cycle: seq<nat>, i: nat)
    requires i < |cycle|
  {
    var s := cycle[Succ(i, |cycle|)];
    && cycle[i] < |next| && cycle[i] < |prev| && s < |prev|
    && next[cycle[i]] == s && prev[s] == cycle[i]
  }

  /** Taking a node other than the header out of a cycle. */
  lemma Unlinked(next: seq<nat>, prev: seq<nat>, cycle: seq<nat>, q: nat)
    requires Linked(next, prev, cycle) && Distinct(cycle) && 0 < q < |cycle|
    ensures
      var x := cycle[q];
      && x < |next| && x < |prev| && prev[x] < |next| && next[x] < |prev| && prev[x] == cycle[q - 1]
      && Linked(next[prev[x] := next[x]], prev[next[x] := prev[x]], Without(cycle, q))
  {
    hide Linked, Distinct;
    LinkAt(next, prev, cycle, q - 1);
    LinkAt(next, prev, cycle, q);
    var x, c := cycle[q], Without(cycle, q);
    var next', prev' := next[prev[x] := next[x]], prev[next[x] := prev[x]];
    forall i | 0 <= i < |c|
      ensures LinkOk(next', prev', c, i)
    {
      UnlinkedAt(next, prev, cycle, q, i);
    }
    LinkedByOne(next', prev', c);
  }

  lemma UnlinkedAt(next: seq<nat>, prev: seq<nat>, cycle: seq<nat>, q: nat, i: nat)
    requires Linked(next, prev, cycle) && Distinct(cycle) && 0 < q < |cycle| && i < |cycle| - 1
    requires cycle[q] < |next| && cycle[q] < |prev| && prev[cycle[q]] < |next| && next[cycle[q]] < |prev|
    ensures
      var x := cycle[q];
      LinkOk(next[prev[x] := next[x]], prev[next[x] := prev[x]], Without(cycle, q), i)
  {
    hide Linked, Distinct;
    LinkAt(next, prev, cycle, q - 1);
    LinkAt(next, prev, cycle, q);
    var o := if i < q then i else i + 1;
    LinkAt(next, prev, cycle, o);
    if i != q - 1 {
      DistinctAt(cycle, o, q - 1);
      DistinctAt(cycle, Succ(o, |cycle|), Succ(q, |cycle|));
    }
  }

  /** Putting a node after the header, the first node of the cycle. */
  lemma LinkedIn(next: seq<nat>, prev: seq<nat>, cycle: seq<nat>, x: nat)
    requires Linked(next, prev, cycle) && Distinct(cycle) && cycle != [] && x !in cycle && x < |next| && x < |prev|
    ensures
      var h := cycle[0];
      && h < |next| && next[h] < |prev|
      && Linked(next[x := next[h]][h := x], prev[x := h][next[h] := x], [h, x] + cycle[1..])
  {
    hide Linked, Distinct;
    LinkAt(next, prev, cycle, 0);
    var h := cycle[0];
    var c := [h, x] + cycle[1..];
    var next', prev' := next[x := next[h]][h := x], prev[x := h][next[h] := x];
    forall i | 0 <= i < |c|
      ensures LinkOk(next', prev', c, i)
    {
      LinkedInAt(next, prev, cycle, x, i);
    }
    LinkedByOne(next', prev', c);
  }

  lemma LinkedInAt(next: seq<nat>, prev: seq<nat>, cycle: seq<nat>, x: nat, i: nat)
    requires Linked(next, prev, cycle) && Distinct(cycle) && cycle != [] && x !in cycle && x < |next| && x < |prev|
    requires cycle[0] < |next| && next[cycle[0]] < |prev| && i < |cycle| + 1
    ensures
      var h := cycle[0];
      LinkOk(next[x := next[h]][h := x], prev[x := h][next[h] := x], [h, x] + cycle[1..], i)
  {
    hide Linked, Distinct;
    LinkAt(next, prev, cycle, 0);
    var h := cycle[0];
    var c := [h, x] + cycle[1..];
    assert h in cycle && next[h] in cycle;
    if i >= 2 {
      LinkAt(next, prev, cycle, i - 1);
      DistinctAt(cycle, i - 1, 0);
      DistinctAt(cycle, Succ(i - 1, |cycle|), Succ(0, |cycle|));
      assert cycle[i - 1] in cycle && cycle[Succ(i - 1, |cycle|)] in cycle;
      assert c[i] == cycle[i - 1] && c[Succ(i, |c|)] == cycle[Succ(i - 1, |cycle|)];
    } else if i == 1 {
      assert c[Succ(1, |c|)] == cycle[Succ(0, |cycle|)];
    }
  }

  /** The list of items from the most to the least recently used; node `n` is the header. */
  class MruList {
    const n: nat
    const next: array<nat>
    const prev: array<nat>
    ghost var order: seq<nat>

    ghost predicate Valid()
      reads this, next, prev
    {
      && next.Length == n + 1 && prev.Length == n + 1 && next != prev
      && |order| == n && (forall i :: 0 <= i < n ==> order[i] < n)
      && Distinct(order)
      && Linked(next[..], prev[..], [n] + order)
    }

    constructor (n: nat)
      ensures Valid() && fresh(next) && fresh(prev) && this.n == n
      ensures forall i :: 0 <= i < n ==> order[i] == i
    {
      this.n := n;
      next := new nat[n + 1](i => if i == n then 0 else i + 1);
      prev := new nat[n + 1](i => if i == 0 then n else i - 1);
      order := seq(n, i requires 0 <= i < n => i);
      new;
      Initial(next[..], prev[..], order, n);
    }

    static lemma Initial(next: seq<nat>, prev: seq<nat>, order: seq<nat>, n: nat)
      requires |next| == |prev| == n + 1 && |order| == n && forall i :: 0 <= i < n ==> order[i] == i
      requires forall i :: 0 <= i <= n ==>
              next[i] == (if i == n then 0 else i + 1) && prev[i] == (if i == 0 then n else i - 1)
      ensures Linked(next, prev, [n] + order)
    {
      hide Linked;
      var cycle := [n] + order;
      forall i | 0 <= i < |cycle|
        ensures LinkOk(next, prev, cycle, i)
      {
      }
      LinkedByOne(next, prev, cycle);
    }

    /** The least recently used item. */
    method Tail() returns (x: nat)
      requires Valid() && n > 0
      ensures x == order[n - 1]
    {
      x := prev[n];
      assert ([n] + order)[n] == order[n - 1];
    }

    /** Takes a node out; its own links stay behind. */
    method Unlink(x: nat, ghost j: nat)
      requires Valid() && j < n && order[j] == x
      modifies next, prev
      ensures Linked(next[..], prev[..], [n] + Without(order, j))
    {
      hide Linked, Distinct;
      ghost var cycle := [n] + order;
      WithHeader(order, n);
      assert cycle[j + 1] == x;
      Unlinked(next[..], prev[..], cycle, j + 1);
      assert Without(cycle, j + 1) == [n] + Without(order, j);
      ghost var nx: seq<nat>, pv: seq<nat> := next[..], prev[..];
      prev[next[x]] := prev[x];
      next[prev[x]] := next[x];
      assert next[..] == nx[pv[x] := nx[x]] && prev[..] == pv[nx[x] := pv[x]];
    }

    /** Puts a node that is in no cycle after the header. */
    method LinkFirst(x: nat, ghost rest: seq<nat>)
      requires next.Length == n + 1 && prev.Length == n + 1 && next != prev
      requires Linked(next[..], prev[..], [n] + rest) && Distinct([n] + rest) && x < n && x !in rest
      modifies next, prev
      ensures Linked(next[..], prev[..], [n] + ([x] + rest))
    {
      hide Linked, Distinct;
      ghost var cycle := [n] + rest;
      LinkAt(next[..], prev[..], cycle, 0);
      LinkedIn(next[..], prev[..], cycle, x);
      assert [n, x] + cycle[1..] == [n] + ([x] + rest);
      ghost var nx: seq<nat>, pv: seq<nat> := next[..], prev[..];
      assert cycle[Succ(0, |cycle|)] in cycle;
      next[x] := next[n];
      prev[x] := n;
      prev[next[n]] := x;
      next[n] := x;
      ghost var nx1: seq<nat>, pv1: seq<nat> := nx[x := nx[n]], pv[x := n];
      assert next[..] == nx1[n := x] && prev[..] == pv1[nx[n] := x];
    }

    method MoveToHead(x: nat, ghost j: nat)
      requires Valid() && j < n && order[j] == x
      modifies this, next, prev
      ensures Valid() && order == [x] + Without(old(order), j)
    {
      hide Linked, Distinct;
      Moved(order, j, n);
      NotThere(order, j);
      RestBelow(order, j, n);
      Unlink(x, j);
      LinkFirst(x, Without(order, j));
      order := [x] + Without(order, j);
    }

    static lemma RestBelow(order: seq<nat>, j: nat, n: nat)
      requires Distinct(order) && j < |order| && forall i :: 0 <= i < |order| ==> order[i] < n
      ensures Distinct([n] + Without(order, j))
    {
      NotThere(order, j);
      assert forall i :: 0 <= i < |order| - 1 ==> Without(order, j)[i] in order;
    }

    static lemma WithHeader(order: seq<nat>, n: nat)
      requires Distinct(order) && forall i :: 0 <= i < |order| ==> order[i] < n
      ensures Distinct([n] + order)
    {
    }

    static lemma Moved(order: seq<nat>, j: nat, n: nat)
      requires Distinct(order) && j < |order| && forall i :: 0 <= i < |order| ==> order[i] < n
      ensures
        var r := [order[j]] + Without(order, j);
        Distinct(r) && |r| == |order| && forall i :: 0 <= i < |r| ==> r[i] < n
    {
      NotThere(order, j);
      assert forall i :: 0 <= i < |order| - 1 ==> Without(order, j)[i] in order;
    }

    static lemma NotThere(s: seq<nat>, j: nat)
      requires Distinct(s) && j < |s|
      ensures s[j] !in Without(s, j) && Distinct(Without(s, j))
    {
    }
  }

  function First(chain: seq<nat>, none: nat): nat {
    if chain == [] then none else chain[0]
  }

  /** A chain that starts at `head` and ends with the null link `none`. */
  predicate Chained(head: nat, next: seq<nat>, chain: seq<nat>, none: nat) {
    && head == First(chain, none)
    && forall i {:trigger chain[i]} :: 0 <= i < |chain| ==>
         chain[i] < |next| && next[chain[i]] == (if i + 1 < |chain| then chain[i + 1] else none)
  }

  lemma TailChained(head: nat, next: seq<nat>, chain: seq<nat>, none: nat)
    requires Chained(head, next, chain, none) && chain != []
    ensures Chained(next[chain[0]], next, chain[1..], none)
  {
    forall i {:trigger chain[1..][i]} | 0 <= i < |chain| - 1
      ensures chain[1..][i] < |next| && next[chain[1..][i]] == (if i + 1 < |chain| - 1 then chain[1..][i + 1] else none)
    {
      assert chain[1..][i] == chain[i + 1];
    }
  }

  /** Writing a link of a node that is not in the chain does not matter. */
  lemma ChainKept(head: nat, next: seq<nat>, chain: seq<nat>, none: nat, x: nat, y: nat)
    requires Chained(head, next, chain, none) && x !in chain && x < |next|
    ensures Chained(head, next[x := y], chain, none)
  {
  }

  lemma ChainAt(head: nat, next: seq<nat>, chain: seq<nat>, none: nat, i: nat)
    requires Chained(head, next, chain, none) && i < |chain|
    ensures chain[i] < |next| && next[chain[i]] == (if i + 1 < |chain| then chain[i + 1] else none)
  {
  }

  lemma SkippedAt(head: nat, next: seq<nat>, chain: seq<nat>, none: nat, j: nat, i: nat)
    requires Chained(head, next, chain, none) && Distinct(chain) && 0 < j < |chain| && i < |chain| - 1
    ensures chain[j - 1] < |next| && chain[j] < |next|
    ensures
      var c, next' := Without(chain, j), next[chain[j - 1] := next[chain[j]]];
      c[i] < |next'| && next'[c[i]] == (if i + 1 < |c| then c[i + 1] else none)
  {
    hide Chained, Distinct;
    ChainAt(head, next, chain, none, j - 1);
    ChainAt(head, next, chain, none, j);
    var o := if i < j then i else i + 1;
    if o != j - 1 {
      ChainAt(head, next, chain, none, o);
      DistinctAt(chain, o, j - 1);
    }
  }

  /** Skipping a node that is not the first. */
  lemma ChainSkips(head: nat, next: seq<nat>, chain: seq<nat>, none: nat, j: nat)
    requires Chained(head, next, chain, none) && Distinct(chain) && 0 < j < |chain|
    ensures chain[j - 1] < |next| && chain[j] < |next|
    ensures Chained(head, next[chain[j - 1] := next[chain[j]]], Without(chain, j), none)
  {
    hide Distinct;
    ChainAt(head, next, chain, none, j - 1);
    ChainAt(head, next, chain, none, j);
    var c, next' := Without(chain, j), next[chain[j - 1] := next[chain[j]]];
    assert head == First(c, none);
    forall i {:trigger c[i]} | 0 <= i < |c|
      ensures c[i] < |next'| && next'[c[i]] == (if i + 1 < |c| then c[i + 1] else none)
    {
      hide Chained;
      SkippedAt(head, next, chain, none, j, i);
    }
  }

  lemma ChainPrepended(head: nat, next: seq<nat>, chain: seq<nat>, none: nat, x: nat)
    requires Chained(head, next, chain, none) && x !in chain && x < |next|
    ensures Chained(x, next[x := head], [x] + chain, none)
  {
    var c := [x] + chain;
    forall i {:trigger c[i]} | 0 <= i < |c|
      ensures c[i] < |next| && next[x := head][c[i]] == (if i + 1 < |c| then c[i + 1] else none)
    {
      if i > 0 {
        assert c[i] == chain[i - 1];
      }
    }
  }

  /** All buckets of a table; no item is in two of them. */
  predicate Buckets(heads: seq<nat>, next: seq<nat>, chains: seq<seq<nat>>, none: nat) {
    && |heads| == |chains|
    && (forall b {:trigger chains[b]} :: 0 <= b < |chains| ==>
      Chained(heads[b], next, chains[b], none) && Distinct(chains[b]))
    && Apart(chains)
  }

  predicate Apart(chains: seq<seq<nat>>) {
    forall b, c, i, j {:trigger chains[b][i], chains[c][j]} ::
      && 0 <= b < |chains| && 0 <= c < |chains|
      && 0 <= i < |chains[b]| && 0 <= j < |chains[c]|
      && chains[b][i] == chains[c][j]
      ==> b == c
  }

  lemma BucketPrepended(heads: seq<nat>, next: seq<nat>, chains: seq<seq<nat>>, none: nat, b: nat, x: nat)
    requires Buckets(heads, next, chains, none) && b < |chains| && x < |next|
    requires forall c :: 0 <= c < |chains| ==> x !in chains[c]
    ensures Buckets(heads[b := x], next[x := heads[b]], chains[b := [x] + chains[b]], none)
  {
    hide Chained, Apart;
    forall c {:trigger chains[c]} | 0 <= c < |chains|
      ensures Chained(heads[c], next[x := heads[b]], chains[c], none)
    {
      ChainKept(heads[c], next, chains[c], none, x, heads[b]);
    }
    ChainPrepended(heads[b], next, chains[b], none, x);
    ApartWith(chains, b, x);
  }

  lemma ApartWith(chains: seq<seq<nat>>, b: nat, x: nat)
    requires Apart(chains) && b < |chains| && forall c :: 0 <= c < |chains| ==> x !in chains[c]
    ensures Apart(chains[b := [x] + chains[b]])
  {
    var r := chains[b := [x] + chains[b]];
    forall c, d, i, j {:trigger r[c][i], r[d][j]} |
        0 <= c < |r| && 0 <= d < |r| && 0 <= i < |r[c]| && 0 <= j < |r[d]| && r[c][i] == r[d][j]
      ensures c == d
    {
      if c == b && i > 0 {
        assert r[c][i] == chains[c][i - 1];
      }
      if d == b && j > 0 {
        assert r[d][j] == chains[d][j - 1];
      }
    }
  }

  lemma ApartWithout(chains: seq<seq<nat>>, b: nat, j: nat)
    requires Apart(chains) && b < |chains| && j < |chains[b]|
    ensures Apart(chains[b := Without(chains[b], j)])
  {
    var r := chains[b := Without(chains[b], j)];
    forall c, d, i, k {:trigger r[c][i], r[d][k]} |
        0 <= c < |r| && 0 <= d < |r| && 0 <= i < |r[c]| && 0 <= k < |r[d]| && r[c][i] == r[d][k]
      ensures c == d
    {
      assert r[c][i] == chains[c][if c == b && i >= j then i + 1 else i];
      assert r[d][k] == chains[d][if d == b && k >= j then k + 1 else k];
    }
  }

  lemma FirstRemoved(heads: seq<nat>, next: seq<nat>, chains: seq<seq<nat>>, none: nat, b: nat)
    requires Buckets(heads, next, chains, none) && b < |chains| && chains[b] != []
    ensures heads[b] == chains[b][0] < |next|
    ensures Buckets(heads[b := next[heads[b]]], next, chains[b := Without(chains[b], 0)], none)
  {
    hide Apart;
    ApartWithout(chains, b, 0);
    TailChained(heads[b], next, chains[b], none);
    assert Without(chains[b], 0) == chains[b][1..];
    MruList.NotThere(chains[b], 0);
  }

  lemma LaterRemoved(heads: seq<nat>, next: seq<nat>, chains: seq<seq<nat>>, none: nat, b: nat, j: nat)
    requires Buckets(heads, next, chains, none) && b < |chains| && 0 < j < |chains[b]|
    ensures chains[b][j - 1] < |next| && chains[b][j] < |next|
    ensures Buckets(heads, next[chains[b][j - 1] := next[chains[b][j]]], chains[b := Without(chains[b], j)], none)
  {
    hide Chained, Distinct, Apart;
    var p := chains[b][j - 1];
    InChain(heads[b], next, chains[b], none);
    forall c {:trigger chains[c]} | 0 <= c < |chains| && c != b
      ensures Chained(heads[c], next[p := next[chains[b][j]]], chains[c], none)
    {
      NotInOther(chains, b, j - 1, c);
      ChainKept(heads[c], next, chains[c], none, p, next[chains[b][j]]);
    }
    ChainSkips(heads[b], next, chains[b], none, j);
    MruList.NotThere(chains[b], j);
    ApartWithout(chains, b, j);
  }

  lemma InChain(head: nat, next: seq<nat>, chain: seq<nat>, none: nat)
    requires Chained(head, next, chain, none)
    ensures head == First(chain, none)
    ensures forall i :: 0 <= i < |chain| ==> chain[i] < |next|
    ensures forall i :: 0 <= i < |chain| ==> next[chain[i]] == (if i + 1 < |chain| then chain[i + 1] else none)
  {
  }

  lemma NotInOther(chains: seq<seq<nat>>, b: nat, i: nat, c: nat)
    requires Apart(chains) && b < |chains| && c < |chains| && i < |chains[b]| && b != c
    ensures chains[b][i] !in chains[c]
  {
  }

  lemma BucketCleared(heads: seq<nat>, next: seq<nat>, chains: seq<seq<nat>>, none: nat, b: nat)
    requires Buckets(heads, next, chains, none) && b < |chains|
    ensures Buckets(heads[b := none], next, chains[b := []], none)
  {
  }

  /** The buckets of the hash table; `n` is the null link. */
  class Chains {
    const n: nat
    const heads: array<nat>
    const next: array<nat>
    ghost var chains: seq<seq<nat>>

    ghost predicate Valid()
      reads this, heads, next
    {
      heads.Length > 0 && next.Length == n && heads != next && Buckets(heads[..], next[..], chains, n)
    }

    constructor (n: nat, size: nat)
      requires size > 0
      ensures Valid() && fresh(heads) && fresh(next) && this.n == n
      ensures |chains| == size && forall b :: 0 <= b < size ==> chains[b] == []
    {
      this.n := n;
      heads := new nat[size](i => n);
      next := new nat[n](i => n);
      chains := seq(size, i => []);
    }

    method Prepend(b: nat, x: nat)
      requires Valid() && b < |chains| && x < n && forall c :: 0 <= c < |chains| ==> x !in chains[c]
      modifies this, heads, next
      ensures Valid() && chains == old(chains)[b := [x] + old(chains)[b]]
    {
      hide Chained, Distinct, Apart;
      BucketPrepended(heads[..], next[..], chains, n, b, x);
      ghost var hs: seq<nat>, nx: seq<nat> := heads[..], next[..];
      next[x] := heads[b];
      heads[b] := x;
      assert next[..] == nx[x := hs[b]] && heads[..] == hs[b := x];
      chains := chains[b := [x] + chains[b]];
    }

    /** Walks the links from the head to the one that points to `x`, and redirects it. */
    method Remove(b: nat, x: nat, ghost j: nat)
      requires Valid() && b < |chains| && j < |chains[b]| && chains[b][j] == x
      modifies this, heads, next
      ensures Valid() && chains == old(chains)[b := Without(old(chains)[b], j)]
    {
      hide Chained, Distinct, Apart;
      ghost var hs: seq<nat>, nx: seq<nat> := heads[..], next[..];
      FirstRemoved(hs, nx, chains, n, b);
      if heads[b] == x {
        if j > 0 {
          DistinctAt(chains[b], 0, j);
        }
        heads[b] := next[x];
        assert heads[..] == hs[b := nx[hs[b]]];
      } else {
        LaterRemoved(hs, nx, chains, n, b, j);
        var p := FindLink(b, x, j);
        next[p] := next[x];
        assert next[..] == nx[p := nx[x]];
      }
      chains := chains[b := Without(chains[b], j)];
    }

    method FindLink(b: nat, x: nat, ghost j: nat) returns (p: nat)
      requires Valid() && b < |chains| && 0 < j < |chains[b]| && chains[b][j] == x
      ensures p == chains[b][j - 1] < n && x < n
    {
      hide Distinct, Apart;
      ghost var chain := chains[b];
      InChain(heads[b], next[..], chain, n);
      p := heads[b];
      ghost var i := 0;
      while next[p] != x
        invariant 0 <= i < j && chain[i] == p < n
        decreases j - i
      {
        i := i + 1;
        p := next[p];
      }
      SamePlace(chain, i + 1, j);
    }

    static lemma SamePlace(s: seq<nat>, i: nat, j: nat)
      requires Distinct(s) && i < |s| && j < |s| && s[i] == s[j]
      ensures i == j
    {
    }

    method Clear(b: nat)
      requires Valid() && b < |chains|
      modifies this, heads
      ensures Valid() && chains == old(chains)[b := []]
    {
      hide Chained, Distinct, Apart;
      BucketCleared(heads[..], next[..], chains, n, b);
      ghost var hs: seq<nat> := heads[..];
      heads[b] := n;
      assert heads[..] == hs[b := n];
      chains := chains[b := []];
    }
  }
}

/** The trace cache of the profiler: a hash table of traces with their counts, a list of its items
    from the most to the least recently used, and a log the oldest item is written to when room is
    needed. No tick is lost or counted twice. */
module Profiler {
  import opened Wasm
  import opened Lists

  type Trace = seq<u32>

  const MAX_FRAMES: nat := 251
  const NO_BUCKET: nat := 0xFFFF_FFFF

  /** What the address map gives for an address outside the module. */
  const OUTSIDE: u32 := 0xFFFF_FFFF

  datatype Record = Record(count: u32, trace: Trace)

  /** How often `t` occurs. */
  function Times(ts: seq<Trace>, t: Trace): nat {
    if ts == [] then 0 else Times(ts[..|ts| - 1], t) + if ts[|ts| - 1] == t then 1 else 0
  }

  /** The counts written for `t`. */
  function Written(log: seq<Record>, t: Trace): nat {
    if log == [] then 0
    else Written(log[..|log| - 1], t) + if log[|log| - 1].trace == t then log[|log| - 1].count else 0
  }

  lemma TimesMore(ts: seq<Trace>, x: Trace, t: Trace)
    ensures Times(ts + [x], t) == Times(ts, t) + if x == t then 1 else 0
  {
    assert (ts + [x])[..|ts|] == ts;
  }

  lemma WrittenMore(log: seq<Record>, r: Record, t: Trace)
    ensures Written(log + [r], t) == Written(log, t) + if r.trace == t then r.count else 0
  {
    assert (log + [r])[..|log|] == log;
  }

  /** `index` names the item in the table that holds a trace. */
  function Live(index: map<Trace, nat>, count: seq<u32>, t: Trace): nat {
    if t in index && index[t] < |count| then count[index[t]] else 0
  }

  /** Every tick is in the log or in the table. A count of 32 bits starts again at 0 after
      4294967296 ticks of one trace without a record; `wraps` remembers when. */
  ghost predicate Conserved(ticks: seq<Trace>, log: seq<Record>, wraps: seq<Trace>, index: map<Trace, nat>,
      count: seq<u32>)
  {
    forall t: Trace {:trigger Times(ticks, t)} {:trigger Live(index, count, t)} ::
      Times(ticks, t) == Written(log, t) + Live(index, count, t) + U32_LIMIT * Times(wraps, t)
  }

  predicate InUse(bucket: seq<nat>, k: nat) {
    k < |bucket| && bucket[k] != NO_BUCKET
  }

  /** The table holds each trace once. */
  ghost predicate Indexed(bucket: seq<nat>, trace: seq<Trace>, index: map<Trace, nat>) {
    && |trace| == |bucket|
    && (forall k {:trigger bucket[k]} :: 0 <= k < |bucket| && bucket[k] != NO_BUCKET ==>
      trace[k] in index && index[trace[k]] == k)
    && (forall t {:trigger t in index} :: t in index ==> InUse(bucket, index[t]) && trace[index[t]] == t)
  }

  /** The chain of a bucket holds exactly the items of that bucket. */
  ghost predicate InChains(bucket: seq<nat>, chains: seq<seq<nat>>) {
    && (forall k {:trigger bucket[k]} :: 0 <= k < |bucket| && bucket[k] != NO_BUCKET ==>
      bucket[k] < |chains| && k in chains[bucket[k]])
    && (forall b, i {:trigger chains[b][i]} :: 0 <= b < |chains| && 0 <= i < |chains[b]| ==>
          chains[b][i] < |bucket| && bucket[chains[b][i]] == b)
  }

  /** Items are in the bucket of their hash. */
  ghost predicate Hashed(bucket: seq<nat>, trace: seq<Trace>, hash: Trace -> nat, size: nat)
    requires size > 0 && |trace| == |bucket|
  {
    forall k {:trigger bucket[k]} :: 0 <= k < |bucket| && bucket[k] != NO_BUCKET ==> bucket[k] == hash(trace[k]) % size
  }

  /** Items in use come before the others. */
  ghost predicate UsedFirst(bucket: seq<nat>, order: seq<nat>) {
    forall i, j {:trigger order[i], order[j]} :: 0 <= i < j < |order| && InUse(bucket, order[j]) ==>
      InUse(bucket, order[i])
  }

  /** Item `p` is the most recently used one now; the others have kept their order. */
  predicate ToFront(before: seq<nat>, after: seq<nat>, p: nat) {
    exists j :: 0 <= j < |before| && before[j] == p && after == [p] + Without(before, j)
  }

  lemma FrontIs(before: seq<nat>, after: seq<nat>, p: nat)
    requires ToFront(before, after, p)
    ensures after != [] && after[0] == p
  {
  }

  lemma EvictConserves(ticks: seq<Trace>, log: seq<Record>, wraps: seq<Trace>, index: map<Trace, nat>, count: seq<u32>,
      x: nat, t: Trace)
    requires Conserved(ticks, log, wraps, index, count) && t in index && index[t] == x < |count|
    ensures Conserved(ticks, log + [Record(count[x], t)], wraps, index - {t}, count)
  {
    forall u: Trace
      ensures Times(ticks, u) ==
              Written(log + [Record(count[x], t)], u) + Live(index - {t}, count, u) + U32_LIMIT * Times(wraps, u)
    {
      WrittenMore(log, Record(count[x], t), u);
      assert Live(index, count, u) == Live(index - {t}, count, u) + if u == t then count[x] else 0;
    }
  }

  lemma EvictIndexed(bucket: seq<nat>, trace: seq<Trace>, index: map<Trace, nat>, x: nat)
    requires Indexed(bucket, trace, index) && x < |bucket| && bucket[x] != NO_BUCKET
    ensures Indexed(bucket[x := NO_BUCKET], trace, index - {trace[x]})
  {
  }

  lemma EvictChained(bucket: seq<nat>, chains: seq<seq<nat>>, x: nat, j: nat)
    requires InChains(bucket, chains) && x < |bucket| && bucket[x] != NO_BUCKET && bucket[x] < |chains|
    requires j < |chains[bucket[x]]| && chains[bucket[x]][j] == x && Distinct(chains[bucket[x]])
    ensures InChains(bucket[x := NO_BUCKET], chains[bucket[x] := Without(chains[bucket[x]], j)])
  {
    var c := chains[bucket[x]];
    var bucket', chains' := bucket[x := NO_BUCKET], chains[bucket[x] := Without(c, j)];
    forall k {:trigger bucket'[k]} | 0 <= k < |bucket'| && bucket'[k] != NO_BUCKET
      ensures bucket'[k] < |chains'| && k in chains'[bucket'[k]]
    {
      if bucket[k] == bucket[x] {
        var i :| 0 <= i < |c| && c[i] == k;
        assert k == Without(c, j)[if i < j then i else i - 1];
      }
    }
    forall b, i {:trigger chains'[b][i]} | 0 <= b < |chains'| && 0 <= i < |chains'[b]|
      ensures chains'[b][i] < |bucket'| && bucket'[chains'[b][i]] == b
    {
      if b == bucket[x] {
        var o := if i < j then i else i + 1;
        assert chains'[b][i] == c[o];
        DistinctAt(c, o, j);
      }
    }
  }

  /** With the last item in use every item is. */
  lemma AllInUse(bucket: seq<nat>, order: seq<nat>)
    requires UsedFirst(bucket, order) && order != [] && InUse(bucket, order[|order| - 1])
    ensures forall i :: 0 <= i < |order| ==> InUse(bucket, order[i])
  {
  }

  lemma EvictUsedFirst(bucket: seq<nat>, order: seq<nat>, x: nat)
    requires UsedFirst(bucket, order) && order != [] && order[|order| - 1] == x < |bucket| && Distinct(order)
    ensures UsedFirst(bucket[x := NO_BUCKET], order)
  {
  }

  /** Moving an item in use, or one that gets used, to the front. */
  lemma FrontUsedFirst(bucket: seq<nat>, order: seq<nat>, j: nat, b: nat)
    requires UsedFirst(bucket, order) && j < |order| && order[j] < |bucket| && b != NO_BUCKET && Distinct(order)
    requires InUse(bucket, order[j]) || j == |order| - 1
    ensures UsedFirst(bucket[order[j] := b], [order[j]] + Without(order, j))
  {
    var x := order[j];
    var bucket', r := bucket[x := b], [x] + Without(order, j);
    forall i, k {:trigger r[i], r[k]} | 0 <= i < k < |r| && InUse(bucket', r[k])
      ensures InUse(bucket', r[i])
    {
      if i > 0 {
        var oi, ok := if i - 1 < j then i - 1 else i, if k - 1 < j then k - 1 else k;
        assert r[i] == order[oi] && r[k] == order[ok];
        DistinctAt(order, ok, j);
        assert InUse(bucket, order[ok]);
      }
    }
  }

  lemma BumpConserves(ticks: seq<Trace>, log: seq<Record>, wraps: seq<Trace>, index: map<Trace, nat>, count: seq<u32>,
      p: nat, t: Trace)
    requires Conserved(ticks, log, wraps, index, count) && t in index && index[t] == p < |count|
    requires forall u :: u in index && u != t ==> index[u] != p
    ensures
      var c := (count[p] + 1) % U32_LIMIT;
      var wraps' := if c == 0 then wraps + [t] else wraps;
      Conserved(ticks + [t], log, wraps', index, count[p := c])
  {
    var c := (count[p] + 1) % U32_LIMIT;
    var wraps' := if c == 0 then wraps + [t] else wraps;
    forall u: Trace
      ensures Times(ticks + [t], u) == Written(log, u) + Live(index, count[p := c], u) + U32_LIMIT * Times(wraps', u)
    {
      TimesMore(ticks, t, u);
      TimesMore(wraps, t, u);
      assert Times(ticks, u) == Written(log, u) + Live(index, count, u) + U32_LIMIT * Times(wraps, u);
    }
  }

  lemma InsertConserves(ticks: seq<Trace>, log: seq<Record>, wraps: seq<Trace>, index: map<Trace, nat>,
      count: seq<u32>, x: nat, t: Trace)
    requires Conserved(ticks, log, wraps, index, count) && t !in index && x < |count|
    requires forall u :: u in index ==> index[u] != x
    ensures Conserved(ticks + [t], log, wraps, index[t := x], count[x := 1])
  {
    forall u: Trace
      ensures Times(ticks + [t], u) ==
              Written(log, u) + Live(index[t := x], count[x := 1], u) + U32_LIMIT * Times(wraps, u)
    {
      TimesMore(ticks, t, u);
      assert Times(ticks, u) == Written(log, u) + Live(index, count, u) + U32_LIMIT * Times(wraps, u);
    }
  }

  lemma InsertIndexed(bucket: seq<nat>, trace: seq<Trace>, index: map<Trace, nat>, x: nat, b: nat)
    requires Indexed(bucket, trace, index) && x < |bucket| && bucket[x] == NO_BUCKET && trace[x] !in index &&
            b != NO_BUCKET
    ensures Indexed(bucket[x := b], trace, index[trace[x] := x])
    ensures forall u :: u in index ==> index[u] != x
  {
  }

  lemma InsertChained(bucket: seq<nat>, chains: seq<seq<nat>>, x: nat, b: nat)
    requires InChains(bucket, chains) && x < |bucket| && bucket[x] == NO_BUCKET && b < |chains| <= NO_BUCKET
    ensures InChains(bucket[x := b], chains[b := [x] + chains[b]])
    ensures forall c :: 0 <= c < |chains| ==> x !in chains[c]
  {
    var bucket', chains' := bucket[x := b], chains[b := [x] + chains[b]];
    forall c, i {:trigger chains'[c][i]} | 0 <= c < |chains'| && 0 <= i < |chains'[c]|
      ensures chains'[c][i] < |bucket'| && bucket'[chains'[c][i]] == c
    {
      if c == b && i > 0 {
        assert chains'[c][i] == chains[c][i - 1];
      } else if c != b {
        assert chains'[c][i] == chains[c][i];
      }
    }
    assert forall c, i {:trigger chains[c][i]} :: 0 <= c < |chains| && 0 <= i < |chains[c]| ==> chains[c][i] != x;
  }

  /** The frames of a backtrace that lie in the module; a return address is one past its call. */
  function Frames(data: seq<nat>, translate: nat -> u32, found: Trace): (r: Trace)
    ensures |found| <= MAX_FRAMES ==> |r| <= MAX_FRAMES
    decreases |data|
  {
    if data == [] || |found| >= MAX_FRAMES then found
    else
      var a := translate(data[0]);
      if a == OUTSIDE then Frames(data[1..], translate, found)
      else Frames(data[1..], translate, found + [if found == [] then a else a + 1])
  }

  /** What the map gives for those addresses of a backtrace that lie in the module, in their order. */
  function Inside(data: seq<nat>, translate: nat -> u32): (ins: seq<u32>)
    ensures forall j :: 0 <= j < |ins| ==> ins[j] != 0xFFFF_FFFF
  {
    if data == [] then []
    else
      var a := translate(data[0]);
      (if a == OUTSIDE then [] else [a]) + Inside(data[1..], translate)
  }

  /** One address at a time, and nothing else, determines them. */
  lemma {:induction false} InsideIs(data: seq<nat>, more: seq<nat>, x: nat, translate: nat -> u32)
    ensures Inside([], translate) == []
    ensures Inside([x], translate) == if translate(x) == 0xFFFF_FFFF then [] else [translate(x)]
    ensures Inside(data + more, translate) == Inside(data, translate) + Inside(more, translate)
  {
    if data == [] {
      assert data + more == more;
    } else {
      InsideIs(data[1..], more, x, translate);
      assert (data + more)[1..] == data[1..] + more;
    }
  }

  lemma {:induction false} FrameCount(data: seq<nat>, translate: nat -> u32, found: Trace)
    requires |found| <= 251
    ensures
      var ins, r := Inside(data, translate), Frames(data, translate, found);
      found <= r && |r| == if |found| + |ins| < 251 then |found| + |ins| else 251
    decreases |data|
  {
    if data != [] && |found| < 251 {
      var a := translate(data[0]);
      FrameCount(data[1..], translate, if a == OUTSIDE then found else found + [if found == [] then a else a + 1]);
    }
  }

  lemma {:induction false} FrameIs(data: seq<nat>, translate: nat -> u32, found: Trace, j: nat)
    requires |found| <= 251 && |found| <= j < |Frames(data, translate, found)|
    ensures j - |found| < |Inside(data, translate)|
    ensures Frames(data, translate, found)[j] == Inside(data, translate)[j - |found|] + if j == 0 then 0 else 1
    decreases |data|
  {
    var a := translate(data[0]);
    if a == OUTSIDE {
      FrameIs(data[1..], translate, found, j);
    } else {
      var more := found + [if found == [] then a else a + 1];
      FrameCount(data[1..], translate, more);
      if j > |found| {
        FrameIs(data[1..], translate, more, j);
      } else {
        assert Frames(data, translate, found)[j] == more[j];
      }
    }
  }

  /** A trace has the first 251 of those; behind the first frame each stands one higher. */
  lemma FramesAre(data: seq<nat>, translate: nat -> u32)
    ensures
      var ins, t := Inside(data, translate), Frames(data, translate, []);
      && |t| == (if |ins| < 251 then |ins| else 251)
      && (ins != [] ==> t[0] == ins[0])
      && forall j :: 1 <= j < |t| ==> t[j] == ins[j] + 1
  {
    hide Frames, Inside;
    FrameCount(data, translate, []);
    var ins, t := Inside(data, translate), Frames(data, translate, []);
    forall j | 0 <= j < |t|
      ensures t[j] == ins[j] + if j == 0 then 0 else 1
    {
      FrameIs(data, translate, [], j);
    }
  }

  ghost predicate CacheCore(bucket: seq<nat>, trace: seq<Trace>, count: seq<u32>, order: seq<nat>,
      chains: seq<seq<nat>>, index: map<Trace, nat>, hash: Trace -> nat, ticks: seq<Trace>, log: seq<Record>,
      wraps: seq<Trace>)
  {
    && 0 < |chains| < NO_BUCKET && |bucket| == |trace| == |count| == |order| > 0
    && (forall i :: 0 <= i < |order| ==> order[i] < |order|) && Distinct(order)
    && Indexed(bucket, trace, index) && InChains(bucket, chains) && Hashed(bucket, trace, hash, |chains|)
    && Conserved(ticks, log, wraps, index, count)
  }

  /** All that holds of the cache between two calls. */
  ghost predicate CacheOk(bucket: seq<nat>, trace: seq<Trace>, count: seq<u32>, order: seq<nat>, chains: seq<seq<nat>>,
      index: map<Trace, nat>, hash: Trace -> nat, ticks: seq<Trace>, log: seq<Record>, wraps: seq<Trace>)
  {
    CacheCore(bucket, trace, count, order, chains, index, hash, ticks, log, wraps) && UsedFirst(bucket, order)
  }

  /** Writing out one item and taking it out of the table. */
  lemma Removed(bucket: seq<nat>, trace: seq<Trace>, count: seq<u32>, order: seq<nat>, chains: seq<seq<nat>>,
      index: map<Trace, nat>, hash: Trace -> nat, ticks: seq<Trace>, log: seq<Record>, wraps: seq<Trace>, x: nat,
      j: nat)
    requires CacheCore(bucket, trace, count, order, chains, index, hash, ticks, log, wraps)
    requires x < |bucket| && bucket[x] != NO_BUCKET && bucket[x] < |chains|
    requires j < |chains[bucket[x]]| && chains[bucket[x]][j] == x && Distinct(chains[bucket[x]])
    ensures CacheCore(bucket[x := NO_BUCKET], trace, count, order, chains[bucket[x] := Without(chains[bucket[x]], j)],
                      index - {trace[x]}, hash, ticks, log + [Record(count[x], trace[x])], wraps)
  {
    hide Conserved, Indexed, InChains, Distinct;
    UsedIsIndexed(bucket, trace, index, x);
    EvictConserves(ticks, log, wraps, index, count, x, trace[x]);
    EvictIndexed(bucket, trace, index, x);
    EvictChained(bucket, chains, x, j);
  }

  lemma Evicted(bucket: seq<nat>, trace: seq<Trace>, count: seq<u32>, order: seq<nat>, chains: seq<seq<nat>>,
      index: map<Trace, nat>, hash: Trace -> nat, ticks: seq<Trace>, log: seq<Record>, wraps: seq<Trace>, j: nat)
    requires CacheOk(bucket, trace, count, order, chains, index, hash, ticks, log, wraps)
    requires
      var x := order[|order| - 1];
      && bucket[x] != NO_BUCKET && bucket[x] < |chains|
      && j < |chains[bucket[x]]| && chains[bucket[x]][j] == x && Distinct(chains[bucket[x]])
    ensures
      var x := order[|order| - 1];
      CacheOk(bucket[x := NO_BUCKET], trace, count, order, chains[bucket[x] := Without(chains[bucket[x]], j)],
              index - {trace[x]}, hash, ticks, log + [Record(count[x], trace[x])], wraps)
  {
    hide Conserved, Indexed, InChains, UsedFirst, Distinct;
    var x := order[|order| - 1];
    Removed(bucket, trace, count, order, chains, index, hash, ticks, log, wraps, x, j);
    EvictUsedFirst(bucket, order, x);
  }

  lemma UsedIsIndexed(bucket: seq<nat>, trace: seq<Trace>, index: map<Trace, nat>, k: nat)
    requires Indexed(bucket, trace, index) && k < |bucket| && bucket[k] != NO_BUCKET
    ensures trace[k] in index && index[trace[k]] == k
    ensures forall u :: u in index && u != trace[k] ==> index[u] != k
  {
  }

  lemma FreeNotIndexed(bucket: seq<nat>, trace: seq<Trace>, index: map<Trace, nat>, x: nat)
    requires Indexed(bucket, trace, index) && x < |bucket| && bucket[x] == NO_BUCKET
    ensures forall t :: t in index ==> index[t] != x
  {
  }

  lemma Bumped(bucket: seq<nat>, trace: seq<Trace>, count: seq<u32>, order: seq<nat>, chains: seq<seq<nat>>,
      index: map<Trace, nat>, hash: Trace -> nat, ticks: seq<Trace>, log: seq<Record>, wraps: seq<Trace>, p: nat,
      j: nat)
    requires CacheOk(bucket, trace, count, order, chains, index, hash, ticks, log, wraps)
    requires p < |bucket| && bucket[p] != NO_BUCKET && j < |order| && order[j] == p
    ensures
      var c := (count[p] + 1) % U32_LIMIT;
      var wraps' := if c == 0 then wraps + [trace[p]] else wraps;
      CacheOk(bucket, trace, count[p := c], [p] + Without(order, j), chains, index, hash, ticks + [trace[p]], log,
        wraps')
  {
    hide Conserved, Indexed, InChains, UsedFirst, Distinct;
    UsedIsIndexed(bucket, trace, index, p);
    BumpConserves(ticks, log, wraps, index, count, p, trace[p]);
    FrontUsedFirst(bucket, order, j, bucket[p]);
    assert bucket[p := bucket[p]] == bucket;
    MruList.Moved(order, j, |order|);
  }

  lemma Inserted(bucket: seq<nat>, trace: seq<Trace>, count: seq<u32>, order: seq<nat>, chains: seq<seq<nat>>,
      index: map<Trace, nat>, hash: Trace -> nat, ticks: seq<Trace>, log: seq<Record>, wraps: seq<Trace>, x: nat)
    requires CacheOk(bucket, trace, count, order, chains, index, hash, ticks, log, wraps)
    requires x == order[|order| - 1] && bucket[x] == NO_BUCKET && trace[x] !in index
    ensures
      var b := hash(trace[x]) % |chains|;
      && (forall c :: 0 <= c < |chains| ==> x !in chains[c])
      && CacheOk(bucket[x := b], trace, count[x := 1], [x] + Without(order, |order| - 1), chains[b := [x] + chains[b]],
                 index[trace[x] := x], hash, ticks + [trace[x]], log, wraps)
  {
    hide Conserved, Indexed, InChains, UsedFirst, Distinct;
    var b := hash(trace[x]) % |chains|;
    InsertIndexed(bucket, trace, index, x, b);
    InsertConserves(ticks, log, wraps, index, count, x, trace[x]);
    InsertChained(bucket, chains, x, b);
    FrontUsedFirst(bucket, order, |order| - 1, b);
    MruList.Moved(order, |order| - 1, |order|);
  }

  /** An item that is not in use may hold any trace. */
  lemma Retraced(bucket: seq<nat>, trace: seq<Trace>, count: seq<u32>, order: seq<nat>, chains: seq<seq<nat>>,
      index: map<Trace, nat>, hash: Trace -> nat, ticks: seq<Trace>, log: seq<Record>, wraps: seq<Trace>, x: nat,
      t: Trace)
    requires CacheOk(bucket, trace, count, order, chains, index, hash, ticks, log, wraps)
    requires x < |bucket| && bucket[x] == NO_BUCKET
    ensures CacheOk(bucket, trace[x := t], count, order, chains, index, hash, ticks, log, wraps)
  {
    hide Conserved, InChains, UsedFirst, Distinct;
  }

  /** Where an item in use stands in its chain. */
  lemma InBucket(bucket: seq<nat>, chains: seq<seq<nat>>, k: nat) returns (j: nat)
    requires InChains(bucket, chains) && k < |bucket| && bucket[k] != NO_BUCKET
    ensures bucket[k] < |chains| && j < |chains[bucket[k]]| && chains[bucket[k]][j] == k
  {
    j :| 0 <= j < |chains[bucket[k]]| && chains[bucket[k]][j] == k;
  }

  /** Where an item stands in the list. */
  lemma {:induction false} InOrder(order: seq<nat>, x: nat) returns (j: nat)
    requires Distinct(order) && (forall i :: 0 <= i < |order| ==> order[i] < |order|) && x < |order|
    ensures j < |order| && order[j] == x
  {
    if x !in order {
      AllSmaller(order, x);
    }
    j :| 0 <= j < |order| && order[j] == x;
  }

  /** A list of `n` different numbers below `n` leaves none out. */
  lemma AllSmaller(order: seq<nat>, x: nat)
    requires Distinct(order) && forall i :: 0 <= i < |order| ==> order[i] < |order|
    requires x < |order|
    ensures x in order
  {
    var s := set i: nat | i < |order| :: order[i];
    var all := UpTo(|order|);
    Cardinality(order);
    Subset(s, all);
    assert x in all;
  }

  lemma Subset(s: set<nat>, t: set<nat>)
    requires s <= t && |s| == |t|
    ensures s == t
  {
    if s != t {
      var x :| x in t && x !in s;
      assert s <= t - {x};
      SubsetSize(s, t - {x});
    }
  }

  lemma SubsetSize(s: set<nat>, t: set<nat>)
    requires s <= t
    ensures |s| <= |t|
  {
    assert t == s + (t - s);
  }

  ghost function UpTo(n: nat): (s: set<nat>)
    ensures |s| == n && forall x: nat :: x in s <==> x < n
  {
    if n == 0 then {} else UpTo(n - 1) + {n - 1}
  }

  lemma {:induction false} Cardinality(order: seq<nat>)
    requires Distinct(order)
    ensures |set i: nat | i < |order| :: order[i]| == |order|
    decreases |order|
  {
    var s := set i: nat | i < |order| :: order[i];
    if order != [] {
      var n := |order| - 1;
      var init := order[..n];
      Cardinality(init);
      var s' := set i: nat | i < |init| :: init[i];
      forall y: nat
        ensures y in s <==> y in s' || y == order[n]
      {
        if y in s {
          var i: nat :| i < |order| && order[i] == y;
          if i < n {
            assert init[i] == y;
          }
        }
        if y in s' {
          var i: nat :| i < |init| && init[i] == y;
          assert order[i] == y;
        }
      }
      assert order[n] !in s';
      assert s == s' + {order[n]};
    }
  }

  class ProfileData {
    const n: nat
    const hash: Trace -> nat
    const translate: nat -> u32
    const mru: MruList
    const table: Chains
    const bucket: array<nat>
    const count: array<u32>
    const trace: array<Trace>
    var log: seq<Record>
    ghost var index: map<Trace, nat>
    ghost var ticks: seq<Trace>
    ghost var wraps: seq<Trace>

    ghost function Repr(): set<object>
      reads this
    {
      {this, mru, mru.next, mru.prev, table, table.heads, table.next, bucket, count, trace}
    }

    /** The objects and arrays are different ones, and the lists are in order. */
    ghost predicate Shaped()
      reads Repr()
    {
      && n > 0 && mru.n == n && table.n == n && mru.Valid() && table.Valid()
      && bucket.Length == n && count.Length == n && trace.Length == n
      && mru.next != table.heads && mru.next != table.next && mru.prev != table.heads && mru.prev != table.next
      && bucket != mru.next && bucket != mru.prev && bucket != table.heads && bucket != table.next
    }

    ghost predicate Valid()
      reads Repr()
    {
      Shaped() && CacheOk(bucket[..], trace[..], count[..], mru.order, table.chains, index, hash, ticks, log, wraps)
    }

    /** The count the cache has for `t` now. */
    ghost function LiveCount(t: Trace): nat
      reads this, count
    {
      Live(index, count[..], t)
    }

    /** The record of `t` is still there once the oldest item has been made free. */
    ghost predicate Kept(t: Trace)
      reads this, mru
      requires mru.order != []
    {
      t in index && index[t] != mru.order[|mru.order| - 1]
    }

    constructor (n: nat, tableSize: nat, hash: Trace -> nat, translate: nat -> u32)
      requires n > 0 && 0 < tableSize < NO_BUCKET
      ensures Valid() && fresh(Repr()) && log == [] && ticks == [] && wraps == [] && index == map[]
      ensures this.n == n && this.hash == hash && this.translate == translate
    {
      hide CacheOk, CacheCore, Linked, Buckets, Distinct;
      this.n, this.hash, this.translate := n, hash, translate;
      mru := new MruList(n);
      table := new Chains(n, tableSize);
      bucket := new nat[n](i => NO_BUCKET);
      count := new u32[n](i => 0);
      trace := new Trace[n](i => []);
      log, index, ticks, wraps := [], map[], [], [];
      new;
      InitialCache(bucket[..], trace[..], count[..], mru.order, table.chains, hash);
    }

    /** Compares the lengths and then frame by frame. */
    method TracesEqual(x: nat, y: nat) returns (equal: bool)
      requires x < trace.Length && y < trace.Length
      ensures equal <==> trace[x] == trace[y]
    {
      if |trace[x]| != |trace[y]| {
        return false;
      }
      var i := 0;
      while i < |trace[x]|
        invariant 0 <= i <= |trace[x]|
        invariant forall j :: 0 <= j < i ==> trace[x][j] == trace[y][j]
      {
        if trace[x][i] != trace[y][i] {
          return false;
        }
        i := i + 1;
      }
      return true;
    }

    /** Makes the least recently used item free. It is written out only if every item is in use. */
    method EvictOldest() returns (x: nat)
      requires Valid()
      modifies Repr()
      ensures Valid() && x < n && x == mru.order[n - 1] && bucket[x] == NO_BUCKET
      ensures ticks == old(ticks) && wraps == old(wraps) && mru.order == old(mru.order)
      ensures count[..] == old(count[..]) && trace[..] == old(trace[..])
      ensures old(bucket[x]) == NO_BUCKET ==> log == old(log) && index == old(index)
      ensures old(bucket[x]) != NO_BUCKET ==>
                && (forall i :: 0 <= i < n ==> InUse(old(bucket[..]), old(mru.order)[i]))
                && log == old(log) + [Record(old(count[x]), old(trace[x]))]
                && index == old(index) - {old(trace[x])}
      ensures forall t :: t in index <==> t in old(index) && old(index)[t] != x
    {
      hide CacheOk, Indexed, InChains, Hashed, UsedFirst, Distinct, Linked, Buckets, Conserved;
      CacheFacts(bucket[..], trace[..], count[..], mru.order, table.chains, index, hash, ticks, log, wraps);
      x := mru.Tail();
      if bucket[x] == NO_BUCKET {
        FreeNotIndexed(bucket[..], trace[..], index, x);
      } else {
        UsedIsIndexed(bucket[..], trace[..], index, x);
        ghost var j := InBucket(bucket[..], table.chains, x);
        AllInUse(bucket[..], mru.order);
        TableFacts(table, bucket[x]);
        Evicted(bucket[..], trace[..], count[..], mru.order, table.chains, index, hash, ticks, log, wraps, j);
        ghost var b := bucket[..];
        log := log + [Record(count[x], trace[x])];
        table.Remove(bucket[x], x, j);
        bucket[x] := NO_BUCKET;
        assert bucket[..] == b[x := NO_BUCKET];
        index := index - {trace[x]};
      }
    }

    /** One more tick of the trace that item `x`, which is free, holds. */
    method InsertHash(x: nat)
      requires Valid() && x < n && x == mru.order[n - 1] && bucket[x] == NO_BUCKET
      modifies Repr()
      ensures Valid() && ticks == old(ticks) + [old(trace[x])] && log == old(log)
      ensures old(trace[x]) in old(index) ==>
                var p := old(index[trace[x]]);
                && index == old(index) && p < n && ToFront(old(mru.order), mru.order, p)
                && count[..] == old(count[..])[p := (old(count[..])[p] + 1) % U32_LIMIT]
                && wraps == if old(count[..])[p] == U32_LIMIT - 1 then old(wraps) + [old(trace[x])] else old(wraps)
      ensures old(trace[x]) !in old(index) ==>
                && index == old(index)[old(trace[x]) := x] && ToFront(old(mru.order), mru.order, x)
                && count[..] == old(count[..])[x := 1] && wraps == old(wraps)
    {
      hide CacheOk, ToFront, Linked, Buckets, Distinct;
      var b, p := Locate(x);
      if p < n {
        Count(p);
      } else {
        Insert(x, b);
      }
    }

    /** The bucket for the trace of item `x`, and the item that holds that trace already. */
    method Locate(x: nat) returns (b: nat, p: nat)
      requires Valid() && x < n
      ensures |table.chains| > 0 && b == hash(trace[x]) % |table.chains|
      ensures p < n ==> trace[x] in index && index[trace[x]] == p && bucket[p] != NO_BUCKET && trace[p] == trace[x]
      ensures p >= n ==> trace[x] !in index
    {
      hide CacheOk, Indexed, Hashed, UsedFirst, Distinct, Linked, Buckets, Conserved;
      CacheFacts(bucket[..], trace[..], count[..], mru.order, table.chains, index, hash, ticks, log, wraps);
      b := BucketOf(x);
      p := FindTrace(b, x);
      if p < n {
        UsedIsIndexed(bucket[..], trace[..], index, p);
      } else {
        NotIndexed(bucket[..], trace[..], table.chains, index, hash, trace[x]);
      }
    }

    method BucketOf(x: nat) returns (b: nat)
      requires Shaped() && x < n
      ensures |table.chains| > 0 && b == hash(trace[x]) % |table.chains| < |table.chains|
    {
      hide Buckets;
      BucketCount(table);
      b := hash(trace[x]) % table.heads.Length;
    }

    static lemma BucketCount(table: Chains)
      requires table.Valid()
      ensures |table.chains| == table.heads.Length
    {
    }

    /** The trace is in the table already, in item `p`. */
    method Count(p: nat)
      requires Valid() && p < n && bucket[p] != NO_BUCKET
      modifies Repr()
      ensures Valid() && ticks == old(ticks) + [old(trace[p])] && log == old(log)
      ensures index == old(index) && ToFront(old(mru.order), mru.order, p) &&
              count[..] == old(count[..])[p := (old(count[p]) + 1) % U32_LIMIT]
      ensures wraps == if old(count[p]) == U32_LIMIT - 1 then old(wraps) + [old(trace[p])] else old(wraps)
    {
      hide CacheOk, Indexed, InChains, Hashed, UsedFirst, Distinct, Linked, Buckets, Conserved;
      CacheFacts(bucket[..], trace[..], count[..], mru.order, table.chains, index, hash, ticks, log, wraps);
      ghost var j := InOrder(mru.order, p);
      Bumped(bucket[..], trace[..], count[..], mru.order, table.chains, index, hash, ticks, log, wraps, p, j);
      ghost var c := count[..];
      count[p] := (count[p] + 1) % U32_LIMIT;
      assert count[..] == c[p := (c[p] + 1) % U32_LIMIT];
      mru.MoveToHead(p, j);
      ticks := ticks + [trace[p]];
      if count[p] == 0 {
        wraps := wraps + [trace[p]];
      }
    }

    /** The trace is not in the table. */
    method Insert(x: nat, b: nat)
      requires Valid() && x < n && x == mru.order[n - 1] && bucket[x] == NO_BUCKET && trace[x] !in index
      requires |table.chains| > 0 && b == hash(trace[x]) % |table.chains|
      modifies Repr()
      ensures Valid() && ticks == old(ticks) + [old(trace[x])] && log == old(log)
      ensures index == old(index)[old(trace[x]) := x] && ToFront(old(mru.order), mru.order, x)
      ensures count[..] == old(count[..])[x := 1] && wraps == old(wraps)
    {
      hide CacheOk, Indexed, InChains, Hashed, UsedFirst, Distinct, Linked, Buckets, Conserved;
      CacheFacts(bucket[..], trace[..], count[..], mru.order, table.chains, index, hash, ticks, log, wraps);
      Inserted(bucket[..], trace[..], count[..], mru.order, table.chains, index, hash, ticks, log, wraps, x);
      ghost var c, bs: seq<nat> := count[..], bucket[..];
      table.Prepend(b, x);
      bucket[x] := b;
      count[x] := 1;
      assert bucket[..] == bs[x := b] && count[..] == c[x := 1];
      mru.MoveToHead(x, n - 1);
      index := index[trace[x] := x];
      ticks := ticks + [trace[x]];
    }

    /** The item of a bucket with the same trace as item `x`; `n` if there is none. */
    method FindTrace(b: nat, x: nat) returns (p: nat)
      requires Shaped() && b < |table.chains| && x < n
      requires forall i :: 0 <= i < |table.chains[b]| ==> table.chains[b][i] < n
      ensures p <= n && (p < n ==> p in table.chains[b] && trace[p] == trace[x])
      ensures p == n ==> forall i :: 0 <= i < |table.chains[b]| ==> trace[table.chains[b][i]] != trace[x]
    {
      ghost var chain := table.chains[b];
      TableFacts(table, b);
      p := table.heads[b];
      ghost var i := 0;
      while p != n
        invariant 0 <= i <= |chain| && p == (if i < |chain| then chain[i] else n)
        invariant forall j :: 0 <= j < i ==> trace[chain[j]] != trace[x]
        decreases |chain| - i
      {
        var equal := TracesEqual(x, p);
        if equal {
          return;
        }
        p := table.next[p];
        i := i + 1;
      }
    }

    /** `handle_tick`: a backtrace with no frame in the module counts for nothing. The oldest item
        is written out first if no item is free, also when its trace is the one that ticks. */
    method HandleTick(data: seq<nat>)
      requires Valid()
      modifies Repr()
      ensures Valid() && |old(mru.order)| == n > 0 && old(mru.order)[n - 1] < n
      ensures
        var t := Frames(data, translate, []);
        ticks == if t == [] then old(ticks) else old(ticks) + [t]
      ensures
        var ins, k := Inside(data, translate), |old(ticks)|;
        if ins == [] then ticks == old(ticks)
        else
          && |ticks| == k + 1 && ticks[..k] == old(ticks)
          && |ticks[k]| == (if |ins| < 251 then |ins| else 251) && ticks[k][0] == ins[0]
          && forall j :: 1 <= j < |ticks[k]| ==> ticks[k][j] == ins[j] + 1
      ensures
        var x := old(mru.order)[n - 1];
        if old(bucket[..])[x] == NO_BUCKET then log == old(log)
        else log == old(log) + [Record(old(count[..])[x], old(trace[..])[x])]
      ensures
        var t := Frames(data, translate, []);
        t != [] ==>
          && t in index && ToFront(old(mru.order), mru.order, index[t])
          && LiveCount(t) == (if old(Kept(t)) then (old(LiveCount(t)) + 1) % U32_LIMIT else 1)
          && wraps == if old(Kept(t)) && old(LiveCount(t)) == U32_LIMIT - 1 then old(wraps) + [t] else old(wraps)
      ensures Frames(data, translate, []) == [] ==> wraps == old(wraps) && mru.order == old(mru.order)
      ensures forall u :: u in index ==> u in old(index) || u == Frames(data, translate, [])
      ensures n == 1 ==> wraps == old(wraps)
    {
      hide CacheOk, Distinct, Linked, Buckets, ToFront, Frames, Inside;
      FramesAre(data, translate);
      var x := EvictOldest();
      var frames := Translate(data);
      if frames != [] {
        Tick(x, frames);
      }
    }

    /** Translates addresses and skips those outside the module. At most 251 are kept, and each behind
        the first is a return address, one past its call. */
    method Translate(data: seq<nat>) returns (frames: Trace)
      ensures frames == Frames(data, translate, [])
      ensures
        var ins := Inside(data, translate);
        && |frames| == (if |ins| < 251 then |ins| else 251)
        && (frames != [] ==> frames[0] == ins[0])
        && forall j :: 1 <= j < |frames| ==> frames[j] == ins[j] + 1
    {
      hide Inside;
      FramesAre(data, translate);
      frames := [];
      var i := 0;
      assert data[0..] == data;
      while i < |data| && |frames| < MAX_FRAMES
        invariant 0 <= i <= |data| && |frames| <= MAX_FRAMES
        invariant Frames(data[i..], translate, frames) == Frames(data, translate, [])
      {
        var a := translate(data[i]);
        assert data[i..][1..] == data[i + 1..];
        if a != OUTSIDE {
          frames := frames + [if frames == [] then a else a + 1];
        }
        i := i + 1;
      }
    }

    /** Stores a trace in the free item `x` and inserts that. */
    method Tick(x: nat, t: Trace)
      requires Valid() && x < n && x == mru.order[n - 1] && bucket[x] == NO_BUCKET
      modifies Repr()
      ensures Valid() && ticks == old(ticks) + [t] && log == old(log)
      ensures t in index && ToFront(old(mru.order), mru.order, index[t])
      ensures LiveCount(t) == if t in old(index) then (old(LiveCount(t)) + 1) % U32_LIMIT else 1
      ensures wraps == if t in old(index) && old(LiveCount(t)) == U32_LIMIT - 1 then old(wraps) + [t] else old(wraps)
      ensures forall u :: u in index ==> u in old(index) || u == t
    {
      hide CacheOk, Indexed, InChains, Hashed, UsedFirst, Distinct, Linked, Buckets, Conserved, ToFront;
      CacheFacts(bucket[..], trace[..], count[..], mru.order, table.chains, index, hash, ticks, log, wraps);
      Retraced(bucket[..], trace[..], count[..], mru.order, table.chains, index, hash, ticks, log, wraps, x, t);
      ghost var ts := trace[..];
      trace[x] := t;
      assert trace[..] == ts[x := t];
      InsertHash(x);
    }

    /** Only `t` has ticked, `k` times, and nothing was written. */
    ghost predicate Only(t: Trace, k: nat)
      reads Repr()
    {
      && Valid() && Times(ticks, t) == |ticks| == k && log == []
      && (forall u :: u in index ==> u == t)
      && (t in index <==> k > 0)
      && (k > 0 ==> mru.order != [] && mru.order[0] == index[t] && LiveCount(t) == k % U32_LIMIT)
      && (k < U32_LIMIT ==> wraps == [])
      && (k == U32_LIMIT ==> wraps == [t])
    }

    /** While one trace ticks and no other, a second item stays free, and the record is kept. */
    lemma OneTrace(t: Trace)
      requires Valid() && n >= 2 && (forall u :: u in index ==> u == t) && (t in index ==> mru.order[0] == index[t])
      ensures |mru.order| == n && mru.order[n - 1] < n && bucket[mru.order[n - 1]] == NO_BUCKET
      ensures t in index ==> Kept(t)
    {
      hide CacheOk, InChains, Hashed, UsedFirst, Linked, Buckets;
      CacheFacts(bucket[..], trace[..], count[..], mru.order, table.chains, index, hash, ticks, log, wraps);
      var x := mru.order[n - 1];
      assert mru.order[0] != x;
      if bucket[x] != NO_BUCKET {
        UsedIsIndexed(bucket[..], trace[..], index, x);
      }
    }

    /** One more tick of a trace that is the only one so far. */
    method TickOnly(data: seq<nat>, ghost k: nat)
      requires n >= 2 && Frames(data, translate, []) != [] && Only(Frames(data, translate, []), k) && k < U32_LIMIT
      modifies Repr()
      ensures Only(Frames(data, translate, []), k + 1)
    {
      hide CacheOk, Frames, Inside, Linked, Buckets, Distinct, ToFront, Times;
      ghost var t, order := Frames(data, translate, []), mru.order;
      OneTrace(t);
      TimesMore(ticks, t, t);
      HandleTick(data);
      FrontIs(order, mru.order, index[t]);
    }

    /** Writes out the whole table. Nothing stays in it, so the log alone accounts for all ticks. */
    method FlushHash()
      requires Valid()
      modifies Repr()
      ensures Valid() && ticks == old(ticks) && wraps == old(wraps) && index == map[]
      ensures forall t: Trace :: Times(ticks, t) == Written(log, t) + U32_LIMIT * Times(wraps, t)
    {
      hide CacheCore, Linked, Buckets, Distinct, InChains, Indexed, Hashed, UsedFirst, Conserved;
      BucketCount(table);
      var b := 0;
      while b < table.heads.Length
        invariant 0 <= b <= table.heads.Length == |table.chains|
        invariant Shaped() && ticks == old(ticks) && wraps == old(wraps)
        invariant CacheCore(bucket[..], trace[..], count[..], mru.order, table.chains, index, hash, ticks, log, wraps)
        invariant forall c :: 0 <= c < b ==> table.chains[c] == []
      {
        FlushBucket(b);
        table.Clear(b);
        b := b + 1;
      }
      Flushed(bucket[..], trace[..], count[..], mru.order, table.chains, index, hash, ticks, log, wraps);
    }

    /** Writes out a chain and marks its items free; the chain itself stays for now. */
    method FlushBucket(b: nat)
      requires Shaped() && b < |table.chains|
      requires CacheCore(bucket[..], trace[..], count[..], mru.order, table.chains, index, hash, ticks, log, wraps)
      modifies this, bucket
      ensures Shaped() && ticks == old(ticks) && wraps == old(wraps)
      ensures CacheCore(bucket[..], trace[..], count[..], mru.order, table.chains[b := []], index, hash, ticks,
              log, wraps)
    {
      hide CacheCore, Linked, Buckets, Distinct, InChains, Indexed, Hashed, UsedFirst, Conserved;
      ghost var chains, chain := table.chains, table.chains[b];
      TableFacts(table, b);
      var p := table.heads[b];
      ghost var i := 0;
      assert chain[0..] == chain && chains[b := chain] == chains;
      while p != n
        modifies this, bucket
        invariant Shaped() && ticks == old(ticks) && wraps == old(wraps) && table.chains == chains
        invariant 0 <= i <= |chain| && p == (if i < |chain| then chain[i] else n)
        invariant CacheCore(bucket[..], trace[..], count[..], mru.order, chains[b := chain[i..]], index, hash, ticks,
                log, wraps)
        decreases |chain| - i
      {
        ghost var rest := chains[b := chain[i..]];
        TableFacts(table, b);
        assert table.next[chain[i]] == if i + 1 < |chain| then chain[i + 1] else n;
        CoreFacts(bucket[..], trace[..], count[..], mru.order, rest, index, hash, ticks, log, wraps, b, 0);
        TailDistinct(chain, i);
        Removed(bucket[..], trace[..], count[..], mru.order, rest, index, hash, ticks, log, wraps, p, 0);
        assert Without(chain[i..], 0) == chain[i + 1..];
        assert rest[b := chain[i + 1..]] == chains[b := chain[i + 1..]];
        ghost var bs: seq<nat> := bucket[..];
        log := log + [Record(count[p], trace[p])];
        index := index - {trace[p]};
        bucket[p] := NO_BUCKET;
        assert bucket[..] == bs[p := NO_BUCKET];
        p := table.next[p];
        i := i + 1;
      }
      assert chain[|chain|..] == [];
    }

    static lemma TailDistinct(s: seq<nat>, i: nat)
      requires Distinct(s) && i <= |s|
      ensures Distinct(s[i..])
    {
    }

    /** Conservation: what was written for a trace and what the cache holds for it are its ticks,
        but for whole turns of its 32-bit count. */
    lemma TicksConserved(t: Trace)
      requires Valid()
      ensures Times(ticks, t) == Written(log, t) + LiveCount(t) + U32_LIMIT * Times(wraps, t)
      ensures Times(ticks, t) == Written(log, t) + LiveCount(t) <==> Times(wraps, t) == 0
      ensures Times(ticks, t) < U32_LIMIT ==> Times(wraps, t) == 0
    {
      assert Conserved(ticks, log, wraps, index, count[..]);
      assert Live(index, count[..], t) == LiveCount(t);
    }
  }

  /** A run that loses counts: with room for two traces or more, one trace ticks 4294967296 times and
      nothing else does. No record was written, and the table says that the trace never ticked. */
  method CountStartsAgain(n: nat, tableSize: nat, hash: Trace -> nat, translate: nat -> u32, data: seq<nat>)
    returns (d: ProfileData)
    requires n >= 2 && 0 < tableSize < NO_BUCKET && Frames(data, translate, []) != []
    ensures fresh(d) && d.Valid() && d.n == n
    ensures
      var t := Frames(data, translate, []);
      && Times(d.ticks, t) == |d.ticks| == U32_LIMIT
      && d.log == [] && t in d.index && d.LiveCount(t) == 0 && d.wraps == [t]
  {
    hide CacheOk, Frames;
    ghost var t := Frames(data, translate, []);
    d := new ProfileData(n, tableSize, hash, translate);
    var i := 0;
    while i < U32_LIMIT
      invariant 0 <= i <= U32_LIMIT && fresh(d.Repr()) && d.n == n && d.translate == translate && d.Only(t, i)
    {
      d.TickOnly(data, i);
      i := i + 1;
    }
  }

  lemma InitialCache(bucket: seq<nat>, trace: seq<Trace>, count: seq<u32>, order: seq<nat>, chains: seq<seq<nat>>,
      hash: Trace -> nat)
    requires 0 < |chains| < NO_BUCKET && |bucket| == |trace| == |count| == |order| > 0
    requires forall i :: 0 <= i < |order| ==> order[i] == i && bucket[i] == NO_BUCKET
    requires forall b :: 0 <= b < |chains| ==> chains[b] == []
    ensures CacheOk(bucket, trace, count, order, chains, map[], hash, [], [], [])
  {
  }

  lemma CacheFacts(bucket: seq<nat>, trace: seq<Trace>, count: seq<u32>, order: seq<nat>, chains: seq<seq<nat>>,
                   index: map<Trace, nat>, hash: Trace -> nat, ticks: seq<Trace>, log: seq<Record>, wraps: seq<Trace>)
    requires CacheOk(bucket, trace, count, order, chains, index, hash, ticks, log, wraps)
    ensures 0 < |chains| < NO_BUCKET && |bucket| == |trace| == |count| == |order| > 0
    ensures (forall i :: 0 <= i < |order| ==> order[i] < |order|) && Distinct(order)
    ensures InChains(bucket, chains) && UsedFirst(bucket, order) && Indexed(bucket, trace, index) &&
            Hashed(bucket, trace, hash, |chains|)
  {
  }

  lemma CoreFacts(bucket: seq<nat>, trace: seq<Trace>, count: seq<u32>, order: seq<nat>, chains: seq<seq<nat>>,
      index: map<Trace, nat>, hash: Trace -> nat, ticks: seq<Trace>, log: seq<Record>, wraps: seq<Trace>, b: nat,
      i: nat)
    requires CacheCore(bucket, trace, count, order, chains, index, hash, ticks, log, wraps)
    requires b < |chains| && i < |chains[b]|
    ensures chains[b][i] < |bucket| == |trace| == |count| && bucket[chains[b][i]] == b < NO_BUCKET
  {
    hide Distinct, Indexed, Hashed, Conserved;
  }

  /** With all chains empty no item is in use. */
  lemma Flushed(bucket: seq<nat>, trace: seq<Trace>, count: seq<u32>, order: seq<nat>, chains: seq<seq<nat>>,
                index: map<Trace, nat>, hash: Trace -> nat, ticks: seq<Trace>, log: seq<Record>, wraps: seq<Trace>)
    requires CacheCore(bucket, trace, count, order, chains, index, hash, ticks, log, wraps)
    requires forall c :: 0 <= c < |chains| ==> chains[c] == []
    ensures CacheOk(bucket, trace, count, order, chains, index, hash, ticks, log, wraps) && index == map[]
    ensures forall t: Trace :: Times(ticks, t) == Written(log, t) + U32_LIMIT * Times(wraps, t)
  {
    hide Distinct, Hashed;
    forall k {:trigger bucket[k]} | 0 <= k < |bucket|
      ensures bucket[k] == NO_BUCKET
    {
    }
    assert forall t :: t !in index;
    forall t: Trace
      ensures Times(ticks, t) == Written(log, t) + U32_LIMIT * Times(wraps, t)
    {
      assert Live(index, count, t) == 0;
    }
  }

  lemma TableFacts(table: Chains, b: nat)
    requires table.Valid() && b < |table.chains|
    ensures Distinct(table.chains[b]) && |table.chains| == table.heads.Length
    ensures table.heads[b] == First(table.chains[b], table.n)
    ensures forall i :: 0 <= i < |table.chains[b]| ==> table.chains[b][i] < table.next.Length
    ensures forall i :: 0 <= i < |table.chains[b]| ==>
              table.next[table.chains[b][i]] == (if i + 1 < |table.chains[b]| then table.chains[b][i + 1] else table.n)
  {
    Lists.InChain(table.heads[b], table.next[..], table.chains[b], table.n);
  }

  /** A trace that is not in the bucket of its hash is not in the table. */
  lemma NotIndexed(bucket: seq<nat>, trace: seq<Trace>, chains: seq<seq<nat>>, index: map<Trace, nat>,
      hash: Trace -> nat, t: Trace)
    requires |chains| > 0 && Indexed(bucket, trace, index) && InChains(bucket, chains) &&
            Hashed(bucket, trace, hash, |chains|)
    requires
      var b := hash(t) % |chains|;
      forall i :: 0 <= i < |chains[b]| ==> chains[b][i] < |trace| && trace[chains[b][i]] != t
    ensures t !in index
  {
    forall k {:trigger bucket[k]} | 0 <= k < |bucket| && bucket[k] != NO_BUCKET
      ensures trace[k] != t
    {
      var j := InBucket(bucket, chains, k);
      assert chains[bucket[k]][j] == k;
    }
  }
}

/** Blocks of memory by address and by size, the segments they lie in, and what splitting, merging
    and handing over blocks does to them. */
module Blocks {
  import opened Wasm

  const SEGMENT_SIZE: nat := 0x4000_0000

  /** An element of the containers ordered by size, then address. */
  datatype Extent = Extent(size: nat, base: nat)

  datatype Segment = Segment(base: nat, size: nat)

  predicate Before(a: Extent, b: Extent) {
    a.size < b.size || (a.size == b.size && a.base < b.base)
  }

  /** The container by address and the container by size hold the same blocks. */
  ghost predicate Agree(byAddress: map<nat, nat>, bySize: set<Extent>) {
    && (forall b {:trigger byAddress[b]} {:trigger b in byAddress} :: b in byAddress ==>
      Extent(byAddress[b], b) in bySize)
    && (forall x {:trigger x in bySize} :: x in bySize ==> x.base in byAddress && byAddress[x.base] == x.size)
  }

  predicate Holds(m: map<nat, nat>, b: nat, x: nat) {
    b in m && b <= x < b + m[b]
  }

  /** Byte `x` lies in a block. */
  ghost predicate Covers(m: map<nat, nat>, x: nat) {
    exists b: nat :: Holds(m, b, x)
  }

  ghost predicate Within(segments: seq<Segment>, x: nat) {
    exists i: nat {:trigger segments[i]} ::
      i < |segments| && segments[i].base <= x < segments[i].base + segments[i].size
  }

  /** No block is empty and no two overlap. */
  ghost predicate Separate(m: map<nat, nat>) {
    && (forall b {:trigger b in m} :: b in m ==> m[b] > 0)
    && (forall a, b {:trigger a in m, b in m} :: a in m && b in m && a < b ==> a + m[a] <= b)
  }

  ghost predicate SegmentsOk(segments: seq<Segment>) {
    && (forall i :: 0 <= i < |segments| ==> segments[i].size > 0)
    && (forall i, j :: 0 <= i < |segments| && 0 <= j < |segments| && i != j ==>
          segments[i].base + segments[i].size <= segments[j].base ||
            segments[j].base + segments[j].size <= segments[i].base)
  }

  /** No segment begins where another one ends. */
  ghost predicate Apart(segments: seq<Segment>) {
    forall i, j :: 0 <= i < |segments| && 0 <= j < |segments| ==>
      segments[i].base + segments[i].size != segments[j].base
  }

  /** No free block begins where another one ends. */
  ghost predicate Coalesced(m: map<nat, nat>) {
    forall b {:trigger b in m} :: b in m ==> b + m[b] !in m
  }

  /** Blocks of `all` that a segment holds. */
  ghost predicate Partition(segments: seq<Segment>, all: map<nat, nat>) {
    && Separate(all)
    && forall x: nat {:trigger Covers(all, x)} {:trigger Within(segments, x)} :: Covers(all, x) <==> Within(segments, x)
  }

  function Split(m: map<nat, nat>, b: nat, size: nat): map<nat, nat>
    requires b in m && size <= m[b]
  {
    m[b := size][b + size := m[b] - size]
  }

  function Merge(m: map<nat, nat>, l: nat, r: nat): map<nat, nat>
    requires l in m && r in m
  {
    (m - {r})[l := m[l] + m[r]]
  }

  /** Splitting a block moves no byte. */
  lemma SplitKeeps(m: map<nat, nat>, b: nat, size: nat)
    requires Separate(m) && b in m && 0 < size < m[b]
    ensures b + size !in m
    ensures Separate(Split(m, b, size))
    ensures forall x: nat :: Covers(Split(m, b, size), x) <==> Covers(m, x)
  {
    var n := Split(m, b, size);
    assert b in m && b + size !in m;
    forall x: nat
      ensures Covers(n, x) <==> Covers(m, x)
    {
      if Covers(m, x) {
        var a: nat :| Holds(m, a, x);
        if a == b && x >= b + size {
          assert Holds(n, b + size, x);
        } else {
          assert Holds(n, a, x);
        }
      }
      if Covers(n, x) {
        var a: nat :| Holds(n, a, x);
        if a == b + size {
          assert Holds(m, b, x);
        } else {
          assert Holds(m, a, x);
        }
      }
    }
  }

  /** Nor does merging two neighbours. */
  lemma MergeKeeps(m: map<nat, nat>, l: nat, r: nat)
    requires Separate(m) && l in m && r in m && l + m[l] == r
    ensures Separate(Merge(m, l, r))
    ensures forall x: nat :: Covers(Merge(m, l, r), x) <==> Covers(m, x)
  {
    var n := Merge(m, l, r);
    forall x: nat
      ensures Covers(n, x) <==> Covers(m, x)
    {
      if Covers(m, x) {
        var a: nat :| Holds(m, a, x);
        assert Holds(n, if a == r then l else a, x);
      }
      if Covers(n, x) {
        var a: nat :| Holds(n, a, x);
        if a == l && x >= r {
          assert Holds(m, r, x);
        } else {
          assert Holds(m, a, x);
        }
      }
    }
  }

  /** The partition only sees which bytes are covered. */
  lemma PartitionKept(segments: seq<Segment>, all: map<nat, nat>, all': map<nat, nat>)
    requires Partition(segments, all) && Separate(all')
    requires forall x: nat :: Covers(all', x) <==> Covers(all, x)
    ensures Partition(segments, all')
  {
  }

  /** A new segment is one new block. */
  lemma SegmentAdded(segments: seq<Segment>, all: map<nat, nat>, s: Segment)
    requires Partition(segments, all) && SegmentsOk(segments + [s])
    ensures s.base !in all
    ensures Partition(segments + [s], all[s.base := s.size])
  {
    var all', segments' := all[s.base := s.size], segments + [s];
    assert segments'[|segments|] == s;
    forall x: nat | Covers(all, x)
      ensures x < s.base || x >= s.base + s.size
    {
      assert Within(segments, x);
      var i: nat :| i < |segments| && segments[i].base <= x < segments[i].base + segments[i].size;
      assert segments'[i] == segments[i];
    }
    forall b | b in all
      ensures b + all[b] <= s.base || b >= s.base + s.size
    {
      assert Holds(all, b, b) && Holds(all, b, b + all[b] - 1);
      assert Covers(all, b) && Covers(all, b + all[b] - 1);
      if b < s.base && b + all[b] > s.base {
        assert Holds(all, b, s.base);
        assert Covers(all, s.base);
      }
    }
    forall x: nat
      ensures Covers(all', x) <==> Within(segments', x)
    {
      if Covers(all', x) {
        var b: nat :| Holds(all', b, x);
        if b == s.base {
          assert Within(segments', x);
        } else {
          assert Holds(all, b, x);
          assert Covers(all, x);
          var i: nat :| i < |segments| && segments[i].base <= x < segments[i].base + segments[i].size;
          assert segments'[i] == segments[i];
        }
      }
      if Within(segments', x) {
        var i: nat :| i < |segments'| && segments'[i].base <= x < segments'[i].base + segments'[i].size;
        if i < |segments| {
          assert segments[i] == segments'[i];
          assert Within(segments, x);
          var b: nat :| Holds(all, b, x);
          assert Holds(all', b, x);
        } else {
          assert Holds(all', s.base, x);
        }
      }
    }
  }

  /** The free list has a normal form: two coalesced lists of the same bytes are equal. */
  lemma CoalescedUnique(f: map<nat, nat>, g: map<nat, nat>)
    requires Separate(f) && Separate(g) && Coalesced(f) && Coalesced(g)
    requires forall x: nat :: Covers(f, x) <==> Covers(g, x)
    ensures f == g
  {
    forall b: nat | b in f
      ensures b in g && g[b] == f[b]
    {
      SameBlock(f, g, b);
    }
    forall b: nat | b in g
      ensures b in f && g[b] == f[b]
    {
      SameBlock(g, f, b);
    }
    assert forall b :: b in f <==> b in g;
  }

  lemma SameBlock(f: map<nat, nat>, g: map<nat, nat>, b: nat)
    requires Separate(f) && Separate(g) && Coalesced(f) && Coalesced(g) && b in f
    requires forall x: nat :: Covers(f, x) <==> Covers(g, x)
    ensures b in g && g[b] == f[b]
  {
    assert Holds(f, b, b);
    assert Covers(f, b);
    var c: nat :| Holds(g, c, b);
    if b > 0 {
      FreeBefore(f, b);
      assert !Holds(g, c, b - 1) by { NotHeld(g, c, b - 1); }
    }
    FreeAfter(f, b);
    NotHeld(g, b, b + f[b]);
    FreeAfter(g, b);
    NotHeld(f, b, b + g[b]);
  }

  lemma NotHeld(m: map<nat, nat>, b: nat, x: nat)
    ensures !Covers(m, x) ==> !Holds(m, b, x)
  {
  }

  lemma FreeBefore(f: map<nat, nat>, b: nat)
    requires Separate(f) && Coalesced(f) && b in f && b > 0
    ensures !Covers(f, b - 1)
  {
    forall a: nat {:trigger Holds(f, a, b - 1)}
      ensures !Holds(f, a, b - 1)
    {
      if a in f && a < b {
        assert a + f[a] <= b && a + f[a] != b;
      }
    }
  }

  lemma FreeAfter(f: map<nat, nat>, b: nat)
    requires Separate(f) && Coalesced(f) && b in f
    ensures !Covers(f, b + f[b])
  {
    forall d: nat {:trigger Holds(f, d, b + f[b])}
      ensures !Holds(f, d, b + f[b])
    {
      if d in f && d < b {
        assert d + f[d] <= b;
      } else if d in f && d > b {
        assert b + f[b] <= d && d != b + f[b];
      }
    }
  }

  /** One free block for each segment. */
  ghost function SegmentBlocks(segments: seq<Segment>): map<nat, nat> {
    if segments == [] then map[]
    else SegmentBlocks(segments[..|segments| - 1])[segments[|segments| - 1].base := segments[|segments| - 1].size]
  }

  lemma {:induction false} SegmentBlocksAre(segments: seq<Segment>)
    requires SegmentsOk(segments)
    ensures forall i :: 0 <= i < |segments| ==>
            segments[i].base in SegmentBlocks(segments) && SegmentBlocks(segments)[segments[i].base] == segments[i].size
    ensures forall b :: b in SegmentBlocks(segments) ==> exists i :: 0 <= i < |segments| && segments[i].base == b
    ensures Partition(segments, SegmentBlocks(segments))
    decreases |segments|
  {
    hide Partition, SegmentsOk;
    if segments == [] {
      NoBlocks();
    } else {
      var init, s := segments[..|segments| - 1], segments[|segments| - 1];
      assert segments == init + [s];
      InitOk(segments);
      SegmentBlocksAre(init);
      SegmentAdded(init, SegmentBlocks(init), s);
      forall b | b in SegmentBlocks(segments)
        ensures exists i :: 0 <= i < |segments| && segments[i].base == b
      {
        if b != s.base {
          var i :| 0 <= i < |init| && init[i].base == b;
          assert segments[i].base == b;
        }
      }
    }
  }

  lemma InitOk(segments: seq<Segment>)
    requires SegmentsOk(segments) && segments != []
    ensures SegmentsOk(segments[..|segments| - 1])
  {
  }

  lemma NoBlocks()
    ensures Partition([], map[])
  {
    assert forall x: nat :: !Covers(map[], x);
  }

  lemma AgreeAdd(m: map<nat, nat>, s: set<Extent>, b: nat, n: nat)
    requires Agree(m, s) && b !in m
    ensures Agree(m[b := n], s + {Extent(n, b)})
  {
  }

  lemma AgreeRemove(m: map<nat, nat>, s: set<Extent>, b: nat)
    requires Agree(m, s) && b in m
    ensures Extent(m[b], b) in s
    ensures Agree(m - {b}, s - {Extent(m[b], b)})
  {
  }

  lemma AgreeSplit(m: map<nat, nat>, s: set<Extent>, b: nat, size: nat)
    requires Agree(m, s) && b in m && 0 < size < m[b] && b + size !in m
    ensures Agree(Split(m, b, size), s + {Extent(size, b)} + {Extent(m[b] - size, b + size)} - {Extent(m[b], b)})
  {
    AgreeRemove(m, s, b);
    AgreeAdd(m - {b}, s - {Extent(m[b], b)}, b, size);
    AgreeAdd((m - {b})[b := size], s - {Extent(m[b], b)} + {Extent(size, b)}, b + size, m[b] - size);
    assert (m - {b})[b := size][b + size := m[b] - size] == Split(m, b, size);
    assert s + {Extent(size, b)} + {Extent(m[b] - size, b + size)} - {Extent(m[b], b)}
        == s - {Extent(m[b], b)} + {Extent(size, b)} + {Extent(m[b] - size, b + size)};
  }

  lemma AgreeMerge(m: map<nat, nat>, s: set<Extent>, l: nat, r: nat)
    requires Agree(m, s) && l in m && r in m && l != r && m[r] > 0
    ensures Agree(Merge(m, l, r), s - {Extent(m[l], l)} + {Extent(m[l] + m[r], l)} - {Extent(m[r], r)})
  {
    AgreeRemove(m, s, r);
    AgreeRemove(m - {r}, s - {Extent(m[r], r)}, l);
    AgreeAdd(m - {r} - {l}, s - {Extent(m[r], r)} - {Extent(m[l], l)}, l, m[l] + m[r]);
    assert (m - {r} - {l})[l := m[l] + m[r]] == Merge(m, l, r);
    assert s - {Extent(m[r], r)} - {Extent(m[l], l)} + {Extent(m[l] + m[r], l)}
        == s - {Extent(m[l], l)} + {Extent(m[l] + m[r], l)} - {Extent(m[r], r)};
  }

  /** The state of the allocator: two pairs of containers that agree, and the partition. */
  ghost predicate Consistent(segments: seq<Segment>, free: map<nat, nat>, freeBySize: set<Extent>,
                             used: map<nat, nat>, allocatedBySize: set<Extent>) {
    && Agree(free, freeBySize) && Agree(used, allocatedBySize)
    && free.Keys !! used.Keys
    && SegmentsOk(segments) && Partition(segments, free + used)
  }

  lemma ConsistentSplit(segments: seq<Segment>, free: map<nat, nat>, fs: set<Extent>, used: map<nat, nat>,
      als: set<Extent>, b: nat, size: nat)
    requires Consistent(segments, free, fs, used, als) && b in free && 0 < size < free[b]
    ensures Consistent(segments, Split(free, b, size),
            fs + {Extent(size, b)} + {Extent(free[b] - size, b + size)} - {Extent(free[b], b)},
                       used, als)
  {
    hide SegmentsOk, Agree, Within;
    var all := free + used;
    SplitKeeps(all, b, size);
    AgreeSplit(free, fs, b, size);
    assert Split(free, b, size) + used == Split(all, b, size);
    PartitionKept(segments, all, Split(all, b, size));
  }

  lemma PositiveSize(m: map<nat, nat>, b: nat)
    requires Separate(m) && b in m
    ensures m[b] > 0
  {
  }

  lemma MergeUnion(free: map<nat, nat>, used: map<nat, nat>, l: nat, r: nat)
    requires free.Keys !! used.Keys && l in free && r in free && l != r
    ensures (free + used)[l] == free[l] && (free + used)[r] == free[r]
    ensures Merge(free, l, r) + used == Merge(free + used, l, r)
    ensures Merge(free, l, r).Keys !! used.Keys
  {
  }

  lemma ConsistentMerge(segments: seq<Segment>, free: map<nat, nat>, fs: set<Extent>, used: map<nat, nat>,
      als: set<Extent>, l: nat, r: nat)
    requires Consistent(segments, free, fs, used, als) && l in free && r in free && l + free[l] == r && l != r
    ensures Consistent(segments, Merge(free, l, r),
            fs - {Extent(free[l], l)} + {Extent(free[l] + free[r], l)} - {Extent(free[r], r)},
                       used, als)
  {
    hide SegmentsOk, Agree, Within, Covers, Separate, Merge;
    var all := free + used;
    MergeUnion(free, used, l, r);
    PositiveSize(all, r);
    MergeKeeps(all, l, r);
    AgreeMerge(free, fs, l, r);
    PartitionKept(segments, all, Merge(all, l, r));
  }

  lemma ConsistentSegment(segments: seq<Segment>, free: map<nat, nat>, fs: set<Extent>, used: map<nat, nat>,
      als: set<Extent>, s: Segment)
    requires Consistent(segments, free, fs, used, als) && SegmentsOk(segments + [s])
    ensures s.base !in free && s.base !in used
    ensures Consistent(segments + [s], free[s.base := s.size], fs + {Extent(s.size, s.base)}, used, als)
  {
    hide Agree, Partition;
    var all := free + used;
    SegmentAdded(segments, all, s);
    AgreeAdd(free, fs, s.base, s.size);
    assert free[s.base := s.size] + used == all[s.base := s.size];
  }

  lemma InSegment(segments: seq<Segment>, all: map<nat, nat>, b: nat, x: nat)
    requires Partition(segments, all) && Holds(all, b, x)
    ensures Within(segments, x)
  {
    assert Covers(all, x);
  }

  /** A block passes from one pair of containers to the other. */
  lemma ConsistentTake(segments: seq<Segment>, free: map<nat, nat>, fs: set<Extent>, used: map<nat, nat>,
      als: set<Extent>, b: nat)
    requires Consistent(segments, free, fs, used, als) && b in free
    ensures Consistent(segments, free - {b}, fs - {Extent(free[b], b)}, used[b := free[b]], als + {Extent(free[b], b)})
  {
    hide SegmentsOk, Agree, Partition;
    AgreeRemove(free, fs, b);
    AgreeAdd(used, als, b, free[b]);
    assert (free - {b}) + used[b := free[b]] == free + used;
  }

  lemma ConsistentGive(segments: seq<Segment>, free: map<nat, nat>, fs: set<Extent>, used: map<nat, nat>,
      als: set<Extent>, b: nat)
    requires Consistent(segments, free, fs, used, als) && b in used
    ensures Consistent(segments, free[b := used[b]], fs + {Extent(used[b], b)}, used - {b}, als - {Extent(used[b], b)})
  {
    hide SegmentsOk, Agree, Partition;
    AgreeRemove(used, als, b);
    AgreeAdd(free, fs, b, used[b]);
    assert free[b := used[b]] + (used - {b}) == free + used;
  }

  /** The free list is separate, being part of the partition. */
  lemma FreeSeparate(segments: seq<Segment>, free: map<nat, nat>, fs: set<Extent>, used: map<nat, nat>,
      als: set<Extent>)
    requires Consistent(segments, free, fs, used, als)
    ensures Separate(free)
  {
    hide Agree, SegmentsOk;
    assert forall b :: b in free ==> b in free + used && (free + used)[b] == free[b];
  }

  predicate IsPrev(m: map<nat, nat>, p: nat, l: nat) {
    l in m && l < p && forall b {:trigger b in m} :: b in m && b < p ==> b <= l
  }

  predicate IsNext(m: map<nat, nat>, p: nat, r: nat) {
    r in m && r > p && forall b {:trigger b in m} :: b in m && b > p ==> r <= b
  }

  lemma MergeAt(m: map<nat, nat>, l: nat, r: nat, b: nat)
    requires l in m && r in m && l != r
    ensures b in Merge(m, l, r) <==> b in m && b != r
    ensures b in m && b != r ==> Merge(m, l, r)[b] == if b == l then m[l] + m[r] else m[b]
  {
  }

  lemma GivenCovers(m: map<nat, nat>, p: nat, n: nat)
    requires p !in m
    ensures forall x: nat :: Covers(m[p := n], x) <==> Covers(m, x) || p <= x < p + n
  {
    var m' := m[p := n];
    forall x: nat
      ensures Covers(m', x) <==> Covers(m, x) || p <= x < p + n
    {
      if Covers(m, x) {
        var b: nat :| Holds(m, b, x);
        assert Holds(m', b, x);
      }
      if p <= x < p + n {
        assert Holds(m', p, x);
      }
      if Covers(m', x) {
        var b: nat :| Holds(m', b, x);
        assert b == p || Holds(m, b, x);
      }
    }
  }

  lemma NotBoth(segments: seq<Segment>, free: map<nat, nat>, fs: set<Extent>, used: map<nat, nat>, als: set<Extent>,
      b: nat)
    requires Consistent(segments, free, fs, used, als) && b in free
    ensures b !in used
  {
  }

  /** The free blocks once `size` bytes at the low end of block `b` are taken. */
  function Take(m: map<nat, nat>, b: nat, size: nat): map<nat, nat>
    requires b in m && size <= m[b]
  {
    if size < m[b] then (m - {b})[b + size := m[b] - size] else m - {b}
  }

  ghost function Span(base: nat, n: nat): (s: set<nat>)
    ensures |s| == n && forall x: nat :: x in s <==> base <= x < base + n
  {
    if n == 0 then {} else Span(base, n - 1) + {base + n - 1}
  }

  ghost function Bytes(m: map<nat, nat>): set<nat> {
    set b: nat, x: nat | b in m && x in Span(b, m[b]) :: x
  }

  ghost function SegmentBytes(segments: seq<Segment>): set<nat> {
    if segments == [] then {}
    else SegmentBytes(segments[..|segments| - 1]) + Span(segments[|segments| - 1].base, segments[|segments| - 1].size)
  }

  function TotalSize(segments: seq<Segment>): nat {
    if segments == [] then 0 else TotalSize(segments[..|segments| - 1]) + segments[|segments| - 1].size
  }

  lemma {:induction false} SegmentBytesAre(segments: seq<Segment>)
    requires SegmentsOk(segments)
    ensures forall x: nat :: x in SegmentBytes(segments) <==> Within(segments, x)
    ensures |SegmentBytes(segments)| == TotalSize(segments)
    decreases |segments|
  {
    hide SegmentsOk, Within;
    if segments == [] {
      NoneWithin();
    } else {
      var init, s := segments[..|segments| - 1], segments[|segments| - 1];
      InitOk(segments);
      SegmentBytesAre(init);
      forall x: nat
        ensures Within(segments, x) <==> Within(init, x) || x in Span(s.base, s.size)
        ensures !(Within(init, x) && x in Span(s.base, s.size))
      {
        WithinInit(segments, x);
      }
      assert SegmentBytes(init) !! Span(s.base, s.size);
    }
  }

  lemma NoneWithin()
    ensures forall x: nat :: !Within([], x)
  {
  }

  lemma WithinInit(segments: seq<Segment>, x: nat)
    requires SegmentsOk(segments) && segments != []
    ensures
      var init, s := segments[..|segments| - 1], segments[|segments| - 1];
      && (Within(segments, x) <==> Within(init, x) || s.base <= x < s.base + s.size)
      && !(Within(init, x) && s.base <= x < s.base + s.size)
  {
    var init := segments[..|segments| - 1];
    assert forall i :: 0 <= i < |init| ==> init[i] == segments[i];
    if Within(init, x) {
      var i: nat :| i < |init| && init[i].base <= x < init[i].base + init[i].size;
      assert segments[i].base <= x < segments[i].base + segments[i].size;
    }
  }

  lemma BytesAre(m: map<nat, nat>, x: nat)
    ensures x in Bytes(m) <==> Covers(m, x)
  {
    if Covers(m, x) {
      var b: nat :| Holds(m, b, x);
      assert b in m && x in Span(b, m[b]);
    }
    if x in Bytes(m) {
      var b: nat :| b in m && x in Span(b, m[b]);
      assert Holds(m, b, x);
    }
  }

  lemma CoversUnion(free: map<nat, nat>, used: map<nat, nat>, x: nat)
    requires free.Keys !! used.Keys
    ensures Covers(free + used, x) <==> Covers(free, x) || Covers(used, x)
  {
    var all := free + used;
    assert forall b: nat :: Holds(all, b, x) <==> Holds(free, b, x) || Holds(used, b, x);
    if Covers(all, x) {
      var b: nat :| Holds(all, b, x);
      assert Holds(free, b, x) || Holds(used, b, x);
    }
    if Covers(free, x) {
      var b: nat :| Holds(free, b, x);
      assert Holds(all, b, x);
    }
    if Covers(used, x) {
      var b: nat :| Holds(used, b, x);
      assert Holds(all, b, x);
    }
  }

  lemma NotTwice(free: map<nat, nat>, used: map<nat, nat>, x: nat)
    requires free.Keys !! used.Keys && Separate(free + used)
    ensures !(Covers(free, x) && Covers(used, x))
  {
    var all := free + used;
    forall a: nat, c: nat | a in free && c in used
      ensures !(Holds(free, a, x) && Holds(used, c, x))
    {
      assert a in all && c in all && all[a] == free[a] && all[c] == used[c];
      assert a < c ==> a + all[a] <= c;
      assert c < a ==> c + all[c] <= a;
    }
  }
}

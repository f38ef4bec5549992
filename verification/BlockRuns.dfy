/** Runs of the best-fit allocator. A free block merges with its two neighbours, also across the
    border of two segments that touch; what that means for the free list over any sequence of calls. */
module BlockRuns {
  import opened Wasm
  import opened Blocks
  import Arena

  /** A segment begins at `x`. */
  ghost predicate Border(segments: seq<Segment>, x: nat) {
    exists i: nat {:trigger segments[i]} :: i < |segments| && segments[i].base == x
  }

  ghost predicate SegmentEnd(segments: seq<Segment>, x: nat) {
    exists i: nat {:trigger segments[i]} :: i < |segments| && segments[i].base + segments[i].size == x
  }

  /** Two free blocks that meet do so where a segment begins. */
  ghost predicate Joined(segments: seq<Segment>, m: map<nat, nat>) {
    forall b {:trigger b in m} :: b in m && b + m[b] in m ==> Border(segments, b + m[b])
  }

  /** The block at `p` may also meet a neighbour elsewhere, on its left only unless `right`. */
  ghost predicate JoinedBut(segments: seq<Segment>, m: map<nat, nat>, p: nat, right: bool) {
    forall b {:trigger b in m} :: b in m && b + m[b] in m ==>
      Border(segments, b + m[b]) || b == p || (!right && b + m[b] == p)
  }

  /** No block goes past the border of a segment. */
  ghost predicate Unspanned(segments: seq<Segment>, m: map<nat, nat>) {
    forall b {:trigger b in m} :: b in m ==> Inside(segments, b, m[b])
  }

  ghost predicate Inside(segments: seq<Segment>, b: nat, n: nat) {
    forall i :: 0 <= i < |segments| ==> !(b < segments[i].base < b + n)
  }

  predicate IsLeft(m: map<nat, nat>, p: nat, l: nat) {
    l in m && l < p && l + m[l] == p
  }

  /** Where the free bytes that end before `p` begin: at the block on the left, if it reaches `p`. */
  ghost function LeftEnd(m: map<nat, nat>, p: nat): (l: nat)
    ensures l == p || IsLeft(m, p, l)
  {
    if exists l: nat :: IsLeft(m, p, l) then var l: nat :| IsLeft(m, p, l); l else p
  }

  ghost function MergedLeft(m: map<nat, nat>, p: nat): (r: map<nat, nat>)
    requires p in m
    ensures LeftEnd(m, p) in r
  {
    if LeftEnd(m, p) == p then m else Merge(m, LeftEnd(m, p), p)
  }

  ghost function MergedRight(m: map<nat, nat>, p: nat): map<nat, nat>
    requires p in m
  {
    if p + m[p] in m && m[p] > 0 then Merge(m, p, p + m[p]) else m
  }

  /** The free blocks once the `n` bytes at `p` are free as well. */
  ghost function Freed(m: map<nat, nat>, p: nat, n: nat): map<nat, nat> {
    var g := m[p := n];
    MergedRight(MergedLeft(g, p), LeftEnd(g, p))
  }

  lemma LeftIs(m: map<nat, nat>, p: nat, l: nat)
    requires Separate(m) && IsLeft(m, p, l)
    ensures LeftEnd(m, p) == l
  {
    assert IsLeft(m, p, LeftEnd(m, p));
  }

  lemma NoLeft(m: map<nat, nat>, p: nat)
    requires forall l: nat :: !IsLeft(m, p, l)
    ensures LeftEnd(m, p) == p
  {
  }

  /** The neighbour in address order is the one that counts. */
  lemma PrevIsLeft(m: map<nat, nat>, p: nat, l: nat)
    requires Separate(m) && p in m && IsPrev(m, p, l)
    ensures LeftEnd(m, p) == if l + m[l] == p then l else p
  {
    if l + m[l] == p {
      LeftIs(m, p, l);
    } else {
      forall k: nat
        ensures !IsLeft(m, p, k)
      {
        assert k in m && k < l ==> k + m[k] <= l;
      }
      NoLeft(m, p);
    }
  }

  lemma NoPrev(m: map<nat, nat>, p: nat)
    requires forall b :: b in m ==> b >= p
    ensures LeftEnd(m, p) == p
  {
    NoLeft(m, p);
  }

  lemma NextIsRight(m: map<nat, nat>, p: nat, r: nat)
    requires Separate(m) && p in m && IsNext(m, p, r)
    ensures m[p] > 0
    ensures p + m[p] in m <==> p + m[p] == r
  {
    assert p + m[p] <= r;
  }

  lemma NoNext(m: map<nat, nat>, p: nat)
    requires Separate(m) && p in m && forall b :: b in m ==> b <= p
    ensures MergedRight(m, p) == m
  {
    assert m[p] > 0;
  }

  /** Merging moves no byte. */
  lemma MergedKeeps(m: map<nat, nat>, p: nat)
    requires Separate(m) && p in m
    ensures Separate(MergedLeft(m, p)) && LeftEnd(m, p) in MergedLeft(m, p)
    ensures forall x: nat :: Covers(MergedLeft(m, p), x) <==> Covers(m, x)
    ensures Separate(MergedRight(m, p))
    ensures forall x: nat :: Covers(MergedRight(m, p), x) <==> Covers(m, x)
  {
    hide Covers;
    var l := LeftEnd(m, p);
    if l != p {
      assert IsLeft(m, p, l);
      MergeKeeps(m, l, p);
    }
    if p + m[p] in m {
      MergeKeeps(m, p, p + m[p]);
    }
  }

  /** Exactly the bytes of the block are free in addition. */
  lemma FreedCovers(m: map<nat, nat>, p: nat, n: nat)
    requires Separate(m[p := n]) && p !in m
    ensures Separate(Freed(m, p, n))
    ensures forall x: nat :: Covers(Freed(m, p, n), x) <==> Covers(m, x) || p <= x < p + n
  {
    hide Covers, Separate, MergedLeft, MergedRight, LeftEnd;
    var g := m[p := n];
    var l := LeftEnd(g, p);
    GivenCovers(m, p, n);
    MergedKeeps(g, p);
    MergedKeeps(MergedLeft(g, p), l);
    forall x: nat
      ensures Covers(Freed(m, p, n), x) <==> Covers(m, x) || p <= x < p + n
    {
      assert Covers(MergedLeft(g, p), x) <==> Covers(g, x);
    }
  }

  lemma GiveJoined(segments: seq<Segment>, m: map<nat, nat>, p: nat, n: nat)
    requires Joined(segments, m) && p !in m
    ensures JoinedBut(segments, m[p := n], p, false)
  {
    hide Border;
    var m' := m[p := n];
    forall b {:trigger b in m'} | b in m' && b + m'[b] in m'
      ensures Border(segments, b + m'[b]) || b == p || b + m'[b] == p
    {
      if b != p {
        assert b in m && m[b] == m'[b];
      }
    }
  }

  lemma LeftJoined(segments: seq<Segment>, m: map<nat, nat>, p: nat)
    requires Separate(m) && p in m && JoinedBut(segments, m, p, false)
    ensures JoinedBut(segments, MergedLeft(m, p), LeftEnd(m, p), true)
  {
    hide Merge, Border;
    var l := LeftEnd(m, p);
    if l == p {
      assert forall k: nat :: !IsLeft(m, p, k);
      forall b {:trigger b in m} | b in m
        ensures b + m[b] != p
      {
        assert m[b] > 0 && !IsLeft(m, p, b);
      }
    } else {
      assert IsLeft(m, p, l);
      var n := Merge(m, l, p);
      forall b {:trigger b in n} | b in n && b + n[b] in n
        ensures Border(segments, b + n[b]) || b == l
      {
        MergeAt(m, l, p, b);
        MergeAt(m, l, p, b + n[b]);
      }
    }
  }

  lemma RightJoined(segments: seq<Segment>, m: map<nat, nat>, p: nat)
    requires Separate(m) && p in m && JoinedBut(segments, m, p, true)
    ensures Joined(segments, MergedRight(m, p))
  {
    hide Merge, Border;
    assert m[p] > 0;
    var r := p + m[p];
    if r in m {
      assert m[r] > 0;
      var n := Merge(m, p, r);
      forall b {:trigger b in n} | b in n && b + n[b] in n
        ensures Border(segments, b + n[b])
      {
        MergeAt(m, p, r, b);
        MergeAt(m, p, r, b + n[b]);
        if b == p {
          assert r in m && r + m[r] in m;
        }
      }
    }
  }

  /** Releasing a block leaves no two free blocks that meet, except where a segment begins. */
  lemma FreedJoined(segments: seq<Segment>, m: map<nat, nat>, p: nat, n: nat)
    requires Joined(segments, m) && Separate(m[p := n]) && p !in m
    ensures Joined(segments, Freed(m, p, n))
  {
    hide Joined, JoinedBut, Separate, MergedLeft, MergedRight, LeftEnd;
    var g := m[p := n];
    GiveJoined(segments, m, p, n);
    MergedKeeps(g, p);
    LeftJoined(segments, g, p);
    RightJoined(segments, MergedLeft(g, p), LeftEnd(g, p));
  }

  /** Where no two met before none meet after. */
  lemma FreedCoalesced(m: map<nat, nat>, p: nat, n: nat)
    requires Coalesced(m) && Separate(m[p := n]) && p !in m
    ensures Coalesced(Freed(m, p, n))
  {
    hide Freed, Separate;
    FreedJoined([], m, p, n);
    assert forall x: nat :: !Border([], x);
  }

  /** Nor does taking the low end of a free block. */
  lemma TakeJoined(segments: seq<Segment>, m: map<nat, nat>, b: nat, size: nat)
    requires Separate(m) && Joined(segments, m) && b in m && 0 < size <= m[b]
    ensures Joined(segments, Take(m, b, size))
  {
    hide Border, Separate, Joined, Take;
    var n := Take(m, b, size);
    forall a {:trigger a in n} | a in n && a + n[a] in n
      ensures Border(segments, a + n[a])
    {
      TakenPair(m, b, size, a);
      JoinedAt(segments, m, if a == b + size && a !in m then b else a);
    }
    JoinedByOne(segments, n);
  }

  lemma JoinedByOne(segments: seq<Segment>, m: map<nat, nat>)
    requires forall a {:trigger a in m} :: a in m && a + m[a] in m ==> Border(segments, a + m[a])
    ensures Joined(segments, m)
  {
    hide Border;
  }

  /** Two blocks that meet after a block is taken met before, the rest of the taken one as its whole. */
  lemma TakenPair(m: map<nat, nat>, b: nat, size: nat, a: nat)
    requires Separate(m) && b in m && 0 < size <= m[b]
    requires a in Take(m, b, size) && a + Take(m, b, size)[a] in Take(m, b, size)
    ensures
      var e := a + Take(m, b, size)[a];
      if a == b + size && a !in m then b + m[b] == e && e in m else a in m && a + m[a] == e && e in m
  {
    assert size < m[b] ==> b + size !in m;
    assert a in m && a < b ==> a + m[a] <= b;
    assert a in m && a > b ==> b + m[b] <= a;
  }

  /** A new segment meets a free block only at its own beginning, or at the one of another segment. */
  lemma SegmentJoined(segments: seq<Segment>, all: map<nat, nat>, free: map<nat, nat>, s: Segment)
    requires Partition(segments, all) && SegmentsOk(segments + [s]) && Joined(segments, free)
    requires forall b :: b in free ==> b in all && all[b] == free[b]
    ensures Joined(segments + [s], free[s.base := s.size])
  {
    var segments', free' := segments + [s], free[s.base := s.size];
    assert segments'[|segments|] == s;
    forall b {:trigger b in free'} | b in free' && b + free'[b] in free'
      ensures Border(segments', b + free'[b])
    {
      if b == s.base {
        var c := b + free'[b];
        assert c in all;
        InSegment(segments, all, c, c);
        var j: nat :| j < |segments| && segments[j].base <= c < segments[j].base + segments[j].size;
        assert segments'[j] == segments[j];
      } else if b + free'[b] != s.base {
        assert b in free && b + free[b] in free;
        var i: nat :| i < |segments| && segments[i].base == b + free[b];
        assert segments'[i] == segments[i];
      }
    }
  }

  /** The segments, the free blocks and the allocated ones. */
  datatype Heap = Heap(segments: seq<Segment>, free: map<nat, nat>, used: map<nat, nat>)

  ghost predicate HeapOk(h: Heap) {
    && h.free.Keys !! h.used.Keys
    && SegmentsOk(h.segments) && Partition(h.segments, h.free + h.used)
    && Joined(h.segments, h.free)
  }

  function SegmentSize(minSize: nat): nat {
    if minSize > SEGMENT_SIZE then minSize else SEGMENT_SIZE
  }

  ghost predicate Fits(free: map<nat, nat>, n: nat) {
    exists b :: b in free && free[b] >= n
  }

  ghost predicate BestFit(free: map<nat, nat>, n: nat, b: nat) {
    && b in free && free[b] >= n
    && forall c :: c in free && free[c] >= n ==> c == b || Before(Extent(free[b], b), Extent(free[c], c))
  }

  /** A call of the allocator and its answer; `mapped` is the base of a fresh mapping, should the call
      need one, or None when the system has no more memory. */
  datatype Event = Allocated(size: nat, mapped: Option<nat>, result: Option<nat>) | Released(ptr: nat)

  /** The best fit, or the low end of a new segment, or nothing. */
  ghost predicate Allocates(h: Heap, n: nat, mapped: Option<nat>, r: Option<nat>, h': Heap) {
    if Fits(h.free, n) then
      && r.Some? && BestFit(h.free, n, r.value)
      && h' == Heap(h.segments, Take(h.free, r.value, n), h.used[r.value := n])
    else if mapped.None? then r.None? && h' == h
    else
      var s := Segment(mapped.value, SegmentSize(n));
      r == mapped && h' == Heap(h.segments + [s], Take(h.free[s.base := s.size], s.base, n), h.used[s.base := n])
  }

  /** One call; the system maps memory where there is none yet, and only what is allocated is freed. */
  ghost predicate Step(pageSize: nat, e: Event, h: Heap, h': Heap)
    requires pageSize > 0
  {
    match e
    case Allocated(size, mapped, result) =>
      var n := Arena.AlignUp(size, pageSize);
      && n > 0
      && (mapped.Some? ==> SegmentsOk(h.segments + [Segment(mapped.value, SegmentSize(n))]))
      && Allocates(h, n, mapped, result, h')
    case Released(ptr) =>
      ptr in h.used && h' == Heap(h.segments, Freed(h.free, ptr, h.used[ptr]), h.used - {ptr})
  }

  /** The states a sequence of calls goes through, from the start. */
  ghost predicate IsRun(pageSize: nat, events: seq<Event>, heaps: seq<Heap>)
    requires pageSize > 0
  {
    && |heaps| == |events| + 1
    && heaps[0] == Heap([], map[], map[])
    && forall i {:trigger events[i]} :: 0 <= i < |events| ==> Step(pageSize, events[i], heaps[i], heaps[i + 1])
  }

  lemma FreeIsSeparate(h: Heap)
    requires HeapOk(h)
    ensures Separate(h.free) && Separate(h.free + h.used)
    ensures forall b :: b in h.free ==> b in h.free + h.used && (h.free + h.used)[b] == h.free[b]
    ensures forall b :: b in h.used ==> b in h.free + h.used && (h.free + h.used)[b] == h.used[b]
  {
    hide SegmentsOk, Joined;
    var all := h.free + h.used;
    assert forall b :: b in h.free ==> b in all && all[b] == h.free[b];
  }

  /** Taking the low end of a free block, whatever was merged before. */
  lemma TakeOk(h: Heap, b: nat, n: nat)
    requires HeapOk(h) && b in h.free && 0 < n <= h.free[b]
    ensures HeapOk(Heap(h.segments, Take(h.free, b, n), h.used[b := n])) && b !in h.used
  {
    hide SegmentsOk, Joined, Covers, Within, Separate;
    FreeIsSeparate(h);
    TakeJoined(h.segments, h.free, b, n);
    var all := h.free + h.used;
    var all' := Take(h.free, b, n) + h.used[b := n];
    if n < h.free[b] {
      SplitKeeps(all, b, n);
      assert all' == Split(all, b, n);
      PartitionKept(h.segments, all, all');
    } else {
      assert all' == all;
    }
  }

  lemma SegmentOk(h: Heap, s: Segment)
    requires HeapOk(h) && SegmentsOk(h.segments + [s])
    ensures s.base !in h.free && s.base !in h.used
    ensures HeapOk(Heap(h.segments + [s], h.free[s.base := s.size], h.used))
  {
    hide SegmentsOk, Joined, Partition;
    var all := h.free + h.used;
    SegmentAdded(h.segments, all, s);
    SegmentJoined(h.segments, all, h.free, s);
    assert h.free[s.base := s.size] + h.used == all[s.base := s.size];
  }

  /** An allocation in full: the least multiple of the page size that is enough comes off the low end of
      the smallest block it fits in, the lowest such block, and what is left of that block stays free; if
      there is none, off a new segment of 2^30 bytes, or of just as many as are needed. */
  lemma AllocationIs(pageSize: nat, size: nat, mapped: Option<nat>, r: Option<nat>, h: Heap, h': Heap)
    returns (n: nat)
    requires pageSize > 0 && HeapOk(h) && Step(pageSize, Allocated(size, mapped, r), h, h')
    ensures n % pageSize == 0 && size <= n < size + pageSize
    ensures
      if exists b :: b in h.free && h.free[b] >= n then
        && r.Some? && r.value in h.free && h.free[r.value] >= n
        && (forall c :: c in h.free && h.free[c] >= n ==>
              h.free[r.value] < h.free[c] || (h.free[r.value] == h.free[c] && r.value <= c))
        && h'.segments == h.segments && h'.used == h.used[r.value := n]
        && h'.free == if n == h.free[r.value] then h.free - {r.value}
                      else (h.free - {r.value})[r.value + n := h.free[r.value] - n]
      else if mapped.None? then r.None? && h' == h
      else
        var bytes := if n > 0x4000_0000 then n else 0x4000_0000;
        && r == mapped && mapped.value !in h.free && mapped.value !in h.used
        && h'.segments == h.segments + [Segment(mapped.value, bytes)] && h'.used == h.used[mapped.value := n]
        && h'.free == if n == bytes then h.free else h.free[mapped.value + n := bytes - n]
  {
    hide HeapOk, SegmentsOk, Arena.AlignUp;
    n := Arena.AlignUp(size, pageSize);
    Rounded(size, pageSize);
    if Fits(h.free, n) {
      hide SegmentSize;
    } else if mapped.Some? {
      hide BestFit;
      var bytes := SegmentSize(n);
      SegmentOk(h, Segment(mapped.value, bytes));
      NewTaken(h.free, mapped.value, bytes, n);
    }
  }

  lemma Rounded(size: nat, pageSize: nat)
    requires pageSize > 0
    ensures Arena.AlignUp(size, pageSize) % pageSize == 0 && size <= Arena.AlignUp(size, pageSize) < size + pageSize
  {
    Arena.ModOfMultiple((size + pageSize - 1) / pageSize, pageSize);
  }

  lemma NewTaken(m: map<nat, nat>, b: nat, size: nat, n: nat)
    requires b !in m && n <= size
    ensures Take(m[b := size], b, n) == if n == size then m else m[b + n := size - n]
  {
    assert m[b := size] - {b} == m;
  }

  lemma FreeOk(h: Heap, p: nat)
    requires HeapOk(h) && p in h.used
    ensures HeapOk(Heap(h.segments, Freed(h.free, p, h.used[p]), h.used - {p}))
  {
    hide SegmentsOk, Joined, Within, Freed, Separate, Covers;
    var n := h.used[p];
    var used' := h.used - {p};
    FreeIsSeparate(h);
    GivenSeparate(h.free, h.used, p);
    FreedJoined(h.segments, h.free, p, n);
    FreedCovers(h.free, p, n);
    FreedUnion(h.free, h.used, p);
    assert HeapOk(Heap(h.segments, Freed(h.free, p, n), used')) by {
      PartitionKept(h.segments, h.free + h.used, Freed(h.free, p, n) + used');
    }
  }

  lemma GivenSeparate(free: map<nat, nat>, used: map<nat, nat>, p: nat)
    requires free.Keys !! used.Keys && Separate(free + used) && p in used
    ensures Separate(free[p := used[p]]) && p !in free
  {
    var all, g := free + used, free[p := used[p]];
    assert forall b :: b in g ==> b in all && all[b] == g[b];
  }

  /** Merging free blocks does not touch the allocated ones. */
  lemma FreedUnion(free: map<nat, nat>, used: map<nat, nat>, p: nat)
    requires free.Keys !! used.Keys && Separate(free + used) && p in used
    ensures Freed(free, p, used[p]).Keys !! (used - {p}).Keys
    ensures Separate(Freed(free, p, used[p]) + (used - {p}))
    ensures forall x: nat :: Covers(Freed(free, p, used[p]) + (used - {p}), x) <==> Covers(free + used, x)
  {
    hide Covers, Separate, MergedLeft, MergedRight;
    var g, used' := free[p := used[p]], used - {p};
    GivenSeparate(free, used, p);
    assert g + used' == free + used;
    var l := LeftEnd(g, p);
    MergedKeeps(g, p);
    LeftUnion(g, used', p);
    var h := MergedLeft(g, p);
    RightUnion(h, used', l);
    forall x: nat
      ensures Covers(Freed(free, p, used[p]) + used', x) <==> Covers(free + used, x)
    {
      assert Covers(h + used', x) <==> Covers(g + used', x);
    }
  }

  lemma LeftUnion(free: map<nat, nat>, used: map<nat, nat>, p: nat)
    requires free.Keys !! used.Keys && Separate(free + used) && Separate(free) && p in free
    ensures MergedLeft(free, p).Keys !! used.Keys && Separate(MergedLeft(free, p) + used)
    ensures forall x: nat :: Covers(MergedLeft(free, p) + used, x) <==> Covers(free + used, x)
  {
    hide Covers, Separate, Merge;
    var l := LeftEnd(free, p);
    if l != p {
      assert IsLeft(free, p, l);
      MergeUnion(free, used, l, p);
      MergeKeeps(free + used, l, p);
    }
  }

  lemma RightUnion(free: map<nat, nat>, used: map<nat, nat>, p: nat)
    requires free.Keys !! used.Keys && Separate(free + used) && Separate(free) && p in free
    ensures MergedRight(free, p).Keys !! used.Keys && Separate(MergedRight(free, p) + used)
    ensures forall x: nat :: Covers(MergedRight(free, p) + used, x) <==> Covers(free + used, x)
  {
    hide Covers, Separate, Merge;
    if p + free[p] in free && free[p] > 0 {
      MergeUnion(free, used, p, p + free[p]);
      MergeKeeps(free + used, p, p + free[p]);
    }
  }

  lemma StepOk(pageSize: nat, e: Event, h: Heap, h': Heap)
    requires pageSize > 0 && HeapOk(h) && Step(pageSize, e, h, h')
    ensures HeapOk(h')
  {
    hide HeapOk, Freed, BestFit, SegmentsOk, Take;
    match e
    case Released(ptr) => FreeOk(h, ptr);
    case Allocated(size, mapped, result) =>
      var n := Arena.AlignUp(size, pageSize);
      if Fits(h.free, n) {
        assert result.value in h.free && h.free[result.value] >= n by { FitIs(h.free, n, result.value); }
        TakeOk(h, result.value, n);
      } else if mapped.Some? {
        var s := Segment(mapped.value, SegmentSize(n));
        SegmentOk(h, s);
        var h1 := Heap(h.segments + [s], h.free[s.base := s.size], h.used);
        TakeOk(h1, s.base, n);
      }
  }

  lemma FitIs(free: map<nat, nat>, n: nat, b: nat)
    requires BestFit(free, n, b)
    ensures b in free && free[b] >= n
  {
  }

  /** The invariant of every run: blocks partition the segments, and free blocks meet at most where a
      segment begins. */
  lemma {:induction false} RunOk(pageSize: nat, events: seq<Event>, heaps: seq<Heap>, i: nat)
    requires pageSize > 0 && IsRun(pageSize, events, heaps) && i <= |events|
    ensures HeapOk(heaps[i])
    decreases i
  {
    hide HeapOk, Step;
    if i == 0 {
      EmptyOk();
    } else {
      RunOk(pageSize, events, heaps, i - 1);
      assert Step(pageSize, events[i - 1], heaps[i - 1], heaps[i]);
      StepOk(pageSize, events[i - 1], heaps[i - 1], heaps[i]);
    }
  }

  lemma EmptyOk()
    ensures HeapOk(Heap([], map[], map[]))
  {
    NoBlocks();
    ghost var none: map<nat, nat> := map[];
    assert none + none == none;
  }

  /** What a byte of a free block lies in, when nothing is allocated. */
  lemma FreeIsWithin(h: Heap, x: nat) returns (i: nat)
    requires HeapOk(h) && h.used == map[] && Covers(h.free, x)
    ensures i < |h.segments| && h.segments[i].base <= x < h.segments[i].base + h.segments[i].size
  {
    assert h.free + h.used == h.free;
    assert Within(h.segments, x);
    i :| i < |h.segments| && h.segments[i].base <= x < h.segments[i].base + h.segments[i].size;
  }

  lemma WithinIsFree(h: Heap, i: nat, x: nat) returns (b: nat)
    requires HeapOk(h) && h.used == map[]
    requires i < |h.segments| && h.segments[i].base <= x < h.segments[i].base + h.segments[i].size
    ensures Holds(h.free, b, x)
  {
    assert h.free + h.used == h.free;
    assert Within(h.segments, x);
    b :| Holds(h.free, b, x);
  }

  /** When nothing is allocated, every free block begins where a segment begins and ends where a
      segment ends: it is a union of whole segments. */
  lemma WholeSegments(h: Heap, b: nat)
    requires HeapOk(h) && h.used == map[] && b in h.free
    ensures Border(h.segments, b) && SegmentEnd(h.segments, b + h.free[b])
  {
    hide Partition, Within, Joined, Border, SegmentEnd;
    FreeIsSeparate(h);
    var m, segments := h.free, h.segments;
    var e := b + m[b];
    assert m[b] > 0 && Holds(m, b, b) && Holds(m, b, e - 1);
    var i := FreeIsWithin(h, b);
    if segments[i].base == b {
      assert Border(segments, b) by { BorderAt(segments, i); }
    } else {
      var c := WithinIsFree(h, i, b - 1);
      assert c + m[c] == b;
      JoinedAt(segments, m, c);
    }
    var j := FreeIsWithin(h, e - 1);
    if segments[j].base + segments[j].size == e {
      assert SegmentEnd(segments, e) by { EndAt(segments, j); }
    } else {
      var c := WithinIsFree(h, j, e);
      assert c == e;
      JoinedAt(segments, m, b);
    }
  }

  lemma BorderAt(segments: seq<Segment>, i: nat)
    requires i < |segments|
    ensures Border(segments, segments[i].base)
  {
  }

  lemma EndAt(segments: seq<Segment>, i: nat)
    requires i < |segments|
    ensures SegmentEnd(segments, segments[i].base + segments[i].size)
  {
  }

  lemma BorderOf(segments: seq<Segment>, x: nat) returns (i: nat)
    requires Border(segments, x)
    ensures i < |segments| && segments[i].base == x
  {
    i :| i < |segments| && segments[i].base == x;
  }

  lemma EndOf(segments: seq<Segment>, x: nat) returns (i: nat)
    requires SegmentEnd(segments, x)
    ensures i < |segments| && segments[i].base + segments[i].size == x
  {
    i :| i < |segments| && segments[i].base + segments[i].size == x;
  }

  lemma JoinedAt(segments: seq<Segment>, m: map<nat, nat>, b: nat)
    requires Joined(segments, m) && b in m && b + m[b] in m
    ensures Border(segments, b + m[b])
  {
  }

  /** A segment of an empty heap is one free block, if no block goes past its borders. */
  lemma OneBlock(h: Heap, i: nat)
    requires HeapOk(h) && h.used == map[] && Unspanned(h.segments, h.free) && i < |h.segments|
    ensures h.segments[i].base in h.free && h.free[h.segments[i].base] == h.segments[i].size
  {
    hide Partition, Within, Joined, Border, SegmentEnd;
    FreeIsSeparate(h);
    var m, s := h.free, h.segments[i];
    var b := WithinIsFree(h, i, s.base);
    assert Inside(h.segments, b, m[b]);
    assert b == s.base;
    WholeSegments(h, b);
    var j := EndOf(h.segments, b + m[b]);
  }

  /** Once everything is released there is one free block for each segment exactly when no block goes
      past the border of a segment; and none does when no two segments touch. */
  lemma OnePerSegment(h: Heap)
    requires HeapOk(h) && h.used == map[]
    ensures h.free == SegmentBlocks(h.segments) <==> Unspanned(h.segments, h.free)
    ensures Apart(h.segments) ==> h.free == SegmentBlocks(h.segments)
  {
    hide Partition, Within, Joined, Border, SegmentEnd, SegmentBlocks;
    SegmentBlocksAre(h.segments);
    var g := SegmentBlocks(h.segments);
    if Apart(h.segments) {
      ApartUnspanned(h);
    }
    if Unspanned(h.segments, h.free) {
      forall b | b in g
        ensures b in h.free && h.free[b] == g[b]
      {
        var i :| 0 <= i < |h.segments| && h.segments[i].base == b;
        OneBlock(h, i);
      }
      forall b | b in h.free
        ensures b in g
      {
        WholeSegments(h, b);
        var i := BorderOf(h.segments, b);
      }
      assert forall b :: b in g <==> b in h.free;
    }
  }

  lemma ApartUnspanned(h: Heap)
    requires HeapOk(h) && h.used == map[] && Apart(h.segments)
    ensures Unspanned(h.segments, h.free)
  {
    hide Partition, Within, Joined, SegmentsOk;
    forall b, j {:trigger b in h.free, h.segments[j]} | b in h.free && 0 <= j < |h.segments|
      ensures !(b < h.segments[j].base < b + h.free[b])
    {
      if b < h.segments[j].base < b + h.free[b] {
        var c := h.segments[j].base;
        assert Holds(h.free, b, c - 1);
        var k := FreeIsWithin(h, c - 1);
        assert h.segments[k].base + h.segments[k].size != c;
        SegmentsDisjoint(h.segments, j, k);
      }
    }
  }

  lemma SegmentsDisjoint(segments: seq<Segment>, i: nat, j: nat)
    requires SegmentsOk(segments) && i < |segments| && j < |segments| && i != j
    ensures segments[i].size > 0 && segments[j].size > 0
    ensures segments[i].base + segments[i].size <= segments[j].base ||
            segments[j].base + segments[j].size <= segments[i].base
  {
  }

  /** Where no two segments touch, no two free blocks meet. */
  lemma ApartCoalesced(h: Heap)
    requires HeapOk(h) && Apart(h.segments)
    ensures Coalesced(h.free)
  {
    hide SegmentsOk, Partition, Within, Border;
    FreeIsSeparate(h);
    forall b {:trigger b in h.free} | b in h.free
      ensures b + h.free[b] !in h.free
    {
      if b + h.free[b] in h.free {
        var c := b + h.free[b];
        JoinedAt(h.segments, h.free, b);
        var i := BorderOf(h.segments, c);
        assert Holds(h.free + h.used, b, c - 1);
        InSegment(h.segments, h.free + h.used, b, c - 1);
        var k := SegmentOf(h.segments, c - 1);
        assert h.segments[k].base + h.segments[k].size != c;
        SegmentsDisjoint(h.segments, i, k);
      }
    }
  }

  lemma SegmentOf(segments: seq<Segment>, x: nat) returns (i: nat)
    requires Within(segments, x)
    ensures i < |segments| && segments[i].base <= x < segments[i].base + segments[i].size
  {
    i :| i < |segments| && segments[i].base <= x < segments[i].base + segments[i].size;
  }

  /** Where no two segments touch the free list depends on what is allocated, and on nothing before. */
  lemma FreeListDetermined(h: Heap, h': Heap)
    requires HeapOk(h) && HeapOk(h') && Apart(h.segments)
    requires h.segments == h'.segments && h.used == h'.used
    ensures h.free == h'.free
  {
    hide Covers, Within, Coalesced, Separate, SegmentsOk, Joined;
    FreeIsSeparate(h);
    FreeIsSeparate(h');
    ApartCoalesced(h);
    ApartCoalesced(h');
    forall x: nat
      ensures Covers(h.free, x) <==> Covers(h'.free, x)
    {
      CoversUnion(h.free, h.used, x);
      CoversUnion(h'.free, h.used, x);
      NotTwice(h.free, h.used, x);
      NotTwice(h'.free, h.used, x);
      assert Covers(h.free + h.used, x) <==> Within(h.segments, x);
      assert Covers(h'.free + h.used, x) <==> Within(h.segments, x);
    }
    CoalescedUnique(h.free, h'.free);
  }

  /** Conservation: no byte is in a free and in an allocated block, and the bytes of both together
      are those of all segments. */
  lemma BytesConserved(h: Heap)
    requires HeapOk(h)
    ensures Bytes(h.free) !! Bytes(h.used)
    ensures |Bytes(h.free)| + |Bytes(h.used)| == TotalSize(h.segments)
  {
    hide SegmentsOk, Separate, Within, Covers, Bytes, SegmentBytes, Joined;
    SegmentBytesAre(h.segments);
    forall x: nat
      ensures x in Bytes(h.free) || x in Bytes(h.used) <==> x in SegmentBytes(h.segments)
      ensures !(x in Bytes(h.free) && x in Bytes(h.used))
    {
      BytesAre(h.free, x);
      BytesAre(h.used, x);
      CoversUnion(h.free, h.used, x);
      NotTwice(h.free, h.used, x);
      assert Covers(h.free + h.used, x) <==> Within(h.segments, x);
    }
    assert Bytes(h.free) + Bytes(h.used) == SegmentBytes(h.segments);
  }

  /** After any sequence of calls that leaves nothing allocated, in whatever order the blocks were
      released: whole segments are free, and one block for each if no two segments touch. */
  lemma AllReleased(pageSize: nat, events: seq<Event>, heaps: seq<Heap>)
    requires pageSize > 0 && IsRun(pageSize, events, heaps) && heaps[|events|].used == map[]
    ensures
      var h := heaps[|events|];
      && (forall b :: b in h.free ==> Border(h.segments, b) && SegmentEnd(h.segments, b + h.free[b]))
      && (h.free == SegmentBlocks(h.segments) <==> Unspanned(h.segments, h.free))
      && (Apart(h.segments) ==> h.free == SegmentBlocks(h.segments))
      && |Bytes(h.free)| == TotalSize(h.segments)
  {
    hide HeapOk, Step, Border, SegmentEnd, Unspanned, Apart, Bytes;
    var h := heaps[|events|];
    RunOk(pageSize, events, heaps, |events|);
    forall b | b in h.free
      ensures Border(h.segments, b) && SegmentEnd(h.segments, b + h.free[b])
    {
      WholeSegments(h, b);
    }
    OnePerSegment(h);
    BytesConserved(h);
    NoBytes();
  }

  lemma NoBytes()
    ensures Bytes(map[]) == {}
  {
  }

  /** The one block that grows, and the others as they were. */
  lemma FreedShape(m: map<nat, nat>, p: nat, n: nat)
    requires Separate(m[p := n]) && p !in m
    ensures
      var r, l := Freed(m, p, n), LeftEnd(m[p := n], p);
      var right := if p + n in m then m[p + n] else 0;
      && l in r && r[l] == p - l + n + right
      && (l != p ==> IsLeft(m, p, l))
      && forall b :: b != l ==> (b in r <==> b in m && b != p + n) && (b in r ==> r[b] == m[b])
  {
    hide Separate;
    var g := m[p := n];
    assert g[p] > 0 by { PositiveSize(g, p); }
    var l := LeftEnd(g, p);
    if l != p {
      assert IsLeft(g, p, l) && IsLeft(m, p, l);
    }
  }

  /** A merged block is inside one segment exactly when its parts are and no border lies between them. */
  lemma InsideParts(segments: seq<Segment>, m: map<nat, nat>, p: nat, n: nat, l: nat)
    requires Unspanned(segments, m) && n > 0 && (l == p || IsLeft(m, p, l))
    requires p + n in m ==> m[p + n] > 0
    ensures
      var right := if p + n in m then m[p + n] else 0;
      Inside(segments, l, p - l + n + right) <==>
      Inside(segments, p, n) && !(Border(segments, p) && l != p) && !(Border(segments, p + n) && p + n in m)
  {
    var right := if p + n in m then m[p + n] else 0;
    if l != p {
      assert l in m && Inside(segments, l, m[l]);
    }
    if p + n in m {
      assert Inside(segments, p + n, m[p + n]);
    }
    if Inside(segments, l, p - l + n + right) {
      assert Inside(segments, p, n);
    }
  }

  /** A release makes a block that goes past the border of a segment exactly when the released block
      does, or meets a free neighbour at one. */
  lemma FreedUnspanned(segments: seq<Segment>, m: map<nat, nat>, p: nat, n: nat)
    requires Separate(m[p := n]) && p !in m && Unspanned(segments, m)
    ensures
      Unspanned(segments, Freed(m, p, n)) <==>
      && Inside(segments, p, n)
      && !(Border(segments, p) && exists l: nat :: IsLeft(m, p, l))
      && !(Border(segments, p + n) && p + n in m)
  {
    hide Separate, Freed;
    FreedShape(m, p, n);
    var g := m[p := n];
    PositiveSize(g, p);
    if p + n in m {
      PositiveSize(g, p + n);
    }
    var r, l := Freed(m, p, n), LeftEnd(g, p);
    if l == p {
      forall k: nat
        ensures !IsLeft(m, p, k)
      {
        assert IsLeft(m, p, k) ==> IsLeft(g, p, k);
        if IsLeft(g, p, k) {
          LeftIs(g, p, k);
        }
      }
    }
    assert Inside(segments, l, r[l]) <==>
      Inside(segments, p, n) && !(Border(segments, p) && l != p) && !(Border(segments, p + n) && p + n in m)
      by { InsideParts(segments, m, p, n, l); }
    if Inside(segments, l, r[l]) {
      forall b {:trigger b in r} | b in r
        ensures Inside(segments, b, r[b])
      {
        assert b != l ==> b in m;
      }
    }
  }

  /** A release that meets a free neighbour where a segment begins. */
  ghost predicate Crosses(h: Heap, p: nat)
    requires p in h.used
  {
    || (Border(h.segments, p) && exists l: nat :: IsLeft(h.free, p, l))
    || (Border(h.segments, p + h.used[p]) && p + h.used[p] in h.free)
  }

  ghost predicate HeapUnspanned(h: Heap) {
    Unspanned(h.segments, h.free) && Unspanned(h.segments, h.used)
  }

  lemma TakeUnspanned(h: Heap, b: nat, n: nat)
    requires HeapUnspanned(h) && b in h.free && 0 < n <= h.free[b]
    ensures HeapUnspanned(Heap(h.segments, Take(h.free, b, n), h.used[b := n]))
  {
    hide Inside;
    assert Inside(h.segments, b, h.free[b]);
    InsideShorter(h.segments, b, h.free[b], n);
  }

  lemma InsideShorter(segments: seq<Segment>, b: nat, size: nat, n: nat)
    requires Inside(segments, b, size) && n <= size
    ensures Inside(segments, b, n) && Inside(segments, b + n, size - n)
  {
  }

  /** A new segment begins and ends outside every block there is. */
  lemma SegmentUnspanned(h: Heap, s: Segment)
    requires HeapOk(h) && HeapUnspanned(h) && SegmentsOk(h.segments + [s])
    ensures HeapUnspanned(Heap(h.segments + [s], h.free[s.base := s.size], h.used))
  {
    hide SegmentsOk, Joined, Partition, Inside;
    FreeIsSeparate(h);
    var all := h.free + h.used;
    forall b {:trigger b in all} | b in all
      ensures Inside(h.segments + [s], b, all[b])
    {
      assert Inside(h.segments, b, all[b]);
      NewBase(h, s, b);
    }
    NewInside(h.segments, s);
  }

  lemma NewBase(h: Heap, s: Segment, b: nat)
    requires HeapOk(h) && SegmentsOk(h.segments + [s]) && b in h.free + h.used
    requires Inside(h.segments, b, (h.free + h.used)[b])
    ensures Inside(h.segments + [s], b, (h.free + h.used)[b])
  {
    hide SegmentsOk, Joined, Within;
    var all := h.free + h.used;
    if b < s.base < b + all[b] {
      assert Holds(all, b, s.base) && Within(h.segments, s.base);
      var i := SegmentOf(h.segments, s.base);
      assert (h.segments + [s])[i] == h.segments[i] && (h.segments + [s])[|h.segments|] == s;
      SegmentsDisjoint(h.segments + [s], i, |h.segments|);
    }
  }

  lemma NewInside(segments: seq<Segment>, s: Segment)
    requires SegmentsOk(segments + [s])
    ensures Inside(segments + [s], s.base, s.size)
  {
    hide SegmentsOk;
    forall i | 0 <= i < |segments|
      ensures !(s.base < segments[i].base < s.base + s.size)
    {
      assert (segments + [s])[i] == segments[i] && (segments + [s])[|segments|] == s;
      SegmentsDisjoint(segments + [s], i, |segments|);
    }
  }

  lemma FreeUnspanned(h: Heap, p: nat)
    requires HeapOk(h) && HeapUnspanned(h) && p in h.used
    ensures HeapUnspanned(Heap(h.segments, Freed(h.free, p, h.used[p]), h.used - {p})) <==> !Crosses(h, p)
  {
    hide SegmentsOk, Partition, Joined, Freed, Inside;
    FreeIsSeparate(h);
    GivenSeparate(h.free, h.used, p);
    FreedUnspanned(h.segments, h.free, p, h.used[p]);
  }

  /** A call leaves no block past a border exactly when it is no release across one. */
  lemma StepUnspanned(pageSize: nat, e: Event, h: Heap, h': Heap)
    requires pageSize > 0 && HeapOk(h) && HeapUnspanned(h) && Step(pageSize, e, h, h')
    ensures HeapUnspanned(h') <==> (e.Released? ==> !Crosses(h, e.ptr))
  {
    hide HeapOk, HeapUnspanned, Freed, BestFit, SegmentsOk, Take, Crosses;
    match e
    case Released(ptr) => FreeUnspanned(h, ptr);
    case Allocated(size, mapped, result) =>
      var n := Arena.AlignUp(size, pageSize);
      if Fits(h.free, n) {
        assert result.value in h.free && h.free[result.value] >= n by { FitIs(h.free, n, result.value); }
        TakeUnspanned(h, result.value, n);
      } else if mapped.Some? {
        var s := Segment(mapped.value, SegmentSize(n));
        SegmentUnspanned(h, s);
        TakeUnspanned(Heap(h.segments + [s], h.free[s.base := s.size], h.used), s.base, n);
      }
  }

  /** No release up to the `i`th call of a run meets a free neighbour across a border. */
  ghost predicate NoCrossing(pageSize: nat, events: seq<Event>, heaps: seq<Heap>, i: nat)
    requires pageSize > 0 && IsRun(pageSize, events, heaps) && i <= |events|
  {
    forall j {:trigger events[j]} :: 0 <= j < i && events[j].Released? ==>
      Step(pageSize, events[j], heaps[j], heaps[j + 1]) && !Crosses(heaps[j], events[j].ptr)
  }

  /** In a run no block ever goes past a border exactly when no release meets a free neighbour at one. */
  lemma {:induction false} RunUnspanned(pageSize: nat, events: seq<Event>, heaps: seq<Heap>, i: nat)
    requires pageSize > 0 && IsRun(pageSize, events, heaps) && i <= |events|
    ensures (forall j :: 0 <= j <= i ==> HeapUnspanned(heaps[j])) <==> NoCrossing(pageSize, events, heaps, i)
    decreases i
  {
    hide HeapOk, Step, HeapUnspanned, Crosses;
    if i == 0 {
      assert HeapUnspanned(heaps[0]) by { NothingSpans(); }
    } else {
      RunUnspanned(pageSize, events, heaps, i - 1);
      RunOk(pageSize, events, heaps, i - 1);
      assert Step(pageSize, events[i - 1], heaps[i - 1], heaps[i]);
      if HeapUnspanned(heaps[i - 1]) {
        StepUnspanned(pageSize, events[i - 1], heaps[i - 1], heaps[i]);
      }
    }
  }

  lemma NothingSpans()
    ensures HeapUnspanned(Heap([], map[], map[]))
  {
  }

  /** Such a run, once nothing is allocated, ends with one free block for each segment. */
  lemma OneBlockEach(pageSize: nat, events: seq<Event>, heaps: seq<Heap>)
    requires pageSize > 0 && IsRun(pageSize, events, heaps) && NoCrossing(pageSize, events, heaps, |events|)
    requires heaps[|events|].used == map[]
    ensures heaps[|events|].free == SegmentBlocks(heaps[|events|].segments)
  {
    hide HeapOk, Step, Crosses, Unspanned;
    RunUnspanned(pageSize, events, heaps, |events|);
    RunOk(pageSize, events, heaps, |events|);
    OnePerSegment(heaps[|events|]);
  }

  const PAGE: nat := 0x1000

  const LOW: nat := SEGMENT_SIZE
  const HIGH: nat := 2 * SEGMENT_SIZE

  /** A mapping at `HIGH`, and one right below it at `LOW`. */
  function Upper(): seq<Segment> {
    [Segment(HIGH, SEGMENT_SIZE)]
  }

  function Both(): seq<Segment> {
    [Segment(HIGH, SEGMENT_SIZE), Segment(LOW, SEGMENT_SIZE)]
  }

  /** The upper segment is handed out in two parts, and the first part comes back. */
  function FirstEvents(): seq<Event> {
    var S := SEGMENT_SIZE;
    [Allocated(PAGE, Some(HIGH), Some(HIGH)), Allocated(S - PAGE, None, Some(HIGH + PAGE)), Released(HIGH)]
  }

  function FirstHeaps(): seq<Heap> {
    var S := SEGMENT_SIZE;
    [Heap([], map[], map[]),
     Heap(Upper(), map[HIGH + PAGE := S - PAGE], map[HIGH := PAGE]),
     Heap(Upper(), map[], map[HIGH := PAGE, HIGH + PAGE := S - PAGE]),
     Heap(Upper(), map[HIGH := PAGE], map[HIGH + PAGE := S - PAGE])]
  }

  lemma PageMultiple(size: nat)
    requires size % PAGE == 0
    ensures Arena.AlignUp(size, PAGE) == size
  {
    Arena.AlignedStays(size, PAGE);
  }

  /** From a free block that fits best. */
  lemma TakesFree(h: Heap, size: nat, b: nat, h': Heap)
    requires size > 0 && size % PAGE == 0 && BestFit(h.free, size, b)
    requires h' == Heap(h.segments, Take(h.free, b, size), h.used[b := size])
    ensures Step(PAGE, Allocated(size, None, Some(b)), h, h')
  {
    PageMultiple(size);
    assert Fits(h.free, size);
  }

  /** From a new segment. */
  lemma TakesNew(h: Heap, size: nat, base: nat, h': Heap)
    requires 0 < size <= SEGMENT_SIZE && size % PAGE == 0 && !Fits(h.free, size)
    requires SegmentsOk(h.segments + [Segment(base, SEGMENT_SIZE)])
    requires h' == Heap(h.segments + [Segment(base, SEGMENT_SIZE)], Take(h.free[base := SEGMENT_SIZE], base, size),
            h.used[base := size])
    ensures Step(PAGE, Allocated(size, Some(base), Some(base)), h, h')
  {
    PageMultiple(size);
  }

  /** A release whose left neighbour, if it has one, begins at `l`. */
  lemma Releases(h: Heap, p: nat, l: nat, h': Heap)
    requires p in h.used && LeftEnd(h.free[p := h.used[p]], p) == l
    requires
      var g := h.free[p := h.used[p]];
      var m := if l == p then g else Merge(g, l, p);
      h' == Heap(h.segments, MergedRight(m, l), h.used - {p})
    ensures Step(PAGE, Released(p), h, h')
  {
  }

  lemma FirstRun()
    ensures IsRun(PAGE, FirstEvents(), FirstHeaps())
  {
    hide Step;
    var S := SEGMENT_SIZE;
    var es, hs := FirstEvents(), FirstHeaps();
    assert Step(PAGE, es[0], hs[0], hs[1]) by {
      assert [] + [Segment(HIGH, S)] == Upper();
      assert Take(hs[0].free[HIGH := S], HIGH, PAGE) == hs[1].free;
      TakesNew(hs[0], PAGE, HIGH, hs[1]);
    }
    assert Step(PAGE, es[1], hs[1], hs[2]) by {
      assert Take(hs[1].free, HIGH + PAGE, S - PAGE) == map[];
      TakesFree(hs[1], S - PAGE, HIGH + PAGE, hs[2]);
    }
    assert Step(PAGE, es[2], hs[2], hs[3]) by {
      NoLeft(hs[2].free[HIGH := PAGE], HIGH);
      assert hs[2].used - {HIGH} == hs[3].used;
      Releases(hs[2], HIGH, HIGH, hs[3]);
    }
  }

  /** Then a small request maps the lower segment, and the rest of the upper one comes back first. */
  function SplitEvents(): seq<Event> {
    var S := SEGMENT_SIZE;
    FirstEvents() + [Allocated(2 * PAGE, Some(LOW), Some(LOW)), Released(HIGH + PAGE), Released(LOW)]
  }

  function SplitHeaps(): seq<Heap> {
    var S := SEGMENT_SIZE;
    FirstHeaps() +
    [Heap(Both(), map[HIGH := PAGE, LOW + 2 * PAGE := S - 2 * PAGE], map[HIGH + PAGE := S - PAGE, LOW := 2 * PAGE]),
     Heap(Both(), map[HIGH := S, LOW + 2 * PAGE := S - 2 * PAGE], map[LOW := 2 * PAGE]),
     Heap(Both(), map[HIGH := S, LOW := S], map[])]
  }

  lemma SplitRun()
    ensures IsRun(PAGE, SplitEvents(), SplitHeaps())
  {
    hide FirstEvents, FirstHeaps;
    FirstRun();
    FirstLast();
    SplitSteps();
    var es, hs := SplitEvents(), SplitHeaps();
    forall i {:trigger es[i]} | 0 <= i < |es|
      ensures Step(PAGE, es[i], hs[i], hs[i + 1])
    {
      if i < |FirstEvents()| {
        assert es[i] == FirstEvents()[i];
      }
    }
  }

  lemma FirstLast()
    ensures |FirstEvents()| == 3 && |FirstHeaps()| == 4
    ensures FirstHeaps()[0] == Heap([], map[], map[])
    ensures FirstHeaps()[3] == Heap(Upper(), map[HIGH := PAGE], map[HIGH + PAGE := SEGMENT_SIZE - PAGE])
  {
  }

  lemma SplitSteps()
    ensures forall i :: 3 <= i < 6 ==> Step(PAGE, SplitEvents()[i], SplitHeaps()[i], SplitHeaps()[i + 1])
  {
    hide Step, SplitEvents, SplitHeaps;
    SplitFirst();
    SplitSecond();
    SplitLast();
  }

  lemma SplitFirst()
    ensures Step(PAGE, SplitEvents()[3], SplitHeaps()[3], SplitHeaps()[4])
  {
    hide Step;
    var h, h' := SplitHeaps()[3], SplitHeaps()[4];
    assert Upper() + [Segment(LOW, SEGMENT_SIZE)] == Both();
    assert Take(h.free[LOW := SEGMENT_SIZE], LOW, 2 * PAGE) == h'.free;
    TakesNew(h, 2 * PAGE, LOW, h');
  }

  lemma SplitSecond()
    ensures Step(PAGE, SplitEvents()[4], SplitHeaps()[4], SplitHeaps()[5])
  {
    hide Step, MergedRight, LeftEnd;
    var S := SEGMENT_SIZE;
    var h, h' := SplitHeaps()[4], SplitHeaps()[5];
    var g := h.free[HIGH + PAGE := S - PAGE];
    LeftIs(g, HIGH + PAGE, HIGH);
    assert MergedRight(Merge(g, HIGH, HIGH + PAGE), HIGH) == h'.free by {
      assert Merge(g, HIGH, HIGH + PAGE) == h'.free;
      NoRight(h'.free, HIGH);
    }
    assert h.used - {HIGH + PAGE} == h'.used;
    Releases(h, HIGH + PAGE, HIGH, h');
  }

  lemma NoRight(m: map<nat, nat>, p: nat)
    requires p in m && p + m[p] !in m
    ensures MergedRight(m, p) == m
  {
  }

  lemma SplitLast()
    ensures Step(PAGE, SplitEvents()[5], SplitHeaps()[5], SplitHeaps()[6])
  {
    hide Step;
    var h, h' := SplitHeaps()[5], SplitHeaps()[6];
    NoLeft(h.free[LOW := 2 * PAGE], LOW);
    assert MergedRight(h.free[LOW := 2 * PAGE], LOW) == h'.free;
    assert h.used - {LOW} == h'.used;
    Releases(h, LOW, LOW, h');
  }

  /** Or a request takes all of the lower segment, which comes back first. */
  function SpanEvents(): seq<Event> {
    var S := SEGMENT_SIZE;
    FirstEvents() + [Allocated(S, Some(LOW), Some(LOW)), Released(LOW), Released(HIGH + PAGE)]
  }

  function SpanHeaps(): seq<Heap> {
    var S := SEGMENT_SIZE;
    FirstHeaps() +
    [Heap(Both(), map[HIGH := PAGE], map[HIGH + PAGE := S - PAGE, LOW := S]),
     Heap(Both(), map[LOW := S + PAGE], map[HIGH + PAGE := S - PAGE]),
     Heap(Both(), map[LOW := 2 * S], map[])]
  }

  lemma SpanRun()
    ensures IsRun(PAGE, SpanEvents(), SpanHeaps())
  {
    hide FirstEvents, FirstHeaps;
    FirstRun();
    FirstLast();
    SpanSteps();
    var es, hs := SpanEvents(), SpanHeaps();
    forall i {:trigger es[i]} | 0 <= i < |es|
      ensures Step(PAGE, es[i], hs[i], hs[i + 1])
    {
      if i < |FirstEvents()| {
        assert es[i] == FirstEvents()[i];
      }
    }
  }

  lemma SpanSteps()
    ensures forall i :: 3 <= i < 6 ==> Step(PAGE, SpanEvents()[i], SpanHeaps()[i], SpanHeaps()[i + 1])
  {
    hide Step, SpanEvents, SpanHeaps;
    SpanFirst();
    SpanSecond();
    SpanLast();
  }

  lemma SpanFirst()
    ensures Step(PAGE, SpanEvents()[3], SpanHeaps()[3], SpanHeaps()[4])
  {
    hide Step;
    var h, h' := SpanHeaps()[3], SpanHeaps()[4];
    assert Upper() + [Segment(LOW, SEGMENT_SIZE)] == Both();
    assert Take(h.free[LOW := SEGMENT_SIZE], LOW, SEGMENT_SIZE) == h'.free;
    TakesNew(h, SEGMENT_SIZE, LOW, h');
  }

  lemma SpanSecond()
    ensures Step(PAGE, SpanEvents()[4], SpanHeaps()[4], SpanHeaps()[5])
  {
    hide Step;
    var h, h' := SpanHeaps()[4], SpanHeaps()[5];
    NoLeft(h.free[LOW := SEGMENT_SIZE], LOW);
    assert h.used - {LOW} == h'.used;
    Releases(h, LOW, LOW, h');
  }

  lemma SpanLast()
    ensures Step(PAGE, SpanEvents()[5], SpanHeaps()[5], SpanHeaps()[6])
  {
    hide Step;
    var S := SEGMENT_SIZE;
    var h, h' := SpanHeaps()[5], SpanHeaps()[6];
    LeftIs(h.free[HIGH + PAGE := S - PAGE], HIGH + PAGE, LOW);
    assert h.used - {HIGH + PAGE} == h'.used;
    Releases(h, HIGH + PAGE, LOW, h');
  }

  /** Two runs over the same two segments, which touch, after both of which nothing is allocated: one
      leaves a block for each segment, the other a single one. What is free then depends on the past,
      and one block for each segment is not certain. */
  lemma OrderMatters()
    ensures IsRun(PAGE, SplitEvents(), SplitHeaps()) && IsRun(PAGE, SpanEvents(), SpanHeaps())
    ensures
      var h, h' := SplitHeaps()[6], SpanHeaps()[6];
      && |SplitHeaps()| == |SpanHeaps()| == 7
      && h.segments == h'.segments && h.used == h'.used == map[]
      && h.free == SegmentBlocks(h.segments) && h'.free == map[LOW := 2 * SEGMENT_SIZE] != h.free
  {
    SplitRun();
    SpanRun();
    var segments := Both();
    assert segments[..1] == Upper() && segments[..1][..0] == [];
    assert SegmentBlocks(segments[..1]) == map[HIGH := SEGMENT_SIZE];
    assert SegmentBlocks(segments) == map[HIGH := SEGMENT_SIZE, LOW := SEGMENT_SIZE];
    assert LOW in SpanHeaps()[6].free && SpanHeaps()[6].free[LOW] == 2 * SEGMENT_SIZE;
  }
}

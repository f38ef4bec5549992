/** The best-fit allocator for executable memory: free and allocated blocks, each kept by address
    and by size, with splitting on allocation and merging of neighbours on release. */
module JitAllocator {
  import opened Wasm
  import opened Blocks
  import opened BlockRuns
  import Arena

  class JitAllocator {
    const pageSize: nat
    var segments: seq<Segment>
    var freeBlocksBySize: set<Extent>
    var allocatedBlocksBySize: set<Extent>
    var freeBlocks: map<nat, nat>
    var allocatedBlocks: map<nat, nat>

    /** The containers agree and their blocks partition the segments. */
    ghost predicate Shaped()
      reads this
    {
      pageSize > 0 && Consistent(segments, freeBlocks, freeBlocksBySize, allocatedBlocks, allocatedBlocksBySize)
    }

    /** And no two free blocks meet, except where a segment begins. */
    ghost predicate Valid()
      reads this
    {
      Shaped() && Joined(segments, freeBlocks)
    }

    ghost function View(): Heap
      reads this
    {
      Heap(segments, freeBlocks, allocatedBlocks)
    }

    lemma ViewOk()
      requires Valid()
      ensures HeapOk(View())
    {
    }

    /** With nothing allocated whole segments are free, and exactly one block for each where no two
        segments touch. */
    lemma AllReleased()
      requires Valid() && allocatedBlocks == map[]
      ensures forall b :: b in freeBlocks ==> Border(segments, b) && SegmentEnd(segments, b + freeBlocks[b])
      ensures freeBlocks == SegmentBlocks(segments) <==> Unspanned(segments, freeBlocks)
      ensures Apart(segments) ==> freeBlocks == SegmentBlocks(segments)
    {
      hide HeapOk, Border, SegmentEnd;
      ViewOk();
      OnePerSegment(View());
      forall b | b in freeBlocks
        ensures Border(segments, b) && SegmentEnd(segments, b + freeBlocks[b])
      {
        WholeSegments(View(), b);
      }
    }

    /** No byte is free and allocated, and both together are the bytes of all segments. */
    lemma Conserved()
      requires Valid()
      ensures Bytes(freeBlocks) !! Bytes(allocatedBlocks)
      ensures |Bytes(freeBlocks)| + |Bytes(allocatedBlocks)| == TotalSize(segments)
    {
      hide HeapOk;
      ViewOk();
      BytesConserved(View());
    }

    constructor (pageSize: nat)
      requires pageSize > 0
      ensures Valid() && View() == Heap([], map[], map[])
    {
      this.pageSize := pageSize;
      segments, freeBlocksBySize, allocatedBlocksBySize := [], {}, {};
      freeBlocks, allocatedBlocks := map[], map[];
      NoBlocks();
      ghost var none: map<nat, nat> := map[];
      assert none + none == none;
    }

    method RoundToPage(size: nat) returns (r: nat)
      requires pageSize > 0
      ensures r == Arena.AlignUp(size, pageSize)
      ensures r % pageSize == 0 && size <= r < size + pageSize
    {
      r := Arena.AlignUp(size, pageSize);
      Arena.ModOfMultiple((size + pageSize - 1) / pageSize, pageSize);
    }

    /** `lower_bound`: the smallest block that is large enough, the lowest one of those. */
    method LowerBound(size: nat) returns (best: Option<Extent>)
      ensures best.Some? ==> best.value in freeBlocksBySize && best.value.size >= size
      ensures forall b :: b in freeBlocksBySize && b.size >= size ==>
              best.Some? && (b == best.value || Before(best.value, b))
    {
      best := None;
      var rest := freeBlocksBySize;
      while rest != {}
        invariant rest <= freeBlocksBySize
        invariant best.Some? ==> best.value in freeBlocksBySize && best.value.size >= size
        invariant forall b :: b in freeBlocksBySize - rest && b.size >= size ==>
                    best.Some? && (b == best.value || Before(best.value, b))
      {
        var b :| b in rest;
        if b.size >= size && (best.None? || Before(b, best.value)) {
          best := Some(b);
        }
        rest := rest - {b};
      }
    }

    /** `allocate_segment`; `base` is what the system returns. */
    method AllocateSegment(minSize: nat, base: nat) returns (b: Extent)
      requires Valid() && SegmentsOk(segments + [Segment(base, SegmentSize(minSize))])
      modifies this
      ensures Valid() && b == Extent(SegmentSize(minSize), base) && b in freeBlocksBySize
      ensures segments == old(segments) + [Segment(base, b.size)]
      ensures base !in old(freeBlocks) && base !in old(allocatedBlocks)
      ensures freeBlocks == old(freeBlocks)[base := b.size] && allocatedBlocks == old(allocatedBlocks)
    {
      hide Consistent, Joined, SegmentsOk, HeapOk;
      ViewOk();
      SegmentOk(View(), Segment(base, SegmentSize(minSize)));
      var size := SegmentSize(minSize);
      b := Extent(size, base);
      ConsistentSegment(segments, freeBlocks, freeBlocksBySize, allocatedBlocks, allocatedBlocksBySize,
        Segment(base, size));
      segments := segments + [Segment(base, size)];
      freeBlocksBySize := freeBlocksBySize + {b};
      freeBlocks := freeBlocks[base := size];
      assert Joined(segments, freeBlocks) by { JoinedOf(View()); }
    }

    static lemma JoinedOf(h: Heap)
      requires HeapOk(h)
      ensures Joined(h.segments, h.free)
    {
    }

    /** A split that leaves nothing at the low end finds the rest in the set already, and then erases it. */
    method SplitBlock(pos: Extent, size: nat) returns (b: Extent)
      requires Shaped() && pos.base in freeBlocks && freeBlocks[pos.base] == pos.size && size < pos.size
      modifies this`freeBlocks, this`freeBlocksBySize
      ensures b == Extent(size, pos.base)
      ensures size > 0 ==> Shaped() && freeBlocks == Split(old(freeBlocks), pos.base, size)
      ensures size == 0 ==> Agree(freeBlocks, freeBlocksBySize) && freeBlocks == old(freeBlocks)[pos.base := 0]
    {
      hide Consistent, Agree, Separate, Covers;
      ghost var m := freeBlocks;
      if size > 0 {
        ConsistentSplit(segments, freeBlocks, freeBlocksBySize, allocatedBlocks, allocatedBlocksBySize, pos.base, size);
        FreeSeparate(segments, freeBlocks, freeBlocksBySize, allocatedBlocks, allocatedBlocksBySize);
        SplitKeeps(freeBlocks, pos.base, size);
      } else {
        EmptySplit(freeBlocks, freeBlocksBySize, pos.base);
      }
      b := Extent(size, pos.base);
      freeBlocksBySize := freeBlocksBySize + {b};
      var rest := Extent(pos.size - size, pos.base + size);
      freeBlocksBySize := freeBlocksBySize + {rest};
      if rest.base !in freeBlocks {
        freeBlocks := freeBlocks[rest.base := rest.size];
      }
      freeBlocksBySize := freeBlocksBySize - {pos};
      freeBlocks := freeBlocks[b.base := b.size];
      assert size == 0 ==> freeBlocks == m[pos.base := 0];
      assert size > 0 ==> freeBlocks == Split(m, pos.base, size);
    }

    lemma EmptySplit(m: map<nat, nat>, s: set<Extent>, b: nat)
      requires Consistent(segments, m, s, allocatedBlocks, allocatedBlocksBySize) && b in m
      ensures Agree(m[b := 0], s + {Extent(0, b)} + {Extent(m[b], b)} - {Extent(m[b], b)})
    {
      FreeSeparate(segments, m, s, allocatedBlocks, allocatedBlocksBySize);
      AgreeRemove(m, s, b);
      AgreeAdd(m - {b}, s - {Extent(m[b], b)}, b, 0);
      assert (m - {b})[b := 0] == m[b := 0];
      assert s - {Extent(m[b], b)} + {Extent(0, b)} == s + {Extent(0, b)} + {Extent(m[b], b)} - {Extent(m[b], b)};
    }

    /** The block to allocate from: the best fit, or a new segment. */
    method FindBlock(size: nat, mapped: Option<nat>) returns (pos: Option<Extent>)
      requires Valid()
      requires mapped.Some? ==> SegmentsOk(segments + [Segment(mapped.value, SegmentSize(size))])
      modifies this
      ensures Valid() && allocatedBlocks == old(allocatedBlocks)
      ensures pos.Some? ==>
                pos.value.base in freeBlocks && freeBlocks[pos.value.base] == pos.value.size && pos.value.size >= size
      ensures Fits(old(freeBlocks), size) ==>
                pos.Some? && freeBlocks == old(freeBlocks) && segments == old(segments) &&
                  BestFit(freeBlocks, size, pos.value.base)
      ensures !Fits(old(freeBlocks), size) ==>
                && (pos.Some? <==> mapped.Some?)
                && (pos.Some? ==>
                      && pos.value == Extent(SegmentSize(size), mapped.value)
                      && segments == old(segments) + [Segment(mapped.value, SegmentSize(size))]
                      && freeBlocks == old(freeBlocks)[mapped.value := SegmentSize(size)])
                && (pos.None? ==> segments == old(segments) && freeBlocks == old(freeBlocks))
    {
      hide Joined, SegmentsOk, Partition;
      pos := LowerBound(size);
      forall b | b in freeBlocks && freeBlocks[b] >= size
        ensures pos.Some? && (b == pos.value.base || Before(pos.value, Extent(freeBlocks[b], b)))
      {
        assert Extent(freeBlocks[b], b) in freeBlocksBySize;
      }
      if pos.None? && mapped.Some? {
        var b := AllocateSegment(size, mapped.value);
        pos := Some(b);
      }
    }

    /** Allocates the best fit of exactly the rounded size. `mapped` is the base of a fresh mapping,
        should one be needed, or None when the system has no more memory. A request of no bytes takes
        the smallest block of all out of both pairs of containers, so that its bytes are lost. */
    method Alloc(size: nat, mapped: Option<nat>) returns (r: Option<nat>, rounded: nat)
      requires Valid()
      requires mapped.Some? ==>
              SegmentsOk(segments + [Segment(mapped.value, SegmentSize(Arena.AlignUp(size, pageSize)))])
      modifies this
      ensures rounded == Arena.AlignUp(size, pageSize) && rounded % pageSize == 0 && size <= rounded < size + pageSize
      ensures Valid() <==> size > 0 || r.None?
      ensures size > 0 ==> Step(pageSize, Allocated(size, mapped, r), old(View()), View())
      ensures size == 0 ==> LosesBlock(old(View()), mapped, r, View())
      ensures size > 0 && Apart(segments) ==> Coalesced(freeBlocks)
    {
      hide Coalesced, Apart, Consistent, Joined, SegmentsOk, BestFit, HeapOk, Take;
      rounded := RoundToPage(size);
      EmptyRequest(size);
      var found := FindBlock(rounded, mapped);
      if found.None? {
        if Apart(segments) {
          ApartFree();
        }
        return None, rounded;
      }
      var pos := found.value;
      r := Some(pos.base);
      ghost var h := View();
      ViewOk();
      TakeBlock(pos, rounded);
      if size > 0 {
        TakeOk(h, pos.base, rounded);
        JoinedOf(View());
        if Apart(segments) {
          ApartFree();
        }
      } else {
        EmptyTaken(pos.base);
      }
    }

    lemma ApartFree()
      requires Valid() && Apart(segments)
      ensures Coalesced(freeBlocks)
    {
      hide HeapOk, Apart, Coalesced;
      ViewOk();
      ApartCoalesced(View());
    }

    lemma EmptyRequest(size: nat)
      requires pageSize > 0
      ensures Arena.AlignUp(size, pageSize) == 0 <==> size == 0
    {
      Arena.DivUnique(pageSize - 1, pageSize, 0, pageSize - 1);
    }

    lemma EmptyTaken(b: nat)
      requires b in allocatedBlocks && allocatedBlocks[b] == 0
      ensures !Shaped()
    {
      assert b in freeBlocks + allocatedBlocks;
    }

    /** Splits off what is not needed, and moves the block to the allocated ones. */
    method TakeBlock(block: Extent, size: nat)
      requires Shaped() && block.base in freeBlocks && freeBlocks[block.base] == block.size && size <= block.size
      modifies this`freeBlocks, this`freeBlocksBySize, this`allocatedBlocks, this`allocatedBlocksBySize
      ensures block.base !in old(allocatedBlocks)
      ensures Agree(freeBlocks, freeBlocksBySize) && Agree(allocatedBlocks, allocatedBlocksBySize)
      ensures allocatedBlocks == old(allocatedBlocks)[block.base := size]
      ensures size > 0 ==> Shaped() && freeBlocks == Take(old(freeBlocks), block.base, size)
      ensures size == 0 ==> freeBlocks == old(freeBlocks) - {block.base}
    {
      hide Consistent, Separate, Agree;
      ghost var m := freeBlocks;
      FreeSeparate(segments, freeBlocks, freeBlocksBySize, allocatedBlocks, allocatedBlocksBySize);
      PositiveSize(freeBlocks, block.base);
      NotBoth(segments, freeBlocks, freeBlocksBySize, allocatedBlocks, allocatedBlocksBySize, block.base);
      AgreeOf(segments, freeBlocks, freeBlocksBySize, allocatedBlocks, allocatedBlocksBySize);
      var pos := block;
      if pos.size > size {
        pos := SplitBlock(pos, size);
      }
      if size > 0 {
        assert freeBlocks - {pos.base} == Take(m, pos.base, size);
        ConsistentTake(segments, freeBlocks, freeBlocksBySize, allocatedBlocks, allocatedBlocksBySize, pos.base);
        AgreeOf(segments, freeBlocks, freeBlocksBySize, allocatedBlocks, allocatedBlocksBySize);
      }
      AgreeRemove(freeBlocks, freeBlocksBySize, pos.base);
      AgreeAdd(allocatedBlocks, allocatedBlocksBySize, pos.base, size);
      allocatedBlocks := allocatedBlocks[pos.base := freeBlocks[pos.base]];
      freeBlocks := freeBlocks - {pos.base};
      freeBlocksBySize := freeBlocksBySize - {pos};
      allocatedBlocksBySize := allocatedBlocksBySize + {pos};
      assert size == 0 ==> freeBlocks == m - {block.base};
    }

    /** The neighbours of a block in address order. */
    method PrevBlock(p: nat) returns (l: Option<nat>)
      ensures l.Some? ==> IsPrev(freeBlocks, p, l.value)
      ensures l.None? ==> forall b :: b in freeBlocks ==> b >= p
    {
      l := None;
      var rest := freeBlocks.Keys;
      while rest != {}
        invariant rest <= freeBlocks.Keys
        invariant l.Some? ==> l.value in freeBlocks && l.value < p
        invariant forall b {:trigger b in freeBlocks} :: b in freeBlocks && b !in rest && b < p ==>
                l.Some? && b <= l.value
      {
        var b :| b in rest;
        if b < p && (l.None? || b > l.value) {
          l := Some(b);
        }
        rest := rest - {b};
      }
    }

    method NextBlock(p: nat) returns (r: Option<nat>)
      ensures r.Some? ==> IsNext(freeBlocks, p, r.value)
      ensures r.None? ==> forall b :: b in freeBlocks ==> b <= p
    {
      r := None;
      var rest := freeBlocks.Keys;
      while rest != {}
        invariant rest <= freeBlocks.Keys
        invariant r.Some? ==> r.value in freeBlocks && r.value > p
        invariant forall b {:trigger b in freeBlocks} :: b in freeBlocks && b !in rest && b > p ==>
                r.Some? && b >= r.value
      {
        var b :| b in rest;
        if b > p && (r.None? || b < r.value) {
          r := Some(b);
        }
        rest := rest - {b};
      }
    }

    method MaybeConsolidateBlocks(lhs: nat, rhs: nat) returns (pos: nat)
      requires Shaped() && lhs in freeBlocks && rhs in freeBlocks && lhs < rhs
      modifies this`freeBlocks, this`freeBlocksBySize
      ensures Shaped()
      ensures
        var m := old(freeBlocks);
        if lhs + m[lhs] == rhs then freeBlocks == Merge(m, lhs, rhs) && pos == lhs
        else freeBlocks == m && pos == rhs
    {
      hide Consistent;
      pos := rhs;
      if lhs + freeBlocks[lhs] == rhs {
        ConsistentMerge(segments, freeBlocks, freeBlocksBySize, allocatedBlocks, allocatedBlocksBySize, lhs, rhs);
        var l, r := Extent(freeBlocks[lhs], lhs), Extent(freeBlocks[rhs], rhs);
        freeBlocksBySize := freeBlocksBySize - {l} + {Extent(l.size + r.size, lhs)};
        freeBlocksBySize := freeBlocksBySize - {r};
        freeBlocks := Merge(freeBlocks, lhs, rhs);
        pos := lhs;
      }
    }

    /** Releases a block and merges it with its free neighbours. */
    method Free(ptr: nat)
      requires Valid() && ptr in allocatedBlocks
      modifies this`freeBlocks, this`freeBlocksBySize, this`allocatedBlocks, this`allocatedBlocksBySize
      ensures Valid() && Step(pageSize, Released(ptr), old(View()), View())
      ensures forall x: nat :: Covers(freeBlocks, x) <==>
              Covers(old(freeBlocks), x) || Holds(old(allocatedBlocks), ptr, x)
      ensures old(Coalesced(freeBlocks)) || Apart(segments) ==> Coalesced(freeBlocks)
    {
      hide Consistent, Joined, Merge, Separate, Covers, Coalesced, Apart, HeapOk, MergedLeft, MergedRight, LeftEnd;
      ghost var was, h := freeBlocks, View();
      ViewOk();
      FreeOk(h, ptr);
      GivenFacts(h, ptr);
      ConsistentGive(segments, freeBlocks, freeBlocksBySize, allocatedBlocks, allocatedBlocksBySize, ptr);
      var b := Extent(allocatedBlocks[ptr], ptr);
      freeBlocks := freeBlocks[ptr := b.size];
      allocatedBlocks := allocatedBlocks - {ptr};
      allocatedBlocksBySize := allocatedBlocksBySize - {b};
      freeBlocksBySize := freeBlocksBySize + {b};
      var pos := MergeLeft(ptr);
      MergeRight(pos);
      assert freeBlocks == Freed(was, ptr, b.size);
      JoinedOf(View());
      if Apart(segments) {
        ApartFree();
      }
    }

    static lemma GivenFacts(h: Heap, p: nat)
      requires HeapOk(h) && p in h.used
      ensures p !in h.free
      ensures forall x: nat :: Covers(Freed(h.free, p, h.used[p]), x) <==> Covers(h.free, x) || Holds(h.used, p, x)
      ensures Coalesced(h.free) ==> Coalesced(Freed(h.free, p, h.used[p]))
    {
      hide Freed, Covers, Coalesced;
      FreeIsSeparate(h);
      GivenSeparate(h.free, h.used, p);
      FreedCovers(h.free, p, h.used[p]);
      if Coalesced(h.free) {
        FreedCoalesced(h.free, p, h.used[p]);
      }
    }

    method MergeLeft(p: nat) returns (pos: nat)
      requires Shaped() && p in freeBlocks
      modifies this`freeBlocks, this`freeBlocksBySize
      ensures Shaped() && pos == LeftEnd(old(freeBlocks), p) && freeBlocks == MergedLeft(old(freeBlocks), p)
    {
      hide Consistent, Separate, LeftEnd, Merge;
      pos := p;
      FreeSeparate(segments, freeBlocks, freeBlocksBySize, allocatedBlocks, allocatedBlocksBySize);
      var prev := PrevBlock(p);
      if prev.Some? {
        PrevIsLeft(freeBlocks, p, prev.value);
        pos := MaybeConsolidateBlocks(prev.value, p);
      } else {
        NoPrev(freeBlocks, p);
      }
    }

    method MergeRight(p: nat)
      requires Shaped() && p in freeBlocks
      modifies this`freeBlocks, this`freeBlocksBySize
      ensures Shaped() && freeBlocks == MergedRight(old(freeBlocks), p)
    {
      hide Consistent, Separate, Merge;
      FreeSeparate(segments, freeBlocks, freeBlocksBySize, allocatedBlocks, allocatedBlocksBySize);
      var next := NextBlock(p);
      if next.Some? {
        NextIsRight(freeBlocks, p, next.value);
        var pos := MaybeConsolidateBlocks(p, next.value);
      } else {
        NoNext(freeBlocks, p);
      }
    }
  }

  lemma AgreeOf(segments: seq<Segment>, free: map<nat, nat>, fs: set<Extent>, used: map<nat, nat>, als: set<Extent>)
    requires Consistent(segments, free, fs, used, als)
    ensures Agree(free, fs) && Agree(used, als)
  {
  }

  /** What a request of no bytes does: the smallest free block, or a new segment if there is none, is
      no longer free, and stands for no bytes among the allocated ones. */
  ghost predicate LosesBlock(h: Heap, mapped: Option<nat>, r: Option<nat>, h': Heap) {
    if Fits(h.free, 0) then
      r.Some? && BestFit(h.free, 0, r.value) && h' == Heap(h.segments, h.free - {r.value}, h.used[r.value := 0])
    else if mapped.None? then r.None? && h' == h
    else
      var s := Segment(mapped.value, SegmentSize(0));
      r == mapped && h' == Heap(h.segments + [s], h.free[s.base := s.size] - {s.base}, h.used[s.base := 0])
  }
}

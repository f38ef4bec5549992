/** `growable_allocator` as the arena behind the code of a module: memory is handed out at the
    end, and given back only from the end. Offsets and sizes are in bytes. */
module Arena {
  import opened Wasm

  function AlignUp(offset: nat, align: nat): (r: nat)
    requires align > 0
  {
    (offset + align - 1) / align * align
  }

  /** Quotient and remainder are the only pair with these properties. */
  lemma DivUnique(x: nat, d: nat, q: nat, r: nat)
    requires d > 0 && x == q * d + r && r < d
    ensures x / d == q && x % d == r
  {
    var k := x / d - q;
    assert x == x / d * d + x % d;
    assert x / d * d == q * d + k * d;
    assert k * d == r - x % d;
    MulSign(k, d);
  }

  lemma MulSign(k: int, d: nat)
    ensures k >= 1 ==> k * d >= d
    ensures k <= 0 ==> k * d <= 0
    ensures k <= -1 ==> k * d <= 0 - d
  {
    if k >= 1 {
      assert k * d == (k - 1) * d + d;
      assert (k - 1) * d >= 0;
    } else if k <= -1 {
      assert (-k - 1) * d >= 0;
      assert k * d == 0 - (-k - 1) * d - d;
    }
  }

  lemma AlignedStays(offset: nat, align: nat)
    requires align > 0 && offset % align == 0
    ensures AlignUp(offset, align) == offset
  {
    assert offset == offset / align * align;
    DivUnique(offset + (align - 1), align, offset / align, align - 1);
  }

  lemma MultipleOf(q: nat, size: nat, align: nat)
    requires align > 0 && size % align == 0
    ensures (q * size) % align == 0
  {
    var s := size / align;
    assert size == s * align;
    assert q * size == (q * s) * align;
    ModOfMultiple(q * s, align);
  }

  lemma ModOfMultiple(q: nat, align: nat)
    requires align > 0
    ensures (q * align) % align == 0
  {
    DivUnique(q * align, align, q, 0);
  }

  lemma SumAligned(a: nat, b: nat, align: nat)
    requires align > 0 && a % align == 0 && b % align == 0
    ensures (a + b) % align == 0
  {
    var x, y := a / align, b / align;
    assert a == x * align && b == y * align;
    assert a + b == (x + y) * align;
    ModOfMultiple(x + y, align);
  }

  class GrowableAllocator {
    const capacity: nat
    var offset: nat
    var largestOffset: nat

    ghost predicate Valid()
      reads this
    {
      offset <= largestOffset <= capacity
    }

    /** Room for `n` elements, or None when the arena is full. */
    method Alloc(elemSize: nat, align: nat, n: nat) returns (r: Option<nat>)
      requires Valid() && elemSize > 0 && align > 0
      requires capacity % align == 0
      modifies this
      ensures Valid()
      ensures
        var start := AlignUp(old(offset), align);
        r == if start + elemSize * n <= capacity then Some(start) else None
      ensures r.Some? ==> offset == r.value + elemSize * n <= capacity
      ensures r.None? ==> offset == old(offset) || offset == AlignUp(old(offset), align)
    {
      var start := AlignUp(offset, align);
      AlignWithin(offset, capacity, align);
      offset := start;
      if offset > largestOffset {
        largestOffset := offset;
      }
      ElementsFit(capacity - offset, elemSize, n);
      if n > (capacity - offset) / elemSize {
        return None;
      }
      offset := offset + elemSize * n;
      if offset > largestOffset {
        largestOffset := offset;
      }
      return Some(start);
    }

    /** Memory can be given back only when it ends where the last allocation ends. */
    method Reclaim(start: nat, elemSize: nat, n: nat) returns (ok: bool)
      requires Valid() && elemSize > 0
      modifies this
      ensures Valid()
      ensures ok <==> n <= old(offset) / elemSize && (n == 0 || start + elemSize * n == old(offset))
      ensures offset == if ok && n != 0 then start else old(offset)
    {
      if n > offset / elemSize || !(n == 0 || start + elemSize * n == offset) {
        return false;
      }
      if n != 0 {
        offset := start;
      }
      return true;
    }
  }

  lemma AlignWithin(offset: nat, capacity: nat, align: nat)
    requires align > 0 && offset <= capacity && capacity % align == 0
    ensures offset <= AlignUp(offset, align) <= capacity
  {
    var q := capacity / align;
    var k := (offset + align - 1) / align;
    assert capacity == q * align;
    assert offset + align - 1 == k * align + (offset + align - 1) % align;
    TimesMonotone(k, q, align);
  }

  lemma TimesMonotone(k: nat, q: nat, d: nat)
    requires d > 0 && k * d < q * d + d
    ensures k * d <= q * d
  {
    MulSign(k - q, d);
    assert (k - q) * d == k * d - q * d;
  }

  lemma ElementsFit(room: nat, elemSize: nat, n: nat)
    requires elemSize > 0
    ensures n <= room / elemSize <==> elemSize * n <= room
  {
    var q := room / elemSize;
    assert room == elemSize * q + room % elemSize;
    if n <= q {
      assert elemSize * n <= elemSize * q;
    } else {
      assert elemSize * n >= elemSize * (q + 1);
      assert elemSize * (q + 1) == elemSize * q + elemSize;
    }
  }
}

/** LEB128 integers: the encoders and decoders against the grammar of section 5.2.2 of the
    WebAssembly Core Specification 2.0. */
module Leb128 {
  import opened Wasm
  import opened Powers
  import Arena

  datatype Decoded = Decoded(value: int, len: nat)

  /** The grammar of `uN`: at most ceil(N/7) bytes, unused bits zero. */
  function DecodeU(n: nat, s: seq<u8>): Option<Decoded>
    decreases n
  {
    if s == [] then None
    else if s[0] < 128 then if s[0] < Pow2(n) then Some(Decoded(s[0], 1)) else None
    else if n <= 7 then None
    else
      var d :- DecodeU(n - 7, s[1..]);
      Some(Decoded(128 * d.value + (s[0] - 128), d.len + 1))
  }

  /** The grammar of `sN`: the same length, unused bits equal to the sign. */
  function DecodeS(n: nat, s: seq<u8>): Option<Decoded>
    requires n > 0
    decreases n
  {
    if s == [] then None
    else if s[0] < 64 then if s[0] < Pow2(n - 1) then Some(Decoded(s[0], 1)) else None
    else if s[0] < 128 then if s[0] + Pow2(n - 1) >= 128 then Some(Decoded(s[0] as int - 128, 1)) else None
    else if n <= 7 then None
    else
      var d :- DecodeS(n - 7, s[1..]);
      Some(Decoded(128 * d.value + (s[0] - 128), d.len + 1))
  }

  function EncodeU(v: nat): (s: seq<u8>)
    ensures s != []
  {
    if v < 128 then [v] else [v % 128 + 128] + EncodeU(v / 128)
  }

  /** The low seven bits, and the rest with an arithmetic shift. */
  predicate LastGroup(v: int) {
    (v / 128 == -1 && v % 128 >= 64) || (v / 128 == 0 && v % 128 < 64)
  }

  function EncodeS(v: int): (s: seq<u8>)
    ensures s != []
    decreases if v < 0 then -v else v
  {
    if LastGroup(v) then [v % 128] else [v % 128 + 128] + EncodeS(v / 128)
  }

  /** Decoding what was encoded, whatever follows it, gives the value and its length. */
  lemma {:induction false} RoundTripU(n: nat, v: nat, tail: seq<u8>)
    requires v < Pow2(n)
    ensures DecodeU(n, EncodeU(v) + tail) == Some(Decoded(v, |EncodeU(v)|))
    decreases v
  {
    hide DecodeU, EncodeU, Pow2;
    EncodeStepU(v);
    var s := EncodeU(v) + tail;
    if v < 128 {
      assert s[0] == v;
      LastByteU(n, s);
    } else {
      Pow2Values();
      if n <= 7 {
        Pow2Grows(n, 7);
      } else {
        Pow2Seven(n);
        RoundTripU(n - 7, v / 128, tail);
        assert s[0] == v % 128 + 128 && s[1..] == EncodeU(v / 128) + tail;
        MoreBytesU(n, s, Decoded(v / 128, |EncodeU(v / 128)|));
      }
    }
  }

  lemma MoreBytesU(n: nat, s: seq<u8>, d: Decoded)
    requires n > 7 && s != [] && s[0] >= 128 && DecodeU(n - 7, s[1..]) == Some(d)
    ensures DecodeU(n, s) == Some(Decoded(128 * d.value + (s[0] as int - 128), d.len + 1))
  {
  }

  /** The last byte decides by its value, ... */
  lemma LastByteS(n: nat, s: seq<u8>)
    requires n > 0
    ensures s == [] ==> DecodeS(n, s).None?
    ensures s != [] && s[0] < 64 ==> DecodeS(n, s) == if s[0] < Pow2(n - 1) then Some(Decoded(s[0], 1)) else None
    ensures s != [] && 64 <= s[0] < 128 ==>
              DecodeS(n, s) == if s[0] + Pow2(n - 1) >= 128 then Some(Decoded(s[0] as int - 128, 1)) else None
    ensures s != [] && s[0] >= 128 && n <= 7 ==> DecodeS(n, s).None?
  {
  }

  /** ... and a byte before it adds seven bits. */
  lemma MoreBytesS(n: nat, s: seq<u8>, d: Decoded)
    requires n > 7 && s != [] && s[0] >= 128 && DecodeS(n - 7, s[1..]) == Some(d)
    ensures DecodeS(n, s) == Some(Decoded(128 * d.value + (s[0] as int - 128), d.len + 1))
  {
  }

  lemma {:induction false} RoundTripS(n: nat, v: int, tail: seq<u8>)
    requires n > 0 && FitsS(v, n)
    ensures DecodeS(n, EncodeS(v) + tail) == Some(Decoded(v, |EncodeS(v)|))
    decreases if v < 0 then -v else v
  {
    hide DecodeS, EncodeS, Pow2;
    EncodeStepS(v, n);
    var s := EncodeS(v) + tail;
    if LastGroup(v) {
      assert s[0] == v % 128;
      LastByteS(n, s);
    } else {
      RoundTripS(n - 7, v / 128, tail);
      assert s[0] == v % 128 + 128 && s[1..] == EncodeS(v / 128) + tail;
      MoreBytesS(n, s, Decoded(v / 128, |EncodeS(v / 128)|));
    }
  }

  /** No accepted sequence for a value is shorter than its encoding. */
  lemma {:induction false} ShortestU(n: nat, s: seq<u8>)
    requires DecodeU(n, s).Some?
    ensures 0 <= DecodeU(n, s).value.value < Pow2(n)
    ensures |EncodeU(DecodeU(n, s).value.value)| <= DecodeU(n, s).value.len <= |s|
    decreases n
  {
    if s[0] >= 128 {
      ShortestU(n - 7, s[1..]);
      Pow2Seven(n);
      var d := DecodeU(n - 7, s[1..]).value;
      var v := 128 * d.value + (s[0] - 128);
      Arena.DivUnique(v, 128, d.value, s[0] - 128);
    }
  }

  lemma {:induction false} ShortestS(n: nat, s: seq<u8>)
    requires n > 0 && DecodeS(n, s).Some?
    ensures -(Pow2(n - 1) as int) <= DecodeS(n, s).value.value < Pow2(n - 1)
    ensures |EncodeS(DecodeS(n, s).value.value)| <= DecodeS(n, s).value.len <= |s|
    decreases n
  {
    if s[0] >= 128 {
      ShortestS(n - 7, s[1..]);
      Pow2Seven(n - 1);
      var d := DecodeS(n - 7, s[1..]).value;
      var v := 128 * d.value + (s[0] - 128);
      assert v / 128 == d.value && v % 128 == s[0] - 128;
    }
  }

  /** Only the bytes that are used matter. */
  lemma {:induction false} PrefixU(n: nat, s: seq<u8>, k: nat)
    requires k <= |s|
    ensures DecodeU(n, s).Some? && DecodeU(n, s).value.len <= k ==> DecodeU(n, s[..k]) == DecodeU(n, s)
    decreases n
  {
    if s != [] && s[0] >= 128 && n > 7 && k > 0 {
      PrefixU(n - 7, s[1..], k - 1);
      assert s[..k][1..] == s[1..][..k - 1];
    }
  }

  lemma {:induction false} PrefixS(n: nat, s: seq<u8>, k: nat)
    requires n > 0 && k <= |s|
    ensures DecodeS(n, s).Some? && DecodeS(n, s).value.len <= k ==> DecodeS(n, s[..k]) == DecodeS(n, s)
    decreases n
  {
    if s != [] && s[0] >= 128 && n > 7 && k > 0 {
      PrefixS(n - 7, s[1..], k - 1);
      assert s[..k][1..] == s[1..][..k - 1];
    }
  }

  /** After `k` bytes with the continuation bit the rest decides. */
  lemma {:induction false} SkipU(n: nat, s: seq<u8>, k: nat)
    requires k <= |s| && 7 * k < n && forall i :: 0 <= i < k ==> s[i] >= 128
    ensures DecodeU(n, s).Some? <==> DecodeU(n - 7 * k, s[k..]).Some?
    ensures DecodeU(n, s).Some? ==> DecodeU(n, s).value.len == k + DecodeU(n - 7 * k, s[k..]).value.len
    decreases k
  {
    if k > 0 {
      SkipU(n - 7, s[1..], k - 1);
      assert s[1..][k - 1..] == s[k..];
    } else {
      assert s[0..] == s;
    }
  }

  lemma {:induction false} SkipS(n: nat, s: seq<u8>, k: nat)
    requires k <= |s| && 7 * k < n && forall i :: 0 <= i < k ==> s[i] >= 128
    ensures DecodeS(n, s).Some? <==> DecodeS(n - 7 * k, s[k..]).Some?
    ensures DecodeS(n, s).Some? ==> DecodeS(n, s).value.len == k + DecodeS(n - 7 * k, s[k..]).value.len
    decreases k
  {
    if k > 0 {
      SkipS(n - 7, s[1..], k - 1);
      assert s[1..][k - 1..] == s[k..];
    } else {
      assert s[0..] == s;
    }
  }

  /** What the byte after `cnt` bytes with the continuation bit decides. */
  lemma EndU(s: seq<u8>, cnt: nat)
    requires cnt <= |s| && cnt <= 5 && forall i :: 0 <= i < cnt ==> s[i] >= 128
    ensures cnt == 5 || cnt == |s| ==> DecodeU(32, s).None?
    ensures cnt < 5 && cnt < |s| && s[cnt] < 128 ==>
              && (DecodeU(32, s).Some? <==> cnt < 4 || s[cnt] / 16 == 0)
              && (DecodeU(32, s).Some? ==> DecodeU(32, s).value.len == cnt + 1)
  {
    hide DecodeU, Pow2;
    Pow2Values();
    var k := if cnt == 5 then 4 else cnt;
    SkipU(32, s, k);
    LastByteU(32 - 7 * k, s[k..]);
    if k < |s| {
      assert s[k..][0] == s[k];
    }
    if cnt < 4 {
      Pow2Grows(7, 32 - 7 * cnt);
    }
  }

  lemma LastByteU(n: nat, s: seq<u8>)
    ensures s == [] ==> DecodeU(n, s).None?
    ensures s != [] && s[0] < 128 ==> DecodeU(n, s) == if s[0] < Pow2(n) then Some(Decoded(s[0], 1)) else None
    ensures s != [] && s[0] >= 128 && n <= 7 ==> DecodeU(n, s).None?
  {
  }

  /** A pointer that is checked against the end of the bytes it may read. */
  class GuardedPtr {
    const bytes: seq<u8>
    var raw: nat
    var bnds: nat

    ghost predicate Valid()
      reads this
    {
      raw <= bnds <= |bytes|
    }

    ghost function Rest(): seq<u8>
      reads this
      requires Valid()
    {
      bytes[raw..bnds]
    }

    constructor (bytes: seq<u8>)
      ensures Valid() && this.bytes == bytes && Rest() == bytes && raw == 0
    {
      this.bytes, raw, bnds := bytes, 0, |bytes|;
    }

    method At(index: nat) returns (b: Option<u8>)
      requires Valid()
      ensures b == if index < |Rest()| then Some(Rest()[index]) else None
    {
      b := if index < bnds - raw then Some(bytes[raw + index]) else None;
    }

    /** `+=` */
    method Advance(n: nat) returns (ok: bool)
      requires Valid()
      modifies this`raw
      ensures Valid() && (ok <==> n <= |old(Rest())|)
      ensures ok ==> Rest() == old(Rest())[n..] && raw == old(raw) + n
      ensures !ok ==> raw == old(raw)
    {
      ok := n <= bnds - raw;
      if ok {
        raw := raw + n;
      }
    }

    /** The postfix increment and dereference used to read byte by byte. */
    method Next() returns (b: Option<u8>)
      requires Valid()
      modifies this`raw
      ensures Valid()
      ensures b.Some? <==> old(Rest()) != []
      ensures b.Some? ==> b.value == old(Rest())[0] && Rest() == old(Rest())[1..] && raw == old(raw) + 1
      ensures b.None? ==> raw == old(raw)
    {
      if raw < bnds {
        b := Some(bytes[raw]);
        raw := raw + 1;
      } else {
        b := None;
      }
    }

    /** `scoped_shrink_bounds`; the caller puts `bnds` back. */
    method ShrinkBounds(n: nat) returns (ok: bool)
      requires Valid()
      modifies this`bnds
      ensures Valid() && (ok <==> n <= |old(Rest())|)
      ensures ok ==> Rest() == old(Rest())[..n]
      ensures !ok ==> bnds == old(bnds)
    {
      ok := n <= bnds - raw;
      if ok {
        bnds := raw + n;
      }
    }
  }

  /** `varuint<32>`. */
  class VarUint32 {
    const storage: array<u8>
    var bytesUsed: nat

    ghost predicate Valid()
      reads this, storage
    {
      storage.Length == 5 && bytesUsed <= 5
    }

    ghost function Contents(): seq<u8>
      reads this, storage
      requires Valid()
    {
      storage[..bytesUsed]
    }

    constructor ()
      ensures Valid() && fresh(storage)
    {
      storage := new u8[5];
      bytesUsed := 5;
    }

    method FromValue(value: u32)
      requires Valid()
      modifies this`bytesUsed, storage
      ensures Valid() && Contents() == EncodeU(value)
    {
      hide EncodeU, FitsAfter;
      var v: nat := value;
      assert FitsAfter(v, 0) by { FitsFirst(v); }
      var used := 0;
      var more := true;
      while more
        invariant 0 <= used <= 4 || (used == 5 && !more)
        invariant more ==> FitsAfter(v, used) && storage[..used] + EncodeU(v) == EncodeU(value)
        invariant !more ==> storage[..used] == EncodeU(value)
        decreases 5 - used, more
      {
        ghost var before := storage[..used];
        EncodeStepU(v);
        FitsNext(v, used);
        var b := v % 128;
        v := v / 128;
        if v != 0 {
          storage[used] := b + 128;
        } else {
          storage[used] := b;
          more := false;
        }
        assert storage[..used + 1] == before + [storage[used]];
        used := used + 1;
      }
      bytesUsed := used;
    }

    /** Accepts exactly what the grammar accepts, and moves the pointer past it. */
    method FromCode(code: GuardedPtr) returns (ok: bool)
      requires Valid() && code.Valid()
      modifies this`bytesUsed, storage, code`raw
      ensures Valid() && code.Valid()
      ensures ok <==> DecodeU(32, old(code.Rest())).Some?
      ensures ok ==>
                var len := DecodeU(32, old(code.Rest())).value.len;
                len <= |old(code.Rest())| && Contents() == old(code.Rest())[..len] && code.raw == old(code.raw) + len
      ensures !ok ==> code.raw == old(code.raw)
    {
      hide DecodeU;
      ghost var rest := code.Rest();
      var cnt := 0;
      while true
        invariant 0 <= cnt <= 5 && cnt <= |rest| && storage[..cnt] == rest[..cnt]
        invariant forall i :: 0 <= i < cnt ==> rest[i] >= 128
        invariant code.Valid() && code.raw == old(code.raw) && code.Rest() == rest && bytesUsed == old(bytesUsed)
        decreases 5 - cnt
      {
        EndU(rest, cnt);
        if cnt >= 5 {
          return false;
        }
        var b := code.At(cnt);
        if b.None? {
          return false;
        }
        storage[cnt] := b.value;
        assert rest[..cnt + 1] == rest[..cnt] + [b.value];
        assert storage[..cnt + 1] == rest[..cnt + 1];
        if b.value < 128 {
          if cnt + 1 == 5 && b.value / 16 != 0 {
            return false;
          }
          break;
        }
        cnt := cnt + 1;
      }
      ok := code.Advance(cnt + 1);
      bytesUsed := cnt + 1;
    }

    /** The value of a decoded or encoded integer; the shifts never lose a bit. */
    method To() returns (r: u32)
      requires Valid() && DecodeU(32, Contents()).Some? && DecodeU(32, Contents()).value.len == bytesUsed
      ensures r == DecodeU(32, Contents()).value.value
    {
      hide DecodeU;
      ghost var s := Contents();
      ghost var n := bytesUsed;
      NotEmptyU(32, s);
      var ret: nat := 0;
      var i := bytesUsed;
      while i > 0
        invariant 0 <= i <= n
        invariant ret < U32_LIMIT && TailIs(s, i, ret)
      {
        i := i - 1;
        FoldTail(s, i, ret);
        ret := (ret * 128) % U32_LIMIT + storage[i] % 128;
      }
      assert s[0..] == s;
      r := ret;
    }
  }

  lemma EncodeStepU(v: nat)
    ensures EncodeU(v) == if v / 128 == 0 then [v % 128] else [v % 128 + 128] + EncodeU(v / 128)
  {
  }

  /** What is left of a 32-bit value after `used` groups of seven bits. */
  predicate FitsAfter(v: nat, used: nat) {
    match used
    case 0 => v < 0x1_0000_0000
    case 1 => v < 0x200_0000
    case 2 => v < 0x4_0000
    case 3 => v < 0x800
    case 4 => v < 0x10
    case _ => false
  }

  lemma FitsFirst(v: u32)
    ensures FitsAfter(v, 0)
  {
  }

  lemma FitsNext(v: nat, used: nat)
    requires FitsAfter(v, used)
    ensures used <= 4 && (v / 128 != 0 ==> used < 4 && FitsAfter(v / 128, used + 1))
  {
  }

  lemma NotEmptyU(n: nat, s: seq<u8>)
    requires DecodeU(n, s).Some?
    ensures s != []
  {
  }

  /** The value of the tail that begins at byte `i`. */
  predicate TailIs(s: seq<u8>, i: nat, ret: nat)
  {
    if i >= |s| then ret == 0
    else 7 * i <= 32 && DecodeU(32 - 7 * i, s[i..]) == Some(Decoded(ret, |s| - i))
  }

  /** Every tail of an accepted sequence is accepted with fewer bits, and only the last byte has
      no continuation bit. */
  lemma {:induction false} TailU(n: nat, s: seq<u8>, i: nat)
    requires DecodeU(n, s).Some? && DecodeU(n, s).value.len == |s| && i < |s|
    ensures 7 * i <= n && DecodeU(n - 7 * i, s[i..]).Some? && DecodeU(n - 7 * i, s[i..]).value.len == |s| - i
    ensures s[i] >= 128 <==> i < |s| - 1
    decreases i
  {
    hide EncodeU, Pow2, DecodeU;
    UnfoldU(n, s);
    if i > 0 {
      TailU(n - 7, s[1..], i - 1);
      assert s[1..][i - 1..] == s[i..] && n - 7 - 7 * (i - 1) == n - 7 * i;
    } else {
      assert s[0..] == s;
      if s[0] >= 128 {
        ShortestU(n - 7, s[1..]);
        UnfoldU(n - 7, s[1..]);
      }
    }
  }

  lemma UnfoldU(n: nat, s: seq<u8>)
    requires DecodeU(n, s).Some?
    ensures s != []
    ensures s[0] < 128 ==> s[0] < Pow2(n) && DecodeU(n, s) == Some(Decoded(s[0], 1))
    ensures s[0] >= 128 ==>
              && n > 7 && DecodeU(n - 7, s[1..]).Some?
              && var d := DecodeU(n - 7, s[1..]).value;
              && DecodeU(n, s) == Some(Decoded(128 * d.value + (s[0] as int - 128), d.len + 1))
  {
  }

  /** Shifting in one more byte. */
  lemma FoldTail(s: seq<u8>, i: nat, ret: nat)
    requires DecodeU(32, s).Some? && DecodeU(32, s).value.len == |s| && i < |s| && TailIs(s, i + 1, ret)
    ensures ret * 128 + s[i] % 128 < U32_LIMIT && (ret * 128) % U32_LIMIT == ret * 128
    ensures TailIs(s, i, ret * 128 + s[i] % 128)
  {
    hide EncodeU, Pow2, DecodeU;
    Pow2Values();
    TailU(32, s, i);
    var t := s[i..];
    assert t[0] == s[i] && t[1..] == s[i + 1..];
    UnfoldU(32 - 7 * i, t);
    ShortestU(32 - 7 * i, t);
    Pow2Grows(32 - 7 * i, 32);
    assert 32 - 7 * i - 7 == 32 - 7 * (i + 1);
    if i == |s| - 1 {
      assert ret == 0;
    }
  }

  function BytesNeeded(bits: nat): nat {
    if bits == 32 then 5 else 10
  }

  /** The range of an `n`-bit signed integer. */
  predicate FitsS(v: int, n: nat)
    requires n > 0
  {
    -(Pow2(n - 1) as int) <= v < Pow2(n - 1)
  }

  lemma EncodeStepS(v: int, n: nat)
    requires n > 0 && FitsS(v, n)
    ensures EncodeS(v) == if LastGroup(v) then [v % 128] else [v % 128 + 128] + EncodeS(v / 128)
    ensures n <= 7 ==> LastGroup(v)
    ensures n > 7 ==> FitsS(v / 128, n - 7)
  {
    Pow2Values();
    if n <= 7 {
      Pow2Grows(n - 1, 6);
    } else {
      Pow2Seven(n - 1);
    }
  }

  /** What the byte after `cnt` bytes with the continuation bit decides. */
  lemma EndS(bits: nat, s: seq<u8>, cnt: nat)
    requires (bits == 32 || bits == 64) && cnt <= |s| && cnt <= BytesNeeded(bits) && forall i :: 0 <= i < cnt ==>
            s[i] >= 128
    ensures cnt == BytesNeeded(bits) || cnt == |s| ==> DecodeS(bits, s).None?
    ensures cnt < BytesNeeded(bits) && cnt < |s| && s[cnt] < 128 ==>
              && (DecodeS(bits, s).Some? <==> cnt + 1 < BytesNeeded(bits) || UnusedOk(bits, s[cnt]))
              && (DecodeS(bits, s).Some? ==> DecodeS(bits, s).value.len == cnt + 1)
  {
    hide DecodeS, Pow2;
    Pow2Values();
    var k := if cnt == BytesNeeded(bits) then cnt - 1 else cnt;
    SkipS(bits, s, k);
    LastByteS(bits - 7 * k, s[k..]);
    if k < |s| {
      assert s[k..][0] == s[k];
    }
    if cnt + 1 < BytesNeeded(bits) {
      Pow2Grows(6, bits - 7 * cnt - 1);
    }
  }

  /** The bits of the last possible byte that are not part of the value repeat the sign: above bit
      3 for 32 bits, and above bit 0 for 64. */
  predicate UnusedOk(bits: nat, b: u8) {
    if bits == 32 then b / 16 == (if b / 8 % 2 == 1 then 7 else 0)
    else b / 2 == (if b % 2 == 1 then 63 else 0)
  }

  /** The seven-bit groups read as one unsigned number. */
  function Raw(s: seq<u8>): nat {
    if s == [] then 0 else 128 * Raw(s[1..]) + s[0] % 128
  }

  lemma {:induction false} RawBound(s: seq<u8>)
    ensures Raw(s) < Pow2(7 * |s|)
    decreases |s|
  {
    if s != [] {
      RawBound(s[1..]);
      Pow2Seven(7 * |s|);
    }
  }

  lemma UnfoldS(n: nat, s: seq<u8>)
    requires n > 0 && DecodeS(n, s).Some?
    ensures s != []
    ensures s[0] < 128 ==> DecodeS(n, s) == Some(Decoded(if s[0] >= 64 then s[0] as int - 128 else s[0], 1))
    ensures s[0] >= 128 ==>
              && n > 7 && DecodeS(n - 7, s[1..]).Some?
              && var d := DecodeS(n - 7, s[1..]).value;
              && DecodeS(n, s) == Some(Decoded(128 * d.value + (s[0] as int - 128), d.len + 1))
  {
  }

  /** The value is the raw number, less the weight of the sign when the last group has it. */
  lemma {:induction false} RawValue(n: nat, s: seq<u8>)
    requires n > 0 && DecodeS(n, s).Some? && DecodeS(n, s).value.len == |s|
    ensures s != []
    ensures DecodeS(n, s).value.value == Raw(s) - (if s[|s| - 1] % 128 >= 64 then Pow2(7 * |s|) else 0)
    ensures 7 * (|s| - 1) < n
    decreases n
  {
    hide DecodeS, Pow2, EncodeS;
    UnfoldS(n, s);
    if s[0] >= 128 {
      RawValue(n - 7, s[1..]);
      Pow2Seven(7 * |s|);
      assert s[1..][|s[1..]| - 1] == s[|s| - 1];
    } else {
      Pow2Values();
      assert s == [s[0]] && Raw(s[1..]) == 0;
    }
  }

  /** A shift that loses high bits, and the next group in the low ones. */
  lemma ShiftIn(bits: nat, a: nat, x: nat)
    requires (bits == 32 || bits == 64) && x < 128
    ensures ((a % Modulus(bits)) * 128) % Modulus(bits) + x == (a * 128 + x) % Modulus(bits)
  {
    if bits == 32 {
      ShiftIn32(a, x);
    } else {
      ShiftIn64(a, x);
    }
  }

  /** The modulus is a multiple of 128, so the low group fits below the bits that are kept. */
  lemma ShiftIn32(a: nat, x: nat)
    requires x < 128
    ensures ((a % U32_LIMIT) * 128) % U32_LIMIT + x == (a * 128 + x) % U32_LIMIT
  {
    var r := a % U32_LIMIT;
    var q, low := r * 128 / U32_LIMIT, r * 128 % U32_LIMIT;
    assert low == 128 * (r - q * 0x200_0000);
    Arena.DivUnique(a * 128 + x, U32_LIMIT, a / U32_LIMIT * 128 + q, low + x);
  }

  lemma ShiftIn64(a: nat, x: nat)
    requires x < 128
    ensures ((a % U64_LIMIT) * 128) % U64_LIMIT + x == (a * 128 + x) % U64_LIMIT
  {
    var r := a % U64_LIMIT;
    var q, low := r * 128 / U64_LIMIT, r * 128 % U64_LIMIT;
    assert low == 128 * (r - q * 0x200_0000_0000_0000);
    Arena.DivUnique(a * 128 + x, U64_LIMIT, a / U64_LIMIT * 128 + q, low + x);
  }

  lemma EmptyRaw(s: seq<u8>)
    requires s == []
    ensures Raw(s) == 0
  {
  }

  lemma RawStep(s: seq<u8>, i: nat)
    requires i < |s|
    ensures Raw(s[i..]) == 128 * Raw(s[i + 1..]) + s[i] % 128
  {
    assert s[i..][0] == s[i] && s[i..][1..] == s[i + 1..];
  }

  /** Reading an unsigned number of `modulus` values as a signed one. */
  function Signed(r: nat, modulus: nat): int {
    if 2 * r >= modulus then r - modulus else r
  }

  lemma SignedUnique(x: nat, modulus: nat, k: nat, v: int)
    requires modulus > 0 && x == v + k * modulus && -(modulus as int) <= 2 * v < modulus
    ensures Signed(x % modulus, modulus) == v
  {
    if v >= 0 {
      Arena.DivUnique(x, modulus, k, v);
    } else {
      Arena.MulSign(k, modulus);
      assert x == (k - 1) * modulus + (v + modulus);
      Arena.DivUnique(x, modulus, k - 1, v + modulus);
    }
  }

  function Modulus(bits: nat): nat {
    if bits == 32 then U32_LIMIT else U64_LIMIT
  }

  /** Sign extension from the last group, unless all groups are there. */
  function Extended(bits: nat, s: seq<u8>, r: nat): nat
    requires s != [] && (|s| < BytesNeeded(bits) ==> Pow2(7 * |s|) <= Modulus(bits))
  {
    if |s| < BytesNeeded(bits) && s[|s| - 1] % 128 >= 64 then r + (Modulus(bits) - Pow2(7 * |s|)) else r
  }

  lemma ExtendedIsValue(bits: nat, s: seq<u8>)
    requires (bits == 32 || bits == 64) && DecodeS(bits, s).Some? && DecodeS(bits, s).value.len == |s|
    ensures s != [] && |s| <= BytesNeeded(bits) && (|s| < BytesNeeded(bits) ==> Pow2(7 * |s|) <= Modulus(bits))
    ensures Signed(Extended(bits, s, Raw(s) % Modulus(bits)), Modulus(bits)) == DecodeS(bits, s).value.value
  {
    hide DecodeS, Pow2, EncodeS, Raw, Signed;
    Pow2Values();
    RawValue(bits, s);
    RawBound(s);
    ShortestS(bits, s);
    var v := DecodeS(bits, s).value.value;
    if |s| < BytesNeeded(bits) {
      Pow2Grows(7 * |s|, bits - 1);
      ShortValue(bits, Raw(s), Pow2(7 * |s|), s[|s| - 1] % 128 >= 64, v);
    } else {
      FullWidth(bits);
      var c := if s[|s| - 1] % 128 >= 64 then (if bits == 32 then 8 else 64) else 0;
      SignedUnique(Raw(s), Modulus(bits), c, v);
    }
  }

  lemma ShortValue(bits: nat, raw: nat, weight: nat, negative: bool, v: int)
    requires (bits == 32 || bits == 64) && raw < weight && 2 * weight <= Modulus(bits)
    requires v == raw - (if negative then weight else 0)
    ensures
      var low := raw % Modulus(bits);
      Signed(if negative then low + (Modulus(bits) - weight) else low, Modulus(bits)) == v
  {
  }

  lemma FullWidth(bits: nat)
    requires bits == 32 || bits == 64
    ensures Pow2(7 * BytesNeeded(bits)) == (if bits == 32 then 8 else 64) * Modulus(bits)
  {
    Pow2Values();
    if bits == 32 {
      assert Pow2(35) == 2 * Pow2(34) == 4 * Pow2(33) == 8 * Pow2(32);
    } else {
      Pow2Seven(70);
    }
  }

  /** `varint<32>` and `varint<64>`. */
  class VarInt {
    const bits: nat
    const storage: array<u8>
    var bytesUsed: nat

    ghost predicate Valid()
      reads this, storage
    {
      (bits == 32 || bits == 64) && storage.Length == BytesNeeded(bits) && bytesUsed <= BytesNeeded(bits)
    }

    ghost function Contents(): seq<u8>
      reads this, storage
      requires Valid()
    {
      storage[..bytesUsed]
    }

    constructor (bits: nat)
      requires bits == 32 || bits == 64
      ensures Valid() && fresh(storage) && this.bits == bits
    {
      this.bits := bits;
      storage := new u8[BytesNeeded(bits)];
      bytesUsed := BytesNeeded(bits);
    }

    method FromValue(value: int)
      requires Valid() && FitsS(value, bits)
      modifies this`bytesUsed, storage
      ensures Valid() && Contents() == EncodeS(value)
    {
      hide EncodeS, FitsS, LastGroup;
      var v := value;
      var used := 0;
      var more := true;
      while more
        invariant 0 <= used < BytesNeeded(bits) || (used == BytesNeeded(bits) && !more)
        invariant more ==>
                7 * used < bits && FitsS(v, bits - 7 * used) && storage[..used] + EncodeS(v) == EncodeS(value)
        invariant !more ==> storage[..used] == EncodeS(value)
        decreases 10 - used, more
      {
        ghost var before := storage[..used];
        EncodeStepS(v, bits - 7 * used);
        var b := v % 128;
        if LastGroup(v) {
          storage[used] := b;
          more := false;
        } else {
          storage[used] := b + 128;
        }
        v := v / 128;
        assert storage[..used + 1] == before + [storage[used]];
        used := used + 1;
      }
      bytesUsed := used;
    }

    /** Accepts exactly what the grammar accepts, and moves the pointer past it. */
    method FromCode(code: GuardedPtr) returns (ok: bool)
      requires Valid() && code.Valid()
      modifies this`bytesUsed, storage, code`raw
      ensures Valid() && code.Valid()
      ensures ok <==> DecodeS(bits, old(code.Rest())).Some?
      ensures ok ==>
                var len := DecodeS(bits, old(code.Rest())).value.len;
                len <= |old(code.Rest())| && Contents() == old(code.Rest())[..len] && code.raw == old(code.raw) + len
      ensures !ok ==> code.raw == old(code.raw)
    {
      hide DecodeS;
      ghost var rest := code.Rest();
      var cnt := 0;
      while true
        invariant 0 <= cnt <= BytesNeeded(bits) && cnt <= |rest| && storage[..cnt] == rest[..cnt]
        invariant forall i :: 0 <= i < cnt ==> rest[i] >= 128
        invariant code.Valid() && code.raw == old(code.raw) && code.Rest() == rest && bytesUsed == old(bytesUsed)
        decreases BytesNeeded(bits) - cnt
      {
        EndS(bits, rest, cnt);
        if cnt >= BytesNeeded(bits) {
          return false;
        }
        var b := code.At(cnt);
        if b.None? {
          return false;
        }
        storage[cnt] := b.value;
        assert rest[..cnt + 1] == rest[..cnt] + [b.value];
        assert storage[..cnt + 1] == rest[..cnt + 1];
        if b.value < 128 {
          if cnt + 1 == BytesNeeded(bits) && !UnusedOk(bits, b.value) {
            return false;
          }
          break;
        }
        cnt := cnt + 1;
      }
      ok := code.Advance(cnt + 1);
      bytesUsed := cnt + 1;
    }

    /** The value; the groups are shifted together modulo the width and then sign-extended. */
    method To() returns (r: int)
      requires Valid() && DecodeS(bits, Contents()).Some? && DecodeS(bits, Contents()).value.len == bytesUsed
      ensures r == DecodeS(bits, Contents()).value.value
    {
      hide DecodeS, Pow2, Raw, Signed;
      ghost var s := Contents();
      ExtendedIsValue(bits, s);
      assert Raw(s[bytesUsed..]) == 0 by { EmptyRaw(s[bytesUsed..]); }
      var modulus := Modulus(bits);
      var ret: nat := 0;
      var i := bytesUsed;
      while i > 0
        invariant 0 <= i <= bytesUsed
        invariant ret == Raw(s[i..]) % modulus
      {
        i := i - 1;
        RawStep(s, i);
        ShiftIn(bits, Raw(s[i + 1..]), s[i] % 128);
        ret := (ret * 128) % modulus + storage[i] % 128;
      }
      assert s[0..] == s;
      if bytesUsed < BytesNeeded(bits) && storage[bytesUsed - 1] % 128 >= 64 {
        ret := ret + (modulus - Pow2(7 * bytesUsed));
      }
      r := Signed(ret, modulus);
    }
  }
}

/** The UTF-8 check of names: it accepts exactly the byte strings that are encodings of Unicode
    scalar values, as section 4 of RFC 3629 defines them. */
module Utf8 {
  import opened Wasm
  import opened Leb128

  predicate Scalar(cp: nat) {
    cp < 0xD800 || 0xE000 <= cp < 0x11_0000
  }

  function Encode(cp: nat): (s: seq<u8>)
    requires Scalar(cp)
    ensures 1 <= |s| <= 4
  {
    if cp < 0x80 then [cp]
    else if cp < 0x800 then [0xC0 + cp / 0x40, 0x80 + cp % 0x40]
    else if cp < 0x1_0000 then [0xE0 + cp / 0x40 / 0x40, 0x80 + cp / 0x40 % 0x40, 0x80 + cp % 0x40]
    else [0xF0 + cp / 0x40 / 0x40 / 0x40, 0x80 + cp / 0x40 / 0x40 % 0x40, 0x80 + cp / 0x40 % 0x40, 0x80 + cp % 0x40]
  }

  function EncodeAll(cps: seq<nat>): seq<u8>
    requires forall i :: 0 <= i < |cps| ==> Scalar(cps[i])
  {
    if cps == [] then [] else Encode(cps[0]) + EncodeAll(cps[1..])
  }

  /** `s` is a concatenation of encodings of scalar values. */
  ghost predicate IsUtf8(s: seq<u8>) {
    exists cps: seq<nat> :: (forall i :: 0 <= i < |cps| ==> Scalar(cps[i])) && EncodeAll(cps) == s
  }

  predicate Continuation(b: u8) {
    0x80 <= b < 0xC0
  }

  /** Six more bits. */
  function Join(high: nat, b: nat): nat
    requires b >= 0x80
  {
    high * 0x40 + (b - 0x80)
  }

  /** The number of bytes of the code point `s` begins with, as the checks of the parser have it. */
  function CodePointLength(s: seq<u8>): (n: Option<nat>)
    ensures n.Some? ==> 1 <= n.value <= |s|
  {
    if s == [] then None
    else if s[0] < 0x80 then Some(1)
    else if s[0] < 0xE0 then
      if s[0] < 0xC0 || |s| < 2 || !Continuation(s[1]) then None
      else
        var cp := Join(s[0] - 0xC0, s[1]);
        if 0x80 <= cp < 0x800 then Some(2) else None
    else if s[0] < 0xF0 then
      if |s| < 3 || !Continuation(s[1]) || !Continuation(s[2]) then None
      else
        var cp := Join(Join(s[0] - 0xE0, s[1]), s[2]);
        if 0x800 <= cp < 0xD800 || 0xE000 <= cp < 0x1_0000 then Some(3) else None
    else if s[0] < 0xF8 then
      if |s| < 4 || !Continuation(s[1]) || !Continuation(s[2]) || !Continuation(s[3]) then None
      else
        var cp := Join(Join(Join(s[0] - 0xF0, s[1]), s[2]), s[3]);
        if 0x1_0000 <= cp < 0x11_0000 then Some(4) else None
    else None
  }

  predicate Accepted(s: seq<u8>)
    decreases |s|
  {
    s == [] || (CodePointLength(s).Some? && Accepted(s[CodePointLength(s).value..]))
  }

  lemma JoinSplits(high: nat, b: nat)
    requires 0x80 <= b < 0xC0
    ensures Join(high, b) / 0x40 == high && 0x80 + Join(high, b) % 0x40 == b
    ensures 0x40 * high <= Join(high, b) < 0x40 * (high + 1)
  {
  }

  lemma SplitJoins(cp: nat)
    ensures Join(cp / 0x40, 0x80 + cp % 0x40) == cp
  {
  }

  /** What is accepted as a code point is the encoding of a scalar value. */
  lemma LengthIsEncoding(s: seq<u8>) returns (cp: nat)
    requires CodePointLength(s).Some?
    ensures Scalar(cp) && Encode(cp) == s[..CodePointLength(s).value]
  {
    hide Join;
    if s[0] < 0x80 {
      cp := s[0];
    } else if s[0] < 0xE0 {
      cp := Join(s[0] - 0xC0, s[1]);
      JoinSplits(s[0] - 0xC0, s[1]);
    } else if s[0] < 0xF0 {
      var high := Join(s[0] - 0xE0, s[1]);
      cp := Join(high, s[2]);
      JoinSplits(s[0] - 0xE0, s[1]);
      JoinSplits(high, s[2]);
    } else {
      var high := Join(s[0] - 0xF0, s[1]);
      var middle := Join(high, s[2]);
      cp := Join(middle, s[3]);
      JoinSplits(s[0] - 0xF0, s[1]);
      JoinSplits(high, s[2]);
      JoinSplits(middle, s[3]);
    }
  }

  /** And every such encoding is accepted, whatever follows it. */
  lemma EncodingIsAccepted(cp: nat, tail: seq<u8>)
    requires Scalar(cp)
    ensures CodePointLength(Encode(cp) + tail) == Some(|Encode(cp)|)
  {
    hide Join, CodePointLength;
    var s := Encode(cp) + tail;
    assert s[..|Encode(cp)|] == Encode(cp);
    SplitJoins(cp);
    SplitJoins(cp / 0x40);
    SplitJoins(cp / 0x40 / 0x40);
    if cp < 0x80 {
      One(s);
    } else if cp < 0x800 {
      assert s[0] == 0xC0 + cp / 0x40 && s[1] == 0x80 + cp % 0x40;
      Two(s, cp);
    } else if cp < 0x1_0000 {
      assert s[0] == 0xE0 + cp / 0x40 / 0x40 && s[1] == 0x80 + cp / 0x40 % 0x40 && s[2] == 0x80 + cp % 0x40;
      Three(s, cp);
    } else {
      assert s[0] == 0xF0 + cp / 0x40 / 0x40 / 0x40 && s[1] == 0x80 + cp / 0x40 / 0x40 % 0x40;
      assert s[2] == 0x80 + cp / 0x40 % 0x40 && s[3] == 0x80 + cp % 0x40;
      Four(s, cp);
    }
  }

  lemma One(s: seq<u8>)
    requires s != [] && s[0] < 0x80
    ensures CodePointLength(s) == Some(1)
  {
  }

  lemma Two(s: seq<u8>, cp: nat)
    requires |s| >= 2 && 0xC0 <= s[0] < 0xE0 && Continuation(s[1])
    requires cp == Join(s[0] - 0xC0, s[1]) && 0x80 <= cp < 0x800
    ensures CodePointLength(s) == Some(2)
  {
  }

  lemma Three(s: seq<u8>, cp: nat)
    requires |s| >= 3 && 0xE0 <= s[0] < 0xF0 && Continuation(s[1]) && Continuation(s[2])
    requires cp == Join(Join(s[0] - 0xE0, s[1]), s[2]) && 0x800 <= cp < 0x1_0000 && Scalar(cp)
    ensures CodePointLength(s) == Some(3)
  {
  }

  lemma Four(s: seq<u8>, cp: nat)
    requires |s| >= 4 && 0xF0 <= s[0] < 0xF8 && Continuation(s[1]) && Continuation(s[2]) && Continuation(s[3])
    requires cp == Join(Join(Join(s[0] - 0xF0, s[1]), s[2]), s[3]) && 0x1_0000 <= cp < 0x11_0000
    ensures CodePointLength(s) == Some(4)
  {
  }

  lemma {:induction false} AcceptedIsUtf8(s: seq<u8>)
    requires Accepted(s)
    ensures IsUtf8(s)
    decreases |s|
  {
    hide CodePointLength, Encode, EncodeAll, IsUtf8, Scalar;
    if s == [] {
      NothingIsUtf8();
    } else {
      var n := CodePointLength(s).value;
      var cp := LengthIsEncoding(s);
      AcceptedIsUtf8(s[n..]);
      ConsUtf8(cp, s[n..]);
      assert s == s[..n] + s[n..];
    }
  }

  lemma NothingIsUtf8()
    ensures IsUtf8([])
  {
    assert EncodeAll([]) == [];
  }

  lemma ConsUtf8(cp: nat, s: seq<u8>)
    requires Scalar(cp) && IsUtf8(s)
    ensures IsUtf8(Encode(cp) + s)
  {
    hide Encode, Scalar;
    var cps: seq<nat> :| (forall i :: 0 <= i < |cps| ==> Scalar(cps[i])) && EncodeAll(cps) == s;
    var all := [cp] + cps;
    assert all[1..] == cps;
    assert EncodeAll(all) == Encode(cp) + s;
  }

  lemma {:induction false} Utf8IsAccepted(cps: seq<nat>)
    requires forall i :: 0 <= i < |cps| ==> Scalar(cps[i])
    ensures Accepted(EncodeAll(cps))
    decreases |cps|
  {
    hide CodePointLength, Encode;
    if cps != [] {
      var s, tail := EncodeAll(cps), EncodeAll(cps[1..]);
      EncodingIsAccepted(cps[0], tail);
      Utf8IsAccepted(cps[1..]);
      assert s[|Encode(cps[0])|..] == tail;
    }
  }

  lemma AcceptedExactly(s: seq<u8>)
    ensures Accepted(s) <==> IsUtf8(s)
  {
    hide Accepted, EncodeAll;
    if Accepted(s) {
      AcceptedIsUtf8(s);
    }
    if IsUtf8(s) {
      var cps: seq<nat> :| (forall i :: 0 <= i < |cps| ==> Scalar(cps[i])) && EncodeAll(cps) == s;
      Utf8IsAccepted(cps);
    }
  }

  method ValidateCodePoint(code: GuardedPtr) returns (n: Option<nat>)
    requires code.Valid()
    modifies code`raw
    ensures code.Valid() && n == CodePointLength(old(code.Rest()))
    ensures n.Some? ==> code.Rest() == old(code.Rest())[n.value..] && code.raw == old(code.raw) + n.value
  {
    ghost var s := code.Rest();
    var first := code.Next();
    if first.None? {
      return None;
    }
    var ch: nat := first.value;
    if ch < 0x80 {
      return Some(1);
    } else if ch < 0xE0 {
      if ch < 0xC0 {
        return None;
      }
      var b2 := NextContinuation(code);
      if b2.None? {
        return None;
      }
      var cp := (ch - 0xC0) * 0x40 + (b2.value - 0x80);
      return if 0x80 <= cp < 0x800 then Some(2) else None;
    } else if ch < 0xF0 {
      var b2 := NextContinuation(code);
      if b2.None? {
        return None;
      }
      var b3 := NextContinuation(code);
      if b3.None? {
        return None;
      }
      var cp := (ch - 0xE0) * 0x1000 + (b2.value - 0x80) * 0x40 + (b3.value - 0x80);
      return if 0x800 <= cp < 0xD800 || 0xE000 <= cp < 0x1_0000 then Some(3) else None;
    } else if ch < 0xF8 {
      var b2 := NextContinuation(code);
      if b2.None? {
        return None;
      }
      var b3 := NextContinuation(code);
      if b3.None? {
        return None;
      }
      var b4 := NextContinuation(code);
      if b4.None? {
        return None;
      }
      var cp := (ch - 0xF0) * 0x4_0000 + (b2.value - 0x80) * 0x1000 + (b3.value - 0x80) * 0x40 + (b4.value - 0x80);
      return if 0x1_0000 <= cp < 0x11_0000 then Some(4) else None;
    }
    return None;
  }

  /** A byte that must be a continuation byte. */
  method NextContinuation(code: GuardedPtr) returns (b: Option<nat>)
    requires code.Valid()
    modifies code`raw
    ensures code.Valid()
    ensures b.Some? <==> old(code.Rest()) != [] && Continuation(old(code.Rest())[0])
    ensures b.Some? ==>
            b.value == old(code.Rest())[0] && code.Rest() == old(code.Rest())[1..] && code.raw == old(code.raw) + 1
  {
    var next := code.Next();
    b := if next.Some? && Continuation(next.value) then Some(next.value) else None;
  }

  /** `bytes` counts down to zero and never wraps: what is left to check is what is left to read. */
  method ValidateString(code: GuardedPtr, length: u32) returns (ok: bool)
    requires code.Valid() && |code.Rest()| == length
    modifies code`raw
    ensures code.Valid() && (ok <==> IsUtf8(old(code.Rest())))
    ensures ok ==> code.raw == code.bnds
  {
    hide CodePointLength, IsUtf8;
    AcceptedExactly(code.Rest());
    var bytes: u32 := length;
    while bytes != 0
      invariant code.Valid() && |code.Rest()| == bytes
      invariant Accepted(code.Rest()) <==> Accepted(old(code.Rest()))
      decreases bytes
    {
      var n := ValidateCodePoint(code);
      if n.None? {
        return false;
      }
      bytes := bytes - n.value;
    }
    return true;
  }

  /** A length and that many bytes. Whatever happens the bounds of the pointer are put back. */
  method ParseString(code: GuardedPtr, maxSize: u32) returns (r: Option<seq<u8>>)
    requires code.Valid()
    modifies code`raw, code`bnds
    ensures code.Valid() && code.bnds == old(code.bnds)
    ensures
      var rest := old(code.Rest());
      var d := DecodeU(32, rest);
      var fits := d.Some? && 0 <= d.value.value <= maxSize && d.value.len + d.value.value <= |rest|;
      && (r.Some? <==> fits && IsUtf8(rest[d.value.len..d.value.len + d.value.value]))
      && (r.Some? ==>
            && r.value == rest[d.value.len..d.value.len + d.value.value]
            && code.raw == old(code.raw) + d.value.len + |r.value|)
  {
    hide DecodeU, IsUtf8;
    ghost var rest := code.Rest();
    var v := new VarUint32();
    var ok := v.FromCode(code);
    if !ok {
      return None;
    }
    ghost var d := DecodeU(32, rest).value;
    PrefixU(32, rest, d.len);
    var length := v.To();
    if length > maxSize {
      return None;
    }
    assert code.Rest() == rest[d.len..];
    var oldBounds := code.bnds;
    ok := code.ShrinkBounds(length);
    if !ok {
      return None;
    }
    var result := code.bytes[code.raw..code.bnds];
    assert result == rest[d.len..d.len + length];
    ok := ValidateString(code, length);
    r := if ok then Some(result) else None;
    code.bnds := oldBounds;
  }
}

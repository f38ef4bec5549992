/** The rounding functions that work on the bits of a float: ceil, floor and trunc of f32 and
    trunc of f64 are exact, as section 4.3.3 of the WebAssembly Core Specification 2.0 asks. A
    mask of the low `k` bits is a remainder modulo a power of two here. */
module FloatRound {
  import opened Powers
  import Arena

  type Positive = x: nat | x > 0 witness 1

  /** Mantissa bits, exponent bias, all bits, and the weights of the lowest exponent bit and of
      the sign bit. */
  datatype Format = Format(p: nat, bias: nat, width: nat, unit: Positive, sign: Positive)

  const F32: Format := Format(23, 127, 32, 0x80_0000, 0x8000_0000)
  const F64: Format := Format(52, 1023, 64, 0x10_0000_0000_0000, 0x8000_0000_0000_0000)

  predicate IsFormat(f: Format) {
    f == F32 || f == F64
  }

  function Sign(f: Format, a: nat): nat {
    a / f.sign
  }

  function Exp(f: Format, a: nat): nat {
    a % f.sign / f.unit
  }

  function Mant(f: Format, a: nat): nat {
    a % f.sign % f.unit
  }

  predicate Finite(f: Format, a: nat) {
    a < 2 * f.sign && Exp(f, a) <= 2 * f.bias
  }

  /** The value in units of the smallest subnormal number, 2 to the power of 1 - bias - p. */
  function Magnitude(f: Format, e: nat, m: nat): nat {
    if e == 0 then m else (f.unit + m) * Pow2(e - 1)
  }

  function Scaled(f: Format, a: nat): int {
    var x: int := Magnitude(f, Exp(f, a), Mant(f, a));
    if Sign(f, a) == 0 then x else -x
  }

  /** The number 1 in the same units. */
  function One(f: Format): Positive
    requires f.p > 0
  {
    Pow2(f.bias + f.p - 1)
  }

  function RoundDown(x: int, one: Positive): int {
    x / one * one
  }

  function RoundUp(x: int, one: Positive): int {
    -((-x) / one * one)
  }

  function RoundToZero(x: int, one: Positive): int {
    if x >= 0 then RoundDown(x, one) else RoundUp(x, one)
  }

  /** The bits a mask of `k` low bits keeps. */
  function Low(a: nat, k: nat): (r: nat)
    ensures r <= a && r < Pow2(k)
  {
    hide Pow2;
    LowBounds(a, Pow2(k));
    a % Pow2(k)
  }

  lemma LowBounds(a: nat, w: Positive)
    ensures 0 <= a % w <= a && a % w < w
  {
    assert a == a / w * w + a % w;
    Arena.MulSign(a / w, w);
  }

  /** The bits it clears. */
  function Clear(a: nat, k: nat): nat {
    a - Low(a, k)
  }

  function AddMask(a: nat, k: nat): nat {
    a + (Pow2(k) - 1)
  }

  /** `_eosio_f32_ceil`, for an argument that is not a NaN. */
  function Ceil(a: nat): nat {
    var e := Exp(F32, a) - F32.bias;
    if e >= F32.p then a
    else if e >= 0 then
      var k := F32.p - e;
      if Low(a, k) == 0 then a
      else
        Clear(if Sign(F32, a) == 0 then AddMask(a, k) else a, k)
    else if Sign(F32, a) != 0 then 0x8000_0000
    else if a % F32.sign != 0 then 0x3F80_0000
    else a
  }

  /** `_eosio_f32_floor`. */
  function Floor(a: nat): nat {
    var e := Exp(F32, a) - F32.bias;
    if e >= F32.p then a
    else if e >= 0 then
      var k := F32.p - e;
      if Low(a, k) == 0 then a
      else
        Clear(if Sign(F32, a) != 0 then AddMask(a, k) else a, k)
    else if Sign(F32, a) == 0 then 0
    else if a % F32.sign != 0 then 0xBF80_0000
    else a
  }

  /** `_eosio_f32_trunc` and `_eosio_f64_trunc`, which differ in their constants only. */
  function Trunc(f: Format, a: nat): nat
    requires IsFormat(f)
  {
    var offset := f.width - f.p;
    var e := Exp(f, a) - f.bias + offset;
    if e >= f.p + offset then a
    else
      var shift := if e < offset then 1 else e;
      var k := f.width - shift;
      if Low(a, k) == 0 then a else Clear(a, k)
  }

  lemma SignWeight(f: Format)
    requires IsFormat(f)
    ensures f.sign == f.unit * (2 * f.bias + 2)
  {
  }

  /** The fields of a number put together from its fields. */
  lemma Fields(f: Format, s: nat, e: nat, m: nat)
    requires IsFormat(f) && s < 2 && e <= 2 * f.bias + 1 && m < f.unit
    ensures
      var a := s * f.sign + e * f.unit + m;
      a < 2 * f.sign && Sign(f, a) == s && Exp(f, a) == e && Mant(f, a) == m
  {
    SignWeight(f);
    var r := e * f.unit + m;
    assert r < f.sign by {
      Arena.MulSign(2 * f.bias + 2 - e, f.unit);
      assert (2 * f.bias + 2 - e) * f.unit == f.unit * (2 * f.bias + 2) - e * f.unit;
    }
    Arena.DivUnique(s * f.sign + r, f.sign, s, r);
    Arena.DivUnique(r, f.unit, e, m);
  }

  /** Every number is put together from its fields. */
  lemma Parts(f: Format, a: nat)
    requires IsFormat(f) && a < 2 * f.sign
    ensures Sign(f, a) < 2 && Exp(f, a) <= 2 * f.bias + 1 && Mant(f, a) < f.unit
    ensures a == Sign(f, a) * f.sign + Exp(f, a) * f.unit + Mant(f, a)
  {
    SignWeight(f);
    QuotientBound(a, f.sign, 2);
    QuotientBound(a % f.sign, f.unit, 2 * f.bias + 2);
  }

  lemma QuotientBound(x: nat, d: Positive, n: nat)
    requires x < d * n
    ensures x / d < n && x == x / d * d + x % d
  {
    var k := x / d - n + 1;
    Arena.MulSign(k, d);
    assert k * d == d * (x / d) - d * n + d;
  }

  /** Low bits of the whole number are low bits of the mantissa. */
  lemma LowOfMant(f: Format, s: nat, e: nat, m: nat, k: nat)
    requires IsFormat(f) && k <= f.p
    ensures Low(s * f.sign + e * f.unit + m, k) == Low(m, k)
  {
    hide Pow2;
    UnitIs(f, k);
    var h := s * (2 * f.bias + 2) + e;
    assert s * f.sign + e * f.unit == h * f.unit by {
      if f == F32 {
      } else {
      }
    }
    LowAdd(h, Pow2(f.p - k), Pow2(k), m);
  }

  lemma LowAdd(h: nat, q: nat, w: Positive, m: nat)
    ensures (h * (q * w) + m) % w == m % w
  {
    var t, r := m / w, m % w;
    assert m == t * w + r;
    assert h * (q * w) == (h * q) * w;
    assert h * (q * w) + m == (h * q + t) * w + r;
    Arena.DivUnique(h * (q * w) + m, w, h * q + t, r);
  }

  lemma UnitIs(f: Format, k: nat)
    requires IsFormat(f) && k <= f.p
    ensures f.unit == Pow2(f.p - k) * Pow2(k) && f.unit == Pow2(f.p)
  {
    Pow2Add(f.p - k, k);
    UnitPower(f);
  }

  lemma UnitPower(f: Format)
    requires IsFormat(f)
    ensures f.unit == Pow2(f.p) && f.sign == Pow2(f.width - 1)
  {
    Pow2Values();
    Pow2Seven(23);
    Pow2Seven(16);
    Pow2Seven(9);
    assert Pow2(2) == 4;
    Pow2Seven(59);
    Pow2Seven(52 + 0);
    assert Pow2(59) == 128 * Pow2(52);
    Pow2Seven(63);
    Pow2Seven(56);
    assert Pow2(63) == 16 * Pow2(59) by {
      assert Pow2(63) == 2 * Pow2(62) == 4 * Pow2(61) == 8 * Pow2(60);
    }
  }

  /** A number with an integer part: which exponent and mantissa bits belong to it. */
  lemma IntegerPart(f: Format, e: nat, m: nat, k: nat)
    requires IsFormat(f) && f.bias <= e < f.bias + f.p && k == f.p - (e - f.bias) && m <= f.unit
    ensures
      var n := Pow2(f.p - k) + m / Pow2(k);
      && Magnitude(f, e, m) == n * One(f) + (m % Pow2(k)) * Pow2(e - 1)
      && 0 <= (m % Pow2(k)) * Pow2(e - 1) < One(f)
  {
    hide Pow2;
    UnitIs(f, k);
    Pow2Add(k, e - 1);
    assert k + (e - 1) == f.bias + f.p - 1;
    IntegerArith(Pow2(k), Pow2(f.p - k), Pow2(e - 1), m);
  }

  lemma IntegerArith(w: Positive, q: nat, v: Positive, m: nat)
    ensures (q * w + m) * v == (q + m / w) * (w * v) + (m % w) * v
    ensures 0 <= (m % w) * v < w * v
  {
    var t, r := m / w, m % w;
    assert m == t * w + r;
    Distribute(w, q, t, r, v);
    Arena.MulSign(w - r, v);
    assert (w - r) * v == w * v - r * v;
  }

  lemma Distribute(w: nat, q: nat, t: nat, r: nat, v: nat)
    ensures (q * w + (t * w + r)) * v == (q + t) * (w * v) + r * v
  {
    assert (q * w + (t * w + r)) * v == q * w * v + t * w * v + r * v;
    assert q * w * v == q * (w * v) && t * w * v == t * (w * v);
  }

  lemma IntDivUnique(x: int, d: Positive, q: int, r: nat)
    requires x == q * d + r && r < d
    ensures x / d == q && x % d == r
  {
    var k := x / d - q;
    assert x == x / d * d + x % d;
    assert k * d == x / d * d - q * d;
    Arena.MulSign(k, d);
  }

  /** Rounding a number with `n` ones and a rest. */
  lemma Rounding(n: nat, one: Positive, t: nat)
    requires t < one
    ensures RoundDown(n * one + t, one) == n * one
    ensures RoundUp(-(n * one + t), one) == -(n * one)
    ensures RoundUp(n * one + t, one) == if t == 0 then n * one else n * one + one
    ensures RoundDown(-(n * one + t), one) == if t == 0 then -(n * one) else -(n * one + one)
  {
    IntDivUnique(n * one + t, one, n, t);
    var x := -(n * one + t);
    if t == 0 {
      var q := -(n as int);
      assert q * one == -(n * one);
      IntDivUnique(x, one, q, 0);
    } else {
      var q := -(n as int) - 1;
      assert q * one == -(n * one) - one;
      IntDivUnique(x, one, q, one - t);
    }
  }

  /** A large exponent leaves no fraction. */
  lemma WholeNumber(f: Format, e: nat, m: nat) returns (n: nat)
    requires IsFormat(f) && e >= f.bias + f.p
    ensures Magnitude(f, e, m) == n * One(f)
  {
    hide Pow2;
    var d := e - (f.bias + f.p);
    Pow2Add(d, f.bias + f.p - 1);
    n := (f.unit + m) * Pow2(d);
    Associate(f.unit + m, Pow2(d), One(f));
  }

  lemma Associate(a: nat, b: nat, c: nat)
    ensures a * (b * c) == (a * b) * c
  {
  }

  /** A small one leaves no integer part. */
  lemma FractionOnly(f: Format, e: nat, m: nat)
    requires IsFormat(f) && e < f.bias && m < f.unit
    ensures Magnitude(f, e, m) < One(f)
    ensures Magnitude(f, e, m) == 0 <==> e == 0 && m == 0
  {
    hide Pow2;
    UnitPower(f);
    if e == 0 {
      Pow2Grows(f.p, f.bias + f.p - 1);
    } else {
      var v: Positive := Pow2(e - 1);
      Pow2Add(f.p + 1, e - 1);
      Pow2Grows(f.p + e, f.bias + f.p - 1);
      assert Pow2(f.p + 1) == 2 * f.unit by { Pow2Next(f.p); }
      Arena.MulSign(2 * f.unit - (f.unit + m), v);
      assert (2 * f.unit - (f.unit + m)) * v == 2 * f.unit * v - (f.unit + m) * v;
      Arena.MulSign(f.unit + m, v);
    }
  }

  lemma Pow2Next(n: nat)
    ensures Pow2(n + 1) == 2 * Pow2(n)
  {
  }

  /** Clearing the low bits drops the fraction. */
  lemma Cleared(f: Format, a: nat, k: nat)
    requires IsFormat(f) && a < 2 * f.sign && f.bias <= Exp(f, a) < f.bias + f.p && k == f.p - (Exp(f, a) - f.bias)
    ensures
      var b := Clear(a, k);
      var e, m := Exp(f, a), Mant(f, a);
      && Low(a, k) == Low(m, k)
      && b < 2 * f.sign && Sign(f, b) == Sign(f, a) && Exp(f, b) == e
      && Magnitude(f, e, Mant(f, b)) == (Pow2(f.p - k) + m / Pow2(k)) * One(f)
  {
    hide Pow2, Magnitude, Sign, Exp, Mant, One;
    Parts(f, a);
    var s, e, m := Sign(f, a), Exp(f, a), Mant(f, a);
    LowOfMant(f, s, e, m, k);
    ClearedUnit(m, Pow2(k));
    Fields(f, s, e, m - m % Pow2(k));
    IntegerPart(f, e, m - m % Pow2(k), k);
  }

  /** Adding the mask first, and then clearing, is going to the next multiple. */
  lemma RoundedUp(a: nat, w: Positive)
    requires a % w != 0
    ensures
      var up := a + (w - 1);
      up - up % w == a - a % w + w
  {
    var q, r := a / w, a % w;
    assert a == q * w + r;
    Arena.DivUnique(a + (w - 1), w, q + 1, r - 1);
  }

  lemma ClearedUnit(m: nat, w: Positive)
    ensures (m - m % w) / w == m / w && (m - m % w) % w == 0
  {
    assert m == m / w * w + m % w;
    Arena.DivUnique(m - m % w, w, m / w, 0);
  }

  lemma NextUnit(m: nat, w: Positive, q: nat)
    requires m < q * w
    ensures m - m % w + w <= q * w
    ensures (m - m % w + w) / w == m / w + 1 && (m - m % w + w) % w == 0
  {
    var t, r := m / w, m % w;
    assert m == t * w + r;
    Arena.MulSign(q - t, w);
    assert (q - t) * w == q * w - t * w;
    Arena.MulSign(q - t - 1, w);
    assert (q - t - 1) * w == q * w - t * w - w;
    Arena.DivUnique(m - r + w, w, t + 1, 0);
  }

  /** A carry out of the mantissa makes the exponent one larger. */
  lemma Raised(f: Format, a: nat, k: nat)
    requires IsFormat(f) && a < 2 * f.sign && f.bias <= Exp(f, a) < f.bias + f.p && k == f.p - (Exp(f, a) - f.bias)
    requires Low(a, k) != 0
    ensures
      var b := Clear(AddMask(a, k), k);
      var m := Mant(f, a);
      && b < 2 * f.sign && Sign(f, b) == Sign(f, a) && Exp(f, a) <= Exp(f, b) <= Exp(f, a) + 1
      && Magnitude(f, Exp(f, b), Mant(f, b)) == (Pow2(f.p - k) + m / Pow2(k) + 1) * One(f)
  {
    hide Pow2, Magnitude, Sign, Exp, Mant;
    Parts(f, a);
    UnitIs(f, k);
    var s, e, m := Sign(f, a), Exp(f, a), Mant(f, a);
    LowOfMant(f, s, e, m, k);
    var w: Positive := Pow2(k);
    RoundedUp(a, w);
    var m' := m - m % w + w;
    NextUnit(m, w, Pow2(f.p - k));
    IntegerPart(f, e, m', k);
    if m' < f.unit {
      Fields(f, s, e, m');
    } else {
      Fields(f, s, e + 1, 0);
      Carried(f, e);
    }
  }

  lemma Carried(f: Format, e: nat)
    requires e > 0
    ensures Magnitude(f, e + 1, 0) == Magnitude(f, e, f.unit)
  {
    Pow2Next(e - 1);
    Associate(f.unit, 2, Pow2(e - 1));
  }

  /** The value of a number with an integer part. */
  lemma ValueParts(f: Format, a: nat, k: nat) returns (n: nat, t: nat)
    requires IsFormat(f) && a < 2 * f.sign && f.bias <= Exp(f, a) < f.bias + f.p && k == f.p - (Exp(f, a) - f.bias)
    ensures n == Pow2(f.p - k) + Mant(f, a) / Pow2(k) && t < One(f)
    ensures Magnitude(f, Exp(f, a), Mant(f, a)) == n * One(f) + t
    ensures t == 0 <==> Low(a, k) == 0
  {
    hide Pow2;
    Parts(f, a);
    LowOfMant(f, Sign(f, a), Exp(f, a), Mant(f, a), k);
    IntegerPart(f, Exp(f, a), Mant(f, a), k);
    n := Pow2(f.p - k) + Mant(f, a) / Pow2(k);
    t := (Mant(f, a) % Pow2(k)) * Pow2(Exp(f, a) - 1);
    Arena.MulSign(Mant(f, a) % Pow2(k), Pow2(Exp(f, a) - 1));
  }

  /** Numbers without a fraction stay. */
  lemma WholeStays(f: Format, a: nat)
    requires IsFormat(f) && Finite(f, a) && Exp(f, a) >= f.bias + f.p
    ensures RoundUp(Scaled(f, a), One(f)) == RoundDown(Scaled(f, a), One(f)) == RoundToZero(Scaled(f, a), One(f)) ==
            Scaled(f, a)
  {
    hide Pow2;
    var n := WholeNumber(f, Exp(f, a), Mant(f, a));
    Rounding(n, One(f), 0);
  }

  function SignedBy(sign: nat, x: int): int {
    if sign == 0 then x else -x
  }

  lemma ScaledIs(f: Format, a: nat)
    ensures Scaled(f, a) == SignedBy(Sign(f, a), Magnitude(f, Exp(f, a), Mant(f, a)))
  {
  }

  /** A number with an integer part, and its two neighbours. */
  lemma Neighbours(f: Format, a: nat, k: nat) returns (n: nat, t: nat)
    requires IsFormat(f) && Finite(f, a) && f.bias <= Exp(f, a) < f.bias + f.p && k == f.p - (Exp(f, a) - f.bias)
    ensures t < One(f) && (t == 0 <==> Low(a, k) == 0)
    ensures Scaled(f, a) == SignedBy(Sign(f, a), n * One(f) + t)
    ensures
      var down := Clear(a, k);
      Finite(f, down) && Sign(f, down) == Sign(f, a) && Scaled(f, down) == SignedBy(Sign(f, a), n * One(f))
    ensures
      var up := Clear(AddMask(a, k), k);
      t > 0 ==> Finite(f, up) && Sign(f, up) == Sign(f, a) && Scaled(f, up) == SignedBy(Sign(f, a), n * One(f) + One(f))
  {
    hide Pow2, Low, Clear, AddMask, Magnitude, Scaled, Sign, Exp, Mant, One;
    n, t := ValueParts(f, a, k);
    ScaledIs(f, a);
    Cleared(f, a, k);
    ScaledIs(f, Clear(a, k));
    if t > 0 {
      Raised(f, a, k);
      ScaledIs(f, Clear(AddMask(a, k), k));
      NextMultiple(n, One(f));
    }
  }

  /** Ceil is exact for every finite number, keeps its sign, and so gives a zero of that sign. */
  lemma CeilExact(a: nat)
    requires Finite(F32, a)
    ensures Finite(F32, Ceil(a)) && Sign(F32, Ceil(a)) == Sign(F32, a)
    ensures Scaled(F32, Ceil(a)) == RoundUp(Scaled(F32, a), One(F32))
  {
    hide Pow2, Low, Clear, AddMask, Scaled, Exp, Mant, Magnitude, RoundUp, RoundDown, One, Sign;
    var e := Exp(F32, a);
    if e >= F32.bias + F32.p {
      WholeStays(F32, a);
    } else if e >= F32.bias {
      var n, t := Neighbours(F32, a, F32.p - (e - F32.bias));
      Rounding(n, One(F32), t);
    } else {
      SmallNumber(F32, a);
    }
  }

  lemma FloorExact(a: nat)
    requires Finite(F32, a)
    ensures Finite(F32, Floor(a)) && Sign(F32, Floor(a)) == Sign(F32, a)
    ensures Scaled(F32, Floor(a)) == RoundDown(Scaled(F32, a), One(F32))
  {
    hide Pow2, Low, Clear, AddMask, Scaled, Exp, Mant, Magnitude, RoundUp, RoundDown, One, Sign;
    var e := Exp(F32, a);
    if e >= F32.bias + F32.p {
      WholeStays(F32, a);
    } else if e >= F32.bias {
      var n, t := Neighbours(F32, a, F32.p - (e - F32.bias));
      Rounding(n, One(F32), t);
    } else {
      SmallNumber(F32, a);
    }
  }

  /** Numbers below 1: what they round to, and when they are zero. */
  lemma SmallNumber(f: Format, a: nat)
    requires IsFormat(f) && Finite(f, a) && Exp(f, a) < f.bias
    ensures Sign(f, a) < 2
    ensures RoundToZero(Scaled(f, a), One(f)) == 0
    ensures RoundUp(Scaled(f, a), One(f)) == if Sign(f, a) == 0 && a % f.sign != 0 then One(f) else 0
    ensures RoundDown(Scaled(f, a), One(f)) == if Sign(f, a) != 0 && a % f.sign != 0 then -(One(f) as int) else 0
    ensures a % f.sign == 0 ==> Scaled(f, a) == 0
    ensures Sign(F32, 0x3F80_0000) == Sign(F32, 0) == 0 && Sign(F32, 0xBF80_0000) == Sign(F32, 0x8000_0000) == 1
    ensures Finite(F32, 0x3F80_0000) && Finite(F32, 0) && Finite(F32, 0xBF80_0000) && Finite(F32, 0x8000_0000)
    ensures Scaled(F32, 0x3F80_0000) == One(F32) && Scaled(F32, 0xBF80_0000) == -(One(F32) as int)
    ensures Scaled(F32, 0) == Scaled(F32, 0x8000_0000) == 0
  {
    hide Pow2, Magnitude, RoundUp, RoundDown;
    Parts(f, a);
    var x := Magnitude(f, Exp(f, a), Mant(f, a));
    FractionOnly(f, Exp(f, a), Mant(f, a));
    Rounding(0, One(f), x);
    SmallResults();
    assert a % f.sign == Exp(f, a) * f.unit + Mant(f, a);
    Arena.MulSign(Exp(f, a), f.unit);
  }

  lemma NextMultiple(n: nat, one: nat)
    ensures (n + 1) * one == n * one + one
  {
  }

  /** The constants 1.0, -1.0, 0.0 and -0.0. */
  lemma SmallResults()
    ensures Finite(F32, 0x3F80_0000) && Sign(F32, 0x3F80_0000) == 0 && Scaled(F32, 0x3F80_0000) == One(F32)
    ensures Finite(F32, 0xBF80_0000) && Sign(F32, 0xBF80_0000) == 1 && Scaled(F32, 0xBF80_0000) == -(One(F32) as int)
    ensures Finite(F32, 0x8000_0000) && Sign(F32, 0x8000_0000) == 1 && Scaled(F32, 0x8000_0000) == 0
    ensures Finite(F32, 0) && Sign(F32, 0) == 0 && Scaled(F32, 0) == 0
  {
    hide Pow2;
    UnitPower(F32);
    Pow2Add(23, 126);
  }

  /** Trunc is exact for both formats. */
  lemma TruncExact(f: Format, a: nat)
    requires IsFormat(f) && Finite(f, a)
    ensures Finite(f, Trunc(f, a)) && Sign(f, Trunc(f, a)) == Sign(f, a)
    ensures Scaled(f, Trunc(f, a)) == RoundToZero(Scaled(f, a), One(f))
  {
    hide Pow2, Low, AddMask, Scaled, Exp, Mant, Magnitude, RoundUp, RoundDown, One, Sign;
    var e := Exp(f, a);
    if e >= f.bias + f.p {
      WholeStays(f, a);
    } else if e >= f.bias {
      var n, t := Neighbours(f, a, f.p - (e - f.bias));
      Rounding(n, One(f), t);
      Arena.MulSign(n, One(f));
    } else {
      SmallNumber(f, a);
      OnlySign(f, a);
    }
  }

  /** A mask of all bits but the sign leaves a zero of that sign. */
  lemma OnlySign(f: Format, a: nat)
    requires IsFormat(f) && a < 2 * f.sign
    ensures
      var b := Clear(a, f.width - 1);
      b == Sign(f, a) * f.sign && Finite(f, b) && Sign(f, b) == Sign(f, a) && Scaled(f, b) == 0
  {
    hide Pow2;
    UnitPower(f);
    Parts(f, a);
    Fields(f, Sign(f, a), 0, 0);
    assert a == a / f.sign * f.sign + a % f.sign;
  }

  lemma ExponentOrders(f: Format, e: nat, m: nat, e': nat, m': nat)
    requires IsFormat(f) && m < f.unit && e < e'
    ensures Magnitude(f, e, m) < Magnitude(f, e', m')
  {
    hide Pow2;
    var v: Positive := Pow2(e' - 1);
    Arena.MulSign(f.unit + m' - f.unit, v);
    assert (f.unit + m' - f.unit) * v == (f.unit + m') * v - f.unit * v;
    if e == 0 {
      Arena.MulSign(f.unit, v);
      Arena.MulSign(v - 1, f.unit);
      assert (v - 1) * f.unit == f.unit * v - f.unit;
    } else {
      var u: Positive := Pow2(e - 1);
      Pow2Grows(e, e' - 1);
      Pow2Next(e - 1);
      Arena.MulSign(2 * f.unit - (f.unit + m), u);
      assert (2 * f.unit - (f.unit + m)) * u == f.unit * (2 * u) - (f.unit + m) * u;
      Arena.MulSign(v - 2 * u, f.unit);
      assert (v - 2 * u) * f.unit == f.unit * v - f.unit * (2 * u);
    }
  }

  /** A finite number is the only encoding of its value and sign, so exactness says which bits the
      functions above return. */
  lemma EncodingUnique(f: Format, a: nat, b: nat)
    requires IsFormat(f) && Finite(f, a) && Finite(f, b)
    requires Sign(f, a) == Sign(f, b) && Scaled(f, a) == Scaled(f, b)
    ensures a == b
  {
    hide Pow2, Magnitude, Sign, Exp, Mant;
    Parts(f, a);
    Parts(f, b);
    ScaledIs(f, a);
    ScaledIs(f, b);
    var e, m, e', m' := Exp(f, a), Mant(f, a), Exp(f, b), Mant(f, b);
    if e < e' {
      ExponentOrders(f, e, m, e', m');
    } else if e' < e {
      ExponentOrders(f, e', m', e, m);
    } else {
      SameExponent(f, e, m, m');
    }
  }

  lemma SameExponent(f: Format, e: nat, m: nat, m': nat)
    requires Magnitude(f, e, m) == Magnitude(f, e, m')
    ensures m == m'
  {
    if e > 0 {
      var v: Positive := Pow2(e - 1);
      assert (m - m') * v == (f.unit + m) * v - (f.unit + m') * v;
      Arena.MulSign(m - m', v);
    }
  }
}

/** Powers of two, as shifts and masks use them. */
module Powers {

  function Pow2(n: nat): (r: nat)
    ensures r > 0
  {
    if n == 0 then 1 else 2 * Pow2(n - 1)
  }

  lemma Pow2Seven(n: nat)
    requires n >= 7
    ensures Pow2(n) == 128 * Pow2(n - 7)
  {
    assert Pow2(n) == 2 * Pow2(n - 1) == 4 * Pow2(n - 2) == 8 * Pow2(n - 3);
    assert Pow2(n - 3) == 2 * Pow2(n - 4) == 4 * Pow2(n - 5) == 8 * Pow2(n - 6);
  }

  lemma {:induction false} Pow2Grows(i: nat, j: nat)
    requires i <= j
    ensures Pow2(i) <= Pow2(j)
    decreases j
  {
    if i < j {
      Pow2Grows(i, j - 1);
    }
  }

  lemma Pow2Values()
    ensures Pow2(0) == 1 && Pow2(3) == 8 && Pow2(4) == 16 && Pow2(6) == 64 && Pow2(7) == 128
    ensures Pow2(31) == 0x8000_0000 && Pow2(32) == 0x1_0000_0000
    ensures Pow2(63) == 0x8000_0000_0000_0000 && Pow2(64) == 0x1_0000_0000_0000_0000
  {
    Pow2Seven(10);
    Pow2Seven(17);
    Pow2Seven(24);
    Pow2Seven(31);
    Pow2Seven(38);
    Pow2Seven(45);
    Pow2Seven(52);
    Pow2Seven(59);
  }

  lemma {:induction false} Pow2Add(i: nat, j: nat)
    ensures Pow2(i) * Pow2(j) == Pow2(i + j)
    decreases j
  {
    if j > 0 {
      Pow2Add(i, j - 1);
      assert Pow2(i) * Pow2(j) == 2 * (Pow2(i) * Pow2(j - 1));
    }
  }
}

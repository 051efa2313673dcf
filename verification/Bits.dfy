/** Bitwise and on naturals, powers of two, and what masking with them means. */
module Bits {
  import opened Types

  function And(a: nat, b: nat): nat {
    if a == 0 || b == 0 then 0 else 2 * And(a / 2, b / 2) + (a % 2) * (b % 2)
  }

  function Pow2(k: nat): (r: nat)
    ensures r > 0
  {
    if k == 0 then 1 else 2 * Pow2(k - 1)
  }

  /** Masking with 2^k - 1 is reducing modulo 2^k. */
  lemma {:induction false} AndMask(x: nat, k: nat)
    ensures And(x, Pow2(k) - 1) == x % Pow2(k)
    decreases k
  {
    if k > 0 {
      AndStep(x, Pow2(k - 1));
      AndMask(x / 2, k - 1);
      hide And;
      HalfMod(x, Pow2(k - 1));
    }
  }

  lemma AndStep(x: nat, m: nat)
    requires m > 0
    ensures And(x, 2 * m - 1) == 2 * And(x / 2, m - 1) + x % 2
  {
    assert (2 * m - 1) / 2 == m - 1 && (2 * m - 1) % 2 == 1;
  }

  lemma HalfMod(x: nat, m: nat)
    requires m > 0
    ensures x % (2 * m) == 2 * ((x / 2) % m) + x % 2
  {
    var q := (x / 2) / m;
    var r := (x / 2) % m;
    assert x / 2 == q * m + r;
    assert x == (2 * m) * q + (2 * r + x % 2);
    DivUnique(x, 2 * m, q, 2 * r + x % 2);
  }

  lemma DivUnique(x: int, m: int, q: int, r: int)
    requires m > 0 && 0 <= r < m && x == m * q + r
    ensures x % m == r && x / m == q
  {
    var q' := x / m;
    assert m * (q' - q) == r - x % m;
    if q' != q {
      MulLarge(m, q' - q);
    }
  }

  /** Whole words added do not change a word. */
  lemma WordShift(x: int, k: int)
    ensures (x + k * TWO64) % TWO64 == x % TWO64
  {
    DivUnique(x + k * TWO64, TWO64, x / TWO64 + k, x % TWO64);
  }

  lemma MulLarge(m: int, d: int)
    requires m > 0 && d != 0
    ensures m * d >= m || m * d <= -m
  {
    if d > 0 {
      MulNonNegative(m, d - 1);
      assert m * d == m + m * (d - 1);
    } else {
      MulNonNegative(m, -d - 1);
      assert m * d == -m - m * (-d - 1);
    }
  }

  lemma MulNonNegative(a: int, b: int)
    requires a >= 0 && b >= 0
    ensures a * b >= 0
  {
  }

  // ---------------------------------------------------------------- record alignment

  /** Round up to a multiple of 8 by masking with the complement of 7 in a 64-bit word. */
  function AlignUp(n: nat): nat {
    And(n + 7, TWO64 - 1 - 7)
  }

  lemma {:induction false} AndHigh(x: nat, k: nat)
    requires x < Pow2(k)
    ensures And(x, Pow2(k) - 1) == x
  {
    hide And, Pow2;
    AndMask(x, k);
    SmallMod(x, Pow2(k));
  }

  lemma SmallMod(x: nat, m: nat)
    requires x < m
    ensures x % m == x
  {
  }

  /** Dropping the three low bits. */
  lemma AndDrop3(x: nat, m: nat)
    ensures And(x, 8 * m) == 8 * And(x / 8, m)
  {
    assert x / 2 / 2 / 2 == x / 8;
    AndEven(x, 4 * m);
    AndEven(x / 2, 2 * m);
    AndEven(x / 2 / 2, m);
  }

  lemma AndEven(x: nat, m: nat)
    ensures And(x, 2 * m) == 2 * And(x / 2, m)
  {
    var n := 2 * m;
    assert n / 2 == m && n % 2 == 0;
    if x != 0 && n != 0 {
      assert And(x, n) == 2 * And(x / 2, n / 2) + (x % 2) * (n % 2);
    }
  }

  lemma Pow2Of61()
    ensures Pow2(61) == 0x2000_0000_0000_0000
  {
    assert Pow2(5) == 32;
    assert Pow2(10) == 0x400 by { Pow2Add(5, 5); }
    assert Pow2(20) == 0x10_0000 by { Pow2Add(10, 10); }
    assert Pow2(40) == 0x100_0000_0000 by { Pow2Add(20, 20); }
    assert Pow2(60) == 0x1000_0000_0000_0000 by { Pow2Add(40, 20); }
    assert Pow2(61) == 2 * Pow2(60);
  }

  lemma {:induction false} Pow2Add(a: nat, b: nat)
    ensures Pow2(a + b) == Pow2(a) * Pow2(b)
    decreases b
  {
    if b > 0 {
      Pow2Add(a, b - 1);
      DoubleProduct(Pow2(a), Pow2(b - 1));
    }
  }

  lemma DoubleProduct(x: nat, y: nat)
    ensures x * (2 * y) == 2 * (x * y)
  {
  }

  /** The masked form computes the next multiple of 8 wherever the sum stays in a word. */
  lemma AlignUpIs(n: nat)
    requires n + 7 < TWO64
    ensures AlignUp(n) == (n + 7) / 8 * 8
    ensures n <= AlignUp(n) < n + 8 && AlignUp(n) % 8 == 0
  {
    Pow2Of61();
    var x := n + 7;
    AndDrop3(x, 0x1FFF_FFFF_FFFF_FFFF);
    AndHigh(x / 8, 61);
    assert AlignUp(n) == 8 * (x / 8);
  }
}

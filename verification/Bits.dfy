/** Bitwise operators on unbounded naturals, and the two facts the C++ code relies on:
    masking with a power of two minus one is a remainder, and or-ing disjoint bit fields is a sum. */
module Bits {

  function Pow2(k: nat): (p: nat)
    ensures p >= 1
  {
    if k == 0 then 1 else 2 * Pow2(k - 1)
  }

  function And(x: nat, y: nat): nat {
    if x == 0 || y == 0 then 0
    else (if x % 2 == 1 && y % 2 == 1 then 1 else 0) + 2 * And(x / 2, y / 2)
  }

  function Or(x: nat, y: nat): nat {
    if x == 0 then y else if y == 0 then x
    else (if x % 2 == 1 || y % 2 == 1 then 1 else 0) + 2 * Or(x / 2, y / 2)
  }

  lemma HalveMod(x: nat, m: nat)
    requires m >= 1
    ensures x % (2 * m) == x % 2 + 2 * ((x / 2) % m)
  {
    var q, r := (x / 2) / m, (x / 2) % m;
    assert x / 2 == m * q + r;
    assert x == (2 * m) * q + (2 * r + x % 2);
    DivModUnique(x, 2 * m, q, 2 * r + x % 2);
  }

  lemma DivModUnique(x: int, m: int, q: int, r: int)
    requires m > 0 && 0 <= r < m && x == m * q + r
    ensures x / m == q && x % m == r
  {
    var e := x / m - q;
    assert m * e == r - x % m;
    assert e >= 1 ==> m * e >= m;
    assert e <= -1 ==> m * e <= -m;
  }

  /** Remainders are distinct within a window no longer than the modulus. */
  lemma ModsDiffer(i: nat, j: nat, m: nat)
    requires i < j < i + m
    ensures i % m != j % m
  {
    var q, r := i / m, i % m;
    assert i == m * q + r;
    if r + (j - i) < m {
      DivModUnique(j, m, q, r + (j - i));
    } else {
      assert m * (q + 1) == m * q + m;
      DivModUnique(j, m, q + 1, r + (j - i) - m);
    }
  }

  /** Reducing by a multiple of the modulus first changes nothing. */
  lemma ModOfMultiple(x: nat, m: nat, q: nat)
    requires m > 0 && q > 0
    ensures m * q > 0 && (x % (m * q)) % m == x % m
  {
    var n := m * q;
    assert n >= m;
    var y, k := x % n, x / n;
    assert n * k == m * (q * k);
    assert m * (q * k) + m * (y / m) == m * (q * k + y / m);
    DivModUnique(x, m, q * k + y / m, y % m);
  }

  lemma Doubled(p: nat, p': nat, q: nat, r: nat)
    requires p' == 2 * p && r == p * q
    ensures 2 * r == p' * q
  {
  }

  lemma {:induction false} Pow2Splits(a: nat, b: nat)
    requires a <= b
    ensures Pow2(b) == Pow2(a) * Pow2(b - a)
  {
    if a > 0 {
      Pow2Splits(a - 1, b - 1);
      Doubled(Pow2(a - 1), Pow2(a), Pow2(b - a), Pow2(b - 1));
    }
  }

  /** The lowest bit of a mask of ones. */
  lemma AndOnes(x: nat, m: nat)
    requires m >= 1
    ensures And(x, 2 * m - 1) == x % 2 + 2 * And(x / 2, m - 1)
  {
    var y := 2 * m - 1;
    assert y / 2 == m - 1 && y % 2 == 1;
  }

  lemma MaskOfOne(x: nat, n: nat)
    requires n == 1
    ensures Masks(x, n)
  {
  }

  lemma MaskStep(x: nat, m: nat, n: nat)
    requires m >= 1 && n == 2 * m && Masks(x / 2, m)
    ensures Masks(x, n)
  {
    AndOnes(x, m);
    HalveMod(x, m);
  }

  ghost predicate Masks(x: nat, n: nat)
    requires n >= 1
  {
    And(x, n - 1) == x % n
  }

  lemma {:induction false} PowersMask(x: nat, k: nat)
    ensures Masks(x, Pow2(k))
  {
    if k == 0 {
      MaskOfOne(x, Pow2(0));
    } else {
      PowersMask(x / 2, k - 1);
      MaskStep(x, Pow2(k - 1), Pow2(k));
    }
  }

  /** `x & (2^k - 1)` is `x mod 2^k`, for every x and k. */
  lemma MaskIsMod(x: nat, k: nat)
    ensures And(x, Pow2(k) - 1) == x % Pow2(k)
  {
    PowersMask(x, k);
  }

  /** `(x << k) | y` is `x * 2^k + y` when y fits in k bits. */
  lemma {:induction false} OrIsSum(x: nat, k: nat, y: nat)
    requires y < Pow2(k)
    ensures Or(x * Pow2(k), y) == x * Pow2(k) + y
  {
    if k > 0 && x > 0 && y > 0 {
      var m := Pow2(k - 1);
      assert x * Pow2(k) == 2 * (x * m);
      OrIsSum(x, k - 1, y / 2);
    }
  }
}

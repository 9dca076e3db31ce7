/** Powers of two and quotients, for the arithmetic of machine words read as integers. */
module Powers {

  const TWO_TO_THE_32 := 0x1_0000_0000
  const TWO_TO_THE_64 := 0x1_0000_0000_0000_0000

  function Pow2(n: nat): (p: nat)
    ensures p >= 1
  {
    if n == 0 then 1 else 2 * Pow2(n - 1)
  }

  lemma {:induction false} Pow2Sum(m: nat, n: nat)
    ensures Pow2(m + n) == Pow2(m) * Pow2(n)
  {
    if n > 0 {
      Pow2Sum(m, n - 1);
      Rearrange(Pow2(m), Pow2(n - 1));
    }
  }

  lemma Rearrange(x: int, y: int)
    ensures 2 * (x * y) == x * (2 * y)
  {
  }

  lemma {:induction false} Pow2Grows(m: nat, n: nat)
    requires m <= n
    ensures Pow2(m) <= Pow2(n)
    decreases n - m
  {
    if m < n {
      Pow2Grows(m, n - 1);
    }
  }

  lemma Pow2Positive(n: nat)
    requires n > 0
    ensures Pow2(n) == 2 * Pow2(n - 1)
  {
  }

  lemma Pow2Square(n: nat, p: nat)
    requires Pow2(n) == p
    ensures Pow2(2 * n) == p * p
  {
    Pow2Sum(n, n);
  }

  lemma Pow2Of64()
    ensures Pow2(64) == TWO_TO_THE_64
  {
    assert Pow2(4) == 0x10;
    hide Pow2;
    Pow2Square(4, 0x10);
    Pow2Square(8, 0x100);
    Pow2Square(16, 0x1_0000);
    Pow2Square(32, 0x1_0000_0000);
  }

  // The number of bits up to the highest one set.
  function BitWidth(n: nat): (w: nat)
    ensures n < Pow2(w) && (n > 0 ==> w > 0 && Pow2(w - 1) <= n)
  {
    if n == 0 then 0 else 1 + BitWidth(n / 2)
  }

  lemma BitWidthOfWord(n: nat)
    requires n < TWO_TO_THE_64
    ensures BitWidth(n) <= 64
  {
    Pow2Of64();
    if BitWidth(n) > 64 {
      Pow2Grows(64, BitWidth(n) - 1);
    }
  }

  lemma TimesAtMost(x: int, y: int, z: nat)
    requires x <= y
    ensures x * z <= y * z
  {
  }

  lemma Scales(a: int, b: int, k: nat)
    requires a < b && k > 0
    ensures a * k < b * k
  {
  }

  lemma NextMultiple(i: int, k: int, d: nat)
    requires i < k
    ensures i * d + d <= k * d
  {
    TimesAtMost(i + 1, k, d);
    assert (i + 1) * d == i * d + d;
  }

  lemma DivideAtMost(n: nat, d: nat)
    requires d > 0
    ensures 0 <= n / d <= n
  {
    if n / d > n {
      TimesAtMost(1, d, n / d);
    }
  }

  lemma QuotientIs(n: int, d: nat, q: int, r: nat)
    requires n == q * d + r && r < d
    ensures n / d == q && n % d == r
  {
    if n / d < q {
      NextMultiple(n / d, q, d);
    } else if n / d > q {
      NextMultiple(q, n / d, d);
    }
  }

  lemma QuotientBelow(x: nat, a: nat, b: nat)
    requires b > 0 && x < a * b
    ensures x / b < a
  {
    if x / b >= a {
      TimesAtMost(a, x / b, b);
    }
  }

  lemma QuotientAtLeast(n: nat, d: nat, q: nat)
    requires d > 0 && q * d <= n
    ensures q <= n / d
  {
    if n / d < q {
      NextMultiple(n / d, q, d);
    }
  }

  lemma QuotientBetween(n: nat, d: nat, low: nat, high: nat)
    requires d > 0 && low <= n / d < high
    ensures low * d <= n < high * d
  {
    TimesAtMost(low, n / d, d);
    NextMultiple(n / d, high, d);
  }

  // --- Or, on numbers --------------------------------------------------------------------------------------

  // Bit by bit, from the lowest.
  function BitOr(x: nat, y: nat): nat {
    if x == 0 && y == 0 then 0
    else (if x % 2 == 1 || y % 2 == 1 then 1 else 0) + 2 * BitOr(x / 2, y / 2)
  }

  lemma {:induction false} OrWithZero(x: nat)
    ensures BitOr(x, 0) == x
  {
    if x > 0 {
      OrWithZero(x / 2);
    }
  }

  lemma {:induction false} OrCommutes(x: nat, y: nat)
    ensures BitOr(x, y) == BitOr(y, x)
  {
    if x > 0 || y > 0 {
      OrCommutes(x / 2, y / 2);
    }
  }

  // Without a common bit, or is plus.
  lemma {:induction false} OrIsSum(high: nat, low: nat, k: nat)
    requires low < Pow2(k)
    ensures BitOr(high * Pow2(k), low) == high * Pow2(k) + low
    ensures BitOr(low, high * Pow2(k)) == high * Pow2(k) + low
  {
    hide BitOr;
    OrCommutes(high * Pow2(k), low);
    if k == 0 {
      OrWithZero(high);
    } else {
      Rearrange(high, Pow2(k - 1));
      OrIsSum(high, low / 2, k - 1);
      OrDoubled(high * Pow2(k - 1), low);
    }
  }

  lemma OrDoubled(x: nat, y: nat)
    ensures BitOr(2 * x, y) == 2 * BitOr(x, y / 2) + y % 2
  {
  }

  // The highest bit of an or is set exactly when that of an operand is.
  lemma {:induction false} OrHighBit(x: nat, y: nat, k: nat)
    requires x < Pow2(k + 1) && y < Pow2(k + 1)
    ensures BitOr(x, y) < Pow2(k + 1) && (BitOr(x, y) >= Pow2(k) <==> x >= Pow2(k) || y >= Pow2(k))
  {
    if k == 0 {
      assert x < 2 && y < 2;
    } else {
      OrHighBit(x / 2, y / 2, k - 1);
    }
  }
}

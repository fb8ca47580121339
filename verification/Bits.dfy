/** Bitwise `and` on naturals, powers of two and 64-bit wrap-around. */
module Bits {
  const WORD: nat := 0x1_0000_0000_0000_0000
  const HALF_WORD: int := 0x8000_0000_0000_0000

  function Pow2(k: nat): (r: nat)
    ensures r > 0
  {
    if k == 0 then 1 else 2 * Pow2(k - 1)
  }

  function BitAnd(x: nat, y: nat): nat
    decreases x
  {
    if x == 0 || y == 0 then 0 else 2 * BitAnd(x / 2, y / 2) + (x % 2) * (y % 2)
  }

  lemma DivUnique(p: int, q: int, r: int, m: int)
    requires p == q * m + r && 0 <= r < m
    ensures p / m == q && p % m == r
  {
    var q', r' := p / m, p % m;
    assert p == q' * m + r';
    if q < q' { Gap(q, q', m); }
    if q' < q { Gap(q', q, m); }
  }

  lemma Gap(a: int, b: int, m: int)
    requires 0 < m && a < b
    ensures a * m + m <= b * m
  {
    var d := b - a - 1;
    NonNegative(d, m);
    assert (a + 1 + d) * m == a * m + m + d * m;
  }

  lemma NonNegative(d: int, m: int)
    requires 0 <= d && 0 < m
    ensures 0 <= d * m
  { }

  lemma {:induction false} Pow2Add(a: nat, b: nat)
    ensures Pow2(a + b) == Pow2(a) * Pow2(b)
    decreases a
  {
    if a > 0 { Pow2Add(a - 1, b); }
  }

  lemma WordIsPow2()
    ensures Pow2(64) == WORD && Pow2(63) == HALF_WORD
  {
    assert Pow2(8) == 0x100;
    Pow2Add(8, 8);
    Pow2Add(16, 16);
    Pow2Add(32, 32);
  }

  lemma HalveRemainder(x: nat, half: nat)
    requires half > 0
    ensures x % (2 * half) == 2 * ((x / 2) % half) + x % 2
  {
    var q, r := (x / 2) / half, (x / 2) % half;
    calc {
      x;
      2 * (q * half + r) + x % 2;
      q * (2 * half) + (2 * r + x % 2);
    }
    DivUnique(x, q, 2 * r + x % 2, 2 * half);
  }

  /** Masking with `2^k - 1` keeps the remainder. */
  lemma {:induction false} BitAndMask(x: nat, k: nat)
    ensures BitAnd(x, Pow2(k) - 1) == x % Pow2(k)
    decreases k
  {
    if k > 0 {
      var half := Pow2(k - 1);
      HalveRemainder(x, half);
      BitAndMask(x / 2, k - 1);
      HalveMask(x, half);
    } else {
      DivUnique(x, x, 0, 1);
    }
  }

  lemma HalveMask(x: nat, half: nat)
    requires half > 0
    ensures BitAnd(x, 2 * half - 1) == 2 * BitAnd(x / 2, half - 1) + x % 2
  {
    assert (2 * half - 1) / 2 == half - 1 && (2 * half - 1) % 2 == 1;
  }

  lemma {:induction false} BitAndSelf(x: nat)
    ensures BitAnd(x, x) == x
    decreases x
  {
    if x > 0 { BitAndSelf(x / 2); }
  }

  ghost predicate IsPow2(c: nat) { exists k: nat :: c == Pow2(k) }

  /** The usual test: `c & (c - 1)` is zero exactly for the powers of two. */
  lemma {:induction false} PowerOfTwoTest(c: nat)
    requires c > 0
    ensures BitAnd(c, c - 1) == 0 <==> IsPow2(c)
    decreases c
  {
    if c == 1 {
      assert c == Pow2(0);
    } else if c % 2 == 1 {
      assert (c - 1) / 2 == c / 2;
      BitAndSelf(c / 2);
      forall k: nat ensures c != Pow2(k) { }
    } else {
      assert (c - 1) / 2 == c / 2 - 1 && (c - 1) % 2 == 1;
      PowerOfTwoTest(c / 2);
      if IsPow2(c / 2) {
        var k: nat :| c / 2 == Pow2(k);
        assert c == Pow2(k + 1);
      }
      if IsPow2(c) {
        var k: nat :| c == Pow2(k);
        assert c / 2 == Pow2(k - 1);
      }
    }
  }

  /** Unsigned 64-bit subtraction. */
  function Sub(a: nat, b: nat): (d: nat)
    ensures d < WORD
  {
    (a - b) % WORD
  }

  /** A 64-bit word read as a two's-complement integer. */
  function Signed(x: nat): int { if x < HALF_WORD then x else x - WORD }

  lemma SubOfWrapped(a: nat, b: nat)
    ensures Sub(a % WORD, b % WORD) == (a - b) % WORD
  {
    var qa, qb := a / WORD, b / WORD;
    var x := a % WORD - b % WORD;
    assert a - b == (qa - qb + x / WORD) * WORD + x % WORD;
    DivUnique(a - b, qa - qb + x / WORD, x % WORD, WORD);
  }

  /** Subtracting wrapped counters and reading the result as signed recovers the true difference exactly when that
      difference fits. */
  lemma SignedDifference(a: nat, b: nat)
    ensures Signed(Sub(a % WORD, b % WORD)) == a - b <==> -HALF_WORD <= a - b < HALF_WORD
  {
    SubOfWrapped(a, b);
    if 0 <= a - b < HALF_WORD {
      DivUnique(a - b, 0, a - b, WORD);
    } else if -HALF_WORD <= a - b < 0 {
      DivUnique(a - b, -1, a - b + WORD, WORD);
    }
  }

  lemma WrapSucc(p: nat, n: nat)
    ensures (p % WORD + n) % WORD == (p + n) % WORD
  {
    var x := p % WORD + n;
    assert p + n == (p / WORD + x / WORD) * WORD + x % WORD;
    DivUnique(p + n, p / WORD + x / WORD, x % WORD, WORD);
  }

  lemma WrapEqual(a: nat, b: nat)
    ensures b <= a < b + WORD ==> (a % WORD == b % WORD <==> a == b)
  {
    if a % WORD == b % WORD {
      assert a - b == (a / WORD - b / WORD) * WORD;
    }
  }

  /** The remainder by a divisor of the word size survives wrapping. */
  lemma ModModWord(p: nat, c: nat, d: nat)
    requires c * d == WORD && 0 < c
    ensures (p % WORD) % c == p % c
  {
    var x, q := p % WORD, p / WORD;
    calc {
      p;
      q * (c * d) + (x / c) * c + x % c;
      (q * d + x / c) * c + x % c;
    }
    DivUnique(p, q * d + x / c, x % c, c);
  }

  /** A slot index is the same whether the ticket has wrapped or not. */
  lemma MaskOfWrapped(p: nat, k: nat)
    requires k <= 64
    ensures BitAnd(p % WORD, Pow2(k) - 1) == p % Pow2(k)
  {
    WordIsPow2();
    Pow2Add(k, 64 - k);
    BitAndMask(p % WORD, k);
    ModModWord(p, Pow2(k), Pow2(64 - k));
  }
}

/** Remainders of integers: the facts about products and powers that the field and the primality
    certificates rest on. */
module Modular {

  /** The quotient and remainder of x are the only ones. */
  lemma DivModUnique(x: int, q: int, r: int, n: int)
    requires n > 0 && x == q * n + r && 0 <= r < n
    ensures x / n == q && x % n == r
  {
    var d := q - x / n;
    assert x == n * (x / n) + x % n;
    assert d * n == x % n - r by {
      assert (q - x / n) * n == q * n - x / n * n;
    }
    assert d >= 1 ==> d * n >= n;
    assert d <= -1 ==> d * n <= -n;
  }

  lemma AddMultiple(x: int, k: int, n: int)
    requires n > 0
    ensures (x + k * n) % n == x % n
  {
    var q := x / n;
    assert (q + k) * n == q * n + k * n;
    DivModUnique(x + k * n, q + k, x % n, n);
  }

  /** x and y leave the same remainder exactly when n divides their difference. */
  lemma SameRemainder(x: int, y: int, n: int)
    requires n > 0
    ensures x % n == y % n <==> (x - y) % n == 0
  {
    if x % n == y % n {
      var k := x / n - y / n;
      assert x - y == k * n by {
        assert (x / n - y / n) * n == x / n * n - y / n * n;
      }
      DivModUnique(x - y, k, 0, n);
    }
    if (x - y) % n == 0 {
      var k := (x - y) / n;
      assert x == y + k * n;
      AddMultiple(y, k, n);
    }
  }

  lemma LeftRemainder(x: int, y: int, n: int)
    requires n > 0
    ensures (x * y) % n == ((x % n) * y) % n
  {
    var q, r := x / n, x % n;
    assert x * y == r * y + (q * y) * n by {
      assert (q * n + r) * y == q * n * y + r * y;
      assert q * n * y == (q * y) * n;
    }
    AddMultiple(r * y, q * y, n);
  }

  lemma RightRemainder(x: int, y: int, n: int)
    requires n > 0
    ensures (x * y) % n == (x * (y % n)) % n
  {
    LeftRemainder(y, x, n);
    assert x * y == y * x && x * (y % n) == (y % n) * x;
  }

  lemma AddRemainder(x: int, y: int, n: int)
    requires n > 0
    ensures (x + y) % n == (x % n + y) % n
    ensures (x + y) % n == (x % n + y % n) % n
  {
    var p, q, u, v := x / n, y / n, x % n, y % n;
    assert x + y == (u + y) + p * n;
    AddMultiple(u + y, p, n);
    assert u + y == (u + v) + q * n;
    AddMultiple(u + v, q, n);
  }

  /** A divisor of a divisor divides, and multiples of a multiple are multiples. */
  lemma DividesThrough(x: int, n: int, r: int)
    requires n > 0 && r > 0 && n % r == 0
    ensures (x % n) % r == x % r
  {
    var q, k := x / n, n / r;
    assert q * n == (q * k) * r by {
      assert n == k * r;
      Associate(q, k, r);
    }
    AddMultiple(x % n, q * k, r);
    assert x == x % n + q * n;
  }

  lemma Associate(x: int, y: int, z: int)
    ensures x * (y * z) == (x * y) * z
  {
  }

  // ---------- Powers ----------

  function Times(x: int, y: int, n: int): (z: nat)
    requires n > 0
    ensures z < n
  {
    (x * y) % n
  }

  function PowMod(b: int, e: nat, n: nat): (v: nat)
    requires n > 0
    ensures v < n
  {
    if e == 0 then 1 % n else Times(b, PowMod(b, e - 1, n), n)
  }

  lemma TimesLaws(x: int, y: int, z: int, n: int)
    requires n > 0
    ensures Times(x, y, n) == Times(y, x, n)
    ensures Times(x, Times(y, z, n), n) == Times(Times(x, y, n), z, n)
    ensures Times(1, x, n) == x % n == Times(1 % n, x, n)
    ensures Times(x % n, y, n) == Times(x, y, n) == Times(x, y % n, n)
  {
    assert x * y == y * x && 1 * x == x;
    RightRemainder(x, y * z, n);
    LeftRemainder(x * y, z, n);
    assert x * (y * z) == (x * y) * z;
    LeftRemainder(1, x, n);
    LeftRemainder(x, y, n);
    RightRemainder(x, y, n);
  }

  lemma {:induction false} PowModAdd(b: int, i: nat, j: nat, n: nat)
    requires n > 0
    ensures PowMod(b, i + j, n) == Times(PowMod(b, i, n), PowMod(b, j, n), n)
  {
    if i == 0 {
      TimesLaws(PowMod(b, j, n), 0, 0, n);
      SmallRemainder(PowMod(b, j, n), n);
    } else {
      PowModAdd(b, i - 1, j, n);
      TimesLaws(b, PowMod(b, i - 1, n), PowMod(b, j, n), n);
    }
  }

  lemma SmallRemainder(x: int, n: int)
    requires 0 <= x < n
    ensures x % n == x
  {
    DivModUnique(x, 0, x, n);
  }

  /** Powers modulo n reduce to powers modulo any divisor of n. */
  lemma {:induction false} PowModDivisor(b: int, e: nat, n: nat, r: nat)
    requires n > 0 && r > 0 && n % r == 0
    ensures PowMod(b, e, n) % r == PowMod(b, e, r)
  {
    if e == 0 {
      DividesThrough(1, n, r);
    } else {
      PowModDivisor(b, e - 1, n, r);
      DividesThrough(b * PowMod(b, e - 1, n), n, r);
      TimesLaws(b, PowMod(b, e - 1, n), 0, r);
    }
  }
}

/** Certificates that a number has no small divisor: if b has multiplicative order exactly q modulo
    n, for a prime q, and b - 1 is invertible, then the q powers of b stay distinct and non-zero
    modulo every divisor r > 1 of n, so r exceeds q. */
module Primality {
  import opened Modular

  ghost predicate Prime(q: nat) {
    q > 1 && forall d: nat :: 0 < d && q % d == 0 ==> d == 1 || d == q
  }

  lemma SumDivisible(x: int, y: int, d: int)
    requires d > 0 && x % d == 0 && y % d == 0
    ensures (x + y) % d == 0
  {
    AddRemainder(x, y, d);
  }

  lemma {:induction false} CommonExponent(b: int, x: nat, y: nat, r: nat) returns (d: nat)
    requires r > 1 && x > 0 && y > 0
    requires PowMod(b, x, r) == 1 && PowMod(b, y, r) == 1
    ensures d > 0 && x % d == 0 && y % d == 0 && PowMod(b, d, r) == 1
    decreases x + y
  {
    if x == y {
      d := x;
    } else if x > y {
      CancelPower(b, x - y, y, r);
      d := CommonExponent(b, x - y, y, r);
      SumDivisible(x - y, y, d);
    } else {
      CancelPower(b, y - x, x, r);
      d := CommonExponent(b, x, y - x, r);
      SumDivisible(y - x, x, d);
    }
  }

  /** A factor that is 1 can be left out. */
  lemma CancelPower(b: int, i: nat, j: nat, r: nat)
    requires r > 1 && PowMod(b, j, r) == 1
    ensures PowMod(b, i + j, r) == PowMod(b, i, r)
  {
    PowModAdd(b, i, j, r);
    TimesLaws(1, PowMod(b, i, r), 0, r);
    SmallRemainder(PowMod(b, i, r), r);
  }

  lemma DivisorAtMost(d: nat, x: nat)
    requires d > 0 && x > 0 && x % d == 0
    ensures d <= x
  {
    if d > x {
      SmallRemainder(x, d);
    }
  }

  /** b - 1 is not a multiple of r when it has an inverse modulo a multiple n of r. */
  lemma NotOneModulo(b: nat, inverse: nat, n: nat, r: nat)
    requires n > 1 && r > 1 && n % r == 0 && ((b - 1) * inverse) % n == 1
    ensures PowMod(b, 1, r) != 1
  {
    TimesLaws(b, 0, 0, r);
    if PowMod(b, 1, r) == 1 {
      assert PowMod(b, 1, r) == Times(b, 1 % r, r) == Times(1, b, r) by {
        TimesLaws(b, 1, 0, r);
      }
      TimesLaws(1, b, 0, r);
      SmallRemainder(1, r);
      SameRemainder(b, 1, r);
      LeftRemainder(b - 1, inverse, r);
      DividesThrough((b - 1) * inverse, n, r);
    }
  }

  lemma OrderExactly(b: nat, inverse: nat, n: nat, q: nat, r: nat, i: nat)
    requires n > 1 && Prime(q) && PowMod(b, q, n) == 1 && ((b - 1) * inverse) % n == 1
    requires r > 1 && n % r == 0 && 0 < i < q
    ensures PowMod(b, q, r) == 1 && PowMod(b, i, r) != 1
  {
    PowModDivisor(b, q, n, r);
    SmallRemainder(1, r);
    if PowMod(b, i, r) == 1 {
      var d := CommonExponent(b, i, q, r);
      DivisorAtMost(d, i);
      NotOneModulo(b, inverse, n, r);
    }
  }

  // ---------- The powers below the order are distinct and non-zero ----------

  function Powers(b: int, k: nat, r: nat): set<int>
    requires r > 0
  {
    if k == 0 then {} else Powers(b, k - 1, r) + {PowMod(b, k - 1, r)}
  }

  lemma {:induction false} PowersMembers(b: int, k: nat, r: nat, x: int)
    requires r > 0 && x in Powers(b, k, r)
    ensures exists i: nat :: i < k && PowMod(b, i, r) == x
  {
    if x != PowMod(b, k - 1, r) {
      PowersMembers(b, k - 1, r, x);
    }
  }

  lemma {:induction false} PowersCount(b: int, k: nat, r: nat)
    requires r > 0
    requires forall i: nat, j: nat :: i < j < k ==> PowMod(b, i, r) != PowMod(b, j, r)
    ensures |Powers(b, k, r)| == k
  {
    if k > 0 {
      PowersCount(b, k - 1, r);
      if PowMod(b, k - 1, r) in Powers(b, k - 1, r) {
        PowersMembers(b, k - 1, r, PowMod(b, k - 1, r));
      }
    }
  }

  function Residues(r: nat): (s: set<int>)
    ensures forall x :: x in s <==> 0 < x < r
  {
    if r <= 1 then {} else Residues(r - 1) + {r - 1}
  }

  lemma {:induction false} ResiduesCount(r: nat)
    requires r > 0
    ensures |Residues(r)| == r - 1
  {
    if r > 1 {
      ResiduesCount(r - 1);
    }
  }

  lemma SubsetCount(a: set<int>, b: set<int>)
    requires a <= b
    ensures |a| <= |b|
  {
    assert b == a + (b - a);
  }

  lemma PowersDistinct(b: nat, inverse: nat, n: nat, q: nat, r: nat, i: nat, j: nat)
    requires n > 1 && Prime(q) && PowMod(b, q, n) == 1 && ((b - 1) * inverse) % n == 1
    requires r > 1 && n % r == 0 && i < j < q
    ensures PowMod(b, i, r) != PowMod(b, j, r)
  {
    if PowMod(b, i, r) == PowMod(b, j, r) {
      PowModAdd(b, q - j, i, r);
      PowModAdd(b, q - j, j, r);
      OrderExactly(b, inverse, n, q, r, q - j + i);
    }
  }

  lemma PowerNotZero(b: int, q: nat, r: nat, i: nat)
    requires r > 1 && PowMod(b, q, r) == 1 && i < q
    ensures PowMod(b, i, r) != 0
  {
    PowModAdd(b, i, q - i, r);
    SmallRemainder(0, r);
    assert 0 * PowMod(b, q - i, r) == 0;
  }

  /** The certificate's conclusion. */
  lemma DivisorsExceed(n: nat, q: nat, b: nat, inverse: nat, r: nat)
    requires n > 1 && Prime(q) && PowMod(b, q, n) == 1 && ((b - 1) * inverse) % n == 1
    requires r > 1 && n % r == 0
    ensures r > q
  {
    forall i: nat, j: nat | i < j < q ensures PowMod(b, i, r) != PowMod(b, j, r) {
      PowersDistinct(b, inverse, n, q, r, i, j);
    }
    PowersCount(b, q, r);
    ResiduesCount(r);
    OrderExactly(b, inverse, n, q, r, 1);
    forall x | x in Powers(b, q, r) ensures x in Residues(r) {
      PowersMembers(b, q, r, x);
      var i: nat :| i < q && PowMod(b, i, r) == x;
      PowerNotZero(b, q, r, i);
    }
    SubsetCount(Powers(b, q, r), Residues(r));
  }

  lemma ProductExceeds(d: nat, e: nat, q: nat)
    requires d > q && e > q
    ensures d * e > q * q
  {
    assert d * e >= (q + 1) * e >= (q + 1) * (q + 1);
  }

  lemma Cofactor(n: nat, d: nat)
    requires 1 < d < n && n % d == 0
    ensures n == d * (n / d) && n / d > 1 && n % (n / d) == 0
  {
    var e := n / d;
    assert n == d * e;
    assert e != 0 && e != 1;
    DivModUnique(n, d, 0, e);
  }

  lemma PrimeByCertificate(n: nat, q: nat, b: nat, inverse: nat)
    requires n > 1 && Prime(q) && PowMod(b, q, n) == 1 && ((b - 1) * inverse) % n == 1
    requires n <= q * q
    ensures Prime(n)
  {
    forall d: nat | 0 < d && n % d == 0 ensures d == 1 || d == n {
      if 1 < d < n {
        Cofactor(n, d);
        DivisorsExceed(n, q, b, inverse, d);
        DivisorsExceed(n, q, b, inverse, n / d);
        ProductExceeds(d, n / d, q);
      } else {
        DivisorAtMost(d, n);
      }
    }
  }

  // ---------- Computing a power four bits at a time ----------

  function Plus(i: nat, j: nat): nat { i + j }

  /** f is i => b^i modulo n for some b; kept abstract, so that a computation never unfolds a power. */
  ghost predicate Exponential(f: nat -> int, n: nat) {
    n > 1 && f(0) == 1 && forall i: nat, j: nat {:trigger Plus(i, j)} :: f(Plus(i, j)) == (f(i) * f(j)) % n
  }

  ghost predicate PowersOf(f: nat -> int, b: int, n: nat) {
    n > 1 && f(1) == b && Exponential(f, n) && forall i: nat {:trigger PowMod(b, i, n)} :: f(i) == PowMod(b, i, n)
  }

  lemma PowersFunction(b: nat, n: nat) returns (f: nat -> int)
    requires n > 1 && b < n
    ensures PowersOf(f, b, n)
  {
    f := (i: nat) => PowMod(b, i, n);
    assert PowMod(b, 0, n) == 1 && PowMod(b, 1, n) == b by {
      SmallRemainder(1, n);
      SmallRemainder(b, n);
      TimesLaws(1, b, 0, n);
    }
    forall i: nat, j: nat {:trigger Plus(i, j)}
      ensures f(Plus(i, j)) == (f(i) * f(j)) % n
    {
      PowModAdd(b, i, j, n);
      assert PowMod(b, Plus(i, j), n) == Times(PowMod(b, i, n), PowMod(b, j, n), n);
    }
  }

  /** The two conclusions of a certificate, on powers computed step by step. */
  lemma DivisorsAbove(f: nat -> int, n: nat, q: nat, b: nat, inverse: nat, r: nat)
    requires PowersOf(f, b, n) && f(q) == 1 && Prime(q) && ((b - 1) * inverse) % n == 1
    requires r > 1 && n % r == 0
    ensures r > q
  {
    DivisorsExceed(n, q, b, inverse, r);
  }

  lemma PrimeByPowers(f: nat -> int, n: nat, q: nat, b: nat, inverse: nat)
    requires PowersOf(f, b, n) && f(q) == 1 && Prime(q) && ((b - 1) * inverse) % n == 1
    requires n <= q * q
    ensures Prime(n)
  {
    PrimeByCertificate(n, q, b, inverse);
  }

  lemma NextPower(f: nat -> int, n: nat, b: int, e: nat, v: int, w: int)
    requires Exponential(f, n) && f(1) == b && f(e) == v && (b * v) % n == w
    ensures f(e + 1) == w
  {
    assert Plus(1, e) == e + 1;
  }

  /** Four squarings of v = b^e and one multiplication with c = b^k. */
  lemma Window(f: nat -> int, n: nat, e: nat, v: int, s: int, t: int, u: int, x: int, k: nat, c: int, w: int)
    requires Exponential(f, n) && f(e) == v && f(k) == c
    requires (v * v) % n == s && (s * s) % n == t && (t * t) % n == u && (u * u) % n == x && (x * c) % n == w
    ensures f(16 * e + k) == w
  {
    assert Plus(e, e) == 2 * e && Plus(2 * e, 2 * e) == 4 * e && Plus(4 * e, 4 * e) == 8 * e;
    assert Plus(8 * e, 8 * e) == 16 * e && Plus(16 * e, k) == 16 * e + k;
  }
}

/** Scalars of the Pallas base field and their 32-byte little-endian encodings. */
module PallasField {
  import opened Text
  import opened Modular
  import opened PallasCertificate

  type scalar = x: int | 0 <= x < P
  type digest = b: Bytes | |b| == 32
    witness [0, 0, 0, 0, 0, 0, 0, 0, 0, 0, 0, 0, 0, 0, 0, 0, 0, 0, 0, 0, 0, 0, 0, 0, 0, 0, 0, 0, 0, 0, 0, 0]
  type u32 = n: int | 0 <= n < 0x1_0000_0000
  type u64 = n: int | 0 <= n < 0x1_0000_0000_0000_0000

  const TWO_64: nat := 0x1_0000_0000_0000_0000
  const TWO_256: nat := 0x1_0000000000000000_0000000000000000_0000000000000000_0000000000000000

  datatype ZkError = ZeroKnowledge | Integrity

  // ---------- Little-endian numbers ----------

  function Bound(n: nat): (r: nat)
    ensures r >= 1
  {
    if n == 0 then 1 else 256 * Bound(n - 1)
  }

  function LeValue(b: Bytes): (v: nat)
    ensures v < Bound(|b|)
  {
    if b == [] then 0 else b[0] + 256 * LeValue(b[1..])
  }

  function LeBytes(n: nat, v: nat): (b: Bytes)
    ensures |b| == n
  {
    if n == 0 then [] else [v % 256] + LeBytes(n - 1, v / 256)
  }

  lemma {:induction false} LeExact(b: Bytes, v: nat)
    requires v < Bound(|b|)
    ensures LeValue(b) == v <==> b == LeBytes(|b|, v)
  {
    if b != [] {
      LeExact(b[1..], v / 256);
      assert b == [b[0]] + b[1..];
    }
  }

  lemma {:induction false} LeConcat(a: Bytes, b: Bytes)
    ensures LeValue(a + b) == LeValue(a) + Bound(|a|) * LeValue(b)
  {
    if a == [] {
      assert a + b == b;
    } else {
      LeConcat(a[1..], b);
      assert (a + b)[1..] == a[1..] + b;
      Associate(256, Bound(|a| - 1), LeValue(b));
    }
  }

  lemma Bounds()
    ensures Bound(8) == TWO_64 && Bound(32) == TWO_256
  {
    assert Bound(2) == 0x1_0000 && Bound(4) == 0x1_0000_0000;
    assert Bound(6) == 0x1_0000_0000_0000 && Bound(8) == TWO_64;
    assert Bound(12) == TWO_64 * 0x1_0000_0000 && Bound(16) == TWO_64 * TWO_64;
    assert Bound(20) == Bound(16) * 0x1_0000_0000 && Bound(24) == Bound(16) * TWO_64;
    assert Bound(28) == Bound(24) * 0x1_0000_0000 && Bound(32) == Bound(24) * TWO_64;
  }

  // ---------- Scalars ----------

  function Add(x: scalar, y: scalar): scalar { (x + y) % P }
  function Sub(x: scalar, y: scalar): scalar { (x - y) % P }
  function Mul(x: scalar, y: scalar): scalar { (x * y) % P }

  /** The four 64-bit limbs, least significant first, reduced modulo P. */
  function DigestToScalar(b: digest): scalar {
    (LeValue(b[0..8]) + TWO_64 * LeValue(b[8..16]) + TWO_64 * TWO_64 * LeValue(b[16..24])
     + TWO_64 * TWO_64 * TWO_64 * LeValue(b[24..32])) % P
  }

  function ScalarToBytes(x: scalar): digest {
    Numeral(x)
  }

  function ScalarFromBytes(b: Bytes): Result<scalar, ZkError> {
    if |b| != 32 || LeValue(b) >= P then Err(ZeroKnowledge) else Ok(LeValue(b))
  }

  /** Splitting into limbs loses nothing: the scalar is the little-endian value modulo P. */
  lemma DigestIsResidue(b: digest)
    ensures DigestToScalar(b) == LeValue(b) % P
  {
    var l0, l1, l2, l3 := b[0..8], b[8..16], b[16..24], b[24..32];
    assert b == l0 + (l1 + (l2 + l3));
    LeConcat(l0, l1 + (l2 + l3));
    LeConcat(l1, l2 + l3);
    LeConcat(l2, l3);
    Bounds();
  }

  /** Encoding and decoding are mutually inverse below P, and every other byte string is refused. */
  lemma ScalarEncodingExact(b: Bytes, x: scalar)
    ensures ScalarFromBytes(b) == Ok(x) <==> b == ScalarToBytes(x)
    ensures ScalarFromBytes(b).Ok? <==> |b| == 32 && LeValue(b) < P
  {
    Bounds();
    if |b| == 32 {
      LeExact(b, x);
    }
  }

  lemma ScalarBytesInjective(x: scalar, y: scalar)
    ensures ScalarToBytes(x) == ScalarToBytes(y) <==> x == y
  {
    ScalarEncodingExact(ScalarToBytes(x), x);
    ScalarEncodingExact(ScalarToBytes(x), y);
  }

  // ---------- How many digests share a scalar ----------

  function Numeral(v: nat): digest {
    LeBytes(32, v)
  }

  lemma NumeralExact(b: digest, v: nat)
    requires v < TWO_256
    ensures b == Numeral(v) <==> LeValue(b) == v
  {
    Bounds();
    LeExact(b, v);
  }

  lemma Quotients(v: nat, x: scalar)
    requires v < TWO_256
    ensures v % P == x <==> v == x || v == x + P || v == x + 2 * P || v == x + 3 * P
  {
    if v % P == x {
      assert v == v / P * P + x;
      assert v / P <= 3;
    }
    DivModUnique(x, 0, x, P);
    DivModUnique(x + P, 1, x, P);
    DivModUnique(x + 2 * P, 2, x, P);
    DivModUnique(x + 3 * P, 3, x, P);
  }

  /** The digests that reduce to x: x, x + P, x + 2P and, when it still fits, x + 3P. */
  function Preimages(x: scalar): set<digest> {
    var low := {Numeral(x), Numeral(x + P), Numeral(x + 2 * P)};
    if x + 3 * P < TWO_256 then low + {Numeral(x + 3 * P)} else low
  }

  /** A digest reduces to x exactly when it is one of the three or four digests listed. */
  lemma PreimagesExact(x: scalar, b: digest)
    ensures DigestToScalar(b) == x <==> b in Preimages(x)
  {
    DigestIsResidue(b);
    Bounds();
    var v: nat := LeValue(b);
    assert v < TWO_256;
    Quotients(v, x);
    NumeralExact(b, x);
    NumeralExact(b, x + P);
    NumeralExact(b, x + 2 * P);
    if x + 3 * P < TWO_256 {
      NumeralExact(b, x + 3 * P);
    }
  }

  lemma NumeralInjective(v: nat, w: nat)
    requires v < TWO_256 && w < TWO_256
    ensures Numeral(v) == Numeral(w) <==> v == w
  {
    NumeralExact(Numeral(v), v);
    NumeralExact(Numeral(v), w);
  }

  lemma PreimageCount(x: scalar)
    ensures |Preimages(x)| == if x < TWO_256 - 3 * P then 4 else 3
  {
    NumeralInjective(x, x + P);
    NumeralInjective(x, x + 2 * P);
    NumeralInjective(x + P, x + 2 * P);
    if x + 3 * P < TWO_256 {
      NumeralInjective(x, x + 3 * P);
      NumeralInjective(x + P, x + 3 * P);
      NumeralInjective(x + 2 * P, x + 3 * P);
    }
  }

  // ---------- Cancelling small factors ----------

  /** Euclid's lemma for a factor below 2^64. */
  lemma {:induction false} SmallFactorCancels(d: nat, x: int)
    requires 0 < d <= TWO_64 && (d * x) % P == 0
    ensures x % P == 0
    decreases d
  {
    if d > 1 {
      var q, r := P / d, P % d;
      if r == 0 {
        NoSmallDivisor(d);
      } else {
        assert r * x == x * P - q * (d * x) by {
          assert (P - q * d) * x == P * x - q * d * x;
          assert q * d * x == q * (d * x);
        }
        var k := (d * x) / P;
        assert q * (d * x) == (q * k) * P by {
          assert d * x == k * P;
          assert q * (k * P) == (q * k) * P;
        }
        AddMultiple(0, x - q * k, P);
        assert (x - q * k) * P == x * P - (q * k) * P;
        SmallFactorCancels(r, x);
      }
    }
  }
}

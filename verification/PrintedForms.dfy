/** What the printers print and the readers skip, in terms of bits, alphabets and code points: these facts
    name none of the helpers that compute them. */
module PrintedForms {
  import opened Text
  import opened RecordContext
  import opened Envelope
  import Hex
  import Base64

  /** Character i of a literal, as a byte. */
  function At(alphabet: string, i: int): int
    requires 0 <= i < |alphabet|
  {
    alphabet[i] as int
  }

  // ---------- Hexadecimal ----------

  const HEX_DIGITS: string := "0123456789abcdef"

  lemma HexDigit(n: int)
    requires 0 <= n < 16
    ensures Hex.Digit(n) == At(HEX_DIGITS, n)
  {
  }

  /** Byte i is printed as two digits, the high half first. */
  lemma {:induction false} HexPrints(b: Bytes, i: int)
    requires 0 <= i < |b|
    ensures Hex.Encode(b)[2 * i] == At(HEX_DIGITS, b[i] / 16)
    ensures Hex.Encode(b)[2 * i + 1] == At(HEX_DIGITS, b[i] % 16)
  {
    HexDigit(b[0] / 16);
    HexDigit(b[0] % 16);
    if i > 0 {
      HexPrints(b[1..], i - 1);
      assert Hex.Encode(b)[2 * i] == Hex.Encode(b[1..])[2 * i - 2];
      assert Hex.Encode(b)[2 * i + 1] == Hex.Encode(b[1..])[2 * i - 1];
    }
  }

  /** This byte is a digit for n, in either case. */
  predicate DigitFor(c: byte, n: int)
    requires 0 <= n < 16
  {
    c == At(HEX_DIGITS, n) || c == At("0123456789ABCDEF", n)
  }

  lemma DigitReads(c: byte, n: int)
    requires 0 <= n < 16
    ensures Hex.DigitValue(c) == Some(n) <==> DigitFor(c, n)
  {
  }

  /** These two characters are a printing of x. */
  predicate PairFor(c: byte, d: byte, x: byte) { DigitFor(c, x / 16) && DigitFor(d, x % 16) }

  lemma PairReads(c: byte, d: byte, x: byte)
    ensures Hex.DigitValue(c).Some? && Hex.DigitValue(d).Some?
            && Hex.DigitValue(c).value * 16 + Hex.DigitValue(d).value == x
        <==> PairFor(c, d, x)
  {
    DigitReads(c, x / 16);
    DigitReads(d, x % 16);
    var high, low := Hex.DigitValue(c), Hex.DigitValue(d);
    if high.Some? && low.Some? {
      TwoHalves(high.value, low.value, x);
    }
  }

  lemma TwoHalves(high: int, low: int, x: byte)
    requires 0 <= low < 16
    ensures high * 16 + low == x <==> high == x / 16 && low == x % 16
  {
  }

  lemma DecodeStep(s: Bytes, b: Bytes)
    requires |s| >= 2 && b != []
    ensures Hex.Decode(s) == Some(b) <==> PairFor(s[0], s[1], b[0]) && Hex.Decode(s[2..]) == Some(b[1..])
  {
    PairReads(s[0], s[1], b[0]);
    var high, low, rest := Hex.DigitValue(s[0]), Hex.DigitValue(s[1]), Hex.Decode(s[2..]);
    DecodeTwo(s, high, low, rest);
    if high.Some? && low.Some? && rest.Some? {
      ConsIs(high.value * 16 + low.value, rest.value, b);
    }
  }

  lemma DecodeTwo(s: Bytes, high: Option<int>, low: Option<int>, rest: Option<Bytes>)
    requires |s| >= 2 && high == Hex.DigitValue(s[0]) && low == Hex.DigitValue(s[1]) && rest == Hex.Decode(s[2..])
    ensures Hex.Decode(s) == if high.None? || low.None? || rest.None? then None
                             else Some([high.value * 16 + low.value] + rest.value)
  {
  }

  lemma ConsIs(x: int, more: seq<int>, b: seq<int>)
    requires b != []
    ensures [x] + more == b <==> x == b[0] && more == b[1..]
  {
    assert b == [b[0]] + b[1..];
    assert ([x] + more)[1..] == more;
  }

  lemma PairsShift(pair: (byte, byte, byte) -> bool, s: Bytes, b: Bytes)
    requires |s| == 2 * |b| && b != []
    ensures (forall i :: 0 <= i < |b| ==> pair(s[2 * i], s[2 * i + 1], b[i]))
        <==> pair(s[0], s[1], b[0])
             && forall i :: 0 <= i < |b[1..]| ==> pair(s[2..][2 * i], s[2..][2 * i + 1], b[1..][i])
  {
    var t, c := s[2..], b[1..];
    forall i | 0 <= i < |c|
      ensures c[i] == b[i + 1] && t[2 * i] == s[2 * (i + 1)] && t[2 * i + 1] == s[2 * (i + 1) + 1]
    {
    }
    if pair(s[0], s[1], b[0]) && forall i :: 0 <= i < |c| ==> pair(t[2 * i], t[2 * i + 1], c[i]) {
      forall i | 0 <= i < |b| ensures pair(s[2 * i], s[2 * i + 1], b[i]) {
        assert i > 0 ==> pair(t[2 * (i - 1)], t[2 * (i - 1) + 1], c[i - 1]);
      }
    }
  }

  /** A text reads as b exactly when it holds two digits for each byte, in either case. */
  lemma {:induction false} HexReads(s: Bytes, b: Bytes)
    ensures Hex.Decode(s) == Some(b)
        <==> |s| == 2 * |b| && forall i :: 0 <= i < |b| ==> PairFor(s[2 * i], s[2 * i + 1], b[i])
    decreases |s|
  {
    if |s| >= 2 && b != [] {
      DecodeStep(s, b);
      HexReads(s[2..], b[1..]);
      if |s| == 2 * |b| {
        PairsShift(PairFor, s, b);
      }
    }
  }

  // ---------- Base64 ----------

  const BASE64_ALPHABET: string := "ABCDEFGHIJKLMNOPQRSTUVWXYZ" + "abcdefghijklmnopqrstuvwxyz" + "0123456789+/"

  lemma Base64Symbol(v: int)
    requires 0 <= v < 64
    ensures Base64.Symbol(v) == At(BASE64_ALPHABET, v)
  {
    var upper, lower, rest := "ABCDEFGHIJKLMNOPQRSTUVWXYZ", "abcdefghijklmnopqrstuvwxyz", "0123456789+/";
    if v < 26 {
      assert BASE64_ALPHABET[v] == upper[v];
    } else if v < 52 {
      assert BASE64_ALPHABET[v] == lower[v - 26];
    } else {
      assert BASE64_ALPHABET[v] == rest[v - 52];
    }
  }

  /** The bits of a byte, the most significant first. */
  function EightBits(x: byte): (bits: seq<int>)
    ensures |bits| == 8
  {
    [x / 128, x / 64 % 2, x / 32 % 2, x / 16 % 2, x / 8 % 2, x / 4 % 2, x / 2 % 2, x % 2]
  }

  /** What f makes of each byte, in order. */
  function Each(f: byte -> seq<int>, b: Bytes): seq<int> {
    if b == [] then [] else f(b[0]) + Each(f, b[1..])
  }

  function BitsOf(b: Bytes): seq<int> { Each(EightBits, b) }

  /** Past the end all bits are zero. */
  function BitAt(bits: seq<int>, n: nat): int { if n < |bits| then bits[n] else 0 }

  /** Six bits, the most significant first, as a number. */
  function Number(p: int, q: int, r: int, s: int, t: int, u: int): int {
    32 * p + 16 * q + 8 * r + 4 * s + 2 * t + u
  }

  /** The number that bits 6i to 6i + 5 form. */
  function SixBits(bits: seq<int>, i: nat): int {
    Number(BitAt(bits, 6 * i), BitAt(bits, 6 * i + 1), BitAt(bits, 6 * i + 2), BitAt(bits, 6 * i + 3),
           BitAt(bits, 6 * i + 4), BitAt(bits, 6 * i + 5))
  }

  lemma {:induction false} EachConcat(f: byte -> seq<int>, a: Bytes, b: Bytes)
    ensures Each(f, a + b) == Each(f, a) + Each(f, b)
  {
    if a == [] {
      assert a + b == b;
    } else {
      var x, more := a[0], a[1..];
      EachConcat(f, more, b);
      EachCons(f, x, more + b);
      EachCons(f, x, more);
      assert a == [x] + more;
      Regrouped(f(x), Each(f, more), Each(f, b));
      assert a + b == [x] + (more + b);
    }
  }

  lemma Regrouped(a: seq<int>, b: seq<int>, c: seq<int>)
    ensures a + (b + c) == (a + b) + c
  {
  }

  lemma EachCons(f: byte -> seq<int>, x: byte, more: Bytes)
    ensures Each(f, [x] + more) == f(x) + Each(f, more)
  {
    assert ([x] + more)[1..] == more;
  }

  lemma {:induction false} EachLength(f: byte -> seq<int>, b: Bytes)
    requires forall x: byte :: |f(x)| == 8
    ensures |Each(f, b)| == 8 * |b|
  {
    if b != [] {
      EachLength(f, b[1..]);
    }
  }

  /** Entries of byte j. */
  lemma {:induction false} EachEntry(f: byte -> seq<int>, b: Bytes, j: nat, k: nat)
    requires j < |b| && k < 8 && forall x: byte :: |f(x)| == 8
    ensures |Each(f, b)| == 8 * |b| && Each(f, b)[8 * j + k] == f(b[j])[k]
  {
    EachLength(f, b);
    if j > 0 {
      EachEntry(f, b[1..], j - 1, k);
    }
  }

  lemma SixBitsShift(front: seq<int>, bits: seq<int>, i: nat)
    requires |front| == 24 && i >= 4
    ensures SixBits(front + bits, i) == SixBits(bits, i - 4)
  {
    ShiftOne(front, bits, 6 * i);
    ShiftOne(front, bits, 6 * i + 1);
    ShiftOne(front, bits, 6 * i + 2);
    ShiftOne(front, bits, 6 * i + 3);
    ShiftOne(front, bits, 6 * i + 4);
    ShiftOne(front, bits, 6 * i + 5);
  }

  lemma ShiftOne(front: seq<int>, bits: seq<int>, n: nat)
    requires |front| == 24 && n >= 24
    ensures BitAt(front + bits, n) == BitAt(bits, n - 24)
  {
  }

  lemma HalvesOfByte(x: byte)
    ensures x / 64 == 2 * (x / 128) + x / 64 % 2 && x / 32 == 2 * (x / 64) + x / 32 % 2
    ensures x / 16 == 2 * (x / 32) + x / 16 % 2 && x / 8 == 2 * (x / 16) + x / 8 % 2
    ensures x / 4 == 2 * (x / 8) + x / 4 % 2 && x / 2 == 2 * (x / 4) + x / 2 % 2
  {
  }

  lemma UpperBits(x: byte)
    ensures var e := EightBits(x);
            && x / 4 == Number(e[0], e[1], e[2], e[3], e[4], e[5])
            && x / 16 == 8 * e[0] + 4 * e[1] + 2 * e[2] + e[3] && x / 64 == 2 * e[0] + e[1]
  {
    HalvesOfByte(x);
  }

  lemma LowerBits(x: byte)
    ensures var e := EightBits(x);
            && x % 64 == Number(e[2], e[3], e[4], e[5], e[6], e[7])
            && x % 16 == 8 * e[4] + 4 * e[5] + 2 * e[6] + e[7] && x % 4 == 2 * e[6] + e[7]
  {
    HalvesOfByte(x);
  }

  /** Three bytes, missing ones counting as zero, as four numbers. */
  lemma FourNumbers(e: seq<int>, f: seq<int>, g: seq<int>, bits: seq<int>)
    requires |e| == |f| == |g| == 8
    requires forall n: nat :: n < 24 ==> BitAt(bits, n) == (e + f + g)[n]
    ensures SixBits(bits, 0) == Number(e[0], e[1], e[2], e[3], e[4], e[5])
    ensures SixBits(bits, 1) == 16 * (2 * e[6] + e[7]) + (8 * f[0] + 4 * f[1] + 2 * f[2] + f[3])
    ensures SixBits(bits, 2) == 4 * (8 * f[4] + 4 * f[5] + 2 * f[6] + f[7]) + (2 * g[0] + g[1])
    ensures SixBits(bits, 3) == Number(g[2], g[3], g[4], g[5], g[6], g[7])
  {
    var all := e + f + g;
    assert forall n: nat :: n < 8 ==> all[n] == e[n] && all[n + 8] == f[n] && all[n + 16] == g[n];
    assert BitAt(bits, 6) == e[6] && BitAt(bits, 7) == e[7] && BitAt(bits, 8) == f[0];
    assert BitAt(bits, 12) == f[4] && BitAt(bits, 16) == g[0] && BitAt(bits, 18) == g[2];
  }

  lemma ZeroBits()
    ensures forall k :: 0 <= k < 8 ==> EightBits(0)[k] == 0
  {
  }

  /** Character i is the alphabet's entry at the number that bits 6i to 6i + 5 form; when no bit of the
      bytes is left for it, it is '='. */
  lemma Base64Prints(b: Bytes, i: nat)
    requires i < |Base64.Encode(b)|
    ensures 0 <= Sextet(b, i) < 64
    ensures Base64.Encode(b)[i] == if 6 * i < 8 * |b| then At(BASE64_ALPHABET, Sextet(b, i)) else '=' as int
  {
    SextetRange(b, i);
    Base64Symbol(Sextet(b, i));
    Base64Symbols(b, i);
  }

  /** The number that bits 6i to 6i + 5 of b form. */
  function Sextet(b: Bytes, i: nat): int { SixBits(BitsOf(b), i) }

  lemma BitRange(b: Bytes, n: nat)
    ensures 0 <= BitAt(BitsOf(b), n) <= 1
  {
    EachLength(EightBits, b);
    if n < 8 * |b| {
      EachEntry(EightBits, b, n / 8, n % 8);
      BytesAreBits(b[n / 8], n % 8);
    }
  }

  lemma BytesAreBits(x: byte, k: nat)
    requires k < 8
    ensures 0 <= EightBits(x)[k] <= 1
  {
  }

  lemma SextetRange(b: Bytes, i: nat)
    ensures 0 <= Sextet(b, i) < 64
  {
    BitRange(b, 6 * i);
    BitRange(b, 6 * i + 1);
    BitRange(b, 6 * i + 2);
    BitRange(b, 6 * i + 3);
    BitRange(b, 6 * i + 4);
    BitRange(b, 6 * i + 5);
  }

  lemma {:induction false} Base64Symbols(b: Bytes, i: nat)
    requires i < |Base64.Encode(b)|
    ensures 0 <= Sextet(b, i) < 64
    ensures Base64.Encode(b)[i] == if 6 * i < 8 * |b| then Base64.Symbol(Sextet(b, i)) else 61
    decreases |b|
  {
    if i < 4 {
      FirstSymbols(b, i);
    } else {
      Base64.EncodeAlphabet(b);
      Base64Symbols(b[3..], i - 4);
      SextetShift(b, i);
      LaterSymbols(b, i);
    }
  }

  /** The first four numbers, missing bytes counting as zero. */
  function GroupNumber(b: Bytes, i: nat): (v: int)
    ensures 0 <= v < 64
  {
    if i == 0 then ByteAt(b, 0) / 4
    else if i == 1 then ByteAt(b, 0) % 4 * 16 + ByteAt(b, 1) / 16
    else if i == 2 then ByteAt(b, 1) % 16 * 4 + ByteAt(b, 2) / 64
    else ByteAt(b, 2) % 64
  }

  lemma FirstSymbols(b: Bytes, i: nat)
    requires |b| >= 1 && i < 4
    ensures |Base64.Encode(b)| >= 4 && 0 <= Sextet(b, i) < 64
    ensures Base64.Encode(b)[i] == if 6 * i < 8 * |b| then Base64.Symbol(Sextet(b, i)) else 61
  {
    FirstFour(b, i);
    FirstSextets(b, i);
  }

  lemma LaterSymbols(b: Bytes, i: nat)
    requires |b| >= 3 && 4 <= i < |Base64.Encode(b)|
    ensures |Base64.Encode(b[3..])| == |Base64.Encode(b)| - 4
    ensures Base64.Encode(b)[i] == Base64.Encode(b[3..])[i - 4]
  {
  }

  lemma SextetShift(b: Bytes, i: nat)
    requires |b| >= 3 && i >= 4
    ensures Sextet(b, i) == Sextet(b[3..], i - 4)
  {
    EachConcat(EightBits, b[..3], b[3..]);
    EachLength(EightBits, b[..3]);
    assert b == b[..3] + b[3..];
    SixBitsShift(BitsOf(b[..3]), BitsOf(b[3..]), i);
  }

  function ByteAt(b: Bytes, i: nat): byte { if i < |b| then b[i] else 0 }

  lemma FirstSextets(b: Bytes, i: nat)
    requires |b| >= 1 && i < 4
    ensures Sextet(b, i) == GroupNumber(b, i)
  {
    var x, y, z := ByteAt(b, 0), ByteAt(b, 1), ByteAt(b, 2);
    forall n: nat | n < 24 ensures BitAt(BitsOf(b), n) == (EightBits(x) + EightBits(y) + EightBits(z))[n] {
      FirstBits(b, n);
    }
    FourNumbers(EightBits(x), EightBits(y), EightBits(z), BitsOf(b));
    if i == 0 {
      UpperBits(x);
    } else if i == 1 {
      LowerBits(x);
      UpperBits(y);
    } else if i == 2 {
      LowerBits(y);
      UpperBits(z);
    } else {
      LowerBits(z);
    }
  }

  lemma FirstBits(b: Bytes, n: nat)
    requires |b| >= 1 && n < 24
    ensures BitAt(BitsOf(b), n) == (EightBits(ByteAt(b, 0)) + EightBits(ByteAt(b, 1)) + EightBits(ByteAt(b, 2)))[n]
  {
    EachLength(EightBits, b);
    if n < 8 {
      BitOfByte(b, 0, n);
    } else if n < 16 {
      BitOfByte(b, 1, n - 8);
    } else {
      BitOfByte(b, 2, n - 16);
    }
  }

  lemma BitOfByte(b: Bytes, j: nat, k: nat)
    requires k < 8
    ensures BitAt(BitsOf(b), 8 * j + k) == EightBits(ByteAt(b, j))[k]
  {
    EachLength(EightBits, b);
    if j < |b| {
      EachEntry(EightBits, b, j, k);
    } else {
      ZeroBits();
    }
  }

  lemma FirstFour(b: Bytes, i: nat)
    requires |b| >= 1 && i < 4
    ensures |Base64.Encode(b)| >= 4
    ensures Base64.Encode(b)[i] == if 6 * i < 8 * |b| then Base64.Symbol(GroupNumber(b, i)) else 61
  {
    if |b| == 1 {
      assert b == [b[0]];
      FirstOfOne(b[0], i);
    } else if |b| == 2 {
      assert b == [b[0], b[1]];
      FirstOfTwo(b[0], b[1], i);
    } else {
      ThreeBytes(b);
    }
  }

  lemma FirstOfOne(x: byte, i: nat)
    requires i < 4
    ensures |Base64.Encode([x])| >= 4
    ensures Base64.Encode([x])[i] == if i < 2 then Base64.Symbol(GroupNumber([x], i)) else 61
  {
    OneByte(x);
  }

  lemma FirstOfTwo(x: byte, y: byte, i: nat)
    requires i < 4
    ensures |Base64.Encode([x, y])| >= 4
    ensures Base64.Encode([x, y])[i] == if i < 3 then Base64.Symbol(GroupNumber([x, y], i)) else 61
  {
    TwoBytes(x, y);
  }

  lemma OneByte(x: byte)
    ensures Base64.Encode([x]) == [Base64.Symbol(x / 4), Base64.Symbol(x % 4 * 16), 61, 61]
  {
  }

  lemma TwoBytes(x: byte, y: byte)
    ensures Base64.Encode([x, y])
         == [Base64.Symbol(x / 4), Base64.Symbol(x % 4 * 16 + y / 16), Base64.Symbol(y % 16 * 4), 61]
  {
  }

  lemma ThreeBytes(b: Bytes)
    requires |b| >= 3
    ensures |Base64.Encode(b)| >= 4
    ensures Base64.Encode(b)[0] == Base64.Symbol(b[0] / 4)
    ensures Base64.Encode(b)[1] == Base64.Symbol(b[0] % 4 * 16 + b[1] / 16)
    ensures Base64.Encode(b)[2] == Base64.Symbol(b[1] % 16 * 4 + b[2] / 64)
    ensures Base64.Encode(b)[3] == Base64.Symbol(b[2] % 64)
  {
    var v := Base64.Group(b[..3]);
    var four := Base64.Symbols(v);
    assert Base64.Encode(b) == four + Base64.Encode(b[3..]);
    assert four[0] == Base64.Symbol(v[0]) && four[1] == Base64.Symbol(v[1]);
    assert four[2] == Base64.Symbol(v[2]) && four[3] == Base64.Symbol(v[3]);
  }

  // ---------- Names, prefixes and row ids ----------

  lemma AsciiPrints(s: string)
    requires forall i :: 0 <= i < |s| ==> s[i] < 128 as char
    ensures |Ascii(s)| == |s| && forall i :: 0 <= i < |s| ==> Ascii(s)[i] == s[i] as int
  {
  }

  lemma PrefixTests(s: Bytes)
    ensures IsPayloadV2(s) <==> Ascii("aead:v2:") <= s
    ensures IsPayload(s) <==> Ascii("aead:v1:") <= s || Ascii("aead:v2:") <= s
  {
  }

  lemma UuidGroups(u: Uuid)
    ensures var t := UuidText(u);
            && t[..8] == Hex.Encode(u[..4]) && t[9..13] == Hex.Encode(u[4..6]) && t[14..18] == Hex.Encode(u[6..8])
            && t[19..23] == Hex.Encode(u[8..10]) && t[24..] == Hex.Encode(u[10..])
            && t[8] == t[13] == t[18] == t[23] == '-' as int
  {
  }

  /** Where digit k of the 32 digits of a row id stands: past the dashes before it. */
  function DigitPlace(k: int): int {
    if k < 8 then k else if k < 12 then k + 1 else if k < 16 then k + 2 else if k < 20 then k + 3 else k + 4
  }

  function HexPair(x: byte): seq<int> { [Hex.Digit(x / 16), Hex.Digit(x % 16)] }

  lemma {:induction false} HexIsEach(b: Bytes)
    ensures Hex.Encode(b) == Each(HexPair, b)
  {
    if b != [] {
      HexIsEach(b[1..]);
    }
  }

  lemma HexConcat(a: Bytes, b: Bytes)
    ensures Hex.Encode(a + b) == Hex.Encode(a) + Hex.Encode(b)
  {
    HexIsEach(a);
    HexIsEach(b);
    HexIsEach(a + b);
    EachConcat(HexPair, a, b);
  }

  /** A printer that prints parts one after the other, two characters a byte. */
  ghost predicate Additive(enc: Bytes -> Bytes) {
    (forall a, b :: enc(a + b) == enc(a) + enc(b)) && (forall a :: |enc(a)| == 2 * |a|)
  }

  lemma HexIsAdditive()
    ensures Additive(Hex.Encode)
  {
    forall a, b ensures Hex.Encode(a + b) == Hex.Encode(a) + Hex.Encode(b) {
      HexConcat(a, b);
    }
  }

  lemma PrintedPart(enc: Bytes -> Bytes, u: Bytes, i: int, j: int, k: int)
    requires Additive(enc) && 0 <= i <= j <= |u| && 0 <= k < 2 * (j - i)
    ensures |enc(u[i..j])| == 2 * (j - i) && |enc(u)| == 2 * |u|
    ensures enc(u[i..j])[k] == enc(u)[2 * i + k]
  {
    var a, b, c := u[..i], u[i..j], u[j..];
    assert u == a + (b + c);
    assert enc(a + (b + c)) == enc(a) + (enc(b) + enc(c));
  }

  lemma UuidDigit(u: Uuid, k: int)
    requires 0 <= k < 32
    ensures 0 <= DigitPlace(k) < 36 && UuidText(u)[DigitPlace(k)] == Hex.Encode(u)[k]
  {
    UuidGroups(u);
    InGroup(UuidText(u), u, k);
  }

  lemma InGroup(t: Bytes, u: Uuid, k: int)
    requires 0 <= k < 32 && |t| == 36
    requires t[..8] == Hex.Encode(u[..4]) && t[9..13] == Hex.Encode(u[4..6]) && t[14..18] == Hex.Encode(u[6..8])
    requires t[19..23] == Hex.Encode(u[8..10]) && t[24..] == Hex.Encode(u[10..])
    ensures t[DigitPlace(k)] == Hex.Encode(u)[k]
  {
    HexIsAdditive();
    PartsInPlace(Hex.Encode, t, u, k);
  }

  lemma PartsInPlace(enc: Bytes -> Bytes, t: Bytes, u: Uuid, k: int)
    requires Additive(enc) && 0 <= k < 32 && |t| == 36
    requires t[..8] == enc(u[..4]) && t[9..13] == enc(u[4..6]) && t[14..18] == enc(u[6..8])
    requires t[19..23] == enc(u[8..10]) && t[24..] == enc(u[10..])
    ensures |enc(u)| == 32 && t[DigitPlace(k)] == enc(u)[k]
  {
    if k < 8 {
      PrintedPart(enc, u, 0, 4, k);
      assert u[0..4] == u[..4] && t[k] == t[..8][k];
    } else if k < 12 {
      PrintedPart(enc, u, 4, 6, k - 8);
      assert t[k + 1] == t[9..13][k - 8];
    } else if k < 16 {
      PrintedPart(enc, u, 6, 8, k - 12);
      assert t[k + 2] == t[14..18][k - 12];
    } else if k < 20 {
      PrintedPart(enc, u, 8, 10, k - 16);
      assert t[k + 3] == t[19..23][k - 16];
    } else {
      PrintedPart(enc, u, 10, 16, k - 20);
      assert u[10..16] == u[10..] && t[k + 4] == t[24..][k - 20];
    }
  }

  /** A row id is printed as its 32 digits, with dashes at 8, 13, 18 and 23 (see UuidDashes). */
  lemma UuidPrints(u: Uuid, i: int)
    requires 0 <= i < 16
    ensures 0 <= DigitPlace(2 * i) < DigitPlace(2 * i + 1) < 36
    ensures UuidText(u)[DigitPlace(2 * i)] == At(HEX_DIGITS, u[i] / 16)
    ensures UuidText(u)[DigitPlace(2 * i + 1)] == At(HEX_DIGITS, u[i] % 16)
  {
    UuidDigit(u, 2 * i);
    UuidDigit(u, 2 * i + 1);
    HexPrints(u, i);
  }

  lemma UuidDashes(u: Uuid)
    ensures UuidText(u)[8] == UuidText(u)[13] == UuidText(u)[18] == UuidText(u)[23] == '-' as int
  {
    UuidGroups(u);
  }

  // ---------- Envelopes and associated data ----------

  /** How the three parts are put together. */
  lemma PayloadPrints(h: Bytes, t: Bytes, c: Bytes)
    ensures EncodePayload(h, t, c)
         == Joined(Base64.Encode(h), Base64.Encode(t), Base64.Encode(c))
    ensures EncodePayloadV1(h, c) == Ascii("aead:v1:") + Base64.Encode(h) + Ascii(":") + Base64.Encode(c)
  {
    assert Ascii(":") == [COLON];
  }

  function Joined(h: Bytes, t: Bytes, c: Bytes): Bytes { Ascii("aead:v2:") + h + Ascii(":") + t + Ascii(":") + c }

  /** Only a text that some bytes print to can be read. */
  ghost predicate Printed(text: Bytes) {
    exists b :: text == Base64.Encode(b)
  }

  lemma Readable(text: Bytes)
    ensures Base64.Decode(text).Some? <==> Printed(text)
    ensures Base64.Decode(text).Some? ==> text == Base64.Encode(Base64.Decode(text).value)
  {
    if Base64.Decode(text).Some? {
      Base64.DecodeExact(text, Base64.Decode(text).value);
    }
    if b :| text == Base64.Encode(b) {
      Base64.DecodeExact(text, b);
    }
  }

  /** Printed from bytes that are no UTF-8. */
  ghost predicate PrintedRaw(text: Bytes) {
    exists b :: text == Base64.Encode(b) && !Utf8(b)
  }

  lemma ReadableText(text: Bytes)
    requires Printed(text)
    ensures Base64.Decode(text).Some? && (PrintedRaw(text) <==> !Utf8(Base64.Decode(text).value))
  {
    Readable(text);
    if b :| text == Base64.Encode(b) && !Utf8(b) {
      Base64.DecodeExact(text, b);
    }
  }

  /** A text without the separators of its version, or without a prefix, is refused as such. */
  lemma MalformedMeans(s: Bytes)
    ensures DecodePayload(s) == Err(MissingPrefix) <==> !(Ascii("aead:v1:") <= s) && !(Ascii("aead:v2:") <= s)
    ensures DecodePayload(s) == Err(MalformedV1) <==> Ascii("aead:v1:") <= s && 58 !in s[8..]
    ensures DecodePayload(s) == Err(MalformedV2)
        <==> Ascii("aead:v2:") <= s && forall i, j :: 8 <= i < j < |s| ==> !(s[i] == 58 && s[j] == 58)
  {
    SplitFaults(s);
    FaultsKept(s);
  }

  /** The faults of the parts are not those of the splitting. */
  lemma FaultsKept(s: Bytes)
    ensures forall e :: e in {MissingPrefix, MalformedV1, MalformedV2} ==>
              (DecodePayload(s) == Err(e) <==> SplitPayload(s) == Err(e))
  {
    var parts := SplitPayload(s);
    if parts.Ok? {
      LaterFaults(parts.value);
    }
  }

  lemma LaterFaults(parts: Parts)
    ensures DecodeParts(parts).Err? ==> DecodeParts(parts).error !in {MissingPrefix, MalformedV1, MalformedV2}
  {
  }

  lemma SplitFaults(s: Bytes)
    ensures SplitPayload(s) == Err(MissingPrefix) <==> !(Ascii("aead:v1:") <= s) && !(Ascii("aead:v2:") <= s)
    ensures SplitPayload(s) == Err(MalformedV1) <==> Ascii("aead:v1:") <= s && 58 !in s[8..]
    ensures SplitPayload(s) == Err(MalformedV2)
        <==> Ascii("aead:v2:") <= s && forall i, j :: 8 <= i < j < |s| ==> !(s[i] == 58 && s[j] == 58)
  {
    PrefixesDiffer(s);
    if Ascii("aead:v2:") <= s {
      SeparatorsAfter(s);
    }
  }

  lemma SeparatorsAfter(s: Bytes)
    requires |s| >= 8
    ensures SplitTwice(s[8..]).None? <==> forall i, j :: 8 <= i < j < |s| ==> !(s[i] == 58 && s[j] == 58)
  {
    TwoSeparators(s[8..]);
    assert forall i :: 8 <= i < |s| ==> s[i] == s[8..][i - 8];
    assert forall i :: 0 <= i < |s[8..]| ==> s[8..][i] == s[i + 8];
  }

  lemma TwoSeparators(s: Bytes)
    ensures SplitTwice(s).Some? <==> exists i, j :: 0 <= i < j < |s| && s[i] == 58 && s[j] == 58
  {
    var first := SplitOnce(s, 58);
    if first.Some? {
      var n := |first.value.0|;
      assert s[n] == 58 && first.value.1 == s[n + 1..];
      assert forall i :: 0 <= i < n ==> s[i] == first.value.0[i];
      if 58 in first.value.1 {
        var k :| 0 <= k < |first.value.1| && first.value.1[k] == 58;
        assert s[n + 1 + k] == 58;
      }
    }
  }

  /** Which fault of the parts decides the error: the handle's printing, the token's, the token's UTF-8,
      the ciphertext's printing, and the handle's UTF-8 last. */
  lemma FaultOrder(h: Bytes, t: Bytes, c: Bytes)
    requires 58 !in h && 58 !in t
    ensures var r := DecodePayload(Joined(h, t, c));
            if !Printed(h) then r == Err(BadHandleEncoding)
            else if !Printed(t) then r == Err(BadTokenEncoding)
            else if PrintedRaw(t) then r == Err(TokenNotUtf8)
            else if !Printed(c) then r == Err(BadCiphertextEncoding)
            else if PrintedRaw(h) then r == Err(HandleNotUtf8)
            else r.Ok?
  {
    assert Joined(h, t, c) == JoinV2(h, t, c);
    SplitJoinedV2(Joined(h, t, c), h, t, c);
    Readable(h);
    Readable(t);
    Readable(c);
    if Printed(h) && Printed(t) {
      ReadableText(h);
      ReadableText(t);
    }
  }

  lemma FaultOrderV1(h: Bytes, c: Bytes)
    requires 58 !in h
    ensures var r := DecodePayload(Ascii("aead:v1:") + (h + [58] + c));
            if !Printed(h) then r == Err(BadHandleEncoding)
            else if !Printed(c) then r == Err(BadCiphertextEncoding)
            else if PrintedRaw(h) then r == Err(HandleNotUtf8)
            else r.Ok?
  {
    SplitV1(h, c);
    Readable(h);
    Readable(c);
    if Printed(h) {
      ReadableText(h);
    }
  }

  lemma SplitV1(h: Bytes, c: Bytes)
    requires 58 !in h
    ensures SplitPayload(Ascii("aead:v1:") + (h + [58] + c)) == Ok(Parts(h, None, c))
  {
    var s := PREFIX_V1 + (h + [COLON] + c);
    PrefixesDiffer(s);
    assert s[|PREFIX_V1|..] == h + [COLON] + c;
    SplitOnceFirst(h, COLON, c);
  }

  /** A text cut at its first n NULs. */
  function Cells(s: Bytes, n: nat): seq<Bytes>
    decreases n
  {
    if n == 0 then [s]
    else
      match SplitOnce(s, 0)
      case None => [s]
      case Some((first, more)) => [first] + Cells(more, n - 1)
  }

  lemma FirstCell(first: Bytes, more: Bytes, n: nat)
    requires 0 !in first
    ensures Cells(first + [0] + more, n + 1) == [first] + Cells(more, n)
  {
    SplitOnceFirst(first, 0, more);
  }

  lemma NoNul(title: Bytes, name: Bytes)
    requires 0 !in title && 0 !in name
    ensures 0 !in title + name
  {
  }

  /** The associated data is NUL-separated: the schema, the table, the field, the row id, and then the purpose,
      which alone may hold NULs. */
  lemma AadCells(ctx: Context)
    requires NulFree(ctx.table) && NulFree(ctx.field)
    ensures Cells(RecordBoundAad(ctx), 3)
         == [Ascii("schema:v2"), Ascii("table:") + ctx.table, Ascii("field:") + ctx.field,
             Ascii("row:") + UuidText(ctx.row) + [0] + ctx.purpose]
  {
    var last := Ascii("row:") + UuidText(ctx.row) + [0] + ctx.purpose;
    var table, field := Ascii("table:") + ctx.table, Ascii("field:") + ctx.field;
    AadLayout(ctx, last, table, field);
    LabelsPlain();
    NoNul(Ascii("table:"), ctx.table);
    NoNul(Ascii("field:"), ctx.field);
    ThreeCells(Ascii("schema:v2"), table, field, last);
  }

  lemma LabelsPlain()
    ensures 0 !in Ascii("schema:v2") && 0 !in Ascii("table:") && 0 !in Ascii("field:")
  {
  }

  lemma ThreeCells(schema: Bytes, table: Bytes, field: Bytes, last: Bytes)
    requires 0 !in schema && 0 !in table && 0 !in field
    ensures Cells(schema + [0] + (table + [0] + (field + [0] + last)), 3) == [schema, table, field, last]
  {
    FirstCell(field, last, 0);
    FirstCell(table, field + [0] + last, 1);
    FirstCell(schema, table + [0] + (field + [0] + last), 2);
  }

  lemma AadLayout(ctx: Context, last: Bytes, table: Bytes, field: Bytes)
    requires last == Ascii("row:") + UuidText(ctx.row) + [0] + ctx.purpose
    requires table == Ascii("table:") + ctx.table && field == Ascii("field:") + ctx.field
    ensures RecordBoundAad(ctx) == Ascii("schema:v2") + [0] + (table + [0] + (field + [0] + last))
  {
    HeadPrints();
    Regroup(Ascii("schema:v2"), Ascii("table:"), ctx.table, FIELD, ctx.field, ROW, UuidText(ctx.row), ctx.purpose);
  }

  lemma HeadPrints()
    ensures HEAD == Ascii("schema:v2") + [0] + Ascii("table:")
  {
  }

  lemma Regroup(schema: Bytes, tl: Bytes, table: Bytes, fl: Bytes, field: Bytes, rl: Bytes, row: Bytes, purpose: Bytes)
    ensures (schema + [0] + tl) + (table + [0] + (fl + (field + [0] + (rl + (row + ([0] + purpose))))))
         == schema + [0] + ((tl + table) + [0] + ((fl + field) + [0] + (rl + row + [0] + purpose)))
  {
    assert rl + (row + ([0] + purpose)) == rl + row + [0] + purpose;
    assert fl + (field + [0] + (rl + row + [0] + purpose)) == (fl + field) + [0] + (rl + row + [0] + purpose);
  }

  // ---------- UTF-8 and white space ----------

  type CodePoint = c: int | 0 <= c < 0xD800 || 0xE000 <= c < 0x11_0000

  /** One code point in one to four bytes (section 3 of RFC 3629). */
  function EncodePoint(c: CodePoint): (s: Bytes)
    ensures 1 <= |s| <= 4
  {
    if c < 0x80 then [c]
    else if c < 0x800 then [0xC0 + c / 64, 0x80 + c % 64]
    else if c < 0x1_0000 then [0xE0 + c / 4096, 0x80 + c / 64 % 64, 0x80 + c % 64]
    else [0xF0 + c / 262144, 0x80 + c / 4096 % 64, 0x80 + c / 64 % 64, 0x80 + c % 64]
  }

  function EncodeText(points: seq<CodePoint>): Bytes {
    if points == [] then [] else EncodePoint(points[0]) + EncodeText(points[1..])
  }

  lemma PointLeads(c: CodePoint, rest: Bytes)
    ensures LeadLength(EncodePoint(c) + rest) == |EncodePoint(c)|
  {
    var s := EncodePoint(c) + rest;
    assert forall i :: 0 <= i < |EncodePoint(c)| ==> s[i] == EncodePoint(c)[i];
  }

  lemma TwoBytePoint(x: int, y: int) returns (c: CodePoint)
    requires 0xC2 <= x <= 0xDF && 0x80 <= y <= 0xBF
    ensures EncodePoint(c) == [x, y]
  {
    c := (x - 0xC0) * 64 + (y - 0x80);
  }

  lemma ThreeBytePoint(x: int, y: int, z: int) returns (c: CodePoint)
    requires 0xE0 <= x <= 0xEF && 0x80 <= y <= 0xBF && 0x80 <= z <= 0xBF
    requires (x == 0xE0 ==> y >= 0xA0) && (x == 0xED ==> y <= 0x9F)
    ensures EncodePoint(c) == [x, y, z]
  {
    var m := (x - 0xE0) * 64 + (y - 0x80);
    c := m * 64 + (z - 0x80);
    assert c / 64 == m && c % 64 == z - 0x80 && m % 64 == y - 0x80 && c / 4096 == m / 64 == x - 0xE0;
  }

  lemma FourBytePoint(x: int, y: int, z: int, w: int) returns (c: CodePoint)
    requires 0xF0 <= x <= 0xF4 && 0x80 <= y <= 0xBF && 0x80 <= z <= 0xBF && 0x80 <= w <= 0xBF
    requires (x == 0xF0 ==> y >= 0x90) && (x == 0xF4 ==> y <= 0x8F)
    ensures EncodePoint(c) == [x, y, z, w]
  {
    var m := (x - 0xF0) * 64 + (y - 0x80);
    var n := m * 64 + (z - 0x80);
    c := n * 64 + (w - 0x80);
    assert m / 64 == x - 0xF0 && m % 64 == y - 0x80;
    assert n / 64 == m && n % 64 == z - 0x80;
    assert c / 64 == n && c % 64 == w - 0x80;
    assert c / 4096 == n / 64 && c / 262144 == m / 64;
  }

  lemma LeadIsPoint(s: Bytes) returns (c: CodePoint)
    requires LeadLength(s) > 0
    ensures s[..LeadLength(s)] == EncodePoint(c)
  {
    var n := LeadLength(s);
    if n == 1 {
      c := s[0];
    } else if n == 2 {
      c := TwoBytePoint(s[0], s[1]);
    } else if n == 3 {
      c := ThreeBytePoint(s[0], s[1], s[2]);
    } else {
      c := FourBytePoint(s[0], s[1], s[2], s[3]);
    }
  }

  lemma TextCons(c: CodePoint, more: seq<CodePoint>)
    ensures EncodeText([c] + more) == EncodePoint(c) + EncodeText(more)
  {
    assert ([c] + more)[1..] == more;
  }

  lemma {:induction false} TextIsUtf8(points: seq<CodePoint>)
    ensures Utf8(EncodeText(points))
  {
    if points != [] {
      var c, tail := points[0], EncodeText(points[1..]);
      PointLeads(c, tail);
      TextIsUtf8(points[1..]);
      assert (EncodePoint(c) + tail)[|EncodePoint(c)|..] == tail;
    }
  }

  lemma {:induction false} Utf8IsText(s: Bytes) returns (points: seq<CodePoint>)
    requires Utf8(s)
    ensures EncodeText(points) == s
    decreases |s|
  {
    if s == [] {
      points := [];
    } else {
      var c, rest := FrontPoint(s);
      var more := Utf8IsText(rest);
      points := [c] + more;
      TextCons(c, more);
    }
  }

  lemma FrontPoint(s: Bytes) returns (c: CodePoint, rest: Bytes)
    requires Utf8(s) && s != []
    ensures s == EncodePoint(c) + rest && Utf8(rest) && |rest| < |s|
  {
    var n := LeadLength(s);
    c := LeadIsPoint(s);
    rest := s[n..];
    assert s == s[..n] + rest;
  }

  /** Bytes are a well-formed text exactly when they encode some code points. */
  lemma Utf8Means(s: Bytes)
    ensures Utf8(s) <==> exists points :: EncodeText(points) == s
  {
    if Utf8(s) {
      var points := Utf8IsText(s);
    }
    forall points | EncodeText(points) == s ensures Utf8(s) {
      TextIsUtf8(points);
    }
  }

  /** The code points with the property White_Space. */
  predicate WhiteSpace(c: CodePoint) {
    9 <= c <= 13 || c == 0x20 || c == 0x85 || c == 0xA0 || c == 0x1680 || 0x2000 <= c <= 0x200A
    || c == 0x2028 || c == 0x2029 || c == 0x202F || c == 0x205F || c == 0x3000
  }

  lemma WhiteIsPoint(s: Bytes) returns (c: CodePoint)
    requires White(s)
    ensures WhiteSpace(c) && EncodePoint(c) == s
  {
    var x: int, y: int, z: int := ByteAt(s, 0), ByteAt(s, 1), ByteAt(s, 2);
    if |s| == 1 {
      c := x;
    } else if |s| == 2 {
      c := (x - 0xC0) * 64 + (y - 0x80);
    } else {
      c := (x - 0xE0) * 4096 + (y - 0x80) * 64 + (z - 0x80);
    }
  }

  lemma PointIsWhite(c: CodePoint)
    requires WhiteSpace(c)
    ensures White(EncodePoint(c)) && |EncodePoint(c)| <= 3
  {
    if c < 0x80 {
    } else if c < 0x800 {
      assert EncodePoint(c)[1] == 0x85 || EncodePoint(c)[1] == 0xA0;
    } else {
      var s := EncodePoint(c);
      assert 0x2000 <= c <= 0x202F ==> c / 4096 == 2 && c / 64 % 64 == 0;
    }
  }

  ghost predicate AllWhite(points: seq<CodePoint>) {
    forall i :: 0 <= i < |points| ==> WhiteSpace(points[i])
  }

  lemma {:induction false} TrimStartCuts(s: Bytes) returns (front: seq<CodePoint>)
    ensures AllWhite(front) && s == EncodeText(front) + TrimStart(s)
    decreases |s|
  {
    var n := LeadingWhite(s);
    if n == 0 {
      front := [];
    } else {
      var c := WhiteIsPoint(s[..n]);
      var more := TrimStartCuts(s[n..]);
      front := [c] + more;
      TextCons(c, more);
      Cut(s, n, EncodeText(more), TrimStart(s));
    }
  }

  lemma {:induction false} TextAppend(a: seq<CodePoint>, b: seq<CodePoint>)
    ensures EncodeText(a + b) == EncodeText(a) + EncodeText(b)
  {
    if a == [] {
      assert a + b == b;
    } else {
      assert (a + b)[1..] == a[1..] + b;
      TextAppend(a[1..], b);
    }
  }

  lemma TextSnoc(more: seq<CodePoint>, c: CodePoint)
    ensures EncodeText(more + [c]) == EncodeText(more) + EncodePoint(c)
  {
    TextAppend(more, [c]);
    TextCons(c, []);
    assert [c] + [] == [c] && EncodePoint(c) + [] == EncodePoint(c);
  }

  lemma Cut(s: Bytes, n: nat, a: Bytes, b: Bytes)
    requires n <= |s| && s[n..] == a + b
    ensures s == (s[..n] + a) + b
  {
  }

  /** A way to cut white-space characters from the end, one after the other. */
  ghost predicate CutsEnd(cut: Bytes -> nat, trim: Bytes -> Bytes, s: Bytes) {
    cut(s) <= |s|
    && if cut(s) == 0 then trim(s) == s else White(s[|s| - cut(s)..]) && trim(s) == trim(s[..|s| - cut(s)])
  }

  lemma LastPoint(cut: Bytes -> nat, trim: Bytes -> Bytes, s: Bytes) returns (front: Bytes, c: CodePoint)
    requires CutsEnd(cut, trim, s) && cut(s) > 0
    ensures WhiteSpace(c) && s == front + EncodePoint(c) && |front| < |s| && trim(s) == trim(front)
  {
    front := s[..|s| - cut(s)];
    c := WhiteIsPoint(s[|s| - cut(s)..]);
  }

  lemma {:induction false} EndCuts(cut: Bytes -> nat, trim: Bytes -> Bytes, s: Bytes) returns (back: seq<CodePoint>)
    requires forall t {:trigger CutsEnd(cut, trim, t)} :: CutsEnd(cut, trim, t)
    ensures AllWhite(back) && s == trim(s) + EncodeText(back)
    decreases |s|
  {
    assert CutsEnd(cut, trim, s);
    if cut(s) == 0 {
      back := [];
    } else {
      var front, c := LastPoint(cut, trim, s);
      var more := EndCuts(cut, trim, front);
      back := more + [c];
      CutEnd(s, front, EncodePoint(c), trim(front), more, c);
    }
  }

  lemma TrimEndCuts(s: Bytes) returns (back: seq<CodePoint>)
    ensures AllWhite(back) && s == TrimEnd(s) + EncodeText(back)
  {
    back := EndCuts(TrailingWhite, TrimEnd, s);
  }

  lemma CutEnd(s: Bytes, front: Bytes, w: Bytes, t: Bytes, more: seq<CodePoint>, c: CodePoint)
    requires s == front + w && front == t + EncodeText(more) && w == EncodePoint(c)
    ensures s == t + EncodeText(more + [c])
  {
    TextSnoc(more, c);
  }

  lemma WhiteFront(s: Bytes, w: Bytes)
    requires w <= s && White(w)
    ensures LeadingWhite(s) > 0
  {
    assert s[..|w|] == w;
  }

  lemma WhiteBack(s: Bytes, t: Bytes, w: Bytes)
    requires s == t + w && White(w)
    ensures TrailingWhite(s) > 0
  {
    assert s[|s| - |w|..] == w;
  }

  /** Neither end is white space. */
  ghost predicate BareEnds(s: Bytes) {
    forall c: CodePoint :: WhiteSpace(c) ==> !(EncodePoint(c) <= s) && forall t :: s != t + EncodePoint(c)
  }

  lemma TrimmedBare(s: Bytes)
    ensures Trimmed(s) ==> BareEnds(s)
  {
    forall c: CodePoint | WhiteSpace(c) && EncodePoint(c) <= s ensures LeadingWhite(s) > 0 {
      PointIsWhite(c);
      WhiteFront(s, EncodePoint(c));
    }
    forall c: CodePoint, t | WhiteSpace(c) && s == t + EncodePoint(c) ensures TrailingWhite(s) > 0 {
      PointIsWhite(c);
      WhiteBack(s, t, EncodePoint(c));
    }
  }

  /** Trimming cuts white space from both ends and nothing else, and leaves none there. */
  lemma TrimCuts(s: Bytes) returns (front: seq<CodePoint>, back: seq<CodePoint>)
    ensures AllWhite(front) && AllWhite(back) && BareEnds(Trim(s))
    ensures s == EncodeText(front) + Trim(s) + EncodeText(back)
  {
    front := TrimStartCuts(s);
    back := TrimEndCuts(TrimStart(s));
    TrimExact(s);
    TrimmedBare(Trim(s));
  }
}

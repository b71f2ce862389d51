/** The padded standard Base64 alphabet (sections 3.5 and 4 of RFC 4648): padding is required and
    canonical, and the unused low bits of the last symbol must be zero. */
module Base64 {
  import opened Text

  type sextet = v: int | 0 <= v < 64

  const PAD: byte := 61

  function Symbol(v: sextet): byte {
    if v < 26 then 65 + v
    else if v < 52 then 71 + v
    else if v < 62 then v - 4
    else if v == 62 then 43
    else 47
  }

  function SymbolValue(c: byte): Option<sextet> {
    if 65 <= c <= 90 then Some(c - 65)
    else if 97 <= c <= 122 then Some(c - 71)
    else if 48 <= c <= 57 then Some(c + 4)
    else if c == 43 then Some(62)
    else if c == 47 then Some(63)
    else None
  }

  lemma SymbolsExact(v: sextet, c: byte)
    ensures SymbolValue(c) == Some(v) <==> Symbol(v) == c
    ensures Symbol(v) != PAD
  {
  }

  /** Three bytes as four six-bit groups. */
  function Group(b: Bytes): (v: seq<sextet>)
    requires |b| == 3
  {
    [b[0] / 4, b[0] % 4 * 16 + b[1] / 16, b[1] % 16 * 4 + b[2] / 64, b[2] % 64]
  }

  function Ungroup(v: seq<sextet>): (b: Bytes)
    requires |v| == 4
  {
    var v0: int, v1: int, v2: int, v3: int := v[0], v[1], v[2], v[3];
    [v0 * 4 + v1 / 16, v1 % 16 * 16 + v2 / 4, v2 % 4 * 64 + v3]
  }

  /** The two splittings of 24 bits determine each other. */
  lemma SameBits(b0: byte, b1: byte, b2: byte, v0: sextet, v1: sextet, v2: sextet, v3: sextet)
    ensures v0 == b0 / 4 && v1 == b0 % 4 * 16 + b1 / 16 && v2 == b1 % 16 * 4 + b2 / 64 && v3 == b2 % 64
       <==> b0 == v0 * 4 + v1 / 16 && b1 == v1 % 16 * 16 + v2 / 4 && b2 == v2 % 4 * 64 + v3
  {
    assert v1 == b0 % 4 * 16 + b1 / 16 <==> v1 / 16 == b0 % 4 && v1 % 16 == b1 / 16;
    assert v2 == b1 % 16 * 4 + b2 / 64 <==> v2 / 4 == b1 % 16 && v2 % 4 == b2 / 64;
    assert b0 == v0 * 4 + v1 / 16 <==> b0 / 4 == v0 && b0 % 4 == v1 / 16;
    assert b1 == v1 % 16 * 16 + v2 / 4 <==> b1 / 16 == v1 % 16 && b1 % 16 == v2 / 4;
    assert b2 == v2 % 4 * 64 + v3 <==> b2 / 64 == v2 % 4 && b2 % 64 == v3;
  }

  lemma GroupUngroup(b: Bytes, v: seq<sextet>)
    requires |b| == 3 && |v| == 4
    ensures Ungroup(v) == b <==> v == Group(b)
  {
    SameBits(b[0], b[1], b[2], v[0], v[1], v[2], v[3]);
    if Ungroup(v) == b {
      assert v[0] == Group(b)[0] && v[1] == Group(b)[1] && v[2] == Group(b)[2] && v[3] == Group(b)[3];
    }
    if v == Group(b) {
      assert b[0] == Ungroup(v)[0] && b[1] == Ungroup(v)[1] && b[2] == Ungroup(v)[2];
    }
  }

  function Symbols(v: seq<sextet>): (s: Bytes)
    ensures |s| == |v|
  {
    seq(|v|, i requires 0 <= i < |v| => Symbol(v[i]))
  }

  predicate AllSymbols(s: Bytes) { forall i :: 0 <= i < |s| ==> SymbolValue(s[i]).Some? }

  function Values(s: Bytes): (v: seq<sextet>)
    requires AllSymbols(s)
    ensures |v| == |s|
  {
    seq(|s|, i requires 0 <= i < |s| => SymbolValue(s[i]).value)
  }

  lemma SymbolsValues(v: seq<sextet>, s: Bytes)
    ensures AllSymbols(Symbols(v)) && Values(Symbols(v)) == v
    ensures AllSymbols(s) ==> Symbols(Values(s)) == s
  {
  }

  function Encode(b: Bytes): (s: Bytes) {
    if b == [] then []
    else if |b| == 1 then Symbols(Group(b + [0, 0])[..2]) + [PAD, PAD]
    else if |b| == 2 then Symbols(Group(b + [0])[..3]) + [PAD]
    else Symbols(Group(b[..3])) + Encode(b[3..])
  }

  /** A last group that ends in padding: two or three symbols whose unused low bits are zero. */
  function DecodePadded(s: Bytes): (r: Option<Bytes>)
    requires |s| == 4 && s[3] == PAD
    ensures r.Some? ==> |r.value| == (if s[2] == PAD then 1 else 2)
  {
    var n := if s[2] == PAD then 2 else 3;
    if !AllSymbols(s[..n]) then None
    else
      var v := Values(s[..n]) + (if n == 2 then [0, 0] else [0]);
      var b := Ungroup(v);
      if b[n - 1] == 0 then Some(b[..n - 1]) else None
  }

  function Decode(s: Bytes): (r: Option<Bytes>)
    decreases |s|
  {
    if s == [] then Some([])
    else if |s| < 4 then None
    else if |s| == 4 && s[3] == PAD then DecodePadded(s)
    else
      var rest := Decode(s[4..]);
      if !AllSymbols(s[..4]) || rest.None? then None
      else Some(Ungroup(Values(s[..4])) + rest.value)
  }

  lemma EncodeOneGroup(b: Bytes)
    requires 1 <= |b| <= 2
    ensures |Encode(b)| == 4 && Encode(b)[3] == PAD && DecodePadded(Encode(b)) == Some(b)
  {
    var full := b + (if |b| == 1 then [0, 0] else [0]);
    var n, s := |b| + 1, Encode(b);
    SymbolsValues(Group(full)[..n], s);
    assert s[..n] == Symbols(Group(full)[..n]);
    assert Values(s[..n]) + (if n == 2 then [0, 0] else [0]) == Group(full);
    GroupUngroup(full, Group(full));
  }

  lemma DecodeOneGroup(s: Bytes)
    requires |s| == 4 && s[3] == PAD && DecodePadded(s).Some?
    ensures Encode(DecodePadded(s).value) == s
  {
    var n := if s[2] == PAD then 2 else 3;
    var v := Values(s[..n]) + (if n == 2 then [0, 0] else [0]);
    var b := DecodePadded(s).value;
    assert b + (if |b| == 1 then [0, 0] else [0]) == Ungroup(v);
    GroupUngroup(Ungroup(v), v);
    SymbolsValues(v, s[..n]);
    assert Group(Ungroup(v))[..n] == Values(s[..n]);
  }

  lemma DecodeFullGroup(b: Bytes, rest: Bytes)
    requires |b| == 3
    ensures AllSymbols((Symbols(Group(b)) + rest)[..4])
    ensures (Symbols(Group(b)) + rest)[3] != PAD
    ensures Ungroup(Values((Symbols(Group(b)) + rest)[..4])) == b
  {
    var v := Group(b);
    assert (Symbols(v) + rest)[..4] == Symbols(v);
    SymbolsValues(v, []);
    GroupUngroup(b, v);
    SymbolsExact(v[3], Symbols(v)[3]);
  }

  /** Decoding is exactly the inverse of encoding: every byte string is recovered from its
      encoding, and a text decodes only if it is the encoding of the result. */
  lemma {:induction false} DecodeEncode(b: Bytes)
    ensures Decode(Encode(b)) == Some(b)
  {
    if b == [] {
    } else if |b| <= 2 {
      EncodeOneGroup(b);
    } else {
      DecodeFullGroup(b[..3], Encode(b[3..]));
      DecodeEncode(b[3..]);
      assert Encode(b)[4..] == Encode(b[3..]);
      assert b == b[..3] + b[3..];
    }
  }

  lemma {:induction false} EncodeDecode(s: Bytes)
    requires Decode(s).Some?
    ensures Encode(Decode(s).value) == s
    decreases |s|
  {
    if |s| == 4 && s[3] == PAD {
      DecodeOneGroup(s);
    } else if s != [] {
      EncodeDecode(s[4..]);
      var v, b := Values(s[..4]), Decode(s).value;
      assert b[..3] == Ungroup(v) && b[3..] == Decode(s[4..]).value;
      GroupUngroup(Ungroup(v), v);
      SymbolsValues(v, s[..4]);
      assert s == s[..4] + s[4..];
    }
  }

  lemma DecodeExact(s: Bytes, b: Bytes)
    ensures Decode(s) == Some(b) <==> s == Encode(b)
  {
    DecodeEncode(b);
    if Decode(s) == Some(b) {
      EncodeDecode(s);
    }
  }

  /** Encoded text is ASCII and never holds the byte ':' that separates envelope parts. */
  lemma {:induction false} EncodeAlphabet(b: Bytes)
    ensures forall i :: 0 <= i < |Encode(b)| ==> Encode(b)[i] < 0x80 && Encode(b)[i] != 58
    ensures |Encode(b)| == (|b| + 2) / 3 * 4
  {
    if |b| >= 3 {
      EncodeAlphabet(b[3..]);
    }
  }
}

/** Hexadecimal text as the `hex` crate reads and prints it: lower-case output, either case on input. */
module Hex {
  import opened Text

  function Digit(n: int): byte
    requires 0 <= n < 16
  {
    if n < 10 then 48 + n else 87 + n
  }

  function DigitValue(c: byte): (v: Option<int>)
    ensures v.Some? ==> 0 <= v.value < 16
  {
    if 48 <= c <= 57 then Some(c - 48)
    else if 97 <= c <= 102 then Some(c - 87)
    else if 65 <= c <= 70 then Some(c - 55)
    else None
  }

  function Encode(b: Bytes): (s: Bytes)
    ensures |s| == 2 * |b|
  {
    if b == [] then [] else [Digit(b[0] / 16), Digit(b[0] % 16)] + Encode(b[1..])
  }

  function Decode(s: Bytes): (r: Option<Bytes>)
    ensures r.Some? ==> |s| == 2 * |r.value|
  {
    if s == [] then Some([])
    else if |s| == 1 then None
    else
      var high, low := DigitValue(s[0]), DigitValue(s[1]);
      var rest := Decode(s[2..]);
      if high.None? || low.None? || rest.None? then None
      else Some([high.value * 16 + low.value] + rest.value)
  }

  function LowerByte(c: byte): byte {
    if 65 <= c <= 90 then c + 32 else c
  }

  /** Upper-case letters fold to lower case; every other byte stays. */
  function Lower(s: Bytes): (t: Bytes)
    ensures |t| == |s|
  {
    seq(|s|, i requires 0 <= i < |s| => LowerByte(s[i]))
  }

  lemma DigitExact(c: byte, n: int)
    requires 0 <= n < 16
    ensures DigitValue(c) == Some(n) <==> LowerByte(c) == Digit(n)
  {
  }

  lemma PairExact(s: Bytes, b: byte)
    requires |s| >= 2
    ensures DigitValue(s[0]).Some? && DigitValue(s[1]).Some?
            && DigitValue(s[0]).value * 16 + DigitValue(s[1]).value == b
        <==> Lower(s)[..2] == [Digit(b / 16), Digit(b % 16)]
  {
    DigitExact(s[0], b / 16);
    DigitExact(s[1], b % 16);
    var pair := Lower(s)[..2];
    assert pair[0] == LowerByte(s[0]) && pair[1] == LowerByte(s[1]) && pair == [pair[0], pair[1]];
  }

  /** Reading inverts printing, in either case, and accepts nothing else. */
  lemma {:induction false} DecodeExact(s: Bytes, b: Bytes)
    ensures Decode(s) == Some(b) <==> Lower(s) == Encode(b)
    decreases |s|
  {
    if s == [] || b == [] {
      assert s == [] ==> Lower(s) == [];
    } else if |s| >= 2 {
      DecodeExact(s[2..], b[1..]);
      PairExact(s, b[0]);
      var head := [Digit(b[0] / 16), Digit(b[0] % 16)];
      assert Lower(s) == Lower(s)[..2] + Lower(s[2..]);
      assert Lower(s) == head + Encode(b[1..]) <==> Lower(s)[..2] == head && Lower(s[2..]) == Encode(b[1..]) by {
        assert (head + Encode(b[1..]))[..2] == head && (head + Encode(b[1..]))[2..] == Encode(b[1..]);
        assert Lower(s)[2..] == Lower(s[2..]);
      }
      assert b == [b[0]] + b[1..];
    }
  }

  lemma {:induction false} EncodeIsLowerHex(b: Bytes)
    ensures forall i :: 0 <= i < |Encode(b)| ==> DigitValue(Encode(b)[i]).Some?
    ensures Lower(Encode(b)) == Encode(b)
  {
    if b != [] {
      EncodeIsLowerHex(b[1..]);
    }
  }

  lemma EncodeInjective(a: Bytes, b: Bytes)
    requires Encode(a) == Encode(b)
    ensures a == b
  {
    EncodeIsLowerHex(a);
    DecodeExact(Encode(a), a);
    DecodeExact(Encode(a), b);
  }
}

/** Byte-level text. A Rust `String` is a byte sequence that is well-formed UTF-8, so text is
    modelled as bytes and well-formedness as a predicate on them. */
module Text {
  type byte = b: int | 0 <= b < 256
  type Bytes = seq<byte>

  datatype Option<+T> = None | Some(value: T)

  datatype Result<+T, +E> = Ok(value: T) | Err(error: E) {
    predicate IsFailure() { Err? }
    function PropagateFailure<U>(): Result<U, E>
      requires Err?
    {
      Err(error)
    }
    function Extract(): T
      requires Ok?
    {
      value
    }
  }

  /** The bytes of an ASCII literal ('?' would stand for any other character). */
  function Ascii(s: string): Bytes {
    seq(|s|, i requires 0 <= i < |s| => if s[i] < 128 as char then s[i] as int else 63)
  }

  // ---------- Splitting ----------

  /** Split at the first occurrence of c. */
  function SplitOnce(s: Bytes, c: byte): (r: Option<(Bytes, Bytes)>)
    ensures r.None? <==> c !in s
    ensures r.Some? ==> s == r.value.0 + [c] + r.value.1 && c !in r.value.0
  {
    if s == [] then None
    else if s[0] == c then Some(([], s[1..]))
    else
      match SplitOnce(s[1..], c)
      case None => None
      case Some((front, back)) => Some(([s[0]] + front, back))
  }

  lemma {:induction false} SplitOnceFirst(front: Bytes, c: byte, back: Bytes)
    requires c !in front
    ensures SplitOnce(front + [c] + back, c) == Some((front, back))
  {
    var s := front + [c] + back;
    if front == [] {
      assert s[1..] == back;
    } else {
      assert s[1..] == front[1..] + [c] + back;
      SplitOnceFirst(front[1..], c, back);
      assert SplitOnce(s[1..], c) == Some((front[1..], back));
      assert front == [s[0]] + front[1..];
    }
  }

  // ---------- UTF-8 (section 4 of RFC 3629) ----------

  predicate Tail(b: byte) { 0x80 <= b <= 0xBF }

  /** Length of the well-formed UTF-8 character at the front of s, or 0 when there is none. */
  function LeadLength(s: Bytes): (n: nat)
    ensures n <= |s|
  {
    if s == [] then 0
    else if s[0] < 0x80 then 1
    else if 0xC2 <= s[0] <= 0xDF then
      if |s| >= 2 && Tail(s[1]) then 2 else 0
    else if 0xE0 <= s[0] <= 0xEF then
      if |s| >= 3 && Tail(s[1]) && Tail(s[2])
         && (s[0] == 0xE0 ==> s[1] >= 0xA0) && (s[0] == 0xED ==> s[1] <= 0x9F) then 3 else 0
    else if 0xF0 <= s[0] <= 0xF4 then
      if |s| >= 4 && Tail(s[1]) && Tail(s[2]) && Tail(s[3])
         && (s[0] == 0xF0 ==> s[1] >= 0x90) && (s[0] == 0xF4 ==> s[1] <= 0x8F) then 4 else 0
    else 0
  }

  predicate Utf8(s: Bytes)
    decreases |s|
  {
    s == [] || (LeadLength(s) > 0 && Utf8(s[LeadLength(s)..]))
  }

  lemma {:induction false} AsciiIsUtf8(s: Bytes)
    requires forall i :: 0 <= i < |s| ==> s[i] < 0x80
    ensures Utf8(s)
  {
    if s != [] {
      AsciiIsUtf8(s[1..]);
    }
  }

  // ---------- Trimming: the characters with the Unicode property White_Space ----------

  /** The White_Space characters that UTF-8 writes in two or three bytes. */
  predicate WideWhite(s: Bytes) {
    (|s| == 2 && s[0] == 0xC2 && (s[1] == 0x85 || s[1] == 0xA0))
    || (|s| == 3 && s[0] == 0xE1 && s[1] == 0x9A && s[2] == 0x80)
    || (|s| == 3 && s[0] == 0xE2 && s[1] == 0x80
        && (0x80 <= s[2] <= 0x8A || s[2] == 0xA8 || s[2] == 0xA9 || s[2] == 0xAF))
    || (|s| == 3 && s[0] == 0xE2 && s[1] == 0x81 && s[2] == 0x9F)
    || (|s| == 3 && s[0] == 0xE3 && s[1] == 0x80 && s[2] == 0x80)
  }

  predicate White(s: Bytes) {
    (|s| == 1 && (9 <= s[0] <= 13 || s[0] == 32)) || WideWhite(s)
  }

  function LeadingWhite(s: Bytes): (n: nat)
    ensures n <= |s| && (n > 0 ==> White(s[..n]))
  {
    if |s| >= 1 && White(s[..1]) then 1
    else if |s| >= 2 && White(s[..2]) then 2
    else if |s| >= 3 && White(s[..3]) then 3
    else 0
  }

  function TrailingWhite(s: Bytes): (n: nat)
    ensures n <= |s| && (n > 0 ==> White(s[|s| - n..]))
  {
    if |s| >= 1 && White(s[|s| - 1..]) then 1
    else if |s| >= 2 && White(s[|s| - 2..]) then 2
    else if |s| >= 3 && White(s[|s| - 3..]) then 3
    else 0
  }

  function TrimStart(s: Bytes): (t: Bytes)
    ensures LeadingWhite(t) == 0
    decreases |s|
  {
    var n := LeadingWhite(s);
    if n == 0 then s else TrimStart(s[n..])
  }

  function TrimEnd(s: Bytes): (t: Bytes)
    ensures TrailingWhite(t) == 0
    ensures t <= s
    decreases |s|
  {
    var n := TrailingWhite(s);
    if n == 0 then s else TrimEnd(s[..|s| - n])
  }

  function Trim(s: Bytes): Bytes { TrimEnd(TrimStart(s)) }

  /** Neither end of s is a white-space character: the texts that trimming leaves alone. */
  predicate Trimmed(s: Bytes) { LeadingWhite(s) == 0 && TrailingWhite(s) == 0 }

  lemma FrontKept(s: Bytes, t: Bytes)
    requires t <= s && LeadingWhite(s) == 0
    ensures LeadingWhite(t) == 0
  {
    var n := LeadingWhite(t);
    assert t[..n] == s[..n];
  }

  lemma TrimExact(s: Bytes)
    ensures Trimmed(Trim(s))
    ensures Trim(s) == s <==> Trimmed(s)
  {
    FrontKept(TrimStart(s), Trim(s));
  }
}

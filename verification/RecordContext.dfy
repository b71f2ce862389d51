/** The associated data that binds a protected value to its table, field, row and purpose. */
module RecordContext {
  import opened Text
  import Hex

  const NUL: byte := 0
  const DASH: byte := 45

  type Uuid = u: Bytes | |u| == 16 witness seq(16, i => 0)

  datatype Context = Context(table: Bytes, field: Bytes, row: Uuid, purpose: Bytes)

  predicate NulFree(s: Bytes) { NUL !in s }

  /** Lower-case hexadecimal in groups of 8-4-4-4-12 digits (section 4 of RFC 9562). */
  function UuidText(u: Uuid): (s: Bytes)
    ensures |s| == 36
  {
    Hex.Encode(u[..4]) + [DASH] + Hex.Encode(u[4..6]) + [DASH] + Hex.Encode(u[6..8]) + [DASH]
    + Hex.Encode(u[8..10]) + [DASH] + Hex.Encode(u[10..])
  }

  const HEAD: Bytes := Ascii("schema:v2\0table:")
  const FIELD: Bytes := Ascii("field:")
  const ROW: Bytes := Ascii("row:")

  function RecordBoundAad(ctx: Context): Bytes {
    HEAD + (ctx.table + [NUL]
    + (FIELD + (ctx.field + [NUL]
    + (ROW + (UuidText(ctx.row) + ([NUL] + ctx.purpose))))))
  }

  lemma UuidTextInjective(u: Uuid, v: Uuid)
    requires UuidText(u) == UuidText(v)
    ensures u == v
  {
    var s, t := UuidText(u), UuidText(v);
    assert Hex.Encode(u[..4]) == s[..8] && Hex.Encode(v[..4]) == t[..8];
    assert Hex.Encode(u[4..6]) == s[9..13] && Hex.Encode(v[4..6]) == t[9..13];
    assert Hex.Encode(u[6..8]) == s[14..18] && Hex.Encode(v[6..8]) == t[14..18];
    assert Hex.Encode(u[8..10]) == s[19..23] && Hex.Encode(v[8..10]) == t[19..23];
    assert Hex.Encode(u[10..]) == s[24..] && Hex.Encode(v[10..]) == t[24..];
    Hex.EncodeInjective(u[..4], v[..4]);
    Hex.EncodeInjective(u[4..6], v[4..6]);
    Hex.EncodeInjective(u[6..8], v[6..8]);
    Hex.EncodeInjective(u[8..10], v[8..10]);
    Hex.EncodeInjective(u[10..], v[10..]);
    assert u == u[..4] + u[4..6] + u[6..8] + u[8..10] + u[10..];
    assert v == v[..4] + v[4..6] + v[6..8] + v[8..10] + v[10..];
  }

  lemma SamePrefix(p: Bytes, q: Bytes, a: Bytes, b: Bytes)
    requires |p| == |q| && p + a == q + b
    ensures p == q && a == b
  {
    assert p == (p + a)[..|p|] && q == (q + b)[..|q|];
    assert a == (p + a)[|p|..] && b == (q + b)[|q|..];
  }

  /** A NUL-terminated name can be read back: equal texts have equal names and equal remainders. */
  lemma NulTerminated(m: Bytes, n: Bytes, a: Bytes, b: Bytes)
    requires NulFree(m) && NulFree(n)
    requires m + [NUL] + a == n + [NUL] + b
    ensures m == n && a == b
  {
    SplitOnceFirst(m, NUL, a);
    SplitOnceFirst(n, NUL, b);
  }

  /** Equal associated data means equal context, whatever bytes the purpose holds. */
  lemma AadInjective(c: Context, d: Context)
    requires NulFree(c.table) && NulFree(c.field) && NulFree(d.table) && NulFree(d.field)
    requires RecordBoundAad(c) == RecordBoundAad(d)
    ensures c == d
  {
    var row1 := UuidText(c.row) + ([NUL] + c.purpose);
    var row2 := UuidText(d.row) + ([NUL] + d.purpose);
    var field1 := c.field + [NUL] + (ROW + row1);
    var field2 := d.field + [NUL] + (ROW + row2);
    SamePrefix(HEAD, HEAD, c.table + [NUL] + (FIELD + field1), d.table + [NUL] + (FIELD + field2));
    NulTerminated(c.table, d.table, FIELD + field1, FIELD + field2);
    SamePrefix(FIELD, FIELD, field1, field2);
    NulTerminated(c.field, d.field, ROW + row1, ROW + row2);
    SamePrefix(ROW, ROW, row1, row2);
    SamePrefix(UuidText(c.row), UuidText(d.row), [NUL] + c.purpose, [NUL] + d.purpose);
    SamePrefix([NUL], [NUL], c.purpose, d.purpose);
    UuidTextInjective(c.row, d.row);
  }
}

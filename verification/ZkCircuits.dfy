/** Commitments, and the gate polynomials that tie them to the prover's private values. */
module ZkCircuits {
  import opened Text
  import opened Modular
  import opened PallasCertificate
  import opened PallasField

  // ---------- Commitments ----------

  type Hash = Bytes -> digest

  function Normalise(sha: Hash, d: Bytes): digest {
    if |d| == 32 then d else sha(d)
  }

  function InputScalar(sha: Hash, d: Bytes): scalar {
    DigestToScalar(Normalise(sha, d))
  }

  function RelayCommitment(sha: Hash, consensus: Bytes, guards: u32, exits: u32): digest {
    ScalarToBytes(Add(Add(InputScalar(sha, consensus), guards), exits))
  }

  function LogChainCommitment(sha: Hash, previous: Bytes, entry: Bytes, sequence: u64): digest {
    ScalarToBytes(Add(InputScalar(sha, previous), Mul(InputScalar(sha, entry), sequence)))
  }

  function ExecutionCommitment(sha: Hash, input: Bytes, output: Bytes, telemetry: Bytes): digest {
    ScalarToBytes(Add(Add(InputScalar(sha, input), InputScalar(sha, output)), InputScalar(sha, telemetry)))
  }

  lemma AddCancels(x: scalar, y: scalar, z: scalar)
    ensures Add(x, y) == Add(x, z) <==> y == z
  {
    SameRemainder(x + y, x + z, P);
    assert x + y - (x + z) == y - z;
    SameRemainder(y, z, P);
    SmallRemainder(y, P);
    SmallRemainder(z, P);
  }

  function Total(x: scalar, y: scalar, z: scalar): scalar { (x + y + z) % P }

  function Chained(previous: scalar, entry: scalar, sequence: scalar): scalar {
    (previous + entry * sequence) % P
  }

  lemma RelaySum(s: scalar, g: scalar, x: scalar)
    ensures Add(Add(s, g), x) == Total(s, g, x) == Add(s, Add(g, x))
  {
    LeftSum(s, g, x);
    LeftSum(g, x, s);
    assert s + g + x == g + x + s;
  }

  lemma LeftSum(s: scalar, g: scalar, x: scalar)
    ensures Add(Add(s, g), x) == Total(s, g, x) == Add(x, Add(s, g))
  {
    AddRemainder(s + g, x, P);
  }

  lemma MulIsZero(d: u64, x: scalar)
    ensures Mul(d, x) == 0 <==> d == 0 || x == 0
  {
    if Mul(d, x) == 0 && d != 0 {
      SmallFactorCancels(d, x);
      SmallRemainder(x, P);
    }
    if d == 0 || x == 0 {
      assert d * x == 0;
    }
  }

  /** Multiples of one scalar by two small numbers, and of two scalars by one small number. */
  lemma MulCancels(d: u64, x: scalar, y: scalar)
    ensures Mul(x, d) == Mul(y, d) <==> d == 0 || x == y
    decreases x < y
  {
    if x < y {
      MulCancels(d, y, x);
    } else {
      MulIsZero(d, x - y);
      SameRemainder(x * d, y * d, P);
      assert x * d - y * d == d * (x - y);
    }
  }

  lemma MultiplesDiffer(s: u64, t: u64, x: scalar)
    ensures Mul(x, s) == Mul(x, t) <==> s == t || x == 0
    decreases s < t
  {
    if s < t {
      MultiplesDiffer(t, s, x);
    } else {
      MulIsZero(s - t, x);
      SameRemainder(x * s, x * t, P);
      assert x * s - x * t == (s - t) * x;
    }
  }

  /** Fixing both digests, a log commitment determines its sequence number exactly when the entry's
      scalar is not zero. */
  lemma SequenceDetermined(sha: Hash, previous: Bytes, entry: Bytes, s: u64, t: u64)
    ensures LogChainCommitment(sha, previous, entry, s) == LogChainCommitment(sha, previous, entry, t)
        <==> s == t || InputScalar(sha, entry) == 0
  {
    var p, e := InputScalar(sha, previous), InputScalar(sha, entry);
    ScalarBytesInjective(Add(p, Mul(e, s)), Add(p, Mul(e, t)));
    AddCancels(p, Mul(e, s), Mul(e, t));
    MultiplesDiffer(s, t, e);
  }

  /** Fixing the previous digest and the sequence number, a log commitment determines the entry's
      scalar exactly when the sequence number is not zero. */
  lemma EntryDetermined(sha: Hash, previous: Bytes, entry: Bytes, other: Bytes, s: u64)
    ensures LogChainCommitment(sha, previous, entry, s) == LogChainCommitment(sha, previous, other, s)
        <==> s == 0 || InputScalar(sha, entry) == InputScalar(sha, other)
  {
    var p, e, f := InputScalar(sha, previous), InputScalar(sha, entry), InputScalar(sha, other);
    ScalarBytesInjective(Add(p, Mul(e, s)), Add(p, Mul(f, s)));
    AddCancels(p, Mul(e, s), Mul(f, s));
    MulCancels(s, e, f);
  }

  lemma CountSum(g: u32, x: u32)
    ensures Add(g, x) == g + x
  {
    SmallRemainder(g + x, P);
  }

  lemma AddCommutes(x: scalar, y: scalar)
    ensures Add(x, y) == Add(y, x)
  {
  }

  /** A relay commitment pins the consensus scalar for given counts, and for a given consensus only
      the sum of the counts: the counts themselves are bound by the public inputs. */
  lemma RelayDetermined(sha: Hash, c: Bytes, d: Bytes, g: u32, x: u32, h: u32, y: u32)
    ensures RelayCommitment(sha, c, g, x) == RelayCommitment(sha, d, g, x)
        <==> InputScalar(sha, c) == InputScalar(sha, d)
    ensures RelayCommitment(sha, c, g, x) == RelayCommitment(sha, c, h, y) <==> g + x == h + y
  {
    RelayScalars(InputScalar(sha, c), InputScalar(sha, d), g, x, h, y);
  }

  lemma RelayScalars(s: scalar, t: scalar, g: u32, x: u32, h: u32, y: u32)
    ensures ScalarToBytes(Add(Add(s, g), x)) == ScalarToBytes(Add(Add(t, g), x)) <==> s == t
    ensures ScalarToBytes(Add(Add(s, g), x)) == ScalarToBytes(Add(Add(s, h), y)) <==> g + x == h + y
  {
    RelaySum(s, g, x);
    RelaySum(t, g, x);
    RelaySum(s, h, y);
    CountSum(g, x);
    CountSum(h, y);
    var n, m := Add(g, x), Add(h, y);
    ScalarBytesInjective(Add(s, n), Add(t, n));
    ScalarBytesInjective(Add(s, n), Add(s, m));
    AddCommutes(s, n);
    AddCommutes(t, n);
    AddCancels(n, s, t);
    AddCancels(s, n, m);
  }

  /** An execution commitment determines the sum of its three scalars and nothing else: exchanging input
      and output does not show. */
  lemma ExecutionDetermined(sha: Hash, i: Bytes, o: Bytes, t: Bytes, j: Bytes, p: Bytes, u: Bytes)
    ensures ExecutionCommitment(sha, i, o, t) == ExecutionCommitment(sha, j, p, u)
        <==> Total(InputScalar(sha, i), InputScalar(sha, o), InputScalar(sha, t))
             == Total(InputScalar(sha, j), InputScalar(sha, p), InputScalar(sha, u))
    ensures ExecutionCommitment(sha, i, o, t) == ExecutionCommitment(sha, o, i, t)
  {
    var a, b, c := InputScalar(sha, i), InputScalar(sha, o), InputScalar(sha, t);
    ExecutionScalars(a, b, c, InputScalar(sha, j), InputScalar(sha, p), InputScalar(sha, u));
    AddCommutes(a, b);
  }

  lemma ExecutionScalars(a: scalar, b: scalar, c: scalar, d: scalar, e: scalar, f: scalar)
    ensures ScalarToBytes(Add(Add(a, b), c)) == ScalarToBytes(Add(Add(d, e), f)) <==> Total(a, b, c) == Total(d, e, f)
  {
    RelaySum(a, b, c);
    RelaySum(d, e, f);
    ScalarBytesInjective(Add(Add(a, b), c), Add(Add(d, e), f));
  }

  // ---------- Circuits ----------

  datatype Circuit = EqualityCircuit | RelayCircuit | LogCircuit | ExecutionCircuit

  function AdviceColumns(c: Circuit): nat {
    match c
    case EqualityCircuit => 1
    case RelayCircuit => 3
    case LogCircuit => 2
    case ExecutionCircuit => 3
  }

  function InstanceColumns(c: Circuit): nat {
    match c
    case EqualityCircuit => 1
    case RelayCircuit => 3
    case LogCircuit => 2
    case ExecutionCircuit => 1
  }

  /** A cell that nobody assigned holds zero. */
  function Cell(column: seq<scalar>, row: nat): scalar {
    if row < |column| then column[row] else 0
  }

  /** The values of the circuit's gate polynomials on one row. */
  function Gates(c: Circuit, advice: seq<seq<scalar>>, instances: seq<seq<scalar>>, row: nat): seq<scalar>
    requires |advice| == AdviceColumns(c) && |instances| == InstanceColumns(c)
  {
    match c
    case EqualityCircuit =>
      [Sub(Cell(advice[0], row), Cell(instances[0], row))]
    case RelayCircuit =>
      var consensus, guard, exit := Cell(advice[0], row), Cell(advice[1], row), Cell(advice[2], row);
      [Sub(guard, Cell(instances[1], row)),
       Sub(exit, Cell(instances[2], row)),
       Sub(Add(Add(consensus, guard), exit), Cell(instances[0], row))]
    case LogCircuit =>
      var previous, entry := Cell(advice[0], row), Cell(advice[1], row);
      [Sub(Add(Mul(entry, Cell(instances[1], row)), previous), Cell(instances[0], row))]
    case ExecutionCircuit =>
      var input, output, telemetry := Cell(advice[0], row), Cell(advice[1], row), Cell(advice[2], row);
      [Sub(Add(Add(input, output), telemetry), Cell(instances[0], row))]
  }

  ghost predicate AllZero(values: seq<scalar>) {
    forall i :: 0 <= i < |values| ==> values[i] == 0
  }

  /** Every gate vanishes on every usable row, and the copy constraint of the equality circuit holds.
      No gate has a selector. */
  ghost predicate Satisfied(c: Circuit, advice: seq<seq<scalar>>, instances: seq<seq<scalar>>, rows: nat)
    requires |advice| == AdviceColumns(c) && |instances| == InstanceColumns(c)
  {
    && (forall row: nat :: row < rows ==> AllZero(Gates(c, advice, instances, row)))
    && (c == EqualityCircuit ==> Cell(advice[0], 0) == Cell(instances[0], 0))
  }

  /** What a circuit means: an equation between private values and public values. */
  ghost predicate Relation(c: Circuit, private: seq<scalar>, public: seq<scalar>)
    requires |private| == AdviceColumns(c) && |public| == InstanceColumns(c)
  {
    match c
    case EqualityCircuit => private[0] == public[0]
    case RelayCircuit =>
      private[1] == public[1] && private[2] == public[2]
      && public[0] == Total(private[0], private[1], private[2])
    case LogCircuit => public[0] == Chained(private[0], private[1], public[1])
    case ExecutionCircuit => public[0] == Total(private[0], private[1], private[2])
  }

  /** One value per column, assigned at row zero. */
  function FirstRow(values: seq<scalar>): (columns: seq<seq<scalar>>)
    ensures |columns| == |values|
  {
    seq(|values|, i requires 0 <= i < |values| => [values[i]])
  }

  lemma Differences(x: scalar, y: scalar)
    ensures Sub(x, y) == 0 <==> x == y
  {
    SameRemainder(x, y, P);
    SmallRemainder(x, P);
    SmallRemainder(y, P);
  }

  function RowOf(columns: seq<seq<scalar>>, row: nat): (values: seq<scalar>)
    ensures |values| == |columns|
  {
    seq(|columns|, i requires 0 <= i < |columns| => Cell(columns[i], row))
  }

  lemma SumGate(x: scalar, y: scalar, z: scalar, e: scalar)
    ensures Sub(Add(Add(x, y), z), e) == 0 <==> e == Total(x, y, z)
  {
    RelaySum(x, y, z);
    Differences(Add(Add(x, y), z), e);
  }

  lemma ChainGate(previous: scalar, entry: scalar, sequence: scalar, e: scalar)
    ensures Sub(Add(Mul(entry, sequence), previous), e) == 0 <==> e == Chained(previous, entry, sequence)
    ensures Add(previous, Mul(entry, sequence)) == Chained(previous, entry, sequence)
  {
    AddRemainder(entry * sequence, previous, P);
    Differences(Add(Mul(entry, sequence), previous), e);
  }

  /** On any row, whatever the columns hold, the gates vanish exactly when the row's values are related. */
  lemma GatesMeanRelation(c: Circuit, advice: seq<seq<scalar>>, instances: seq<seq<scalar>>, row: nat)
    requires |advice| == AdviceColumns(c) && |instances| == InstanceColumns(c)
    ensures AllZero(Gates(c, advice, instances, row))
        <==> Relation(c, RowOf(advice, row), RowOf(instances, row))
  {
    var a, i, g := RowOf(advice, row), RowOf(instances, row), Gates(c, advice, instances, row);
    assert AllZero(g) ==> g[0] == 0;
    match c {
      case EqualityCircuit =>
        Differences(a[0], i[0]);
      case RelayCircuit =>
        assert AllZero(g) ==> g[1] == 0 && g[2] == 0;
        Differences(a[1], i[1]);
        Differences(a[2], i[2]);
        SumGate(a[0], a[1], a[2], i[0]);
      case LogCircuit =>
        ChainGate(a[0], a[1], i[1], i[0]);
      case ExecutionCircuit =>
        SumGate(a[0], a[1], a[2], i[0]);
    }
  }

  /** An honest assignment satisfies its circuit, on every usable row, exactly when its first row is
      related: the unassigned rows, which no selector switches off, are all zero and satisfy every gate. */
  lemma HonestAssignment(c: Circuit, private: seq<scalar>, public: seq<scalar>, rows: nat)
    requires |private| == AdviceColumns(c) && |public| == InstanceColumns(c) && rows > 0
    ensures Satisfied(c, FirstRow(private), FirstRow(public), rows) <==> Relation(c, private, public)
  {
    var advice, instances := FirstRow(private), FirstRow(public);
    assert RowOf(advice, 0) == private && RowOf(instances, 0) == public;
    GatesMeanRelation(c, advice, instances, 0);
    forall row: nat | 0 < row < rows ensures AllZero(Gates(c, advice, instances, row)) {
      GatesMeanRelation(c, advice, instances, row);
      ZeroRelated(c, RowOf(advice, row), RowOf(instances, row));
    }
  }

  lemma ZeroRelated(c: Circuit, private: seq<scalar>, public: seq<scalar>)
    requires |private| == AdviceColumns(c) && |public| == InstanceColumns(c)
    requires AllZero(private) && AllZero(public)
    ensures Relation(c, private, public)
  {
    SmallRemainder(0, P);
  }

  /** Every row of public values is satisfied by some private values: for any counts, sequence number and
      commitment there are digest scalars that go with them, so a satisfied circuit alone tells nothing
      about a particular digest. */
  lemma AnyPublicValues(c: Circuit, public: seq<scalar>, rows: nat) returns (private: seq<scalar>)
    requires |public| == InstanceColumns(c) && rows > 0
    ensures |private| == AdviceColumns(c) && Satisfied(c, FirstRow(private), FirstRow(public), rows)
  {
    match c {
      case EqualityCircuit => private := [public[0]];
      case RelayCircuit => private := [Remainder(public[0], public[1], public[2]), public[1], public[2]];
      case LogCircuit =>
        private := [public[0], 0];
        ChainedWithZero(public[0], public[1]);
      case ExecutionCircuit => private := [Remainder(public[0], 0, 0), 0, 0];
    }
    HonestAssignment(c, private, public, rows);
  }

  lemma ChainedWithZero(e: scalar, sequence: scalar)
    ensures Chained(e, 0, sequence) == e
  {
    assert 0 * sequence == 0;
    SmallRemainder(e, P);
  }

  function Remainder(e: scalar, y: scalar, z: scalar): (x: scalar)
    ensures Total(x, y, z) == e
  {
    var x: scalar := (e - y - z) % P;
    assert Total(x, y, z) == e by {
      AddRemainder(e - y - z, y + z, P);
      assert e - y - z + (y + z) == e && x + (y + z) == x + y + z;
      SmallRemainder(e, P);
    }
    x
  }

  /** Scalar equality is congruence of the little-endian values modulo P, not equality of digests. */
  lemma EqualityIsCongruence(a: digest, b: digest, rows: nat)
    requires rows > 0
    ensures Satisfied(EqualityCircuit, FirstRow([DigestToScalar(a)]), FirstRow([DigestToScalar(b)]), rows)
        <==> LeValue(a) % P == LeValue(b) % P
  {
    HonestAssignment(EqualityCircuit, [DigestToScalar(a)], [DigestToScalar(b)], rows);
    DigestIsResidue(a);
    DigestIsResidue(b);
  }

  lemma SumRelation(s: scalar, t: scalar, u: scalar, e: scalar)
    ensures Relation(ExecutionCircuit, [s, t, u], [e]) <==> ScalarFromBytes(ScalarToBytes(Add(Add(s, t), u))) == Ok(e)
    ensures Relation(RelayCircuit, [s, t, u], [e, t, u]) <==> ScalarFromBytes(ScalarToBytes(Add(Add(s, t), u))) == Ok(e)
  {
    RelaySum(s, t, u);
    Encodes(Add(Add(s, t), u), e);
  }

  lemma ChainRelation(s: scalar, t: scalar, n: scalar, e: scalar)
    ensures Relation(LogCircuit, [s, t], [e, n]) <==> ScalarFromBytes(ScalarToBytes(Add(s, Mul(t, n)))) == Ok(e)
  {
    ChainGate(s, t, n, e);
    Encodes(Add(s, Mul(t, n)), e);
  }

  lemma Encodes(x: scalar, e: scalar)
    ensures ScalarFromBytes(ScalarToBytes(x)) == Ok(e) <==> x == e
  {
    ScalarEncodingExact(ScalarToBytes(x), e);
    ScalarBytesInjective(x, e);
  }

  /** Each commitment is exactly the encoding of the public value its circuit demands. */
  lemma CommitmentsSatisfy(sha: Hash, a: Bytes, b: Bytes, c: Bytes, g: u32, x: u32, n: u64, e: scalar)
    ensures Relation(RelayCircuit, [InputScalar(sha, a), g, x], [e, g, x])
        <==> ScalarFromBytes(RelayCommitment(sha, a, g, x)) == Ok(e)
    ensures Relation(LogCircuit, [InputScalar(sha, a), InputScalar(sha, b)], [e, n])
        <==> ScalarFromBytes(LogChainCommitment(sha, a, b, n)) == Ok(e)
    ensures Relation(ExecutionCircuit, [InputScalar(sha, a), InputScalar(sha, b), InputScalar(sha, c)], [e])
        <==> ScalarFromBytes(ExecutionCommitment(sha, a, b, c)) == Ok(e)
  {
    SumRelation(InputScalar(sha, a), g, x, e);
    ChainRelation(InputScalar(sha, a), InputScalar(sha, b), n, e);
    SumRelation(InputScalar(sha, a), InputScalar(sha, b), InputScalar(sha, c), e);
  }
}

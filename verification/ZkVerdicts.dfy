/** The answer of a verification and the bundle of a prover, field by field and with the literals the wire
    format uses. */
module ZkVerdicts {
  import opened Text
  import opened PallasCertificate
  import opened PallasField
  import opened ZkCircuits
  import opened ZkProofs
  import opened RecordContext
  import Hex
  import Modular

  /** The entry of a JSON object under this key is this value. */
  predicate Has(inputs: Json, key: string, value: Json) {
    inputs.Object? && key in inputs.fields && inputs.fields[key] == value
  }

  predicate HasNumber(inputs: Json, key: string) {
    inputs.Object? && key in inputs.fields && inputs.fields[key].Unsigned?
  }

  predicate HasString(inputs: Json, key: string) {
    inputs.Object? && key in inputs.fields && inputs.fields[key].String?
  }

  function IdText(context: VerificationContext): string {
    match context
    case ScalarDigest(_) => "scalar_equality"
    case RelayAudit(_, _, _) => "relay_audit_v1"
    case LogIntegrity(_, _) => "log_chain_integrity_v1"
    case Execution(_) => "execution_attestation_v1"
  }

  /** The bundle names the protocol and the circuit of the context. */
  predicate Identified(b: Bundle, context: VerificationContext) {
    b.protocol == Ascii("halo2-scalar-equality-v1") && b.circuit == Ascii(IdText(context))
  }

  function Digest32(sha: Hash, d: Bytes): Bytes { if |d| == 32 then d else sha(d) }

  /** The bundle shows the hash of what the context expects; for a digest, of the raw and of the normalised one. */
  predicate HashShown(sha: Hash, b: Bundle, context: VerificationContext) {
    match context
    case ScalarDigest(d) =>
      b.expectedHash == Hex.Encode(sha(d)) && b.expectedHash == Hex.Encode(sha(Digest32(sha, d)))
    case RelayAudit(c, _, _) => b.expectedHash == Hex.Encode(sha(c))
    case LogIntegrity(c, _) => b.expectedHash == Hex.Encode(sha(c))
    case Execution(c) => b.expectedHash == Hex.Encode(sha(c))
  }

  /** The public inputs have the fields that the context needs, each of the right kind. */
  predicate WellTyped(b: Bundle, context: VerificationContext) {
    match context
    case ScalarDigest(_) => true
    case RelayAudit(_, _, _) =>
      HasNumber(b.publicInputs, "guard_count") && HasNumber(b.publicInputs, "exit_count")
      && HasString(b.publicInputs, "commitment")
    case LogIntegrity(_, _) => HasNumber(b.publicInputs, "sequence") && HasString(b.publicInputs, "commitment")
    case Execution(_) => HasString(b.publicInputs, "commitment")
  }

  /** And they hold what the context expects. */
  predicate FieldsShown(b: Bundle, context: VerificationContext) {
    match context
    case ScalarDigest(_) => true
    case RelayAudit(c, g, x) =>
      Has(b.publicInputs, "guard_count", Unsigned(g)) && Has(b.publicInputs, "exit_count", Unsigned(x))
      && Has(b.publicInputs, "commitment", String(Hex.Encode(c)))
    case LogIntegrity(c, n) =>
      Has(b.publicInputs, "sequence", Unsigned(n)) && Has(b.publicInputs, "commitment", String(Hex.Encode(c)))
    case Execution(c) => Has(b.publicInputs, "commitment", String(Hex.Encode(c)))
  }

  predicate Canonical(context: VerificationContext) {
    context.ScalarDigest? || (|context.expectedCommitment| == 32 && LeValue(context.expectedCommitment) < P)
  }

  /** What the library is asked about a context it gets to: the instance columns come from the context. */
  function Asked(sha: Hash, b: Bundle, context: VerificationContext): Call
    requires Canonical(context)
  {
    match context
    case ScalarDigest(d) => Call(EqualityCircuit, b.circuitSecurity, [[LeValue(Digest32(sha, d)) % P]], b.proof)
    case RelayAudit(c, g, x) => Call(RelayCircuit, b.circuitSecurity, [[LeValue(c)], [g], [x]], b.proof)
    case LogIntegrity(c, n) => Call(LogCircuit, b.circuitSecurity, [[LeValue(c)], [n]], b.proof)
    case Execution(c) => Call(ExecutionCircuit, b.circuitSecurity, [[LeValue(c)]], b.proof)
  }

  /** The whole answer, for every bundle and every context. */
  function Answer(sha: Hash, b: Bundle, context: VerificationContext): Result<Call, ZkError> {
    if !Identified(b, context) then Err(ZeroKnowledge)
    else if !HashShown(sha, b, context) then Err(Integrity)
    else if !WellTyped(b, context) then Err(ZeroKnowledge)
    else if !FieldsShown(b, context) then Err(Integrity)
    else if !Canonical(context) then Err(ZeroKnowledge)
    else Ok(Asked(sha, b, context))
  }

  lemma VerifyAnswers(sha: Hash, b: Bundle, context: VerificationContext)
    ensures VerifyProof(sha, b, context) == Answer(sha, b, context)
  {
    match context {
      case ScalarDigest(d) => DigestAnswers(sha, b, d);
      case RelayAudit(c, g, x) => RelayAnswers(sha, b, c, g, x);
      case LogIntegrity(c, n) => LogAnswers(sha, b, c, n);
      case Execution(c) => ExecutionAnswers(sha, b, c);
    }
  }

  /** A verification gets to the library exactly when all five conditions hold. */
  lemma VerifyExact(sha: Hash, b: Bundle, context: VerificationContext)
    ensures VerifyProof(sha, b, context).Ok?
        <==> Identified(b, context) && HashShown(sha, b, context) && WellTyped(b, context) && FieldsShown(b, context)
             && Canonical(context)
    ensures VerifyProof(sha, b, context).Ok? ==> VerifyProof(sha, b, context) == Ok(Asked(sha, b, context))
  {
    VerifyAnswers(sha, b, context);
  }

  lemma DigestAnswers(sha: Hash, b: Bundle, d: Bytes)
    ensures VerifyProof(sha, b, ScalarDigest(d)) == Answer(sha, b, ScalarDigest(d))
  {
    DigestIsResidue(Normalise(sha, d));
    assert FirstRow([LeValue(Digest32(sha, d)) % P]) == [[LeValue(Digest32(sha, d)) % P]];
  }

  lemma RelayAnswers(sha: Hash, b: Bundle, c: Bytes, g: u32, x: u32)
    ensures VerifyProof(sha, b, RelayAudit(c, g, x)) == Answer(sha, b, RelayAudit(c, g, x))
  {
    if Canonical(RelayAudit(c, g, x)) {
      assert FirstRow([LeValue(c), g, x]) == [[LeValue(c)], [g], [x]];
    }
  }

  lemma LogAnswers(sha: Hash, b: Bundle, c: Bytes, n: u64)
    ensures VerifyProof(sha, b, LogIntegrity(c, n)) == Answer(sha, b, LogIntegrity(c, n))
  {
    if Canonical(LogIntegrity(c, n)) {
      assert FirstRow([LeValue(c), n]) == [[LeValue(c)], [n]];
    }
  }

  lemma ExecutionAnswers(sha: Hash, b: Bundle, c: Bytes)
    ensures VerifyProof(sha, b, Execution(c)) == Answer(sha, b, Execution(c))
  {
    if Canonical(Execution(c)) {
      assert FirstRow([LeValue(c)]) == [[LeValue(c)]];
    }
  }

  /** The dedicated verifier of digest equality looks at the normalised digest alone. */
  lemma EqualityAnswers(sha: Hash, b: Bundle, d: Bytes)
    ensures VerifyScalarEquality(sha, b, d)
         == if !Identified(b, ScalarDigest(d)) then Err(ZeroKnowledge)
            else if b.expectedHash != Hex.Encode(sha(Digest32(sha, d))) then Err(Integrity)
            else Ok(Asked(sha, b, ScalarDigest(d)))
  {
    DigestIsResidue(Normalise(sha, d));
    assert FirstRow([LeValue(Digest32(sha, d)) % P]) == [[LeValue(Digest32(sha, d)) % P]];
  }

  // ---------- Bundles ----------

  /** What every prover puts around its proof. */
  predicate Published(o: Origin, prove: Job -> Bytes, p: Proving, circuit: string) {
    && p.bundle.proofId == o.proofId && p.bundle.userId == o.userId && p.bundle.createdAt == o.now
    && p.bundle.protocol == Ascii("halo2-scalar-equality-v1") && p.bundle.circuit == Ascii(circuit)
    && p.bundle.circuitSecurity == o.security == p.job.security && p.bundle.proof == prove(p.job)
    && p.bundle.publicInputs.Object?
  }

  lemma EqualityBundle(sha: Hash, prove: Job -> Bytes, o: Origin, private: Bytes, expected: Bytes)
    ensures var p := ProveDigestEquality(sha, prove, o, private, expected);
            && Published(o, prove, p, "scalar_equality")
            && p.bundle.expectedHash == Hex.Encode(sha(Digest32(sha, expected)))
            && p.bundle.publicInputs.fields == map["expected_digest" := String(Hex.Encode(Digest32(sha, expected)))]
            && p.job.private == [LeValue(Digest32(sha, private)) % P]
            && p.job.instances == [[LeValue(Digest32(sha, expected)) % P]]
  {
    DigestIsResidue(Normalise(sha, private));
    DigestIsResidue(Normalise(sha, expected));
    assert FirstRow([LeValue(Digest32(sha, expected)) % P]) == [[LeValue(Digest32(sha, expected)) % P]];
  }

  lemma RelayBundleFields(sha: Hash, prove: Job -> Bytes, o: Origin, consensus: Bytes, g: u32, x: u32)
    requires ProveRelayAudit(sha, prove, o, consensus, g, x).Ok?
    ensures var p := ProveRelayAudit(sha, prove, o, consensus, g, x).value;
            var c := RelayCommitment(sha, consensus, g, x);
            && Published(o, prove, p, "relay_audit_v1") && p.bundle.expectedHash == Hex.Encode(sha(c))
            && p.bundle.publicInputs.fields == map["guard_count" := Unsigned(g), "exit_count" := Unsigned(x),
                                                   "commitment" := String(Hex.Encode(c))]
            && p.job.private == [LeValue(Digest32(sha, consensus)) % P, g, x]
  {
    DigestIsResidue(Normalise(sha, consensus));
  }

  lemma LogBundleFields(sha: Hash, prove: Job -> Bytes, o: Origin, previous: Bytes, entry: Bytes, n: u64)
    requires ProveLogChainIntegrity(sha, prove, o, previous, entry, n).Ok?
    ensures var p := ProveLogChainIntegrity(sha, prove, o, previous, entry, n).value;
            var c := LogChainCommitment(sha, previous, entry, n);
            && Published(o, prove, p, "log_chain_integrity_v1") && p.bundle.expectedHash == Hex.Encode(sha(c))
            && p.bundle.publicInputs.fields == map["sequence" := Unsigned(n),
                                                   "commitment" := String(Hex.Encode(c)),
                                                   "previous_hash" := String(Hex.Encode(Digest32(sha, previous))),
                                                   "entry_hash" := String(Hex.Encode(Digest32(sha, entry)))]
            && p.job.private == [LeValue(Digest32(sha, previous)) % P, LeValue(Digest32(sha, entry)) % P]
  {
    DigestIsResidue(Normalise(sha, previous));
    DigestIsResidue(Normalise(sha, entry));
  }

  lemma ExecutionBundleFields(sha: Hash, prove: Job -> Bytes, o: Origin, i: Bytes, u: Bytes, t: Bytes)
    requires ProveExecution(sha, prove, o, i, u, t).Ok?
    ensures var p := ProveExecution(sha, prove, o, i, u, t).value;
            var c := ExecutionCommitment(sha, i, u, t);
            && Published(o, prove, p, "execution_attestation_v1") && p.bundle.expectedHash == Hex.Encode(sha(c))
            && p.bundle.publicInputs.fields == map["commitment" := String(Hex.Encode(c)),
                                                   "input_hash" := String(Hex.Encode(Digest32(sha, i))),
                                                   "output_hash" := String(Hex.Encode(Digest32(sha, u))),
                                                   "telemetry_hash" := String(Hex.Encode(Digest32(sha, t)))]
            && p.job.private == [LeValue(Digest32(sha, i)) % P, LeValue(Digest32(sha, u)) % P,
                                 LeValue(Digest32(sha, t)) % P]
  {
    DigestIsResidue(Normalise(sha, i));
    DigestIsResidue(Normalise(sha, u));
    DigestIsResidue(Normalise(sha, t));
  }

  // ---------- Commitments and encodings, byte by byte ----------

  function Residue(v: int): scalar { v % P }

  lemma CommitmentValues(sha: Hash, a: Bytes, b: Bytes, c: Bytes, g: u32, x: u32, n: u64)
    ensures LeValue(RelayCommitment(sha, a, g, x)) == Residue(LeValue(Digest32(sha, a)) + g + x)
    ensures LeValue(LogChainCommitment(sha, a, b, n))
         == Residue(LeValue(Digest32(sha, a)) + LeValue(Digest32(sha, b)) * n)
    ensures LeValue(ExecutionCommitment(sha, a, b, c))
         == Residue(LeValue(Digest32(sha, a)) + LeValue(Digest32(sha, b)) + LeValue(Digest32(sha, c)))
  {
    RelayValue(sha, a, g, x);
    LogValue(sha, a, b, n);
    ExecutionValue(sha, a, b, c);
  }

  lemma EncodedValue(x: scalar)
    ensures LeValue(ScalarToBytes(x)) == x
  {
    ScalarEncodingExact(ScalarToBytes(x), x);
  }

  /** The scalar of a digest is its value modulo P. */
  lemma InputIsResidue(sha: Hash, d: Bytes)
    ensures InputScalar(sha, d) == Residue(LeValue(Digest32(sha, d)))
  {
    DigestIsResidue(Normalise(sha, d));
  }

  lemma SumOfResidues(v: int, w: int, x: int)
    ensures Add(Add(Residue(v), Residue(w)), Residue(x)) == Residue(v + w + x)
  {
    Modular.AddRemainder(v, w, P);
    Modular.AddRemainder(v + w, x, P);
  }

  lemma ChainOfResidues(v: int, w: int, n: u64)
    ensures Add(Residue(v), Mul(Residue(w), n)) == Residue(v + w * n)
  {
    Modular.LeftRemainder(w, n, P);
    Modular.AddRemainder(v, w * n, P);
  }

  lemma EncodedSum(s: scalar, t: scalar, u: scalar, v: int, w: int, x: int)
    requires s == Residue(v) && t == Residue(w) && u == Residue(x)
    ensures LeValue(ScalarToBytes(Add(Add(s, t), u))) == Residue(v + w + x)
  {
    EncodedValue(Add(Add(s, t), u));
    SumOfResidues(v, w, x);
  }

  lemma EncodedChain(s: scalar, t: scalar, n: u64, v: int, w: int)
    requires s == Residue(v) && t == Residue(w)
    ensures LeValue(ScalarToBytes(Add(s, Mul(t, n)))) == Residue(v + w * n)
  {
    EncodedValue(Add(s, Mul(t, n)));
    ChainOfResidues(v, w, n);
  }

  lemma SmallResidue(g: u64)
    ensures Residue(g) == g
  {
    Modular.SmallRemainder(g, P);
  }

  lemma RelayValue(sha: Hash, a: Bytes, g: u32, x: u32)
    ensures LeValue(RelayCommitment(sha, a, g, x)) == Residue(LeValue(Digest32(sha, a)) + g + x)
  {
    InputIsResidue(sha, a);
    RelayEncodes(sha, a, g, x);
    EncodedCounts(InputScalar(sha, a), g, x, LeValue(Digest32(sha, a)));
  }

  lemma RelayEncodes(sha: Hash, a: Bytes, g: u32, x: u32)
    ensures RelayCommitment(sha, a, g, x) == ScalarToBytes(Add(Add(InputScalar(sha, a), g), x))
  {
  }

  lemma EncodedCounts(s: scalar, g: u32, x: u32, v: int)
    requires s == Residue(v)
    ensures LeValue(ScalarToBytes(Add(Add(s, g), x))) == Residue(v + g + x)
  {
    SmallResidue(g);
    SmallResidue(x);
    EncodedSum(s, g, x, v, g, x);
  }

  lemma LogValue(sha: Hash, a: Bytes, b: Bytes, n: u64)
    ensures LeValue(LogChainCommitment(sha, a, b, n))
         == Residue(LeValue(Digest32(sha, a)) + LeValue(Digest32(sha, b)) * n)
  {
    InputIsResidue(sha, a);
    InputIsResidue(sha, b);
    EncodedChain(InputScalar(sha, a), InputScalar(sha, b), n, LeValue(Digest32(sha, a)), LeValue(Digest32(sha, b)));
  }

  lemma ExecutionValue(sha: Hash, a: Bytes, b: Bytes, c: Bytes)
    ensures LeValue(ExecutionCommitment(sha, a, b, c))
         == Residue(LeValue(Digest32(sha, a)) + LeValue(Digest32(sha, b)) + LeValue(Digest32(sha, c)))
  {
    InputIsResidue(sha, a);
    InputIsResidue(sha, b);
    InputIsResidue(sha, c);
    EncodedSum(InputScalar(sha, a), InputScalar(sha, b), InputScalar(sha, c),
               LeValue(Digest32(sha, a)), LeValue(Digest32(sha, b)), LeValue(Digest32(sha, c)));
  }

  function Power256(i: nat): (r: nat)
    ensures r >= 1
  {
    if i == 0 then 1 else 256 * Power256(i - 1)
  }

  /** Byte i of a little-endian number is its digit i in base 256. */
  lemma {:induction false} LittleEndian(b: Bytes, i: nat)
    requires i < |b|
    ensures LeValue(b) / Power256(i) % 256 == b[i]
  {
    if i > 0 {
      LittleEndian(b[1..], i - 1);
      var v := LeValue(b[1..]);
      DivideTwice(b[0], v, Power256(i - 1));
    }
  }

  lemma DivideTwice(x: byte, v: nat, d: nat)
    requires d > 0
    ensures (x + 256 * v) / (256 * d) == v / d
  {
    var q, r := v / d, v % d;
    assert v == d * q + r;
    assert x + 256 * v == q * (256 * d) + (x + 256 * r) by {
      assert 256 * (d * q) == q * (256 * d);
    }
    assert 0 <= x + 256 * r < 256 * d;
    Modular.DivModUnique(x + 256 * v, q, x + 256 * r, 256 * d);
  }
}

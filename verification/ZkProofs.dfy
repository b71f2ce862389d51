/** Proof bundles: what a prover publishes, and what a verifier checks before it calls the proof
    library with the instance columns it derived from its own context. */
module ZkProofs {
  import opened Text
  import opened PallasField
  import opened ZkCircuits
  import opened PallasCertificate
  import opened RecordContext
  import Hex

  const PROTOCOL := Ascii("halo2-scalar-equality-v1")

  function CircuitId(c: Circuit): Bytes {
    match c
    case EqualityCircuit => Ascii("scalar_equality")
    case RelayCircuit => Ascii("relay_audit_v1")
    case LogCircuit => Ascii("log_chain_integrity_v1")
    case ExecutionCircuit => Ascii("execution_attestation_v1")
  }

  lemma CircuitIdsDistinct(c: Circuit, d: Circuit)
    ensures CircuitId(c) == CircuitId(d) <==> c == d
  {
    assert |CircuitId(EqualityCircuit)| == 15 && |CircuitId(RelayCircuit)| == 14;
    assert |CircuitId(LogCircuit)| == 22 && |CircuitId(ExecutionCircuit)| == 24;
  }

  datatype Json = Object(fields: map<string, Json>) | String(text: Bytes) | Unsigned(number: u64) | Other

  datatype Bundle = Bundle(proofId: Uuid, userId: Uuid, protocol: Bytes, circuit: Bytes, circuitSecurity: u32,
                           expectedHash: Bytes, publicInputs: Json, proof: Bytes, createdAt: int)

  datatype VerificationContext =
    | ScalarDigest(expectedDigest: Bytes)
    | RelayAudit(expectedCommitment: Bytes, guardCount: u32, exitCount: u32)
    | LogIntegrity(expectedCommitment: Bytes, sequenceNumber: u64)
    | Execution(expectedCommitment: Bytes)

  /** What the verifier hands to the proof library. */
  datatype Call = Call(circuit: Circuit, security: u32, instances: seq<seq<scalar>>, proof: Bytes)

  /** What the prover hands to the proof library: the private values of row zero and the instances. */
  datatype Job = Job(circuit: Circuit, security: u32, private: seq<scalar>, instances: seq<seq<scalar>>)

  function HashText(sha: Hash, d: Bytes): Bytes {
    Hex.Encode(sha(d))
  }

  const GUARD_COUNT: string := "guard_count"
  const EXIT_COUNT: string := "exit_count"
  const COMMITMENT: string := "commitment"
  const SEQUENCE: string := "sequence"

  // ---------- Checks before the library call ----------

  function Ensure(condition: bool, error: ZkError): Result<(), ZkError> {
    if condition then Ok(()) else Err(error)
  }

  function EnsureProtocol(b: Bundle): Result<(), ZkError> {
    Ensure(b.protocol == PROTOCOL, ZeroKnowledge)
  }

  function EnsureCircuit(b: Bundle, c: Circuit): Result<(), ZkError> {
    Ensure(b.circuit == CircuitId(c), ZeroKnowledge)
  }

  function EnsureExpectedHash(sha: Hash, b: Bundle, expected: Bytes): Result<(), ZkError> {
    Ensure(b.expectedHash == HashText(sha, expected), Integrity)
  }

  function Field(inputs: Json, key: string): Option<Json> {
    if inputs.Object? && key in inputs.fields then Some(inputs.fields[key]) else None
  }

  function Number(inputs: Json, key: string): Result<u64, ZkError> {
    match Field(inputs, key)
    case Some(Unsigned(n)) => Ok(n)
    case _ => Err(ZeroKnowledge)
  }

  function Characters(inputs: Json, key: string): Result<Bytes, ZkError> {
    match Field(inputs, key)
    case Some(String(s)) => Ok(s)
    case _ => Err(ZeroKnowledge)
  }

  function EnsureRelayInputs(inputs: Json, guards: u32, exits: u32, commitment: Bytes): Result<(), ZkError> {
    var guard :- Number(inputs, GUARD_COUNT);
    var exit :- Number(inputs, EXIT_COUNT);
    var printed :- Characters(inputs, COMMITMENT);
    var _ :- Ensure(guard == guards && exit == exits, Integrity);
    Ensure(Hex.Encode(commitment) == printed, Integrity)
  }

  function EnsureLogInputs(inputs: Json, sequence: u64, commitment: Bytes): Result<(), ZkError> {
    var n :- Number(inputs, SEQUENCE);
    var printed :- Characters(inputs, COMMITMENT);
    var _ :- Ensure(n == sequence, Integrity);
    Ensure(Hex.Encode(commitment) == printed, Integrity)
  }

  function EnsureExecutionInputs(inputs: Json, commitment: Bytes): Result<(), ZkError> {
    var printed :- Characters(inputs, COMMITMENT);
    Ensure(Hex.Encode(commitment) == printed, Integrity)
  }

  function VerifyScalarEquality(sha: Hash, b: Bundle, expected: Bytes): Result<Call, ZkError> {
    var _ :- Ensure(b.protocol == PROTOCOL && b.circuit == CircuitId(EqualityCircuit), ZeroKnowledge);
    var normal := Normalise(sha, expected);
    var _ :- EnsureExpectedHash(sha, b, normal);
    Ok(Call(EqualityCircuit, b.circuitSecurity, FirstRow([DigestToScalar(normal)]), b.proof))
  }

  function VerifyRelayAudit(sha: Hash, b: Bundle, commitment: Bytes, guards: u32, exits: u32): Result<Call, ZkError> {
    var _ :- EnsureCircuit(b, RelayCircuit);
    var _ :- EnsureExpectedHash(sha, b, commitment);
    var _ :- EnsureRelayInputs(b.publicInputs, guards, exits, commitment);
    var expected :- ScalarFromBytes(commitment);
    Ok(Call(RelayCircuit, b.circuitSecurity, FirstRow([expected, guards, exits]), b.proof))
  }

  function VerifyLogIntegrity(sha: Hash, b: Bundle, commitment: Bytes, sequence: u64): Result<Call, ZkError> {
    var _ :- EnsureCircuit(b, LogCircuit);
    var _ :- EnsureExpectedHash(sha, b, commitment);
    var _ :- EnsureLogInputs(b.publicInputs, sequence, commitment);
    var expected :- ScalarFromBytes(commitment);
    Ok(Call(LogCircuit, b.circuitSecurity, FirstRow([expected, sequence]), b.proof))
  }

  function VerifyExecution(sha: Hash, b: Bundle, commitment: Bytes): Result<Call, ZkError> {
    var _ :- EnsureCircuit(b, ExecutionCircuit);
    var _ :- EnsureExpectedHash(sha, b, commitment);
    var _ :- EnsureExecutionInputs(b.publicInputs, commitment);
    var expected :- ScalarFromBytes(commitment);
    Ok(Call(ExecutionCircuit, b.circuitSecurity, FirstRow([expected]), b.proof))
  }

  function VerifyProof(sha: Hash, b: Bundle, context: VerificationContext): Result<Call, ZkError> {
    var _ :- EnsureProtocol(b);
    match context
    case ScalarDigest(expected) =>
      var _ :- EnsureCircuit(b, EqualityCircuit);
      var _ :- EnsureExpectedHash(sha, b, expected);
      VerifyScalarEquality(sha, b, expected)
    case RelayAudit(commitment, guards, exits) => VerifyRelayAudit(sha, b, commitment, guards, exits)
    case LogIntegrity(commitment, sequence) => VerifyLogIntegrity(sha, b, commitment, sequence)
    case Execution(commitment) => VerifyExecution(sha, b, commitment)
  }

  /** The fields that any check reads. */
  predicate SameReadFields(a: Json, b: Json) {
    && a.Object? == b.Object?
    && Field(a, GUARD_COUNT) == Field(b, GUARD_COUNT) && Field(a, EXIT_COUNT) == Field(b, EXIT_COUNT)
    && Field(a, COMMITMENT) == Field(b, COMMITMENT) && Field(a, SEQUENCE) == Field(b, SEQUENCE)
  }

  /** All other fields of a bundle, the printed input, output, telemetry, previous and entry hashes among
      them, can be replaced without any verification noticing. */
  lemma OtherFieldsUnread(sha: Hash, b: Bundle, inputs: Json, context: VerificationContext)
    requires SameReadFields(b.publicInputs, inputs)
    ensures VerifyProof(sha, b.(publicInputs := inputs), context) == VerifyProof(sha, b, context)
  {
    SameReads(b.publicInputs, inputs);
  }

  lemma SameReads(a: Json, b: Json)
    requires SameReadFields(a, b)
    ensures Number(a, GUARD_COUNT) == Number(b, GUARD_COUNT) && Number(a, EXIT_COUNT) == Number(b, EXIT_COUNT)
    ensures Characters(a, COMMITMENT) == Characters(b, COMMITMENT) && Number(a, SEQUENCE) == Number(b, SEQUENCE)
  {
  }

  // ---------- Provers ----------

  datatype Origin = Origin(proofId: Uuid, userId: Uuid, now: int, security: u32)
  datatype Proving = Proving(job: Job, bundle: Bundle)

  function Publish(o: Origin, prove: Job -> Bytes, job: Job, expectedHash: Bytes, inputs: map<string, Json>): Proving {
    Proving(job, Bundle(o.proofId, o.userId, PROTOCOL, CircuitId(job.circuit), o.security, expectedHash,
                        Object(inputs), prove(job), o.now))
  }

  function RelayInputs(commitment: Bytes, guards: u32, exits: u32): (m: map<string, Json>)
    ensures Number(Object(m), GUARD_COUNT) == Ok(guards) && Number(Object(m), EXIT_COUNT) == Ok(exits)
    ensures Characters(Object(m), COMMITMENT) == Ok(Hex.Encode(commitment))
  {
    assert EXIT_COUNT[0] != COMMITMENT[0];
    map[GUARD_COUNT := Unsigned(guards), EXIT_COUNT := Unsigned(exits),
        COMMITMENT := String(Hex.Encode(commitment))]
  }

  function LogInputs(commitment: Bytes, sequence: u64, previous: Bytes, entry: Bytes): (m: map<string, Json>)
    ensures Number(Object(m), SEQUENCE) == Ok(sequence)
    ensures Characters(Object(m), COMMITMENT) == Ok(Hex.Encode(commitment))
  {
    assert "entry_hash"[0] != COMMITMENT[0];
    map[SEQUENCE := Unsigned(sequence), COMMITMENT := String(Hex.Encode(commitment)),
        "previous_hash" := String(Hex.Encode(previous)), "entry_hash" := String(Hex.Encode(entry))]
  }

  function ExecutionInputs(commitment: Bytes, input: Bytes, output: Bytes, telemetry: Bytes): (m: map<string, Json>)
    ensures Characters(Object(m), COMMITMENT) == Ok(Hex.Encode(commitment))
  {
    assert "input_hash"[0] != COMMITMENT[0];
    map[COMMITMENT := String(Hex.Encode(commitment)), "input_hash" := String(Hex.Encode(input)),
        "output_hash" := String(Hex.Encode(output)), "telemetry_hash" := String(Hex.Encode(telemetry))]
  }

  function ProveDigestEquality(sha: Hash, prove: Job -> Bytes, o: Origin, private: Bytes, expected: Bytes): Proving {
    var normal := Normalise(sha, expected);
    Publish(o, prove, Job(EqualityCircuit, o.security, [InputScalar(sha, private)], FirstRow([DigestToScalar(normal)])),
            HashText(sha, normal), map["expected_digest" := String(Hex.Encode(normal))])
  }

  function RelayJob(security: u32, consensus: scalar, guards: scalar, exits: scalar, expected: scalar): Job {
    Job(RelayCircuit, security, [consensus, guards, exits], FirstRow([expected, guards, exits]))
  }

  function ProveRelayAudit(sha: Hash, prove: Job -> Bytes, o: Origin, consensus: Bytes, guards: u32, exits: u32)
    : Result<Proving, ZkError>
  {
    var commitment := RelayCommitment(sha, consensus, guards, exits);
    var expected :- ScalarFromBytes(commitment);
    Ok(Publish(o, prove,
               RelayJob(o.security, InputScalar(sha, consensus), guards, exits, expected),
               HashText(sha, commitment),
               RelayInputs(commitment, guards, exits)))
  }

  function ProveLogChainIntegrity(sha: Hash, prove: Job -> Bytes, o: Origin, previous: Bytes, entry: Bytes,
                                  sequence: u64)
    : Result<Proving, ZkError>
  {
    var commitment := LogChainCommitment(sha, previous, entry, sequence);
    var expected :- ScalarFromBytes(commitment);
    Ok(Publish(o, prove,
               Job(LogCircuit, o.security, [InputScalar(sha, previous), InputScalar(sha, entry)],
                   FirstRow([expected, sequence])),
               HashText(sha, commitment),
               LogInputs(commitment, sequence, Normalise(sha, previous), Normalise(sha, entry))))
  }

  function ProveExecution(sha: Hash, prove: Job -> Bytes, o: Origin, input: Bytes, output: Bytes, telemetry: Bytes)
    : Result<Proving, ZkError>
  {
    var commitment := ExecutionCommitment(sha, input, output, telemetry);
    var expected :- ScalarFromBytes(commitment);
    Ok(Publish(o, prove,
               Job(ExecutionCircuit, o.security,
                   [InputScalar(sha, input), InputScalar(sha, output), InputScalar(sha, telemetry)],
                   FirstRow([expected])),
               HashText(sha, commitment),
               ExecutionInputs(commitment, Normalise(sha, input), Normalise(sha, output), Normalise(sha, telemetry))))
  }

  // ---------- Completeness up to the library call ----------

  /** The honest witness satisfies the circuit, and verification reaches the library with the
      prover's own circuit, parameter, instances and proof. */
  ghost predicate Completes(p: Proving, verified: Result<Call, ZkError>, rows: nat) {
    && |p.job.private| == AdviceColumns(p.job.circuit) && |p.job.instances| == InstanceColumns(p.job.circuit)
    && Satisfied(p.job.circuit, FirstRow(p.job.private), p.job.instances, rows)
    && verified == Ok(Call(p.job.circuit, p.job.security, p.job.instances, p.bundle.proof))
  }

  /** No bundle, honest or not, is accepted for two contexts of different kinds, nor for two relay, log
      or execution contexts; two digests it is accepted for have the same hash. */
  lemma OneContextOnly(sha: Hash, b: Bundle, first: VerificationContext, second: VerificationContext)
    requires VerifyProof(sha, b, first).Ok? && VerifyProof(sha, b, second).Ok?
    ensures first == second
         || (first.ScalarDigest? && second.ScalarDigest? && sha(first.expectedDigest) == sha(second.expectedDigest))
  {
    AcceptedFields(sha, b, first);
    AcceptedFields(sha, b, second);
    CircuitIdsDistinct(CircuitOf(first), CircuitOf(second));
    if first.ScalarDigest? {
      Hex.EncodeInjective(sha(first.expectedDigest), sha(second.expectedDigest));
    } else {
      Hex.EncodeInjective(first.expectedCommitment, second.expectedCommitment);
    }
  }

  function CircuitOf(context: VerificationContext): Circuit {
    match context
    case ScalarDigest(_) => EqualityCircuit
    case RelayAudit(_, _, _) => RelayCircuit
    case LogIntegrity(_, _) => LogCircuit
    case Execution(_) => ExecutionCircuit
  }

  ghost predicate Binds(sha: Hash, b: Bundle, context: VerificationContext) {
    match context
    case ScalarDigest(d) => b.expectedHash == Hex.Encode(sha(d))
    case RelayAudit(c, g, x) =>
      Characters(b.publicInputs, COMMITMENT) == Ok(Hex.Encode(c))
      && Number(b.publicInputs, GUARD_COUNT) == Ok(g) && Number(b.publicInputs, EXIT_COUNT) == Ok(x)
    case LogIntegrity(c, n) =>
      Characters(b.publicInputs, COMMITMENT) == Ok(Hex.Encode(c)) && Number(b.publicInputs, SEQUENCE) == Ok(n)
    case Execution(c) => Characters(b.publicInputs, COMMITMENT) == Ok(Hex.Encode(c))
  }

  lemma AcceptedFields(sha: Hash, b: Bundle, context: VerificationContext)
    requires VerifyProof(sha, b, context).Ok?
    ensures b.circuit == CircuitId(CircuitOf(context)) && Binds(sha, b, context)
  {
  }

  /** Conversely, a bundle with the right identifiers, hash and fields passes every check. */
  lemma FieldsAccepted(sha: Hash, b: Bundle, context: VerificationContext, e: scalar)
    requires !context.ScalarDigest? && b.protocol == PROTOCOL && b.circuit == CircuitId(CircuitOf(context))
    requires ScalarFromBytes(context.expectedCommitment) == Ok(e)
    requires b.expectedHash == HashText(sha, context.expectedCommitment) && Binds(sha, b, context)
    ensures VerifyProof(sha, b, context)
         == Ok(Call(CircuitOf(context), b.circuitSecurity, Instances(context, e), b.proof))
  {
  }

  function Instances(context: VerificationContext, e: scalar): seq<seq<scalar>> {
    match context
    case ScalarDigest(_) => FirstRow([e])
    case RelayAudit(_, g, x) => FirstRow([e, g, x])
    case LogIntegrity(_, n) => FirstRow([e, n])
    case Execution(_) => FirstRow([e])
  }

  lemma CommitmentDecodes(sha: Hash, a: Bytes, b: Bytes, c: Bytes, g: u32, x: u32, n: u64)
    ensures ScalarFromBytes(RelayCommitment(sha, a, g, x)).Ok?
    ensures ScalarFromBytes(LogChainCommitment(sha, a, b, n)).Ok?
    ensures ScalarFromBytes(ExecutionCommitment(sha, a, b, c)).Ok?
  {
    var s, t, u := InputScalar(sha, a), InputScalar(sha, b), InputScalar(sha, c);
    Encodes(Add(Add(s, g), x), Add(Add(s, g), x));
    Encodes(Add(s, Mul(t, n)), Add(s, Mul(t, n)));
    Encodes(Add(Add(s, t), u), Add(Add(s, t), u));
  }

  /** The bundle p is complete for its own context, and accepted for no other. */
  ghost predicate CompleteFor(sha: Hash, p: Proving, own: VerificationContext, context: VerificationContext,
                              rows: nat)
  {
    && Completes(p, VerifyProof(sha, p.bundle, own), rows)
    && (VerifyProof(sha, p.bundle, context).Ok? <==> context == own)
  }

  /** The shared part of the three completeness proofs. */
  lemma HonestBundle(sha: Hash, prove: Job -> Bytes, o: Origin, own: VerificationContext, e: scalar,
                     private: seq<scalar>, public: seq<scalar>, inputs: map<string, Json>,
                     context: VerificationContext, rows: nat)
    requires rows > 0 && !own.ScalarDigest? && ScalarFromBytes(own.expectedCommitment) == Ok(e)
    requires |private| == AdviceColumns(CircuitOf(own)) && |public| == InstanceColumns(CircuitOf(own))
    requires FirstRow(public) == Instances(own, e) && Relation(CircuitOf(own), private, public)
    requires var p := Publish(o, prove, Job(CircuitOf(own), o.security, private, FirstRow(public)),
                              HashText(sha, own.expectedCommitment), inputs);
             Binds(sha, p.bundle, own)
    ensures var p := Publish(o, prove, Job(CircuitOf(own), o.security, private, FirstRow(public)),
                             HashText(sha, own.expectedCommitment), inputs);
            CompleteFor(sha, p, own, context, rows)
  {
    var p := Publish(o, prove, Job(CircuitOf(own), o.security, private, FirstRow(public)),
                     HashText(sha, own.expectedCommitment), inputs);
    HonestAssignment(CircuitOf(own), private, public, rows);
    FieldsAccepted(sha, p.bundle, own, e);
    if VerifyProof(sha, p.bundle, context).Ok? {
      OneContextOnly(sha, p.bundle, own, context);
    }
  }

  lemma RelayHonest(sha: Hash, consensus: Bytes, g: u32, x: u32) returns (e: scalar)
    ensures ScalarFromBytes(RelayCommitment(sha, consensus, g, x)) == Ok(e)
    ensures Relation(RelayCircuit, [InputScalar(sha, consensus), g, x], [e, g, x])
  {
    CommitmentDecodes(sha, consensus, [], [], g, x, 0);
    e := ScalarFromBytes(RelayCommitment(sha, consensus, g, x)).value;
    CommitmentsSatisfy(sha, consensus, [], [], g, x, 0, e);
  }

  /** A relay bundle verifies against its own commitment and counts, and against nothing else. */
  lemma RelayComplete(sha: Hash, prove: Job -> Bytes, o: Origin, consensus: Bytes, g: u32, x: u32,
                      context: VerificationContext, rows: nat)
    requires rows > 0
    ensures ProveRelayAudit(sha, prove, o, consensus, g, x).Ok?
    ensures CompleteFor(sha, ProveRelayAudit(sha, prove, o, consensus, g, x).value,
                        RelayAudit(RelayCommitment(sha, consensus, g, x), g, x), context, rows)
  {
    var commitment := RelayCommitment(sha, consensus, g, x);
    var e := RelayHonest(sha, consensus, g, x);
    RelayBundle(sha, prove, o, commitment, InputScalar(sha, consensus), g, x, e, context, rows);
  }

  lemma RelayBundle(sha: Hash, prove: Job -> Bytes, o: Origin, commitment: Bytes, s: scalar, g: u32, x: u32, e: scalar,
                    context: VerificationContext, rows: nat)
    requires rows > 0 && ScalarFromBytes(commitment) == Ok(e) && Relation(RelayCircuit, [s, g, x], [e, g, x])
    ensures CompleteFor(sha, Publish(o, prove, RelayJob(o.security, s, g, x, e), HashText(sha, commitment),
                                     RelayInputs(commitment, g, x)),
                        RelayAudit(commitment, g, x), context, rows)
  {
    HonestBundle(sha, prove, o, RelayAudit(commitment, g, x), e, [s, g, x], [e, g, x], RelayInputs(commitment, g, x),
                 context, rows);
  }

  lemma LogComplete(sha: Hash, prove: Job -> Bytes, o: Origin, previous: Bytes, entry: Bytes, n: u64,
                    context: VerificationContext, rows: nat)
    requires rows > 0
    ensures ProveLogChainIntegrity(sha, prove, o, previous, entry, n).Ok?
    ensures CompleteFor(sha, ProveLogChainIntegrity(sha, prove, o, previous, entry, n).value,
                        LogIntegrity(LogChainCommitment(sha, previous, entry, n), n), context, rows)
  {
    var commitment := LogChainCommitment(sha, previous, entry, n);
    CommitmentDecodes(sha, previous, entry, [], 0, 0, n);
    var e := ScalarFromBytes(commitment).value;
    CommitmentsSatisfy(sha, previous, entry, [], 0, 0, n, e);
    HonestBundle(sha, prove, o, LogIntegrity(commitment, n), e, [InputScalar(sha, previous), InputScalar(sha, entry)],
                 [e, n], LogInputs(commitment, n, Normalise(sha, previous), Normalise(sha, entry)), context, rows);
  }

  lemma ExecutionComplete(sha: Hash, prove: Job -> Bytes, o: Origin, i: Bytes, u: Bytes, t: Bytes,
                          context: VerificationContext, rows: nat)
    requires rows > 0
    ensures ProveExecution(sha, prove, o, i, u, t).Ok?
    ensures CompleteFor(sha, ProveExecution(sha, prove, o, i, u, t).value,
                        Execution(ExecutionCommitment(sha, i, u, t)), context, rows)
  {
    var commitment := ExecutionCommitment(sha, i, u, t);
    CommitmentDecodes(sha, i, u, t, 0, 0, 0);
    var e := ScalarFromBytes(commitment).value;
    CommitmentsSatisfy(sha, i, u, t, 0, 0, 0, e);
    HonestBundle(sha, prove, o, Execution(commitment), e,
                 [InputScalar(sha, i), InputScalar(sha, u), InputScalar(sha, t)], [e],
                 ExecutionInputs(commitment, Normalise(sha, i), Normalise(sha, u), Normalise(sha, t)), context, rows);
  }

  /** Digest equality: the honest witness satisfies the circuit exactly when the normalised digests
      agree modulo P, and the dedicated verifier always reaches the library. The general verifier
      hashes the digest before normalising it, so it does so exactly when the digest already has 32
      bytes or hashes like its own hash. */
  lemma EqualityComplete(sha: Hash, prove: Job -> Bytes, o: Origin, private: Bytes, expected: Bytes, rows: nat)
    requires rows > 0
    ensures var p := ProveDigestEquality(sha, prove, o, private, expected);
            var normal := Normalise(sha, expected);
            var congruent := LeValue(Normalise(sha, private)) % P == LeValue(normal) % P;
            && (Completes(p, VerifyScalarEquality(sha, p.bundle, expected), rows) <==> congruent)
            && (Completes(p, VerifyProof(sha, p.bundle, ScalarDigest(normal)), rows) <==> congruent)
            && (VerifyProof(sha, p.bundle, ScalarDigest(expected)).Ok?
                <==> |expected| == 32 || sha(expected) == sha(sha(expected)))
            && (VerifyProof(sha, p.bundle, ScalarDigest(expected)).Err?
                ==> VerifyProof(sha, p.bundle, ScalarDigest(expected)) == Err(Integrity))
  {
    var normal := Normalise(sha, expected);
    EqualityIsCongruence(Normalise(sha, private), normal, rows);
    if HashText(sha, normal) == HashText(sha, expected) {
      Hex.EncodeInjective(sha(normal), sha(expected));
    }
  }
}

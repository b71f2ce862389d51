/** The table of stored proofs and the life of its `verified` flag. */
module ProofTable {
  import opened Text
  import opened PallasField
  import opened ZkCircuits
  import opened ZkProofs
  import opened RecordContext

  type i16 = n: int | -0x8000 <= n < 0x8000

  datatype Key = Key(proofId: Uuid, userId: Uuid)
  datatype Row = Row(protocol: Bytes, circuit: Bytes, security: i16, expectedHash: Bytes, publicInputs: Json,
                     proof: Bytes, createdAt: int, verified: bool, verifiedAt: Option<int>)
  type Rows = map<Key, Row>

  datatype Verification = Verification(key: Key, context: VerificationContext)
  datatype TableError = NotFound | Refused(error: ZkError) | ProofInvalid

  /** The two casts between u32 and the SMALLINT column: both keep the low 16 bits, sign-extended. */
  function Narrow(k: u32): i16 {
    var low := k % 0x1_0000;
    if low < 0x8000 then low else low - 0x1_0000
  }

  function Widen(k: i16): u32 {
    if k >= 0 then k else k + 0x1_0000_0000
  }

  lemma SecuritySurvives(k: u32)
    ensures Widen(Narrow(k)) == k <==> k < 0x8000 || k >= 0x1_0000_0000 - 0x8000
  {
  }

  /** Narrowing keeps the number modulo 65536, and the range leaves one choice; widening keeps the low 32 bits
      of the signed number. */
  lemma CastsMean(k: u32, n: i16)
    ensures (Narrow(k) - k) % 65536 == 0
    ensures (Widen(n) - n) % 4294967296 == 0
  {
  }

  // ---------- Statements ----------

  function KeyOf(b: Bundle): Key { Key(b.proofId, b.userId) }

  /** Insert, or on a conflict overwrite all but protocol and circuit; either way the flag is reset. */
  function Upsert(rows: Rows, b: Bundle): Rows {
    var k := KeyOf(b);
    var protocol := if k in rows then rows[k].protocol else b.protocol;
    var circuit := if k in rows then rows[k].circuit else b.circuit;
    rows[k := Row(protocol, circuit, Narrow(b.circuitSecurity), b.expectedHash, b.publicInputs, b.proof,
                  b.createdAt, false, None)]
  }

  /** The bundle a verification rebuilds from a stored row. */
  function Reload(k: Key, row: Row, now: int): Bundle {
    Bundle(k.proofId, k.userId, row.protocol, row.circuit, Widen(row.security), row.expectedHash,
           row.publicInputs, row.proof, now)
  }

  /** A verification sees the bundle just stored exactly when the parameter survives the two casts and
      no earlier row under the key had another protocol or circuit. */
  lemma StoredBundleReturns(rows: Rows, b: Bundle, now: int)
    ensures var k := KeyOf(b);
            Reload(k, Upsert(rows, b)[k], now) == b.(createdAt := now)
            <==> (b.circuitSecurity < 0x8000 || b.circuitSecurity >= 0x1_0000_0000 - 0x8000)
                 && (k in rows ==> rows[k].protocol == b.protocol && rows[k].circuit == b.circuit)
  {
    SecuritySurvives(b.circuitSecurity);
  }

  /** The final update selects by proof id alone. */
  function MarkVerified(rows: Rows, proofId: Uuid, now: int): Rows {
    map k | k in rows ::
      if k.proofId == proofId then rows[k].(verified := true, verifiedAt := Some(now)) else rows[k]
  }

  /** Storing leaves every other row alone, takes what the caller may change from the bundle, and what it may
      not from an earlier row under the key. */
  lemma UpsertEffects(rows: Rows, b: Bundle)
    ensures var after := Upsert(rows, b);
            var k := KeyOf(b);
            && k.proofId == b.proofId && k.userId == b.userId
            && after.Keys == rows.Keys + {k}
            && (forall other :: other in rows && other != k ==> after[other] == rows[other])
            && after[k].expectedHash == b.expectedHash && after[k].publicInputs == b.publicInputs
            && after[k].proof == b.proof && after[k].createdAt == b.createdAt
            && (after[k].security - b.circuitSecurity) % 65536 == 0
            && !after[k].verified && after[k].verifiedAt.None?
            && (if k in rows then after[k].protocol == rows[k].protocol && after[k].circuit == rows[k].circuit
                else after[k].protocol == b.protocol && after[k].circuit == b.circuit)
  {
    CastsMean(b.circuitSecurity, 0);
  }

  /** The update dates and flags every user's row under the proof id, and changes nothing else. */
  lemma UpdateEffects(rows: Rows, proofId: Uuid, now: int)
    ensures var after := MarkVerified(rows, proofId, now);
            && after.Keys == rows.Keys
            && (forall k :: k in rows && k.proofId != proofId ==> after[k] == rows[k])
            && (forall k :: k in rows && k.proofId == proofId ==>
                  && after[k].verified && after[k].verifiedAt == Some(now)
                  && after[k].(verified := rows[k].verified, verifiedAt := rows[k].verifiedAt) == rows[k])
  {
  }

  /** The library's verdict, and the checks before it, on one bundle. */
  predicate Accepted(sha: Hash, library: Call -> bool, b: Bundle, context: VerificationContext) {
    var call := VerifyProof(sha, b, context);
    call.Ok? && library(call.value)
  }

  /** A verification that reaches the library and is accepted by it. */
  predicate Passes(sha: Hash, library: Call -> bool, rows: Rows, v: Verification, now: int) {
    && v.key in rows && !rows[v.key].verified
    && Accepted(sha, library, Reload(v.key, rows[v.key], now), v.context)
  }

  class ZkProofTable {
    var rows: Rows

    constructor ()
      ensures rows == map[]
    {
      rows := map[];
    }

    method StoreZkProof(b: Bundle)
      modifies this
      ensures rows == Upsert(old(rows), b)
    {
      var k := KeyOf(b);
      if k in rows {
        rows := rows[k := rows[k].(security := Narrow(b.circuitSecurity), expectedHash := b.expectedHash,
                                   publicInputs := b.publicInputs, proof := b.proof, createdAt := b.createdAt,
                                   verified := false, verifiedAt := None)];
      } else {
        rows := rows[k := Row(b.protocol, b.circuit, Narrow(b.circuitSecurity), b.expectedHash, b.publicInputs,
                              b.proof, b.createdAt, false, None)];
      }
    }

    /** The SELECT statement. */
    method SelectProof(k: Key) returns (row: Option<Row>)
      ensures row == if k in rows then Some(rows[k]) else None
    {
      row := if k in rows then Some(rows[k]) else None;
    }

    /** The UPDATE statement, which selects by proof id alone. */
    method SetVerified(proofId: Uuid, now: int)
      modifies this
      ensures rows == MarkVerified(old(rows), proofId, now)
    {
      rows := map k | k in rows ::
        if k.proofId == proofId then rows[k].(verified := true, verifiedAt := Some(now)) else rows[k];
    }

    /** Select, check and update. `between` is what other calls store after the select and before the
        update; a call that has no update to make ends before that. */
    method VerifyZkProof(sha: Hash, library: Call -> bool, v: Verification, now: int, between: seq<Bundle>)
      returns (r: Result<bool, TableError>)
      modifies this
      ensures rows == if Passes(sha, library, old(rows), v, now)
                      then MarkVerified(UpsertAll(old(rows), between), v.key.proofId, now)
                      else old(rows)
      ensures r.Ok? <==> v.key in old(rows) && (old(rows)[v.key].verified || Passes(sha, library, old(rows), v, now))
      ensures r.Ok? ==> r.value && v.key in rows && rows[v.key].verified
      ensures r == Err(NotFound) <==> v.key !in old(rows)
    {
      var row := SelectProof(v.key);
      if row.None? {
        return Err(NotFound);
      }
      if row.value.verified {
        return Ok(true);
      }
      var call := VerifyProof(sha, Reload(v.key, row.value, now), v.context);
      if call.Err? {
        return Err(Refused(call.error));
      }
      if !library(call.value) {
        return Err(ProofInvalid);
      }
      StoreAll(between);
      SetVerified(v.key.proofId, now);
      return Ok(true);
    }

    method StoreAll(bundles: seq<Bundle>)
      modifies this
      ensures rows == UpsertAll(old(rows), bundles)
      ensures old(rows).Keys <= rows.Keys
    {
      for i := 0 to |bundles|
        invariant rows == UpsertAll(old(rows), bundles[..i])
        invariant old(rows).Keys <= rows.Keys
      {
        assert bundles[..i + 1][..i] == bundles[..i];
        StoreZkProof(bundles[i]);
      }
      assert bundles[..|bundles|] == bundles;
    }
  }

  function UpsertAll(rows: Rows, bundles: seq<Bundle>): Rows {
    if bundles == [] then rows
    else Upsert(UpsertAll(rows, bundles[..|bundles| - 1]), bundles[|bundles| - 1])
  }
}

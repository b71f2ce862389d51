/** The nonce log and the decision cache of remote attestation. Every operation is a sequence of SQL
    statements, and statements of concurrent calls interleave. */
module Attestation {
  import opened Text
  import opened Clock
  import Hex

  datatype Seen = Seen(enclave: Bytes, seenAt: int)
  datatype Decision = Decision(tee: Bytes, decision: Bytes, expiresAt: int)
  datatype Db = Db(clock: int, nonces: map<Bytes, Seen>, cache: map<Bytes, Decision>)

  function Start(clock: int): Db { Db(clock, map[], map[]) }

  datatype Statement =
    | Tick(elapsed: nat)
    | PruneNonces(ttl: int)
    | InsertNonce(nonce: Bytes, enclave: Bytes)
    | DeleteNonce(nonce: Bytes)
    | PruneCache
    | UpsertDecision(quote: Bytes, entry: Decision)
    | DeleteDecision(quote: Bytes)

  /** Time to live in clock units; a negative one counts as zero. */
  function Lifetime(ttl: int): (t: nat) {
    if ttl > 0 then ttl * SECOND else 0
  }

  function Step(db: Db, s: Statement): Db {
    match s
    case Tick(elapsed) => db.(clock := db.clock + elapsed)
    case PruneNonces(ttl) =>
      db.(nonces := map n | n in db.nonces && !(db.nonces[n].seenAt < db.clock - Lifetime(ttl)) :: db.nonces[n])
    case InsertNonce(nonce, enclave) =>
      if nonce in db.nonces then db else db.(nonces := db.nonces[nonce := Seen(enclave, db.clock)])
    case DeleteNonce(nonce) => db.(nonces := db.nonces - {nonce})
    case PruneCache => db.(cache := map q | q in db.cache && !(db.cache[q].expiresAt < db.clock) :: db.cache[q])
    case UpsertDecision(quote, entry) => db.(cache := db.cache[quote := entry])
    case DeleteDecision(quote) => db.(cache := db.cache - {quote})
  }

  function Run(db: Db, trace: seq<Statement>): Db {
    if trace == [] then db else Step(Run(db, trace[..|trace| - 1]), trace[|trace| - 1])
  }

  // ---------- The operations ----------

  datatype AttestationError = BadQuoteHash | BadNonceDigest

  class AttestationTables {
    var clock: int
    var nonces: map<Bytes, Seen>
    var cache: map<Bytes, Decision>

    function State(): Db
      reads this
    {
      Db(clock, nonces, cache)
    }

    constructor (now: int)
      ensures State() == Start(now)
    {
      clock, nonces, cache := now, map[], map[];
    }

    method RegisterAttestationNonce(digest: Bytes, enclave: Bytes, ttlSeconds: int) returns (isNew: bool)
      modifies this
      ensures State() == Run(old(State()), [PruneNonces(ttlSeconds), InsertNonce(digest, enclave)])
      ensures isNew <==> digest !in old(nonces) || old(nonces)[digest].seenAt < clock - Lifetime(ttlSeconds)
      ensures digest in nonces && (isNew ==> nonces[digest] == Seen(enclave, clock))
    {
      var ttl := if ttlSeconds > 0 then ttlSeconds else 0;
      nonces := map n | n in nonces && !(nonces[n].seenAt < clock - ttl * SECOND) :: nonces[n];
      isNew := digest !in nonces;
      RunTwo(old(State()), PruneNonces(ttlSeconds), InsertNonce(digest, enclave));
      if isNew {
        nonces := nonces[digest := Seen(enclave, clock)];
      }
    }

    method CacheAttestationDecision(quote: Bytes, tee: Bytes, expiresAt: int, decision: Bytes)
      modifies this
      ensures State() == Run(old(State()), [PruneCache, UpsertDecision(quote, Decision(tee, decision, expiresAt))])
      ensures quote in cache && cache[quote] == Decision(tee, decision, expiresAt)
      ensures forall q :: q != quote ==>
                (q in cache <==> q in old(cache) && old(cache)[q].expiresAt >= clock)
                && (q in cache ==> cache[q] == old(cache)[q])
    {
      RunTwo(State(), PruneCache, UpsertDecision(quote, Decision(tee, decision, expiresAt)));
      cache := map q | q in cache && !(cache[q].expiresAt < clock) :: cache[q];
      cache := cache[quote := Decision(tee, decision, expiresAt)];
    }

    /** The decision goes first; a nonce that could not be read is reported after that. */
    method DeleteArtifacts(quote: Option<Bytes>, nonce: Option<Option<Bytes>>) returns (r: Result<(), AttestationError>)
      modifies this
      ensures quote.None? ==> r == Err(BadQuoteHash) && State() == old(State())
      ensures quote.Some? ==>
                var deleted := Step(old(State()), DeleteDecision(quote.value));
                match nonce
                case None => r == Ok(()) && State() == deleted
                case Some(None) => r == Err(BadNonceDigest) && State() == deleted
                case Some(Some(n)) => r == Ok(()) && State() == Step(deleted, DeleteNonce(n))
    {
      if quote.None? {
        return Err(BadQuoteHash);
      }
      cache := cache - {quote.value};
      match nonce {
        case None =>
        case Some(None) => return Err(BadNonceDigest);
        case Some(Some(n)) => nonces := nonces - {n};
      }
      return Ok(());
    }

    /** A malformed nonce is reported only after the cached decision is gone. */
    method InvalidateAttestationArtifacts(quoteHex: Bytes, nonceHex: Option<Bytes>)
      returns (r: Result<(), AttestationError>)
      modifies this
      ensures HexBytes(quoteHex).None? ==> r == Err(BadQuoteHash) && State() == old(State())
      ensures HexBytes(quoteHex).Some? ==>
                var deleted := Step(old(State()), DeleteDecision(HexBytes(quoteHex).value));
                if !NamesNonce(nonceHex) then r == Ok(()) && State() == deleted
                else if HexBytes(nonceHex.value).None? then r == Err(BadNonceDigest) && State() == deleted
                else r == Ok(()) && State() == Step(deleted, DeleteNonce(HexBytes(nonceHex.value).value))
    {
      var nonce := if NamesNonce(nonceHex) then Some(HexBytes(nonceHex.value)) else None;
      r := DeleteArtifacts(HexBytes(quoteHex), nonce);
    }
  }

  function HexBytes(text: Bytes): Option<Bytes> { Hex.Decode(Trim(text)) }

  predicate NamesNonce(nonceHex: Option<Bytes>) {
    nonceHex.Some? && Trim(nonceHex.value) != []
  }

  /** A digest is read from text with white space around it, in either case, and from nothing else. */
  lemma HexBytesExact(text: Bytes, b: Bytes)
    ensures HexBytes(text) == Some(b) <==> Hex.Lower(Trim(text)) == Hex.Encode(b)
  {
    Hex.DecodeExact(Trim(text), b);
  }

  lemma RunTwo(db: Db, s: Statement, t: Statement)
    ensures Run(db, [s, t]) == Step(Step(db, s), t)
  {
    assert [s, t][..1] == [s] && [s][..0] == [];
    assert Run(db, [s]) == Step(db, s);
  }

  // ---------- The replay window ----------

  /** The state before statement i. */
  function At(db: Db, trace: seq<Statement>, i: nat): Db
    requires i <= |trace|
  {
    Run(db, trace[..i])
  }

  lemma AtNext(db: Db, trace: seq<Statement>, i: nat)
    requires i < |trace|
    ensures At(db, trace, i + 1) == Step(At(db, trace, i), trace[i])
  {
    assert trace[..i + 1][..i] == trace[..i];
  }

  /** Statement i is an insertion of the nonce that reports it as new. */
  predicate Accepts(db: Db, trace: seq<Statement>, i: nat, nonce: Bytes)
    requires i < |trace|
  {
    trace[i].InsertNonce? && trace[i].nonce == nonce && nonce !in At(db, trace, i).nonces
  }

  /** Statement k leaves alone an entry for the nonce that was made at time t. */
  predicate Spares(db: Db, trace: seq<Statement>, k: nat, nonce: Bytes, t: int)
    requires k < |trace|
  {
    && trace[k] != DeleteNonce(nonce)
    && (trace[k].PruneNonces? ==> At(db, trace, k).clock - Lifetime(trace[k].ttl) <= t)
  }

  ghost predicate Survives(db: Db, trace: seq<Statement>, i: nat, n: nat, nonce: Bytes)
    requires i < n <= |trace|
  {
    forall k :: i < k < n ==> Spares(db, trace, k, nonce, At(db, trace, i).clock)
  }

  lemma {:induction false} ClockMonotone(db: Db, trace: seq<Statement>, i: nat, n: nat)
    requires i <= n <= |trace|
    ensures At(db, trace, i).clock <= At(db, trace, n).clock
  {
    if i < n {
      ClockMonotone(db, trace, i, n - 1);
      AtNext(db, trace, n - 1);
    }
  }

  /** The log after n statements holds exactly the accepted nonces that no later statement removed. */
  lemma {:induction false} LogExact(db: Db, trace: seq<Statement>, n: nat, nonce: Bytes, t: int)
    requires n <= |trace| && db.nonces == map[]
    ensures nonce in At(db, trace, n).nonces && At(db, trace, n).nonces[nonce].seenAt == t
        <==> exists i: nat :: i < n && Accepts(db, trace, i, nonce) && At(db, trace, i).clock == t
                              && Survives(db, trace, i, n, nonce)
  {
    if n > 0 {
      var m := n - 1;
      AtNext(db, trace, m);
      LogExact(db, trace, m, nonce, t);
      if nonce in At(db, trace, n).nonces && At(db, trace, n).nonces[nonce].seenAt == t {
        if nonce in At(db, trace, m).nonces {
          var i: nat :| i < m && Accepts(db, trace, i, nonce) && At(db, trace, i).clock == t
                        && Survives(db, trace, i, m, nonce);
          assert Survives(db, trace, i, n, nonce);
        } else {
          assert Accepts(db, trace, m, nonce) && Survives(db, trace, m, n, nonce);
        }
      }
      if i: nat :| i < n && Accepts(db, trace, i, nonce) && At(db, trace, i).clock == t
                   && Survives(db, trace, i, n, nonce) {
        if i < m {
          assert Survives(db, trace, i, m, nonce);
          assert Spares(db, trace, m, nonce, t);
        }
      }
    }
  }

  /** Two accepted insertions of one nonce, with no invalidation of it between them, are more than T
      seconds apart, however the prunings of concurrent calls are interleaved. */
  lemma ReplayWindow(db: Db, trace: seq<Statement>, i: nat, j: nat, nonce: Bytes, window: nat)
    requires i < j < |trace| && db.nonces == map[]
    requires Accepts(db, trace, i, nonce) && Accepts(db, trace, j, nonce)
    requires forall k :: i < k < j ==> trace[k] != DeleteNonce(nonce)
    requires forall k :: i < k < j && trace[k].PruneNonces? ==> trace[k].ttl >= window
    ensures At(db, trace, j).clock - At(db, trace, i).clock > window * SECOND
  {
    var t := At(db, trace, i).clock;
    LogExact(db, trace, j, nonce, t);
    assert !Survives(db, trace, i, j, nonce);
    var k :| i < k < j && !Spares(db, trace, k, nonce, t);
    ClockMonotone(db, trace, k, j);
  }

  /** The window is sharp: one microsecond past it, a single call accepts the nonce again. A negative window
      counts as none. */
  lemma WindowIsSharp(nonce: Bytes, enclave: Bytes, window: int, elapsed: nat)
    ensures var trace := [InsertNonce(nonce, enclave), Tick(elapsed), PruneNonces(window), InsertNonce(nonce, enclave)];
            Accepts(Start(0), trace, 3, nonce) <==> elapsed > 0 && elapsed > window * 1_000_000
  {
    var trace := [InsertNonce(nonce, enclave), Tick(elapsed), PruneNonces(window), InsertNonce(nonce, enclave)];
    AtNext(Start(0), trace, 0);
    AtNext(Start(0), trace, 1);
    AtNext(Start(0), trace, 2);
  }

  // ---------- Last write wins ----------

  /** The last decision cached for a quote since it was last invalidated. */
  function LastDecision(trace: seq<Statement>, quote: Bytes): Option<Decision> {
    if trace == [] then None
    else
      match trace[|trace| - 1]
      case UpsertDecision(q, entry) => if q == quote then Some(entry) else LastDecision(trace[..|trace| - 1], quote)
      case DeleteDecision(q) => if q == quote then None else LastDecision(trace[..|trace| - 1], quote)
      case _ => LastDecision(trace[..|trace| - 1], quote)
  }

  /** Pruning is invisible to a reader who ignores expired entries. */
  lemma {:induction false} CacheExact(db: Db, trace: seq<Statement>, quote: Bytes, entry: Decision)
    requires db.cache == map[]
    ensures quote in Run(db, trace).cache && Run(db, trace).cache[quote] == entry
        ==> LastDecision(trace, quote) == Some(entry)
    ensures LastDecision(trace, quote) == Some(entry) && entry.expiresAt >= Run(db, trace).clock
        ==> quote in Run(db, trace).cache && Run(db, trace).cache[quote] == entry
  {
    if trace != [] {
      CacheExact(db, trace[..|trace| - 1], quote, entry);
    }
  }
}

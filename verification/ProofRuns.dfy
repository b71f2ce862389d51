/** Whether the `verified` flag tells the truth. Storing is one statement; a verification is two, a select
    with its check and an update, and the statements of concurrent calls interleave. */
module ProofRuns {
  import opened Text
  import opened PallasField
  import opened ZkCircuits
  import opened ZkProofs
  import opened RecordContext
  import opened ProofTable

  type CallId = nat

  datatype Event =
    | Store(bundle: Bundle)
    | Select(call: CallId, verification: Verification, now: int)
    | Update(call: CallId, now: int)

  /** What was accepted: the context, and the time the row was read. */
  datatype Evidence = Evidence(context: VerificationContext, now: int)

  /** A call whose check has passed: the row it read, and how often its key had been stored by then. */
  datatype Pending = Pending(key: Key, row: Row, version: nat, evidence: Evidence)

  /** Beside the rows, the history: how often each key was stored, which calls wait for their update, and
      for which keys a verification of the contents stored last has been completed. */
  datatype State = State(rows: Rows, stores: map<Key, nat>, pending: map<CallId, Pending>, proved: map<Key, Evidence>)

  const START: State := State(map[], map[], map[], map[])

  /** The verifier under consideration: its hash and its proof library. */
  datatype Verifier = Verifier(sha: Hash, library: Call -> bool)

  function Version(s: State, k: Key): nat { if k in s.stores then s.stores[k] else 0 }

  function Step(z: Verifier, s: State, e: Event): State {
    match e
    case Store(b) =>
      var k := KeyOf(b);
      State(Upsert(s.rows, b), s.stores[k := Version(s, k) + 1], s.pending, s.proved - {k})
    case Select(call, v, now) =>
      if Passes(z.sha, z.library, s.rows, v, now) then
        var waiting := Pending(v.key, s.rows[v.key], Version(s, v.key), Evidence(v.context, now));
        s.(pending := s.pending[call := waiting])
      else s.(pending := s.pending - {call})
    case Update(call, now) =>
      if call !in s.pending then s
      else
        var p := s.pending[call];
        s.(rows := MarkVerified(s.rows, p.key.proofId, now),
           pending := s.pending - {call},
           proved := if p.version == Version(s, p.key) then s.proved[p.key := p.evidence] else s.proved)
  }

  function Run(z: Verifier, events: seq<Event>): State {
    if events == [] then START else Step(z, Run(z, events[..|events| - 1]), events[|events| - 1])
  }

  /** Without a statement between them, select and update are the whole call. */
  lemma BackToBack(z: Verifier, s: State, call: CallId, v: Verification, now: int)
    ensures Step(z, Step(z, s, Select(call, v, now)), Update(call, now)).rows
         == if Passes(z.sha, z.library, s.rows, v, now) then MarkVerified(s.rows, v.key.proofId, now) else s.rows
  {
  }

  // ---------- What a proved key means ----------

  predicate SameContents(a: Row, b: Row) {
    a == b.(verified := a.verified, verifiedAt := a.verifiedAt)
  }

  /** Some select of the run asked for this key in this context at this time. */
  ghost predicate Asked(events: seq<Event>, k: Key, ev: Evidence) {
    exists i :: 0 <= i < |events| && events[i].Select? && events[i].verification == Verification(k, ev.context)
                && events[i].now == ev.now
  }

  /** The library accepted this row for this key, when some select of the run asked. */
  ghost predicate Vouched(z: Verifier, events: seq<Event>, k: Key, row: Row, ev: Evidence) {
    Accepted(z.sha, z.library, Reload(k, row, ev.now), ev.context) && Asked(events, k, ev)
  }

  /** A waiting call read a row the library vouched for; the row still has those contents unless it was
      stored again since. */
  ghost predicate PendingSound(z: Verifier, events: seq<Event>, s: State, p: Pending) {
    && p.key in s.rows && Vouched(z, events, p.key, p.row, p.evidence) && p.version <= Version(s, p.key)
    && (p.version == Version(s, p.key) ==> SameContents(s.rows[p.key], p.row))
  }

  ghost predicate ProvedSound(z: Verifier, events: seq<Event>, s: State, k: Key, ev: Evidence) {
    k in s.rows && s.rows[k].verified && Vouched(z, events, k, s.rows[k], ev)
  }

  ghost predicate Sound(z: Verifier, events: seq<Event>, s: State) {
    && (forall call :: call in s.pending ==> PendingSound(z, events, s, s.pending[call]))
    && (forall k :: k in s.proved ==> ProvedSound(z, events, s, k, s.proved[k]))
  }

  lemma VouchedLater(z: Verifier, events: seq<Event>, e: Event, k: Key, row: Row, now: Row, ev: Evidence)
    requires Vouched(z, events, k, row, ev) && SameContents(now, row)
    ensures Vouched(z, events + [e], k, now, ev)
  {
    var i :| 0 <= i < |events| && events[i].Select? && events[i].verification == Verification(k, ev.context)
             && events[i].now == ev.now;
    assert (events + [e])[i] == events[i];
    assert Reload(k, now, ev.now) == Reload(k, row, ev.now);
  }

  /** What a statement does to the row of a key: a store of that key replaces it, nothing else changes its
      contents. */
  lemma RowKept(z: Verifier, s: State, e: Event, k: Key)
    requires k in s.rows
    ensures var next := Step(z, s, e);
            && k in next.rows && Version(next, k) >= Version(s, k)
            && (e.Store? && KeyOf(e.bundle) == k ==> Version(next, k) == Version(s, k) + 1)
            && (!(e.Store? && KeyOf(e.bundle) == k) ==>
                  Version(next, k) == Version(s, k) && SameContents(next.rows[k], s.rows[k])
                  && (s.rows[k].verified ==> next.rows[k].verified))
  {
  }

  lemma PendingKept(z: Verifier, events: seq<Event>, s: State, e: Event, p: Pending)
    requires PendingSound(z, events, s, p)
    ensures PendingSound(z, events + [e], Step(z, s, e), p)
  {
    RowKept(z, s, e, p.key);
    VouchedLater(z, events, e, p.key, p.row, p.row, p.evidence);
  }

  lemma ProvedKept(z: Verifier, events: seq<Event>, s: State, e: Event, k: Key, ev: Evidence)
    requires ProvedSound(z, events, s, k, ev) && !(e.Store? && KeyOf(e.bundle) == k)
    ensures ProvedSound(z, events + [e], Step(z, s, e), k, ev)
  {
    RowKept(z, s, e, k);
    VouchedLater(z, events, e, k, s.rows[k], Step(z, s, e).rows[k], ev);
  }

  lemma SelectedSound(z: Verifier, events: seq<Event>, s: State, e: Event)
    requires e.Select? && e.call in Step(z, s, e).pending
    ensures PendingSound(z, events + [e], Step(z, s, e), Step(z, s, e).pending[e.call])
  {
    assert (events + [e])[|events|] == e;
  }

  lemma UpdatedSound(z: Verifier, events: seq<Event>, s: State, e: Event)
    requires e.Update? && e.call in s.pending && PendingSound(z, events, s, s.pending[e.call])
    requires s.pending[e.call].version == Version(s, s.pending[e.call].key)
    ensures var p := s.pending[e.call]; ProvedSound(z, events + [e], Step(z, s, e), p.key, p.evidence)
  {
    var p := s.pending[e.call];
    RowKept(z, s, e, p.key);
    VouchedLater(z, events, e, p.key, p.row, Step(z, s, e).rows[p.key], p.evidence);
  }

  /** Where the waiting calls and the proved keys after a statement come from. */
  lemma WhereFrom(z: Verifier, s: State, e: Event)
    ensures var next := Step(z, s, e);
            && (forall c :: c in next.pending ==>
                  (c in s.pending && next.pending[c] == s.pending[c]) || (e.Select? && c == e.call))
            && (forall k :: k in next.proved ==>
                  (k in s.proved && next.proved[k] == s.proved[k] && !(e.Store? && KeyOf(e.bundle) == k))
                  || (e.Update? && e.call in s.pending && k == s.pending[e.call].key
                      && s.pending[e.call].version == Version(s, k) && next.proved[k] == s.pending[e.call].evidence))
  {
  }

  lemma StepSound(z: Verifier, events: seq<Event>, s: State, e: Event, next: State)
    requires Sound(z, events, s) && next == Step(z, s, e)
    ensures Sound(z, events + [e], next)
  {
    WhereFrom(z, s, e);
    forall c | c in next.pending ensures PendingSound(z, events + [e], next, next.pending[c]) {
      if c in s.pending && next.pending[c] == s.pending[c] {
        PendingKept(z, events, s, e, s.pending[c]);
      } else {
        SelectedSound(z, events, s, e);
      }
    }
    forall k | k in next.proved ensures ProvedSound(z, events + [e], next, k, next.proved[k]) {
      if k in s.proved && next.proved[k] == s.proved[k] && !(e.Store? && KeyOf(e.bundle) == k) {
        ProvedKept(z, events, s, e, k, s.proved[k]);
      } else {
        UpdatedSound(z, events, s, e);
      }
    }
  }

  lemma {:induction false} RunSound(z: Verifier, events: seq<Event>)
    ensures Sound(z, events, Run(z, events))
  {
    if events != [] {
      var front, last := events[..|events| - 1], events[|events| - 1];
      assert events == front + [last];
      RunSound(z, front);
      StepSound(z, front, Run(z, front), last, Run(z, events));
    }
  }

  // ---------- When the flags are truthful ----------

  /** A row is flagged exactly when a verification of what was stored in it last has been completed. */
  ghost predicate Truthful(s: State) {
    forall k :: k in s.rows ==> (s.rows[k].verified <==> k in s.proved)
  }

  /** The update reaches an unverified row that its call did not check: one of another user with the same
      proof id, or its own after something else was stored in it. */
  ghost predicate Strays(s: State, e: Event) {
    && e.Update? && e.call in s.pending
    && exists k :: k in s.rows && Stray(s, s.pending[e.call], k)
  }

  predicate Stray(s: State, p: Pending, k: Key)
    requires k in s.rows
  {
    && k.proofId == p.key.proofId && !s.rows[k].verified
    && (k != p.key || p.version != Version(s, p.key))
  }

  /** One statement keeps the flags truthful exactly when it is not a stray update. */
  lemma StepTruthful(z: Verifier, s: State, e: Event)
    requires Truthful(s)
    ensures Truthful(Step(z, s, e)) <==> !Strays(s, e)
  {
    var next := Step(z, s, e);
    if Strays(s, e) {
      var k :| k in s.rows && Stray(s, s.pending[e.call], k);
      assert next.rows[k].verified && k !in next.proved;
    } else if e.Update? && e.call in s.pending {
      var p := s.pending[e.call];
      forall k | k in next.rows ensures next.rows[k].verified <==> k in next.proved {
        assert !Stray(s, p, k);
      }
    }
  }

  ghost predicate AlwaysTruthful(z: Verifier, events: seq<Event>) {
    Truthful(Run(z, events)) && (events == [] || AlwaysTruthful(z, events[..|events| - 1]))
  }

  ghost predicate NeverStrays(z: Verifier, events: seq<Event>) {
    events == []
    || (var front := events[..|events| - 1];
        NeverStrays(z, front) && !Strays(Run(z, front), events[|events| - 1]))
  }

  /** Over a whole run, in any interleaving: the flags stay truthful exactly when no update strays. */
  lemma {:induction false} RunTruthful(z: Verifier, events: seq<Event>)
    ensures AlwaysTruthful(z, events) <==> NeverStrays(z, events)
  {
    if events != [] {
      var front := events[..|events| - 1];
      RunTruthful(z, front);
      if AlwaysTruthful(z, front) {
        StepTruthful(z, Run(z, front), events[|events| - 1]);
      }
    }
  }

  /** And a truthful flag means: the library accepted exactly what the row now holds, for its own key, in a
      context that some verification of that key asked for. */
  lemma VerifiedMeans(z: Verifier, events: seq<Event>, k: Key)
    requires Truthful(Run(z, events)) && k in Run(z, events).rows && Run(z, events).rows[k].verified
    ensures exists ev :: Vouched(z, events, k, Run(z, events).rows[k], ev)
  {
    RunSound(z, events);
    assert ProvedSound(z, events, Run(z, events), k, Run(z, events).proved[k]);
  }

  // ---------- Calls without interleaving, ids without sharing ----------

  /** No two users ever store the same proof id. */
  ghost predicate IdsNotShared(events: seq<Event>) {
    forall i, j :: (0 <= i < |events| && 0 <= j < |events| && events[i].Store? && events[j].Store?
                    && events[i].bundle.proofId == events[j].bundle.proofId)
               ==> events[i].bundle.userId == events[j].bundle.userId
  }

  /** Every update directly follows the select of its call. */
  ghost predicate Serial(events: seq<Event>) {
    forall i :: 0 <= i < |events| && events[i].Update? ==>
      i > 0 && events[i - 1].Select? && events[i - 1].call == events[i].call
  }

  lemma {:induction false} RowsWereStored(z: Verifier, events: seq<Event>, k: Key)
    requires k in Run(z, events).rows
    ensures exists i :: 0 <= i < |events| && events[i].Store? && KeyOf(events[i].bundle) == k
  {
    var n := |events| - 1;
    if !(events[n].Store? && KeyOf(events[n].bundle) == k) {
      StepRows(z, Run(z, events[..n]), events[n], k);
      RowsWereStored(z, events[..n], k);
      var i :| 0 <= i < n && events[..n][i].Store? && KeyOf(events[..n][i].bundle) == k;
      assert events[i] == events[..n][i];
    }
  }

  lemma StepRows(z: Verifier, s: State, e: Event, k: Key)
    ensures k in Step(z, s, e).rows <==> k in s.rows || (e.Store? && KeyOf(e.bundle) == k)
  {
  }

  lemma FreshlySelected(z: Verifier, s: State, select: Event, update: Event)
    requires select.Select? && update.Update? && update.call == select.call
    ensures var now := Step(z, s, select);
            update.call in now.pending ==>
              now.pending[update.call].version == Version(now, now.pending[update.call].key)
              && now.pending[update.call].key in now.rows
  {
  }

  /** With calls that do not interleave and ids that users do not share, no update strays. */
  lemma {:induction false} SerialTruthful(z: Verifier, events: seq<Event>)
    requires Serial(events) && IdsNotShared(events)
    ensures AlwaysTruthful(z, events)
  {
    if events != [] {
      var n := |events| - 1;
      var front, last := events[..n], events[n];
      assert forall i :: 0 <= i < n ==> front[i] == events[i];
      SerialTruthful(z, front);
      var s := Run(z, front);
      StepTruthful(z, s, last);
      if last.Update? {
        FreshlySelected(z, Run(z, front[..n - 1]), front[n - 1], last);
        if Strays(s, last) {
          var k :| k in s.rows && Stray(s, s.pending[last.call], k);
          TwoOwners(z, front, k, s.pending[last.call].key);
        }
      }
    }
  }

  lemma TwoOwners(z: Verifier, events: seq<Event>, k: Key, l: Key)
    requires IdsNotShared(events) && k in Run(z, events).rows && l in Run(z, events).rows && k.proofId == l.proofId
    ensures k == l
  {
    RowsWereStored(z, events, k);
    RowsWereStored(z, events, l);
  }

  // ---------- Two runs in which the flag lies ----------

  /** An honest bundle without inputs, its key and the context it verifies in. */
  function Honest(z: Verifier, prove: Job -> Bytes, id: Uuid, user: Uuid, k: u32): (p: Result<Proving, ZkError>) {
    ProveExecution(z.sha, prove, Origin(id, user, 0, k), [], [], [])
  }

  function OwnContext(z: Verifier): VerificationContext {
    Execution(ExecutionCommitment(z.sha, [], [], []))
  }

  /** What completeness of the proof system promises: a proof of a well-formed job whose witness satisfies
      its circuit is accepted. */
  ghost predicate CompleteLibrary(z: Verifier, prove: Job -> Bytes, usable: nat) {
    forall job: Job ::
      (|job.private| == AdviceColumns(job.circuit) && |job.instances| == InstanceColumns(job.circuit)
       && Satisfied(job.circuit, FirstRow(job.private), job.instances, usable))
      ==> z.library(Call(job.circuit, job.security, job.instances, prove(job)))
  }

  /** Such a library can be strict about its input: one that counts the instance columns is complete. */
  lemma StrictLibraryExists(sha: Hash, prove: Job -> Bytes, usable: nat) returns (z: Verifier)
    ensures CompleteLibrary(z, prove, usable)
    ensures forall c: Call :: z.library(c) ==> |c.instances| == InstanceColumns(c.circuit)
  {
    z := Verifier(sha, (c: Call) => |c.instances| == InstanceColumns(c.circuit));
  }

  lemma HonestPasses(z: Verifier, prove: Job -> Bytes, id: Uuid, user: Uuid, k: u32, usable: nat, rows: Rows)
    requires k < 0x8000 && Honest(z, prove, id, user, k).Ok? && Key(id, user) in rows
    requires CompleteLibrary(z, prove, usable) && usable > 0
    requires rows[Key(id, user)] == Upsert(map[], Honest(z, prove, id, user, k).value.bundle)[Key(id, user)]
    ensures Passes(z.sha, z.library, rows, Verification(Key(id, user), OwnContext(z)), 0)
  {
    var b := Honest(z, prove, id, user, k).value.bundle;
    ExecutionComplete(z.sha, prove, Origin(id, user, 0, k), [], [], [], OwnContext(z), usable);
    StoredBundleReturns(map[], b, 0);
    assert Reload(Key(id, user), rows[Key(id, user)], 0) == b;
  }

  lemma HonestExists(z: Verifier, prove: Job -> Bytes, id: Uuid, user: Uuid, k: u32)
    ensures Honest(z, prove, id, user, k).Ok? && KeyOf(Honest(z, prove, id, user, k).value.bundle) == Key(id, user)
  {
    ExecutionComplete(z.sha, prove, Origin(id, user, 0, k), [], [], [], OwnContext(z), 1);
  }

  /** Two users, one id, no interleaving: verifying the first user's proof verifies the second user's row. */
  lemma SharedIdLies(z: Verifier, prove: Job -> Bytes, id: Uuid, alice: Uuid, bob: Uuid, other: Bundle, k: u32,
                     usable: nat)
    requires alice != bob && KeyOf(other) == Key(id, bob) && k < 0x8000
    requires CompleteLibrary(z, prove, usable) && usable > 0
    ensures Honest(z, prove, id, alice, k).Ok?
    ensures var select := Select(0, Verification(Key(id, alice), OwnContext(z)), 0);
            var end := Run(z, [Store(Honest(z, prove, id, alice, k).value.bundle), Store(other), select, Update(0, 0)]);
            Key(id, bob) in end.rows && end.rows[Key(id, bob)].verified && Key(id, bob) !in end.proved
  {
    HonestExists(z, prove, id, alice, k);
    var b := Honest(z, prove, id, alice, k).value.bundle;
    var v := Verification(Key(id, alice), OwnContext(z));
    RunFour(z, Store(b), Store(other), Select(0, v, 0), Update(0, 0));
    var stored := Step(z, Step(z, START, Store(b)), Store(other));
    HonestPasses(z, prove, id, alice, k, usable, stored.rows);
  }

  /** One user, one proof, but a store between select and update: what was stored there ends up verified,
      although nobody checked it. */
  lemma LateUpdateLies(z: Verifier, prove: Job -> Bytes, id: Uuid, user: Uuid, other: Bundle, k: u32,
                       usable: nat)
    requires KeyOf(other) == Key(id, user) && k < 0x8000
    requires CompleteLibrary(z, prove, usable) && usable > 0
    ensures Honest(z, prove, id, user, k).Ok?
    ensures var select := Select(0, Verification(Key(id, user), OwnContext(z)), 0);
            var end := Run(z, [Store(Honest(z, prove, id, user, k).value.bundle), select, Store(other), Update(0, 0)]);
            && Key(id, user) in end.rows && end.rows[Key(id, user)].verified && Key(id, user) !in end.proved
            && end.rows[Key(id, user)].proof == other.proof
  {
    HonestExists(z, prove, id, user, k);
    var b := Honest(z, prove, id, user, k).value.bundle;
    var v := Verification(Key(id, user), OwnContext(z));
    RunFour(z, Store(b), Select(0, v, 0), Store(other), Update(0, 0));
    HonestPasses(z, prove, id, user, k, usable, Step(z, START, Store(b)).rows);
  }

  lemma RunFour(z: Verifier, a: Event, b: Event, c: Event, d: Event)
    ensures Run(z, [a, b, c, d]) == Step(z, Step(z, Step(z, Step(z, START, a), b), c), d)
  {
    RunLast(z, [], a);
    RunLast(z, [a], b);
    RunLast(z, [a, b], c);
    RunLast(z, [a, b, c], d);
    assert [] + [a] == [a] && [a] + [b] == [a, b] && [a, b] + [c] == [a, b, c] && [a, b, c] + [d] == [a, b, c, d];
  }

  lemma RunLast(z: Verifier, front: seq<Event>, e: Event)
    ensures Run(z, front + [e]) == Step(z, Run(z, front), e)
  {
    assert (front + [e])[..|front + [e]| - 1] == front;
  }

  // ---------- What storing keeps ----------

  function FirstStored(events: seq<Event>, k: Key): Option<Bundle> {
    if events == [] then None
    else if events[0].Store? && KeyOf(events[0].bundle) == k then Some(events[0].bundle)
    else FirstStored(events[1..], k)
  }

  function LastStored(events: seq<Event>, k: Key): Option<Bundle> {
    if events == [] then None
    else
      var n := |events| - 1;
      if events[n].Store? && KeyOf(events[n].bundle) == k then Some(events[n].bundle)
      else LastStored(events[..n], k)
  }

  /** The row that these two bundles leave: the last one, with the protocol and circuit of the first. */
  ghost predicate RowOfBundles(row: Row, first: Bundle, last: Bundle) {
    && row.protocol == first.protocol && row.circuit == first.circuit
    && row.security == Narrow(last.circuitSecurity) && row.expectedHash == last.expectedHash
    && row.publicInputs == last.publicInputs && row.proof == last.proof && row.createdAt == last.createdAt
  }

  /** In any interleaving, a row is the last bundle stored under its key, with the protocol and circuit of
      the first one and the parameter cut to 16 bits. */
  lemma {:induction false} RowMeans(z: Verifier, events: seq<Event>, k: Key)
    ensures k in Run(z, events).rows <==> FirstStored(events, k).Some?
    ensures FirstStored(events, k).Some? <==> LastStored(events, k).Some?
    ensures FirstStored(events, k).Some? ==>
              RowOfBundles(Run(z, events).rows[k], FirstStored(events, k).value, LastStored(events, k).value)
  {
    if events != [] {
      var n := |events| - 1;
      var before := events[..n];
      RowMeans(z, before, k);
      assert events == before + [events[n]];
      FirstStoredAppend(before, events[n], k);
      StepRows(z, Run(z, before), events[n], k);
    }
  }

  lemma {:induction false} FirstStoredAppend(events: seq<Event>, e: Event, k: Key)
    ensures FirstStored(events + [e], k)
         == if FirstStored(events, k).Some? then FirstStored(events, k)
            else if e.Store? && KeyOf(e.bundle) == k then Some(e.bundle) else None
  {
    if events == [] {
      assert (events + [e])[1..] == [];
    } else {
      assert (events + [e])[1..] == events[1..] + [e];
      FirstStoredAppend(events[1..], e, k);
    }
  }
}

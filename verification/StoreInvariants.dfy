/** What every run of the store keeps: relational integrity, the shape of protected columns, and
    the one-way life of a ticket. */
module StoreInvariants {
  import opened Text
  import opened Clock
  import opened Envelope
  import opened RecordContext
  import opened SealedVault
  import opened TicketStore

  predicate ForeignKeys(db: Db) {
    (forall s :: s in db.sessions ==> db.sessions[s].credential in db.credentials)
    && (forall t :: t in db.tickets ==> db.tickets[t].credential in db.credentials)
  }

  predicate OnionsUnique(db: Db) {
    forall c, d ::
      (c in db.credentials && d in db.credentials && db.credentials[c].onion == db.credentials[d].onion)
      ==> c == d
  }

  predicate AttestationsUnique(db: Db) {
    forall t, u ::
      (t in db.tickets && u in db.tickets && db.tickets[t].attestation != NIL
       && db.tickets[t].attestation == db.tickets[u].attestation)
      ==> t == u
  }

  /** Required columns are present, issue columns hold v2 envelopes, the redemption columns are set
      together or not at all, and no session column strays into the row. */
  predicate TicketColumns(t: Ticket) {
    && REQUIRED <= t.sealed.Keys
    && ClientOnion !in t.sealed
    && (forall c :: c in t.sealed && c != RedeemedOnion ==> IsPayloadV2(t.sealed[c]))
    && (RedeemedOnion in t.sealed ==> IsPayload(t.sealed[RedeemedOnion]))
    && (t.redeemedAt.Some? <==> RedeemedOnion in t.sealed)
  }

  predicate SessionColumns(s: Session) { s.clientOnion.Some? ==> IsPayloadV2(s.clientOnion.value) }

  predicate Columns(db: Db) {
    (forall t :: t in db.tickets ==> TicketColumns(db.tickets[t]))
    && (forall s :: s in db.sessions ==> SessionColumns(db.sessions[s]))
  }

  predicate StoreInv(db: Db) {
    ForeignKeys(db) && OnionsUnique(db) && AttestationsUnique(db) && Columns(db)
  }

  // ---------- What sealing produces ----------

  lemma EncryptShape(v: Vault, d: Draw, plaintext: Bytes, aad: Bytes)
    requires Encrypt(v, d, plaintext, aad).1.Ok?
    ensures IsPayloadV2(Encrypt(v, d, plaintext, aad).1.value)
  {
    PayloadIsText(d.mint.handle, d.mint.token.value, d.nonce.value + d.body);
  }

  lemma EnsureShape(v: Vault, d: Draw, value: Bytes, aad: Bytes)
    requires EnsureEncrypted(v, d, value, aad).1.Ok?
    ensures IsPayloadV2(EnsureEncrypted(v, d, value, aad).1.value)
  {
    if !IsPayloadV2(value) {
      EncryptShape(v, d, value, aad);
    }
  }

  lemma {:induction false} EnsureAllShape(v: Vault, id: Uuid, cols: seq<Column>, plain: map<Column, Bytes>,
                                          draws: Draws)
    requires EnsureAll(v, id, cols, plain, draws).1.Ok?
    ensures var sealed := EnsureAll(v, id, cols, plain, draws).1.value;
            (forall c :: c in sealed <==> c in cols && c in plain)
            && forall c :: c in sealed ==> IsPayloadV2(sealed[c])
    decreases |cols|
  {
    if cols != [] {
      var c := cols[0];
      assert cols == [c] + cols[1..];
      if c !in plain {
        EnsureAllShape(v, id, cols[1..], plain, draws);
      } else {
        EnsureShape(v, DrawFor(draws, c), plain[c], ColumnAad(c, id));
        var w := EnsureEncrypted(v, DrawFor(draws, c), plain[c], ColumnAad(c, id)).0;
        EnsureAllShape(w, id, cols[1..], plain, draws);
      }
    }
  }

  // ---------- When sealing succeeds ----------

  /** The broker mints a key of the right length with a token, and there is a nonce. */
  predicate Delivers(d: Draw) {
    d.mint.Minted? && d.mint.token.Some? && d.nonce.Some? && |d.mint.key| == KEY_LENGTH
  }

  predicate Sealable(d: Draw, value: Bytes) {
    IsPayloadV2(value) || (!IsPayload(value) && Delivers(d))
  }

  lemma EnsureSucceeds(v: Vault, d: Draw, value: Bytes, aad: Bytes)
    ensures EnsureEncrypted(v, d, value, aad).1.Ok? <==> Sealable(d, value)
  {
    EncryptSucceeds(v, d, value, aad);
  }

  lemma EncryptSucceeds(v: Vault, d: Draw, plaintext: Bytes, aad: Bytes)
    ensures Encrypt(v, d, plaintext, aad).1.Ok? <==> Delivers(d)
  {
  }

  predicate AllSealable(cols: seq<Column>, plain: map<Column, Bytes>, draws: Draws) {
    forall c :: c in cols && c in plain ==> Sealable(DrawFor(draws, c), plain[c])
  }

  lemma {:induction false} EnsureAllSucceeds(v: Vault, id: Uuid, cols: seq<Column>, plain: map<Column, Bytes>,
                                             draws: Draws)
    ensures EnsureAll(v, id, cols, plain, draws).1.Ok? <==> AllSealable(cols, plain, draws)
    decreases |cols|
  {
    if cols != [] {
      var c := cols[0];
      assert cols == [c] + cols[1..];
      if c !in plain {
        EnsureAllSucceeds(v, id, cols[1..], plain, draws);
      } else {
        EnsureSucceeds(v, DrawFor(draws, c), plain[c], ColumnAad(c, id));
        var w := EnsureEncrypted(v, DrawFor(draws, c), plain[c], ColumnAad(c, id)).0;
        EnsureAllSucceeds(w, id, cols[1..], plain, draws);
      }
    }
  }

  /** Exactly when a ticket can be issued. */
  lemma IssueSucceeds(db: Db, ticket: NewTicket, draws: Draws)
    ensures IssueTicket(db, ticket, draws).1.Ok?
        <==> AllSealable(ISSUE_ORDER, ticket.plain, draws) && ticket.id !in db.tickets
             && !AttestationTaken(db, ticket.attestation) && ticket.credential in db.credentials
  {
    EnsureAllSucceeds(db.vault, ticket.id, ISSUE_ORDER, ticket.plain, draws);
    var (vault, sealed) := EnsureAll(db.vault, ticket.id, ISSUE_ORDER, ticket.plain, draws);
    if sealed.Ok? {
      InsertSucceeds(db, db.(vault := vault), ticket, sealed.value);
    }
  }

  lemma InsertSucceeds(before: Db, db: Db, ticket: NewTicket, sealed: map<Column, Bytes>)
    requires db == before.(vault := db.vault)
    ensures InsertTicket(db, ticket, sealed).1.Ok?
        <==> ticket.id !in before.tickets && !AttestationTaken(before, ticket.attestation)
             && ticket.credential in before.credentials
  {
  }

  // ---------- Writing one row ----------

  lemma PutCredentialKeeps(db: Db, id: Uuid, row: Credential)
    requires StoreInv(db) && !OnionTaken(db, row.onion, id)
    ensures StoreInv(db.(credentials := db.credentials[id := row]))
  {
  }

  lemma PutSessionKeeps(db: Db, id: Uuid, row: Session)
    requires StoreInv(db) && row.credential in db.credentials && SessionColumns(row)
    ensures StoreInv(db.(sessions := db.sessions[id := row]))
  {
  }

  lemma PutTicketKeeps(db: Db, id: Uuid, row: Ticket)
    requires StoreInv(db) && row.credential in db.credentials && TicketColumns(row)
    requires (id in db.tickets && db.tickets[id].attestation == row.attestation)
             || !AttestationTaken(db, row.attestation)
    ensures StoreInv(db.(tickets := db.tickets[id := row]))
  {
  }

  lemma VaultIrrelevant(db: Db, vault: Vault)
    requires StoreInv(db)
    ensures StoreInv(db.(vault := vault))
  {
  }

  // ---------- One step ----------

  lemma InsertCredentialKeeps(db: Db, id: Uuid, row: Credential)
    requires StoreInv(db)
    ensures StoreInv(InsertCredential(db, id, row).0)
  {
    if !OnionTaken(db, row.onion, id) {
      PutCredentialKeeps(db, id, row);
    }
  }

  lemma UpsertCredentialKeeps(db: Db, id: Uuid, row: Credential)
    requires StoreInv(db)
    ensures StoreInv(UpsertCredential(db, id, row).0)
  {
    if !OnionTaken(db, row.onion, id) {
      PutCredentialKeeps(db, id, Imported(db, id, row));
    }
  }

  lemma SetEntryKeeps(db: Db, id: Uuid, onion: Bytes, guards: seq<Bytes>)
    requires StoreInv(db)
    ensures StoreInv(SetEntryOnion(db, id, onion, guards).0)
  {
    if id in db.credentials && !OnionTaken(db, onion, id) {
      PutCredentialKeeps(db, id, SetEntryOnion(db, id, onion, guards).0.credentials[id]);
    }
  }

  lemma RotateKeeps(db: Db, id: Uuid, onion: Bytes, guards: seq<Bytes>)
    requires StoreInv(db)
    ensures StoreInv(RotateOnion(db, id, onion, guards))
  {
    if id in db.credentials {
      PutCredentialKeeps(db, id, RotateOnion(db, id, onion, guards).credentials[id]);
    }
  }

  lemma DisableKeeps(db: Db, id: Uuid, disabled: bool)
    requires StoreInv(db)
    ensures StoreInv(SetDisabled(db, id, disabled))
  {
    if id in db.credentials {
      PutCredentialKeeps(db, id, SetDisabled(db, id, disabled).credentials[id]);
    }
  }

  lemma DeleteKeeps(db: Db, id: Uuid)
    requires StoreInv(db)
    ensures StoreInv(DeleteCredential(db, id).0)
  {
  }

  lemma CollectKeeps(db: Db, days: int)
    requires StoreInv(db)
    ensures StoreInv(CollectTickets(db, days).0)
  {
  }

  lemma RecordKeeps(db: Db, id: Uuid, session: Session, draw: Draw)
    requires StoreInv(db)
    ensures StoreInv(RecordSession(db, id, session, draw).0)
  {
    var aad := ColumnAad(ClientOnion, id);
    var (vault, onion) := EnsureOptional(db.vault, draw, session.clientOnion, aad);
    VaultIrrelevant(db, vault);
    if onion.Ok? && session.credential in db.credentials {
      if session.clientOnion.Some? {
        EnsureShape(db.vault, draw, session.clientOnion.value, aad);
      }
      PutSessionKeeps(db.(vault := vault), id, session.(clientOnion := onion.value));
    }
  }

  lemma InsertTicketKeeps(db: Db, ticket: NewTicket, sealed: map<Column, Bytes>)
    requires StoreInv(db)
    requires REQUIRED <= sealed.Keys <= REQUIRED + {RedeemToken}
    requires forall c :: c in sealed ==> IsPayloadV2(sealed[c])
    ensures StoreInv(InsertTicket(db, ticket, sealed).0)
  {
    var issued := InsertTicket(db, ticket, sealed).1;
    if issued.Ok? {
      PutTicketKeeps(db, ticket.id, issued.value);
    }
  }

  lemma IssueKeeps(db: Db, ticket: NewTicket, draws: Draws)
    requires StoreInv(db)
    ensures StoreInv(IssueTicket(db, ticket, draws).0)
  {
    var (vault, sealed) := EnsureAll(db.vault, ticket.id, ISSUE_ORDER, ticket.plain, draws);
    VaultIrrelevant(db, vault);
    if sealed.Ok? {
      EnsureAllShape(db.vault, ticket.id, ISSUE_ORDER, ticket.plain, draws);
      InsertTicketKeeps(db.(vault := vault), ticket, sealed.value);
    }
  }

  lemma StoreRedemptionKeeps(db: Db, id: Uuid, stored: Bytes)
    requires StoreInv(db) && IsPayload(stored)
    ensures StoreInv(StoreRedemption(db, id, stored))
  {
    if id in db.tickets {
      PutTicketKeeps(db, id, StoreRedemption(db, id, stored).tickets[id]);
    }
  }

  lemma RedeemKeeps(db: Db, id: Uuid, onion: Bytes, draw: Draw)
    requires StoreInv(db)
    ensures StoreInv(MarkRedeemed(db, id, onion, draw).0)
  {
    var (vault, stored) := SealRedemption(db.vault, id, onion, draw);
    VaultIrrelevant(db, vault);
    if stored.Ok? {
      if !IsPayload(onion) {
        EncryptShape(db.vault, draw, onion, ColumnAad(RedeemedOnion, id));
      }
      StoreRedemptionKeeps(db.(vault := vault), id, stored.value);
    }
  }

  lemma ExpireKeeps(db: Db, id: Uuid)
    requires StoreInv(db)
    ensures StoreInv(ExpireTicket(db, id).0)
  {
    if id in db.tickets {
      PutTicketKeeps(db, id, ExpireTicket(db, id).0.tickets[id]);
    }
  }

  predicate OnCredentials(e: Event) { e.Create? || e.Import? || e.SetEntry? || e.Rotate? || e.Disable? || e.Delete? }

  lemma CredentialStepKeeps(db: Db, e: Event)
    requires StoreInv(db) && OnCredentials(e)
    ensures StoreInv(Step(db, e))
  {
    match e
    case Create(id, f) => InsertCredentialKeeps(db, id, FreshCredential(f, db.clock));
    case Import(id, f) => UpsertCredentialKeeps(db, id, FreshCredential(f, db.clock));
    case SetEntry(id, onion, guards) => SetEntryKeeps(db, id, onion, guards);
    case Rotate(id, onion, guards) => RotateKeeps(db, id, onion, guards);
    case Disable(id, disabled) => DisableKeeps(db, id, disabled);
    case Delete(id) => DeleteKeeps(db, id);
  }

  lemma StepKeeps(db: Db, e: Event)
    requires StoreInv(db) && Honest(e)
    ensures StoreInv(Step(db, e))
  {
    match e
    case Record(id, session, draw) => RecordKeeps(db, id, session, draw);
    case Seal(_, _, _, _) => VaultIrrelevant(db, Step(db, e).vault);
    case Issue(ticket, draws) => IssueKeeps(db, ticket, draws);
    case Redeem(id, onion, draw) => RedeemKeeps(db, id, onion, draw);
    case Expire(id) => ExpireKeeps(db, id);
    case Collect(days) => CollectKeeps(db, days);
    case Tick(_) =>
    case Forget(_) => VaultIrrelevant(db, Step(db, e).vault);
    case _ => CredentialStepKeeps(db, e);
  }

  /** Every reachable state satisfies the invariant. */
  lemma {:induction false} RunKeeps(events: seq<Event>)
    requires forall i :: 0 <= i < |events| ==> Honest(events[i])
    ensures StoreInv(Run(EMPTY, events))
  {
    if events != [] {
      var front := events[..|events| - 1];
      RunKeeps(front);
      StepKeeps(Run(EMPTY, front), events[|events| - 1]);
    }
  }

  // ---------- The life of a ticket ----------

  /** The ticket row exists in every state of the run. */
  predicate StaysPresent(db: Db, events: seq<Event>, id: Uuid) {
    id in Run(db, events).tickets
    && (events != [] ==> StaysPresent(db, events[..|events| - 1], id))
  }

  predicate Tampers(e: Event, id: Uuid) { e.TamperTicket? && e.id == id }

  /** The columns that issue wrote are still the ones in the row. */
  ghost predicate SameIssue(sealed: map<Column, Bytes>, now: map<Column, Bytes>) {
    forall c :: c != RedeemedOnion ==> (c in sealed <==> c in now) && (c in sealed ==> now[c] == sealed[c])
  }

  /** What one row may become: its identity and issue columns are fixed, redemption and expiry are
      never taken back. */
  ghost predicate Succeeds(t: Ticket, now: int, u: Ticket, later: int) {
    now <= later
    && u.credential == t.credential && u.attestation == t.attestation && u.tokenHash == t.tokenHash
    && u.info == t.info
    && u.createdAt == t.createdAt
    && SameIssue(t.sealed, u.sealed)
    && (Redeemed(t) ==> Redeemed(u))
    && (Expired(t, now) ==> Expired(u, later))
  }

  lemma RedeemSucceeds(db: Db, redeemed: Uuid, onion: Bytes, draw: Draw, id: Uuid)
    requires id in db.tickets
    ensures var after := MarkRedeemed(db, redeemed, onion, draw).0;
            id in after.tickets && Succeeds(db.tickets[id], db.clock, after.tickets[id], after.clock)
  {
    var (vault, stored) := SealRedemption(db.vault, redeemed, onion, draw);
    if stored.Ok? {
      StoreRedemptionSucceeds(db.(vault := vault), redeemed, stored.value, id);
    }
  }

  lemma StoreRedemptionSucceeds(db: Db, redeemed: Uuid, stored: Bytes, id: Uuid)
    requires id in db.tickets
    ensures var after := StoreRedemption(db, redeemed, stored);
            id in after.tickets && Succeeds(db.tickets[id], db.clock, after.tickets[id], after.clock)
  {
  }

  lemma RowUnchanged(db: Db, e: Event, id: Uuid)
    requires id in db.tickets && id in Step(db, e).tickets && !Tampers(e, id)
    requires !e.Redeem? && !e.Expire?
    ensures Step(db, e).tickets[id] == db.tickets[id] && Step(db, e).clock >= db.clock
  {
    match e
    case Issue(ticket, draws) => IssueLeavesRows(db, ticket, draws, id);
    case Record(session, row, draw) => RecordLeavesTickets(db, session, row, draw);
    case Delete(_) =>
    case Collect(_) =>
    case TamperTicket(_, _, _) =>
    case _ => OtherTables(db, e);
  }

  /** The calls that touch no ticket. */
  lemma OtherTables(db: Db, e: Event)
    requires e.Tick? || e.Create? || e.Import? || e.SetEntry? || e.Rotate? || e.Disable?
             || e.TamperSession? || e.Forget? || e.Seal?
    ensures Step(db, e).tickets == db.tickets && Step(db, e).clock >= db.clock
  {
    match e
    case Create(id, f) => CredentialWrites(db, id, FreshCredential(f, db.clock));
    case Import(id, f) => CredentialWrites(db, id, FreshCredential(f, db.clock));
    case _ =>
  }

  /** Writing a credential row changes nothing else. */
  lemma CredentialWrites(db: Db, id: Uuid, row: Credential)
    ensures InsertCredential(db, id, row).0 == db.(credentials := InsertCredential(db, id, row).0.credentials)
    ensures UpsertCredential(db, id, row).0 == db.(credentials := UpsertCredential(db, id, row).0.credentials)
  {
  }

  lemma RecordLeavesTickets(db: Db, id: Uuid, row: Session, draw: Draw)
    ensures RecordSession(db, id, row, draw).0.tickets == db.tickets
    ensures RecordSession(db, id, row, draw).0.clock == db.clock
  {
    var (vault, onion) := EnsureOptional(db.vault, draw, row.clientOnion, ColumnAad(ClientOnion, id));
  }

  lemma IssueLeavesRows(db: Db, ticket: NewTicket, draws: Draws, id: Uuid)
    requires id in db.tickets
    ensures var after := IssueTicket(db, ticket, draws).0;
            id in after.tickets && after.tickets[id] == db.tickets[id] && after.clock == db.clock
  {
    var (vault, sealed) := EnsureAll(db.vault, ticket.id, ISSUE_ORDER, ticket.plain, draws);
    if sealed.Ok? {
      assert InsertTicket(db.(vault := vault), ticket, sealed.value).0.clock == db.clock;
    }
  }

  lemma StepSucceeds(db: Db, e: Event, id: Uuid)
    requires id in db.tickets && id in Step(db, e).tickets && !Tampers(e, id)
    ensures Succeeds(db.tickets[id], db.clock, Step(db, e).tickets[id], Step(db, e).clock)
  {
    if e.Redeem? {
      RedeemSucceeds(db, e.id, e.onion, e.draw, id);
    } else if !e.Expire? {
      RowUnchanged(db, e, id);
    }
  }

  /** How a ticket can go: with its credential, or by a collection whose predicate it meets. Every other
      call, whatever its arguments and outcome, leaves it in the table. */
  lemma LeavesExactly(db: Db, e: Event, id: Uuid)
    requires id in db.tickets
    ensures id !in Step(db, e).tickets
        <==> (e.Delete? && e.id == db.tickets[id].credential)
             || (e.Collect? && Collectable(db.tickets[id], db.clock, e.days))
  {
    if e.Redeem? {
      RedeemSucceeds(db, e.id, e.onion, e.draw, id);
    } else if e.Issue? {
      IssueLeavesRows(db, e.ticket, e.draws, id);
    } else if e.Record? {
      RecordLeavesTickets(db, e.id, e.session, e.draw);
    }
  }

  /** While the row exists, in any run: redeemed stays redeemed, expired stays expired, and
      everything fixed at issue stays fixed. */
  lemma {:induction false} TicketLife(db: Db, events: seq<Event>, id: Uuid)
    requires StaysPresent(db, events, id)
    requires forall i :: 0 <= i < |events| ==> !Tampers(events[i], id)
    ensures id in db.tickets
    ensures Succeeds(db.tickets[id], db.clock, Run(db, events).tickets[id], Run(db, events).clock)
  {
    if events != [] {
      var front := events[..|events| - 1];
      TicketLife(db, front, id);
      StepSucceeds(Run(db, front), events[|events| - 1], id);
    }
  }

  // ---------- Updates of one row ----------

  /** The operational onion that the events leave a credential with: that of the last rotation of the row
      since it was made. */
  function LastRotation(events: seq<Event>, id: Uuid): Option<Bytes> {
    if events == [] then None
    else
      var front := events[..|events| - 1];
      match events[|events| - 1]
      case Rotate(other, onion, _) =>
        if other == id && id in Run(EMPTY, front).credentials then Some(onion) else LastRotation(front, id)
      case Delete(other) => if other == id then None else LastRotation(front, id)
      case _ => LastRotation(front, id)
  }

  /** What one call does to the operational onion of a credential, or to the absence of that credential. */
  lemma OnionStep(db: Db, e: Event, id: Uuid)
    ensures e.Delete? && e.id == id ==> id !in Step(db, e).credentials
    ensures !(e.Delete? && e.id == id) && id in db.credentials ==>
              && id in Step(db, e).credentials
              && Step(db, e).credentials[id].operational
                 == if e.Rotate? && e.id == id then Some(e.onion) else db.credentials[id].operational
    ensures id !in db.credentials && id in Step(db, e).credentials ==> Step(db, e).credentials[id].operational.None?
    ensures id !in db.credentials && e.Rotate? ==> id !in Step(db, e).credentials
  {
    if e.Record? || e.Issue? || e.Redeem? {
      OtherCallsKeepCredentials(db, e);
    } else if e.Create? || e.Import? {
      WrittenOnion(db, e.id, FreshCredential(e.fields, db.clock), id);
    }
  }

  lemma WrittenOnion(db: Db, written: Uuid, row: Credential, id: Uuid)
    requires row.operational.None?
    ensures id in db.credentials ==>
              && id in InsertCredential(db, written, row).0.credentials
              && id in UpsertCredential(db, written, row).0.credentials
              && InsertCredential(db, written, row).0.credentials[id].operational == db.credentials[id].operational
              && UpsertCredential(db, written, row).0.credentials[id].operational == db.credentials[id].operational
    ensures id !in db.credentials ==>
              (id in InsertCredential(db, written, row).0.credentials ==>
                 InsertCredential(db, written, row).0.credentials[id].operational.None?)
              && (id in UpsertCredential(db, written, row).0.credentials ==>
                    UpsertCredential(db, written, row).0.credentials[id].operational.None?)
  {
  }

  lemma OtherCallsKeepCredentials(db: Db, e: Event)
    requires e.Record? || e.Issue? || e.Redeem?
    ensures Step(db, e).credentials == db.credentials
  {
    match e
    case Record(id, row, draw) => RecordKeepsCredentials(db, id, row, draw);
    case Issue(ticket, draws) =>
      IssueStep(db, ticket, draws);
      IssueKeepsCredentials(db, ticket, draws);
    case Redeem(id, onion, draw) =>
      RedeemStep(db, id, onion, draw);
      RedeemKeepsCredentials(db, id, onion, draw);
  }

  lemma IssueStep(db: Db, ticket: NewTicket, draws: Draws)
    ensures Step(db, Issue(ticket, draws)) == IssueTicket(db, ticket, draws).0
  {
  }

  lemma RedeemStep(db: Db, id: Uuid, onion: Bytes, draw: Draw)
    ensures Step(db, Redeem(id, onion, draw)) == MarkRedeemed(db, id, onion, draw).0
  {
  }

  lemma RecordKeepsCredentials(db: Db, id: Uuid, row: Session, draw: Draw)
    ensures RecordSession(db, id, row, draw).0.credentials == db.credentials
  {
    var (vault, onion) := EnsureOptional(db.vault, draw, row.clientOnion, ColumnAad(ClientOnion, id));
  }

  lemma RedeemKeepsCredentials(db: Db, id: Uuid, onion: Bytes, draw: Draw)
    ensures MarkRedeemed(db, id, onion, draw).0.credentials == db.credentials
  {
    var (vault, stored) := SealRedemption(db.vault, id, onion, draw);
  }

  lemma IssueKeepsCredentials(db: Db, ticket: NewTicket, draws: Draws)
    ensures IssueTicket(db, ticket, draws).0.credentials == db.credentials
  {
    var (vault, sealed) := EnsureAll(db.vault, ticket.id, ISSUE_ORDER, ticket.plain, draws);
    if sealed.Ok? {
      InsertKeepsCredentials(db.(vault := vault), ticket, sealed.value);
    }
  }

  lemma InsertKeepsCredentials(db: Db, ticket: NewTicket, sealed: map<Column, Bytes>)
    ensures InsertTicket(db, ticket, sealed).0.credentials == db.credentials
  {
  }

  /** In every run a credential shows the onion of the last rotation since its row was made: importing over
      it, disabling it and moving its entry onion leave that alone, deleting it does not. */
  lemma {:induction false} OperationalMeans(events: seq<Event>, id: Uuid)
    ensures if id in Run(EMPTY, events).credentials
            then Run(EMPTY, events).credentials[id].operational == LastRotation(events, id)
            else LastRotation(events, id).None?
  {
    if events != [] {
      var front := events[..|events| - 1];
      OperationalMeans(front, id);
      OnionStep(Run(EMPTY, front), events[|events| - 1], id);
    }
  }

  /** A disabled credential can still be issued tickets, and its tickets and sessions still be read. */
  lemma DisablingBlocksNothing(db: Db, id: Uuid, disabled: bool, ticket: NewTicket, draws: Draws, row: Uuid)
    ensures var after := SetDisabled(db, id, disabled);
            && (IssueTicket(after, ticket, draws).1.Ok? <==> IssueTicket(db, ticket, draws).1.Ok?)
            && FetchTicket(after, row) == FetchTicket(db, row) && FetchSession(after, row) == FetchSession(db, row)
  {
    var after := SetDisabled(db, id, disabled);
    SameTablesRead(db, after, row);
    IssueSucceeds(db, ticket, draws);
    IssueSucceeds(after, ticket, draws);
    assert AttestationTaken(after, ticket.attestation) <==> AttestationTaken(db, ticket.attestation);
  }

  /** Reads depend on the tickets, the sessions and the vault only. */
  lemma SameTablesRead(db: Db, other: Db, row: Uuid)
    requires other.tickets == db.tickets && other.sessions == db.sessions && other.vault == db.vault
    ensures FetchTicket(other, row) == FetchTicket(db, row) && FetchSession(other, row) == FetchSession(db, row)
  {
  }

  /** The protected values that a verification fetch of this ticket yields, or its error. */
  function FetchedValues(db: Db, id: Uuid): Result<Option<map<Column, Bytes>>, DbError> {
    if id !in db.tickets then Ok(None)
    else
      var plain :- DecryptAll(db.vault, id, FETCH_ORDER, db.tickets[id].sealed);
      Ok(Some(plain))
  }

  /** An expired ticket stays readable. From then on a collection takes it exactly when the days it keeps
      are over, counted from one second before the expiry. No other ticket is touched. */
  lemma ExpireMeans(db: Db, id: Uuid, other: Uuid, elapsed: nat, days: int)
    requires id in db.tickets
    ensures var after := ExpireTicket(db, id).0;
            && id in after.tickets && Expired(after.tickets[id], after.clock)
            && (Collectable(after.tickets[id], after.clock + elapsed, days) <==> days * DAY < elapsed + SECOND)
            && FetchedValues(after, id) == FetchedValues(db, id)
            && (other != id ==> (other in after.tickets <==> other in db.tickets)
                                && (other in db.tickets ==> after.tickets[other] == db.tickets[other]))
  {
  }

  /** An expiry keeps every ticket; at its own moment the expired one is ready for a collection without
      retention, and not for one that keeps a day. */
  lemma ExpireEffects(db: Db, id: Uuid)
    ensures var after := ExpireTicket(db, id).0;
            && after.tickets.Keys == db.tickets.Keys && (ExpireTicket(db, id).1 <==> id in db.tickets)
            && (id in db.tickets ==>
                  var t := after.tickets[id];
                  Expired(t, db.clock) && Collectable(t, db.clock, 0) && !Collectable(t, db.clock, 1))
  {
  }

  // ---------- Garbage collection ----------

  /** No collection, whatever its retention, removes a ticket that is neither expired nor redeemed;
      every row it leaves is untouched. */
  lemma CollectSpares(db: Db, days: int, id: Uuid)
    requires id in db.tickets
    requires !Expired(db.tickets[id], db.clock) && !Redeemed(db.tickets[id])
    ensures id in CollectTickets(db, days).0.tickets
    ensures CollectTickets(db, days).0.tickets[id] == db.tickets[id]
  {
  }

  /** The tickets that are neither expired nor redeemed. */
  function Unfinished(db: Db): set<Uuid> {
    set t | t in db.tickets && !Expired(db.tickets[t], db.clock) && !Redeemed(db.tickets[t])
  }

  lemma CollectSparesUnfinished(db: Db, days: int)
    ensures Unfinished(db) <= CollectTickets(db, days).0.tickets.Keys
  {
  }

  /** For a retention of at least zero days the second half of the clause says nothing. */
  lemma PlainCutoff(t: Ticket, now: int, days: nat)
    ensures Collectable(t, now, days) <==> t.expiresAt < now - days * DAY
  {
    assert days * DAY >= 0;
  }

  /** Only a negative retention reaches an unexpired ticket, and then exactly the redeemed ones
      that expire within that many days. */
  lemma UnexpiredCollected(t: Ticket, now: int, days: int)
    ensures Collectable(t, now, days) && !Expired(t, now)
       <==> days < 0 && Redeemed(t) && now <= t.expiresAt < now + (-days) * DAY
  {
    assert days >= 0 ==> days * DAY >= 0;
  }

  lemma ShorterRetentionCollectsMore(db: Db, fewer: int, more: int)
    requires fewer <= more
    ensures Garbage(db, more) <= Garbage(db, fewer)
    ensures CollectTickets(db, fewer).0.tickets.Keys <= CollectTickets(db, more).0.tickets.Keys
  {
    assert fewer * DAY <= more * DAY;
  }
}

/** Context binding over whole runs: a protected column opens only to what some call supplied for that
    very table, field, row and purpose, however the stored texts were moved or overwritten. */
module ProtectedRecords {
  import opened Text
  import opened Envelope
  import opened RecordContext
  import opened SealedVault
  import opened TicketStore
  import opened StoreInvariants
  import PrintedForms

  // ---------- Which call supplied a plaintext ----------

  /** The call e hands in text p for column c of row id. */
  predicate Supplies(e: Event, c: Column, id: Uuid, p: Bytes) {
    match e
    case Issue(ticket, _) => id == ticket.id && c in ticket.plain && ticket.plain[c] == p
    case Seal(column, row, value, _) => id == row && c == column && p == value
    case Redeem(row, onion, _) => id == row && c == RedeemedOnion && onion == p
    case Record(row, session, _) => id == row && c == ClientOnion && session.clientOnion == Some(p)
    case _ => false
  }

  /** The call e sealed p under k, for a column and row that it handed p in for. */
  ghost predicate SealsFor(e: Event, k: Sealing, p: Bytes) {
    exists c, id :: Supplies(e, c, id, p) && k.aad == ColumnAad(c, id)
  }

  predicate Has(v: Vault, k: Sealing, p: Bytes) { k in v.sealings && v.sealings[k] == p }

  /** From v to w, nothing was sealed but by the call e. */
  ghost predicate OnlySeals(e: Event, v: Vault, w: Vault) {
    forall k :: k in w.sealings ==> Has(v, k, w.sealings[k]) || SealsFor(e, k, w.sealings[k])
  }

  lemma ColumnsHaveOwnContext(c: Column, id: Uuid, d: Column, row: Uuid)
    requires ColumnAad(c, id) == ColumnAad(d, row)
    ensures c == d && id == row
  {
    ColumnNames(c);
    ColumnNames(d);
    TableNames(c);
    TableNames(d);
    AadInjective(ColumnContext(c, id), ColumnContext(d, row));
    FieldsDiffer(c, d);
  }

  /** Table, column and purpose of each protected column. */
  function Names(c: Column): (string, string, string) {
    match c
    case ClientOnion => ("gateway_secrets.tor_auth_sessions", "client_onion", "tor-session-client-onion")
    case _ => ("gateway_secrets.tor_access_tickets", TicketNames(c).0, TicketNames(c).1)
  }

  function TicketNames(c: Column): (string, string) {
    match c
    case PublicKey => ("client_auth_public_key", "tor-ticket-client-auth-public-key")
    case SecretPath => ("client_auth_secret_path", "tor-ticket-client-auth-secret-path")
    case RedeemToken => ("client_auth_secret_redeem_token", "tor-ticket-client-auth-secret-redeem-token")
    case NonceDigest => ("attestation_nonce_digest", "tor-ticket-attestation-nonce")
    case QuoteHash => ("attestation_quote_hash", "tor-ticket-attestation-quote")
    case TlsDigest => ("tls_pubkey_digest", "tor-ticket-tls-pubkey-digest")
    case _ => ("redeemed_operational_onion", "tor-ticket-redeemed-onion")
  }

  /** The associated data of a column, cut at its NULs. */
  lemma ColumnCells(c: Column, row: Uuid)
    ensures var (table, field, purpose) := Names(c);
            PrintedForms.Cells(ColumnAad(c, row), 3)
            == [Ascii("schema:v2"), Ascii("table:") + Ascii(table), Ascii("field:") + Ascii(field),
                Ascii("row:") + UuidText(row) + [0] + Ascii(purpose)]
  {
    TableNames(c);
    ColumnNames(c);
    ContextNames(c, row);
    PrintedForms.AadCells(ColumnContext(c, row));
  }

  lemma ContextNames(c: Column, row: Uuid)
    ensures ColumnContext(c, row) == Context(Ascii(Names(c).0), Ascii(Names(c).1), row, Ascii(Names(c).2))
  {
  }

  lemma AsciiNulFree(s: string)
    requires forall i :: 0 <= i < |s| ==> '\0' < s[i] < 128 as char
    ensures NulFree(Ascii(s))
  {
    forall i | 0 <= i < |s| ensures Ascii(s)[i] != NUL {
      assert s[i] != 0 as char;
    }
  }

  lemma TableNames(c: Column)
    ensures NulFree(TableOf(c))
  {
    AsciiNulFree("gateway_secrets.tor_access_tickets");
    AsciiNulFree("gateway_secrets.tor_auth_sessions");
  }

  lemma ColumnNames(c: Column)
    ensures NulFree(FieldOf(c))
  {
    match c
    case PublicKey => AsciiNulFree("client_auth_public_key");
    case SecretPath => AsciiNulFree("client_auth_secret_path");
    case RedeemToken => AsciiNulFree("client_auth_secret_redeem_token");
    case NonceDigest => AsciiNulFree("attestation_nonce_digest");
    case QuoteHash => AsciiNulFree("attestation_quote_hash");
    case TlsDigest => AsciiNulFree("tls_pubkey_digest");
    case RedeemedOnion => AsciiNulFree("redeemed_operational_onion");
    case ClientOnion => AsciiNulFree("client_onion");
  }

  lemma FieldsDiffer(c: Column, d: Column)
    requires FieldOf(c) == FieldOf(d)
    ensures c == d
  {
    assert |FieldOf(c)| == |FieldOf(d)| && FieldOf(c)[0] == FieldOf(d)[0];
  }

  // ---------- Every sealing of a run was made by a call ----------

  lemma EncryptSeals(e: Event, v: Vault, d: Draw, p: Bytes, c: Column, id: Uuid)
    requires Supplies(e, c, id, p)
    ensures OnlySeals(e, v, Encrypt(v, d, p, ColumnAad(c, id)).0)
  {
    var w := Encrypt(v, d, p, ColumnAad(c, id)).0;
    forall k | k in w.sealings ensures Has(v, k, w.sealings[k]) || SealsFor(e, k, w.sealings[k]) {
      EncryptAdds(v, d, p, ColumnAad(c, id), k);
    }
  }

  lemma EncryptAdds(v: Vault, d: Draw, p: Bytes, aad: Bytes, k: Sealing)
    requires k in Encrypt(v, d, p, aad).0.sealings
    ensures var w := Encrypt(v, d, p, aad).0;
            Has(v, k, w.sealings[k]) || (k.aad == aad && w.sealings[k] == p)
  {
    EncryptVault(v, d, p, aad);
  }

  lemma EnsureSeals(e: Event, v: Vault, d: Draw, p: Bytes, c: Column, id: Uuid)
    requires Supplies(e, c, id, p)
    ensures OnlySeals(e, v, EnsureEncrypted(v, d, p, ColumnAad(c, id)).0)
  {
    if !IsPayload(p) {
      EncryptSeals(e, v, d, p, c, id);
    }
  }

  lemma SealsTransitive(e: Event, u: Vault, v: Vault, w: Vault)
    requires OnlySeals(e, u, v) && OnlySeals(e, v, w)
    ensures OnlySeals(e, u, w)
  {
    forall k | k in w.sealings ensures Has(u, k, w.sealings[k]) || SealsFor(e, k, w.sealings[k]) {
      if Has(v, k, w.sealings[k]) {
        assert k in v.sealings;
      }
    }
  }

  lemma {:induction false} EnsureAllSeals(e: Event, v: Vault, id: Uuid, cols: seq<Column>, plain: map<Column, Bytes>,
                                          draws: Draws)
    requires forall c :: c in plain ==> Supplies(e, c, id, plain[c])
    ensures OnlySeals(e, v, EnsureAll(v, id, cols, plain, draws).0)
    decreases |cols|
  {
    if cols != [] {
      if cols[0] !in plain {
        EnsureAllSeals(e, v, id, cols[1..], plain, draws);
      } else {
        var c := cols[0];
        EnsureSeals(e, v, DrawFor(draws, c), plain[c], c, id);
        var w := EnsureEncrypted(v, DrawFor(draws, c), plain[c], ColumnAad(c, id)).0;
        EnsureAllSeals(e, w, id, cols[1..], plain, draws);
        SealsTransitive(e, v, w, EnsureAll(w, id, cols[1..], plain, draws).0);
      }
    }
  }

  lemma InsertsKeepVault(db: Db, e: Event)
    requires !e.Record? && !e.Issue? && !e.Redeem? && !e.Seal?
    ensures Step(db, e).vault.sealings == db.vault.sealings
    ensures !e.Forget? ==> Step(db, e).vault == db.vault
  {
    match e
    case Create(id, f) => CredentialWrites(db, id, FreshCredential(f, db.clock));
    case Import(id, f) => CredentialWrites(db, id, FreshCredential(f, db.clock));
    case _ =>
  }

  lemma IssueSeals(db: Db, e: Event)
    requires e.Issue?
    ensures OnlySeals(e, db.vault, Step(db, e).vault)
  {
    IssueVault(db, e.ticket, e.draws);
    EnsureAllSeals(e, db.vault, e.ticket.id, ISSUE_ORDER, e.ticket.plain, e.draws);
  }

  lemma IssueVault(db: Db, ticket: NewTicket, draws: Draws)
    ensures IssueTicket(db, ticket, draws).0.vault
         == EnsureAll(db.vault, ticket.id, ISSUE_ORDER, ticket.plain, draws).0
  {
    var (vault, sealed) := EnsureAll(db.vault, ticket.id, ISSUE_ORDER, ticket.plain, draws);
    if sealed.Ok? {
      InsertKeepsVault(db.(vault := vault), ticket, sealed.value);
    }
  }

  lemma InsertKeepsVault(db: Db, ticket: NewTicket, sealed: map<Column, Bytes>)
    ensures InsertTicket(db, ticket, sealed).0.vault == db.vault
  {
  }

  lemma RedeemVault(db: Db, id: Uuid, onion: Bytes, draw: Draw)
    ensures MarkRedeemed(db, id, onion, draw).0.vault == SealRedemption(db.vault, id, onion, draw).0
  {
  }

  lemma RecordVault(db: Db, id: Uuid, session: Session, draw: Draw)
    ensures RecordSession(db, id, session, draw).0.vault
         == EnsureOptional(db.vault, draw, session.clientOnion, ColumnAad(ClientOnion, id)).0
  {
  }

  lemma StepSeals(db: Db, e: Event)
    ensures OnlySeals(e, db.vault, Step(db, e).vault)
  {
    match e
    case Record(id, session, draw) =>
      RecordVault(db, id, session, draw);
      if session.clientOnion.Some? {
        EnsureSeals(e, db.vault, draw, session.clientOnion.value, ClientOnion, id);
      }
    case Seal(c, id, value, draw) => EnsureSeals(e, db.vault, draw, value, c, id);
    case Issue(_, _) => IssueSeals(db, e);
    case Redeem(id, onion, draw) =>
      RedeemVault(db, id, onion, draw);
      if !IsPayload(onion) {
        EncryptSeals(e, db.vault, draw, onion, RedeemedOnion, id);
      }
    case _ => InsertsKeepVault(db, e);
  }

  /** The vaults of a run: h(i) is the vault before event i. */
  type History = nat -> Vault

  function Vaults(events: seq<Event>): History {
    (i: nat) => if i <= |events| then Run(EMPTY, events[..i]).vault else EMPTY.vault
  }

  /** The history starts with nothing sealed, and each step is made by one call. */
  ghost predicate Chronicles(h: History, events: seq<Event>) {
    h(0).sealings == map[] && forall i: nat :: i < |events| ==> OnlySeals(events[i], h(i), h(i + 1))
  }

  lemma VaultsChronicle(events: seq<Event>)
    ensures Chronicles(Vaults(events), events)
  {
    var h := Vaults(events);
    assert events[..0] == [];
    forall i: nat | i < |events| ensures OnlySeals(events[i], h(i), h(i + 1)) {
      assert events[..i + 1][..i] == events[..i];
      StepSeals(Run(EMPTY, events[..i]), events[i]);
    }
  }

  lemma LastVault(events: seq<Event>)
    ensures Vaults(events)(|events|) == Run(EMPTY, events).vault
  {
    assert events[..|events|] == events;
  }

  /** Step i put p under k, where it was not before. */
  predicate SealedAt(h: History, i: nat, k: Sealing, p: Bytes) {
    Has(h(i + 1), k, p) && !Has(h(i), k, p)
  }

  /** A sealing that is there at the end was made by a call that handed its plaintext in for that context. */
  lemma {:induction false} HistorySealed(h: History, events: seq<Event>, n: nat, k: Sealing, p: Bytes)
    requires n <= |events| && Chronicles(h, events) && Has(h(n), k, p)
    ensures exists i: nat :: i < n && SealedAt(h, i, k, p) && SealsFor(events[i], k, p)
  {
    var i := n - 1;
    if Has(h(i), k, p) {
      HistorySealed(h, events, i, k, p);
    } else {
      assert OnlySeals(events[i], h(i), h(i + 1)) && SealedAt(h, i, k, p);
    }
  }

  // ---------- Context binding ----------

  /** Event i handed p in for this column of this row, and sealed it in that column's context under k. */
  ghost predicate SealedFor(h: History, events: seq<Event>, i: nat, k: Sealing, c: Column, id: Uuid, p: Bytes)
    requires i < |events|
  {
    SealedAt(h, i, k, p) && Supplies(events[i], c, id, p) && k.aad == ColumnAad(c, id)
  }

  /** At the end there is a sealing of p that some event made for this column of this row. */
  ghost predicate GenuineIn(h: History, events: seq<Event>, c: Column, id: Uuid, p: Bytes) {
    exists i: nat, k :: i < |events| && SealedFor(h, events, i, k, c, id, p) && Has(h(|events|), k, p)
  }

  ghost predicate Genuine(events: seq<Event>, c: Column, id: Uuid, p: Bytes) {
    GenuineIn(Vaults(events), events, c, id, p)
  }

  lemma SealingIsGenuine(h: History, events: seq<Event>, k: Sealing, p: Bytes, c: Column, id: Uuid)
    requires Chronicles(h, events) && Has(h(|events|), k, p) && k.aad == ColumnAad(c, id)
    ensures GenuineIn(h, events, c, id, p)
  {
    HistorySealed(h, events, |events|, k, p);
    var i: nat :| i < |events| && SealedAt(h, i, k, p) && SealsFor(events[i], k, p);
    SealsForIts(events[i], k, p, c, id);
    assert SealedFor(h, events, i, k, c, id, p);
  }

  lemma SealsForIts(e: Event, k: Sealing, p: Bytes, c: Column, id: Uuid)
    requires SealsFor(e, k, p) && k.aad == ColumnAad(c, id)
    ensures Supplies(e, c, id, p)
  {
    var d, row :| Supplies(e, d, row, p) && k.aad == ColumnAad(d, row);
    ColumnsHaveOwnContext(c, id, d, row);
  }

  lemma OpenedIsGenuine(h: History, events: seq<Event>, text: Bytes, c: Column, id: Uuid)
    requires Chronicles(h, events) && DecryptPresent(h(|events|), text, ColumnAad(c, id)).Ok?
    ensures GenuineIn(h, events, c, id, DecryptPresent(h(|events|), text, ColumnAad(c, id)).value)
  {
    var v, aad := h(|events|), ColumnAad(c, id);
    PresentOpens(v, text, aad);
    DecryptAuthentic(v, text, aad);
    var k :| k in v.sealings && k.aad == aad && v.sealings[k] == Decrypt(v, text, aad).value;
    SealingIsGenuine(h, events, k, v.sealings[k], c, id);
  }

  /** In any run, with any column overwritten by any text and any handle forgotten, a text that opens for
      a column of a row opens to a value that some call handed in and sealed for that very column and row. */
  lemma OpensToItsOwn(events: seq<Event>, text: Bytes, c: Column, id: Uuid)
    requires DecryptPresent(Run(EMPTY, events).vault, text, ColumnAad(c, id)).Ok?
    ensures Genuine(events, c, id, DecryptPresent(Run(EMPTY, events).vault, text, ColumnAad(c, id)).value)
  {
    VaultsChronicle(events);
    LastVault(events);
    OpenedIsGenuine(Vaults(events), events, text, c, id);
  }

  lemma {:induction false} DecryptAllMeans(v: Vault, id: Uuid, cols: seq<Column>, sealed: map<Column, Bytes>)
    requires DecryptAll(v, id, cols, sealed).Ok?
    ensures var plain := DecryptAll(v, id, cols, sealed).value;
            forall c :: (c in plain <==> c in cols && c in sealed)
                        && (c in plain ==> DecryptPresent(v, sealed[c], ColumnAad(c, id)) == Ok(plain[c]))
    decreases |cols|
  {
    if cols != [] {
      assert cols == [cols[0]] + cols[1..];
      DecryptAllMeans(v, id, cols[1..], sealed);
    }
  }

  lemma TicketContextBinding(events: seq<Event>, id: Uuid)
    requires FetchTicket(Run(EMPTY, events), id).Ok?
    ensures var view := FetchTicket(Run(EMPTY, events), id).value;
            view.Some? ==> forall c :: c in view.value.plain ==> Genuine(events, c, id, view.value.plain[c])
  {
    var db := Run(EMPTY, events);
    if id in db.tickets {
      var sealed := db.tickets[id].sealed;
      var plain := DecryptAll(db.vault, id, FETCH_ORDER, sealed).value;
      DecryptAllMeans(db.vault, id, FETCH_ORDER, sealed);
      forall c | c in plain ensures Genuine(events, c, id, plain[c]) {
        OpensToItsOwn(events, sealed[c], c, id);
      }
    }
  }

  lemma SessionContextBinding(events: seq<Event>, id: Uuid)
    requires FetchSession(Run(EMPTY, events), id).Ok?
    ensures var view := FetchSession(Run(EMPTY, events), id).value;
            view.Some? && view.value.clientOnion.Some?
            ==> Genuine(events, ClientOnion, id, view.value.clientOnion.value)
  {
    var db := Run(EMPTY, events);
    if id in db.sessions && db.sessions[id].clientOnion.Some? {
      OpensToItsOwn(events, db.sessions[id].clientOnion.value, ClientOnion, id);
    }
  }
}

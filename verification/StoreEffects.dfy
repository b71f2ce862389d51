/** What each call answers and what it leaves, field by field, and the laws of whole runs that follow. */
module StoreEffects {
  import opened Text
  import opened Envelope
  import opened RecordContext
  import opened SealedVault
  import opened TicketStore
  import opened StoreInvariants

  // ---------- Credentials ----------

  /** Everything but the credentials is as it was. */
  predicate OnlyCredentials(db: Db, after: Db) {
    after.clock == db.clock && after.sessions == db.sessions && after.tickets == db.tickets && after.vault == db.vault
  }

  /** And of the credentials everything but this row. */
  ghost predicate OnlyRow(db: Db, after: Db, id: Uuid) {
    OnlyCredentials(db, after) && after.credentials.Keys == db.credentials.Keys + {id}
    && forall c :: c in db.credentials && c != id ==> after.credentials[c] == db.credentials[c]
  }

  /** No other credential answers at this entry onion. */
  ghost predicate OnionFree(db: Db, onion: Bytes, id: Uuid) {
    forall c :: c in db.credentials && c != id ==> db.credentials[c].onion != onion
  }

  predicate TakesFields(row: Credential, f: CredentialFields, now: int) {
    && row.onion == f.onion && row.tier == f.tier && row.hash == f.hash && row.guards == f.guards
    && row.rate == f.rate && row.expiresAt == f.expiresAt && !row.disabled && row.updatedAt == now
  }

  predicate NewlyMade(row: Credential, now: int) {
    row.createdAt == now && row.operational.None? && row.rotatedAt.None?
  }

  lemma CreateEffects(db: Db, id: Uuid, f: CredentialFields)
    ensures var (after, r) := CreateCredential(db, id, f);
            && (r.Ok? <==> id !in db.credentials && OnionFree(db, f.onion, id))
            && (r.Err? ==> r.error == UniqueViolation && after == db)
            && (r.Ok? ==>
                  && OnlyRow(db, after, id) && after.credentials[id] == r.value
                  && TakesFields(r.value, f, db.clock) && NewlyMade(r.value, db.clock))
  {
  }

  /** The row an import leaves keeps its history; the record it gives back never shows one. */
  lemma ImportEffects(db: Db, id: Uuid, f: CredentialFields)
    ensures var (after, r) := ImportCredential(db, id, f);
            && (r.Ok? <==> OnionFree(db, f.onion, id))
            && (r.Err? ==> r.error == UniqueViolation && after == db)
            && (r.Ok? ==>
                  && OnlyRow(db, after, id) && TakesFields(after.credentials[id], f, db.clock)
                  && TakesFields(r.value, f, db.clock) && NewlyMade(r.value, db.clock)
                  && (if id in db.credentials then SameHistory(db.credentials[id], after.credentials[id])
                      else NewlyMade(after.credentials[id], db.clock)))
  {
  }

  predicate SameHistory(old_row: Credential, row: Credential) {
    row.operational == old_row.operational && row.createdAt == old_row.createdAt && row.rotatedAt == old_row.rotatedAt
  }

  /** Two rows that agree on all that no update of a credential touches. */
  predicate SameIdentity(a: Credential, b: Credential) {
    a.tier == b.tier && a.hash == b.hash && a.createdAt == b.createdAt && a.expiresAt == b.expiresAt && a.rate == b.rate
  }

  lemma SetEntryEffects(db: Db, id: Uuid, onion: Bytes, guards: seq<Bytes>)
    ensures var (after, r) := SetEntryOnion(db, id, onion, guards);
            && (r.Ok? <==> id !in db.credentials || OnionFree(db, onion, id))
            && (r.Err? ==> r.error == UniqueViolation)
            && (r.Err? || id !in db.credentials ==> after == db)
            && (r.Ok? && id in db.credentials ==>
                  var a, b := db.credentials[id], after.credentials[id];
                  && OnlyRow(db, after, id) && SameIdentity(a, b) && b.onion == onion && b.guards == guards
                  && b.updatedAt == db.clock && b.operational == a.operational && b.rotatedAt == a.rotatedAt
                  && b.disabled == a.disabled)
  {
  }

  lemma RotateEffects(db: Db, id: Uuid, onion: Bytes, guards: seq<Bytes>)
    ensures var after := RotateOnion(db, id, onion, guards);
            && (id !in db.credentials ==> after == db)
            && (id in db.credentials ==>
                  var a, b := db.credentials[id], after.credentials[id];
                  && OnlyRow(db, after, id) && SameIdentity(a, b) && b.operational == Some(onion) && b.guards == guards
                  && b.rotatedAt == Some(db.clock) && b.updatedAt == db.clock && b.onion == a.onion
                  && b.disabled == a.disabled)
  {
  }

  lemma DisableEffects(db: Db, id: Uuid, disabled: bool)
    ensures var after := SetDisabled(db, id, disabled);
            && (id !in db.credentials ==> after == db)
            && (id in db.credentials ==>
                  var a, b := db.credentials[id], after.credentials[id];
                  && OnlyRow(db, after, id) && SameIdentity(a, b) && b.disabled == disabled && b.updatedAt == db.clock
                  && b.onion == a.onion && b.guards == a.guards && b.operational == a.operational
                  && b.rotatedAt == a.rotatedAt)
  {
  }

  /** Exactly the row, its sessions and its tickets go. */
  lemma DeleteEffects(db: Db, id: Uuid)
    ensures var (after, found) := DeleteCredential(db, id);
            && (found <==> id in db.credentials) && after.clock == db.clock && after.vault == db.vault
            && (forall c :: c in after.credentials <==> c in db.credentials && c != id)
            && (forall c :: c in after.credentials ==> after.credentials[c] == db.credentials[c])
            && (forall s :: s in after.sessions <==> s in db.sessions && db.sessions[s].credential != id)
            && (forall s :: s in after.sessions ==> after.sessions[s] == db.sessions[s])
            && (forall t :: t in after.tickets <==> t in db.tickets && db.tickets[t].credential != id)
            && (forall t :: t in after.tickets ==> after.tickets[t] == db.tickets[t])
  {
  }

  // ---------- Sealing and opening ----------

  /** How sealing goes: which fault is reported, what the vault gains, and what is printed. */
  lemma SealOutcome(v: Vault, d: Draw, p: Bytes, aad: Bytes)
    ensures var (w, r) := Encrypt(v, d, p, aad);
            && (d.mint.MintRefused? ==> r == Err(BrokerRefused) && w == v)
            && (d.mint.Minted? && d.mint.token.None? ==> r == Err(MissingToken) && w == v)
            && (d.mint.Minted? && d.mint.token.Some? ==>
                  && w.broker == v.broker[d.mint.handle := Secret(d.mint.token.value, d.mint.key)]
                  && (d.nonce.None? ==> r == Err(RandomFailure) && w.sealings == v.sealings)
                  && (d.nonce.Some? && |d.mint.key| != 32 ==> r == Err(BadKey) && w.sealings == v.sealings)
                  && (d.nonce.Some? && |d.mint.key| == 32 ==>
                        && w.sealings == v.sealings[Sealing(d.mint.key, d.nonce.value, aad, d.body) := p]
                        && r == Ok(EncodePayload(d.mint.handle, d.mint.token.value, d.nonce.value + d.body))))
  {
  }

  lemma EnsureOutcome(v: Vault, d: Draw, value: Option<Bytes>, aad: Bytes)
    ensures var (w, r) := EnsureOptional(v, d, value, aad);
            match value
            case None => w == v && r == Ok(None)
            case Some(p) =>
              if Ascii("aead:v2:") <= p then w == v && r == Ok(Some(p))
              else if Ascii("aead:v1:") <= p then w == v && r == Err(LegacyEnvelope)
              else w == Encrypt(v, d, p, aad).0
                   && match Encrypt(v, d, p, aad).1
                      case Ok(text) => r == Ok(Some(text))
                      case Err(why) => r == Err(why)
  {
  }

  /** The parts of an envelope that opens: what it names, what the broker has for it, and what was sealed. */
  ghost predicate OpensAs(v: Vault, envelope: Bytes, aad: Bytes, p: Bytes, handle: Bytes, token: Bytes, key: Bytes,
                          nonce: Bytes, body: Bytes)
  {
    && Utf8(handle) && Utf8(token) && Utf8(p) && envelope == EncodePayload(handle, token, nonce + body)
    && |nonce| == 12 && |body| >= 16 && |key| == 32
    && Trim(handle) in v.broker && v.broker[Trim(handle)] == Secret(Trim(token), key)
    && Sealing(key, nonce, aad, body) in v.sealings && v.sealings[Sealing(key, nonce, aad, body)] == p
  }

  lemma UnwrapExact(v: Vault, handle: Bytes, token: Bytes, key: Bytes)
    ensures Unwrap(v, handle, token) == Ok(key)
        <==> Trim(handle) in v.broker && v.broker[Trim(handle)] == Secret(Trim(token), key)
  {
  }

  lemma OpenExact(v: Vault, key: Bytes, frame: Bytes, aad: Bytes, p: Bytes)
    ensures Open(v, key, frame, aad) == Ok(p)
        <==> |frame| >= 28 && |key| == 32 && Sealing(key, frame[..12], aad, frame[12..]) in v.sealings
             && v.sealings[Sealing(key, frame[..12], aad, frame[12..])] == p
  {
  }

  lemma RecoverExact(v: Vault, parts: Parts, aad: Bytes, p: Bytes)
    ensures Recover(v, parts, aad) == Ok(p)
        <==> parts.token.Some? && Unwrap(v, parts.handle, parts.token.value).Ok? && Utf8(p)
             && Open(v, Unwrap(v, parts.handle, parts.token.value).value, parts.ciphertext, aad) == Ok(p)
  {
  }

  lemma OpensDecrypts(v: Vault, envelope: Bytes, aad: Bytes, p: Bytes, handle: Bytes, token: Bytes, key: Bytes,
                      nonce: Bytes, body: Bytes)
    requires OpensAs(v, envelope, aad, p, handle, token, key, nonce, body)
    ensures Decrypt(v, envelope, aad) == Ok(p)
  {
    var frame := nonce + body;
    assert frame[..12] == nonce && frame[12..] == body;
    V2Bijection(envelope, handle, token, frame);
    UnwrapExact(v, handle, token, key);
    OpenExact(v, key, frame, aad, p);
    RecoverExact(v, Parts(handle, Some(token), frame), aad, p);
  }

  lemma DecryptOpens(v: Vault, envelope: Bytes, aad: Bytes, p: Bytes)
    requires Decrypt(v, envelope, aad) == Ok(p)
    ensures exists handle, token, key, nonce, body :: OpensAs(v, envelope, aad, p, handle, token, key, nonce, body)
  {
    var parts := DecodePayload(envelope).value;
    RecoverExact(v, parts, aad, p);
    var key := Unwrap(v, parts.handle, parts.token.value).value;
    var nonce, body := parts.ciphertext[..12], parts.ciphertext[12..];
    PartsOpen(v, envelope, aad, p, parts.handle, parts.token.value, parts.ciphertext, key);
    assert OpensAs(v, envelope, aad, p, parts.handle, parts.token.value, key, nonce, body);
  }

  lemma PartsOpen(v: Vault, envelope: Bytes, aad: Bytes, p: Bytes, handle: Bytes, token: Bytes, frame: Bytes,
                  key: Bytes)
    requires DecodePayload(envelope) == Ok(Parts(handle, Some(token), frame)) && Utf8(p)
    requires Unwrap(v, handle, token) == Ok(key) && Open(v, key, frame, aad) == Ok(p)
    ensures |frame| >= 28 && OpensAs(v, envelope, aad, p, handle, token, key, frame[..12], frame[12..])
  {
    V2Bijection(envelope, handle, token, frame);
    KeyOpens(v, envelope, aad, p, handle, token, frame, key);
  }

  lemma KeyOpens(v: Vault, envelope: Bytes, aad: Bytes, p: Bytes, handle: Bytes, token: Bytes, frame: Bytes, key: Bytes)
    requires Utf8(handle) && Utf8(token) && Utf8(p) && envelope == EncodePayload(handle, token, frame)
    requires Unwrap(v, handle, token) == Ok(key) && Open(v, key, frame, aad) == Ok(p)
    ensures |frame| >= 28 && OpensAs(v, envelope, aad, p, handle, token, key, frame[..12], frame[12..])
  {
    UnwrapExact(v, handle, token, key);
    OpenExact(v, key, frame, aad, p);
    assert frame == frame[..12] + frame[12..];
  }

  /** A protected column reads as p exactly when it is a v2 envelope whose handle and token, trimmed, the
      broker knows with a key under which p was sealed in this context. */
  lemma ReadExact(v: Vault, text: Bytes, aad: Bytes, p: Bytes)
    ensures DecryptPresent(v, text, aad) == Ok(p)
        <==> exists handle, token, key, nonce, body :: OpensAs(v, text, aad, p, handle, token, key, nonce, body)
  {
    if DecryptPresent(v, text, aad) == Ok(p) {
      PresentOpens(v, text, aad);
      DecryptOpens(v, text, aad, p);
    }
    if handle, token, key, nonce, body :| OpensAs(v, text, aad, p, handle, token, key, nonce, body) {
      OpensDecrypts(v, text, aad, p, handle, token, key, nonce, body);
      PayloadIsText(handle, token, nonce + body);
    }
  }

  /** The first thing wrong with an envelope decides the error: its text, a missing token, what the broker has,
      the length of the frame and of the key, the seal, and the UTF-8 of what was sealed. */
  lemma OpenFaults(v: Vault, envelope: Bytes, aad: Bytes)
    ensures var r := Decrypt(v, envelope, aad);
            match DecodePayload(envelope)
            case Err(why) => r == Err(BadEnvelope(why))
            case Ok(Parts(_, None, _)) => r == Err(LegacyEnvelope)
            case Ok(Parts(handle, Some(token), frame)) =>
              if !(Trim(handle) in v.broker && v.broker[Trim(handle)].token == Trim(token)) then r == Err(BrokerRefused)
              else if |frame| < 12 + 16 then r == Err(CiphertextTooShort)
              else
                var key := v.broker[Trim(handle)].key;
                var sealing := Sealing(key, frame[..12], aad, frame[12..]);
                if |key| != 32 then r == Err(BadKey)
                else if sealing !in v.sealings then r == Err(DecryptionFailed)
                else if !Utf8(v.sealings[sealing]) then r == Err(NotUtf8)
                else r == Ok(v.sealings[sealing])
  {
  }

  /** What is no v2 envelope is refused without asking the broker. */
  lemma ReadRefuses(v: Vault, text: Bytes, aad: Bytes)
    ensures Ascii("aead:v1:") <= text ==> DecryptPresent(v, text, aad) == Err(LegacyEnvelope)
    ensures !(Ascii("aead:v1:") <= text) && !(Ascii("aead:v2:") <= text)
        ==> DecryptPresent(v, text, aad) == Err(PlaintextFound)
  {
    PrefixesDiffer(text);
  }

  // ---------- Sessions ----------

  lemma RecordEffects(db: Db, id: Uuid, s: Session, d: Draw)
    ensures var (after, r) := RecordSession(db, id, s, d);
            var (vault, onion) := EnsureOptional(db.vault, d, s.clientOnion, ColumnAad(ClientOnion, id));
            && after.vault == vault && after.clock == db.clock
            && after.credentials == db.credentials && after.tickets == db.tickets
            && (onion.Err? ==> r == Err(Encryption(onion.error)))
            && (onion.Ok? && id in db.sessions ==> r == Err(UniqueViolation))
            && (onion.Ok? && id !in db.sessions && s.credential !in db.credentials ==> r == Err(ForeignKeyViolation))
            && (onion.Ok? && id !in db.sessions && s.credential in db.credentials ==> r == Ok(()))
            && (r.Err? ==> after.sessions == db.sessions)
            && (r.Ok? ==>
                  && after.sessions.Keys == db.sessions.Keys + {id}
                  && (forall t :: t in db.sessions ==> after.sessions[t] == db.sessions[t])
                  && var row := after.sessions[id];
                     && row.credential == s.credential && row.circuit == s.circuit && row.fingerprint == s.fingerprint
                     && row.guards == s.guards && row.expiresAt == s.expiresAt && row.clientOnion == onion.value)
  {
    var (vault, onion) := EnsureOptional(db.vault, d, s.clientOnion, ColumnAad(ClientOnion, id));
    if onion.Ok? {
      SessionInsertEffects(db.(vault := vault), id, s.(clientOnion := onion.value));
    }
  }

  lemma SessionInsertEffects(db: Db, id: Uuid, row: Session)
    ensures var (after, r) := InsertSession(db, id, row);
            && (r == if id in db.sessions then Err(UniqueViolation)
                     else if row.credential !in db.credentials then Err(ForeignKeyViolation) else Ok(()))
            && after.vault == db.vault && after.clock == db.clock
            && after.credentials == db.credentials && after.tickets == db.tickets
            && (r.Err? ==> after.sessions == db.sessions)
            && (r.Ok? ==> after.sessions.Keys == db.sessions.Keys + {id} && after.sessions[id] == row
                          && forall t :: t in db.sessions ==> after.sessions[t] == db.sessions[t])
  {
  }

  /** A missing session is no error; one without a client onion is read without the broker. */
  lemma FetchSessionAnswers(db: Db, id: Uuid)
    ensures var r := FetchSession(db, id);
            if id !in db.sessions then r == Ok(None)
            else
              var row := db.sessions[id];
              match row.clientOnion
              case None => r.Ok? && r.value.Some? && r.value.value.clientOnion.None? && Shows(r.value.value, id, row)
              case Some(text) =>
                match DecryptPresent(db.vault, text, ColumnAad(ClientOnion, id))
                case Err(why) => r == Err(Encryption(why))
                case Ok(p) =>
                  r.Ok? && r.value.Some? && r.value.value.clientOnion == Some(p) && Shows(r.value.value, id, row)
  {
  }

  predicate Shows(view: SessionView, id: Uuid, row: Session) {
    && view.id == id && view.row.credential == row.credential && view.row.circuit == row.circuit
    && view.row.fingerprint == row.fingerprint && view.row.guards == row.guards && view.row.expiresAt == row.expiresAt
  }

  // ---------- Tickets ----------

  /** Reading columns succeeds exactly when the required ones are there and all that are there open. */
  lemma {:induction false} ColumnsRead(v: Vault, id: Uuid, cols: seq<Column>, sealed: map<Column, Bytes>)
    ensures DecryptAll(v, id, cols, sealed).Ok?
        <==> forall c :: c in cols ==>
               if c in sealed then DecryptPresent(v, sealed[c], ColumnAad(c, id)).Ok? else c !in REQUIRED
    ensures DecryptAll(v, id, cols, sealed).Ok? ==>
              var plain := DecryptAll(v, id, cols, sealed).value;
              forall c :: (c in plain <==> c in cols && c in sealed)
                          && (c in plain ==> DecryptPresent(v, sealed[c], ColumnAad(c, id)) == Ok(plain[c]))
    decreases |cols|
  {
    if cols != [] {
      assert cols == [cols[0]] + cols[1..];
      ColumnsRead(v, id, cols[1..], sealed);
    }
  }

  /** The six columns a verification reads. */
  predicate Verified(c: Column) {
    c == PublicKey || c == SecretPath || c == RedeemToken || c == NonceDigest || c == QuoteHash || c == TlsDigest
  }

  lemma SixColumns(c: Column)
    ensures c in FETCH_ORDER <==> Verified(c)
    ensures c in ISSUE_ORDER <==> Verified(c)
    ensures c in REQUIRED <==> Verified(c) && c != RedeemToken
  {
    assert FETCH_ORDER[0] == PublicKey && FETCH_ORDER[1] == SecretPath && FETCH_ORDER[2] == RedeemToken
        && FETCH_ORDER[3] == NonceDigest && FETCH_ORDER[4] == QuoteHash && FETCH_ORDER[5] == TlsDigest;
    assert ISSUE_ORDER[0] == PublicKey && ISSUE_ORDER[1] == SecretPath && ISSUE_ORDER[2] == NonceDigest
        && ISSUE_ORDER[3] == QuoteHash && ISSUE_ORDER[4] == RedeemToken && ISSUE_ORDER[5] == TlsDigest;
  }

  /** A fetch finds nothing exactly when there is no row; it succeeds on a row exactly when its columns can be
      read; and it shows that row with what they read as. */
  lemma FetchTicketAnswers(db: Db, id: Uuid)
    ensures FetchTicket(db, id) == Ok(None) <==> id !in db.tickets
    ensures id in db.tickets ==>
              (FetchTicket(db, id).Ok? <==>
                 forall c :: c in FETCH_ORDER ==>
                   if c in db.tickets[id].sealed
                   then DecryptPresent(db.vault, db.tickets[id].sealed[c], ColumnAad(c, id)).Ok?
                   else c !in REQUIRED)
    ensures id in db.tickets && FetchTicket(db, id).Ok? ==>
              && FetchTicket(db, id).value.Some?
              && FetchTicket(db, id).value.value.id == id && FetchTicket(db, id).value.value.row == db.tickets[id]
              && FetchTicket(db, id).value.value.plain.Keys
                 == (set c | c in db.tickets[id].sealed && c in FETCH_ORDER)
  {
    if id in db.tickets {
      RowFetched(db, id);
      ColumnsShown(db.vault, id, FETCH_ORDER, db.tickets[id].sealed);
    }
  }

  lemma ColumnsShown(v: Vault, id: Uuid, cols: seq<Column>, sealed: map<Column, Bytes>)
    ensures DecryptAll(v, id, cols, sealed).Ok?
        <==> forall c :: c in cols ==>
               if c in sealed then DecryptPresent(v, sealed[c], ColumnAad(c, id)).Ok? else c !in REQUIRED
    ensures DecryptAll(v, id, cols, sealed).Ok? ==>
              DecryptAll(v, id, cols, sealed).value.Keys == set c | c in sealed && c in cols
  {
    ColumnsRead(v, id, cols, sealed);
  }

  lemma RowFetched(db: Db, id: Uuid)
    requires id in db.tickets
    ensures FetchTicket(db, id) == match DecryptAll(db.vault, id, FETCH_ORDER, db.tickets[id].sealed)
                                   case Err(why) => Err(why)
                                   case Ok(plain) => Ok(Some(TicketView(id, db.tickets[id], plain)))
  {
  }

  /** Every field of the row that an insertion leaves. */
  predicate RowOf(ticket: NewTicket, sealed: map<Column, Bytes>, now: int, row: Ticket) {
    && row.credential == ticket.credential && row.attestation == ticket.attestation
    && row.tokenHash == ticket.tokenHash && row.info == ticket.info
    && row.createdAt == now && row.expiresAt == ticket.expiresAt && row.redeemedAt.None? && row.sealed == sealed
  }

  /** Attestation sessions are used once, but for the nil one of sixteen zero bytes. */
  ghost predicate AttestationFree(db: Db, session: Uuid) {
    (forall i :: 0 <= i < 16 ==> session[i] == 0)
    || forall t :: t in db.tickets ==> db.tickets[t].attestation != session
  }

  lemma NilSession(session: Uuid)
    ensures session == NIL <==> forall i :: 0 <= i < 16 ==> session[i] == 0
  {
    assert forall i :: 0 <= i < 16 ==> NIL[i] == 0;
  }

  lemma InsertTicketEffects(db: Db, ticket: NewTicket, sealed: map<Column, Bytes>)
    ensures var (after, r) := InsertTicket(db, ticket, sealed);
            && (r.Ok? <==> ticket.id !in db.tickets && AttestationFree(db, ticket.attestation)
                           && ticket.credential in db.credentials)
            && (r.Err? ==>
                  after == db
                  && r.error == if ticket.id !in db.tickets && AttestationFree(db, ticket.attestation)
                                then ForeignKeyViolation else UniqueViolation)
            && (r.Ok? ==>
                  && after.tickets.Keys == db.tickets.Keys + {ticket.id} && after.tickets[ticket.id] == r.value
                  && RowOf(ticket, sealed, db.clock, r.value)
                  && (forall t :: t in db.tickets ==> after.tickets[t] == db.tickets[t])
                  && after.credentials == db.credentials && after.sessions == db.sessions
                  && after.clock == db.clock && after.vault == db.vault)
  {
    NilSession(ticket.attestation);
  }

  /** What the caller of a successful issue gets back, field by field: its own plain fields among them. */
  predicate ReceiptOf(ticket: NewTicket, now: int, r: IssuedTicket) {
    && r.id == ticket.id && r.credential == ticket.credential && r.attestation == ticket.attestation
    && r.info == ticket.info && r.createdAt == now && r.expiresAt == ticket.expiresAt && r.plain == ticket.plain
  }

  lemma IssueEffects(db: Db, ticket: NewTicket, draws: Draws)
    ensures var (after, r) := IssueTicket(db, ticket, draws);
            var (vault, sealed) := EnsureAll(db.vault, ticket.id, ISSUE_ORDER, ticket.plain, draws);
            && after.vault == vault && after.clock == db.clock
            && after.credentials == db.credentials && after.sessions == db.sessions
            && (sealed.Err? ==> r == Err(Encryption(sealed.error)))
            && (r.Err? ==> after.tickets == db.tickets)
            && (r.Ok? ==>
                  && sealed.Ok? && after.tickets.Keys == db.tickets.Keys + {ticket.id}
                  && RowOf(ticket, sealed.value, db.clock, after.tickets[ticket.id])
                  && ReceiptOf(ticket, db.clock, r.value)
                  && (forall t :: t in db.tickets ==> after.tickets[t] == db.tickets[t]))
  {
    var (vault, sealed) := EnsureAll(db.vault, ticket.id, ISSUE_ORDER, ticket.plain, draws);
    if sealed.Ok? {
      InsertTicketEffects(db.(vault := vault), ticket, sealed.value);
    }
  }

  /** The first column, in the order listed, that cannot be sealed decides the error. */
  lemma {:induction false} FirstFault(v: Vault, id: Uuid, cols: seq<Column>, plain: map<Column, Bytes>, draws: Draws,
                                      i: nat)
    requires i < |cols| && cols[i] in plain && !Sealable(DrawFor(draws, cols[i]), plain[cols[i]])
    requires forall j :: 0 <= j < i && cols[j] in plain ==> Sealable(DrawFor(draws, cols[j]), plain[cols[j]])
    ensures EnsureAll(v, id, cols, plain, draws).1 == Err(Fault(DrawFor(draws, cols[i]), plain[cols[i]]))
    decreases |cols|
  {
    var c := cols[0];
    if c in plain {
      FaultMeans(v, DrawFor(draws, c), plain[c], ColumnAad(c, id));
    }
    if i > 0 {
      var w := if c in plain then EnsureEncrypted(v, DrawFor(draws, c), plain[c], ColumnAad(c, id)).0 else v;
      assert forall j :: 0 <= j < |cols[1..]| ==> cols[1..][j] == cols[j + 1];
      FirstFault(w, id, cols[1..], plain, draws, i - 1);
    }
  }

  /** Why a value cannot be sealed. */
  function Fault(d: Draw, value: Bytes): VaultError {
    if IsPayload(value) then LegacyEnvelope
    else if d.mint.MintRefused? then BrokerRefused
    else if d.mint.token.None? then MissingToken
    else if d.nonce.None? then RandomFailure
    else BadKey
  }

  lemma FaultMeans(v: Vault, d: Draw, value: Bytes, aad: Bytes)
    ensures if Sealable(d, value) then EnsureEncrypted(v, d, value, aad).1.Ok?
            else EnsureEncrypted(v, d, value, aad).1 == Err(Fault(d, value))
  {
    SealOutcome(v, d, value, aad);
  }

  /** A redemption writes its time and its column, and nothing else; without a row it writes nothing. */
  lemma RedemptionEffects(db: Db, id: Uuid, stored: Bytes)
    ensures var after := StoreRedemption(db, id, stored);
            && (id !in db.tickets ==> after == db)
            && (id in db.tickets ==>
                  var a, b := db.tickets[id], after.tickets[id];
                  && b.redeemedAt == Some(db.clock) && b.expiresAt == a.expiresAt && b.createdAt == a.createdAt
                  && b.credential == a.credential && b.attestation == a.attestation && b.tokenHash == a.tokenHash
                  && b.info == a.info && b.sealed.Keys == a.sealed.Keys + {RedeemedOnion}
                  && b.sealed[RedeemedOnion] == stored
                  && (forall c :: c in a.sealed && c != RedeemedOnion ==> b.sealed[c] == a.sealed[c])
                  && OnlyTicket(db, after, id))
  {
  }

  /** Everything but this ticket is as it was. */
  ghost predicate OnlyTicket(db: Db, after: Db, id: Uuid) {
    && after.clock == db.clock && after.credentials == db.credentials && after.sessions == db.sessions
    && after.vault == db.vault && after.tickets.Keys == db.tickets.Keys
    && forall t :: t in db.tickets && t != id ==> after.tickets[t] == db.tickets[t]
  }

  lemma MarkEffects(db: Db, id: Uuid, onion: Bytes, d: Draw)
    ensures var (after, r) := MarkRedeemed(db, id, onion, d);
            var envelope := Ascii("aead:v1:") <= onion || Ascii("aead:v2:") <= onion;
            var (vault, sealed) := Encrypt(db.vault, d, onion, ColumnAad(RedeemedOnion, id));
            && (envelope ==> r == Ok(()) && after == StoreRedemption(db, id, onion))
            && (!envelope && sealed.Err? ==> r == Err(Encryption(sealed.error)) && after == db.(vault := vault))
            && (!envelope && sealed.Ok? ==>
                  r == Ok(()) && after == StoreRedemption(db.(vault := vault), id, sealed.value))
  {
  }

  /** The expiry moves to one second, in microseconds, before the present, and nothing else moves. */
  lemma ExpiryEffects(db: Db, id: Uuid)
    ensures var (after, found) := ExpireTicket(db, id);
            && (found <==> id in db.tickets) && (!found ==> after == db)
            && (found ==>
                  var a, b := db.tickets[id], after.tickets[id];
                  && b.expiresAt == db.clock - 1_000_000 && b.redeemedAt == a.redeemedAt && b.createdAt == a.createdAt
                  && b.credential == a.credential && b.attestation == a.attestation && b.tokenHash == a.tokenHash
                  && b.info == a.info && b.sealed == a.sealed && OnlyTicket(db, after, id))
  {
  }

  /** Exactly the tickets go that expire before the cutoff and are redeemed or expired; the count is theirs. */
  lemma CollectEffects(db: Db, days: int)
    ensures var (after, count) := CollectTickets(db, days);
            && after.clock == db.clock && after.credentials == db.credentials
            && after.sessions == db.sessions && after.vault == db.vault
            && (forall t :: t in after.tickets <==>
                  t in db.tickets
                  && !(db.tickets[t].expiresAt < db.clock - days * 86_400_000_000
                       && (db.tickets[t].redeemedAt.Some? || db.tickets[t].expiresAt < db.clock)))
            && (forall t :: t in after.tickets ==> after.tickets[t] == db.tickets[t])
            && count == |db.tickets| - |after.tickets|
  {
    var gone := Garbage(db, days);
    var after := CollectTickets(db, days).0;
    assert gone <= db.tickets.Keys && after.tickets.Keys == db.tickets.Keys - gone;
    assert |db.tickets.Keys| == |gone| + |db.tickets.Keys - gone|;
    assert |after.tickets| == |after.tickets.Keys| && |db.tickets| == |db.tickets.Keys|;
  }

  // ---------- Whole runs ----------

  /** What each call can reach: every other table, and the clock, is as it was. */
  lemma Footprint(db: Db, e: Event)
    ensures var after := Step(db, e);
            && after.clock == db.clock + (if e.Tick? then e.elapsed else 0)
            && (!OnCredentials(e) ==> after.credentials == db.credentials)
            && (!e.Record? && !e.Delete? && !e.TamperSession? ==> after.sessions == db.sessions)
            && (!OnTickets(e) ==> after.tickets == db.tickets)
            && (!e.Record? && !e.Seal? && !e.Issue? && !e.Redeem? && !e.Forget? ==> after.vault == db.vault)
  {
    if OnCredentials(e) {
      CredentialReach(db, e);
    } else {
      match e
      case Record(id, session, draw) => RecordEffects(db, id, session, draw);
      case Issue(ticket, draws) => IssueEffects(db, ticket, draws);
      case Redeem(id, onion, draw) => RedeemReach(db, id, onion, draw);
      case _ =>
    }
  }

  lemma CredentialReach(db: Db, e: Event)
    requires OnCredentials(e)
    ensures Step(db, e).clock == db.clock && Step(db, e).vault == db.vault
    ensures !e.Delete? ==> OnlyCredentials(db, Step(db, e))
  {
    match e
    case Create(id, f) => CreateEffects(db, id, f);
    case Import(id, f) => ImportEffects(db, id, f);
    case _ =>
  }

  predicate OnTickets(e: Event) {
    e.Issue? || e.Redeem? || e.Expire? || e.Collect? || e.Delete? || e.TamperTicket?
  }

  /** An onion that is an envelope is stored as it is, so only another one needs a delivery. */
  predicate Redeems(onion: Bytes, d: Draw) {
    Ascii("aead:v1:") <= onion || Ascii("aead:v2:") <= onion || Delivers(d)
  }

  /** A redemption dates its ticket exactly when the onion is an envelope or can be sealed. */
  lemma RedeemReach(db: Db, id: Uuid, onion: Bytes, d: Draw)
    ensures var after := MarkRedeemed(db, id, onion, d).0;
            && after.clock == db.clock && after.credentials == db.credentials && after.sessions == db.sessions
            && after.tickets.Keys == db.tickets.Keys
            && forall t :: t in db.tickets ==>
                 var a, b := db.tickets[t], after.tickets[t];
                 && b.createdAt == a.createdAt && b.expiresAt == a.expiresAt
                 && b.redeemedAt == if t == id && Redeems(onion, d) then Some(db.clock) else a.redeemedAt
  {
    var (vault, sealed) := Encrypt(db.vault, d, onion, ColumnAad(RedeemedOnion, id));
    MarkEffects(db, id, onion, d);
    EncryptSucceeds(db.vault, d, onion, ColumnAad(RedeemedOnion, id));
    RedemptionEffects(db, id, onion);
    if sealed.Ok? {
      RedemptionEffects(db.(vault := vault), id, sealed.value);
    }
  }

  datatype Dates = Dates(created: int, expires: int, redeemed: Option<int>)

  function DatesOf(t: Ticket): Dates { Dates(t.createdAt, t.expiresAt, t.redeemedAt) }

  /** What one call does to the dates of a ticket, and which call alone makes one. */
  lemma DatesStep(db: Db, e: Event, id: Uuid)
    requires id in Step(db, e).tickets
    ensures id !in db.tickets ==>
              && e.Issue? && e.ticket.id == id
              && DatesOf(Step(db, e).tickets[id]) == Dates(db.clock, e.ticket.expiresAt, None)
    ensures id in db.tickets ==>
              DatesOf(Step(db, e).tickets[id]) == Redated(DatesOf(db.tickets[id]), e, id, db.clock)
  {
    if !OnTickets(e) {
      Footprint(db, e);
    } else if e.Issue? {
      IssueDates(db, e.ticket, e.draws, id);
    } else if e.Redeem? {
      RedeemReach(db, e.id, e.onion, e.draw);
    }
  }

  lemma IssueDates(db: Db, ticket: NewTicket, draws: Draws, id: Uuid)
    requires id in IssueTicket(db, ticket, draws).0.tickets
    ensures var row := IssueTicket(db, ticket, draws).0.tickets[id];
            if id in db.tickets then row == db.tickets[id]
            else ticket.id == id && DatesOf(row) == Dates(db.clock, ticket.expiresAt, None)
  {
    IssueEffects(db, ticket, draws);
  }

  /** Only an expiry and a redemption move the dates of a ticket that is there. */
  function Redated(d: Dates, e: Event, id: Uuid, now: int): Dates {
    match e
    case Expire(other) => if other == id then d.(expires := now - 1_000_000) else d
    case Redeem(other, onion, draw) =>
      if other == id && Redeems(onion, draw) then d.(redeemed := Some(now)) else d
    case _ => d
  }

  /** The clock after these events. */
  function Elapsed(events: seq<Event>): nat {
    if events == [] then 0
    else
      var last := events[|events| - 1];
      Elapsed(events[..|events| - 1]) + if last.Tick? then last.elapsed else 0
  }

  /** The dates the events leave a ticket with: those of its issue, moved by what came after. */
  function LastDates(events: seq<Event>, id: Uuid): Dates {
    if events == [] then Dates(0, 0, None)
    else
      var front, last := events[..|events| - 1], events[|events| - 1];
      if last.Issue? && last.ticket.id == id && id !in Run(EMPTY, front).tickets then
        Dates(Elapsed(front), last.ticket.expiresAt, None)
      else Redated(LastDates(front, id), last, id, Elapsed(front))
  }

  /** In every run, tampering included, a ticket was made when it was issued; it expires when its issue
      said, or one second before the last call that expired it; and it was redeemed at its last redemption. */
  lemma {:induction false} DatesMean(events: seq<Event>, id: Uuid)
    ensures Run(EMPTY, events).clock == Elapsed(events)
    ensures id in Run(EMPTY, events).tickets ==>
              DatesOf(Run(EMPTY, events).tickets[id]) == LastDates(events, id)
  {
    if events != [] {
      var front, last := events[..|events| - 1], events[|events| - 1];
      DatesMean(front, id);
      Footprint(Run(EMPTY, front), last);
      if id in Run(EMPTY, events).tickets {
        DatesStep(Run(EMPTY, front), last, id);
      }
    }
  }
}

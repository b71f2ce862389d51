/** The credential, session and ticket tables as values, and every statement on them as a step.
    NOW() is the clock of the database; ids, random draws and broker answers are parameters. */
module TicketStore {
  import opened Text
  import opened Clock
  import opened Envelope
  import opened RecordContext
  import opened SealedVault

  // ---------- Protected columns ----------

  datatype Column =
    | PublicKey
    | SecretPath
    | RedeemToken
    | NonceDigest
    | QuoteHash
    | TlsDigest
    | RedeemedOnion
    | ClientOnion

  const TICKETS: Bytes := Ascii("gateway_secrets.tor_access_tickets")
  const SESSIONS: Bytes := Ascii("gateway_secrets.tor_auth_sessions")

  function TableOf(c: Column): Bytes { if c.ClientOnion? then SESSIONS else TICKETS }

  function FieldOf(c: Column): Bytes {
    match c
    case PublicKey => Ascii("client_auth_public_key")
    case SecretPath => Ascii("client_auth_secret_path")
    case RedeemToken => Ascii("client_auth_secret_redeem_token")
    case NonceDigest => Ascii("attestation_nonce_digest")
    case QuoteHash => Ascii("attestation_quote_hash")
    case TlsDigest => Ascii("tls_pubkey_digest")
    case RedeemedOnion => Ascii("redeemed_operational_onion")
    case ClientOnion => Ascii("client_onion")
  }

  function PurposeOf(c: Column): Bytes {
    match c
    case PublicKey => Ascii("tor-ticket-client-auth-public-key")
    case SecretPath => Ascii("tor-ticket-client-auth-secret-path")
    case RedeemToken => Ascii("tor-ticket-client-auth-secret-redeem-token")
    case NonceDigest => Ascii("tor-ticket-attestation-nonce")
    case QuoteHash => Ascii("tor-ticket-attestation-quote")
    case TlsDigest => Ascii("tor-ticket-tls-pubkey-digest")
    case RedeemedOnion => Ascii("tor-ticket-redeemed-onion")
    case ClientOnion => Ascii("tor-session-client-onion")
  }

  function ColumnContext(c: Column, row: Uuid): Context {
    Context(TableOf(c), FieldOf(c), row, PurposeOf(c))
  }

  function ColumnAad(c: Column, row: Uuid): Bytes { RecordBoundAad(ColumnContext(c, row)) }

  const REQUIRED: set<Column> := {PublicKey, SecretPath, NonceDigest, QuoteHash, TlsDigest}
  const ISSUE_ORDER: seq<Column> :=
    [PublicKey, SecretPath, NonceDigest, QuoteHash, RedeemToken, TlsDigest]
  const FETCH_ORDER: seq<Column> :=
    [PublicKey, SecretPath, RedeemToken, NonceDigest, QuoteHash, TlsDigest]

  // ---------- Rows ----------

  datatype Credential = Credential(
    onion: Bytes, tier: Bytes, hash: Bytes, operational: Option<Bytes>, guards: seq<Bytes>,
    createdAt: int, updatedAt: int, expiresAt: Option<int>, disabled: bool, rate: int,
    rotatedAt: Option<int>)

  datatype Session = Session(
    credential: Uuid, circuit: Option<Bytes>, fingerprint: Option<Bytes>, guards: seq<Bytes>,
    clientOnion: Option<Bytes>, expiresAt: Option<int>)

  /** The ticket columns that are stored as they come. */
  datatype TicketInfo = TicketInfo(
    entryOnion: Bytes, fingerprint: Option<Bytes>, attestedAt: int,
    teeKind: Bytes, teeLabel: Option<Bytes>, teePolicy: Option<Bytes>)

  /** `sealed` holds the protected columns that are not NULL. */
  datatype Ticket = Ticket(
    credential: Uuid, attestation: Uuid, tokenHash: Bytes, info: TicketInfo, createdAt: int, expiresAt: int,
    redeemedAt: Option<int>, sealed: map<Column, Bytes>)

  /** The fields a caller hands in: the five required ones, and perhaps a redeem token. */
  type Plain = m: map<Column, Bytes> | REQUIRED <= m.Keys <= REQUIRED + {RedeemToken}
    witness map[PublicKey := [], SecretPath := [], NonceDigest := [], QuoteHash := [], TlsDigest := []]

  datatype NewTicket = NewTicket(
    id: Uuid, credential: Uuid, attestation: Uuid, tokenHash: Bytes, info: TicketInfo, expiresAt: int, plain: Plain)

  /** What the caller of an issue gets back: its own plain fields, and nothing decrypted. */
  datatype IssuedTicket = IssuedTicket(
    id: Uuid, credential: Uuid, attestation: Uuid, info: TicketInfo, createdAt: int, expiresAt: int, plain: Plain)

  datatype TicketView = TicketView(id: Uuid, row: Ticket, plain: map<Column, Bytes>)
  datatype SessionView = SessionView(id: Uuid, row: Session, clientOnion: Option<Bytes>)

  datatype Db = Db(
    clock: int,
    credentials: map<Uuid, Credential>,
    sessions: map<Uuid, Session>,
    tickets: map<Uuid, Ticket>,
    vault: Vault)

  datatype DbError =
    | UniqueViolation
    | ForeignKeyViolation
    | NullColumn
    | Encryption(why: VaultError)

  // ---------- Credentials ----------

  predicate OnionTaken(db: Db, onion: Bytes, id: Uuid) {
    exists other :: other in db.credentials && other != id && db.credentials[other].onion == onion
  }

  /** What a credential is made from; the callers trim the entry onion before they bind it. */
  datatype CredentialFields = CredentialFields(
    onion: Bytes, hash: Bytes, tier: Bytes, rate: int, expiresAt: Option<int>, guards: seq<Bytes>)

  function TrimmedFields(f: CredentialFields): CredentialFields {
    f.(onion := Trim(f.onion))
  }

  function FreshCredential(f: CredentialFields, now: int): Credential {
    Credential(f.onion, f.tier, f.hash, None, f.guards, now, now, f.expiresAt, false, f.rate, None)
  }

  /** The INSERT statement. */
  function InsertCredential(db: Db, id: Uuid, row: Credential): (Db, Result<Credential, DbError>) {
    if id in db.credentials || OnionTaken(db, row.onion, id) then (db, Err(UniqueViolation))
    else (db.(credentials := db.credentials[id := row]), Ok(row))
  }

  function CreateCredential(db: Db, id: Uuid, f: CredentialFields): (Db, Result<Credential, DbError>) {
    InsertCredential(db, id, FreshCredential(f, db.clock))
  }

  /** The upsert by id. An existing row keeps its operational onion, creation and rotation times; the
      returned record never shows them. */
  function UpsertCredential(db: Db, id: Uuid, row: Credential): (Db, Result<Credential, DbError>) {
    if OnionTaken(db, row.onion, id) then (db, Err(UniqueViolation))
    else (db.(credentials := db.credentials[id := Imported(db, id, row)]), Ok(row))
  }

  function ImportCredential(db: Db, id: Uuid, f: CredentialFields): (Db, Result<Credential, DbError>) {
    UpsertCredential(db, id, FreshCredential(f, db.clock))
  }

  function Imported(db: Db, id: Uuid, row: Credential): Credential {
    if id in db.credentials then
      var prior := db.credentials[id];
      row.(operational := prior.operational, createdAt := prior.createdAt, rotatedAt := prior.rotatedAt)
    else row
  }

  /** The entry onion is stored untrimmed here; a missing row is not an error. */
  function SetEntryOnion(db: Db, id: Uuid, onion: Bytes, guards: seq<Bytes>): (Db, Result<(), DbError>) {
    if id !in db.credentials then (db, Ok(()))
    else if OnionTaken(db, onion, id) then (db, Err(UniqueViolation))
    else
      var row := db.credentials[id].(onion := onion, guards := guards, updatedAt := db.clock);
      (db.(credentials := db.credentials[id := row]), Ok(()))
  }

  function RotateOnion(db: Db, id: Uuid, onion: Bytes, guards: seq<Bytes>): Db {
    if id !in db.credentials then db
    else
      var row := db.credentials[id].(operational := Some(onion), guards := guards,
                                     rotatedAt := Some(db.clock), updatedAt := db.clock);
      db.(credentials := db.credentials[id := row])
  }

  function SetDisabled(db: Db, id: Uuid, disabled: bool): Db {
    if id !in db.credentials then db
    else
      var row := db.credentials[id].(disabled := disabled, updatedAt := db.clock);
      db.(credentials := db.credentials[id := row])
  }

  function SessionsOf(db: Db, credential: Uuid): set<Uuid> {
    set s | s in db.sessions && db.sessions[s].credential == credential
  }

  function TicketsOf(db: Db, credential: Uuid): set<Uuid> {
    set t | t in db.tickets && db.tickets[t].credential == credential
  }

  /** ON DELETE CASCADE reaches the sessions and tickets of the credential. */
  function DeleteCredential(db: Db, id: Uuid): (Db, bool) {
    (Db(db.clock, db.credentials - {id}, db.sessions - SessionsOf(db, id), db.tickets - TicketsOf(db, id),
        db.vault),
     id in db.credentials)
  }

  // ---------- Sessions ----------

  /** The INSERT statement. */
  function InsertSession(db: Db, id: Uuid, row: Session): (Db, Result<(), DbError>) {
    if id in db.sessions then (db, Err(UniqueViolation))
    else if row.credential !in db.credentials then (db, Err(ForeignKeyViolation))
    else (db.(sessions := db.sessions[id := row]), Ok(()))
  }

  function RecordSession(db: Db, id: Uuid, s: Session, d: Draw): (Db, Result<(), DbError>) {
    var (vault, onion) := EnsureOptional(db.vault, d, s.clientOnion, ColumnAad(ClientOnion, id));
    match onion
    case Err(why) => (db.(vault := vault), Err(Encryption(why)))
    case Ok(stored) => InsertSession(db.(vault := vault), id, s.(clientOnion := stored))
  }

  function EnsureOptional(v: Vault, d: Draw, value: Option<Bytes>, aad: Bytes)
    : (Vault, Result<Option<Bytes>, VaultError>)
  {
    match value
    case None => (v, Ok(None))
    case Some(text) =>
      var (w, s) := EnsureEncrypted(v, d, text, aad);
      (w, if s.Ok? then Ok(Some(s.value)) else Err(s.error))
  }

  function FetchSession(db: Db, id: Uuid): Result<Option<SessionView>, DbError> {
    if id !in db.sessions then Ok(None)
    else
      var row := db.sessions[id];
      match row.clientOnion
      case None => Ok(Some(SessionView(id, row, None)))
      case Some(stored) =>
        var onion := DecryptPresent(db.vault, stored, ColumnAad(ClientOnion, id));
        if onion.Err? then Err(Encryption(onion.error))
        else Ok(Some(SessionView(id, row, Some(onion.value))))
  }

  // ---------- Tickets ----------

  type Draws = map<Column, Draw>

  function DrawFor(draws: Draws, c: Column): Draw {
    if c in draws then draws[c] else Draw(MintRefused, None, [])
  }

  /** Seal the listed columns in order, stopping at the first failure. What was minted and sealed
      before a failure stays in the broker. */
  function EnsureAll(v: Vault, id: Uuid, cols: seq<Column>, plain: map<Column, Bytes>, draws: Draws)
    : (Vault, Result<map<Column, Bytes>, VaultError>)
    decreases |cols|, |plain|
  {
    if cols == [] then (v, Ok(map[]))
    else if cols[0] !in plain then EnsureAll(v, id, cols[1..], plain, draws)
    else
      var c := cols[0];
      var (w, s) := EnsureEncrypted(v, DrawFor(draws, c), plain[c], ColumnAad(c, id));
      if s.Err? then (w, Err(s.error))
      else
        var (x, rest) := EnsureAll(w, id, cols[1..], plain, draws);
        (x, if rest.Err? then rest else Ok(rest.value[c := s.value]))
  }

  const NIL: Uuid := [0, 0, 0, 0, 0, 0, 0, 0, 0, 0, 0, 0, 0, 0, 0, 0]

  /** The partial unique index on attestation sessions leaves the nil session out. */
  predicate AttestationTaken(db: Db, session: Uuid) {
    session != NIL && exists t :: t in db.tickets && db.tickets[t].attestation == session
  }

  /** The INSERT statement. */
  function InsertTicket(db: Db, ticket: NewTicket, sealed: map<Column, Bytes>): (Db, Result<Ticket, DbError>) {
    if ticket.id in db.tickets || AttestationTaken(db, ticket.attestation) then (db, Err(UniqueViolation))
    else if ticket.credential !in db.credentials then (db, Err(ForeignKeyViolation))
    else
      var row := Ticket(ticket.credential, ticket.attestation, ticket.tokenHash, ticket.info, db.clock,
                        ticket.expiresAt, None, sealed);
      (db.(tickets := db.tickets[ticket.id := row]), Ok(row))
  }

  function Receipt(ticket: NewTicket, row: Ticket): IssuedTicket {
    IssuedTicket(ticket.id, ticket.credential, ticket.attestation, ticket.info, row.createdAt, row.expiresAt,
                 ticket.plain)
  }

  function IssueTicket(db: Db, ticket: NewTicket, draws: Draws): (Db, Result<IssuedTicket, DbError>) {
    var (vault, sealed) := EnsureAll(db.vault, ticket.id, ISSUE_ORDER, ticket.plain, draws);
    match sealed
    case Err(why) => (db.(vault := vault), Err(Encryption(why)))
    case Ok(columns) =>
      var (after, row) := InsertTicket(db.(vault := vault), ticket, columns);
      (after, if row.Ok? then Ok(Receipt(ticket, row.value)) else Err(row.error))
  }

  function DecryptAll(v: Vault, id: Uuid, cols: seq<Column>, sealed: map<Column, Bytes>)
    : Result<map<Column, Bytes>, DbError>
    decreases |cols|, |sealed|
  {
    if cols == [] then Ok(map[])
    else if cols[0] !in sealed then
      if cols[0] in REQUIRED then Err(NullColumn) else DecryptAll(v, id, cols[1..], sealed)
    else
      var c := cols[0];
      var p := DecryptPresent(v, sealed[c], ColumnAad(c, id));
      if p.Err? then Err(Encryption(p.error))
      else
        var rest :- DecryptAll(v, id, cols[1..], sealed);
        Ok(rest[c := p.value])
  }

  function FetchTicket(db: Db, id: Uuid): Result<Option<TicketView>, DbError> {
    if id !in db.tickets then Ok(None)
    else
      var plain :- DecryptAll(db.vault, id, FETCH_ORDER, db.tickets[id].sealed);
      Ok(Some(TicketView(id, db.tickets[id], plain)))
  }

  /** The UPDATE statement: an earlier redemption is overwritten, a missing row is not an error. */
  function StoreRedemption(db: Db, id: Uuid, stored: Bytes): Db {
    if id !in db.tickets then db
    else
      var prior := db.tickets[id];
      var row := prior.(redeemedAt := Some(db.clock), sealed := prior.sealed[RedeemedOnion := stored]);
      db.(tickets := db.tickets[id := row])
  }

  /** An envelope, v1 included, is stored as it is. */
  function SealRedemption(v: Vault, id: Uuid, onion: Bytes, d: Draw): (Vault, Result<Bytes, VaultError>) {
    if IsPayload(onion) then (v, Ok(onion)) else Encrypt(v, d, onion, ColumnAad(RedeemedOnion, id))
  }

  function MarkRedeemed(db: Db, id: Uuid, onion: Bytes, d: Draw): (Db, Result<(), DbError>) {
    var (vault, stored) := SealRedemption(db.vault, id, onion, d);
    match stored
    case Err(why) => (db.(vault := vault), Err(Encryption(why)))
    case Ok(text) => (StoreRedemption(db.(vault := vault), id, text), Ok(()))
  }

  function ExpireTicket(db: Db, id: Uuid): (Db, bool) {
    if id !in db.tickets then (db, false)
    else (db.(tickets := db.tickets[id := db.tickets[id].(expiresAt := db.clock - SECOND)]), true)
  }

  predicate Expired(t: Ticket, now: int) { t.expiresAt < now }

  predicate Redeemed(t: Ticket) { t.redeemedAt.Some? }

  /** The WHERE clause of the collection; retention_days may be negative. */
  predicate Collectable(t: Ticket, now: int, days: int) {
    t.expiresAt < now - days * DAY && (Redeemed(t) || Expired(t, now))
  }

  function Garbage(db: Db, days: int): set<Uuid> {
    set t | t in db.tickets && Collectable(db.tickets[t], db.clock, days)
  }

  function CollectTickets(db: Db, days: int): (Db, nat) {
    (db.(tickets := db.tickets - Garbage(db, days)), |Garbage(db, days)|)
  }

  // ---------- Runs ----------

  /** One call, one move of the clock, or one act of the environment: somebody overwriting a
      protected column with any text at all, or the broker forgetting a handle. A call that seals is several
      steps: it can also run as one Seal for each field, between which anything may happen, and then the
      call itself with the envelopes in place of the fields, which seals nothing more. A fetch changes
      nothing; if it uses up redeem tokens, Forget follows it. */
  datatype Event =
    | Tick(elapsed: nat)
    | Create(id: Uuid, fields: CredentialFields)
    | Import(id: Uuid, fields: CredentialFields)
    | SetEntry(id: Uuid, onion: Bytes, guards: seq<Bytes>)
    | Rotate(id: Uuid, onion: Bytes, guards: seq<Bytes>)
    | Disable(id: Uuid, disabled: bool)
    | Delete(id: Uuid)
    | Record(id: Uuid, session: Session, draw: Draw)
    | Seal(column: Column, id: Uuid, value: Bytes, draw: Draw)
    | Issue(ticket: NewTicket, draws: Draws)
    | Redeem(id: Uuid, onion: Bytes, draw: Draw)
    | Expire(id: Uuid)
    | Collect(days: int)
    | TamperTicket(id: Uuid, column: Column, text: Bytes)
    | TamperSession(id: Uuid, text: Bytes)
    | Forget(handle: Bytes)

  predicate Honest(e: Event) { !e.TamperTicket? && !e.TamperSession? }

  function Step(db: Db, e: Event): Db {
    match e
    case Tick(elapsed) => db.(clock := db.clock + elapsed)
    case Create(id, f) => CreateCredential(db, id, f).0
    case Import(id, f) => ImportCredential(db, id, f).0
    case SetEntry(id, onion, guards) => SetEntryOnion(db, id, onion, guards).0
    case Rotate(id, onion, guards) => RotateOnion(db, id, onion, guards)
    case Disable(id, disabled) => SetDisabled(db, id, disabled)
    case Delete(id) => DeleteCredential(db, id).0
    case Record(id, session, draw) => RecordSession(db, id, session, draw).0
    case Seal(c, id, value, draw) => db.(vault := EnsureEncrypted(db.vault, draw, value, ColumnAad(c, id)).0)
    case Issue(ticket, draws) => IssueTicket(db, ticket, draws).0
    case Redeem(id, onion, draw) => MarkRedeemed(db, id, onion, draw).0
    case Expire(id) => ExpireTicket(db, id).0
    case Collect(days) => CollectTickets(db, days).0
    case TamperTicket(id, column, text) =>
      if id !in db.tickets then db
      else
        var row := db.tickets[id];
        db.(tickets := db.tickets[id := row.(sealed := row.sealed[column := text])])
    case TamperSession(id, text) =>
      if id !in db.sessions then db
      else db.(sessions := db.sessions[id := db.sessions[id].(clientOnion := Some(text))])
    case Forget(handle) => db.(vault := db.vault.(broker := db.vault.broker - {handle}))
  }

  function Run(db: Db, events: seq<Event>): Db {
    if events == [] then db else Step(Run(db, events[..|events| - 1]), events[|events| - 1])
  }

  const EMPTY: Db := Db(0, map[], map[], map[], Vault(map[], map[]))
}

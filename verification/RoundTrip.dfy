/** Runs whose environment supplies fresh keys and handles: an envelope opens in one place only, and
    what a ticket or session was made with comes back from every later fetch, unless it was an envelope. */
module RoundTrip {
  import opened Text
  import opened Envelope
  import opened RecordContext
  import opened SealedVault
  import opened TicketStore
  import opened StoreInvariants
  import opened ProtectedRecords

  // ---------- Lawful environments ----------

  predicate LawfulAll(v: Vault, id: Uuid, cols: seq<Column>, plain: map<Column, Bytes>, draws: Draws)
    decreases |cols|
  {
    cols == []
    || (if cols[0] !in plain then LawfulAll(v, id, cols[1..], plain, draws)
        else
          var c := cols[0];
          var (w, s) := EnsureEncrypted(v, DrawFor(draws, c), plain[c], ColumnAad(c, id));
          LawfulFor(v, DrawFor(draws, c), plain[c])
          && (s.Ok? ==> LawfulAll(w, id, cols[1..], plain, draws)))
  }

  predicate LawfulEvent(db: Db, e: Event) {
    match e
    case Record(_, session, draw) =>
      session.clientOnion.Some? ==> LawfulFor(db.vault, draw, session.clientOnion.value)
    case Seal(_, _, value, draw) => LawfulFor(db.vault, draw, value)
    case Issue(ticket, draws) => LawfulAll(db.vault, ticket.id, ISSUE_ORDER, ticket.plain, draws)
    case Redeem(_, onion, draw) => LawfulFor(db.vault, draw, onion)
    case _ => true
  }

  predicate LawfulRun(db: Db, events: seq<Event>) {
    events == []
    || (var front := events[..|events| - 1];
        LawfulRun(db, front) && LawfulEvent(Run(db, front), events[|events| - 1]))
  }

  lemma GrowsKeeps(v: Vault, w: Vault, handles: set<Bytes>)
    requires Grows(v, w)
    ensures Keeps(v, w, handles)
  {
  }

  lemma GrowsTransitive(u: Vault, v: Vault, w: Vault)
    requires GrowsWell(u, v) && GrowsWell(v, w)
    ensures GrowsWell(u, w)
  {
  }

  lemma {:induction false} EnsureAllGrows(v: Vault, id: Uuid, cols: seq<Column>, plain: map<Column, Bytes>,
                                          draws: Draws)
    requires LawfulAll(v, id, cols, plain, draws)
    ensures GrowsWell(v, EnsureAll(v, id, cols, plain, draws).0)
    decreases |cols|
  {
    if cols != [] {
      var c := cols[0];
      if c !in plain {
        EnsureAllGrows(v, id, cols[1..], plain, draws);
      } else {
        EnsureGrows(v, DrawFor(draws, c), plain[c], ColumnAad(c, id));
        var (w, s) := EnsureEncrypted(v, DrawFor(draws, c), plain[c], ColumnAad(c, id));
        if s.Ok? {
          EnsureAllGrows(w, id, cols[1..], plain, draws);
          GrowsTransitive(v, w, EnsureAll(w, id, cols[1..], plain, draws).0);
        }
      }
    }
  }

  lemma StepGrows(db: Db, e: Event)
    requires LawfulEvent(db, e) && !e.Forget?
    ensures GrowsWell(db.vault, Step(db, e).vault)
  {
    match e
    case Record(id, session, draw) =>
      RecordVault(db, id, session, draw);
      if session.clientOnion.Some? {
        EnsureGrows(db.vault, draw, session.clientOnion.value, ColumnAad(ClientOnion, id));
      }
    case Seal(c, id, value, draw) => EnsureGrows(db.vault, draw, value, ColumnAad(c, id));
    case Issue(ticket, draws) =>
      IssueVault(db, ticket, draws);
      EnsureAllGrows(db.vault, ticket.id, ISSUE_ORDER, ticket.plain, draws);
    case Redeem(id, onion, draw) =>
      RedeemVault(db, id, onion, draw);
      if !IsPayload(onion) {
        EncryptGrows(db.vault, draw, onion, ColumnAad(RedeemedOnion, id));
      }
    case _ => InsertsKeepVault(db, e);
  }

  /** Forgetting a handle touches no sealing. */
  lemma StepStaysWell(db: Db, e: Event)
    requires LawfulEvent(db, e)
    ensures OneUsePerKey(db.vault) ==> OneUsePerKey(Step(db, e).vault)
    ensures Framed(db.vault) ==> Framed(Step(db, e).vault)
  {
    if e.Forget? {
      InsertsKeepVault(db, e);
    } else {
      StepGrows(db, e);
    }
  }

  lemma StepKeepsHandles(db: Db, e: Event, handles: set<Bytes>)
    requires LawfulEvent(db, e) && !Forgets(e, handles)
    ensures Keeps(db.vault, Step(db, e).vault, handles)
  {
    if !e.Forget? {
      StepGrows(db, e);
      GrowsKeeps(db.vault, Step(db, e).vault, handles);
    }
  }

  predicate Forgets(e: Event, handles: set<Bytes>) { e.Forget? && e.handle in handles }

  lemma {:induction false} RunKeepsHandles(db: Db, events: seq<Event>, handles: set<Bytes>)
    requires LawfulRun(db, events)
    requires forall i :: 0 <= i < |events| ==> !Forgets(events[i], handles)
    ensures Keeps(db.vault, Run(db, events).vault, handles)
    ensures Framed(db.vault) ==> Framed(Run(db, events).vault)
  {
    if events != [] {
      var front, last := events[..|events| - 1], events[|events| - 1];
      var before := Run(db, front);
      RunKeepsHandles(db, front, handles);
      StepKeepsHandles(before, last, handles);
      StepStaysWell(before, last);
      KeepsTransitive(db.vault, before.vault, Step(before, last).vault, handles);
    }
  }

  // ---------- One context per envelope ----------

  lemma {:induction false} RunStaysWell(events: seq<Event>)
    requires LawfulRun(EMPTY, events)
    ensures OneUsePerKey(Run(EMPTY, events).vault) && Framed(Run(EMPTY, events).vault)
  {
    if events != [] {
      var front, last := events[..|events| - 1], events[|events| - 1];
      RunStaysWell(front);
      StepStaysWell(Run(EMPTY, front), last);
    }
  }

  /** In any lawful run, tampering included, a text that opens for one column of one row opens for
      no other column and no other row. */
  lemma TransplantRejected(events: seq<Event>, text: Bytes, c: Column, id: Uuid, d: Column, row: Uuid)
    requires LawfulRun(EMPTY, events)
    requires DecryptPresent(Run(EMPTY, events).vault, text, ColumnAad(c, id)).Ok?
    requires c != d || id != row
    ensures DecryptPresent(Run(EMPTY, events).vault, text, ColumnAad(d, row)).Err?
  {
    var v := Run(EMPTY, events).vault;
    RunStaysWell(events);
    if DecryptPresent(v, text, ColumnAad(d, row)).Ok? {
      PresentOpens(v, text, ColumnAad(c, id));
      PresentOpens(v, text, ColumnAad(d, row));
      OneContextOnly(v, text, ColumnAad(c, id), ColumnAad(d, row));
      ColumnsHaveOwnContext(c, id, d, row);
    }
  }

  // ---------- Issue, then fetch ----------

  predicate Texts(plain: map<Column, Bytes>) { forall c :: c in plain ==> Utf8(plain[c]) }

  predicate NoEnvelopes(plain: map<Column, Bytes>) { forall c :: c in plain ==> !IsPayload(plain[c]) }

  /** A way to read columns: whether a stored text of a column reads as this value. */
  type Reading = (Column, Bytes, Bytes) -> bool

  function ReadIn(v: Vault, id: Uuid): Reading {
    (c: Column, text: Bytes, p: Bytes) => DecryptPresent(v, text, ColumnAad(c, id)) == Ok(p)
  }

  /** Every listed column that was handed in is stored so that it reads back; the others are NULL. */
  ghost predicate Recoverable(opens: Reading, cols: seq<Column>, plain: map<Column, Bytes>,
                              sealed: map<Column, Bytes>)
  {
    forall c :: c in cols ==> (c in sealed <==> c in plain) && (c in plain ==> opens(c, sealed[c], plain[c]))
  }

  lemma RecoverableNext(opens: Reading, cols: seq<Column>, plain: map<Column, Bytes>, sealed: map<Column, Bytes>,
                        text: Bytes)
    requires cols != [] && cols[0] in plain && opens(cols[0], text, plain[cols[0]])
    requires Recoverable(opens, cols[1..], plain, sealed)
    ensures Recoverable(opens, cols, plain, sealed[cols[0] := text])
  {
    assert cols == [cols[0]] + cols[1..];
  }

  lemma EnsureThenOpen(v: Vault, d: Draw, value: Bytes, aad: Bytes)
    requires Lawful(v, d, value) && Utf8(value) && !IsPayload(value)
    requires EnsureEncrypted(v, d, value, aad).1.Ok?
    ensures var (w, s) := EnsureEncrypted(v, d, value, aad);
            DecryptPresent(w, s.value, aad) == Ok(value)
  {
    EncryptDecrypt(v, d, value, aad);
  }

  lemma EnsureThenRead(v: Vault, d: Draw, value: Bytes, c: Column, id: Uuid)
    requires Lawful(v, d, value) && Utf8(value) && !IsPayload(value)
    requires EnsureEncrypted(v, d, value, ColumnAad(c, id)).1.Ok?
    ensures var (w, s) := EnsureEncrypted(v, d, value, ColumnAad(c, id)); ReadIn(w, id)(c, s.value, value)
  {
    EnsureThenOpen(v, d, value, ColumnAad(c, id));
  }

  /** The broker handles that the given columns name. */
  function HandlesOf(sealed: map<Column, Bytes>): set<Bytes> {
    set c | c in sealed && HandleOf(sealed[c]).Some? :: HandleOf(sealed[c]).value
  }

  lemma PresentStable(v: Vault, w: Vault, handles: set<Bytes>, value: Bytes, aad: Bytes)
    requires Keeps(v, w, handles) && DecryptPresent(v, value, aad).Ok?
    requires HandleOf(value).Some? ==> HandleOf(value).value in handles
    ensures DecryptPresent(w, value, aad) == DecryptPresent(v, value, aad)
  {
    PresentOpens(v, value, aad);
    DecryptStable(v, w, handles, value, aad);
  }

  lemma ReadStable(v: Vault, w: Vault, handles: set<Bytes>, id: Uuid, c: Column, text: Bytes, p: Bytes)
    requires Keeps(v, w, handles) && ReadIn(v, id)(c, text, p)
    requires HandleOf(text).Some? ==> HandleOf(text).value in handles
    ensures ReadIn(w, id)(c, text, p)
  {
    PresentStable(v, w, handles, text, ColumnAad(c, id));
  }

  lemma GrownReads(v: Vault, w: Vault, id: Uuid, c: Column, text: Bytes, p: Bytes)
    requires GrowsWell(v, w) && ReadIn(v, id)(c, text, p)
    ensures ReadIn(w, id)(c, text, p)
  {
    var handles := if HandleOf(text).Some? then {HandleOf(text).value} else {};
    GrowsKeeps(v, w, handles);
    ReadStable(v, w, handles, id, c, text, p);
  }

  lemma {:induction false} EnsureAllRecoverable(v: Vault, id: Uuid, cols: seq<Column>, plain: map<Column, Bytes>,
                                                draws: Draws)
    requires LawfulAll(v, id, cols, plain, draws) && Texts(plain) && NoEnvelopes(plain)
    requires EnsureAll(v, id, cols, plain, draws).1.Ok?
    ensures var (w, s) := EnsureAll(v, id, cols, plain, draws);
            Recoverable(ReadIn(w, id), cols, plain, s.value)
    decreases |cols|
  {
    if cols != [] {
      var c := cols[0];
      var end := EnsureAll(v, id, cols, plain, draws).0;
      if c !in plain {
        EnsureAllRecoverable(v, id, cols[1..], plain, draws);
        EnsureAllShape(v, id, cols[1..], plain, draws);
        RecoverableSkip(ReadIn(end, id), cols, plain, EnsureAll(v, id, cols, plain, draws).1.value);
      } else {
        var d := DrawFor(draws, c);
        var (w, s) := EnsureEncrypted(v, d, plain[c], ColumnAad(c, id));
        EnsureThenRead(v, d, plain[c], c, id);
        EnsureAllRecoverable(w, id, cols[1..], plain, draws);
        EnsureAllGrows(w, id, cols[1..], plain, draws);
        GrownReads(w, end, id, c, s.value, plain[c]);
        RecoverableNext(ReadIn(end, id), cols, plain, EnsureAll(w, id, cols[1..], plain, draws).1.value, s.value);
      }
    }
  }

  lemma RecoverableSkip(opens: Reading, cols: seq<Column>, plain: map<Column, Bytes>, sealed: map<Column, Bytes>)
    requires cols != [] && cols[0] !in plain && cols[0] !in sealed
    requires Recoverable(opens, cols[1..], plain, sealed)
    ensures Recoverable(opens, cols, plain, sealed)
  {
    assert cols == [cols[0]] + cols[1..];
  }

  lemma RecoverableStable(v: Vault, w: Vault, id: Uuid, cols: seq<Column>, plain: map<Column, Bytes>,
                          sealed: map<Column, Bytes>)
    requires Recoverable(ReadIn(v, id), cols, plain, sealed) && Keeps(v, w, HandlesOf(sealed))
    ensures Recoverable(ReadIn(w, id), cols, plain, sealed)
  {
    forall c | c in cols && c in plain ensures ReadIn(w, id)(c, sealed[c], plain[c]) {
      ReadStable(v, w, HandlesOf(sealed), id, c, sealed[c], plain[c]);
    }
  }

  lemma RecoverableElsewhere(opens: Reading, cols: seq<Column>, plain: map<Column, Bytes>, sealed: map<Column, Bytes>,
                             now: map<Column, Bytes>)
    requires Recoverable(opens, cols, plain, sealed) && RedeemedOnion !in cols
    requires SameIssue(sealed, now)
    ensures Recoverable(opens, cols, plain, now)
  {
  }

  /** Reading all columns is reading each. */
  lemma {:induction false} DecryptAllReads(v: Vault, id: Uuid, cols: seq<Column>, plain: map<Column, Bytes>,
                                           sealed: map<Column, Bytes>)
    requires Recoverable(ReadIn(v, id), cols, plain, sealed) && REQUIRED <= plain.Keys
    ensures DecryptAll(v, id, cols, sealed).Ok?
    ensures Selected(cols, plain, DecryptAll(v, id, cols, sealed).value)
    decreases |cols|
  {
    if cols != [] {
      var c := cols[0];
      assert cols == [c] + cols[1..];
      DecryptAllReads(v, id, cols[1..], plain, sealed);
      if c in plain {
        assert ReadIn(v, id)(c, sealed[c], plain[c]);
      }
    }
  }

  ghost predicate Selected(cols: seq<Column>, plain: map<Column, Bytes>, read: map<Column, Bytes>) {
    forall c :: (c in read <==> c in cols && c in plain) && (c in read ==> read[c] == plain[c])
  }

  lemma InOrder(c: Column)
    ensures c in FETCH_ORDER <==> c in REQUIRED + {RedeemToken}
    ensures c in ISSUE_ORDER <==> c in REQUIRED + {RedeemToken}
  {
    assert FETCH_ORDER[0] == PublicKey && FETCH_ORDER[1] == SecretPath && FETCH_ORDER[2] == RedeemToken
        && FETCH_ORDER[3] == NonceDigest && FETCH_ORDER[4] == QuoteHash && FETCH_ORDER[5] == TlsDigest;
    assert ISSUE_ORDER[0] == PublicKey && ISSUE_ORDER[1] == SecretPath && ISSUE_ORDER[2] == NonceDigest
        && ISSUE_ORDER[3] == QuoteHash && ISSUE_ORDER[4] == RedeemToken && ISSUE_ORDER[5] == TlsDigest;
  }

  lemma WholeTicket(plain: Plain, read: map<Column, Bytes>)
    requires Selected(FETCH_ORDER, plain, read)
    ensures read == plain
  {
    forall c ensures c in read <==> c in plain { InOrder(c); }
  }

  lemma FetchSealed(db: Db, id: Uuid, plain: Plain, sealed: map<Column, Bytes>)
    requires id in db.tickets && Recoverable(ReadIn(db.vault, id), FETCH_ORDER, plain, sealed)
    requires SameIssue(sealed, db.tickets[id].sealed)
    ensures FetchTicket(db, id) == Ok(Some(TicketView(id, db.tickets[id], plain)))
  {
    var now := db.tickets[id].sealed;
    InOrder(RedeemedOnion);
    RecoverableElsewhere(ReadIn(db.vault, id), FETCH_ORDER, plain, sealed, now);
    AllColumnsRead(db.vault, id, plain, now);
  }

  lemma AllColumnsRead(v: Vault, id: Uuid, plain: Plain, now: map<Column, Bytes>)
    requires Recoverable(ReadIn(v, id), FETCH_ORDER, plain, now)
    ensures DecryptAll(v, id, FETCH_ORDER, now) == Ok(plain)
  {
    DecryptAllReads(v, id, FETCH_ORDER, plain, now);
    WholeTicket(plain, DecryptAll(v, id, FETCH_ORDER, now).value);
  }

  lemma RecoverableOrder(opens: Reading, plain: map<Column, Bytes>, sealed: map<Column, Bytes>)
    requires Recoverable(opens, ISSUE_ORDER, plain, sealed)
    ensures Recoverable(opens, FETCH_ORDER, plain, sealed)
  {
    forall c | c in FETCH_ORDER ensures c in ISSUE_ORDER { InOrder(c); }
  }

  /** What an issue that succeeded put into the table, and what it gave back. */
  lemma IssuedRow(db: Db, ticket: NewTicket, draws: Draws)
    requires IssueTicket(db, ticket, draws).1.Ok?
    ensures var (after, receipt) := IssueTicket(db, ticket, draws);
            var (vault, sealed) := EnsureAll(db.vault, ticket.id, ISSUE_ORDER, ticket.plain, draws);
            && after.vault == vault && ticket.id in after.tickets
            && sealed == Ok(after.tickets[ticket.id].sealed) && Issued(ticket, db.clock, after.tickets[ticket.id])
            && receipt == Ok(Receipt(ticket, after.tickets[ticket.id]))
  {
    IssueVault(db, ticket, draws);
  }

  /** Everything a ticket was issued with that is stored as it came. */
  predicate Issued(ticket: NewTicket, now: int, row: Ticket) {
    row.credential == ticket.credential && row.attestation == ticket.attestation
    && row.tokenHash == ticket.tokenHash && row.info == ticket.info && row.createdAt == now
  }

  /** The later calls are lawful, keep the row and the broker handles its columns name, and overwrite none
      of its columns. Other rows may be tampered with, and other handles forgotten. */
  ghost predicate Undisturbed(db: Db, later: seq<Event>, id: Uuid) {
    LawfulRun(db, later) && StaysPresent(db, later, id) && id in db.tickets
    && forall i :: 0 <= i < |later| ==>
         !Tampers(later[i], id) && !Forgets(later[i], HandlesOf(db.tickets[id].sealed))
  }

  /** A verification fetch returns exactly these protected values. */
  predicate ReadsBack(db: Db, id: Uuid, plain: map<Column, Bytes>) {
    var view := FetchTicket(db, id);
    view.Ok? && view.value.Some? && view.value.value.plain == plain
  }

  /** A ticket issued with text fields is read back, by a verification fetch after any undisturbed later
      calls, with exactly the protected values it was issued with (an absent redeem token included) if and
      only if none of its fields was an envelope. Its row keeps the identity it was issued with. */
  lemma TicketRoundTrip(db: Db, ticket: NewTicket, draws: Draws, later: seq<Event>)
    requires Framed(db.vault) && LawfulEvent(db, Issue(ticket, draws)) && Texts(ticket.plain)
    requires IssueTicket(db, ticket, draws).1.Ok?
    requires Undisturbed(IssueTicket(db, ticket, draws).0, later, ticket.id)
    ensures var end := Run(IssueTicket(db, ticket, draws).0, later);
            && ticket.id in end.tickets
            && Issued(ticket, db.clock, end.tickets[ticket.id])
            && (ReadsBack(end, ticket.id, ticket.plain) <==> NoEnvelopes(ticket.plain))
  {
    var issued := IssueTicket(db, ticket, draws).0;
    var end := Run(issued, later);
    var sealed := issued.tickets[ticket.id].sealed;
    IssueOutcome(db, ticket, draws);
    TicketLife(issued, later, ticket.id);
    RunKeepsHandles(issued, later, HandlesOf(sealed));
    ReadsBackExactly(issued.vault, end, ticket.id, ticket.plain, sealed);
  }

  /** The columns of a row read, in this vault, as these fields, or hold the envelopes that some of the
      fields were. */
  ghost predicate Outcome(v: Vault, id: Uuid, plain: map<Column, Bytes>, sealed: map<Column, Bytes>) {
    && (NoEnvelopes(plain) ==> Recoverable(ReadIn(v, id), FETCH_ORDER, plain, sealed))
    && (forall c :: c in plain && IsPayload(plain[c]) ==> c != RedeemedOnion && c in sealed && sealed[c] == plain[c])
  }

  lemma IssueOutcome(db: Db, ticket: NewTicket, draws: Draws)
    requires LawfulEvent(db, Issue(ticket, draws)) && Texts(ticket.plain)
    requires IssueTicket(db, ticket, draws).1.Ok?
    ensures var after := IssueTicket(db, ticket, draws).0;
            && ticket.id in after.tickets && Issued(ticket, db.clock, after.tickets[ticket.id])
            && GrowsWell(db.vault, after.vault)
            && Outcome(after.vault, ticket.id, ticket.plain, after.tickets[ticket.id].sealed)
  {
    IssuedRow(db, ticket, draws);
    var (vault, sealed) := EnsureAll(db.vault, ticket.id, ISSUE_ORDER, ticket.plain, draws);
    EnsureAllGrows(db.vault, ticket.id, ISSUE_ORDER, ticket.plain, draws);
    if NoEnvelopes(ticket.plain) {
      EnsureAllRecoverable(db.vault, ticket.id, ISSUE_ORDER, ticket.plain, draws);
      RecoverableOrder(ReadIn(vault, ticket.id), ticket.plain, sealed.value);
    }
    forall c | c in ticket.plain && IsPayload(ticket.plain[c])
      ensures c != RedeemedOnion && c in sealed.value && sealed.value[c] == ticket.plain[c]
    {
      EnvelopeKept(db.vault, ticket, draws, c);
    }
  }

  lemma ReadsBackExactly(v: Vault, end: Db, id: Uuid, plain: Plain, sealed: map<Column, Bytes>)
    requires Outcome(v, id, plain, sealed) && Keeps(v, end.vault, HandlesOf(sealed)) && Framed(end.vault)
    requires id in end.tickets && SameIssue(sealed, end.tickets[id].sealed)
    ensures ReadsBack(end, id, plain) <==> NoEnvelopes(plain)
  {
    if NoEnvelopes(plain) {
      RecoverableStable(v, end.vault, id, FETCH_ORDER, plain, sealed);
      FetchSealed(end, id, plain, sealed);
    } else if ReadsBack(end, id, plain) {
      var c :| c in plain && IsPayload(plain[c]);
      EnvelopeNotReturned(end, id, c, plain[c]);
    }
  }

  /** A column that holds a text is never read as that text. */
  lemma EnvelopeNotReturned(db: Db, id: Uuid, c: Column, text: Bytes)
    requires Framed(db.vault) && id in db.tickets && c in db.tickets[id].sealed && db.tickets[id].sealed[c] == text
    requires FetchTicket(db, id).Ok?
    ensures var view := FetchTicket(db, id).value.value.plain;
            c in view ==> |view[c]| < |text| && Decrypt(db.vault, text, ColumnAad(c, id)) == Ok(view[c])
  {
    var sealed := db.tickets[id].sealed;
    DecryptAllMeans(db.vault, id, FETCH_ORDER, sealed);
    if c in FetchTicket(db, id).value.value.plain {
      PresentOpens(db.vault, text, ColumnAad(c, id));
      DecryptShorter(db.vault, text, ColumnAad(c, id));
    }
  }

  lemma EnvelopeKept(v: Vault, ticket: NewTicket, draws: Draws, c: Column)
    requires EnsureAll(v, ticket.id, ISSUE_ORDER, ticket.plain, draws).1.Ok?
    requires c in ticket.plain && IsPayload(ticket.plain[c])
    ensures var sealed := EnsureAll(v, ticket.id, ISSUE_ORDER, ticket.plain, draws).1.value;
            c in FETCH_ORDER && c != RedeemedOnion && c in sealed && sealed[c] == ticket.plain[c]
  {
    InOrder(c);
    EnvelopeFields(v, ticket.id, ISSUE_ORDER, ticket.plain, draws, c);
  }

  /** What a later fetch does with a field that was an envelope: it opens that envelope in the column's own
      context, and so returns, if anything, a shorter text that some call sealed for this very column. */
  lemma EnvelopeFieldRead(earlier: seq<Event>, ticket: NewTicket, draws: Draws, later: seq<Event>, c: Column)
    requires var db := Run(EMPTY, earlier);
             var issued := IssueTicket(db, ticket, draws);
             && LawfulRun(EMPTY, earlier) && LawfulEvent(db, Issue(ticket, draws)) && issued.1.Ok?
             && LawfulRun(issued.0, later) && StaysPresent(issued.0, later, ticket.id)
             && forall i :: 0 <= i < |later| ==> !Tampers(later[i], ticket.id)
    requires c in ticket.plain && IsPayload(ticket.plain[c])
    requires FetchTicket(Run(EMPTY, earlier + [Issue(ticket, draws)] + later), ticket.id).Ok?
    ensures var all := earlier + [Issue(ticket, draws)] + later;
            var view := FetchTicket(Run(EMPTY, all), ticket.id).value;
            && view.Some? && c in view.value.plain && |view.value.plain[c]| < |ticket.plain[c]|
            && Genuine(all, c, ticket.id, view.value.plain[c])
  {
    var all := earlier + [Issue(ticket, draws)] + later;
    var db := Run(EMPTY, earlier);
    var issued := IssueTicket(db, ticket, draws).0;
    RunMiddle(EMPTY, earlier, Issue(ticket, draws), later);
    IssuedRow(db, ticket, draws);
    EnvelopeKept(db.vault, ticket, draws, c);
    TicketLife(issued, later, ticket.id);
    RunStaysWell(earlier);
    StepStaysWell(db, Issue(ticket, draws));
    RunKeepsHandles(issued, later, {});
    FetchedEnvelope(Run(issued, later), ticket.id, c, ticket.plain[c]);
    TicketContextBinding(all, ticket.id);
  }

  lemma FetchedEnvelope(end: Db, id: Uuid, c: Column, text: Bytes)
    requires Framed(end.vault) && id in end.tickets && FetchTicket(end, id).Ok?
    requires c in FETCH_ORDER && c in end.tickets[id].sealed && end.tickets[id].sealed[c] == text
    ensures var view := FetchTicket(end, id).value;
            view.Some? && c in view.value.plain && |view.value.plain[c]| < |text|
  {
    DecryptAllMeans(end.vault, id, FETCH_ORDER, end.tickets[id].sealed);
    EnvelopeNotReturned(end, id, c, text);
  }

  lemma RunMiddle(db: Db, a: seq<Event>, e: Event, b: seq<Event>)
    ensures Run(db, a + [e] + b) == Run(Step(Run(db, a), e), b)
  {
    RunAppend(db, a + [e], b);
    RunLast(db, a, e);
  }

  lemma RunLast(db: Db, a: seq<Event>, e: Event)
    ensures Run(db, a + [e]) == Step(Run(db, a), e)
  {
    assert (a + [e])[..|a + [e]| - 1] == a;
  }

  lemma RunOne(db: Db, e: Event)
    ensures Run(db, [e]) == Step(db, e)
  {
    assert [e][..0] == [];
  }

  lemma {:induction false} RunAppend(db: Db, a: seq<Event>, b: seq<Event>)
    ensures Run(db, a + b) == Run(Run(db, a), b)
    decreases |b|
  {
    if b == [] {
      assert a + b == a;
    } else {
      var n := |b| - 1;
      assert (a + b)[..|a + b| - 1] == a + b[..n];
      RunAppend(db, a, b[..n]);
    }
  }

  // ---------- Record a session, then fetch ----------

  predicate SessionStays(db: Db, events: seq<Event>, id: Uuid) {
    id in Run(db, events).sessions && (events != [] ==> SessionStays(db, events[..|events| - 1], id))
  }

  predicate TampersSession(e: Event, id: Uuid) { e.TamperSession? && e.id == id }

  lemma IssueLeavesSessions(db: Db, ticket: NewTicket, draws: Draws)
    ensures IssueTicket(db, ticket, draws).0.sessions == db.sessions
  {
    var (vault, sealed) := EnsureAll(db.vault, ticket.id, ISSUE_ORDER, ticket.plain, draws);
    if sealed.Ok? {
      InsertLeavesSessions(db.(vault := vault), ticket, sealed.value);
    }
  }

  lemma InsertLeavesSessions(db: Db, ticket: NewTicket, sealed: map<Column, Bytes>)
    ensures InsertTicket(db, ticket, sealed).0.sessions == db.sessions
  {
  }

  lemma RedeemLeavesSessions(db: Db, id: Uuid, onion: Bytes, draw: Draw)
    ensures MarkRedeemed(db, id, onion, draw).0.sessions == db.sessions
  {
    var (vault, stored) := SealRedemption(db.vault, id, onion, draw);
  }

  lemma InsertedSession(db: Db, id: Uuid, row: Session, other: Uuid)
    ensures other in db.sessions ==>
              var after := InsertSession(db, id, row).0.sessions;
              other in after && after[other] == db.sessions[other]
  {
  }

  lemma SessionStep(db: Db, e: Event, id: Uuid)
    requires id in db.sessions && id in Step(db, e).sessions && !TampersSession(e, id)
    ensures Step(db, e).sessions[id] == db.sessions[id]
  {
    if e.Issue? {
      IssueLeavesSessions(db, e.ticket, e.draws);
    } else if e.Redeem? {
      RedeemLeavesSessions(db, e.id, e.onion, e.draw);
    } else if e.Record? {
      var (vault, onion) := EnsureOptional(db.vault, e.draw, e.session.clientOnion, ColumnAad(ClientOnion, e.id));
      if onion.Ok? {
        InsertedSession(db.(vault := vault), e.id, e.session.(clientOnion := onion.value), id);
      }
    }
  }

  lemma {:induction false} SessionLife(db: Db, events: seq<Event>, id: Uuid)
    requires SessionStays(db, events, id)
    requires forall i :: 0 <= i < |events| ==> !TampersSession(events[i], id)
    ensures id in db.sessions && Run(db, events).sessions[id] == db.sessions[id]
  {
    if events != [] {
      var front := events[..|events| - 1];
      SessionLife(db, front, id);
      SessionStep(Run(db, front), events[|events| - 1], id);
    }
  }

  lemma RecordedRow(db: Db, id: Uuid, session: Session, draw: Draw)
    requires RecordSession(db, id, session, draw).1.Ok?
    ensures var after := RecordSession(db, id, session, draw).0;
            var (vault, onion) := EnsureOptional(db.vault, draw, session.clientOnion, ColumnAad(ClientOnion, id));
            after.vault == vault && onion.Ok? && id in after.sessions
            && after.sessions[id] == session.(clientOnion := onion.value)
  {
  }

  /** How the stored client onion of a new session reads. */
  lemma RecordedOnion(db: Db, id: Uuid, onion: Bytes, draw: Draw)
    requires LawfulFor(db.vault, draw, onion) && Utf8(onion)
    requires EnsureEncrypted(db.vault, draw, onion, ColumnAad(ClientOnion, id)).1.Ok?
    ensures var (w, stored) := EnsureEncrypted(db.vault, draw, onion, ColumnAad(ClientOnion, id));
            && GrowsWell(db.vault, w)
            && if IsPayload(onion) then stored.value == onion else ReadIn(w, id)(ClientOnion, stored.value, onion)
  {
    EnsureGrows(db.vault, draw, onion, ColumnAad(ClientOnion, id));
    if !IsPayload(onion) {
      EnsureThenRead(db.vault, draw, onion, ClientOnion, id);
    }
  }

  function OnionHandles(onion: Option<Bytes>): set<Bytes> {
    if onion.Some? && HandleOf(onion.value).Some? then {HandleOf(onion.value).value} else {}
  }

  predicate SessionReadsBack(db: Db, id: Uuid, onion: Option<Bytes>) {
    var view := FetchSession(db, id);
    view.Ok? && view.value.Some? && view.value.value.clientOnion == onion
  }

  /** The later calls are lawful, keep the row and the handle its onion names, and do not overwrite it. */
  ghost predicate SessionUndisturbed(db: Db, later: seq<Event>, id: Uuid) {
    LawfulRun(db, later) && SessionStays(db, later, id) && id in db.sessions
    && forall i :: 0 <= i < |later| ==>
         !TampersSession(later[i], id) && !Forgets(later[i], OnionHandles(db.sessions[id].clientOnion))
  }

  /** A recorded session is read back, by a fetch after any undisturbed later calls, with the client
      onion it was recorded with (absent included) if and only if that was not an envelope. Its other
      fields stay. */
  lemma SessionRoundTrip(db: Db, id: Uuid, session: Session, draw: Draw, later: seq<Event>)
    requires Framed(db.vault) && LawfulEvent(db, Record(id, session, draw))
    requires RecordSession(db, id, session, draw).1.Ok?
    requires session.clientOnion.Some? ==> Utf8(session.clientOnion.value)
    requires SessionUndisturbed(RecordSession(db, id, session, draw).0, later, id)
    ensures var end := Run(RecordSession(db, id, session, draw).0, later);
            && id in end.sessions && end.sessions[id].(clientOnion := session.clientOnion) == session
            && (SessionReadsBack(end, id, session.clientOnion)
                <==> session.clientOnion.None? || !IsPayload(session.clientOnion.value))
  {
    var recorded := RecordSession(db, id, session, draw).0;
    var end := Run(recorded, later);
    RecordedRow(db, id, session, draw);
    SessionLife(recorded, later, id);
    RunKeepsHandles(recorded, later, OnionHandles(recorded.sessions[id].clientOnion));
    if session.clientOnion.Some? {
      var onion, stored := session.clientOnion.value, recorded.sessions[id].clientOnion.value;
      RecordedOnion(db, id, onion, draw);
      StoredOnion(recorded.vault, end, id, onion, stored);
    }
  }

  lemma StoredOnion(v: Vault, end: Db, id: Uuid, onion: Bytes, stored: Bytes)
    requires id in end.sessions && end.sessions[id].clientOnion == Some(stored)
    requires Keeps(v, end.vault, OnionHandles(Some(stored))) && Framed(end.vault)
    requires if IsPayload(onion) then stored == onion else ReadIn(v, id)(ClientOnion, stored, onion)
    ensures SessionReadsBack(end, id, Some(onion)) <==> !IsPayload(onion)
  {
    var aad := ColumnAad(ClientOnion, id);
    if IsPayload(onion) {
      if DecryptPresent(end.vault, stored, aad).Ok? {
        PresentOpens(end.vault, stored, aad);
        DecryptShorter(end.vault, stored, aad);
      }
    } else {
      ReadStable(v, end.vault, OnionHandles(Some(stored)), id, ClientOnion, stored, onion);
    }
  }

  // ---------- Redemption ----------

  /** A successful redemption stamps the row with the present time, whatever an earlier redemption left
      there. An onion that already is an envelope, of either version, is stored as it came; any other
      is sealed so that it opens in the column's own context. */
  lemma RedemptionExact(db: Db, id: Uuid, onion: Bytes, draw: Draw)
    requires id in db.tickets && MarkRedeemed(db, id, onion, draw).1.Ok?
    requires LawfulEvent(db, Redeem(id, onion, draw)) && Utf8(onion)
    ensures var after := MarkRedeemed(db, id, onion, draw).0;
            && id in after.tickets && after.tickets[id].redeemedAt == Some(db.clock)
            && RedeemedOnion in after.tickets[id].sealed
            && var stored := after.tickets[id].sealed[RedeemedOnion];
               if IsPayload(onion) then stored == onion
               else DecryptPresent(after.vault, stored, ColumnAad(RedeemedOnion, id)) == Ok(onion)
  {
    if !IsPayload(onion) {
      EnsureThenOpen(db.vault, draw, onion, ColumnAad(RedeemedOnion, id));
    }
  }

  // ---------- Fetches that use up redeem tokens ----------

  /** Reading these columns unwraps this broker handle. */
  ghost predicate Unwraps(cols: seq<Column>, sealed: map<Column, Bytes>, handle: Bytes) {
    exists c :: c in cols && c in sealed && HandleOf(sealed[c]) == Some(handle)
  }

  lemma UnwrapForgotten(v: Vault, handle: Bytes, text: Bytes, aad: Bytes)
    requires DecryptPresent(v, text, aad).Ok?
    ensures var w := v.(broker := v.broker - {handle});
            if HandleOf(text) == Some(handle) then DecryptPresent(w, text, aad).Err?
            else DecryptPresent(w, text, aad) == DecryptPresent(v, text, aad)
  {
    var w := v.(broker := v.broker - {handle});
    if HandleOf(text) == Some(handle) {
      DecryptForgotten(v, handle, text, aad);
    } else {
      PresentStable(v, w, OnionHandles(Some(text)), text, aad);
    }
  }

  lemma {:induction false} DecryptAllForgotten(v: Vault, handle: Bytes, id: Uuid, cols: seq<Column>,
                                               sealed: map<Column, Bytes>)
    requires DecryptAll(v, id, cols, sealed).Ok?
    ensures var w := v.(broker := v.broker - {handle});
            if Unwraps(cols, sealed, handle)
            then DecryptAll(w, id, cols, sealed).Err?
            else DecryptAll(w, id, cols, sealed) == DecryptAll(v, id, cols, sealed)
    decreases |cols|
  {
    if cols != [] {
      var c := cols[0];
      assert cols == [c] + cols[1..];
      DecryptAllForgotten(v, handle, id, cols[1..], sealed);
      if c in sealed {
        UnwrapForgotten(v, handle, sealed[c], ColumnAad(c, id));
      }
    }
  }

  /** Once the broker has forgotten a handle, as it does for a token that can be redeemed only once, a ticket
      that could be fetched before fails if one of its columns names that handle, and is otherwise fetched
      with the same result. So a second fetch fails exactly when the first used up one of its tokens. */
  lemma ForgottenFetch(db: Db, id: Uuid, handle: Bytes)
    requires id in db.tickets && FetchTicket(db, id).Ok?
    ensures var after := Step(db, Forget(handle));
            if Unwraps(FETCH_ORDER, db.tickets[id].sealed, handle) then FetchTicket(after, id).Err?
            else FetchTicket(after, id) == FetchTicket(db, id)
  {
    var after := db.(vault := db.vault.(broker := db.vault.broker - {handle}));
    ForgetStep(db, handle);
    FetchDecrypts(db, after, id);
    DecryptAllForgotten(db.vault, handle, id, FETCH_ORDER, db.tickets[id].sealed);
  }

  lemma ForgetStep(db: Db, handle: Bytes)
    ensures Step(db, Forget(handle)) == db.(vault := db.vault.(broker := db.vault.broker - {handle}))
  {
  }

  lemma FetchDecrypts(db: Db, after: Db, id: Uuid)
    requires id in db.tickets && after.tickets == db.tickets && FetchTicket(db, id).Ok?
    ensures var sealed := db.tickets[id].sealed;
            && DecryptAll(db.vault, id, FETCH_ORDER, sealed).Ok?
            && (DecryptAll(after.vault, id, FETCH_ORDER, sealed).Err? ==> FetchTicket(after, id).Err?)
            && (DecryptAll(after.vault, id, FETCH_ORDER, sealed) == DecryptAll(db.vault, id, FETCH_ORDER, sealed)
                ==> FetchTicket(after, id) == FetchTicket(db, id))
  {
  }

  // ---------- Fields that already are envelopes ----------

  /** An issue succeeds only if no field is a v1 envelope; a field that already is a v2 envelope is
      stored as it came, unchecked. */
  lemma {:induction false} EnvelopeFields(v: Vault, id: Uuid, cols: seq<Column>, plain: map<Column, Bytes>,
                                          draws: Draws, c: Column)
    requires EnsureAll(v, id, cols, plain, draws).1.Ok? && c in cols && c in plain
    ensures var sealed := EnsureAll(v, id, cols, plain, draws).1.value;
            c in sealed && (IsPayload(plain[c]) ==> IsPayloadV2(plain[c]) && sealed[c] == plain[c])
    decreases |cols|
  {
    assert cols == [cols[0]] + cols[1..];
    EnsureAllShape(v, id, cols, plain, draws);
    if cols[0] !in plain {
      EnvelopeFields(v, id, cols[1..], plain, draws, c);
    } else if cols[0] != c {
      var w := EnsureEncrypted(v, DrawFor(draws, cols[0]), plain[cols[0]], ColumnAad(cols[0], id)).0;
      EnvelopeFields(w, id, cols[1..], plain, draws, c);
    }
  }
}

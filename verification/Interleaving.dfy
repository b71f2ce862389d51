/** Calls of the ticket store taken apart. A call that seals runs as one Seal for each field and then as the
    call itself, with the envelopes in place of the fields; other calls may come between any two of them. */
module Interleaving {
  import opened Text
  import opened Envelope
  import opened RecordContext
  import opened SealedVault
  import opened TicketStore
  import opened StoreInvariants
  import opened ProtectedRecords
  import opened RoundTrip

  // ---------- An issue is its seals and its statement ----------

  /** Fields that already are envelopes pass through, and the vault stays as it is. */
  lemma {:induction false} EnvelopesPass(v: Vault, id: Uuid, cols: seq<Column>, sealed: map<Column, Bytes>,
                                         draws: Draws)
    requires forall c :: c in sealed ==> IsPayloadV2(sealed[c])
    ensures var (w, s) := EnsureAll(v, id, cols, sealed, draws);
            w == v && s.Ok? && Selected(cols, sealed, s.value)
    decreases |cols|
  {
    if cols != [] {
      assert cols == [cols[0]] + cols[1..];
      EnvelopesPass(v, id, cols[1..], sealed, draws);
    }
  }

  lemma WholeRow(sealed: Plain, stored: map<Column, Bytes>)
    requires Selected(ISSUE_ORDER, sealed, stored)
    ensures stored == sealed
  {
    forall c ensures c in stored <==> c in sealed { InOrder(c); }
  }

  /** The call with envelopes in place of the fields is just its INSERT statement. */
  lemma SealedInsert(db: Db, ticket: NewTicket, sealed: Plain, draws: Draws)
    requires forall c :: c in sealed ==> IsPayloadV2(sealed[c])
    ensures IssueTicket(db, ticket.(plain := sealed), draws).0 == InsertTicket(db, ticket, sealed).0
    ensures IssueTicket(db, ticket.(plain := sealed), draws).1.Ok? <==> InsertTicket(db, ticket, sealed).1.Ok?
  {
    EnvelopesPass(db.vault, ticket.id, ISSUE_ORDER, sealed, draws);
    WholeRow(sealed, EnsureAll(db.vault, ticket.id, ISSUE_ORDER, sealed, draws).1.value);
    InsertIgnoresPlain(db, ticket, sealed);
  }

  lemma InsertIgnoresPlain(db: Db, ticket: NewTicket, sealed: Plain)
    ensures InsertTicket(db, ticket.(plain := sealed), sealed) == InsertTicket(db, ticket, sealed)
  {
  }

  /** One Seal for each field of the listed columns. */
  function SealsOf(id: Uuid, cols: seq<Column>, plain: map<Column, Bytes>, draws: Draws): seq<Event> {
    if cols == [] then []
    else
      (if cols[0] in plain then [Seal(cols[0], id, plain[cols[0]], DrawFor(draws, cols[0]))] else [])
      + SealsOf(id, cols[1..], plain, draws)
  }

  lemma {:induction false} SealsRun(db: Db, id: Uuid, cols: seq<Column>, plain: map<Column, Bytes>, draws: Draws)
    requires EnsureAll(db.vault, id, cols, plain, draws).1.Ok?
    ensures Run(db, SealsOf(id, cols, plain, draws)) == db.(vault := EnsureAll(db.vault, id, cols, plain, draws).0)
    decreases |cols|
  {
    if cols != [] {
      var rest := SealsOf(id, cols[1..], plain, draws);
      if cols[0] !in plain {
        assert SealsOf(id, cols, plain, draws) == rest;
        SealsRun(db, id, cols[1..], plain, draws);
      } else {
        var e := Seal(cols[0], id, plain[cols[0]], DrawFor(draws, cols[0]));
        RunAppend(db, [e], rest);
        RunOne(db, e);
        SealsRun(Step(db, e), id, cols[1..], plain, draws);
      }
    }
  }

  /** What an issue inserts: exactly what it sealed. */
  lemma IssueInserts(db: Db, ticket: NewTicket, draws: Draws, sealed: Plain)
    requires EnsureAll(db.vault, ticket.id, ISSUE_ORDER, ticket.plain, draws).1 == Ok(sealed)
    ensures var w := EnsureAll(db.vault, ticket.id, ISSUE_ORDER, ticket.plain, draws).0;
            IssueTicket(db, ticket, draws).0 == InsertTicket(db.(vault := w), ticket, sealed).0
  {
  }

  lemma SealedFields(v: Vault, ticket: NewTicket, draws: Draws) returns (sealed: Plain)
    requires AllSealable(ISSUE_ORDER, ticket.plain, draws)
    ensures EnsureAll(v, ticket.id, ISSUE_ORDER, ticket.plain, draws).1 == Ok(sealed)
    ensures forall c :: c in sealed ==> IsPayloadV2(sealed[c])
  {
    EnsureAllSucceeds(v, ticket.id, ISSUE_ORDER, ticket.plain, draws);
    EnsureAllShape(v, ticket.id, ISSUE_ORDER, ticket.plain, draws);
    sealed := AsPlain(ticket.plain, EnsureAll(v, ticket.id, ISSUE_ORDER, ticket.plain, draws).1.value);
  }

  /** Without anything between its steps, the call taken apart is the call: the same tables, the same broker,
      the same envelopes. */
  lemma IssueDecomposes(db: Db, ticket: NewTicket, draws: Draws) returns (sealed: Plain)
    requires AllSealable(ISSUE_ORDER, ticket.plain, draws)
    ensures var before := Run(db, SealsOf(ticket.id, ISSUE_ORDER, ticket.plain, draws));
            IssueTicket(before, ticket.(plain := sealed), map[]).0 == IssueTicket(db, ticket, draws).0
  {
    sealed := SealedFields(db.vault, ticket, draws);
    var w := EnsureAll(db.vault, ticket.id, ISSUE_ORDER, ticket.plain, draws).0;
    SealsRun(db, ticket.id, ISSUE_ORDER, ticket.plain, draws);
    SealedInsert(db.(vault := w), ticket, sealed, map[]);
    IssueInserts(db, ticket, draws, sealed);
  }

  lemma AsPlain(plain: Plain, sealed: map<Column, Bytes>) returns (same: Plain)
    requires forall c :: c in sealed <==> c in ISSUE_ORDER && c in plain
    ensures same == sealed
  {
    forall c ensures c in sealed <==> c in plain { InOrder(c); }
    same := sealed;
  }

  // ---------- What a sealed field reads as, at any later moment ----------

  /** A lawful run, seen from one of its events. */
  lemma {:induction false} LawfulMiddle(db: Db, a: seq<Event>, e: Event, b: seq<Event>)
    requires LawfulRun(db, a + [e] + b)
    ensures LawfulEvent(Run(db, a), e) && LawfulRun(Step(Run(db, a), e), b)
    decreases |b|
  {
    var all := a + [e] + b;
    if b == [] {
      assert all[..|all| - 1] == a;
    } else {
      var n := |b| - 1;
      assert all[..|all| - 1] == a + [e] + b[..n];
      LawfulMiddle(db, a, e, b[..n]);
      RunMiddle(db, a, e, b[..n]);
    }
  }

  /** Event i of the run sealed this field of this row, and this text came of it. */
  ghost predicate SealedAs(events: seq<Event>, i: nat, c: Column, id: Uuid, p: Bytes, text: Bytes) {
    && i < |events| && events[i].Seal? && events[i] == Seal(c, id, p, events[i].draw)
    && EnsureEncrypted(Run(EMPTY, events[..i]).vault, events[i].draw, p, ColumnAad(c, id)).1 == Ok(text)
  }

  /** After event i nothing makes the broker forget the handle this text names. */
  ghost predicate Remembered(events: seq<Event>, i: nat, text: Bytes) {
    forall j :: i < j < |events| ==> !Forgets(events[j], OnionHandles(Some(text)))
  }

  lemma RunAround(db: Db, events: seq<Event>, i: nat)
    requires LawfulRun(db, events) && i < |events|
    ensures LawfulEvent(Run(db, events[..i]), events[i])
    ensures LawfulRun(Step(Run(db, events[..i]), events[i]), events[i + 1..])
    ensures Run(db, events) == Run(Step(Run(db, events[..i]), events[i]), events[i + 1..])
  {
    var a, e, b := events[..i], events[i], events[i + 1..];
    assert events == a + [e] + b;
    LawfulMiddle(db, a, e, b);
    RunMiddle(db, a, e, b);
  }

  /** In any lawful run, whatever other calls came between: a text field that was sealed for a column of a
      row reads there as itself, at every later moment, if and only if it was not an envelope already. */
  lemma SealedFieldReads(events: seq<Event>, i: nat, c: Column, id: Uuid, p: Bytes, text: Bytes)
    requires LawfulRun(EMPTY, events) && SealedAs(events, i, c, id, p, text) && Utf8(p)
    requires Remembered(events, i, text)
    ensures DecryptPresent(Run(EMPTY, events).vault, text, ColumnAad(c, id)) == Ok(p) <==> !IsPayload(p)
    ensures IsPayload(p) ==> text == p
    ensures IsPayloadV2(text)
  {
    RunAround(EMPTY, events, i);
    RunStaysWell(events);
    var later := events[i + 1..];
    forall j | 0 <= j < |later| ensures !Forgets(later[j], OnionHandles(Some(text))) {
      assert later[j] == events[i + 1 + j];
    }
    FieldReadsLater(Run(EMPTY, events[..i]), events[i].draw, c, id, p, text, later, Run(EMPTY, events));
  }

  lemma FieldReadsLater(before: Db, d: Draw, c: Column, id: Uuid, p: Bytes, text: Bytes, later: seq<Event>, end: Db)
    requires LawfulFor(before.vault, d, p) && Utf8(p) && Framed(end.vault)
    requires EnsureEncrypted(before.vault, d, p, ColumnAad(c, id)).1 == Ok(text)
    requires var after := before.(vault := EnsureEncrypted(before.vault, d, p, ColumnAad(c, id)).0);
             LawfulRun(after, later) && end == Run(after, later)
    requires forall j :: 0 <= j < |later| ==> !Forgets(later[j], OnionHandles(Some(text)))
    ensures DecryptPresent(end.vault, text, ColumnAad(c, id)) == Ok(p) <==> !IsPayload(p)
    ensures IsPayload(p) ==> text == p
    ensures IsPayloadV2(text)
  {
    var w := EnsureEncrypted(before.vault, d, p, ColumnAad(c, id)).0;
    RunKeepsHandles(before.(vault := w), later, OnionHandles(Some(text)));
    EnsureShape(before.vault, d, p, ColumnAad(c, id));
    FieldReads(before.vault, w, end.vault, d, c, id, p, text);
  }

  lemma FieldReads(v: Vault, w: Vault, end: Vault, d: Draw, c: Column, id: Uuid, p: Bytes, text: Bytes)
    requires EnsureEncrypted(v, d, p, ColumnAad(c, id)) == (w, Ok(text)) && LawfulFor(v, d, p) && Utf8(p)
    requires Keeps(w, end, OnionHandles(Some(text))) && Framed(end)
    ensures DecryptPresent(end, text, ColumnAad(c, id)) == Ok(p) <==> !IsPayload(p)
    ensures IsPayload(p) ==> text == p
  {
    var aad := ColumnAad(c, id);
    if IsPayload(p) {
      if DecryptPresent(end, text, aad).Ok? {
        PresentOpens(end, text, aad);
        DecryptShorter(end, text, aad);
      }
    } else {
      EnsureThenOpen(v, d, p, aad);
      PresentStable(w, end, OnionHandles(Some(text)), text, aad);
    }
  }

  // ---------- The round trip of an interleaved issue ----------

  /** For each field of the ticket, some event before m sealed it into the given text, and the broker still
      has the handle that text names. */
  ghost predicate AllSealed(events: seq<Event>, m: nat, ticket: NewTicket, sealed: Plain) {
    && sealed.Keys == ticket.plain.Keys
    && forall c :: c in ticket.plain ==>
         exists i: nat :: i < m && SealedAs(events, i, c, ticket.id, ticket.plain[c], sealed[c])
                          && Remembered(events, i, sealed[c])
  }

  /** What one sealed field comes to. */
  ghost predicate FieldOutcome(opens: Reading, c: Column, p: Bytes, text: Bytes) {
    && (if IsPayload(p) then text == p else opens(c, text, p)) && IsPayloadV2(text)
  }

  lemma FieldReadsAtEnd(events: seq<Event>, i: nat, c: Column, id: Uuid, p: Bytes, text: Bytes)
    requires LawfulRun(EMPTY, events) && SealedAs(events, i, c, id, p, text) && Utf8(p)
    requires Remembered(events, i, text)
    ensures FieldOutcome(ReadIn(Run(EMPTY, events).vault, id), c, p, text)
  {
    SealedFieldReads(events, i, c, id, p, text);
  }

  lemma OutcomeOfFields(opens: Reading, plain: Plain, sealed: Plain)
    requires sealed.Keys == plain.Keys
    requires forall c :: c in plain ==> FieldOutcome(opens, c, plain[c], sealed[c])
    ensures NoEnvelopes(plain) ==> Recoverable(opens, FETCH_ORDER, plain, sealed)
    ensures forall c :: c in plain && IsPayload(plain[c]) ==> c != RedeemedOnion && c in sealed && sealed[c] == plain[c]
    ensures forall c :: c in sealed ==> IsPayloadV2(sealed[c])
  {
  }

  lemma AllFieldsRead(events: seq<Event>, m: nat, ticket: NewTicket, sealed: Plain)
    requires LawfulRun(EMPTY, events) && AllSealed(events, m, ticket, sealed) && Texts(ticket.plain)
    ensures Outcome(Run(EMPTY, events).vault, ticket.id, ticket.plain, sealed)
    ensures forall c :: c in sealed ==> IsPayloadV2(sealed[c])
  {
    var opens, id := ReadIn(Run(EMPTY, events).vault, ticket.id), ticket.id;
    forall c | c in ticket.plain ensures FieldOutcome(opens, c, ticket.plain[c], sealed[c]) {
      var i: nat :| i < m && SealedAs(events, i, c, id, ticket.plain[c], sealed[c]) && Remembered(events, i, sealed[c]);
      FieldReadsAtEnd(events, i, c, id, ticket.plain[c], sealed[c]);
    }
    OutcomeOfFields(opens, ticket.plain, sealed);
  }

  /** The row with this id stays from event m on, and none of its columns is overwritten. */
  ghost predicate RowKept(events: seq<Event>, m: nat, id: Uuid) {
    && m < |events| && StaysPresent(Step(Run(EMPTY, events[..m]), events[m]), events[m + 1..], id)
    && forall j :: m < j < |events| ==> !Tampers(events[j], id)
  }

  lemma RowAtEnd(events: seq<Event>, m: nat, ticket: NewTicket, sealed: Plain, draws: Draws)
    requires LawfulRun(EMPTY, events) && RowKept(events, m, ticket.id)
    requires events[m] == Issue(ticket.(plain := sealed), draws) && forall c :: c in sealed ==> IsPayloadV2(sealed[c])
    requires InsertTicket(Run(EMPTY, events[..m]), ticket, sealed).1.Ok?
    ensures ticket.id in Run(EMPTY, events).tickets
    ensures SameIssue(sealed, Run(EMPTY, events).tickets[ticket.id].sealed)
  {
    var before, later := Run(EMPTY, events[..m]), events[m + 1..];
    RunAround(EMPTY, events, m);
    SealedRow(before, ticket, sealed, draws);
    StepInserts(before, events[m], ticket.id, sealed);
    forall j | 0 <= j < |later| ensures !Tampers(later[j], ticket.id) {
      assert later[j] == events[m + 1 + j];
    }
    RowLater(Step(before, events[m]), later, ticket.id, sealed);
  }

  lemma RowLater(issued: Db, later: seq<Event>, id: Uuid, sealed: map<Column, Bytes>)
    requires id in issued.tickets && issued.tickets[id].sealed == sealed && StaysPresent(issued, later, id)
    requires forall j :: 0 <= j < |later| ==> !Tampers(later[j], id)
    ensures id in Run(issued, later).tickets && SameIssue(sealed, Run(issued, later).tickets[id].sealed)
  {
    TicketLife(issued, later, id);
  }

  lemma SealedRow(db: Db, ticket: NewTicket, sealed: Plain, draws: Draws)
    requires InsertTicket(db, ticket, sealed).1.Ok? && forall c :: c in sealed ==> IsPayloadV2(sealed[c])
    ensures var after := IssueTicket(db, ticket.(plain := sealed), draws).0;
            ticket.id in after.tickets && after.tickets[ticket.id].sealed == sealed
  {
    SealedInsert(db, ticket, sealed, draws);
    InsertedColumns(db, ticket, sealed);
  }

  lemma StepInserts(db: Db, e: Event, id: Uuid, sealed: map<Column, Bytes>)
    requires e.Issue? && id in IssueTicket(db, e.ticket, e.draws).0.tickets
    requires IssueTicket(db, e.ticket, e.draws).0.tickets[id].sealed == sealed
    ensures id in Step(db, e).tickets && Step(db, e).tickets[id].sealed == sealed
  {
    IssueStep(db, e.ticket, e.draws);
  }

  /** An issue whose seals and whose statement are spread over a run, among any other calls: a fetch at the
      end of the run returns exactly the fields if and only if none of them was an envelope. */
  lemma InterleavedRoundTrip(events: seq<Event>, m: nat, ticket: NewTicket, sealed: Plain, draws: Draws)
    requires LawfulRun(EMPTY, events) && Texts(ticket.plain) && AllSealed(events, m, ticket, sealed)
    requires RowKept(events, m, ticket.id) && events[m] == Issue(ticket.(plain := sealed), draws)
    requires InsertTicket(Run(EMPTY, events[..m]), ticket, sealed).1.Ok?
    ensures ReadsBack(Run(EMPTY, events), ticket.id, ticket.plain) <==> NoEnvelopes(ticket.plain)
  {
    AllFieldsRead(events, m, ticket, sealed);
    RowAtEnd(events, m, ticket, sealed, draws);
    RunStaysWell(events);
    ReadsBackNow(Run(EMPTY, events), ticket.id, ticket.plain, sealed);
  }

  lemma ReadsBackNow(end: Db, id: Uuid, plain: Plain, sealed: Plain)
    requires Outcome(end.vault, id, plain, sealed) && Framed(end.vault)
    requires id in end.tickets && SameIssue(sealed, end.tickets[id].sealed)
    ensures ReadsBack(end, id, plain) <==> NoEnvelopes(plain)
  {
    ReadsBackExactly(end.vault, end, id, plain, sealed);
  }

  lemma InsertedColumns(db: Db, ticket: NewTicket, sealed: map<Column, Bytes>)
    requires InsertTicket(db, ticket, sealed).1.Ok?
    ensures var after := InsertTicket(db, ticket, sealed).0;
            ticket.id in after.tickets && after.tickets[ticket.id].sealed == sealed
  {
  }
}

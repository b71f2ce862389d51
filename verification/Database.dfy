/** The database handle as an object: each call updates the tables, the clock and the broker in
    place, keeps the store's invariant, and ties the whole new state to the step it stands for. */
module Database {
  import opened Text
  import opened Envelope
  import opened RecordContext
  import opened Clock
  import opened Sequences
  import opened SealedVault
  import opened TicketStore
  import opened StoreInvariants
  import opened StoreEffects

  class SecretsDatabase {
    var clock: int
    var credentials: map<Uuid, Credential>
    var sessions: map<Uuid, Session>
    var tickets: map<Uuid, Ticket>
    var vault: Vault

    ghost function State(): Db
      reads this
    {
      Db(clock, credentials, sessions, tickets, vault)
    }

    /** What the constraints of the tables and the shape of the protected columns demand. */
    ghost predicate Valid()
      reads this
    {
      StoreInv(State())
    }

    constructor ()
      ensures State() == EMPTY && Valid()
    {
      clock, credentials, sessions, tickets := 0, map[], map[], map[];
      vault := Vault(map[], map[]);
    }

    method Tick(elapsed: nat)
      requires Valid()
      modifies this
      ensures Valid()
      ensures State() == old(State()).(clock := old(clock) + elapsed)
    {
      clock := clock + elapsed;
    }

    method OnionInUse(onion: Bytes, id: Uuid) returns (taken: bool)
      ensures taken == OnionTaken(State(), onion, id)
    {
      taken := exists other :: other in credentials && other != id && credentials[other].onion == onion;
    }

    /** The INSERT statement of a credential. */
    method InsertCredential(id: Uuid, row: Credential) returns (r: Result<Credential, DbError>)
      requires Valid()
      modifies this
      ensures Valid()
      ensures (State(), r) == TicketStore.InsertCredential(old(State()), id, row)
    {
      InsertCredentialKeeps(State(), id, row);
      var taken := OnionInUse(row.onion, id);
      if id in credentials || taken {
        return Err(UniqueViolation);
      }
      credentials := credentials[id := row];
      return Ok(row);
    }

    /** The upsert by id, which keeps operational onion, creation and rotation times of an old row. */
    method UpsertCredential(id: Uuid, row: Credential) returns (r: Result<Credential, DbError>)
      requires Valid()
      modifies this
      ensures Valid()
      ensures (State(), r) == TicketStore.UpsertCredential(old(State()), id, row)
    {
      UpsertCredentialKeeps(State(), id, row);
      var taken := OnionInUse(row.onion, id);
      if taken {
        return Err(UniqueViolation);
      }
      var stored := row;
      if id in credentials {
        var prior := credentials[id];
        stored := row.(operational := prior.operational, createdAt := prior.createdAt, rotatedAt := prior.rotatedAt);
      }
      credentials := credentials[id := stored];
      return Ok(row);
    }

    method CreateTorCredential(id: Uuid, f: CredentialFields) returns (r: Result<Credential, DbError>)
      requires Valid()
      modifies this
      ensures Valid()
      ensures (State(), r) == CreateCredential(old(State()), id, TrimmedFields(f))
      ensures r.Ok? ==> id in credentials && r.value == credentials[id]
                        && TakesFields(r.value, f.(onion := Trim(f.onion)), clock)
    {
      CreateEffects(State(), id, TrimmedFields(f));
      r := InsertCredential(id, FreshCredential(TrimmedFields(f), clock));
    }

    method ImportBootstrapTorCredential(id: Uuid, f: CredentialFields) returns (r: Result<Credential, DbError>)
      requires Valid()
      modifies this
      ensures Valid()
      ensures (State(), r) == ImportCredential(old(State()), id, TrimmedFields(f))
      ensures r.Ok? ==> id in credentials && TakesFields(credentials[id], f.(onion := Trim(f.onion)), clock)
    {
      ImportEffects(State(), id, TrimmedFields(f));
      r := UpsertCredential(id, FreshCredential(TrimmedFields(f), clock));
    }

    method SetEntryOnion(id: Uuid, onion: Bytes, guards: seq<Bytes>) returns (r: Result<(), DbError>)
      requires Valid()
      modifies this
      ensures Valid()
      ensures (State(), r) == TicketStore.SetEntryOnion(old(State()), id, onion, guards)
    {
      SetEntryKeeps(State(), id, onion, guards);
      if id in credentials {
        var taken := OnionInUse(onion, id);
        if taken {
          return Err(UniqueViolation);
        }
        credentials := credentials[id := credentials[id].(onion := onion, guards := guards, updatedAt := clock)];
      }
      return Ok(());
    }

    method RotateOperationalOnion(id: Uuid, onion: Bytes, guards: seq<Bytes>)
      requires Valid()
      modifies this
      ensures Valid()
      ensures State() == RotateOnion(old(State()), id, onion, guards)
      ensures credentials.Keys == old(credentials).Keys
      ensures id in credentials ==>
                credentials[id].operational == Some(onion) && credentials[id].rotatedAt == Some(clock)
                && credentials[id].onion == old(credentials)[id].onion
                && credentials[id].disabled == old(credentials)[id].disabled
      ensures forall c :: c in credentials && c != id ==> credentials[c] == old(credentials)[c]
    {
      RotateKeeps(State(), id, onion, guards);
      if id in credentials {
        var row := credentials[id].(operational := Some(onion), guards := guards);
        credentials := credentials[id := row.(rotatedAt := Some(clock), updatedAt := clock)];
      }
    }

    method UpdateTorCredentialDisabled(id: Uuid, disabled: bool)
      requires Valid()
      modifies this
      ensures Valid()
      ensures State() == SetDisabled(old(State()), id, disabled)
      ensures credentials.Keys == old(credentials).Keys
      ensures id in credentials ==>
                credentials[id].disabled == disabled && credentials[id].onion == old(credentials)[id].onion
                && credentials[id].operational == old(credentials)[id].operational
      ensures forall c :: c in credentials && c != id ==> credentials[c] == old(credentials)[c]
    {
      DisableKeeps(State(), id, disabled);
      if id in credentials {
        credentials := credentials[id := credentials[id].(disabled := disabled, updatedAt := clock)];
      }
    }

    method DeleteTorCredential(id: Uuid) returns (deleted: bool)
      requires Valid()
      modifies this
      ensures Valid()
      ensures (State(), deleted) == DeleteCredential(old(State()), id)
    {
      DeleteKeeps(State(), id);
      deleted := id in credentials;
      sessions := sessions - set s | s in sessions && sessions[s].credential == id;
      tickets := tickets - set t | t in tickets && tickets[t].credential == id;
      credentials := credentials - {id};
    }

    method RecordTorSession(id: Uuid, session: Session, draw: Draw) returns (r: Result<(), DbError>)
      requires Valid()
      modifies this
      ensures Valid()
      ensures (State(), r) == RecordSession(old(State()), id, session, draw)
    {
      RecordKeeps(State(), id, session, draw);
      var sealed := EnsureOptional(vault, draw, session.clientOnion, ColumnAad(ClientOnion, id));
      vault := sealed.0;
      if sealed.1.Err? {
        return Err(Encryption(sealed.1.error));
      }
      if id in sessions {
        return Err(UniqueViolation);
      }
      if session.credential !in credentials {
        return Err(ForeignKeyViolation);
      }
      sessions := sessions[id := session.(clientOnion := sealed.1.value)];
      return Ok(());
    }

    /** The protected fields are sealed one after the other; a failure leaves what was minted and
        sealed before it in the broker. */
    method SealColumns(id: Uuid, cols: seq<Column>, plain: map<Column, Bytes>, draws: Draws)
      returns (r: Result<map<Column, Bytes>, VaultError>)
      requires Distinct(cols)
      modifies this`vault
      ensures (vault, r) == EnsureAll(old(vault), id, cols, plain, draws)
    {
      var sealed: map<Column, Bytes> := map[];
      var i := 0;
      ghost var whole := EnsureAll(vault, id, cols, plain, draws);
      assert cols[0..] == cols;
      NothingDone(whole.1);
      while i < |cols|
        invariant 0 <= i <= |cols|
        invariant sealed.Keys <= Elements(cols[..i])
        invariant Continues(whole, sealed, EnsureAll(vault, id, cols[i..], plain, draws))
      {
        var c := cols[i];
        SealNext(whole, sealed, vault, id, cols, i, plain, draws);
        if c in plain {
          var s := EnsureEncrypted(vault, DrawFor(draws, c), plain[c], ColumnAad(c, id));
          vault := s.0;
          if s.1.Err? {
            return Err(s.1.error);
          }
          sealed := sealed[c := s.1.value];
        }
        i := i + 1;
      }
      AllDone(sealed);
      return Ok(sealed);
    }

    /** The INSERT statement. */
    method InsertTicket(ticket: NewTicket, sealed: map<Column, Bytes>) returns (r: Result<Ticket, DbError>)
      modifies this`tickets
      ensures (State(), r) == TicketStore.InsertTicket(old(State()), ticket, sealed)
    {
      var taken := ticket.attestation != NIL
                   && exists t :: t in tickets && tickets[t].attestation == ticket.attestation;
      if ticket.id in tickets || taken {
        return Err(UniqueViolation);
      }
      if ticket.credential !in credentials {
        return Err(ForeignKeyViolation);
      }
      var row := Ticket(ticket.credential, ticket.attestation, ticket.tokenHash, ticket.info, clock,
                        ticket.expiresAt, None, sealed);
      tickets := tickets[ticket.id := row];
      return Ok(row);
    }

    method IssueTorTicket(ticket: NewTicket, draws: Draws) returns (r: Result<IssuedTicket, DbError>)
      requires Valid()
      modifies this
      ensures Valid()
      ensures (State(), r) == IssueTicket(old(State()), ticket, draws)
      ensures r.Ok? ==> ticket.id in tickets && ReceiptOf(ticket, clock, r.value)
                        && RowOf(ticket, tickets[ticket.id].sealed, clock, tickets[ticket.id])
    {
      IssueKeeps(State(), ticket, draws);
      IssueEffects(State(), ticket, draws);
      ColumnOrders();
      var sealed := SealColumns(ticket.id, ISSUE_ORDER, ticket.plain, draws);
      if sealed.Err? {
        return Err(Encryption(sealed.error));
      }
      var row := InsertTicket(ticket, sealed.value);
      if row.Err? {
        return Err(row.error);
      }
      return Ok(IssuedTicket(ticket.id, ticket.credential, ticket.attestation, ticket.info, row.value.createdAt,
                             row.value.expiresAt, ticket.plain));
    }

    method OpenColumns(id: Uuid, cols: seq<Column>, stored: map<Column, Bytes>)
      returns (r: Result<map<Column, Bytes>, DbError>)
      requires Distinct(cols)
      ensures r == DecryptAll(vault, id, cols, stored)
    {
      var plain: map<Column, Bytes> := map[];
      var i := 0;
      ghost var whole := DecryptAll(vault, id, cols, stored);
      assert cols[0..] == cols;
      NothingDone(whole);
      while i < |cols|
        invariant 0 <= i <= |cols|
        invariant plain.Keys <= Elements(cols[..i])
        invariant Joins(whole, plain, DecryptAll(vault, id, cols[i..], stored))
      {
        var c := cols[i];
        OpenNext(whole, plain, vault, id, cols, i, stored);
        if c in stored {
          var p := DecryptPresent(vault, stored[c], ColumnAad(c, id));
          if p.Err? {
            return Err(Encryption(p.error));
          }
          plain := plain[c := p.value];
        } else if c in REQUIRED {
          return Err(NullColumn);
        }
        i := i + 1;
      }
      AllDone(plain);
      return Ok(plain);
    }

    method FetchTorTicketForVerification(id: Uuid) returns (r: Result<Option<TicketView>, DbError>)
      ensures r == FetchTicket(State(), id)
    {
      if id !in tickets {
        return Ok(None);
      }
      ColumnOrders();
      var plain := OpenColumns(id, FETCH_ORDER, tickets[id].sealed);
      if plain.Err? {
        return Err(plain.error);
      }
      return Ok(Some(TicketView(id, tickets[id], plain.value)));
    }

    method FetchTorSession(id: Uuid) returns (r: Result<Option<SessionView>, DbError>)
      ensures r == FetchSession(State(), id)
    {
      if id !in sessions {
        return Ok(None);
      }
      var row := sessions[id];
      if row.clientOnion.None? {
        return Ok(Some(SessionView(id, row, None)));
      }
      var onion := DecryptPresent(vault, row.clientOnion.value, ColumnAad(ClientOnion, id));
      if onion.Err? {
        return Err(Encryption(onion.error));
      }
      return Ok(Some(SessionView(id, row, Some(onion.value))));
    }

    /** The onion as it is stored: an envelope of either version is not sealed again. */
    method SealOnion(id: Uuid, onion: Bytes, draw: Draw) returns (r: Result<Bytes, VaultError>)
      modifies this`vault
      ensures (vault, r) == SealRedemption(old(vault), id, onion, draw)
    {
      if IsPayload(onion) {
        return Ok(onion);
      }
      var s := Encrypt(vault, draw, onion, ColumnAad(RedeemedOnion, id));
      vault := s.0;
      return s.1;
    }

    method MarkTorTicketRedeemed(id: Uuid, onion: Bytes, draw: Draw) returns (r: Result<(), DbError>)
      requires Valid()
      modifies this
      ensures Valid()
      ensures (State(), r) == MarkRedeemed(old(State()), id, onion, draw)
    {
      RedeemKeeps(State(), id, onion, draw);
      var stored := SealOnion(id, onion, draw);
      if stored.Err? {
        return Err(Encryption(stored.error));
      }
      SetRedemption(id, stored.value);
      return Ok(());
    }

    /** The UPDATE statement, which overwrites an earlier redemption. */
    method SetRedemption(id: Uuid, stored: Bytes)
      modifies this`tickets
      ensures State() == StoreRedemption(old(State()), id, stored)
    {
      if id in tickets {
        var row := tickets[id];
        tickets := tickets[id := row.(redeemedAt := Some(clock), sealed := row.sealed[RedeemedOnion := stored])];
      }
    }

    /** The ticket stays readable; the next collection that keeps nothing for a day takes it. */
    method ExpireTorTicketNow(id: Uuid) returns (updated: bool)
      requires Valid()
      modifies this
      ensures Valid()
      ensures (State(), updated) == ExpireTicket(old(State()), id)
      ensures tickets.Keys == old(tickets).Keys && (updated <==> id in tickets)
      ensures updated ==> Expired(tickets[id], clock) && Collectable(tickets[id], clock, 0)
                          && !Collectable(tickets[id], clock, 1)
    {
      ExpireKeeps(State(), id);
      ExpireEffects(State(), id);
      updated := SetExpiry(id);
    }

    /** The UPDATE statement. */
    method SetExpiry(id: Uuid) returns (updated: bool)
      modifies this`tickets
      ensures (State(), updated) == ExpireTicket(old(State()), id)
    {
      updated := id in tickets;
      if updated {
        tickets := tickets[id := tickets[id].(expiresAt := clock - SECOND)];
      }
    }

    /** The DELETE statement. */
    method DeleteCollectable(days: int) returns (count: nat)
      modifies this`tickets
      ensures (State(), count) == CollectTickets(old(State()), days)
    {
      var gone := set t | t in tickets && Collectable(tickets[t], clock, days);
      tickets := tickets - gone;
      count := |gone|;
    }

    method GcExpiredTickets(days: int) returns (count: nat)
      requires Valid()
      modifies this
      ensures Valid()
      ensures (State(), count) == CollectTickets(old(State()), days)
      ensures Unfinished(old(State())) <= tickets.Keys
    {
      CollectKeeps(State(), days);
      CollectSparesUnfinished(State(), days);
      count := DeleteCollectable(days);
    }
  }

  /** The columns done so far, together with what is still to come, make up the whole call. */
  ghost predicate Joins<E>(whole: Result<map<Column, Bytes>, E>, done: map<Column, Bytes>,
                           rest: Result<map<Column, Bytes>, E>)
  {
    whole == if rest.Err? then rest else Ok(rest.value + done)
  }

  ghost predicate Continues(whole: (Vault, Result<map<Column, Bytes>, VaultError>),
                            sealed: map<Column, Bytes>,
                            rest: (Vault, Result<map<Column, Bytes>, VaultError>))
  {
    whole.0 == rest.0 && Joins(whole.1, sealed, rest.1)
  }

  lemma ColumnOrders()
    ensures Distinct(ISSUE_ORDER) && Distinct(FETCH_ORDER)
  {
  }

  lemma NothingDone<E>(whole: Result<map<Column, Bytes>, E>)
    ensures Joins(whole, map[], whole)
  {
    assert whole.Ok? ==> whole.value + map[] == whole.value;
  }

  lemma AllDone(done: map<Column, Bytes>)
    ensures map[] + done == done
  {
  }

  lemma JoinsNext<E>(whole: Result<map<Column, Bytes>, E>, done: map<Column, Bytes>, c: Column, p: Bytes,
                     rest: Result<map<Column, Bytes>, E>)
    requires c !in done
    requires Joins(whole, done, if rest.Err? then rest else Ok(rest.value[c := p]))
    ensures Joins(whole, done[c := p], rest)
  {
    if rest.Ok? {
      assert rest.value[c := p] + done == rest.value + done[c := p];
    }
  }

  lemma SealNext(whole: (Vault, Result<map<Column, Bytes>, VaultError>), sealed: map<Column, Bytes>,
                 v: Vault, id: Uuid, cols: seq<Column>, i: nat, plain: map<Column, Bytes>, draws: Draws)
    requires Distinct(cols) && i < |cols| && sealed.Keys <= Elements(cols[..i])
    requires Continues(whole, sealed, EnsureAll(v, id, cols[i..], plain, draws))
    ensures Elements(cols[..i + 1]) == Elements(cols[..i]) + {cols[i]}
    ensures var c := cols[i];
            if c !in plain then Continues(whole, sealed, EnsureAll(v, id, cols[i + 1..], plain, draws))
            else
              var (w, s) := EnsureEncrypted(v, DrawFor(draws, c), plain[c], ColumnAad(c, id));
              if s.Err? then whole == (w, Err(s.error))
              else Continues(whole, sealed[c := s.value], EnsureAll(w, id, cols[i + 1..], plain, draws))
  {
    var c := cols[i];
    assert cols[i..][0] == c && cols[i..][1..] == cols[i + 1..];
    assert cols[..i + 1] == cols[..i] + [c];
    if c in plain {
      var (w, s) := EnsureEncrypted(v, DrawFor(draws, c), plain[c], ColumnAad(c, id));
      if s.Ok? {
        JoinsNext(whole.1, sealed, c, s.value, EnsureAll(w, id, cols[i + 1..], plain, draws).1);
      }
    }
  }

  lemma OpenNext(whole: Result<map<Column, Bytes>, DbError>, plain: map<Column, Bytes>, v: Vault, id: Uuid,
                 cols: seq<Column>, i: nat, stored: map<Column, Bytes>)
    requires Distinct(cols) && i < |cols| && plain.Keys <= Elements(cols[..i])
    requires Joins(whole, plain, DecryptAll(v, id, cols[i..], stored))
    ensures Elements(cols[..i + 1]) == Elements(cols[..i]) + {cols[i]}
    ensures var c := cols[i];
            var rest := DecryptAll(v, id, cols[i + 1..], stored);
            if c !in stored then (if c in REQUIRED then whole == Err(NullColumn) else Joins(whole, plain, rest))
            else
              var p := DecryptPresent(v, stored[c], ColumnAad(c, id));
              if p.Err? then whole == Err(Encryption(p.error))
              else Joins(whole, plain[c := p.value], rest)
  {
    var c := cols[i];
    assert cols[i..][0] == c && cols[i..][1..] == cols[i + 1..];
    assert cols[..i + 1] == cols[..i] + [c];
    var rest := DecryptAll(v, id, cols[i + 1..], stored);
    if c in stored {
      var p := DecryptPresent(v, stored[c], ColumnAad(c, id));
      if p.Ok? {
        JoinsNext(whole, plain, c, p.value, rest);
      }
    }
  }
}

# Proofs about the secure database layer

This project models the logic of a Rust database layer that keeps Tor credentials, sessions and access
tickets in PostgreSQL, seals their protected columns with keys held by a secret broker, rotates its
database credentials, and stores attestation nonces and zero-knowledge proofs. It proves what that logic
keeps over every run. `dafny verify dfyconfig.toml` checks everything.

| files | what they hold |
|---|---|
| `Clock`, `Sequences` | the unit of time, and sequences without repetition |
| `Text`, `Hex`, `Base64` | bytes, UTF-8, trimming, splitting, and the two printed forms (RFC 4648, sections 3.5 and 4) |
| `Envelope`, `RecordContext` | the `aead:v1:`/`aead:v2:` text, and the associated data of a column, with the text form of a UUID (RFC 9562, section 4) |
| `SealedVault` | the broker as a map from handle to token and key, and AES-256-GCM as an ideal cipher: a table of everything ever sealed, in which opening is a lookup |
| `PrintedForms` | what the printers print and the readers accept, in bits, literal alphabets and code points |
| `TicketStore`, `StoreInvariants`, `StoreEffects` | the three tables as values, every call as a step, what every run keeps, and what each call answers and changes, field by field |
| `ProtectedRecords`, `RoundTrip` | context binding over all runs, tampering included, and the end-to-end round trips |
| `Interleaving` | calls that seal taken apart into steps, with other calls between them |
| `Database` | the same calls as methods of an object, with the loops over the columns, tied to the steps |
| `PoolRotation`, `LeaseTiming`, `LeaseWorker` | lease rotation: interleaved steps, time arithmetic, and the objects on the heap |
| `Attestation`, `ReportData` | the nonce log and decision cache, and the report-data reader |
| `Modular`, `Primality`, `PallasCertificate` | why the Pallas prime has no divisor between 1 and 2^64 |
| `PallasField`, `ZkCircuits`, `ZkProofs`, `ZkVerdicts` | scalars, commitments and gates, the checks around the proof library, and exactly which bundles pass them |
| `ProofTable`, `ProofRuns` | the table of stored proofs, and when its `verified` flags are truthful under interleaved statements |
| `Identifiers`, `LeaseRepair` | SQL identifiers and LIKE patterns, and the repair of leased roles |

What comes from outside is a parameter: the clock moves by `Tick`; ids, nonces, ciphertext bytes, broker
answers, sleep lateness and attempt outcomes are arguments; SHA-256 is any function to 32 bytes; the proof
library is any predicate on the call it receives. SQL statements are atomic.

## Where the code is weaker than it looks

* A field that already is a v2 envelope is stored unchecked. A ticket or session is read back as it was made
  if and only if no field was an envelope (`RoundTrip.TicketRoundTrip`, `RoundTrip.SessionRoundTrip`); what a
  fetch does with such a field says `RoundTrip.EnvelopeFieldRead`. A redemption also passes a v1 envelope
  through and overwrites an earlier redemption (`RoundTrip.RedemptionExact`).
* Once a redeem token has been used up, every further fetch of its ticket fails (`RoundTrip.ForgottenFetch`).
* Disabling a credential stops neither issues nor reads at this layer
  (`StoreInvariants.DisablingBlocksNothing`).
* `verify_zk_proof` updates by proof id alone, in a statement of its own. The flags stay truthful exactly as
  long as no update reaches an unverified row that its call did not check (`ProofRuns.StepTruthful`,
  `ProofRuns.RunTruthful`). `ProofRuns.SharedIdLies` and `ProofRuns.LateUpdateLies` are runs in which they lie,
  for any library that accepts proofs of satisfied jobs, however strict it is about its input
  (`ProofRuns.StrictLibraryExists`).
* Every row of public values satisfies its circuit for some private values, so an accepted proof tells nothing
  about a particular digest (`ZkCircuits.AnyPublicValues`). That also limits what a truthful flag is worth.
* `verify_proof` hashes the digest before normalising it, the prover afterwards. They agree exactly when the
  digest has 32 bytes or hashes like its own hash (`ZkProofs.EqualityComplete`).
* `circuit_security` passes through a 16-bit column (`ProofTable.SecuritySurvives`).
* A log commitment says nothing about the sequence number when the entry's scalar is zero, and nothing about
  the entry when the sequence number is zero (`ZkCircuits.SequenceDetermined`, `ZkCircuits.EntryDetermined`);
  a relay commitment binds only the sum of the two counts (`ZkCircuits.RelayDetermined`), and an execution
  commitment only the sum of its three scalars, in any order (`ZkCircuits.ExecutionDetermined`). The hashes a
  bundle prints beside its commitment are never compared (`ZkProofs.OtherFieldsUnread`).
* A retention of a negative number of days reaches redeemed tickets that have not expired
  (`StoreInvariants.UnexpiredCollected`).
* A malformed nonce digest is reported after the cached decision is already deleted
  (`Attestation.AttestationTables.InvalidateAttestationArtifacts`).
* LIKE reads the underscores of a prefix as wildcards. Repaired roles are named after an audience in every
  catalog if and only if no audience contains an underscore (`LeaseRepair.OnlyOwnRoles`); the audience `a_b`
  also takes the role `a!b_` (`LeaseRepair.ForeignRole`).
* Two pools of one cell are open from the moment the new one connects, which is before it is installed, until
  the old one is closed (`PoolRotation.PoolSafety`).

## Model

| member | source | states |
|---|---|---|
| `Base64.DecodeExact` | src/lib.rs:1117-1163 | The canonical, padded engine decodes a text to b exactly when the text is the encoding of b: no second spelling, no stray bits |
| `Base64.EncodeAlphabet` | src/lib.rs:1117-1125 | An encoding is ASCII, holds no separator, and has the padded length |
| `PrintedForms.Base64Prints` | src/lib.rs:1117-1125 | Symbol i of an encoding is the entry of the 64-letter alphabet at the number that bits 6i to 6i + 5 form, most significant first and zero-filled; the rest is padding |
| `Hex.DecodeExact` | src/tee.rs:60-64 | Hex reading accepts exactly the printings of b in either case |
| `PrintedForms.HexPrints` | src/zk.rs:201 | Each byte is printed as two lower-case digits, the high half first |
| `PrintedForms.HexReads` | src/tee.rs:60-64 | A text reads as b exactly when it holds, for each byte, its two digits in either case |
| `Text.TrimExact` | src/secret_broker_client.rs:498-508 | Trimming leaves a handle or token alone exactly when it has no white space at either end |
| `PrintedForms.TrimCuts` | src/secret_broker_client.rs:498-508 | Trimming cuts white-space code points from both ends, nothing else, and leaves none there |
| `PrintedForms.Utf8Means` | src/lib.rs:1161-1179 | Well-formed text is what sequences of code points, surrogates excluded, are written as |
| `Envelope.V2Bijection` | src/lib.rs:1117-1181 | A text decodes to (handle, token, bytes) exactly when handle and token are UTF-8 and the text is their v2 encoding |
| `Envelope.V1Bijection` | src/lib.rs:1129-1181 | A text decodes without a token exactly when it is a v1 encoding of a UTF-8 handle |
| `Envelope.SplitJoinedV2` | src/lib.rs:1140-1153 | Splitting on the first two separators inverts joining, and only for parts without a separator |
| `Envelope.PayloadIsText` | src/lib.rs:1117-1190 | What is printed is well-formed text that the v2 prefix test recognises |
| `PrintedForms.PayloadPrints` | src/lib.rs:1117-1125 | The three printings stand between the v2 prefix and two colons, in the order handle, token, ciphertext |
| `PrintedForms.PrefixTests` | src/lib.rs:1184-1190 | The two tests look for the two prefixes and for nothing else |
| `PrintedForms.AsciiPrints` | src/lib.rs:82-84 | A literal is its characters, one byte each |
| `PrintedForms.MalformedMeans` | src/lib.rs:1130-1154 | Which texts are refused for their prefix, and which for their missing separators |
| `PrintedForms.FaultOrder` | src/lib.rs:1156-1181 | Which fault of the three parts decides the error: the handle's UTF-8 comes last |
| `PrintedForms.FaultOrderV1` | src/lib.rs:1156-1181 | The same for the two parts of a v1 envelope |
| `RecordContext.UuidTextInjective` | src/tor_auth.rs:1032-1036 | The hyphenated form of a row id determines it |
| `PrintedForms.UuidPrints` | src/tor_auth.rs:1032-1036 | Where each digit of a row id stands in its text |
| `PrintedForms.UuidDashes` | src/tor_auth.rs:1032-1036 | Dashes stand at 8, 13, 18 and 23 |
| `RecordContext.AadInjective` | src/tor_auth.rs:1032-1036 | Equal associated data come from equal table, field, row id and purpose, for NUL-free names and arbitrary purposes |
| `PrintedForms.AadCells` | src/tor_auth.rs:1032-1036 | Cut at its NULs, associated data is the schema, the table, the field, the row id, and then the purpose |
| `SealedVault.EncryptDecrypt` | src/tor_auth.rs:1091-1175 | A value sealed under a fresh key opens, in its own context, to that value |
| `SealedVault.DecryptStable` | src/tor_auth.rs:1139-1175 | An envelope opens to the same value for as long as the broker keeps the one handle it names |
| `SealedVault.DecryptAuthentic` | src/lib.rs:1097-1113 | Whatever opens was sealed with exactly this associated data |
| `SealedVault.OneContextOnly` | src/tor_auth.rs:1091-1175 | With one sealing per key, an envelope opens under at most one associated data |
| `SealedVault.DecryptShorter` | src/lib.rs:1072-1113 | An envelope opens to something shorter than itself, so never to itself |
| `SealedVault.EncryptGrows` | src/tor_auth.rs:1091-1137 | Sealing forgets nothing, keeps every key to one use, and keeps bodies as long as plaintext and tag |
| `StoreEffects.SealOutcome` | src/tor_auth.rs:1091-1137 | Which fault a sealing reports, what the broker and the cipher have gained by then, and what is printed |
| `StoreEffects.EnsureOutcome` | src/tor_auth.rs:1038-1054 | An absent value stays absent, a v2 envelope stays as it is, a v1 envelope is refused, and only other text is sealed |
| `StoreEffects.ReadExact` | src/tor_auth.rs:1071-1175 | A protected column reads as p exactly when it is a v2 envelope whose trimmed handle and token the broker knows, with a 32-byte key under which p was sealed in this context |
| `StoreEffects.ReadRefuses` | src/tor_auth.rs:1077-1089 | Plain text and v1 envelopes are refused as such, without the broker |
| `StoreEffects.OpenFaults` | src/tor_auth.rs:1139-1175 | The first thing wrong with an envelope decides the error |
| `StoreInvariants.EnsureAllShape` | src/tor_auth.rs:1038-1066 | Sealing succeeds with exactly the columns handed in, each a v2 envelope |
| `StoreInvariants.IssueSucceeds` | src/tor_auth.rs:548-719 | An issue succeeds exactly when every field can be sealed or already is a v2 envelope, the id and the attestation session are free, and the credential exists |
| `StoreEffects.FirstFault` | src/tor_auth.rs:574-654 | The first column, in the order of the code, that cannot be sealed decides the error of an issue |
| `StoreEffects.SixColumns` | src/tor_auth.rs:574-815 | Which columns are sealed and read, and that of these only the redeem token may be absent |
| `StoreEffects.IssueEffects` | src/tor_auth.rs:655-719 | The row and the answer of an issue, field by field: the expiry is the ticket's, the creation time is now, and nothing is redeemed; every failure leaves the tables alone |
| `StoreEffects.InsertTicketEffects` | src/tor_auth.rs:663-691 | When the row goes in, and which constraint is reported otherwise; the nil attestation session may repeat |
| `StoreInvariants.StepKeeps` | src/tor_auth.rs:237-928 | Every honest call keeps foreign keys, unique onions, unique attestation sessions and column shapes |
| `StoreInvariants.RunKeeps` | migrations/0001_initial.sql:114-180 | Every reachable state satisfies the table constraints and the shape of protected columns; the redemption columns are set together |
| `StoreInvariants.TicketLife` | src/tor_auth.rs:860-912 | While a row exists, redeemed stays redeemed, expired stays expired, and what issue fixed stays fixed |
| `StoreEffects.DatesMean` | src/tor_auth.rs:655-912 | In every run, tampering included, a ticket was created when it was issued, expires as its issue said or one second before the last call that expired it, and was redeemed at its last redemption |
| `StoreEffects.DatesStep` | src/tor_auth.rs:655-912 | Only an issue makes a ticket; only an expiry and a redemption move a date of one that is there, and each moves its own |
| `StoreEffects.Footprint` | src/tor_auth.rs:237-928 | Which tables each call can reach, and that only the clock moves the clock |
| `StoreInvariants.OperationalMeans` | src/tor_auth.rs:350-546 | In every run a credential shows the onion of the last rotation since its row was made; importing over it, disabling it and moving its entry onion leave that alone |
| `StoreInvariants.DisablingBlocksNothing` | src/tor_auth.rs:522-536 | Disabling a credential changes neither which issues succeed nor what any fetch returns |
| `StoreEffects.CreateEffects` | src/tor_auth.rs:455-500 | When a credential is created, every field of its row, and that nothing else changes |
| `StoreEffects.ImportEffects` | src/tor_auth.rs:398-452 | An import takes every field but the history from the caller; an old row keeps its history, which the answer does not show |
| `StoreEffects.SetEntryEffects` | src/tor_auth.rs:374-395 | Entry onion, guards and update time change, in this row alone, unless another one has the onion |
| `StoreEffects.RotateEffects` | src/tor_auth.rs:350-371 | Operational onion, guards, rotation and update time change, in this row alone |
| `StoreEffects.DisableEffects` | src/tor_auth.rs:522-536 | The flag and the update time change, in this row alone |
| `StoreEffects.DeleteEffects` | src/tor_auth.rs:538-546 | Exactly the credential, its sessions and its tickets go; all that stays is untouched |
| `StoreEffects.RecordEffects` | src/tor_auth.rs:237-287 | Which error is reported first, and the recorded row field by field |
| `StoreEffects.FetchSessionAnswers` | src/tor_auth.rs:950-1008 | A missing session is no error; otherwise the row's own fields come back, with what its onion opens to |
| `StoreEffects.FetchTicketAnswers` | src/tor_auth.rs:721-841 | A missing ticket is no error; a fetch succeeds exactly when its required columns are there and all that are there open, and shows that row |
| `StoreEffects.ColumnsRead` | src/tor_auth.rs:746-815 | Each value returned is what its own column opens to in its own context |
| `StoreEffects.RedemptionEffects` | src/tor_auth.rs:885-897 | A redemption writes its time and its column, keeps all else, the expiry included, and is silent for a missing row |
| `StoreEffects.MarkEffects` | src/tor_auth.rs:860-898 | Envelopes of either version are stored as they are; other onions are sealed, and a failed sealing leaves the row alone |
| `StoreEffects.ExpiryEffects` | src/tor_auth.rs:900-912 | The expiry moves to one second, in microseconds, before now; nothing else moves |
| `StoreEffects.CollectEffects` | src/tor_auth.rs:916-928 | Exactly the redeemed or expired tickets go that expire before the cutoff, in microseconds; the count is theirs |
| `StoreInvariants.ExpireMeans` | src/tor_auth.rs:900-928 | An expired ticket stays readable; at every later moment a collection takes it exactly when the days it keeps are less than the time since one second before the expiry; no other ticket is touched |
| `StoreInvariants.LeavesExactly` | src/tor_auth.rs:538-928 | A ticket leaves the table exactly when its credential is deleted or a collection finds it collectable |
| `StoreInvariants.CollectSpares` | src/tor_auth.rs:916-928 | No retention, negative included, removes a ticket that is neither expired nor redeemed |
| `StoreInvariants.PlainCutoff` | src/tor_auth.rs:916-928 | From zero days on, the predicate is the plain cutoff |
| `StoreInvariants.UnexpiredCollected` | src/tor_auth.rs:916-928 | An unexpired ticket is collected exactly when days are negative, it is redeemed, and it expires within that span |
| `StoreInvariants.ShorterRetentionCollectsMore` | src/tor_auth.rs:916-928 | Fewer days collect a superset |
| `ProtectedRecords.ColumnsHaveOwnContext` | src/tor_auth.rs:14-24 | No two protected columns, and no two rows, share associated data |
| `ProtectedRecords.ColumnCells` | src/tor_auth.rs:14-24 | The table, field and purpose that each protected column is bound to |
| `ProtectedRecords.HistorySealed` | src/tor_auth.rs:548-719 | Every sealing at the end of a history was made at one step, by a call that handed its plaintext in for that context |
| `ProtectedRecords.StepSeals` | src/tor_auth.rs:237-898 | No call seals anything but what it was handed, in the context of the column and row it was handed in for |
| `ProtectedRecords.OpensToItsOwn` | src/tor_auth.rs:1071-1089 | In any run, with any column overwritten by any text, what opens for a column of a row is the plaintext of a sealing that some event made for that very column and row |
| `ProtectedRecords.TicketContextBinding` | src/tor_auth.rs:721-841 | Every value a verification fetch returns was sealed by some event for exactly that table, field, ticket and purpose |
| `ProtectedRecords.SessionContextBinding` | src/tor_auth.rs:950-1008 | The client onion a session fetch returns was sealed by some event for that session |
| `RoundTrip.TransplantRejected` | src/tor_auth.rs:1071-1089 | In a lawful run, an envelope that opens in one column of one row opens in no other, wherever it is copied |
| `RoundTrip.RunStaysWell` | src/tor_auth.rs:1091-1137 | In every lawful run each key seals once and bodies stay as long as plaintext and tag |
| `RoundTrip.TicketRoundTrip` | src/tor_auth.rs:548-841 | A ticket issued with text fields is read back with the same protected values, absent redeem token included, after any later calls that keep its row and handles, if and only if no field was an envelope |
| `RoundTrip.SessionRoundTrip` | src/tor_auth.rs:237-1008 | A recorded session keeps its fields, and is read back with its client onion if and only if that was not an envelope |
| `RoundTrip.RedemptionExact` | src/tor_auth.rs:860-898 | What a successful redemption leaves in the row, for plain onions and for envelopes of either version |
| `RoundTrip.EnvelopeFieldRead` | src/tor_auth.rs:1038-1089 | A field that was an envelope is opened by a later fetch, which returns, if anything, a shorter text that some event sealed for this very column and ticket |
| `RoundTrip.ForgottenFetch` | src/tor_auth.rs:721-841 | Once the broker forgets a handle, as for a token that redeems once, a ticket that could be fetched fails exactly when one of its columns names that handle, and otherwise reads as before |
| `Interleaving.IssueDecomposes` | src/tor_auth.rs:574-676 | An issue is one seal for each field and then the statement: taken apart, it leaves the same tables and the same broker |
| `Interleaving.SealedFieldReads` | src/tor_auth.rs:1038-1137 | Whatever calls came between, a text field sealed for a column of a row reads there as itself at every later moment, if and only if it was not an envelope already |
| `Interleaving.InterleavedRoundTrip` | src/tor_auth.rs:548-841 | An issue whose seals and statement are spread over a run is read back with exactly its fields, if and only if none was an envelope |
| `Database.SecretsDatabase.CreateTorCredential` | src/tor_auth.rs:455-500 | A new row with the caller's fields, the entry onion trimmed, or a uniqueness error and no change |
| `Database.SecretsDatabase.ImportBootstrapTorCredential` | src/tor_auth.rs:398-452 | The upsert by id with a trimmed entry onion, which keeps operational onion, creation and rotation times |
| `Database.SecretsDatabase.SetEntryOnion` | src/tor_auth.rs:374-395 | The update, silent for a missing row, refused for a taken onion |
| `Database.SecretsDatabase.RotateOperationalOnion` | src/tor_auth.rs:350-371 | The invariant of the store holds; the credential shows the new onion and time and keeps entry onion and flag; no other row changes |
| `Database.SecretsDatabase.UpdateTorCredentialDisabled` | src/tor_auth.rs:522-536 | The invariant of the store holds; the flag is set, both onions stay, and no other row changes |
| `Database.SecretsDatabase.DeleteTorCredential` | src/tor_auth.rs:538-546 | The row goes, and its sessions and tickets with it |
| `Database.SecretsDatabase.RecordTorSession` | src/tor_auth.rs:237-287 | The whole new state of recording a session, failures included |
| `Database.SecretsDatabase.SealColumns` | src/tor_auth.rs:574-654 | The column loop seals exactly what the recursive form seals, with the same broker state |
| `Database.SecretsDatabase.IssueTorTicket` | src/tor_auth.rs:548-719 | The whole new state of issuing a ticket, failures included; the row and the record it gives back hold the ticket's own fields and expiry, and the present as creation time |
| `Database.SecretsDatabase.OpenColumns` | src/tor_auth.rs:746-815 | The column loop opens exactly what the recursive form opens, with the same first error |
| `Database.SecretsDatabase.FetchTorTicketForVerification` | src/tor_auth.rs:721-841 | The read returns the specified view and changes nothing |
| `Database.SecretsDatabase.FetchTorSession` | src/tor_auth.rs:950-1008 | The read returns the specified view and changes nothing |
| `Database.SecretsDatabase.MarkTorTicketRedeemed` | src/tor_auth.rs:860-898 | The whole new state of a redemption |
| `Database.SecretsDatabase.ExpireTorTicketNow` | src/tor_auth.rs:900-912 | The invariant of the store holds; no ticket goes, the named one counts as expired and is ready for a collection without retention, but not for one of a day |
| `Database.SecretsDatabase.GcExpiredTickets` | src/tor_auth.rs:916-928 | Exactly the collectable rows go, and their number is returned |
| `PoolRotation.StepSafe` | src/lib.rs:210-254 | Every step of every worker keeps the pools safe |
| `PoolRotation.PoolSafety` | src/lib.rs:210-254 | In every reachable state the installed pool is open and was never closed, a cell has one open pool or, between connect and close, two, and no pool is lost or closed twice |
| `PoolRotation.FailedRefreshHarmless` | src/lib.rs:210-231 | A refresh that fails at any point leaves the installed pool in place and opens none that stays |
| `PoolRotation.OnlySwapReplaces` | src/lib.rs:247-254 | Between swaps of a cell every load returns the same pool |
| `PoolRotation.LoadSeesSwap` | src/lib.rs:247-254 | Every load after a swap returns the pool it installed, until the next swap |
| `PoolRotation.LoadedUsable` | src/lib.rs:210-254 | A loaded pool is open exactly until an action closes it, and at the least until the next swap of its cell |
| `PoolRotation.HandlesAgree` | src/lib.rs:690-753 | Data and secrets handles load the same pool at every moment exactly when no dedicated endpoint is configured |
| `PoolRotation.ProtocolExact` | src/lib.rs:159-254 | In every run a worker can take a step exactly when it may follow that worker's last one: wake, lease, options, connect, swap, close; failing only before it has connected, waking again after a failure, and stopping only after a lease without expiry |
| `LeaseTiming.NeverEarly` | src/lib.rs:173-188 | No attempt starts more than 60 seconds before the expiry of the lease it renews |
| `LeaseTiming.StartBound` | src/lib.rs:159-208 | Attempt i of a lease starts at most i retry rounds after the first |
| `LeaseTiming.AttemptsFit` | src/lib.rs:159-208 | Attempt i starts before expiry whenever lateness and i rounds of (15 s + duration + lateness) fit into 60 s |
| `LeaseTiming.WorstCase` | src/lib.rs:159-208 | The bound is attained by the slowest attempts |
| `LeaseTiming.FourInstantAttempts` | src/lib.rs:86-87 | Instantaneous attempts start before expiry exactly for the first four |
| `LeaseTiming.RenewalsAreRare` | src/lib.rs:159-208 | Every earlier renewal has used up at least its lifetime less 60 s when an attempt starts |
| `LeaseTiming.RenewalsApart` | src/lib.rs:159-208 | After a renewal of leases of at least L > 60 s, every later attempt starts at least L - 60 s later |
| `LeaseTiming.FirstTurn` | src/lib.rs:159-188 | When the first turn starts, and when there is none |
| `LeaseTiming.NextTurn` | src/lib.rs:159-208 | From each turn to the next, in microseconds: 15 seconds after a failure and at once after a renewal, then the sleep to 60 seconds before the expiry it works against; the loop ends only at a renewal without expiry |
| `LeaseTiming.ActsInTime` | src/lib.rs:173-197 | After a renewal the next attempt starts no later than the new lease's grace period begins, or when the renewal ended |
| `LeaseTiming.AttemptsFitEveryLease` | src/lib.rs:159-208 | Attempts against every lease of a run, not only the first, start before its expiry whenever lateness and rounds fit into 60 s |
| `LeaseWorker.BrokerLeaseWorker.RefreshOnce` | src/lib.rs:210-235 | Only a success touches the cell: a fresh open pool goes in, and the old one is closed once; each failure has its own error |
| `LeaseWorker.BrokerLeaseWorker.Turn` | src/lib.rs:160-206 | One turn of the loop is one turn of the timeline: when it starts, when it ends, and the next expiry |
| `LeaseWorker.BrokerLeaseWorker.Run` | src/lib.rs:159-208 | The loop's starts are the timeline, which `LeaseTiming.NextTurn` fixes; as many pools are closed, each once, as there were renewals, and never the installed one |
| `LeaseWorker.CreatePool` | src/lib.rs:836-938 | A worker on the new cell exactly for leased credentials |
| `LeaseWorker.ConnectPostgres` | src/lib.rs:690-753 | The two handles are one cell exactly when no dedicated endpoint is configured; each endpoint has a worker exactly when its credentials are leased |
| `LeaseWorker.RotateData` | src/lib.rs:720-752 | A run of the data worker is visible through a shared secrets handle, and a dedicated one keeps its own open pool |
| `Attestation.LogExact` | src/attestation.rs:9-36 | The log holds exactly the accepted nonces that no later statement removed, for every interleaving of statements |
| `Attestation.ReplayWindow` | src/attestation.rs:9-36 | Two calls that both report a nonce as new, with no invalidation between, are more than the shortest time to live apart |
| `Attestation.WindowIsSharp` | src/attestation.rs:15-36 | One microsecond past the window the nonce is accepted again, and not before; a negative window counts as none |
| `Attestation.CacheExact` | src/attestation.rs:40-69 | Every entry is the last decision since the last invalidation, and an unexpired last decision is always there |
| `Attestation.AttestationTables.RegisterAttestationNonce` | src/attestation.rs:9-36 | Prune then insert; new exactly when the nonce was absent or older than the time to live |
| `Attestation.AttestationTables.CacheAttestationDecision` | src/attestation.rs:40-69 | The entry is replaced, expired ones go, all others stay |
| `Attestation.AttestationTables.InvalidateAttestationArtifacts` | src/attestation.rs:71-109 | The error cases in order, with what each has already deleted |
| `Attestation.HexBytesExact` | src/attestation.rs:71-109 | A digest is read from hexadecimal text in either case, with white space around it, and from nothing else |
| `ReportData.ReadsBothForms` | src/tee.rs:59-71 | The reader returns b exactly for the hex and Base64 printings of 64 bytes, and no text is both |
| `PallasCertificate.NoSmallDivisor` | src/zk.rs:925-935 | Every divisor of the field's modulus other than 1 is above 2^64, by a chain of certificates |
| `PallasField.DigestIsResidue` | src/zk.rs:925-935 | The four limbs of a digest reduce to its little-endian value modulo p |
| `PallasField.ScalarEncodingExact` | src/zk.rs:937-951 | Decoding and encoding of scalars are mutually inverse below p; every other byte string is refused |
| `ZkVerdicts.LittleEndian` | src/zk.rs:925-951 | Byte i of a digest is digit i of its value to the base 256 |
| `PallasField.PreimagesExact` | src/zk.rs:925-935 | A digest reduces to x exactly when it is one of the listed preimages |
| `PallasField.PreimageCount` | src/zk.rs:925-935 | Every scalar has four preimage digests if it is below 2^256 - 3p, and three otherwise |
| `PallasField.SmallFactorCancels` | src/zk.rs:967-977 | A factor up to 2^64 can be cancelled modulo p |
| `ZkCircuits.SequenceDetermined` | src/zk.rs:967-977 | Two sequence numbers give the same log commitment exactly when they are equal or the entry's scalar is zero |
| `ZkCircuits.EntryDetermined` | src/zk.rs:967-977 | Two entries give the same log commitment exactly when their scalars are equal or the sequence number is zero |
| `ZkCircuits.RelayDetermined` | src/zk.rs:954-964 | A relay commitment determines the consensus scalar and, beside it, the sum of the counts |
| `ZkCircuits.ExecutionDetermined` | src/zk.rs:980-990 | Two execution commitments are equal exactly when the sums of their scalars are; exchanging input and output does not show |
| `ZkCircuits.GatesMeanRelation` | src/zk.rs:627-641 | On any row of any columns the gates vanish exactly when the row's values are related as the circuit means |
| `ZkCircuits.HonestAssignment` | src/zk.rs:578-591 | An assignment at row zero satisfies all gates on all usable rows exactly when that row is related; unassigned rows never get in the way |
| `ZkCircuits.AnyPublicValues` | src/zk.rs:627-758 | Every row of public values of every circuit is satisfied by some private values |
| `ZkCircuits.EqualityIsCongruence` | src/zk.rs:555-591 | Scalar equality is satisfied exactly when the little-endian values of the two digests agree modulo p |
| `ZkCircuits.CommitmentsSatisfy` | src/zk.rs:954-990 | Each commitment is exactly the encoding of the public value its circuit demands |
| `ZkVerdicts.CommitmentValues` | src/zk.rs:954-990 | The value of each commitment, as a residue of the values of the digests and counts it is made of |
| `ZkProofs.RelayComplete` | src/zk.rs:211-267 | The prover never fails before the library; its witness satisfies the circuit; its bundle verifies with its own instances, and for its own context only |
| `ZkProofs.LogComplete` | src/zk.rs:270-329 | The same for log-chain proofs |
| `ZkProofs.ExecutionComplete` | src/zk.rs:332-394 | The same for execution proofs |
| `ZkProofs.EqualityComplete` | src/zk.rs:158-208 | Digest equality is complete exactly for congruent digests; the general verifier accepts exactly digests of 32 bytes or that hash like their hash |
| `ZkProofs.OneContextOnly` | src/zk.rs:398-548 | No bundle, honest or not, passes the checks for two different contexts, except digests with the same hash |
| `ZkVerdicts.VerifyExact` | src/zk.rs:398-548 | A bundle passes the checks exactly when protocol and circuit are the expected ones, the expected hash is the hash of the expected bytes, the fields have their types and values, and the commitment is canonical; and what the library is then asked |
| `ZkVerdicts.VerifyAnswers` | src/zk.rs:398-548 | The whole answer, errors included |
| `ZkVerdicts.EqualityAnswers` | src/zk.rs:422-454 | The same for the verifier of digest equality alone |
| `ZkVerdicts.EqualityBundle` | src/zk.rs:158-208 | Every field of the bundle and of the job of a digest-equality proof |
| `ZkVerdicts.RelayBundleFields` | src/zk.rs:211-267 | The same for relay audits |
| `ZkVerdicts.LogBundleFields` | src/zk.rs:270-329 | The same for log-chain proofs |
| `ZkVerdicts.ExecutionBundleFields` | src/zk.rs:332-394 | The same for execution proofs |
| `ZkProofs.OtherFieldsUnread` | src/zk.rs:828-911 | Fields other than the two counts, the commitment and the sequence can be replaced without any verification noticing |
| `ProofTable.SecuritySurvives` | src/lib.rs:324-369 | The two casts of the parameter restore it exactly in two ranges |
| `ProofTable.CastsMean` | src/lib.rs:324-369 | Both casts keep the number modulo the width of the column and of the parameter |
| `ProofTable.UpsertEffects` | src/lib.rs:305-334 | What a stored bundle leaves in its row, field by field, and in no other |
| `ProofTable.UpdateEffects` | src/lib.rs:376-381 | The update flags and dates every row under the proof id and changes nothing else |
| `ProofTable.StoredBundleReturns` | src/lib.rs:305-371 | A verification sees the stored bundle exactly when the parameter survives and no earlier row fixed another protocol or circuit |
| `ProofRuns.BackToBack` | src/lib.rs:337-382 | A select and an update without a statement between them are the whole verification call |
| `ProofRuns.RunSound` | src/lib.rs:337-382 | In every interleaving: a proved row holds what the library accepted for its key, and a waiting call read contents that are still there unless they were stored again |
| `ProofRuns.StepTruthful` | src/lib.rs:376-381 | A statement keeps all flags truthful exactly when it is not an update that reaches an unverified row it did not check |
| `ProofRuns.RunTruthful` | src/lib.rs:305-382 | Over a whole run, in any interleaving, the flags stay truthful exactly when no update strays |
| `ProofRuns.VerifiedMeans` | src/lib.rs:337-382 | A truthful flag means that the library accepted what the row holds, for its own key, in a context some verification asked for |
| `ProofRuns.SerialTruthful` | src/lib.rs:305-382 | With calls that do not interleave and ids that users do not share, the flags are always truthful |
| `ProofRuns.SharedIdLies` | src/lib.rs:376-381 | Two users with one id: verifying the one verifies the row of the other |
| `ProofRuns.LateUpdateLies` | src/lib.rs:337-382 | One proof, stored again between select and update: what was stored there ends up verified, unchecked |
| `ProofRuns.RowMeans` | src/lib.rs:305-334 | In any interleaving a row is the last bundle stored, with the protocol and circuit of the first and the parameter cut to 16 bits |
| `ProofTable.ZkProofTable.StoreZkProof` | src/lib.rs:305-334 | Insert, or overwrite all but protocol and circuit; the flag is reset |
| `ProofTable.ZkProofTable.VerifyZkProof` | src/lib.rs:337-382 | When it succeeds and which rows it marks, whatever other calls store between its select and its update; a verified row passes without a check |
| `Identifiers.SanitizeProjects` | src/bin/secure-database-cli.rs:274-284 | Sanitizing yields plain identifiers and leaves exactly those alone |
| `Identifiers.SanitizeOne` | src/bin/secure-database-cli.rs:274-284 | One character: a capital becomes the letter 32 higher; small letters, digits, underscore and hyphen stay; anything else goes |
| `Identifiers.SanitizeConcat` | src/bin/secure-database-cli.rs:274-284 | A text is sanitized part by part, and there is no result exactly when nothing is left |
| `Identifiers.NoCapitalLeft` | src/bin/secure-database-cli.rs:274-284 | No result holds a capital letter |
| `Identifiers.SanitizeUnderscore` | src/bin/secure-database-cli.rs:274-284 | Sanitizing neither adds nor removes underscores, and an audience with one is never skipped |
| `Identifiers.RolePatternExact` | src/bin/secure-database-cli.rs:228-239 | The generated pattern matches a name exactly when it agrees at every position but the prefix's underscores and goes on with one |
| `Identifiers.RolePatternLiteral` | src/bin/secure-database-cli.rs:228-239 | A prefix matches only names that start with it and an underscore exactly when it contains no underscore |
| `Identifiers.QuoteLexes` | src/bin/secure-database-cli.rs:286-288 | A SQL lexer reads a printed name back, and stops there, exactly when no quote follows |
| `Identifiers.QuotePlain` | src/bin/secure-database-cli.rs:286-288 | A name without a quote is printed between two quotes and nothing else |
| `LeaseRepair.StatementsName` | src/bin/secure-database-cli.rs:242-254 | The printed statements name exactly the role and the owner |
| `LeaseRepair.RepairOne` | src/bin/secure-database-cli.rs:241-254 | The three statements on one role never fail and amount to removing it |
| `LeaseRepair.EachStatementNeeded` | src/bin/secure-database-cli.rs:241-254 | Without the reassignment a role's objects are lost, and without the second statement a role with privileges cannot be dropped |
| `LeaseRepair.LeaseRolesMean` | src/bin/secure-database-cli.rs:216-239 | Which roles are repaired depends only on the set of sanitized prefixes, and is exactly the roles that extend one |
| `LeaseRepair.OnlyOwnRoles` | src/bin/secure-database-cli.rs:216-239 | In every catalog the repaired roles are named after an audience, exactly when no audience contains an underscore |
| `LeaseRepair.ForeignRole` | src/bin/secure-database-cli.rs:216-239 | An audience with an underscore takes a role that is named after no audience |
| `LeaseRepair.RoleCatalog.RepairRoles` | src/bin/secure-database-cli.rs:241-256 | The inner loop removes exactly the given roles |
| `LeaseRepair.RoleCatalog.RepairLeaseOwnership` | src/bin/secure-database-cli.rs:188-256 | The loops repair each matching role exactly once; exactly the repaired roles and their grants go; no object is lost, objects of repaired roles are the owner's and all others keep their owner; a second repair finds nothing; without audiences not even the owner is checked |

## Left out

- Real cryptography: AES-GCM, SHA-256 and random numbers are ideal or parameters; zeroization, HMAC, metrics and tracing have no part.
- The Halo2 library: key generation, transcripts, blinding rows and its parameter cache. Only gates on usable rows and the checks around the call are modelled, and failures of key generation are the library's.
- The broker service, its channels, TLS, SPIFFE and X.509 handling, and DCAP verification. The broker's lease renewal during a read is ignored, as the code ignores its result.
- Configuration, command-line parsing, migrations and extension setup; `src/guard.rs`, measurement policies, and the count and list queries.
- PostgreSQL beyond the statements: NUL characters in text, timestamp and interval ranges, daylight-saving days in intervals, collation order, 63-byte and empty identifiers, privileges of an owner on its own objects, JSON normalisation in JSONB.
- Session keys and metadata columns of the tables.
- RoundTrip.ForgottenFetch: a fetch reads the columns of its row in one step and changes nothing itself; that it uses up tokens is a step of its own after it. `Interleaving.SealedFieldReads` says what each column reads as at any moment.
- StoreInvariants.RunKeeps: the process clock and the database clock are one non-decreasing clock.
- SealedVault.EncryptDecrypt: assumes that the broker hands out fresh handles and keys, and handles and tokens without surrounding white space, since unwrapping trims them.
- Attestation.AttestationTables.RegisterAttestationNonce: its two statements run back to back; `Attestation.LogExact` covers other interleavings.
- LeaseWorker.BrokerLeaseWorker.Run: observes as many turns as its script has, since the loop need not end; reading the clock takes no time.
- LeaseRepair.RoleCatalog.RepairLeaseOwnership: roles are taken in any order, since the result does not depend on it, and no other session changes the catalog meanwhile.

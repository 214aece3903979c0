# Gateway storage and Codex profile model

A Dafny model, with proofs, of the state and text logic a Codex account gateway depends on. It covers four areas, one
module per component:

- **SQL and transactions.** `SqlPlaceholders` is the pass that turns mixed `?` and `?N` placeholders into positional
  ones; `SqlNumerals` says what it does to a statement written out piece by piece with decimal indices, `SqlText` what
  becomes of the text, `SqlIndexZero` what an index 0 does. `Database` is the single connection and the transaction that
  rolls back when it goes out of scope; every statement, BEGIN, COMMIT and ROLLBACK may be refused.
- **The account store.** `AccountTables`, `GatewayCandidates`, `AccountUpdates` and `AccountStorage` hold the account
  tables, the windowed gateway query and its chunked form, listing, deleting and renumbering accounts; `CandidateRows`
  and `AccountRows` say in columns which rows those return and leave. `QuotaLimits` is token quota accounting in its two
  scopes, and `QuotaRows` what each row adds to the answers. `Wallet` is the wallet ledger, and `WalletRuns` its
  operations and their runs over committed and visible tables.
- **Codex profiles.** `ProfileSteps` is the backup, write and restore protocol one read or write at a time.
  `ProfileTakeover` runs it on a host, `ProfileRuns` interleaves any number of operations and edits, `ProfileHazards`
  says which operations may overlap, and `ProfileBlind` is about settings that cannot be read. `HistoryRepair` brings
  recorded history in line with a provider, through `Rollout`, `Threads` and `SessionIndex`; `IndexLines` says which
  lines the index gains; `HistoryBackups` prunes the backups made on the way. `ConfigPatch` edits `config.toml`.
- **Printers and parsers.** `AccountIdentity` prints composite account ids and parses them back, `IdentityText` spells
  both out, and `IdentityCollisions` says when two of them are one. `Utf8` and `Mojibake` undo Latin-1 misreadings (RFC
  3629 sections 3 and 4). `Json`, `JsonRoundTrip` and `JsonTrailingSpace` print and read JSON (RFC 8259). `Dashboard`
  fills the daily usage series.

`Wrappers`, `Numbers`, `Sorting` and `Text` hold what the others share.

Code that works step by step is modelled as classes and loops: `AccountStorage.Storage`, `WalletRuns.WalletStorage`,
`Database.Transaction`, `ProfileTakeover.Host`, `HistoryRepair.CodexProfile`, `HistoryBackups.BackupRoot`,
`ConfigPatch.Document`, and the loops of the SQL pass, the rollout patcher, the daily series and the mojibake repair.
Each is proved against a specification about which the lemmas speak. A statement, a read or a write that may fail takes
a fault parameter, and contracts hold for every choice of faults.

## Where the code does less than its readers may expect

- An explicit `?0` reads the first value but does not raise the numbering, so it is not an alias of `?1`: a bare
  placeholder right after it reads the first value again (`SqlIndexZero.IndexZeroReadsFirstButDoesNotCount`). Exactly
  when the two agree is `SqlIndexZero.ZeroIsOneExactlyWhenCountedOrNotBareFirst`.
- SQL text is copied octet by octet into characters, so a statement keeps its meaning exactly when it is ASCII
  (`SqlText.MeaningSurvivesExactlyWhenAscii`).
- A transaction clears its flag before COMMIT runs, so a refused COMMIT is never rolled back: the operation reports an
  error while its changes stay visible in a transaction nobody ends. Each transactional operation states exactly when
  that happens. The wallet tables then visible are balanced exactly unless an operation was stranded between its halves
  (`WalletRuns.VisibleIsBalancedExactlyUnlessStranded`).
- Different scopes can share a storage id, when one account's subject or tags spell what the other has in its scope:
  `AccountIdentity.ScopedLookingSubjectCollides` is a pair, and
  `IdentityCollisions.DifferentScopesShareIdExactlyWhenSpelled` is all of them. A workspace equal to its account id is
  dropped (`AccountIdentity.WorkspaceParsesBackExactlyUnlessDropped`).
- A rollup key id with blanks around it is seen by the overview and missed by the limited-key total and by the
  single-key total. The totals agree exactly when no counted rollup key is padded
  (`QuotaLimits.TotalsAgreeExactlyWhenUnpadded`, `QuotaLimits.SingleKeyTotalMatchesExactlyUnlessPadded`).
- Requests run concurrently (crates/service/src/http/rpc_endpoint.rs:350) and nothing locks the backup map between its
  load and its save, nor a profile between its backup and its files. Overlapping operations can lose an original
  (`ProfileHazards.ApplyInsideWindowLoses`, `ProfileHazards.RestoreInsideApplyLoses`), and which operations can is
  decided exactly by `ProfileHazards.EveryInterleavingIsRecoverableExactlyWithoutHazard`.
- Unreadable settings read as an empty backup map, so an apply can then replace every profile's backup
  (`ProfileBlind.BlindApplyLosesTakenOverProfile`). Nothing is lost exactly while nothing is taken over
  (`ProfileBlind.RecoverableExactlyWhenBlindSavesAreGuarded`).
- The direct patch undoes the gateway patch exactly on documents that named no provider and kept no empty provider
  table (`ConfigPatch.RoundTripExactlyWhenUntouched`).
- Usage buckets tile the requested interval exactly when the stored ones carry their proper ends
  (`Dashboard.TilesExactlyWithProperEnds`).

## Model

| member | source | states |
|---|---|---|
| `SqlPlaceholders.NormalizeSqlAndParams` | crates/rusqlite/src/lib.rs:812-854 | the nested byte loop computes `Rewritten` of the text's octets, errors included, and returns the octets one character each |
| `SqlPlaceholders.RewritePreservesMeaning` | crates/rusqlite/src/lib.rs:812-854 | for every accepted text and parameter list, the output read positionally over the reordered values has the same literals and bound values, in order, as the input read with numbered placeholders |
| `SqlPlaceholders.MeaningIsUnique` | crates/rusqlite/src/lib.rs:822-846 | a token sequence has at most one meaning over given parameters, so the shared one is the meaning |
| `SqlPlaceholders.OutputIsPositional` | crates/rusqlite/src/lib.rs:835-849 | the output lexes again to bare placeholders only, as many as there are reordered values |
| `SqlPlaceholders.RewriteTwice` | crates/rusqlite/src/lib.rs:812-854 | rewriting the output over the reordered values changes nothing |
| `SqlPlaceholders.FailsExactlyOnFault` | crates/rusqlite/src/lib.rs:829-846 | it fails exactly when some index does not parse or has no value, and reports the first such placeholder |
| `SqlNumerals.StatementReads` | crates/rusqlite/src/lib.rs:812-854 | a statement of plain octets, bare placeholders and decimal indices with any zeros in front is accepted exactly if every placeholder has its value; each is then a `?` with that value, all else stands, and otherwise the first one without a value decides the error |
| `SqlNumerals.EveryTextIsWritten` | crates/rusqlite/src/lib.rs:812-854 | every text is such a statement, so nothing is left out |
| `SqlNumerals.LonePlaceholder` | crates/rusqlite/src/lib.rs:829-846 | zeros and the numeral of n read the n-th value; above the range of `usize` they do not parse, above the number of values they have none |
| `SqlText.MeaningSurvivesExactlyWhenAscii` | crates/rusqlite/src/lib.rs:812-854 | for every accepted statement, the returned text, encoded again and read positionally over the returned values, has the input's meaning if and only if the statement is ASCII |
| `SqlText.TextSurvivesExactlyWhenAscii` | crates/rusqlite/src/lib.rs:822-850 | for every accepted statement, the returned text is the input with its indices dropped, character by character, if and only if the input is ASCII |
| `SqlIndexZero.ZeroIsOneExactlyWhenCountedOrNotBareFirst` | crates/rusqlite/src/lib.rs:829-846 | after any text and before any text, an index 0 and an index 1 give the same result if something was counted before or an explicit index from 1 on comes before the next bare placeholder; if the first two values differ and one of the two statements is accepted, only then |
| `SqlIndexZero.RewriteInParts` | crates/rusqlite/src/lib.rs:812-854 | rewriting a text and what follows it is rewriting the text, then the rest from the counter the text left |
| `SqlPlaceholders.CounterStaysInRange` | crates/rusqlite/src/lib.rs:818-846 | on success the largest index in use never exceeds the number of parameters |
| `Database.Connection.Begin` | crates/rusqlite/src/lib.rs:141-148 | BEGIN IMMEDIATE fails inside an open transaction and otherwise opens one on the committed tables |
| `Database.Transaction.Commit` | crates/rusqlite/src/lib.rs:725-730 | publishes the transaction's tables; a refused COMMIT leaves everything as it was with the flag already cleared |
| `Database.Transaction.Drop` | crates/rusqlite/src/lib.rs:733-739 | discards the open transaction exactly if neither commit nor drop was reached before; committed tables never change |
| `Text.NormalizedIds` | crates/core/src/storage/key_id_filters.rs:13-23 | the normalised list is the set of trimmed non-blank ids, each once, in increasing order |
| `Text.NormalizeIdempotent` | crates/core/src/storage/key_id_filters.rs:29-41 | normalising a chunk again inside the IN clause changes nothing |
| `AccountStorage.ChunkClause` | crates/core/src/storage/key_id_filters.rs:29-41 | an IN clause over a chunk admits exactly the chunk's ids, disjoint from the earlier chunks' |
| `GatewayCandidates.FilterKeepsLatest` | crates/core/src/storage/accounts.rs:2116-2151 | restricting the window to requested accounts leaves each requested account's latest snapshot as it was |
| `GatewayCandidates.FilterCommutesWithJoin` | crates/core/src/storage/accounts.rs:2045-2151 | filtering inside the latest-usage query is filtering the joined rows |
| `GatewayCandidates.CandidatesAreUnique` | crates/core/src/storage/accounts.rs:2086-2114 | no account yields two candidates |
| `AccountStorage.Storage.ListGatewayCandidatesForAccounts` | crates/core/src/storage/accounts.rs:879-899 | for every positive batch size, exactly the candidates, column by column, of the requested ids, each once, smaller sort first, then later update, then smaller id |
| `AccountStorage.Storage.ListGatewayCandidates` | crates/core/src/storage/accounts.rs:875-877 | exactly the pairs of an account and its token whose status spells none of five words and whose latest snapshot, if any, has room; smaller sort first, then later update |
| `CandidateRows.UnscopedIsCandidates` | crates/core/src/storage/accounts.rs:2045-2209 | membership by quantifiers over the tables: the snapshot that no other of the account beats in time or, at the same time, in id decides, and its percentages, windows and their pairing are named one by one |
| `CandidateRows.StatusIsWord` | crates/core/src/storage/accounts.rs:2203-2209 | a status is compared as the word it spells in any ASCII case between spaces |
| `AccountStorage.Storage.ListMatching` | crates/core/src/storage/accounts.rs:317-334 | the chunked listing is the sorted table filtered by the normalised set, whatever the batch size, duplicates or blanks |
| `AccountStorage.Storage.ListAccountsByStatuses` | crates/core/src/storage/accounts.rs:1699-1713 | exactly the accounts whose status spells a requested word, smaller sort first, then later update, then smaller id |
| `AccountStorage.Storage.ListAccountsForIds` | crates/core/src/storage/accounts.rs:360-377 | exactly the accounts whose id is requested, smaller sort first, then later update, then smaller id |
| `AccountTables.RankedSortIsUnique` | crates/core/src/storage/accounts.rs:891-898 | two lists of the same rows with unique ids sort to the same list, so the order is independent of the chunks |
| `AccountUpdates.BatchDeletionIsSequentialDeletion` | crates/core/src/storage/accounts.rs:1195-1242 | deleting a set of accounts at once leaves the store that deleting them one by one leaves |
| `AccountUpdates.TrimmedBatchMatchesSingleDeletions` | crates/core/src/storage/accounts.rs:1220-1242 | on a list of trimmed ids the batch deletion agrees with the single deletions in list order |
| `AccountUpdates.DeletionLeavesNoDependents` | crates/core/src/storage/accounts.rs:1946-1973 | none of the nine dependent tables keeps a row of a deleted account, and model-source rows of other kinds stay in full |
| `AccountRows.DeletedIsGone` | crates/core/src/storage/accounts.rs:1946-1973 | in each of the ten tables the rows of the deleted accounts are gone in every copy and every other row keeps its multiplicity |
| `AccountUpdates.RemovedRowsAreExistingIds` | crates/core/src/storage/accounts.rs:1224-1241 | the rows removed are as many as the distinct requested accounts that exist |
| `AccountUpdates.RenumberStep` | crates/core/src/storage/accounts.rs:418-438 | one more update turns the renumbering by the updates so far into the renumbering by all of them |
| `AccountRows.RenumberIsLiteral` | crates/core/src/storage/accounts.rs:409-441 | each listed account gets the sort of the last update for it and the new time, the others stay, each update appends an event whose kind, account, time and decimal text are named, and no other table changes |
| `AccountStorage.Storage.DeleteAccount` | crates/core/src/storage/accounts.rs:1195-1218 | removes the account and its dependents, or leaves the committed store; succeeds exactly when nothing is refused, and leaves a transaction open exactly when its COMMIT, or the ROLLBACK of failed work, is refused |
| `AccountStorage.Storage.DeleteAccounts` | crates/core/src/storage/accounts.rs:1220-1242 | removes all requested accounts and returns how many existed, for every batch size; succeeds exactly when none of the statements it issues is refused, and leaves a transaction open exactly when its COMMIT, or the ROLLBACK of failed work, is refused |
| `AccountStorage.Storage.UpdateAccountSorts` | crates/core/src/storage/accounts.rs:409-441 | succeeds exactly if every id exists and nothing is refused; each id then has its last listed sort and the events are appended in order; otherwise the committed store is as before, and exactly when a transaction is left open is stated |
| `QuotaLimits.QuotaTotalsAgree` | crates/core/src/storage/api_key_quota_limits.rs:198-240 | the total over limited keys equals the overview's total remaining tokens, when rollup key ids carry no blanks |
| `QuotaRows.RawRowCounts` | crates/core/src/storage/api_key_quota_limits.rs:144-328 | one more raw row of a key raises its usage in every answer by the total if set, else by input - cached + output with missing columns 0, and never by less than 0 |
| `QuotaRows.RollupRowCounts` | crates/core/src/storage/api_key_quota_limits.rs:144-328 | one more hourly or legacy row raises it by its total, never by less than 0 |
| `QuotaRows.NoRowsNoUsage` | crates/core/src/storage/api_key_quota_limits.rs:144-328 | without rows every answer is that nothing is used |
| `QuotaRows.OverviewIsSums` | crates/core/src/storage/api_key_quota_limits.rs:198-240 | used tokens are summed over the keys, and what remains is the sum of limit - used, at least 0, over the keys with a limit |
| `QuotaRows.OverviewLimits` | crates/core/src/storage/api_key_quota_limits.rs:214-240 | the total limit and the number of limited keys, in terms of keys and limit rows |
| `QuotaLimits.ScopesReportSameUsage` | crates/core/src/storage/api_key_quota_limits.rs:242-328 | pushing the limits into each usage branch reports the same usage for every limited key |
| `QuotaLimits.PaddedRowBreaksAgreement` | crates/core/src/storage/api_key_quota_limits.rs:270-328 | every counted padded rollup row breaks the agreement for some keys and limits |
| `QuotaLimits.TotalsAgreeExactlyWhenUnpadded` | crates/core/src/storage/api_key_quota_limits.rs:198-328 | the totals agree for all keys and limits if and only if no counted rollup row is padded |
| `QuotaLimits.OverviewIsBounded` | crates/core/src/storage/api_key_quota_limits.rs:214-240 | 0 <= remaining <= limit in total, limit <= remaining + used, and limit - remaining is the sum of min(used, limit) |
| `QuotaLimits.OverviewCountsKeysOnce` | crates/core/src/storage/api_key_quota_limits.rs:214-240 | the left join counts every key once |
| `QuotaLimits.SingleKeyTotalMatchesExactlyUnlessPadded` | crates/core/src/storage/api_key_quota_limits.rs:92-196 | the single-key total never exceeds the overview's usage of the key, and equals it exactly if no counted rollup row stands for the key under a padded id (rollup totals are NOT NULL in the schema) |
| `WalletRuns.WalletStorage.EnsureWalletForOwner` | crates/core/src/storage/account_manager.rs:869-888 | returns the owner's wallet, inserting an empty active one with its columns named, committed or inside an open transaction, only if there was none; exactly when it succeeds, and which error leaves a wallet behind |
| `WalletRuns.WalletStorage.AdjustWalletBalance` | crates/core/src/storage/account_manager.rs:954-1001 | books the entry and credits the wallet together, column by column, exactly if the wallet is active and nothing is refused; otherwise the committed tables are unchanged, and exactly when a transaction is left open is stated |
| `WalletRuns.WalletStorage.DeleteAppUser` | crates/core/src/storage/account_manager.rs:618-631 | removes in every copy the user and, row by row, what hangs on it, keeps every other row with its multiplicity, and returns how many users had the id; or leaves the committed tables; exactly when it succeeds and when a transaction is left open |
| `Wallet.AdjustmentKeepsBalance` | crates/core/src/storage/account_manager.rs:962-999 | booking an entry keeps every balance equal to its ledger sum and every recorded balance a prefix sum |
| `Wallet.UserDeletionKeepsBalance` | crates/core/src/storage/account_manager.rs:618-631 | deleting a user keeps the surviving wallets balanced and leaves no entry without its wallet |
| `WalletRuns.EveryRunIsBalanced` | crates/core/src/storage/account_manager.rs:869-1001 | over every run of ensure, adjust and delete, whatever statement, BEGIN, COMMIT or ROLLBACK is refused, committed balances equal ledger sums, recorded balances are prefix sums and no entry outlives its wallet |
| `WalletRuns.VisibleIsBalancedExactlyUnlessStranded` | crates/core/src/storage/account_manager.rs:618-1001 | what later statements see after a run is balanced if and only if no operation failed between its two halves with its ROLLBACK refused too: a credit without its entry, or a deletion of entries before wallets that hold credit |
| `WalletRuns.BookingProgress` | crates/core/src/storage/account_manager.rs:959-995 | a booking stopped anywhere is balanced exactly unless a nonzero credit went through and its entry did not |
| `WalletRuns.DeletionProgress` | crates/core/src/storage/account_manager.rs:618-631 | a user deletion stopped anywhere is balanced exactly unless the entries are gone and a wallet with credit is not |
| `WalletRuns.CreditOutstandingIsCreditBooked` | crates/core/src/storage/account_manager.rs:954-1001 | after every run from empty tables all committed balances together equal all committed ledger amounts together |
| `ProfileTakeover.Host.EnsureBackup` | crates/service/src/codex_profile.rs:1856-1874 | keeps an existing backup; otherwise saves the files as they are, or nothing; unreadable settings count as no backups, and exactly when the map is then replaced |
| `ProfileTakeover.Host.WriteProfileFiles` | crates/service/src/codex_profile.rs:1824-1854 | four writes in order, stopping at the first that fails, with the files stated for every point of failure; other profiles untouched |
| `ProfileTakeover.Host.ApplyProfile` | crates/service/src/codex_profile.rs:284-389 | whichever read or write fails, the host does what the operation's steps do alone; with readable settings an apply keeps or takes the backup before it writes, and with unreadable ones it replaces the map exactly if both files can be read and the settings saved |
| `ProfileTakeover.Host.RestoreProfile` | crates/service/src/codex_profile.rs:391-418 | whichever read or write fails, the host does what the operation's steps do alone, and the backup goes only after both files are back |
| `ProfileRuns.AloneIsARun` | crates/service/src/codex_profile.rs:284-418 | an operation with nothing in between is a run of the step machine |
| `ProfileRuns.TakeoverIsRecoverable` | crates/service/src/codex_profile.rs:284-418 | for any number of operations interleaved read by read and write by write, with edits between and failures anywhere, every original is recoverable at every point, if settings can be read, no two load-to-save windows overlap, no restore starts beside an unfinished apply of its profile and no profile is edited under an operation |
| `ProfileRuns.CompletedRestoreReturnsOriginal` | crates/service/src/codex_profile.rs:391-418 | in such a run a restore gives up its backup only with exactly the original files back, absence included, and no markers, other profiles and backups untouched |
| `ProfileHazards.EveryInterleavingIsRecoverableExactlyWithoutHazard` | crates/service/src/codex_profile.rs:284-418 | for any operations from any world, every original is recoverable at every point of every interleaving of their steps over readable settings if and only if no apply that changes its profile meets a restore of that profile, or adds a backup beside another operation that saves the map |
| `ProfileHazards.ApplyInsideWindowLoses` | crates/service/src/codex_profile.rs:1856-1874 | the run in which another operation loads before, and saves after, a takeover: the new backup is lost, or replaced by the changed files |
| `ProfileHazards.RestoreInsideApplyLoses` | crates/service/src/codex_profile.rs:391-418 | the run in which a restore completes between an apply's backup and its writes: the backup is gone and the files are not the original |
| `ProfileHazards.NoHazardIsRecoverable` | crates/service/src/codex_profile.rs:284-418 | without such a pair no interleaving and no failure loses an original |
| `ProfileBlind.RecoverableExactlyWhenBlindSavesAreGuarded` | crates/service/src/codex_profile.rs:1856-1910 | over operations one after another, on settings readable or not, every original is recoverable at every point if and only if each save after an unreadable load happens while every profile with a backup holds what the backup holds |
| `ProfileBlind.BlindApplyLosesTakenOverProfile` | crates/service/src/codex_profile.rs:1856-1910 | the losing run: an apply that cannot load the backups and can save them loses the original of any profile that is taken over, its own included |
| `HistoryRepair.CollectRolloutUpdates` | crates/service/src/codex_profile.rs:917-938 | one update, in file order, for exactly the files with something to patch |
| `SessionIndex.ReadSessionIndexIds` | crates/service/src/codex_profile.rs:1156-1177 | the loop over lines returns exactly the ids that some line, read as an object, has as text under "id" |
| `SessionIndex.AppendSessionIndexEntries` | crates/service/src/codex_profile.rs:1206-1228 | the new content is the old one, closed by a line break if it lacked one, and one line per entry |
| `HistoryRepair.CodexProfile.WriteRollouts` | crates/service/src/codex_profile.rs:819-828 | every file but the failing ones is patched, and changed files and warnings add up to the updates |
| `HistoryRepair.CodexProfile.UpdateProviders` | crates/service/src/codex_profile.rs:1187-1204 | row by row, a differing row gets the target and keeps its other columns, every other row stays, and the number of differing positions is returned |
| `HistoryRepair.CodexProfile.RepairHistory` | crates/service/src/codex_profile.rs:762-875 | a run without warnings carries out the whole repair and reports its counts; any run leaves each part repaired or as it was; without a backup nothing is written; a settled history is left alone; the new index is stated line by line: old lines in place, then for each unrecorded thread, in id order, an object of its id, its name and its time, case by case on columns and missing values |
| `HistoryRepair.RepairReachesFixpoint` | crates/service/src/codex_profile.rs:762-875 | after a clean run a second plan for the same provider is empty: no rollout, no row, no entry |
| `HistoryRepair.RetryCompletesRepair` | crates/service/src/codex_profile.rs:762-875 | a clean run after a run that failed anywhere gives what a clean run at first would have given |
| `HistoryRepair.RepairedIndexIsComplete` | crates/service/src/codex_profile.rs:1101-1228 | the repaired index records the old ids and every thread id, each old line unchanged in its place |
| `HistoryRepair.RepairCatchesUp` | crates/service/src/codex_profile.rs:1101-1228 | carrying out the plan adds exactly the lines of the threads the index does not record, each as often as it is in the table |
| `IndexLines.EntryLineRecords` | crates/service/src/codex_profile.rs:1109-1152 | the text of one added line and what it reads as: the id; the title, else the first user message, else the id, "Untitled" if missing or blank; the time from the milliseconds, else from the seconds, else from 0 |
| `SessionIndex.AppendedIndex` | crates/service/src/codex_profile.rs:1206-1228 | appending keeps every old line and adds one line per entry, even if the file had no final line break or its last line ends in a carriage return |
| `HistoryRepair.MissingInIdOrder` | crates/service/src/codex_profile.rs:1101-1154 | the missing entries are one for each unrecorded thread, in id order |
| `Threads.NoneDiffering` | crates/service/src/codex_profile.rs:1056-1066 | the count of rows to update is zero exactly when every row already names the provider, and then the UPDATE changes nothing |
| `Rollout.PatchRolloutProvider` | crates/service/src/codex_profile.rs:973-993 | the loop over segments returns the patched text, or nothing when no line changed: exactly the lines that read as a session_meta record naming another provider come to read as the same record naming the target |
| `Rollout.PatchedLineIsDone` | crates/service/src/codex_profile.rs:995-1034 | a patched line keeps its carriage returns, is one line, reads as the record naming the target, and needs no patch |
| `Rollout.OtherFieldsKept` | crates/service/src/codex_profile.rs:1014-1030 | all other fields of the record and of its payload keep their values |
| `Rollout.PatchIsLineLocal` | crates/service/src/codex_profile.rs:973-1034 | same number of lines, same terminators, every line that names no other provider byte for byte the same |
| `Rollout.PatchIsLiteral` | crates/service/src/codex_profile.rs:973-1034 | segment by segment, in terms of the JSON each line reads as: type, payload and model_provider are named, all other fields and the carriage returns are kept |
| `Rollout.SplitCutsAtBreaks` | crates/service/src/codex_profile.rs:976-980 | the segments joined are the content, and line breaks stand at their ends only |
| `Rollout.PatchReachesFixpoint` | crates/service/src/codex_profile.rs:973-1034 | nothing is returned exactly when no session_meta line names another provider, and patching again returns nothing |
| `JsonRoundTrip.PrintParseRoundTrip` | crates/service/src/codex_profile.rs:1003-1033 | reading a printed value within the nesting limit gives the value back |
| `JsonRoundTrip.PrintHasNoControl` | crates/service/src/codex_profile.rs:1031-1033 | printed JSON holds no raw control character, so no line break (RFC 8259 section 7) |
| `JsonRoundTrip.ParsedIsWellFormed` | crates/service/src/codex_profile.rs:1003-1006 | what was read has number lexemes, strictly increasing keys and bounded nesting |
| `JsonTrailingSpace.ParseIgnoresReturn` | crates/service/src/codex_profile.rs:1168-1173 | a trailing carriage return changes neither whether a line reads nor what it reads as |
| `HistoryBackups.BackupRoot.Prune` | crates/service/src/codex_profile.rs:1340-1377 | the loop removes exactly the entries the rule does not retain and whose removal succeeds: with distinct paths the newest stays, the next two if changed in the last seven days, and whatever cannot be removed |
| `HistoryBackups.RetainsPrefix` | crates/service/src/codex_profile.rs:1348-1371 | the rule retains a newest-first prefix of length min(n, max(1, min(3, fresh))) |
| `HistoryBackups.PrunedAreKept` | crates/service/src/codex_profile.rs:1348-1371 | survival in terms of how many backups are ahead in time or, at the same time, in path |
| `HistoryBackups.PruneKeepsNewestPrefix` | crates/service/src/codex_profile.rs:1340-1377 | when every removal succeeds the survivors are exactly that prefix |
| `HistoryBackups.PruneRemovesOldest` | crates/service/src/codex_profile.rs:1348-1371 | no survivor is older than a removed backup and the newest is never lost |
| `HistoryBackups.PruneTwice` | crates/service/src/codex_profile.rs:1340-1377 | pruning again with the same cutoff removes nothing |
| `ConfigPatch.Document.PatchForDirect` | crates/service/src/codex_profile.rs:1764-1784 | the edits in place compute `DirectPatched`, which key by key drops the managed selection, the managed provider and a table left empty, and keeps everything else |
| `ConfigPatch.Document.PatchForGateway` | crates/service/src/codex_profile.rs:1786-1816 | fails exactly when `model_providers` is present and no table; otherwise `model_provider` is "cm", the provider `cm` has exactly its three named entries, and every other provider and key stays |
| `ConfigPatch.GatewayAfterGateway` | crates/service/src/codex_profile.rs:1786-1816 | the later gateway patch wins |
| `ConfigPatch.GatewayAfterDirect` | crates/service/src/codex_profile.rs:1764-1816 | a direct patch leaves no trace under a later gateway patch |
| `ConfigPatch.DirectAfterGateway` | crates/service/src/codex_profile.rs:1764-1816 | direct after gateway is the original without `model_provider`, without the `cm` provider and without a then-empty provider table, all other keys kept |
| `ConfigPatch.WithoutGatewayIsUnique` | crates/service/src/codex_profile.rs:1764-1784 | that description determines the document |
| `ConfigPatch.RoundTripExactlyWhenUntouched` | crates/service/src/codex_profile.rs:1764-1816 | gateway then direct returns the original exactly on documents without a provider of their own, a `cm` provider or an empty provider table |
| `ConfigPatch.DirectIsStable` | crates/service/src/codex_profile.rs:1764-1784 | direct patching is idempotent, never leaves the managed provider selected and touches two keys only |
| `AccountIdentity.BuiltIdReadsBack` | crates/service/src/account_identity.rs:166-195 | for bar-free ids the parser finds the effective scope in the built id, else whatever the tags pose as |
| `IdentityText.BuiltIsStorageId` | crates/service/src/account_identity.rs:139-195 | the id spelled out: trimmed subject, "::", the account id behind "cgpt=", the workspace behind "ws=" unless equal, the tags, with bars between and every "::" of a part made "_" from the left |
| `IdentityText.MarkersRead` | crates/core/src/auth/mod.rs:111-146 | the parser spelled out: the first segment between bars behind the last "::" that carries the marker and a value that is not blank; without one, the whole id unless it looks scoped or imported |
| `AccountIdentity.ChatgptIdParsesBackExactlyWhenBarFree` | crates/core/src/auth/mod.rs:111-142 | the account id parses back, trimmed and with its separators replaced, exactly when it holds no bar |
| `AccountIdentity.WorkspaceParsesBackExactlyUnlessDropped` | crates/core/src/auth/mod.rs:111-146 | among bar-free ids and for any tags, the workspace parses back exactly unless it equals the account id and the tags do not pose as it |
| `IdentityCollisions.DifferentScopesShareIdExactlyWhenSpelled` | crates/service/src/account_identity.rs:139-195 | different effective scopes of bar-free ids share a built id if and only if one account's tags or subject spell what the other has in its scope, case by case on the inputs |
| `IdentityCollisions.ScopedIdsCoincideExactly` | crates/service/src/account_identity.rs:166-195 | scoped ids coincide exactly if their trimmed subjects and their suffixes do, bars or not |
| `IdentityCollisions.ScopelessCollisions` | crates/service/src/account_identity.rs:166-195 | a scopeless id and a scoped one coincide exactly if the scopeless subject and tags spell the suffix, a tag that begins with a colon included |
| `AccountIdentity.SameSubjectSameIdExactlyWhenSameScope` | crates/service/src/account_identity.rs:139-195 | for one subject and one tag text, two bar-free scopes share an id exactly when they are the same effective scope |
| `AccountIdentity.NormalizedPartShape` | crates/service/src/account_identity.rs:56-59 | a normalised part is non-empty, trimmed and free of separators |
| `Utf8.DecodesExactlyEncodings` | crates/service/src/aggregate_api.rs:899-903 | strict decoding accepts exactly the encodings, each with its one text (RFC 3629 sections 3 and 4) |
| `Mojibake.RepairMojibakeUtf8` | crates/service/src/aggregate_api.rs:890-909 | the loop with its early return computes `Repaired`, which undoes exactly the misreadings of texts with a character from U+4E00 to U+9FFF |
| `Mojibake.RepairsExactlyMisreadings` | crates/service/src/aggregate_api.rs:890-909 | the repair yields another text exactly when the value is the Latin-1 misreading of it and it holds a CJK character |
| `Mojibake.WideTextUnchanged` | crates/service/src/aggregate_api.rs:890-898 | text with a character above U+00FF is left alone |
| `Mojibake.RepairIdempotent` | crates/service/src/aggregate_api.rs:890-909 | repairing a repaired text changes nothing |
| `Dashboard.FillDailyUsage` | crates/service/src/dashboard.rs:159-190 | the loop ends and yields the points start, start + b, ... below the end, each the last stored bucket of its start with its eight numbers at least 0, or an empty day cut at the end |
| `Dashboard.TilesExactlyWithProperEnds` | crates/service/src/dashboard.rs:159-190 | the points tile the interval exactly when the stored buckets used carry their proper ends |
| `Dashboard.SeriesConservesTokens` | crates/service/src/dashboard.rs:145-190 | the tokens over the points are the clamped tokens of the buckets on the grid, each used once |

## Left out

- TakeoverIsRecoverable: assumes an order of overlap that the code does not enforce, and readable settings, because without them the claim is false; `ProfileHazards` and `ProfileBlind` state exactly when.
- RecoverableExactlyWhenBlindSavesAreGuarded: is about operations one after another; blind saves among overlapping operations are not classified.
- Numeric widths of sums: wallet balances, SUM in the quota queries and millisecond conversion use unbounded integers. Only the dashboard's saturating cursor and the SQL index limit are modelled at their width.
- JSON numbers keep their lexeme: re-formatting of a number on printing and range errors on reading are not part of this model.
- Rounding of costs, the cost columns of the usage query and percentages.
- The file system: files are contents by path, a write replaces the content or fails without effect, and directory walking, file extensions, path aliases and permissions are not modelled.
- Migration of legacy markers and legacy history backups before an apply or a repair; a failing one is a warning only.
- TOML and settings text: config documents are trees, the backup map is a map, and parsing, layout and comments are not modelled.
- Timestamps: formatting is a function parameter, and clocks, generated ids and random suffixes are parameters.
- Rows with equal rank keys in the unscoped gateway query, and threads with equal ids, keep their scan order, where SQL leaves the order open.
- Overlapping database connections and lock waits: one connection is modelled, with any statement free to be refused.
- SQL literals and comments: the pass itself treats every `?` as a placeholder, and so does the model.
- Redeem-code rows and foreign-key actions beyond the tables the deletions name.
- The other chunked listings of accounts and quota limits, the single-row lookups, setters and upserts: same shape, easier.
- Choosing an existing account by identity, fallback subject keys and claim extraction from tokens.
- The history repair that follows an apply inside the same call: `HistoryRepair` models it on its own.
- HTTP, OAuth, balance probes, hashing and logging.

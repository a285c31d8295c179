# What the personal-finance tracker keeps true

A Dafny model of the stateful cores of a personal-finance tracker and proofs about every input, run or reachable
state of them: statement and investment imports that may be repeated at will, a FIFO investment read-model, refresh
tokens under concurrent requests, backup and restore, the merchant alias resolver, the category rollup, guest
teardown and the two migrations that re-keyed stored rows.

Tables are sequences or maps of rows together with the unique and foreign keys the schema declares. Money is integer
paise; units and prices are integers scaled by 10^8 and FX rates by 10^6, so every quotient is exact before it is
rounded half-even. Hashes are represented by the payload that is hashed (the hash is taken to be injective), tokens
by fresh row numbers, clocks, FX lookups and database answers by parameters. What the program does step by step is a
class or a method with loops, each proved against a function of the old state; what the program promises is then
proved about those functions.

The main results:

- **FIFO lots** (`holdings.dfy`, `txn_kind.dfy`, `lot_queue.dfy`, `portfolio.dfy`). For every history the queue is the list of
  acquisitions with the first matched units dropped; its units are the signed partial sum reflected at its running
  minimum, so the replay and the write-time guard agree exactly on histories that never oversell. Surviving plus
  released cost is the acquisition cost to the paisa, and a lot cut k times is within k/2 paise of its exact cost.
  What each transaction type does to units and cost is stated by type, and every figure of a position in its own terms.
- **Dedup with editable identity** (`occurrence.dfy`, `dedup.dfy`, `statement_import.dfy`). In every run of imports,
  restores, edits, deletes and manual posts no two rows share (fingerprint, occurrence); an import leaves each source
  line stored as often as before or as in the file, whichever is more; a re-upload after edits stages nothing,
  and a line whose date, amount, account or merchant's words no stored source line shares is always stored.
- **Investment uploads** (`investment_import.dfy`, `replay_order.dfy`). Copies per key converge over any number of
  uploads with any rows rejected; the running balance is the guard's; a file in date order none of whose rows precedes
  a stored one never makes the replay clamp, a concrete back-dated sell shows why the order matters, and the exact
  condition is stated on the stored and accepted rows. Skipping a completed file loses something exactly when a key is
  short by then, which takes a delete.
- **Refresh tokens** (`sessions.dfy`, `session_store.dfy`). Reads and writes are separate steps and interleave
  freely: at most one live token per family, at most one successor per token, dead families stay dead, no rotation
  checked at or after login plus the cap succeeds, and a token survives whatever is about other families and users.
- **Backup** (`backup_format.dfy`, `backup_record.dfy`, `labels.dfy`, `backup_export.dfy`, `backup_upserts.dfy`,
  `backup_restore.dfy`, `backup_store.dfy`, `fresh_upserts.dfy`, `backup_round_trip.dfy`, `backup_loss.dfy`,
  `flattening.dfy`, `category_repeat.dfy`, `backup_repeat.dfy`, `own_backup.dfy`). Export, print, parse and restore
  into an empty tenant give every confirmed transaction back with its category's parent link and exactly the pairs with
  both legs confirmed, texts stripped of the whitespace a cell cannot hold and labels normalised once more; the
  views are unchanged, and no transaction lost, under exact conditions on the names. Restoring any file a second time
  changes nothing exactly when no name is lost: held by the file only archived and not active in the store. Restoring
  one's own backup over the tenant adds nothing exactly when every confirmed row's account name is blank or active once
  stripped and no line, rebooked on the active account of its name, is asserted more often than stored rows account for it.
  Restores keep categories at two levels whatever the file says, any record is accepted under an exact condition, and a
  backup that still says "refund" restores as one that says "spend".
- **Alias resolver** (`merchant_alias.dfy`), **rollup** (`category_rollup.dfy`), **teardown** (`guest_teardown.dfy`),
  **re-keying** (`fingerprint.dfy`, `key_migration.dfy`).

`text.dfy`, `stable_sort.dfy` and `fx_math.dfy` hold what these share: strings, stable sorting, rounding.

Where the code and its own words part:

- Migrations 0025 and 0027 document that a downgrade reverses only when no two rows of a scope share all base fields.
  That is necessary and not sufficient: the recompute joins the fields with nothing between them, so different rows of
  one day can meet too (1 paisa at "2x" and 12 paise at "x"; 12 paise for 345 units and 123 paise for 45). The model
  follows the code: `TransactionsReversibleIff` and `InvestmentsReversibleIff` are the exact conditions,
  `DistinctFieldsMayNotReverse` and `DistinctInvestmentsMayNotReverse` the witnesses.
- The category importer documents that every flattening is reported. A row whose parent was itself flattened earlier in
  the same file becomes a root without a warning (`SilentFlattening`); `EveryFlatteningWarnedIff` says for which stores
  and files every one is reported.
- The backup importer documents that re-importing skips the duplicates. Rows of an account the file holds only
  archived, and the tenant has not active, are added again each time; `RestoringTwiceAddsNothing` is the exact
  condition, `OwnBackups.OwnBackupAddsNothing` the one for a tenant's own backup, and `ArchivedRowComesBackTwice` the
  witness.
- The label normaliser documents that every spelling of a name resolves to one label. It drops one hash each time it
  runs, and a restore runs it again: "##x" is stored as "#x" and comes back as "x" (`HashedLabelComesBackBare`);
  `OwnNormalFormIff` says which names it leaves alone.
- The investment importer notes that when it skips a completed file every row is already present. An uploaded row
  deleted since is not, and stays away (`DeletedRowIsNotRestaged`, `ShortCircuitLosesIff`).
- The exporter documents a faithful backup. The account schema accepts names that are or end in whitespace, and the
  parser strips cells: an account named " " loses every transaction (`BlankAccountLosesItsRows`, `NothingLostIffNamed`),
  and "x" and "x " come back as one account (`RestoredTogetherIffSameName`).

## Model

| member | source | states |
|---|---|---|
| StableSorting.SortIsStable | frontend/lib/categories.ts:512-520 | sorting keeps the arrival order of elements the order does not separate |
| FxMath.RoundHalfEven | backend/app/services/fx_math.py:21-25 | rounds an exact quotient to the nearest integer, ties to even |
| FxMath.HalfEvenUnique | backend/app/services/fx_math.py:21-25 | that relation determines the result, so any two half-even roundings agree |
| FxMath.ShareWithinAmount | backend/app/services/holdings_service.py:398-405 | a proportional share of a cost never exceeds the cost or falls below zero |
| FxMath.ToInrPaise | backend/app/services/fx_math.py:21-25 | the short cut at rate 1 still is the half-even product |
| FxMath.IdentityExactlyAtRateOne | backend/app/services/fx_math.py:21-25 | conversion is the identity on all amounts if and only if the rate is 1 |
| Holdings.ConsumeTakesUnits | backend/app/services/holdings_service.py:386-414 | one sell removes exactly its units, or everything when it asks for more |
| Holdings.ReplayReflectsNet | backend/app/services/holdings_service.py:350-414 | for every history the units left are the signed sum minus its running minimum, and what was clamped is that minimum |
| Holdings.LowestNetIsMinimum | backend/app/services/holdings_service.py:311-347 | the running minimum is a lower bound of all prefix sums and is attained |
| Holdings.ReplayAgreesWithGuard | backend/app/services/holdings_service.py:323-414 | the replay never reports less than available_units, and equals it exactly when no prefix oversells |
| Holdings.NetUnitsOrderInsensitive | backend/app/services/holdings_service.py:323-347 | the guard gives the same answer for every ordering of the rows |
| Holdings.ReplayDependsOnOrder | backend/app/services/holdings_service.py:386-414 | a sell before its buy leaves the buy held although the guard's total is zero |
| TxnKinds.AlikeHistories | backend/app/services/holdings_service.py:311-376 | a switch-out stands for a sell, an instalment or a switch-in for a buy, anywhere in any history: queue, guard and clamped units agree |
| TxnKinds.IdleRowsDoNothing | backend/app/services/holdings_service.py:377-383 | dividends and splits may be left out of any history |
| TxnKinds.NetUnitsByKind | backend/app/services/holdings_service.py:311-347 | the guard's total is the units of buys, instalments, bonuses and switch-ins less those of sells and switch-outs |
| TxnKinds.CostByKind | backend/app/services/holdings_service.py:350-376 | held and released cost together are what the purchases cost, fees included; a bonus costs nothing |
| Holdings.CutKeepsRemnant | backend/app/services/holdings_service.py:394-407 | a partial sell adds at most half a paisa of drift from the exact proportional cost and keeps the rate |
| Holdings.QueueDropsFirstMatched | backend/app/services/holdings_service.py:350-414 | FIFO for every history: the queue is the acquisitions with the first matched units dropped, only the front lot cut, all later lots as opened |
| Holdings.CutsBoundedBySells | backend/app/services/holdings_service.py:386-414 | the front lot has been cut at most once per sell and no other lot at all |
| Holdings.CostConserved | backend/app/services/holdings_service.py:350-407 | surviving plus released cost equals total acquisition cost for every history |
| Holdings.FullExitLeavesNothing | backend/app/services/holdings_service.py:386-414 | a full exit leaves no lot and releases all cost when every acquisition had units |
| Holdings.InvestedInrWithinHalfPaisaPerLot | backend/app/services/holdings_service.py:198-202 | the per-lot INR total is within half a paisa per lot of the exact sum |
| LotQueues.LotQueue.ConsumeFifo | backend/app/services/holdings_service.py:386-414 | the in-place loop over mutable lots leaves the specified queue and returns what found no lot |
| LotQueues.LotQueue.Apply | backend/app/services/holdings_service.py:350-383 | each transaction type's effect on the mutable queue, and its clamped units |
| LotQueues.ReplayHistory | backend/app/services/holdings_service.py:185-190 | folding a history through the mutable queue gives the specified replay and the clamped total |
| LotQueues.AvailableUnits | backend/app/services/holdings_service.py:323-347 | the guard's loop computes the signed sum |
| LotQueues.HistoryIsOwn | backend/app/services/holdings_service.py:166-190 | an instrument's history is its own rows, all of them in order, and nothing of another's |
| LotQueues.LotsByInstrument | backend/app/services/holdings_service.py:166-190 | one pass over all rows gives each active instrument the replay of its own history, with no lot shared between queues |
| Portfolios.ComputeHoldings | backend/app/services/holdings_service.py:141-253 | the whole read-model on mutable lots, average cost and valuation age included, equals the valued positions, symbol-sorted |
| Portfolios.HeldIffAboveLowestNet | backend/app/services/holdings_service.py:193-197 | an instrument is a position exactly when its signed total stands above its running minimum |
| Portfolios.SurvivingRates | backend/app/services/holdings_service.py:131-139 | consumption never brings in a rate the acquisitions did not have |
| Portfolios.MaxStaleness | backend/app/services/holdings_service.py:105-127 | the age of the oldest dated valuation: an attained upper bound, missing when none is dated |
| Portfolios.InrHoldingIsItsOwnConversion | backend/app/services/holdings_service.py:46-82 | for an INR holding every INR figure equals its native one, with or without a dollar rate |
| Portfolios.PositionSays | backend/app/services/holdings_service.py:193-251 | each figure in the instrument's and lots' own terms: a value exactly with a price, an INR value exactly with a price and, for dollars, a quote, rounded half-even; each profit value less cost |
| Portfolios.WholeUnitsAtWholePrice | backend/app/services/holdings_service.py:198-214 | n whole units at p whole paise are worth n times p and average back to p |
| Portfolios.HoldingsBySymbol | backend/app/services/holdings_service.py:252 | the list holds every position once, by symbol |
| Portfolios.TilesCount | backend/app/services/holdings_service.py:267-295 | each tile counts the positions with a value, without a price, and with a price but no rate |
| Portfolios.ValuelessFor | backend/app/services/holdings_service.py:272-280 | a position lacks a price exactly when the instrument does, and a rate exactly when it is in dollars with no quote |
| Portfolios.SummarizeHoldings | backend/app/services/holdings_service.py:256-295 | the accumulating loop computes the tiles |
| Portfolios.TilesAgreeWithRows | backend/app/services/holdings_service.py:256-295 | the profit tile is the sum of the rows' own profits and every row falls in exactly one count |
| Fingerprints.NormalizeIdempotent | backend/app/services/merchant.py:40-42 | normalising a normalised merchant changes nothing |
| Fingerprints.NormalizedMerchantHasNoSeparator | backend/app/services/merchant.py:40-42 | the separator never occurs in a normalised merchant |
| Fingerprints.NormalizedWords | backend/app/services/merchant.py:40-42 | normalising neither loses, adds nor splits a word |
| Fingerprints.NormalizedKeepsCharacters | backend/app/services/merchant.py:40-42 | every character but whitespace stays, in order and in lower case |
| Fingerprints.SameMerchantIff | backend/app/services/merchant.py:40-42 | two printed merchants are one exactly when their lower-cased words agree |
| Fingerprints.FingerprintInjective | backend/app/services/fingerprint.py:27-54 | two payloads agree only when date, amount, merchant and account all agree |
| Fingerprints.BareConcatenationCollides | backend/app/services/fingerprint.py:27-33 | without the separator two different rows have one payload |
| Fingerprints.InvestmentFingerprintInjective | backend/app/services/investment_import_service.py:492-529 | the same for the five investment fields |
| KeyMigration.UpgradeKeepsKey | backend/alembic/versions/0025_fingerprint_separator_and_occurrence.py:84-140 | the live key holds at every mixture of old and new fingerprints |
| KeyMigration.Table.UpdateFingerprint | backend/alembic/versions/0025_fingerprint_separator_and_occurrence.py:84-116 | one row's UPDATE is refused exactly when it would clash, and then changes nothing |
| KeyMigration.Table.Recompute | backend/alembic/versions/0025_fingerprint_separator_and_occurrence.py:84-116 | the row-by-row rewrite succeeds exactly when every intermediate table satisfies the key |
| KeyMigration.Table.Upgrade | backend/alembic/versions/0027_investment_fingerprint_separator_and_occurrence.py:106-159 | the upgrade never fails and re-keys every fingerprinted row |
| KeyMigration.UpgradedRow | backend/alembic/versions/0025_fingerprint_separator_and_occurrence.py:119-140 | every row ends in place 0, re-keyed if it was keyed, with scope and fields kept |
| KeyMigration.DowngradeOutcome | backend/alembic/versions/0025_fingerprint_separator_and_occurrence.py:143-151 | the downgrade's two steps succeed if and only if no two rows of one scope run together into one text |
| KeyMigration.Table.Downgrade | backend/alembic/versions/0027_investment_fingerprint_separator_and_occurrence.py:162-169 | the downgrade's loop returns success exactly under that condition |
| KeyMigration.TransactionsReversibleIff | backend/alembic/versions/0025_fingerprint_separator_and_occurrence.py:46-52 | transactions can be downgraded if and only if no two of one user, account and date run amount and merchant together into one text |
| KeyMigration.DistinctFieldsMayNotReverse | backend/alembic/versions/0025_fingerprint_separator_and_occurrence.py:46-52 | two different transactions of one day and account satisfy the new key and cannot be downgraded |
| KeyMigration.InvestmentsReversibleIff | backend/alembic/versions/0027_investment_fingerprint_separator_and_occurrence.py:57-66 | investment transactions can be downgraded if and only if no two of one user, instrument, date and kind run amount and units together into one text |
| KeyMigration.DistinctInvestmentsMayNotReverse | backend/alembic/versions/0027_investment_fingerprint_separator_and_occurrence.py:21-25 | two different investments of one day and instrument satisfy the new key and cannot be downgraded |
| Occurrences.OccurrenceAllocator.Allocate | backend/app/services/occurrence.py:40-78 | answers the n-th request for a key with nothing while n copies are stored, else with the next ordinal above the largest; the tally moves on every call |
| Dedup.StagesSurplus | backend/app/services/import_service.py:347-395 | a file stages exactly its surplus per fingerprint |
| Dedup.ImportReachesMaximum | backend/app/services/import_service.py:248-395 | after an import each source line is stored as often as before or as in the file, whichever is more |
| Dedup.StagedOrdinalsAreFree | backend/app/services/import_service.py:270-326 | every ordinal handed out lies above all stored ones of its current fingerprint and is issued once |
| Dedup.ImportKeepsConsistent | backend/app/services/import_service.py:270-389 | no import collides with a stored row whatever gaps deletes and edits left |
| Dedup.ApplyKeepsConsistent | backend/app/models/transaction.py:90-106 | every single step keeps the unique key and the fingerprints truthful |
| Dedup.RunKeepsConsistent | backend/app/services/import_service.py:270-389 | in every run no two rows share (fingerprint, occurrence), although the declared key also names the account |
| Dedup.StatementLinesAreNonZero | backend/app/services/import_service.py:248-267 | exactly the non-zero lines reach the allocator, once each and in file order |
| Dedup.KeepsLinesKeepsCount | backend/app/models/transaction.py:169-190 | steps that keep source lines never lower the count of any source key, edits included |
| Dedup.NewLineIsStored | backend/app/services/import_service.py:248-395 | a non-zero line whose date, amount, account or merchant's words no stored source line shares is among the rows added, saying what the line says |
| Dedup.SecondStatementAddsIff | backend/app/services/import_service.py:248-395 | of two one-line statements the second adds its line exactly when date, amount or the merchant's words differ |
| Dedup.EditOutcome | backend/app/api/v1/transactions.py:684-715 | an edit is refused exactly when it moves to an identity whose first place is taken; else the row says the new identity, in place 0 if it moved, its origin and all other rows kept |
| Dedup.PostOutcome | backend/app/api/v1/transactions.py:332-398 | a post is refused exactly when the first place is taken; what it adds has no source line |
| Dedup.DeleteOutcome | backend/app/api/v1/transactions.py:762-824 | a delete takes out the one row and keeps the others in order |
| Dedup.StagesNothing | backend/app/services/import_service.py:347-395 | a file stages nothing exactly when the store accounts for every line |
| Dedup.ReuploadStagesNothing | backend/app/services/import_service.py:270-395 | re-uploading after any edits of imported rows, posts and other imports changes nothing |
| Dedup.EditedRowIsDuplicatedByOwnBackup | backend/app/services/backup_import_service.py:438-446 | one corrected import row, asserted again on its own account, is duplicated |
| StatementImports.GroupsGiveFullScan | backend/app/services/import_service.py:301-326 | folding rows grouped on two columns gives the counts and maxima of two full scans |
| StatementImports.ScopeIsExact | backend/app/services/import_service.py:290-320 | restricting the query to the file's fingerprints loses nothing they need |
| StatementImports.GroupingExists | backend/app/services/import_service.py:304-324 | every table has such a grouped answer |
| StatementImports.FoldGroups | backend/app/services/import_service.py:302-326 | the dictionary loop computes those figures per key |
| StatementImports.FoldUnscoped | backend/app/services/backup_import_service.py:361-383 | the unscoped prefetch agrees with a full scan on every key, present or not |
| StatementImports.TransactionTable.Stage | backend/app/services/import_service.py:346-395 | the allocate-and-persist loop stores exactly the staged rows and counts them |
| StatementImports.TransactionTable.ImportStatement | backend/app/services/import_service.py:243-395 | both passes together are the import step; imported plus skipped is the file's length |
| StatementImports.TransactionTable.RestoreBackup | backend/app/services/backup_import_service.py:331-478 | the restore's dedup is the restore step on the same store |
| StatementImports.TransactionTable.EditIdentity | backend/app/api/v1/transactions.py:684-715 | an edit recomputes the fingerprint, resets the ordinal only when it moved, is refused on collision and never touches the origin |
| StatementImports.UneditedRowIsNeverRefused | backend/app/api/v1/transactions.py:572-583 | re-sending a row's own identity keeps its ordinal and never collides |
| StatementImports.TransactionTable.Post | backend/app/api/v1/transactions.py:332-398 | a manual post asks for ordinal 0 and is refused on collision |
| InvestmentImports.BalancesStayNonNegative | backend/app/services/investment_import_service.py:424-488 | no upload takes an instrument's balance below zero at any row |
| InvestmentImports.UploadCounts | backend/app/services/investment_import_service.py:402-489 | copies per key stay between what was there and the larger of that and the file's, and reach it when nothing is rejected |
| InvestmentImports.UploadsConverge | backend/app/services/investment_import_service.py:205-215 | the same over any number of uploads with any rejects, and completion means the maximum was reached |
| InvestmentImports.ShortCircuitLosesIff | backend/app/services/investment_import_service.py:143-180 | whatever is uploaded, entered or deleted after a file completed, uploading it again changes nothing; processing it would if and only if some key is stored less often than the file holds it, which takes a delete of an uploaded row |
| InvestmentImports.DeletedRowIsNotRestaged | backend/app/services/investment_import_service.py:151-180 | a row uploaded and deleted does not come back with its file, though processing the file would store it |
| InvestmentImports.UploadKeepsIndex | backend/app/services/investment_import_service.py:402-450 | no upload trips the unique index, gaps from rejected rows notwithstanding |
| InvestmentImports.NewRowsNeverOversell | backend/app/services/investment_import_service.py:424-488 | on top of what is held every prefix of an instrument's new rows stays non-negative |
| InvestmentImports.InOrderUploadNeverClamps | backend/app/services/investment_import_service.py:424-488 | when the new rows extend a sound stored history in (date, id) order the replay never clamps |
| InvestmentImports.DatedUploadNeverClamps | backend/app/services/investment_import_service.py:424-488 | on a sound stored history a file whose rows of the instrument are in date order, none before a stored one, never makes the replay clamp, whatever is rejected |
| ReplayOrders.UploadNeverClampsIff | backend/app/services/investment_import_service.py:424-488 | after any upload the replay clamps nothing if and only if at each stored or accepted row the units dated up to it are not negative |
| ReplayOrders.SortedBalances | backend/app/services/holdings_service.py:175-190 | the balances the date-ordered replay passes through are those read off the rows where they stand |
| InvestmentImports.ReplayKeepsGuardBalance | backend/app/services/holdings_service.py:323-414 | in replay order the read-model holds the guard's balance exactly when no prefix oversells |
| InvestmentImports.BackDatedSellClamps | backend/app/services/investment_import_service.py:424-470 | a back-dated sell passes the guard and is clamped by the replay |
| InvestmentImports.InvestmentTable.PersistRow | backend/app/services/investment_import_service.py:434-488 | one turn allocates before both rejects and moves the running balance only on a stored row |
| InvestmentImports.InvestmentTable.PersistTxns | backend/app/services/investment_import_service.py:365-489 | the loop stores exactly the upload's rows while its running map equals available_units of the store so far |
| InvestmentImports.InvestmentTable.PersistInvestmentRows | backend/app/services/investment_import_service.py:126-252 | short-circuit on a completed batch, else persist and complete when nothing was rejected |
| RefreshSessions.OriginIsLogin | backend/app/services/auth_service.py:162-180 | the family's minimum creation time is its login time |
| RefreshSessions.StepKeepsInvariant | backend/app/services/auth_service.py:135-283 | every read, write, logout, password change, login or clock tick keeps one live token per family, the lineage, the order and the cap |
| RefreshSessions.TokensAreSingleUse | backend/app/services/auth_service.py:140-213 | in every interleaving a family has at most one live token and a token at most one successor |
| RefreshSessions.NoRotationBeyondCap | backend/app/services/auth_service.py:162-213 | no rotation whose checks ran at or after login plus the cap ever issued a token |
| RefreshSessions.DeadFamiliesStayDead | backend/app/services/auth_service.py:140-283 | a family with no live token never has one again |
| RefreshSessions.ReuseKillsFamily | backend/app/services/auth_service.py:152-156 | presenting a dead token kills the family whatever commits in between |
| RefreshSessions.PasswordChangeEndsSessions | backend/app/services/auth_service.py:216-239 | whatever happens after a password change, no family the user had a token in ever has a live one again |
| RefreshSessions.SecondRotationRollsBack | backend/app/services/auth_service.py:193-213 | of two rotations that read one token as live the later write issues nothing, whatever runs between the writes |
| RefreshSessions.LogoutKillsIffStillLive | backend/app/services/auth_service.py:242-249 | a logout kills the family exactly when its token is still the live one |
| RefreshSessions.UndisturbedRefresh | backend/app/services/auth_service.py:140-213 | a refresh keeps the family alive if and only if the token is live, unexpired, within the cap from login and its sandbox not over |
| RefreshSessions.CommitSparesOthers | backend/app/services/auth_service.py:193-213 | a write leaves every row of a family it is not about as it was, and a dead row's time of death unless a logout had read it live |
| RefreshSessions.PasswordChangeSparesOthers | backend/app/services/auth_service.py:216-283 | a password change leaves every row of other users as it was and issues one live token of that user |
| RefreshSessions.OthersLeaveTokenAlone | backend/app/services/auth_service.py:140-283 | through any steps about other families and users a token's row stays exactly as it is |
| RefreshSessions.ExpiredTokenDiesAlone | backend/app/services/auth_service.py:157-161 | an expired token's request revokes that row and leaves its family, whatever commits in between |
| RefreshSessions.FamilyEndsBeyondCap | backend/app/services/auth_service.py:162-191 | beyond the cap or after the sandbox the whole family ends, whatever commits in between |
| RefreshSessions.LogoutIsIdempotent | backend/app/services/auth_service.py:242-249 | a logout with an unknown or dead token writes nothing |
| RefreshSessions.LoginOpensFamily | backend/app/services/auth_service.py:135-137 | a login changes no row and opens a family with one live token of that user, good for one lifetime |
| RefreshSessions.RotationIssuesOne | backend/app/services/auth_service.py:193-213 | a rotation that goes through issues one token of the same user and family and revokes only the one presented |
| RefreshSessions.TokensExpireOnTime | backend/app/services/auth_service.py:252-265 | in every run a token expires one lifetime after its creation |
| SessionStores.SessionStore.ReadForRotation | backend/app/services/auth_service.py:140-191 | the read phase decides as the protocol's read step |
| SessionStores.SessionStore.ReadForLogout | backend/app/services/auth_service.py:242-249 | the read of a logout is the protocol's read step: only a live row is to be written |
| SessionStores.SessionStore.Commit | backend/app/services/auth_service.py:152-213 | the write phase is the protocol's commit step and returns a successor exactly when the conditional update hit |
| SessionStores.SessionStore.RevokeFamily | backend/app/services/auth_service.py:268-273 | revokes exactly the family's live rows |
| SessionStores.SessionStore.RevokeAllForUser | backend/app/services/auth_service.py:276-283 | revokes exactly the user's live rows |
| SessionStores.SessionStore.StartSession | backend/app/services/auth_service.py:135-137 | a login is the protocol's login step |
| SessionStores.SessionStore.ChangePassword | backend/app/services/auth_service.py:216-239 | one write transaction revokes everything and issues one token |
| BackupFormat.CellRoundTrip | backend/app/parsers/backup_csv.py:175-181 | exactly clean values, and the missing one, come back from a cell as written |
| BackupFormat.LabelsRoundTrip | backend/app/parsers/backup_csv.py:184-192 | a semicolon-joined label list splits back into itself exactly when every name is clean and free of semicolons |
| BackupFormat.NormalMerchantIsClean | backend/app/parsers/backup_csv.py:381-382 | a normalised merchant survives its cell |
| BackupFormat.TransactionRoundTrip | backend/app/parsers/backup_csv.py:328-389 | a printed transaction is rejected if and only if its account's name is blank, else read back stripped, and unchanged exactly when printable |
| BackupFormat.CategoryRoundTrip | backend/app/parsers/backup_csv.py:293-313 | a printed category is read back unchanged exactly when its names are clean and its colour lower-case hex |
| BackupFormat.AccountRoundTrip | backend/app/parsers/backup_csv.py:249-278 | a printed INR account is rejected if and only if its name is blank, else read back stripped, and unchanged exactly when printable |
| BackupRecords.StripTakesBlanks | backend/app/parsers/backup_csv.py:175-181 | of any cell exactly the whitespace at the ends is dropped |
| BackupRecords.LabelCellsSplit | backend/app/parsers/backup_csv.py:184-192 | any label cell splits at every semicolon, each part stripped and dropped when blank |
| BackupRecords.TransactionReadIff | backend/app/parsers/backup_csv.py:330-389 | any record is read exactly when it has a date, an account, an amount, one of the type words and one of the sources; each field is given, and a rejection's reason is true |
| BackupRecords.RefundIsSpend | backend/app/parsers/backup_csv.py:351-361 | a record of an older backup that says refund reads as one that says spend |
| BackupRecords.RefundsRestoreAsSpends | backend/app/parsers/backup_csv.py:351-361 | a backup with refunds restores over any tenant as the same backup with spends |
| BackupRecords.AccountReadIff | backend/app/parsers/backup_csv.py:249-278 | any account record is read exactly with a name, a known type and no currency but INR; a malformed last4 is dropped |
| BackupRecords.CategoryReadIff | backend/app/parsers/backup_csv.py:293-313 | any category record is read exactly with a name and a known kind; a colour that is no hex code is dropped |
| Labels.OwnNormalFormIff | backend/app/services/transaction_labels.py:34-54 | normalising leaves a name alone if and only if it is lower-case with single blanks inside, of 1 to 64 characters, with no semicolon and no leading hash |
| Labels.NormalizedKeepsWords | backend/app/services/transaction_labels.py:47-54 | but for one leading hash and the semicolons a name keeps its words, in lower case, up to 64 characters |
| Labels.SpellingsAgree | backend/app/services/transaction_labels.py:34-54 | a name typed with a hash, without or between blanks is one label |
| Labels.HashIsDroppedAgain | backend/app/services/transaction_labels.py:47-49 | "##x" normalises to "#x" and that to "x" |
| Labels.LinkedLabelsAre | backend/app/services/transaction_labels.py:165-176 | the labels a row lists are the distinct normal forms of its names, each once and by name |
| Labels.LabelsComeBackIff | backend/app/services/backup_import_service.py:456-475 | a label list comes back from the cell as it was if and only if it is in name order and every name is its own normal form |
| BackupExports.SortMergesSelections | backend/app/services/export_service.py:130-142 | extending by the parents and sorting by id gives the selection of both at once |
| BackupExports.BuildBackup | backend/app/services/export_service.py:80-213 | the exporter's selection, closure, tokens and rows |
| BackupUpserts.AccountsOnlyAdded | backend/app/services/backup_import_service.py:182-231 | every account that existed stays as it was and new ones only follow |
| BackupUpserts.ResolvedIsNewUnlessActive | backend/app/services/backup_import_service.py:192-230 | a name is bound to a stored account only if it is active; otherwise to a new id |
| BackupUpserts.NeverRebinds | backend/app/services/backup_import_service.py:203-231 | every resolved account is described by some row of the file in name, type and currency, and created plus matched is the number of names resolved |
| BackupUpserts.ActiveRowWins | backend/app/services/backup_import_service.py:187-204 | an account created for a name not active in the store is unarchived exactly when some row of that name is |
| BackupUpserts.EveryAccountRowCounted | backend/app/services/backup_import_service.py:198-231 | of a file that names every account once each row is created, matched or refused, and by which condition |
| BackupUpserts.EveryCategoryRowCounted | backend/app/services/backup_import_service.py:257-327 | rows of distinct unresolved keys are each counted once: matched when active, else created |
| BackupUpserts.RestoreKeepsTwoLevels | backend/app/services/backup_import_service.py:234-328 | whatever the rows say a store of depth two stays at depth two and no existing category is modified |
| Flattenings.EveryFlatteningWarnedIff | backend/app/services/backup_import_service.py:234-328 | for every store and file the new categories that became roots though no row lists them as one are those warned about plus the silent ones, never both; all are warned about if and only if no created nested row names an earlier created nested row that names no root |
| Flattenings.NewRowOutcome | backend/app/services/backup_import_service.py:283-327 | a created nested row gets its parent exactly when it names an active root or a root row of the file, and a warning exactly when it names neither that nor a flattened row, which says not found exactly when neither store nor file has the parent |
| BackupUpserts.SilentFlattening | backend/app/services/backup_import_service.py:283-327 | a concrete file flattens two rows and warns once |
| FreshUpserts.AccountsFromEmpty | backend/app/services/backup_import_service.py:182-231 | in an empty tenant every exported account is stored as the file says and resolved to it |
| FreshUpserts.CategoriesFromEmpty | backend/app/services/backup_import_service.py:234-328 | likewise every category, its parent link included |
| BackupRestores.PersistStages | backend/app/services/backup_import_service.py:394-470 | the inserted dedup columns are those any unstamped import of the resolved lines stages |
| BackupRestores.RestoreKeepsConsistent | backend/app/services/backup_import_service.py:331-478 | a restore into any consistent tenant collides with nothing and tops each line up to the file's count |
| BackupRestores.ArchivedAccountIsDuplicated | backend/app/services/backup_import_service.py:192-230 | rows of an archived account are inserted again in full, because only active accounts match |
| BackupRestores.PairsAreMutual | backend/app/services/backup_import_service.py:481-496 | whatever tokens a file carries, linked legs point at each other and never at themselves |
| BackupRestores.OnlyTwoLegsPair | backend/app/services/backup_import_service.py:484-493 | a leg is linked exactly when one other inserted row carries its token |
| BackupRoundTrips.ViewFromExport | backend/app/services/export_service.py:88-175 | the selection contains every account, category and parent a confirmed row refers to |
| BackupRoundTrips.TokensIdentifyPairs | backend/app/services/export_service.py:173-177 | two confirmed rows share a token exactly when they are each other's leg |
| BackupRoundTrips.BackupRoundTrip | backend/app/services/backup_import_service.py:394-496 | exporting and restoring into an empty tenant gives every confirmed row back in order with account, category and parent link, its cells' texts stripped and its labels normalised again, and exactly the pairs with both legs confirmed |
| BackupRoundTrips.RestoredColumns | backend/app/services/backup_import_service.py:394-496 | column by column a restored row, its account, its category and the parent's name are the confirmed one's |
| BackupLosses.RoundTripUnchangedIff | backend/app/services/export_service.py:59-77 | every confirmed transaction comes back unchanged if and only if account names, issuers and raw merchants in use are clean and every label is its own normal form |
| BackupLosses.NothingLostIffNamed | backend/app/parsers/backup_csv.py:340-342 | no confirmed transaction is lost if and only if every account in use has more than whitespace for a name |
| BackupLosses.BlankAccountLosesItsRows | backend/app/schemas/accounts.py:93-101 | the accepted name " " loses what is booked on it |
| BackupLosses.RestoredTogetherIffSameName | backend/app/services/backup_import_service.py:203-230 | two restored transactions share an account if and only if their accounts' stripped names agree |
| BackupLosses.HashedLabelComesBackBare | backend/app/services/backup_import_service.py:463-475 | a transaction labelled by typing "##x" comes back with the label "x" |
| BackupRepeats.UpsertingTwice | backend/app/services/backup_import_service.py:182-231 | a second pass resolves every name that is not lost to the same account and creates none if and only if no name is lost |
| CategoryRepeats.UpsertingCategoriesTwice | backend/app/services/backup_import_service.py:234-328 | a second pass over category rows adds nothing if and only if no row's key is lost, root rows deciding before nested ones |
| BackupRepeats.RestoringTwiceAddsNothing | backend/app/services/backup_import_service.py:99-179 | restoring twice changes accounts, transactions or categories the second time if and only if one of that kind is lost: held by the file only archived and not active in the store |
| OwnBackups.OwnBackupAddsNothing | backend/app/services/backup_import_service.py:349-439 | restoring a tenant's own backup over the tenant adds no transaction if and only if no confirmed one has a non-blank account name that is not active once stripped, and the lines rebooked on the active account of their name are asserted no more often than stored rows account for them |
| OwnBackups.OwnBackupOfActiveAccounts | backend/app/services/backup_import_service.py:349-384 | where every account in use is active with a clean name: if and only if no fingerprint is read by more confirmed rows than rows account for it |
| OwnBackups.ArchivedRowComesBackTwice | backend/app/services/backup_import_service.py:192-230 | one confirmed row on an archived account is there twice after restoring its own backup |
| BackupStores.BackupStore.ResolveLabelNames | backend/app/services/transaction_labels.py:93-120 | the names' normal forms, each found in the label table or added to it |
| BackupStores.BackupStore.LinkPending | backend/app/services/backup_import_service.py:463-475 | resolving all names together and linking row by row gives every inserted row its labels and adds exactly those to the label table |
| BackupStores.BackupStore.UpsertAccounts | backend/app/services/backup_import_service.py:182-231 | the account loop is the specified upsert |
| BackupStores.BackupStore.UpsertRoots | backend/app/services/backup_import_service.py:257-281 | the root pass is the specified fold |
| BackupStores.BackupStore.UpsertSubcategories | backend/app/services/backup_import_service.py:283-327 | the nested pass, warnings included, is the specified fold |
| BackupStores.BackupStore.UpsertCategories | backend/app/services/backup_import_service.py:234-328 | both passes with the flush between them are the specified upsert |
| BackupStores.BackupStore.PersistTransactions | backend/app/services/backup_import_service.py:331-478 | the persist loop, its counters, its pending labels and its dictionary of legs give the specified rows and label table; imported, skipped and rejected add up to the file |
| BackupStores.BackupStore.Relink | backend/app/services/backup_import_service.py:481-496 | the second pass over the dictionary links exactly the specified pairs and counts their legs |
| BackupStores.BackupStore.PersistBackup | backend/app/services/backup_import_service.py:99-179 | the whole restore on mutable tables is the specified one |
| MerchantAliases.SpecificityIsAnOrder | backend/app/services/merchant_alias.py:132-154 | token count, then length, then text is a strict weak order |
| MerchantAliases.BuildForgetsArrival | backend/app/services/merchant_alias.py:132-154 | for distinct patterns every ordering of the rows builds the same resolver |
| MerchantAliases.ResolveFindsMostSpecific | backend/app/services/merchant_alias.py:49-113 | the answer is the target of the most specific pattern found contiguously in the tokens, else the merchant |
| MerchantAliases.LongestPatternAnswers | backend/app/services/merchant_alias.py:132-154 | when some alias fires a firing one answers with the most tokens, of those the most characters, of those the least text |
| MerchantAliases.ShorterPatternNeverDecides | backend/app/services/merchant_alias.py:85-113 | an alias is idle where one with more tokens fires |
| MerchantAliases.TokensMatchIff | backend/app/services/merchant_alias.py:49-64 | a pattern matches exactly where its tokens stand in a row among the merchant's |
| MerchantAliases.TokensOf | backend/app/services/merchant_alias.py:39-47 | tokens are the runs of letters and digits, none of which is lost |
| MerchantAliases.AddingAliasIsLocal | backend/app/services/merchant_alias.py:85-154 | adding an alias changes only merchants that contain its pattern |
| MerchantAliases.NothingFiresIsIdentity | backend/app/services/merchant_alias.py:137-148 | an empty table or one of untokenisable patterns changes nothing |
| MerchantAliases.AliasResolver.Canonical | backend/app/services/merchant_alias.py:85-113 | the memoised answer is the unmemoised one after any call history |
| MerchantAliases.AliasResolver.PatternCounts | backend/app/services/merchant_alias.py:115-126 | counts exactly the rules per canonical |
| MerchantAliases.BuildResolver | backend/app/services/merchant_alias.py:132-154 | the scoring loop and sort build the specified rules |
| CategoryRollups.GrandTotalConserved | frontend/lib/categories.ts:418-521 | the rollup's totals add up to the rows' total for every input |
| CategoryRollups.ListedItemsSumToTotal | frontend/lib/categories.ts:418-521 | a categorised parent's total is the sum of its listed items, the direct one among them |
| CategoryRollups.GroupTotals | frontend/lib/categories.ts:418-521 | a group's total is what was spent in the category and those directly under it, the last one's what has no category |
| CategoryRollups.DirectLine | frontend/lib/categories.ts:480-507 | a group of a catalogued root bears its name and lists what is booked on the root itself as a direct line, if anything |
| CategoryRollups.PanelSays | frontend/lib/categories.ts:527-564 | the panel lists, by their catalogue names, what was spent in the categories under the one shown |
| CategoryRollups.RollupsAreRanked | frontend/lib/categories.ts:509-521 | groups come most negative first, the uncategorised one last, and the items of every group most negative first |
| CategoryRollups.DrillDownAgrees | frontend/lib/categories.ts:527-564 | for a root the panel equals the rollup's breakdown element by element after the stable sorts |
| CategoryRollups.NestedDrillDownAgreesIffNoDirect | frontend/lib/categories.ts:527-564 | for a nested category they agree if and only if its own rows cancel out |
| CategoryRollups.SelfParentDrillDownAgreesIffUnused | frontend/lib/categories.ts:527-564 | for a category that is its own parent they agree if and only if no row is booked on it |
| CategoryRollups.RollUpSpendByCategory | frontend/lib/categories.ts:418-521 | the Map-filling loop and the sorts compute the specified rollup |
| CategoryRollups.GetParentSubcategorySpend | frontend/lib/categories.ts:527-564 | the panel's loop computes the specified items |
| CategoryRollups.TreePlacesEachOnce | frontend/lib/categories.ts:91-138 | every category of a list with distinct ids is in the tree exactly once, orphans and self-parents included |
| CategoryRollups.TreeWellPlaced | frontend/lib/categories.ts:91-138 | every root has exactly the categories naming it below, and only categories without such a root are promoted |
| CategoryRollups.BuildCategoryTree | frontend/lib/categories.ts:91-138 | the three loops build the specified tree |
| GuestTeardown.TopologicalPlanIsSafe | backend/app/services/guest_service.py:95-149 | any plan in topological order keeps every foreign key after every statement and leaves other users alone |
| GuestTeardown.TeardownIsTopological | backend/app/services/guest_service.py:108-146 | the service's seventeen statements are in such an order |
| GuestTeardown.GuestDeletionIsClean | backend/app/services/guest_service.py:95-149 | a guest's deletion leaves no row of the guest, every other row as it was, and does nothing to anyone else |
| GuestTeardown.ExpiredAfterDelete | backend/app/services/guest_service.py:152-194 | a deletion removes exactly that guest from the expired set |
| GuestTeardown.SweptSpares | backend/app/services/guest_service.py:152-194 | a sweep takes no one but guests whose expiry has come and leaves everyone else's rows as they were |
| GuestTeardown.Service.DeleteGuestSandbox | backend/app/services/guest_service.py:95-149 | running the statements one by one is the specified deletion, keys intact throughout |
| GuestTeardown.Service.Attempt | backend/app/services/guest_service.py:169-186 | one attempt deletes exactly that guest, or pushes only its expiry, or leaves every table as it was |
| GuestTeardown.Service.CleanupExpiredGuests | backend/app/services/guest_service.py:152-194 | the sweep terminates, counts exactly the expired guests whose rows are gone, leaves every other row as it was but for pushed expiries, and ends drained or on an all-failed batch |

## Left out

- SQL dialects, the ORM session, Alembic batch rebuilds, zip and CSV libraries: tables are values with constraints, and writing then reading a CSV cell is taken to give the cell back.
- SHA-256, argon2 and JWT: the payload stands for its hash and a row number for a token, both taken to be injective.
- Rendering of dates, timestamps and integers into backup cells, and the parser's reading of malformed ones: those cells are typed, a bad one being missing.
- Text outside ASCII: lower and upper casing, digits and the alias tokeniser follow the ASCII rules; whitespace follows Python's full list.
- Decimal's 28-digit context: quotients are exact before rounding.
- Portfolio XIRR and NAV snapshots; a valuation's time of day.
- Statement parsers, type mapping, cashback detection, auto-tagging and label prefill during an import: they fill columns dedup never reads.
- `_reject_reason`, `_upsert_instruments` and the FX table: rows arrive validated with their instrument resolved, and each row's rate is a parameter of the upload.
- Label ids and the database's collation: a label stands for its name, unique per user, and names are ordered by code point.
- The PATCH route's other gates (paired rows, sign, category kind) and transfer creation: they refuse more edits, and the edit step allows all.
- Batch rows, batch counters after the first import, telemetry and HTTP status codes.
- Several reads of the clock inside one request are one time per phase; requests other than those listed as steps do not touch sessions.
- Login, registration and cookie handling around sessions; the password check itself.
- Colour maths, money formatting, charts and React components.
- The seed dictionaries, demo data and all other migrations.
- Services this model does not read: tagging, label learning, reconciliation and provisioning are not part of this model.
- BackupRoundTrips.BackupRoundTrip: asks for INR accounts whose stripped names are not empty and distinct, distinct clean category keys, normalised merchants, mutual pairs, and parents that are roots of the same kind; `NothingLostIffNamed` and `RestoredTogetherIffSameName` say what happens to other account names, and two exported categories of one (name, kind) come back as one.
- RefreshSessions.ReuseKillsFamily: when the write of the killing request is never reached (an abandoned request) the family lives on, as in the code.

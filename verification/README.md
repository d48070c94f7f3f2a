# The auditor's ledgers and the programs they check

This project models the money arithmetic of a Taler exchange's auditor, and of the exchange
and bank programs whose work the auditor replays, and proves what they keep over whole runs.

* **Coin auditor** (`CoinLedger`, `CoinRows`, `CoinRuns`, `Reordering`, `CoinReplay`, `CoinIncome`,
  `CoinOutstanding`, `CoinEscrow`, `CoinCounts`, `CoinExpiry`, `CoinAuditor`, `CoinHistory`,
  `Transaction`): six tables of events move per-denomination balances, losses, risks and recoups
  together with the global escrow and risk. The tables are replayed in a fixed
  order and written back with an expiry branch, inside a pair of transactions. `CoinAuditor` holds
  the callbacks as methods of a class; `CoinLedger` says what each does to the ledger; `CoinRows` says
  what a row is worth in terms of its own fields, and that this is what the callbacks do; the others
  hold the theorems about single runs and any number of runs: the identities, the two alarms, the
  incomes and findings.
* **Reserve auditor** (`Reserves`, `ReserveRuns`, `ReserveAuditor`): sums per reserve on top of a
  remembered balance, with clamping at zero, and the escrow they share.
* **Wire auditor** (`Wire`): bank debits against outgoing transfers and reserve closures.
* **Aggregation auditor** (`Aggregation`, `WireFees`, `WireOuts`): what a coin's history
  contributes to a wire transfer, the cache of wire fees, and the transfer as a whole.
* **Key scheduler** (`Keyup`): where a run starts to generate keys and what repeated runs cover.
* **Transfers** (`TransferCodec`, `FakeBank`, `BankRuns`, `Closer`): the prepared buffer, the
  idempotent bank and its paged histories, and the closer that prepares transfers.
* `Amounts` relates the value/fraction arithmetic in fixed-width integers to the natural numbers
  of smallest units that the ledgers use; `Sums`, `Bags` and `Text` are helpers.

## How the model relates to the programs

* Amounts in the ledgers are natural numbers of the smallest unit. `Amounts.AddExact` shows that
  the program's addition is that addition below its limit and reports failure above it; in the
  auditor such a failure ends the process, which in the model is a run that does not commit.
* Signatures, hashes and wire details appear as the outcome of their check. Hashes are injective.
* Tables are sequences in serial order; a query from a checkpoint on yields the rows with that
  identifier or a higher one. A transaction is stored as a whole or not at all.
* A class models a program whose callbacks change static variables. The order in which a hash
  map hands out its entries is arbitrary.
* Randomness, clocks and the moment at which a database operation fails are parameters.
* Every lemma switches automatic induction off, so that each proof is the one written down.

## What the code does, where that may surprise

* A refund whose amount is below its fee makes the coin auditor fail an assertion; a refund of an
  unknown denomination only ends the scan of its table, and the run still commits
  (`CoinLedger.Fatal`, `CoinLedger.UnknownRefund`).
* A melt without reveal is passed over (`CoinReplay.HangingMeltIsForgotten`), and a reveal that comes
  later is seen by no run (`CoinRuns.LateRevealIsNeverSeen`). The fee income of melts then falls short
  of the fees in the table (`CoinIncome.FeeIncomeIsExact`), and the auditor believes less outstanding in
  the denominations of the new coins than there is (`CoinOutstanding.OutstandingExactly`), so that
  their deposits can raise an alarm without cause (`CoinOutstanding.LateRevealShiftsAlarm`).
* A row of a denomination that its run does not know is passed over in the same way when the denomination
  becomes known later: its fee is missing for good (`CoinIncome.FeeIncomeByKnowledge`).
* A debit that the coin escrow does not hold is only reported. When that happens is
  `CoinEscrow.EscrowShortExactly`; it takes a loss or a recoup-refresh (`CoinEscrow.EverythingSubtracted`).
* A recoup of an invalid coin is counted twice among the signature losses.
* A deficit that is made good later within one batch is not seen by the replay in table order: a
  deposit before the withdrawal that covers it raises no alarm (`CoinReplay.DeficitGoesUnseen`).
  When the alarm is raised is `CoinReplay.AlarmExactly`.
* The alarm by count looks only at denominations with new rows (`CoinCounts.CountAlarmExactly`), and a
  denomination without new rows is not retired, however long ago it expired (`CoinExpiry.KeptExactly`).
* The coin auditor stores a total of irregular recoups that no callback changes.
* A reserve missing at the exchange makes the reserve auditor return the status of its last query
  instead of an error. If that query read exactly one closure, the remembered reserves are committed
  while escrow, fee income and progress are not (`ReserveAuditor.FateOf`, `ReserveRuns.HalfStoredExactly`),
  and the next complete run counts the same rows again (`ReserveRuns.HalfStoredCountsTwice`).
* The reserve auditor drops a reserve when nothing was remembered or credited, not when it ends empty,
  and forgets the fees it had summed up for it (`Reserves.EntryAfterRun`).
* The fee of a reserve closure is compared with the published one only if the reserve had an earlier
  row in the same run.
* A serialization failure is reported as success by the tools (`Transaction.SuccessWithoutProgress`).
* The comment on the fee list calls it sorted and its diagnostics speak of overlaps. The list is
  not always sorted, not keyed by wire method, and its second diagnostic appears exactly when the
  periods do *not* overlap (`WireFees.ListCanDegrade`, `WireFees.CacheIsExactly`, `WireFees.ReportsMeaning`).
* Rounding keeps the fraction when a whole unit already divides the value part, although it is
  documented to round to a multiple of the unit (`Amounts.RoundDownExactly`).
* An outgoing transfer that the bank has not made is forgotten as soon as a later one is found
  (`Wire.MissingIsRereadExactly`). A closure already matched is read again while an older one is
  pending, and is then in the lag of the next audit (`Wire.MatchedComesBackExactly`).
* The closer rounds the transfer but the auditor expects the unrounded amount; they agree exactly
  when there is no dust (`Closer.AuditorMatchesExactly`). As long as the rounding unit stays the same,
  closures with dust, or with nothing left after the fee, match no transfer of the closer at all
  (`Closer.EverMatchedExactly`) and stay pending in every audit (`Closer.UnmatchedStaysPending`). When
  the unit changes, a closure is matched exactly if some round wired its expected amount
  (`Closer.MatchedIfWired`), which can happen to any of them (`Closer.UnitChangeCanMatch`).
* Keys missed while the scheduler did not run are not made up for: it starts again at the present
  (`Keyup.FirstKeyExactly`).
* A key directory without keys leaves a gap soon after the beginning of time
  (`Keyup.GapFreeExactly`), and a run at the very start time of the latest key replaces that key
  (`Keyup.OverwritesExactly`).
* A transfer request with the uid zero collides with transfers to the exchange made before it
  (`BankRuns.ZeroUidExactly`); the exchange's URL is not compared when a request is repeated.

## Model

| member | source | states |
|---|---|---|
| `CoinRuns.LedgerIdentities` | src/auditor/taler-helper-auditor-coins.c:795-2376 | over any number of runs, failed ones included: tracked balances minus losses, plus what was retired at expiry, equal escrow minus debits it could not absorb plus recoup-refresh credits; and global risk, recoup loss and number of coins issued are the sums over the denominations, retired ones included |
| `CoinLedger.StepKeepsBalanced` | src/auditor/taler-helper-auditor-coins.c:959-2158 | every branch of every callback keeps the escrow, risk, recoup and coin count identities |
| `CoinRows.RowEffect` | src/auditor/taler-helper-auditor-coins.c:959-2158 | in the row's own fields, for every table: what one row adds to balance, loss, risk, recoup and coin count of any denomination, to escrow, risk and recoup loss, which rows end the table, and which end the process. A signed refund gives its amount less the refund fee back; a revealed melt adds the values of its new coins and then takes its full amount |
| `CoinRows.FirstMet` | src/auditor/taler-helper-auditor-coins.c:661-790 | a denomination that is met for the first time starts with nothing, one that is stored with what is stored |
| `CoinLedger.SyncOneKeepsBalanced` | src/auditor/taler-helper-auditor-coins.c:812-837 | subtracting an expired denomination's risk from the global risk can never go negative, and the write-back keeps the identities |
| `CoinLedger.SyncOrderIrrelevant` | src/auditor/taler-helper-auditor-coins.c:795-936 | the order in which the hash map yields the denominations never shows in the result of the write-back |
| `CoinLedger.SyncBooks` | src/auditor/taler-helper-auditor-coins.c:795-936 | the write-back books exactly the balances and losses of the expired denominations and leaves escrow and checkpoints alone |
| `CoinExpiry.SyncOneExactly` | src/auditor/taler-helper-auditor-coins.c:806-936 | a record is retired exactly if its denomination is known and more than one day has passed since its deposits expired: its risk is released, what it holds goes to the books, and no alarm is raised; otherwise it is stored with both alarms |
| `CoinExpiry.KeptExactly` | src/auditor/taler-helper-auditor-coins.c:795-936 | over a whole run: a denomination that some row touches is kept, with its alarms, if and only if no more than a day has passed since its deposits expired; one that no row touches stays as it is |
| `CoinRuns.AnalyzeKeepsBalanced` | src/auditor/taler-helper-auditor-coins.c:2168-2376 | a run on balanced books ends balanced or dies on a row; the write-back itself never dies |
| `CoinRuns.EveryRowOnce` | src/auditor/taler-helper-auditor-coins.c:2168-2376 | over any number of runs on growing tables, the rows handed to a callback are, without gap or repetition, the rows below the stored checkpoint, each as it was when handed out: a melt may be revealed at any time, also afterwards |
| `CoinRuns.LateRevealIsNeverSeen` | src/auditor/taler-helper-auditor-coins.c:1323-1348 | a melt handed out before its reveal is handed out this once only, over all runs, without the new coins that the table shows by now |
| `CoinRuns.RunIsExact` | src/auditor/report-lib.c:291-362 | a run that dies or fails to commit changes nothing; otherwise exactly the rows between old and new checkpoint were handed out |
| `Reordering.SortingIsSafe` | src/auditor/taler-helper-auditor-coins.c:2224-2310 | if a history never drives a total below zero, neither does its replay table by table |
| `Reordering.SortedSafeExactly` | src/auditor/taler-helper-auditor-coins.c:2224-2310 | exactly when a replay in table order stays above zero: the melts are covered once all credits are counted, and the batch ends without deficit |
| `Reordering.SortingHidesDeficits` | src/auditor/taler-helper-auditor-coins.c:2224-2310 | the converse is false: taking x out before putting y back is a deficit as soon as x exceeds what is there, and shows only if it exceeds both |
| `CoinReplay.AlarmExactly` | src/auditor/taler-helper-auditor-coins.c:2224-2310 | a run reports an emergency by amount for an unexpired denomination, and books a loss, if and only if, all credits of the batch counted first, the melts are not covered or the batch leaves a deficit |
| `CoinReplay.DeficitGoesUnseen` | src/auditor/taler-helper-auditor-coins.c:2224-2310 | a deposit beyond the outstanding value, before the withdrawal that covers it, is a real deficit that the run reports only if the deposit exceeds both together |
| `CoinReplay.NoFalseAlarm` | src/auditor/taler-helper-auditor-coins.c:2224-2310 | if the outstanding value of a denomination, by the fields of the rows, never went below zero as the rows happened, the run neither dies nor reports an emergency nor books a loss for it, and stores the outstanding value |
| `CoinReplay.NoFalseAlarmEver` | src/auditor/taler-helper-auditor-coins.c:2168-2376 | the same over any number of committed runs |
| `CoinReplay.HangingMeltIsForgotten` | src/auditor/taler-helper-auditor-coins.c:1331-1348 | a melt without reveal changes no denomination, yet the checkpoint passes it; that it stays so over later runs is `CoinRuns.LateRevealIsNeverSeen` |
| `CoinAuditor.Auditor.WithdrawCb` | src/auditor/taler-helper-auditor-coins.c:959-1036 | credits the denomination, escrow and risk by the coin's value and moves the checkpoint |
| `CoinAuditor.Auditor.RefreshSessionCb` | src/auditor/taler-helper-auditor-coins.c:1227-1529 | issues the new coins, then debits the old one; hanging, unknown and underpaid melts, and bad signatures, are booked as reported |
| `CoinAuditor.Auditor.DepositCb` | src/auditor/taler-helper-auditor-coins.c:1554-1739 | debits the denomination and escrow unless the wire details or signature are bad |
| `CoinAuditor.Auditor.RefundCb` | src/auditor/taler-helper-auditor-coins.c:1760-1886 | gives the amount less the refund fee back to denomination, escrow and risk; unknown denomination ends the table, amount below fee ends the process (the effect in the row's fields is `CoinRows.RowEffect`, which `Callback` ensures) |
| `CoinAuditor.Auditor.CheckRecoup` | src/auditor/taler-helper-auditor-coins.c:1904-2025 | books the recoup and each signature or revocation problem |
| `CoinAuditor.Auditor.RecoupCb` | src/auditor/taler-helper-auditor-coins.c:2043-2067 | moves its checkpoint and books the recoup of the coin, signature and revocation problems included |
| `CoinAuditor.Auditor.RecoupRefreshCb` | src/auditor/taler-helper-auditor-coins.c:2087-2158 | credits the old coin's denomination, without escrow, before the recoup of the new coin |
| `CoinAuditor.Auditor.Callback` | src/auditor/taler-helper-auditor-coins.c:2224-2310 | each row goes to the callback of its table, and does to all denominations and totals what its own fields say |
| `CoinAuditor.Auditor.SyncDenomination` | src/auditor/taler-helper-auditor-coins.c:795-936 | writes a record back with both alarms, or retires it once more than one day has passed since its deposits expired |
| `CoinAuditor.Auditor.AnalyzeCoins` | src/auditor/taler-helper-auditor-coins.c:2168-2376 | the run as a whole, fee incomes and findings included, does what the ledger prescribes, for some order of the write-back |
| `CoinIncome.FeeIncomeIsExact` | src/auditor/taler-helper-auditor-coins.c:2205-2345 | over any number of runs, failed ones included, with reveals at any time and each run knowing its own denominations, revocations and coin counts: the stored fee incomes of deposits and refunds, plus what the runs that got the rows did not know they earn, are exactly the fees of the accepted rows below the stored checkpoints; that of melts never exceeds this, and equals it if and only if no melt with a fee was revealed after it was handed out |
| `CoinIncome.FeeIncomeByKnowledge` | src/auditor/taler-helper-auditor-coins.c:2205-2345 | if denominations only ever become known, no stored fee income exceeds the fees of the rows below the checkpoint; it equals them if and only if every row was worth its fee to the run that got it already and, for melts, none with a fee was revealed after it was handed out |
| `CoinIncome.FeeIncomeWithSameKeys` | src/auditor/taler-helper-auditor-coins.c:2205-2345 | in particular, while the known denominations stay the same and whatever else changes between runs, the incomes of deposits and refunds are the fees of their rows, and that of melts is if and only if no melt with a fee was revealed late |
| `CoinOutstanding.OutstandingExactly` | src/auditor/taler-helper-auditor-coins.c:959-2158 | over any number of runs, failed and alarming ones included: stored balance less loss of an unexpired denomination is its outstanding value by the rows below the checkpoints, less what was revealed only after it had been handed out, and less what the runs that got the rows did not know to be worth something. Each run has its own known denominations, revocations and coin counts |
| `CoinOutstanding.NothingLearntWorth` | src/auditor/taler-helper-auditor-coins.c:959-2158 | the last term is zero if every row handed out added to the denomination what it adds by the denominations now known |
| `CoinOutstanding.OutstandingWithSameKeys` | src/auditor/taler-helper-auditor-coins.c:959-2158 | so it is while the known denominations stay the same, whatever else changes between runs |
| `CoinOutstanding.NewCoinsRaise` | src/auditor/taler-helper-auditor-coins.c:1323-1348 | for a denomination of which no melt took coins, late reveals can only make the auditor believe too little |
| `CoinOutstanding.LateRevealShiftsAlarm` | src/auditor/taler-helper-auditor-coins.c:2224-2310 | after any such runs, the next run reports an emergency by amount for an unexpired denomination if and only if its replay in table order looks unsafe from a value that falls short of the outstanding one by what was revealed late and what became known late, losses booked before added back; the runs before may have known anything |
| `CoinEscrow.EscrowShortExactly` | src/auditor/taler-helper-auditor-coins.c:1490-1513 | a debit exceeds the escrow exactly when the other denominations, the retired value and what could not be subtracted before come to less than the retired losses, the recoup-refresh credits, and what the debit takes beyond its own denomination |
| `CoinEscrow.EverythingSubtracted` | src/auditor/taler-helper-auditor-coins.c:1698-1720 | over any number of runs: as long as no denomination has a loss and no recoup-refresh was credited, every debit was subtracted from the escrow |
| `CoinIncome.FeesOfRuns` | src/auditor/taler-helper-auditor-coins.c:2205-2345 | also when what is known about denominations changes between runs: each row counts by what its run knew |
| `CoinIncome.FindingsOfRun` | src/auditor/taler-helper-auditor-coins.c:959-2158 | the signature losses of a run are the amounts of its rows, once per failed check; hanging melts and arithmetic differences are the sums over melts without reveal and melts that fall short. The program's arithmetic total also collects the excess found by the check of coin histories (src/auditor/taler-helper-auditor-coins.c:545-562), which is `CoinHistory.Checker.CheckAll` |
| `CoinIncome.RefreshCostIs` | src/auditor/taler-helper-auditor-coins.c:1360-1382 | the cost of a melt's new coins is the sum of their values and withdrawal fees |
| `CoinCounts.CountAlarmExactly` | src/auditor/taler-helper-auditor-coins.c:870-885 | a run reports more coins than issued exactly for unexpired denominations that it touches and of which the exchange has seen more coins than were issued before and during the run |
| `CoinHistory.CheckCoinHistory` | src/auditor/taler-helper-auditor-coins.c:451-566 | the excess is what was spent above refunds, one forgiven deposit fee and the coin's value |
| `CoinHistory.ExcessExactly` | src/auditor/taler-helper-auditor-coins.c:451-566 | kind by kind: deposits, melts, recoups and the fees of refunds are spent; refunds, recoups of old coins, the forgiven fee and the coin's value stand against them |
| `CoinHistory.ForgivenExactly` | src/auditor/taler-helper-auditor-coins.c:451-544 | the fee forgiven is that of the last deposit in the list, if there is any refund at all |
| `CoinHistory.Checker.Check` | src/auditor/taler-helper-auditor-coins.c:1147-1206 | a coin is checked unless cached; exactly the excess is added to the losses |
| `CoinHistory.Checker.CheckAll` | src/auditor/taler-helper-auditor-coins.c:199-250 | under any collisions and evictions the coins reported are exactly the overspent ones met, and losses are counted between once per coin and once per visit |
| `Transaction.TransactIsAtomic` | src/auditor/report-lib.c:291-362 | the auditor database holds the old state or the whole new one, and the result code says which except when there was nothing to store |
| `Transaction.SuccessWithoutProgress` | src/auditor/report-lib.c:373-395 | exactly when a tool reports success without having stored anything |
| `Aggregation.CheckTransactionHistory` | src/auditor/taler-helper-auditor-aggregation.c:377-679 | merchant gain, deposit gain, coin losses and fee disagreements as sums over the history; exit exactly on a deposit below its fee |
| `Aggregation.OwedAfter` | src/auditor/taler-helper-auditor-aggregation.c:408-630 | what one more entry changes in what the merchant is owed: a deposit of the contract adds its amount less its fee, a refund takes its amount off, and with a refund the last deposit's fee is given back in place of any earlier one |
| `Aggregation.SpentAfter` | src/auditor/taler-helper-auditor-aggregation.c:408-600 | what one more entry of each kind costs the coin, and the difference of its fee to the one expected for its kind |
| `Aggregation.GainIsBounded` | src/auditor/taler-helper-auditor-aggregation.c:600-630 | the merchant never gets more than the gross applicable deposits |
| `Aggregation.OrderMattersExactly` | src/auditor/taler-helper-auditor-aggregation.c:408-630 | the order of the list shows in the merchant's gain exactly when two applicable deposits have different fees, there is a refund, and enough is left for it to show |
| `Aggregation.ExcessIsReported` | src/auditor/taler-helper-auditor-aggregation.c:633-667 | an excess found by the coin auditor is found by the aggregation auditor, larger by the forgiven fee |
| `Aggregation.ChecksAgreeExactly` | src/auditor/taler-helper-auditor-aggregation.c:633-667 | the two overspend checks agree on a history for every coin value exactly when there is no refund, the last deposit fee is zero, or nothing was spent on balance |
| `WireFees.FeeCache.GetWireFee` | src/auditor/taler-helper-auditor-aggregation.c:907-1012 | the walk, insertion and diagnostics of the fee list |
| `WireFees.FeeAtExactly` | src/auditor/taler-helper-auditor-aggregation.c:925-950 | a look into the database succeeds exactly if one row of the method is in effect, from its start on and before its end |
| `WireFees.MiddleKeepsOrder` | src/auditor/taler-helper-auditor-aggregation.c:978-987 | a period inserted in the middle of an ordered list, and overlapping no neighbour, keeps it in order |
| `WireFees.OneMethodIsTransparent` | src/auditor/taler-helper-auditor-aggregation.c:907-1012 | with one wire method and disjoint periods, any sequence of calls is answered like direct database lookups |
| `WireFees.CacheIsExactly` | src/auditor/taler-helper-auditor-aggregation.c:907-1012 | with several methods this holds for all sequences of calls exactly when the methods have the same fees at all times |
| `WireFees.ReportsMeaning` | src/auditor/taler-helper-auditor-aggregation.c:986-1010 | the diagnostic about the previous period appears exactly on an overlap, the one about the next exactly when there is none |
| `WireFees.ListCanDegrade` | src/auditor/taler-helper-auditor-aggregation.c:978-987 | the list may become unsorted and hold a period twice |
| `WireOuts.AggregationAuditor.WireTransferInformationCb` | src/auditor/taler-helper-auditor-aggregation.c:701-895 | what a coin adds to the deposits of a transfer, and to the reported totals, for unknown, invalid, underpaid and accepted coins |
| `WireOuts.AggregationAuditor.CheckWireOut` | src/auditor/taler-helper-auditor-aggregation.c:1075-1185 | the books after one transfer, with the fee found in the list as it was: the exchange keeps the deposits less the rounded rest after a known fee that they cover |
| `WireOuts.AggregationAuditor.AnalyzeAggregations` | src/auditor/taler-helper-auditor-aggregation.c:1195-1245 | all rows in order; rows without method are passed over, one that cannot be hashed ends the scan |
| `WireOuts.Conservation` | src/auditor/taler-helper-auditor-aggregation.c:1097-1179 | amounts wired plus fee income earned plus amounts wired too little equal deposits plus amounts wired too much, over all rows, fees and rounding |
| `WireOuts.GainIsFeeAndDust` | src/auditor/taler-helper-auditor-aggregation.c:1097-1143 | after one transfer, fee income has grown by the fee, if known and covered by the deposits, and by less than one rounding unit; the rest, rounded, is what should have been wired, and any difference to it, or to a fee that is not covered, is booked |
| `WireOuts.CleanExactly` | src/auditor/taler-helper-auditor-aggregation.c:1028-1185 | fee income grows by what the accounted transfers should leave with the exchange by the fees in the database, and a run books no difference exactly when the amount of each is the rounded deposits less that fee, cached list notwithstanding |
| `WireOuts.BookedExactly` | src/auditor/taler-helper-auditor-aggregation.c:1028-1185 | excess and missing amounts are the sums of the differences of the transfers, one by one |
| `WireOuts.SharesExactly` | src/auditor/taler-helper-auditor-aggregation.c:701-895 | deposits, coin losses, signature losses and arithmetic differences of a transfer are the sums over its coins, by their histories and claims |
| `WireOuts.NextExactly` | src/auditor/taler-helper-auditor-aggregation.c:1028-1060 | the checkpoint is just past the last row looked at |
| `WireOuts.ArithmeticNet` | src/auditor/taler-helper-auditor-aggregation.c:134-176 | arithmetic gains minus losses are the net of all fee and contribution disagreements found |
| `Reserves.SettleAllKeepsBalanced` | src/auditor/taler-helper-auditor-reserves.c:1174-1206 | escrow equals remembered balances less losses plus clamped amounts, in every order of the reserves |
| `Reserves.BalanceAfterRun` | src/auditor/taler-helper-auditor-reserves.c:1000-1041 | after a run a reserve has what was remembered, plus transfers and recoups to it, less withdrawals that are known and validly signed and less closures, each by its amount, and never less than nothing; dropping a reserve loses no balance |
| `Reserves.EntryAfterRun` | src/auditor/taler-helper-auditor-reserves.c:1208-1260 | a reserve met is remembered exactly if something was there before or came in, with the fees of all its rows so far; otherwise it is forgotten with its fees; one not met stays as it was |
| `Reserves.FeesOfRun` | src/auditor/taler-helper-auditor-reserves.c:1174-1185 | fee income grows by the fees of the accepted withdrawals and of all closures |
| `Reserves.NoOverdrawNoClamp` | src/auditor/taler-helper-auditor-reserves.c:1174-1206 | if no reserve is overdrawn, the escrow subtraction fails in no order |
| `Reserves.ClampExactly` | src/auditor/taler-helper-auditor-reserves.c:1186-1206 | the subtraction fails exactly when the other reserves hold less than the unabsorbed losses plus this overdraft |
| `Reserves.DifferencesExactly` | src/auditor/taler-helper-auditor-reserves.c:1043-1104 | no difference is booked exactly when the exchange shows the auditor's balance for every reserve touched |
| `Reserves.DifferencesBooked` | src/auditor/taler-helper-auditor-reserves.c:1043-1104 | gains and losses booked are the sums of what the exchange shows less, and more, than the auditor's balances of the reserves touched |
| `ReserveRuns.EscrowIdentityAlways` | src/auditor/taler-helper-auditor-reserves.c:1286-1437 | over complete, failed and half-stored runs in any order: the escrow is off the identity exactly by what the rows of the half-stored runs did not post |
| `ReserveRuns.EscrowIdentity` | src/auditor/taler-helper-auditor-reserves.c:1286-1437 | without half-stored runs the escrow identity holds in every state that is reached, and without losses nothing was ever clamped |
| `ReserveRuns.EscrowIdentityFromStart` | src/auditor/taler-helper-auditor-reserves.c:1286-1437 | the same from the first run on |
| `ReserveRuns.HalfStoredExactly` | src/auditor/taler-helper-auditor-reserves.c:1383-1390 | after a run that stores the remembered reserves only, the identity still holds exactly if its rows net to zero together with what was clamped; without losses and overdrafts, exactly if its rows net to zero |
| `ReserveRuns.HalfStoredCountsTwice` | src/auditor/taler-helper-auditor-reserves.c:1383-1390 | the next complete run counts the rows of such a run again; for a reserve this goes unnoticed exactly when those rows net to zero for it, or when it ends empty with and without them |
| `ReserveRuns.BalanceOfRuns` | src/auditor/taler-helper-auditor-reserves.c:1015-1041 | what any runs remember of a reserve is its balance by the log -- transfers and recoups less accepted withdrawals and closures -- raised by how far that was ever below zero at a checkpoint |
| `ReserveRuns.SplitInvariance` | src/auditor/taler-helper-auditor-reserves.c:1286-1437 | if by the log no reserve is below zero at a checkpoint, any number of runs leaves the same balances, escrow and fee income as one, and neither loses or clamps anything |
| `ReserveRuns.SplitExactly` | src/auditor/taler-helper-auditor-reserves.c:1286-1437 | per reserve, several runs and one run remember the same balance exactly when, by the log, it is below zero at no checkpoint or lowest at the end |
| `ReserveRuns.LossesOfRuns` | src/auditor/taler-helper-auditor-reserves.c:1015-1041 | losses are booked exactly when, by the log, some reserve is below zero at some checkpoint |
| `ReserveRuns.LossesAreDips` | src/auditor/taler-helper-auditor-reserves.c:1015-1041 | the losses of all runs together are the lowest dips of all reserves |
| `ReserveRuns.FeesOfRuns` | src/auditor/taler-helper-auditor-reserves.c:1174-1185 | fee income is the fees of all accepted withdrawals and all closures, however the log is split |
| `ReserveAuditor.Auditor.HandleReserveIn` | src/auditor/taler-helper-auditor-reserves.c:394-460 | adds the credit to the reserve's summary, loading it on first contact |
| `ReserveAuditor.Auditor.HandleReserveOut` | src/auditor/taler-helper-auditor-reserves.c:478-625 | counts a withdrawal unless its denomination is unknown or its signature bad |
| `ReserveAuditor.Auditor.HandleRecoup` | src/auditor/taler-helper-auditor-reserves.c:645-818 | credits the reserve and books every signature or revocation problem |
| `ReserveAuditor.Auditor.HandleReserveClosed` | src/auditor/taler-helper-auditor-reserves.c:889-985 | takes the amount of the closure out of the reserve and counts its fee, and books the difference to the published fee if the reserve was met before in the run |
| `ReserveAuditor.Auditor.VerifyReserveBalance` | src/auditor/taler-helper-auditor-reserves.c:1000-1276 | the new books after one reserve, including dropping it; a reserve the exchange does not know is settled but not compared |
| `ReserveAuditor.Auditor.AnalyzeReserves` | src/auditor/taler-helper-auditor-reserves.c:1286-1437 | the state after a run is that of the specification for some order of the reserves; it is stored completely, not at all, or half, depending on unknown reserves and the closures read |
| `Wire.WireAuditor.Audit` | src/auditor/taler-helper-auditor-wire.c:964-1356 | debits plus closure lag plus missing amounts equal duplicates plus transfers plus closures plus excess amounts, whatever matches; with nothing reported or pending, debits and justifications are equal as multisets of subject, account and amount; closures without a matching debit stay pending |
| `Wire.WireAuditor.ReserveClosedCb` | src/auditor/taler-helper-auditor-wire.c:1837-1886 | an accepted closure becomes pending and moves the checkpoint; a fee above the amount is only reported |
| `Wire.WireAuditor.HistoryDebitCb` | src/auditor/taler-helper-auditor-wire.c:1282-1356 | a debit is kept under its subject, or counted as duplicate |
| `Wire.WireAuditor.WireOutCb` | src/auditor/taler-helper-auditor-wire.c:964-1106 | a row is silent exactly when the bank made it to the same account over the same amount; the books stay balanced otherwise |
| `Wire.WireAuditor.ComplainOutNotFound` | src/auditor/taler-helper-auditor-wire.c:1135-1215 | a leftover debit uses up one matching closure, or is booked as unjustified |
| `Wire.WireAuditor.DrainOutMap` | src/auditor/taler-helper-auditor-wire.c:1236-1265 | what leftover debits add to the unjustified amounts does not depend on the order of the map |
| `Wire.WireAuditor.CheckPending` | src/auditor/taler-helper-auditor-wire.c:624-649 | lag is the sum of pending closures, zero amounts included, and the checkpoint falls back to the oldest |
| `Wire.AdvancedPastAll` | src/auditor/taler-helper-auditor-wire.c:1837-1886 | reading closures moves the checkpoint just past the highest accepted one |
| `Wire.CheckpointCovers` | src/auditor/taler-helper-auditor-wire.c:624-649 | every pending closure is read again; a matched one exactly when an older one is pending |
| `Wire.MatchedComesBackExactly` | src/auditor/taler-helper-auditor-wire.c:624-649 | a matched closure, of which the next audit sees no debit, is in that audit's lag exactly when an older one was pending |
| `Wire.MissingIsRereadExactly` | src/auditor/taler-helper-auditor-wire.c:964-1106 | a transfer not made is looked at again exactly when no later one was found |
| `Keyup.KeyStore.GetAnchor` | src/exchange-tools/taler-exchange-keyup.c:380-464 | the anchor from the latest key file, for missing, empty, outdated and current directories |
| `Keyup.KeyStore.UpdateKeys` | src/exchange-tools/taler-exchange-keyup.c:848-908 | the generation loop, terminating by lookahead minus anchor |
| `Keyup.FirstKeyExactly` | src/exchange-tools/taler-exchange-keyup.c:440-464 | if the latest key ended before now, the first new one starts now; otherwise an overlap before the end of the latest, or with it if that starts now; none if the latest never ends |
| `Keyup.FirstKeyEver` | src/exchange-tools/taler-exchange-keyup.c:417-439 | in a missing directory the first key starts now |
| `Keyup.SpacedExactly` | src/exchange-tools/taler-exchange-keyup.c:882-907 | each key written is followed by one that starts an overlap before its end, up to the lookahead, and none in between |
| `Keyup.GapFreeExactly` | src/exchange-tools/taler-exchange-keyup.c:420-464 | with a clock that never goes back, each run ends with every instant up to its lookahead covered, exactly as long as no run finds a directory without keys too soon after time zero |
| `Keyup.LateClockNeverLeavesGap` | src/exchange-tools/taler-exchange-keyup.c:420-464 | a clock past the second key counted from time zero is enough |
| `Keyup.OverwritesExactly` | src/exchange-tools/taler-exchange-keyup.c:882-907 | a run overwrites an existing key exactly when the latest key starts at this instant and the lookahead is later |
| `TransferCodec.PrepareTransfer` | src/bank-lib/bank_api_transfer.c:81-120 | fills the buffer with the encoding of the request, or refuses one of 40 MiB or more |
| `TransferCodec.FilledExactly` | src/bank-lib/bank_api_transfer.c:40-120 | where each field is in the buffer |
| `TransferCodec.NumberIs` | src/bank-lib/bank_api_transfer.c:100-112 | numbers are in network byte order |
| `TransferCodec.NumberOfHalves` | src/bank-lib/bank_api_transfer.c:100-112 | so are those of eight bytes |
| `TransferCodec.DecodesExactly` | src/bank-lib/bank_api_transfer.c:276-301 | exactly which buffers are decoded, refused, or fatal |
| `TransferCodec.DecodeEncode` | src/bank-lib/bank_api_transfer.c:280-301 | decoding a prepared buffer returns the uid, amount, subject, account and URL that were prepared |
| `TransferCodec.EncodeInjective` | src/bank-lib/bank_api_transfer.c:81-120 | different requests have different buffers |
| `TransferCodec.EncodeDecodeExactly` | src/bank-lib/bank_api_transfer.c:280-301 | a buffer that decodes is a prepared one exactly when it is not too long and its strings have no inner zero |
| `FakeBank.Bank.MakeTransfer` | src/bank-lib/fakebank.c:352-423 | a known uid changes nothing and is answered with the row of the first transaction that carries it, if accounts up to case, amount and subject agree, and refused otherwise; an unknown one appends one debit with the next row |
| `FakeBank.AnsweredExactly` | src/bank-lib/fakebank.c:364-423 | the same of the specification: which transaction decides, by uid, and which fields are compared |
| `Text.SameTextExactly` | src/bank-lib/fakebank.c:374-378 | accounts are compared byte for byte, except that upper and lower case letters are the same |
| `FakeBank.Bank.MakeAdminTransfer` | src/bank-lib/fakebank.c:437-476 | appends a credit with the next row |
| `FakeBank.Bank.HandleDebitHistory` | src/bank-lib/fakebank.c:941-1044 | a page is the first debits of the account ahead of the starting row, in either direction, at most as many as asked for; an unknown start and a delta of zero are refused |
| `FakeBank.Bank.HandleCreditHistory` | src/bank-lib/fakebank.c:1056-1186 | the same for the credits of the account |
| `FakeBank.RefusedExactly` | src/bank-lib/fakebank.c:957-986 | exactly a delta of zero, and a starting row that no transaction has while there are some, are refused |
| `BankRuns.DebitedOnceExactly` | src/bank-lib/fakebank.c:366-423 | for any operations and any uid: the deliveries of an order move money exactly once, all replies naming that row, if and only if the first operation to carry the uid is one of them; otherwise never, and they are refused unless that transaction is a debit between the same accounts up to case, of the same amount, under the same subject |
| `BankRuns.ExactlyOnce` | src/bank-lib/fakebank.c:352-423 | under any interleaving of deliveries, retries and other transfers, an order with a uid of its own is debited exactly once and all replies name that row |
| `BankRuns.PreparedExactlyOnce` | src/bank-lib/bank_api_transfer.c:81-120 | the same from the prepared buffers on, for requests prepared with distinct uids |
| `BankRuns.RowsIncrease` | src/bank-lib/fakebank.c:404-420 | row ids strictly increase along the list |
| `BankRuns.ReuseMovesNothing` | src/bank-lib/fakebank.c:366-392 | a uid that is carried already moves no money; the row of its first transaction is named if and only if that is a debit with both accounts equal up to case and equal amount and subject; otherwise the request is refused |
| `BankRuns.ZeroUidExactly` | src/bank-lib/fakebank.c:437-476 | an order with uid zero is debited exactly if the first operation to carry that uid, transfers to the exchange included, is a delivery of the order; if it is such a transfer, the order is refused |
| `BankRuns.ForwardIsComplete` | src/bank-lib/fakebank.c:957-1038 | asking for page after page lists the account's rows in order, without gap or duplicate even when transfers are added in between, and all of them once a page is short |
| `BankRuns.AllListed` | src/bank-lib/fakebank.c:989-1038 | a complete listing of an account's debits, or credits, has exactly the transactions of that kind whose account is the same up to case |
| `BankRuns.BackwardIsComplete` | src/bank-lib/fakebank.c:957-1038 | the mirrored result for negative deltas, undisturbed by transfers added meanwhile |
| `Closer.Exchange.ExpiredReserve` | src/exchange/taler-exchange-closer.c:240-400 | empties the reserve into a closing record and, iff the rounded amount is positive, a prepared transfer |
| `Closer.Exchange.RunReserveClosures` | src/exchange/taler-exchange-closer.c:410-491 | a round closes one reserve that expired first, or leaves the database as it was; idle only if none has expired |
| `Closer.ClosureSplits` | src/exchange/taler-exchange-closer.c:295-330 | a fee that leaves nothing is cut to what was left and nothing is wired; otherwise the full fee is recorded and the rest is rounded for the transfer, with dust below one rounding unit |
| `Closer.AuditorMatchesExactly` | src/auditor/taler-helper-auditor-wire.c:1135-1160 | the wire auditor's closure matches the closer's transfer exactly when there is no dust |
| `Closer.NoTransferExpectsDust` | src/auditor/taler-helper-auditor-wire.c:1837-1886 | without a transfer the auditor expects the dust |
| `Closer.EverMatchedExactly` | src/auditor/taler-helper-auditor-wire.c:1135-1160 | after any rounds and credits with one rounding unit, some transfer matches a closure exactly when its amount less the fee is positive and needs no rounding |
| `Closer.UnmatchedStaysPending` | src/auditor/taler-helper-auditor-wire.c:624-649 | all other closures stay pending in an audit of the closer's transfers, and are read again |
| `Closer.MatchedIfWired` | src/auditor/taler-helper-auditor-wire.c:1135-1160 | after any history, under any rounding units, some transfer matches a closure if and only if some committed round on the same reserve and account wired exactly its amount less the fee |
| `Closer.UnitChangeCanMatch` | src/auditor/taler-helper-auditor-wire.c:1135-1160 | every closure with something left after its fee, whatever its dust, is matched after some further events: the same amount comes in and is closed under another unit |
| `Closer.EventsConserve` | src/exchange/taler-exchange-closer.c:410-491 | balances, recorded fees, prepared transfers and dust add up over any rounds and credits to reserves, whatever fails |
| `Closer.RoundsDrain` | src/exchange/taler-exchange-closer.c:410-491 | as many good rounds as there are expired reserves close all of them |
| `Amounts.AddExact` | src/util/amount.c:465-519 | addition is exact below the limit and fails otherwise, for all 64-bit values and 32-bit fractions |
| `Amounts.SubtractExact` | src/util/amount.c:402-453 | subtraction is exact when possible, and negative exactly when it should be |
| `Amounts.CompareExact` | src/util/amount.c:364-390 | comparison is comparison of the units meant |
| `Amounts.AddThenSubtract` | src/util/amount.c:402-519 | what is added can be taken away again |
| `Amounts.RoundDownExactly` | src/util/amount.c:707-746 | rounding yields the greatest multiple of the unit exactly when a fractional unit divides the value part, and a whole unit dividing the value part leaves no fraction |
| `Amounts.CentsRoundProperly` | src/util/amount.c:707-746 | a fractional unit that divides one whole coin always rounds to the greatest multiple |
| `Amounts.FractionIsKept` | src/util/amount.c:707-746 | an amount for which rounding is improper: by a unit of two, three and a half becomes two, but two and a half stays as it is |
| `Amounts.RoundDownDust` | src/util/amount.c:707-746 | rounding never adds and takes less than one unit |
| `Amounts.RoundedIsRoundDown` | src/util/amount.c:707-746 | the rounding the ledgers use on units is the one on values and fractions |
| `Amounts.RoundedTwice` | src/util/amount.c:707-746 | what has been rounded needs no more rounding |

## Left out

- CoinAuditor.Auditor.DepositCb: the two checks on wire details and deposit signature are one outcome each; their order only decides which diagnostic is printed.
- CoinIncome.FindingsOfRun: leaves out what the check of coin histories adds to the arithmetic total; that is in `CoinHistory`, and the two are not added up.
- ReserveRuns.BalanceOfRuns: counts only runs that commit completely or not at all, like the other results on splitting the log; half-stored runs are in `ReserveRuns.EscrowIdentityAlways` and `ReserveRuns.HalfStoredCountsTwice`.
- ReserveAuditor.Auditor.VerifyReserveBalance: does not model the expiry of reserves, the report about reserves not closed in time, or the origin account.
- ReserveAuditor.Auditor.HandleReserveClosed: does not model the comparison of the receiving account with the one the reserve came from.
- Wire.WireAuditor.Audit: does not model the time differences reported between bank and exchange, nor which of several equal closures a debit uses up.
- WireOuts.AggregationAuditor.AnalyzeAggregations: does not model the hash checks on wire details, which only add reports.
- TransferCodec.DecodeEncode: a zero length field, for which the code reads outside of the buffer, and an amount without currency, on which it aborts, are one fatal outcome.
- FakeBank.Bank.MakeTransfer: accounts are compared as given; parsing of payto URIs is not modelled, and random uids do not collide with prepared ones.
- Closer.Exchange.RunReserveClosures: a request too long to be prepared is not modelled; the prepared entry stands for its buffer. A soft error while preparing ends the closer, because the query turns any other result of its callback into a hard error (src/exchangedb/plugin_exchangedb_postgres.c:5005-5054).
- Keyup.KeyStore.UpdateKeys: requires the overlap to be below the duration, as the code checks for denominations; a signing key duration of zero would make its loop run forever.
- Currency mismatches, and overflow of the auditor's totals, end the process and are runs that do not commit.
- Database errors inside a callback other than one failed run.
- The credit side of the wire auditor, the audit of overdue deposits, and the deposit confirmations helper.
- The cache of denomination keys, report formatting, logging, configuration, HTTP and all SQL.
